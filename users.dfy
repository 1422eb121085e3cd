/**
 * The users panel of src/components/users.rs: a table of the passwd users under the
 * configured document root, with a selected row and a scrollbar whose position
 * follows the selection, three terminal rows per item.
 */
module UsersPanel {
  import opened Wrappers
  import opened Actions
  import opened UsersUtils

  /** `ITEM_HEIGHT`: terminal rows per table item. */
  const ItemHeight: nat := 3

  /** The header of the first column, whose byte length is the column's least width. */
  const UsernameHeader: string := "Username"

  /** The row `next_row` selects; it panics on `len() - 1` when rows are selected in an empty table. */
  function NextIndex(selected: Option<nat>, len: nat): (r: nat)
    requires selected.Some? ==> len > 0
    ensures len > 0 ==> r < len
    ensures selected.None? ==> r == 0
    ensures selected.Some? && selected.value < len - 1 ==> r == selected.value + 1
    ensures selected == Some(len - 1) ==> r == 0
  {
    match selected
    case None => 0
    case Some(i) => if i >= len - 1 then 0 else i + 1
  }

  /** The row `previous_row` selects. */
  function PreviousIndex(selected: Option<nat>, len: nat): (r: nat)
    requires selected.Some? ==> len > 0
    ensures len > 0 && (selected.Some? ==> selected.value < len) ==> r < len
    ensures selected.None? ==> r == 0
    ensures selected.Some? && selected.value > 0 ==> r == selected.value - 1
    ensures selected == Some(0) ==> r == len - 1
  {
    match selected
    case None => 0
    case Some(i) => if i == 0 then len - 1 else i - 1
  }

  /** The scrollbar content length for `len` items: the offset of the last item. */
  function ScrollLength(len: nat): (r: nat)
    ensures len == 0 ==> r == 0
    ensures len > 0 ==> r == (len - 1) * ItemHeight
  {
    if len == 0 then 0 else (len - 1) * ItemHeight
  }

  /** The column widths `draw_table` uses: the widest field, but never a username column narrower than its header. */
  function ColumnWidths(items: seq<User>, width: string -> nat): (r: (nat, nat, nat))
    ensures r.0 >= |UsernameHeader| && (forall i :: 0 <= i < |items| ==> width(items[i].username) <= r.0)
    ensures r.0 == |UsernameHeader| || exists i :: 0 <= i < |items| && r.0 == width(items[i].username)
    ensures (r.1, r.2) == (ConstraintLenCalculator(items, width).1, ConstraintLenCalculator(items, width).2)
  {
    var lens := ConstraintLenCalculator(items, width);
    if lens.0 < |UsernameHeader| then (|UsernameHeader|, lens.1, lens.2) else lens
  }

  class Users {
    var hasCommandTx: bool
    /** `config.settings.users.docroot`. */
    var docrootPrefix: string
    var enabled: bool
    /** `state.selected()`. */
    var selected: Option<nat>
    var items: seq<User>
    /** `scroll_state`: its content length and position. */
    var scrollLength: nat
    var scrollPosition: nat

    /** The panel is only enabled once it has loaded its rows, and loading never yields an empty table. */
    ghost predicate Valid()
      reads this
    {
      enabled ==> items != []
    }

    /** `Users::new`: disabled, no rows, row 0 selected. */
    constructor()
      ensures Valid()
      ensures !hasCommandTx && docrootPrefix == "" && !enabled
      ensures selected == Some(0) && items == [] && scrollLength == 0 && scrollPosition == 0
    {
      hasCommandTx := false;
      docrootPrefix := "";
      enabled := false;
      selected := Some(0);
      items := [];
      scrollLength := ScrollLength(0);
      scrollPosition := 0;
    }

    method RegisterActionHandler()
      modifies this
      ensures hasCommandTx
      ensures docrootPrefix == old(docrootPrefix) && enabled == old(enabled) && selected == old(selected)
      ensures items == old(items) && scrollLength == old(scrollLength) && scrollPosition == old(scrollPosition)
    {
      hasCommandTx := true;
    }

    /** `register_config_handler`: only the document-root prefix of the configuration is read. */
    method RegisterConfigHandler(prefix: string)
      modifies this
      ensures docrootPrefix == prefix
      ensures hasCommandTx == old(hasCommandTx) && enabled == old(enabled) && selected == old(selected)
      ensures items == old(items) && scrollLength == old(scrollLength) && scrollPosition == old(scrollPosition)
    {
      docrootPrefix := prefix;
    }

    method NextRow()
      modifies this
      requires selected.Some? ==> items != []
      ensures selected == Some(NextIndex(old(selected), |old(items)|)) && scrollPosition == selected.value * ItemHeight
      ensures hasCommandTx == old(hasCommandTx) && docrootPrefix == old(docrootPrefix) && enabled == old(enabled)
      ensures items == old(items) && scrollLength == old(scrollLength)
    {
      var i := match selected
        case Some(i) => if i >= |items| - 1 then 0 else i + 1
        case None => 0;
      selected := Some(i);
      scrollPosition := i * ItemHeight;
    }

    method PreviousRow()
      modifies this
      requires selected.Some? ==> items != []
      ensures selected == Some(PreviousIndex(old(selected), |old(items)|)) && scrollPosition == selected.value * ItemHeight
      ensures hasCommandTx == old(hasCommandTx) && docrootPrefix == old(docrootPrefix) && enabled == old(enabled)
      ensures items == old(items) && scrollLength == old(scrollLength)
    {
      var i := match selected
        case Some(i) => if i == 0 then |items| - 1 else i - 1
        case None => 0;
      selected := Some(i);
      scrollPosition := i * ItemHeight;
    }

    method FirstRow()
      modifies this
      ensures selected == Some(0) && scrollPosition == 0
      ensures hasCommandTx == old(hasCommandTx) && docrootPrefix == old(docrootPrefix) && enabled == old(enabled)
      ensures items == old(items) && scrollLength == old(scrollLength)
    {
      selected := Some(0);
      scrollPosition := 0;
    }

    /** `last_row`: selects the last row, and does nothing on an empty table. */
    method LastRow()
      modifies this
      ensures items != [] ==> selected == Some(|items| - 1) && scrollPosition == (|items| - 1) * ItemHeight
      ensures items == [] ==> selected == old(selected) && scrollPosition == old(scrollPosition)
      ensures hasCommandTx == old(hasCommandTx) && docrootPrefix == old(docrootPrefix) && enabled == old(enabled)
      ensures items == old(items) && scrollLength == old(scrollLength)
    {
      if items != [] {
        var lastIndex := |items| - 1;
        selected := Some(lastIndex);
        scrollPosition := lastIndex * ItemHeight;
      }
    }

    /**
     * `update`. `ChangeMode(Users)` reloads the rows from `passwd`, the file as it reads
     * at that moment, resets the scrollbar and enables the panel; while enabled,
     * `ChangeMode(Home)` disables it and asks for a cleared screen, and the four move
     * actions move the selection.
     */
    method Update(action: Action, passwd: Passwd) returns (r: Option<Action>)
      modifies this
      requires Valid()
      ensures Valid()
      ensures action == ChangeMode(Users) ==>
        items == UsersFromPasswd(old(docrootPrefix), passwd) && scrollLength == ScrollLength(|items|)
        && enabled && selected == old(selected) && scrollPosition == 0
      ensures action != ChangeMode(Users) ==> items == old(items) && scrollLength == old(scrollLength)
      ensures old(enabled) && action == ChangeMode(Home) ==> !enabled && r == Some(ClearScreen)
      ensures !(old(enabled) && action == ChangeMode(Home)) ==> r == None
      ensures !old(enabled) && action != ChangeMode(Users) ==> !enabled && selected == old(selected) && scrollPosition == old(scrollPosition)
      ensures old(enabled) && action == MoveUp ==>
        selected == Some(PreviousIndex(old(selected), |items|)) && scrollPosition == selected.value * ItemHeight
      ensures old(enabled) && action == MoveDown ==>
        selected == Some(NextIndex(old(selected), |items|)) && scrollPosition == selected.value * ItemHeight
      ensures old(enabled) && action == MoveToTheFirst ==> selected == Some(0) && scrollPosition == 0
      ensures old(enabled) && action == MoveToTheLast ==>
        selected == Some(|items| - 1) && scrollPosition == (|items| - 1) * ItemHeight
      ensures (old(enabled) && !action.MoveUp? && !action.MoveDown? && !action.MoveToTheFirst? && !action.MoveToTheLast?
        && action != ChangeMode(Users)) ==> selected == old(selected) && scrollPosition == old(scrollPosition)
      ensures old(enabled) && action != ChangeMode(Home) ==> enabled
      ensures hasCommandTx == old(hasCommandTx) && docrootPrefix == old(docrootPrefix)
    {
      if action == ChangeMode(Users) {
        items := GetUsersFromPasswd(docrootPrefix, passwd);
        NeverEmpty(docrootPrefix, passwd);
        scrollLength := ScrollLength(|items|);
        scrollPosition := 0;
        enabled := true;
      }
      if enabled {
        match action {
          case ChangeMode(Home) =>
            enabled := false;
            return Some(ClearScreen);
          case MoveUp =>
            PreviousRow();
          case MoveDown =>
            NextRow();
          case MoveToTheFirst =>
            FirstRow();
          case MoveToTheLast =>
            LastRow();
          case _ =>
        }
      }
      return None;
    }
  }

  // ---------------------------------------------------------------------------
  // What the row navigation guarantees

  /** Moving down then up, or up then down, returns to the row selected before. */
  lemma MovesUndo(i: nat, len: nat)
    requires i < len
    ensures PreviousIndex(Some(NextIndex(Some(i), len)), len) == i
    ensures NextIndex(Some(PreviousIndex(Some(i), len)), len) == i
  {
  }

  /** `k` moves down from row `i`. */
  function NextTimes(i: nat, len: nat, k: nat): nat
    requires len > 0
    decreases k
  {
    if k == 0 then i else NextIndex(Some(NextTimes(i, len, k - 1)), len)
  }

  /** Below the last row, `k` moves down from row `i` reach row `i + k`. */
  lemma {:induction false} NextTimesBelow(i: nat, len: nat, k: nat)
    requires i + k < len
    ensures NextTimes(i, len, k) == i + k
    decreases k
  {
    if k > 0 {
      NextTimesBelow(i, len, k - 1);
    }
  }

  /** Moves down compose. */
  lemma {:induction false} NextTimesAdd(i: nat, len: nat, a: nat, b: nat)
    requires len > 0
    ensures NextTimes(i, len, a + b) == NextTimes(NextTimes(i, len, a), len, b)
    decreases b
  {
    if b > 0 {
      NextTimesAdd(i, len, a, b - 1);
    }
  }

  /** As many moves down as there are rows come back to the starting row: the last row wraps to the first. */
  lemma FullCircle(i: nat, len: nat)
    requires i < len
    ensures NextTimes(i, len, len) == i
  {
    NextTimesBelow(i, len, len - 1 - i);
    NextTimesAdd(i, len, len - 1 - i, 1);
    assert NextTimes(i, len, len - i) == 0;
    NextTimesAdd(i, len, len - i, i);
    NextTimesBelow(0, len, i);
  }
}
