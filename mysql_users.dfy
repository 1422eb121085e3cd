/**
 * The users list of the MySQL panel (src/components/mysql/users.rs): a fixed list of
 * account names with a selected entry and a scrollbar that follows it, one
 * terminal row per entry.
 */
module MySqlUsers {
  import opened Wrappers

  /** `ITEM_HEIGHT`: terminal rows per list entry. */
  const ItemHeight: nat := 1

  /** The accounts `UsersView::new` lists. */
  const DefaultUsers: seq<string> := ["root", "admin", "guest"]

  /** The entry `next_user` selects: the next one, wrapping to the first, and the first when nothing is selected. */
  function NextUserIndex(selected: Option<nat>, len: nat): (r: nat)
    requires selected.Some? ==> len > 0
    ensures len > 0 ==> r < len
    ensures selected.None? ==> r == 0
    ensures selected.Some? && selected.value < len - 1 ==> r == selected.value + 1
    ensures selected == Some(len - 1) ==> r == 0
  {
    match selected
    case Some(i) => if i < len - 1 then i + 1 else 0
    case None => 0
  }

  /** The entry `previous_user` selects: the previous one, wrapping to the last, and the last when nothing is selected. */
  function PreviousUserIndex(selected: Option<nat>, len: nat): (r: nat)
    ensures len > 0 && (selected.Some? ==> selected.value < len) ==> r < len
    ensures len > 0 && (selected.None? || selected == Some(0)) ==> r == len - 1
    ensures selected.Some? && selected.value > 0 ==> r == selected.value - 1
    ensures len == 0 && (selected.None? || selected == Some(0)) ==> r == 0
  {
    match selected
    case Some(i) => if i > 0 then i - 1 else if len > 0 then len - 1 else 0
    case None => if len > 0 then len - 1 else 0
  }

  class UsersView {
    /** The usernames shown. */
    var items: seq<string>
    /** `list_state.selected()`. */
    var selected: Option<nat>
    /** `scroll_state`: its content length and position. */
    var scrollLength: nat
    var scrollPosition: nat

    /** The list is never empty and the selection, if any, is one of its entries. */
    ghost predicate Valid()
      reads this
    {
      items != [] && (selected.Some? ==> selected.value < |items|)
    }

    /** `UsersView::new`. */
    constructor()
      ensures Valid()
      ensures items == DefaultUsers && selected == Some(0)
      ensures scrollLength == |DefaultUsers| - 1 && scrollPosition == 0
    {
      items := DefaultUsers;
      selected := Some(0);
      scrollLength := (|DefaultUsers| - 1) * ItemHeight;
      scrollPosition := 0;
    }

    method NextUser()
      modifies this
      requires Valid()
      ensures Valid()
      ensures items == old(items) && scrollLength == old(scrollLength)
      ensures selected == Some(NextUserIndex(old(selected), |items|)) && scrollPosition == selected.value * ItemHeight
    {
      var i := match selected
        case Some(i) => if i < |items| - 1 then i + 1 else 0
        case None => 0;
      selected := Some(i);
      scrollPosition := i * ItemHeight;
    }

    method PreviousUser()
      modifies this
      requires Valid()
      ensures Valid()
      ensures items == old(items) && scrollLength == old(scrollLength)
      ensures selected == Some(PreviousUserIndex(old(selected), |items|)) && scrollPosition == selected.value * ItemHeight
    {
      var i := match selected
        case Some(i) => if i > 0 then i - 1 else if |items| > 0 then |items| - 1 else 0
        case None => if |items| > 0 then |items| - 1 else 0;
      selected := Some(i);
      scrollPosition := i * ItemHeight;
    }
  }

  // ---------------------------------------------------------------------------
  // What the list navigation guarantees

  /** Down then up, or up then down, restores an in-range selection. */
  lemma MovesUndo(i: nat, len: nat)
    requires i < len
    ensures PreviousUserIndex(Some(NextUserIndex(Some(i), len)), len) == i
    ensures NextUserIndex(Some(PreviousUserIndex(Some(i), len)), len) == i
  {
  }
}
