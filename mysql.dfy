/**
 * The MySQL panel of src/components/mysql.rs: four tabs cycled by the focus-advance
 * action, a footer whose keybindings depend on the tab, and the users list, which
 * receives the up and down moves only while its tab is shown.
 */
module MySqlPanel {
  import opened Wrappers
  import opened Actions
  import opened MySqlUsers

  datatype SelectedTab = General | Users | Databases | Logs

  /** The declaration order of the tabs (`self as usize`). */
  function TabIndex(t: SelectedTab): nat {
    match t
    case General => 0
    case Users => 1
    case Databases => 2
    case Logs => 3
  }

  /** `SelectedTab::from_repr`. */
  function TabAt(n: nat): (r: Option<SelectedTab>)
    ensures r.Some? <==> n < 4
    ensures r.Some? ==> TabIndex(r.value) == n
  {
    if n == 0 then Some(General)
    else if n == 1 then Some(SelectedTab.Users)
    else if n == 2 then Some(Databases)
    else if n == 3 then Some(Logs)
    else None
  }

  /** `SelectedTab::next`: the following tab in declaration order, the last wrapping to the first. */
  function Next(t: SelectedTab): (r: SelectedTab)
    ensures TabIndex(r) == (TabIndex(t) + 1) % 4
  {
    match t
    case General => SelectedTab.Users
    case Users => Databases
    case Databases => Logs
    case Logs => General
  }

  /** `next` is `from_repr((self as usize + 1) % count)`, whose fallback to `self` is never taken. */
  lemma NextIsFromRepr(t: SelectedTab)
    ensures TabAt((TabIndex(t) + 1) % 4).Some?
    ensures Next(t) == TabAt((TabIndex(t) + 1) % 4).value
  {
  }

  /** The tab's name, as the derived `Display` writes it. */
  function Name(t: SelectedTab): (r: string)
    ensures r == ["General", "Users", "Databases", "Logs"][TabIndex(t)]
  {
    match t
    case General => "General"
    case Users => "Users"
    case Databases => "Databases"
    case Logs => "Logs"
  }

  /** `SelectedTab::title`: the name padded by two spaces on each side (colours are not modelled). */
  function Title(t: SelectedTab): (r: string)
    ensures |r| == |Name(t)| + 4 && r[..2] == "  " && r[|r| - 2..] == "  "
    ensures r[2..|r| - 2] == Name(t)
  {
    "  " + Name(t) + "  "
  }

  const Quit: (string, string) := ("<Esc>", "Quit")
  const MoveUpDown: (string, string) := ("<↓↑>", "Move up and down")
  const NextTab: (string, string) := ("<Tab>", "Next Tab")
  const FirstTab: (string, string) := ("<Tab>", "First Tab")

  /** `SelectedTab::footer_info`. */
  function FooterInfo(t: SelectedTab): (r: seq<(string, string)>)
    ensures |r| == if t == SelectedTab.Users || t == Databases then 3 else 2
    ensures forall k :: 0 <= k < |r| ==> r[k].0 != "" && r[k].1 != ""
  {
    match t
    case General => [Quit, NextTab]
    case Users => [Quit, MoveUpDown, NextTab]
    case Databases => [Quit, MoveUpDown, NextTab]
    case Logs => [Quit, FirstTab]
  }

  /** Every footer starts with Quit and ends with the Tab key; the list tabs add the move keys; only the last tab says where Tab leads back to. */
  lemma FooterShape(t: SelectedTab)
    ensures var f := FooterInfo(t);
      |f| >= 2 && f[0] == Quit && f[|f| - 1].0 == "<Tab>"
      && (MoveUpDown in f <==> t == SelectedTab.Users || t == Databases)
      && (f[|f| - 1] == FirstTab <==> t == Logs)
      && (f[|f| - 1] == NextTab <==> t != Logs)
  {
  }

  /** `k` applications of `next`. */
  function NextTimes(t: SelectedTab, k: nat): SelectedTab
    decreases k
  {
    if k == 0 then t else Next(NextTimes(t, k - 1))
  }

  /** `k` advances move the tab index by `k`, modulo the four tabs. */
  lemma {:induction false} NextTimesIndex(t: SelectedTab, k: nat)
    ensures TabIndex(NextTimes(t, k)) == (TabIndex(t) + k) % 4
    decreases k
  {
    if k > 0 {
      NextTimesIndex(t, k - 1);
      var j := TabIndex(NextTimes(t, k - 1));
      assert TabIndex(NextTimes(t, k)) == (j + 1) % 4;
      ModFourStep(TabIndex(t) + k - 1);
    }
  }

  lemma ModFourStep(x: nat)
    ensures (x % 4 + 1) % 4 == (x + 1) % 4
  {
  }

  /** The tab comes back exactly after a multiple of four advances. */
  lemma TabCycle(t: SelectedTab, k: nat)
    ensures NextTimes(t, k) == t <==> k % 4 == 0
  {
    NextTimesIndex(t, k);
  }

  class MySql {
    var hasCommandTx: bool
    var enabled: bool
    var selectedTab: SelectedTab
    var usersView: UsersView

    ghost predicate Valid()
      reads this, usersView
    {
      usersView.Valid()
    }

    /** `MySql::new`: disabled, on the first tab. */
    constructor()
      ensures Valid() && fresh(usersView)
      ensures !hasCommandTx && !enabled && selectedTab == General
      ensures usersView.items == DefaultUsers && usersView.selected == Some(0)
    {
      hasCommandTx := false;
      enabled := false;
      selectedTab := General;
      usersView := new UsersView();
    }

    method RegisterActionHandler()
      modifies this
      ensures hasCommandTx && enabled == old(enabled) && selectedTab == old(selectedTab) && usersView == old(usersView)
    {
      hasCommandTx := true;
    }

    method NextTab()
      modifies this
      ensures selectedTab == Next(old(selectedTab))
      ensures hasCommandTx == old(hasCommandTx) && enabled == old(enabled) && usersView == old(usersView)
    {
      selectedTab := Next(selectedTab);
    }

    /**
     * `update`. `ChangeMode(MySql)` enables the panel. While enabled, `ChangeMode(Home)`
     * disables it and asks for a cleared screen before anything else; the focus-advance
     * action moves to the next tab; and, on the users tab, the up and down moves
     * reach the users list.
     */
    method Update(action: Action) returns (r: Option<Action>)
      modifies this, usersView
      requires Valid()
      ensures Valid()
      ensures usersView == old(usersView) && hasCommandTx == old(hasCommandTx)
      ensures usersView.items == old(usersView.items) && usersView.scrollLength == old(usersView.scrollLength)
      ensures var on := old(enabled) || action == ChangeMode(MySql);
        && (on && action == ChangeMode(Home) ==> !enabled && r == Some(ClearScreen))
        && (!(on && action == ChangeMode(Home)) ==> r == None && enabled == on)
        && selectedTab == (if on && action == SwtichElement then Next(old(selectedTab)) else old(selectedTab))
      ensures var routed := (old(enabled) || action == ChangeMode(MySql)) && selectedTab == SelectedTab.Users;
        && (routed && action == MoveDown ==>
              usersView.selected == Some(NextUserIndex(old(usersView.selected), |usersView.items|))
              && usersView.scrollPosition == usersView.selected.value * ItemHeight)
        && (routed && action == MoveUp ==>
              usersView.selected == Some(PreviousUserIndex(old(usersView.selected), |usersView.items|))
              && usersView.scrollPosition == usersView.selected.value * ItemHeight)
        && (!(routed && (action == MoveDown || action == MoveUp)) ==>
              usersView.selected == old(usersView.selected) && usersView.scrollPosition == old(usersView.scrollPosition))
    {
      if action == ChangeMode(MySql) {
        enabled := true;
      }
      if enabled {
        match action {
          case ChangeMode(Home) =>
            enabled := false;
            return Some(ClearScreen);
          case SwtichElement =>
            NextTab();
          case _ =>
        }
        match selectedTab {
          case Users =>
            match action {
              case MoveDown =>
                usersView.NextUser();
              case MoveUp =>
                usersView.PreviousUser();
              case _ =>
            }
          case _ =>
        }
      }
      return None;
    }
  }
}
