/**
 * The start screen of src/components/home.rs: shown at start-up, left for the cron
 * panel with the 'c' key, and shown again by `ChangeMode(Home)`.
 */
module HomePanel {
  import opened Wrappers
  import opened Actions

  class Home {
    var hasCommandTx: bool
    var enabled: bool

    /** `Home::new`: the start screen is shown first. */
    constructor()
      ensures enabled && !hasCommandTx
    {
      hasCommandTx := false;
      enabled := true;
    }

    method RegisterActionHandler()
      modifies this
      ensures hasCommandTx && enabled == old(enabled)
    {
      hasCommandTx := true;
    }

    /** `handle_key_event`: while shown, 'c' hides the screen and switches to the cron panel; any other key does nothing. */
    method HandleKeyEvent(key: KeyEvent) returns (r: Option<Action>)
      modifies this
      ensures hasCommandTx == old(hasCommandTx)
      ensures old(enabled) && key.code == Char('c') ==> !enabled && r == Some(ChangeMode(Module.Cron))
      ensures !(old(enabled) && key.code == Char('c')) ==> enabled == old(enabled) && r == None
    {
      if enabled {
        match key.code {
          case Char('c') =>
            enabled := false;
            return Some(ChangeMode(Module.Cron));
          case _ =>
        }
      }
      return None;
    }

    /** `update`: `ChangeMode(Home)` shows the screen again; no action yields a follow-up. */
    method Update(action: Action) returns (r: Option<Action>)
      modifies this
      ensures r == None && hasCommandTx == old(hasCommandTx)
      ensures enabled == (action == ChangeMode(Module.Home) || old(enabled))
    {
      match action {
        case ChangeMode(Home) =>
          enabled := true;
        case _ =>
      }
      return None;
    }
  }
}
