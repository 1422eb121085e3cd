/**
 * The cron panel of src/components/cron.rs as far as its file shows it: an
 * enable flag switched by `ChangeMode` actions. Its job table lives in a file that
 * is not part of this model.
 */
module CronPanel {
  import opened Wrappers
  import opened Actions

  class Cron {
    var hasCommandTx: bool
    var enabled: bool

    /** `Cron::new` (the derived default): hidden. */
    constructor()
      ensures !enabled && !hasCommandTx
    {
      hasCommandTx := false;
      enabled := false;
    }

    method RegisterActionHandler()
      modifies this
      ensures hasCommandTx && enabled == old(enabled)
    {
      hasCommandTx := true;
    }

    /** `update`: `ChangeMode(Cron)` shows the panel; `ChangeMode(Home)` hides it and asks for a cleared screen, shown or not. */
    method Update(action: Action) returns (r: Option<Action>)
      modifies this
      ensures hasCommandTx == old(hasCommandTx)
      ensures action == ChangeMode(Module.Cron) ==> enabled && r == None
      ensures action == ChangeMode(Module.Home) ==> !enabled && r == Some(ClearScreen)
      ensures action != ChangeMode(Module.Cron) && action != ChangeMode(Module.Home) ==> enabled == old(enabled) && r == None
    {
      match action {
        case ChangeMode(Cron) =>
          enabled := true;
        case ChangeMode(Home) =>
          enabled := false;
          return Some(ClearScreen);
        case _ =>
      }
      return None;
    }
  }
}
