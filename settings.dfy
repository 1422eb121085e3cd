/**
 * The settings panel of src/components/settings.rs: an enable flag switched by
 * `ChangeMode` actions, and two configuration values shown as text rows.
 */
module SettingsPanel {
  import opened Wrappers
  import opened Actions

  const NotSet: string := "Not Set"

  /** A configuration value as shown: the value itself, or "Not Set" when it is empty. */
  function Shown(value: string): (r: string)
    ensures r != ""
    ensures value != "" ==> r == value
    ensures value == "" ==> r == NotSet
  {
    if value == "" then NotSet else value
  }

  /** `format!("{:<20}", s)`: `s` padded with spaces on the right to 20 characters, never cut. */
  function PadRight(s: string, width: nat): (r: string)
    ensures |r| == if |s| >= width then |s| else width
    ensures r[..|s|] == s && forall k :: |s| <= k < |r| ==> r[k] == ' '
    decreases width - |s|
  {
    if |s| >= width then s else PadRight(s + " ", width)
  }

  /** One row of the panel: the padded title, a space, the shown value. */
  function Row(title: string, value: string): (r: string)
    ensures |r| == (if |title| >= 20 then |title| else 20) + 1 + |Shown(value)|
    ensures r[..|title|] == title && r[|r| - |Shown(value)|..] == Shown(value)
  {
    var padded := PadRight(title, 20);
    assert (padded + " " + Shown(value))[..|padded|] == padded;
    padded + " " + Shown(value)
  }

  /** The rows `draw_settings` shows, from `settings.cron.timezone` and `settings.users.docroot`. */
  function Rows(timezone: string, docroot: string): (r: seq<string>)
    ensures |r| == 2 && |r[0]| == 21 + |Shown(timezone)| && |r[1]| == 21 + |Shown(docroot)|
    ensures r[0][..9] == "Timezone:" && r[1][..14] == "Document Root:"
    ensures timezone != "" ==> r[0][|r[0]| - |timezone|..] == timezone
    ensures timezone == "" ==> r[0][|r[0]| - |NotSet|..] == NotSet
    ensures docroot != "" ==> r[1][|r[1]| - |docroot|..] == docroot
    ensures docroot == "" ==> r[1][|r[1]| - |NotSet|..] == NotSet
  {
    [Row("Timezone:", timezone), Row("Document Root:", docroot)]
  }

  class Settings {
    var hasCommandTx: bool
    var enabled: bool
    /** `config.settings.cron.timezone` and `config.settings.users.docroot`. */
    var timezone: string
    var docroot: string

    /** `Settings::new`: hidden, with an empty configuration. */
    constructor()
      ensures !enabled && !hasCommandTx && timezone == "" && docroot == ""
    {
      hasCommandTx := false;
      enabled := false;
      timezone := "";
      docroot := "";
    }

    method RegisterActionHandler()
      modifies this
      ensures hasCommandTx && enabled == old(enabled) && timezone == old(timezone) && docroot == old(docroot)
    {
      hasCommandTx := true;
    }

    /** `register_config_handler`: only the two shown values of the configuration are kept. */
    method RegisterConfigHandler(tz: string, root: string)
      modifies this
      ensures timezone == tz && docroot == root && hasCommandTx == old(hasCommandTx) && enabled == old(enabled)
    {
      timezone := tz;
      docroot := root;
    }

    /** `update`: `ChangeMode(Settings)` shows the panel; `ChangeMode(Home)` hides it and asks for a cleared screen, shown or not. */
    method Update(action: Action) returns (r: Option<Action>)
      modifies this
      ensures hasCommandTx == old(hasCommandTx) && timezone == old(timezone) && docroot == old(docroot)
      ensures action == ChangeMode(Module.Settings) ==> enabled && r == None
      ensures action == ChangeMode(Module.Home) ==> !enabled && r == Some(ClearScreen)
      ensures action != ChangeMode(Module.Settings) && action != ChangeMode(Module.Home) ==> enabled == old(enabled) && r == None
    {
      if action == ChangeMode(Module.Settings) {
        enabled := true;
      }
      if action == ChangeMode(Module.Home) {
        enabled := false;
        return Some(ClearScreen);
      }
      return None;
    }
  }
}
