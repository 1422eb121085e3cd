/**
 * The messages the components exchange, and the key codes they read.
 *
 * `Module` and `Action` are the union of the variants the components use:
 * src/action.rs declares only Home, Cron and CronPopup, while the other panels
 * switch to Users, MySql, Webserver and Settings. The focus-advance action is
 * spelled three ways across the files (`SwtichInput` in src/action.rs,
 * `SwitchElement` in the cron popup, `SwtichElement` in the MySQL panel); the
 * three are kept as distinct variants, each component reacting to its own.
 */
module Actions {

  /** The panel a `ChangeMode` action switches to. */
  datatype Module = Home | Cron | CronPopup | Users | MySql | Webserver | Settings

  datatype Action =
    | Render
    | Resize(width: nat, height: nat)
    | Suspend
    | Resume
    | Quit
    | ClearScreen
    | Error(message: string)
    | Help
    | ChangeMode(target: Module)
    | Select
    | Confirm
    | MoveUp
    | MoveDown
    | MoveToTheFirst
    | MoveToTheLast
    | NewRecord
    | DeleteRecord
    | PassData(data: seq<string>)
    | SwtichInput
    | SwitchElement
    | SwtichElement

  /** The key codes the components tell apart; every other key is `Other`. */
  datatype KeyCode =
    | Tab
    | Esc
    | Enter
    | Up
    | Down
    | Left
    | Right
    | Backspace
    | Delete
    | Char(c: char)
    | Other(code: nat)

  /** A key press: its code and whether Control was held. */
  datatype KeyEvent = KeyEvent(code: KeyCode, ctrl: bool)
}
