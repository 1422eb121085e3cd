/**
 * The text input widget (`tui_textarea::TextArea`) as the edit forms see it: a
 * sequence of lines. Its key handling and string insertion are left abstract, as
 * function values supplied by the caller.
 */
module TextArea {
  import opened Actions

  /**
   * The widget's editing behaviour.
   * `input(lines, key)` is `TextArea::input`: whether the key modified the text, and the
   * lines afterwards. `insertStr(lines, s)` is `TextArea::insert_str` at the cursor.
   */
  datatype Editor = Editor(
    input: (seq<string>, KeyEvent) -> (bool, seq<string>),
    insertStr: (seq<string>, string) -> seq<string>)

  /**
   * The content left by `delete_line_by_head` followed by `delete_line_by_end`: the
   * cursor line emptied. The model takes the cursor line to be the only line.
   */
  const Cleared: seq<string> := [""]

  /** `lines().get(0)` (or `.first()`) with the empty string when there is no line. */
  function FirstLine(lines: seq<string>): string {
    if lines == [] then "" else lines[0]
  }
}
