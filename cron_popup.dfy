/**
 * The four-field cron popup of src/components/cron_popup.rs. It is switched on and off
 * by actions, filled from a `PassData` message, edited by keys, and on confirmation
 * sends the edited record back as a `PassData` message. The channel it sends on is a
 * ghost outbox: the sequence of actions sent so far.
 */
module CronPopup {
  import opened Wrappers
  import opened Text
  import opened Actions
  import opened TextArea
  import opened Decimal
  import CronEdit
  import opened CronUtils

  /** The focused field of the popup. */
  datatype PopupInput = CronNotation | Job | JobDescription | AIQuestion

  function Position(a: PopupInput): nat {
    match a
    case CronNotation => 0
    case Job => 1
    case JobDescription => 2
    case AIQuestion => 3
  }

  /** `ActiveInput::next` of the popup: a cycle through the four fields. */
  function Next(a: PopupInput): (r: PopupInput)
    ensures Position(r) == (Position(a) + 1) % 4
  {
    match a
    case CronNotation => Job
    case Job => JobDescription
    case JobDescription => AIQuestion
    case AIQuestion => CronNotation
  }

  /** Focus after `k` `SwitchElement` actions. */
  function Advance(a: PopupInput, k: nat): PopupInput
    decreases k
  {
    if k == 0 then a else Next(Advance(a, k - 1))
  }

  lemma {:induction false} AdvancePosition(a: PopupInput, k: nat)
    ensures Position(Advance(a, k)) == (Position(a) + k) % 4
    decreases k
  {
    if k > 0 {
      AdvancePosition(a, k - 1);
    }
  }

  /** The focus comes back exactly after a multiple of four steps. */
  lemma FocusCycle(a: PopupInput, k: nat)
    ensures Advance(a, k) == a <==> k % 4 == 0
  {
    AdvancePosition(a, k);
  }

  const AiRequestPrefix: string := "0 0 1 1 *: "

  /** `make_request_to_ai`: the stand-in answer built from the question. */
  function AiRequest(question: string): (r: string)
    ensures StartsWith(r, AiRequestPrefix) && |r| == |AiRequestPrefix| + |question| + 1
    ensures r[|r| - 1] == ':'
  {
    AiRequestPrefix + question + ":"
  }

  /** The question an answer of `AiRequest` was built from. */
  function AiQuestionOf(answer: string): string
    requires |answer| > |AiRequestPrefix|
  {
    answer[|AiRequestPrefix|..|answer| - 1]
  }

  /** The answer gives back the question it was built from. */
  lemma AiQuestionRoundTrip(question: string)
    ensures AiQuestionOf(AiRequest(question)) == question
  {
    var answer := AiRequest(question);
    assert answer[|AiRequestPrefix|..|answer| - 1] == question;
  }

  /** What `update` demands of a `PassData` message: empty, or at least four fields, the first an `i32`. */
  predicate Receivable(action: Action) {
    action.PassData? && action.data != [] ==> |action.data| >= 4 && ParseI32(action.data[0]).Some?
  }

  ghost predicate AllReceivable(messages: seq<Action>) {
    forall k :: 0 <= k < |messages| ==> Receivable(messages[k])
  }

  /** Sending a message `PassData` can read keeps the whole outbox readable. */
  lemma SendReceivable(messages: seq<Action>, m: Action)
    requires AllReceivable(messages) && Receivable(m)
    ensures AllReceivable(messages + [m])
  {
    var all := messages + [m];
    forall k | 0 <= k < |all|
      ensures Receivable(all[k])
    {
      if k < |messages| {
        assert all[k] == messages[k];
      }
    }
  }

  /** The message `Confirm` sends: the index and the three mirror values. */
  function ConfirmMessage(index: int, cronNotation: string, job: string, jobDescription: string): (r: Action)
    requires MinI32 <= index <= MaxI32
    ensures r.PassData? && |r.data| == 4 && Receivable(r)
    ensures ParseI32(r.data[0]) == Some(index) && r.data[1..] == [cronNotation, job, jobDescription]
  {
    ParseShow(index);
    PassData([I32ToString(index), cronNotation, job, jobDescription])
  }

  class CronPopup {
    var hasCommandTx: bool
    var enabled: bool
    var isNew: bool
    var index: int
    var cronNotation: seq<string>
    var job: seq<string>
    var jobDescription: seq<string>
    var aiQuestion: seq<string>
    var currentInput: PopupInput
    var cronNotationValue: string
    var jobValue: string
    var jobDescriptionValue: string
    var aiQuestionValue: string
    ghost var outbox: seq<Action>

    /** The index is an `i32`, and every message sent so far is one the popup accepts. */
    ghost predicate Valid()
      reads this
    {
      MinI32 <= index <= MaxI32 && AllReceivable(outbox)
    }

    /** `CronPopup::default` (and `new`): disabled, no channel, index -1, a new record, empty fields. */
    constructor ()
      ensures Valid()
      ensures !hasCommandTx && !enabled && isNew && index == -1
      ensures cronNotation == [""] && job == [""] && jobDescription == [""] && aiQuestion == [""]
      ensures currentInput == CronNotation
      ensures cronNotationValue == "" && jobValue == "" && jobDescriptionValue == "" && aiQuestionValue == ""
      ensures outbox == []
    {
      hasCommandTx, enabled, isNew, index := false, false, true, -1;
      cronNotation, job, jobDescription, aiQuestion := [""], [""], [""], [""];
      currentInput := CronNotation;
      cronNotationValue, jobValue, jobDescriptionValue, aiQuestionValue := "", "", "", "";
      outbox := [];
    }

    /** `register_action_handler`: the popup now holds a sender. */
    method RegisterActionHandler()
      modifies this
      ensures hasCommandTx
      ensures enabled == old(enabled) && isNew == old(isNew) && index == old(index)
      ensures cronNotation == old(cronNotation) && job == old(job) && jobDescription == old(jobDescription)
      ensures aiQuestion == old(aiQuestion) && currentInput == old(currentInput)
      ensures cronNotationValue == old(cronNotationValue) && jobValue == old(jobValue)
      ensures jobDescriptionValue == old(jobDescriptionValue) && aiQuestionValue == old(aiQuestionValue)
      ensures outbox == old(outbox)
    {
      hasCommandTx := true;
    }

    /** `flash_inputs` followed by `flash_values`: every buffer and every mirror emptied. */
    method Flash()
      modifies this
      ensures cronNotation == Cleared && job == Cleared && jobDescription == Cleared && aiQuestion == Cleared
      ensures cronNotationValue == "" && jobValue == "" && jobDescriptionValue == "" && aiQuestionValue == ""
      ensures hasCommandTx == old(hasCommandTx) && enabled == old(enabled) && isNew == old(isNew)
      ensures index == old(index) && currentInput == old(currentInput) && outbox == old(outbox)
    {
      cronNotation, job, jobDescription, aiQuestion := Cleared, Cleared, Cleared, Cleared;
      cronNotationValue, jobValue, jobDescriptionValue, aiQuestionValue := "", "", "", "";
    }

    /** `initial_render`: the fields cleared and the focus on the schedule. */
    method InitialRender()
      modifies this
      ensures cronNotation == Cleared && job == Cleared && jobDescription == Cleared && aiQuestion == Cleared
      ensures cronNotationValue == "" && jobValue == "" && jobDescriptionValue == "" && aiQuestionValue == ""
      ensures currentInput == CronNotation
      ensures hasCommandTx == old(hasCommandTx) && enabled == old(enabled) && isNew == old(isNew)
      ensures index == old(index) && outbox == old(outbox)
    {
      Flash();
      currentInput := CronNotation;
    }

    /**
     * `handle_key_event`: nothing happens while disabled. Tab and Enter do nothing; Up on
     * the question field puts the stand-in answer into the schedule field; every other
     * key goes to the focused buffer. No follow-up action is ever returned.
     */
    method HandleKeyEvent(key: KeyEvent, ed: Editor) returns (r: Option<Action>)
      modifies this
      ensures r == None
      ensures hasCommandTx == old(hasCommandTx) && enabled == old(enabled) && isNew == old(isNew)
      ensures index == old(index) && currentInput == old(currentInput) && outbox == old(outbox)
      ensures aiQuestion == old(aiQuestion) || (old(enabled) && old(currentInput) == AIQuestion)
      ensures (!old(enabled) || key.code == Tab || key.code == Enter
               || (key.code == Up && old(currentInput) != AIQuestion)) ==>
        && cronNotation == old(cronNotation) && job == old(job) && jobDescription == old(jobDescription)
        && aiQuestion == old(aiQuestion)
        && cronNotationValue == old(cronNotationValue) && jobValue == old(jobValue)
        && jobDescriptionValue == old(jobDescriptionValue) && aiQuestionValue == old(aiQuestionValue)
      ensures old(enabled) && key.code == Up && old(currentInput) == AIQuestion ==>
        && cronNotationValue == AiRequest(old(aiQuestionValue))
        && cronNotation == ed.insertStr(Cleared, cronNotationValue)
        && job == old(job) && jobDescription == old(jobDescription) && aiQuestion == old(aiQuestion)
        && jobValue == old(jobValue) && jobDescriptionValue == old(jobDescriptionValue)
        && aiQuestionValue == old(aiQuestionValue)
      ensures old(enabled) && key.code != Tab && key.code != Enter && key.code != Up ==>
        && (cronNotation, cronNotationValue)
           == (if old(currentInput) == CronNotation
               then CronEdit.Typed(ed, old(cronNotation), old(cronNotationValue), key)
               else (old(cronNotation), old(cronNotationValue)))
        && (job, jobValue)
           == (if old(currentInput) == Job
               then CronEdit.Typed(ed, old(job), old(jobValue), key)
               else (old(job), old(jobValue)))
        && (jobDescription, jobDescriptionValue)
           == (if old(currentInput) == JobDescription
               then CronEdit.Typed(ed, old(jobDescription), old(jobDescriptionValue), key)
               else (old(jobDescription), old(jobDescriptionValue)))
        && (aiQuestion, aiQuestionValue)
           == (if old(currentInput) == AIQuestion
               then CronEdit.Typed(ed, old(aiQuestion), old(aiQuestionValue), key)
               else (old(aiQuestion), old(aiQuestionValue)))
    {
      if enabled {
        if key.code == Tab || key.code == Enter {
        } else if key.code == Up {
          if currentInput == AIQuestion {
            cronNotationValue := AiRequest(aiQuestionValue);
            cronNotation := Cleared;
            cronNotation := ed.insertStr(cronNotation, cronNotationValue);
          }
        } else {
          match currentInput
          case CronNotation =>
            var (changed, after) := ed.input(cronNotation, key);
            cronNotation := after;
            if changed {
              cronNotationValue := FirstLine(cronNotation);
            }
          case Job =>
            var (changed, after) := ed.input(job, key);
            job := after;
            if changed {
              jobValue := FirstLine(job);
            }
          case JobDescription =>
            var (changed, after) := ed.input(jobDescription, key);
            jobDescription := after;
            if changed {
              jobDescriptionValue := FirstLine(jobDescription);
            }
          case AIQuestion =>
            var (changed, after) := ed.input(aiQuestion, key);
            aiQuestion := after;
            if changed {
              aiQuestionValue := FirstLine(aiQuestion);
            }
        }
      }
      return None;
    }

    /** The `PassData(cron)` branch of `update`: the form cleared, then filled from a non-empty message. */
    method Receive(cron: seq<string>, ed: Editor)
      requires Valid() && Receivable(PassData(cron))
      modifies this
      ensures MinI32 <= index <= MaxI32 && AllReceivable(outbox)
      ensures Valid()
      ensures hasCommandTx == old(hasCommandTx) && enabled == old(enabled) && outbox == old(outbox)
      ensures aiQuestion == Cleared && aiQuestionValue == "" && currentInput == CronNotation
      ensures cron == [] ==>
        && isNew && index == old(index)
        && cronNotation == Cleared && job == Cleared && jobDescription == Cleared
        && cronNotationValue == "" && jobValue == "" && jobDescriptionValue == ""
      ensures cron != [] ==>
        && !isNew && Some(index) == ParseI32(cron[0])
        && cronNotationValue == cron[1] && jobValue == cron[2] && jobDescriptionValue == cron[3]
        && cronNotation == ed.insertStr(Cleared, cron[1])
        && job == ed.insertStr(Cleared, cron[2])
        && jobDescription == ed.insertStr(Cleared, cron[3])
    {
      InitialRender();
      if cron != [] {
        Fill(cron, ed);
      } else {
        isNew := true;
      }
    }

    /** The fields of an existing record written into the cleared form. */
    method Fill(cron: seq<string>, ed: Editor)
      requires |cron| >= 4 && ParseI32(cron[0]).Some?
      requires cronNotation == Cleared && job == Cleared && jobDescription == Cleared
      modifies this
      ensures !isNew && Some(index) == ParseI32(cron[0]) && MinI32 <= index <= MaxI32
      ensures cronNotationValue == cron[1] && jobValue == cron[2] && jobDescriptionValue == cron[3]
      ensures cronNotation == ed.insertStr(Cleared, cron[1])
      ensures job == ed.insertStr(Cleared, cron[2])
      ensures jobDescription == ed.insertStr(Cleared, cron[3])
      ensures hasCommandTx == old(hasCommandTx) && enabled == old(enabled) && outbox == old(outbox)
      ensures aiQuestion == old(aiQuestion) && aiQuestionValue == old(aiQuestionValue)
      ensures currentInput == old(currentInput)
    {
      var parsed := ParseI32(cron[0]);
      isNew, index := false, parsed.value;
      cronNotationValue, jobValue, jobDescriptionValue := cron[1], cron[2], cron[3];
      cronNotation, job, jobDescription :=
        ed.insertStr(Cleared, cron[1]), ed.insertStr(Cleared, cron[2]), ed.insertStr(Cleared, cron[3]);
    }

    /** The part of `update` that runs only while the popup is enabled. */
    method React(action: Action, env: CronEnv) returns (r: Option<Action>)
      requires Valid() && enabled
      requires action == Confirm && CronEdit.Validate(env, cronNotation).Success? ==> hasCommandTx
      modifies this
      ensures Valid()
      ensures hasCommandTx == old(hasCommandTx) && isNew == old(isNew) && index == old(index)
      ensures r.Some? <==> action == Confirm && CronEdit.Validate(env, old(cronNotation)).Success?
      ensures r.Some? ==>
        && r.value == ChangeMode(Module.Cron) && !enabled
        && outbox == old(outbox) + [ConfirmMessage(index, cronNotationValue, jobValue, jobDescriptionValue)]
      ensures r.None? ==> outbox == old(outbox)
      ensures action == ChangeMode(Module.Cron) ==>
        && !enabled && currentInput == old(currentInput)
        && cronNotation == Cleared && job == Cleared && jobDescription == Cleared && aiQuestion == Cleared
        && cronNotationValue == "" && jobValue == "" && jobDescriptionValue == "" && aiQuestionValue == ""
      ensures action != ChangeMode(Module.Cron) ==>
        && cronNotation == old(cronNotation) && job == old(job) && jobDescription == old(jobDescription)
        && aiQuestion == old(aiQuestion)
        && cronNotationValue == old(cronNotationValue) && jobValue == old(jobValue)
        && jobDescriptionValue == old(jobDescriptionValue) && aiQuestionValue == old(aiQuestionValue)
      ensures action == SwitchElement ==> enabled && currentInput == Next(old(currentInput))
      ensures action == Confirm && r.None? ==> enabled && currentInput == CronNotation
      ensures action != ChangeMode(Module.Cron) && action != SwitchElement && action != Confirm ==>
        enabled && currentInput == old(currentInput)
    {
      r := None;
      if action == ChangeMode(Module.Cron) {
        Flash();
        enabled := false;
      } else if action == SwitchElement {
        currentInput := Next(currentInput);
      } else if action == Confirm {
        var validation := CronEdit.Validate(env, cronNotation);
        if validation.Success? {
          var message := ConfirmMessage(index, cronNotationValue, jobValue, jobDescriptionValue);
          SendReceivable(outbox, message);
          outbox := outbox + [message];
          enabled := false;
          r := Some(ChangeMode(Module.Cron));
        } else {
          currentInput := CronNotation;
        }
      }
    }

    /**
     * `update`: `ChangeMode(CronPopup)` enables; `PassData` refills the form, enabled or
     * not; then, while enabled, `ChangeMode(Cron)` clears and disables, `SwitchElement`
     * moves the focus, and `Confirm` either sends the record and hands control back to
     * the cron panel or, for an invalid schedule, moves the focus to the schedule.
     */
    method Update(action: Action, env: CronEnv, ed: Editor) returns (r: Option<Action>)
      requires Valid()
      requires Receivable(action)
      requires enabled && action == Confirm && CronEdit.Validate(env, cronNotation).Success? ==> hasCommandTx
      modifies this
      ensures Valid()
      ensures hasCommandTx == old(hasCommandTx)
      ensures r.Some? <==> old(enabled) && action == Confirm && CronEdit.Validate(env, old(cronNotation)).Success?
      ensures r.Some? ==>
        && r.value == ChangeMode(Module.Cron) && !enabled
        && outbox == old(outbox) + [ConfirmMessage(index, cronNotationValue, jobValue, jobDescriptionValue)]
      ensures r.None? ==> outbox == old(outbox)
      // enabling
      ensures action == ChangeMode(Module.CronPopup) ==> enabled
      // filling, enabled or not
      ensures action.PassData? ==>
        && enabled == old(enabled) && aiQuestion == Cleared && aiQuestionValue == ""
        && currentInput == CronNotation
        && (action.data == [] ==>
              && isNew && index == old(index)
              && cronNotation == Cleared && job == Cleared && jobDescription == Cleared
              && cronNotationValue == "" && jobValue == "" && jobDescriptionValue == "")
        && (action.data != [] ==>
              && !isNew && Some(index) == ParseI32(action.data[0])
              && cronNotationValue == action.data[1] && jobValue == action.data[2]
              && jobDescriptionValue == action.data[3]
              && cronNotation == ed.insertStr(Cleared, action.data[1])
              && job == ed.insertStr(Cleared, action.data[2])
              && jobDescription == ed.insertStr(Cleared, action.data[3]))
      // closing
      ensures old(enabled) && action == ChangeMode(Module.Cron) ==>
        && !enabled && currentInput == old(currentInput)
        && cronNotation == Cleared && job == Cleared && jobDescription == Cleared && aiQuestion == Cleared
        && cronNotationValue == "" && jobValue == "" && jobDescriptionValue == "" && aiQuestionValue == ""
      // focus
      ensures old(enabled) && action == SwitchElement ==> enabled && currentInput == Next(old(currentInput))
      ensures old(enabled) && action == Confirm && r.None? ==> enabled && currentInput == CronNotation
      // everything else leaves the state as it was
      ensures !action.PassData? && !(old(enabled) && action == ChangeMode(Module.Cron)) ==>
        && isNew == old(isNew) && index == old(index)
        && cronNotation == old(cronNotation) && job == old(job) && jobDescription == old(jobDescription)
        && aiQuestion == old(aiQuestion)
        && cronNotationValue == old(cronNotationValue) && jobValue == old(jobValue)
        && jobDescriptionValue == old(jobDescriptionValue) && aiQuestionValue == old(aiQuestionValue)
      ensures (!old(enabled) || (action != SwitchElement && action != Confirm)) && !action.PassData? ==>
        currentInput == old(currentInput)
      ensures (action != ChangeMode(Module.CronPopup) && !(old(enabled) && action == ChangeMode(Module.Cron))
               && r.None?) ==> enabled == old(enabled)
    {
      if action == ChangeMode(Module.CronPopup) {
        enabled := true;
      }
      if action.PassData? {
        Receive(action.data, ed);
      }
      r := None;
      if enabled {
        r := React(action, env);
      }
    }
  }
}
