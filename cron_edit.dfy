/**
 * The three-field cron edit form of src/components/cron/edit.rs. Its three text
 * buffers are sequences of lines with the editing behaviour of an `Editor`; each buffer
 * has a mirror string that follows its first line. The form commits straight into the
 * caller's job list and selection and returns the crontab text it writes.
 */
module CronEdit {
  import opened Wrappers
  import opened Text
  import opened Actions
  import opened TextArea
  import opened CronUtils

  /** The focused field. */
  datatype ActiveInput = CronNotation | Job | JobDescription

  /** Place of a field in the focus order. */
  function Position(a: ActiveInput): nat {
    match a
    case CronNotation => 0
    case Job => 1
    case JobDescription => 2
  }

  /** `ActiveInput::next`: the field after `a`, wrapping after the description. */
  function Next(a: ActiveInput): (r: ActiveInput)
    ensures Position(r) == (Position(a) + 1) % 3
  {
    match a
    case CronNotation => Job
    case Job => JobDescription
    case JobDescription => CronNotation
  }

  /** Focus after `k` presses of Tab. */
  function Advance(a: ActiveInput, k: nat): ActiveInput
    decreases k
  {
    if k == 0 then a else Next(Advance(a, k - 1))
  }

  lemma {:induction false} AdvancePosition(a: ActiveInput, k: nat)
    ensures Position(Advance(a, k)) == (Position(a) + k) % 3
    decreases k
  {
    if k > 0 {
      AdvancePosition(a, k - 1);
    }
  }

  /** Tab brings the focus back exactly after a multiple of three presses. */
  lemma FocusCycle(a: ActiveInput, k: nat)
    ensures Advance(a, k) == a <==> k % 3 == 0
  {
    AdvancePosition(a, k);
  }

  /** `validate`: the trimmed first line of the buffer (empty for no line) must parse. */
  function Validate(env: CronEnv, lines: seq<string>): (r: Result<(), string>)
    ensures r.Success? <==> env.parse(Trim(FirstLine(lines)), env.now).Some?
    ensures r.Failure? ==> r.error == InvalidCronExpression
  {
    var input := Trim(FirstLine(lines));
    match env.parse(input, env.now)
    case Some(_) => Success(())
    case None => Failure(InvalidCronExpression)
  }

  /** The title of the form: the description of the schedule, or the error, cut into lines of 100 characters. */
  function TitleLines(env: CronEnv, cronNotationValue: string): (r: seq<string>)
    ensures Concat(r) == (match GetHumanReadableCron(env, cronNotationValue)
                          case Success(d) => d
                          case Failure(e) => e)
    ensures forall i :: 0 <= i < |r| ==> 0 < |r[i]| <= 100
  {
    var text := match GetHumanReadableCron(env, cronNotationValue)
                case Success(d) => d
                case Failure(e) => e;
    Chunks(text, 100)
  }

  /** Whether a key goes to the focused buffer. */
  predicate IsTyped(key: KeyEvent) {
    key.code != Tab && key.code != Esc && key.code != Char('s')
  }

  /** A buffer and its mirror after `key`: the mirror follows the first line when the buffer took the key. */
  function Typed(ed: Editor, lines: seq<string>, mirror: string, key: KeyEvent): (r: (seq<string>, string))
    ensures r.0 == ed.input(lines, key).1
    ensures ed.input(lines, key).0 ==> r.1 == FirstLine(r.0)
    ensures !ed.input(lines, key).0 ==> r.1 == mirror
  {
    var (changed, after) := ed.input(lines, key);
    (after, if changed then FirstLine(after) else mirror)
  }

  predicate SelectionInRange(selected: Option<nat>, jobs: seq<CronJob>) {
    selected.Some? ==> selected.value < |jobs|
  }

  class Inputs {
    var cronNotation: seq<string>
    var job: seq<string>
    var jobDescription: seq<string>
    var currentInput: ActiveInput
    var cronNotationValue: string
    var jobValue: string
    var jobDescriptionValue: string
    var isNew: bool

    /** `Inputs::default`: three one-line empty buffers, focus on the schedule, a new record. */
    constructor ()
      ensures cronNotation == [""] && job == [""] && jobDescription == [""]
      ensures currentInput == CronNotation
      ensures cronNotationValue == "" && jobValue == "" && jobDescriptionValue == ""
      ensures isNew
    {
      cronNotation, job, jobDescription := [""], [""], [""];
      currentInput := CronNotation;
      cronNotationValue, jobValue, jobDescriptionValue := "", "", "";
      isNew := true;
    }

    /** The record `create_new_cron` and `update_selected_cron` write: the untrimmed mirrors and their next run. */
    function Draft(env: CronEnv): (r: CronJob)
      reads this
      ensures r.cronNotation == cronNotationValue && r.job == jobValue && r.jobDescription == jobDescriptionValue
      ensures r.nextExecution == GetNextExecution(env, cronNotationValue)
    {
      CronJob(cronNotationValue, jobValue, jobDescriptionValue, GetNextExecution(env, cronNotationValue))
    }

    /** `flash_inputs`. */
    method FlashInputs()
      modifies this
      ensures cronNotation == Cleared && job == Cleared && jobDescription == Cleared
      ensures currentInput == old(currentInput) && isNew == old(isNew)
      ensures cronNotationValue == old(cronNotationValue) && jobValue == old(jobValue)
      ensures jobDescriptionValue == old(jobDescriptionValue)
    {
      cronNotation, job, jobDescription := Cleared, Cleared, Cleared;
    }

    /** `flash_values`. */
    method FlashValues()
      modifies this
      ensures cronNotationValue == "" && jobValue == "" && jobDescriptionValue == ""
      ensures cronNotation == old(cronNotation) && job == old(job) && jobDescription == old(jobDescription)
      ensures currentInput == old(currentInput) && isNew == old(isNew)
    {
      cronNotationValue, jobValue, jobDescriptionValue := "", "", "";
    }

    /**
     * `handle_inputs`: Tab moves the focus; Esc hides the form and clears it; 's' commits
     * a valid schedule into the list (appended and selected for a new record, written
     * over the selected one otherwise), saves the list and hides the form; every other
     * key goes to the focused buffer.
     */
    method HandleInputs(key: KeyEvent, env: CronEnv, ed: Editor, showPopup: bool, cronJobs: seq<CronJob>, selected: Option<nat>)
      returns (popupShown: bool, jobs: seq<CronJob>, selection: Option<nat>, saved: Option<string>)
      requires key.code == Char('s') && !isNew && Validate(env, cronNotation).Success? ==>
        selected.Some? && selected.value < |cronJobs|
      modifies this
      ensures isNew == old(isNew)
      ensures SelectionInRange(selected, cronJobs) ==> SelectionInRange(selection, jobs)
      ensures saved.Some? <==> key.code == Char('s') && Validate(env, old(cronNotation)).Success?
      ensures saved.Some? ==> saved.value == CrontabText(jobs)
      // Tab
      ensures key.code == Tab ==>
        && currentInput == Next(old(currentInput))
        && cronNotation == old(cronNotation) && job == old(job) && jobDescription == old(jobDescription)
        && cronNotationValue == old(cronNotationValue) && jobValue == old(jobValue)
        && jobDescriptionValue == old(jobDescriptionValue)
        && popupShown == showPopup && jobs == cronJobs && selection == selected
      // Esc
      ensures key.code == Esc ==>
        && currentInput == CronNotation
        && cronNotation == Cleared && job == Cleared && jobDescription == Cleared
        && cronNotationValue == "" && jobValue == "" && jobDescriptionValue == ""
        && !popupShown && jobs == cronJobs && selection == selected
      // 's': the buffers, mirrors and focus never change
      ensures key.code == Char('s') ==>
        && currentInput == old(currentInput)
        && cronNotation == old(cronNotation) && job == old(job) && jobDescription == old(jobDescription)
        && cronNotationValue == old(cronNotationValue) && jobValue == old(jobValue)
        && jobDescriptionValue == old(jobDescriptionValue)
      ensures key.code == Char('s') && Validate(env, old(cronNotation)).Success? && isNew ==>
        && jobs == cronJobs + [Draft(env)] && selection == Some(|jobs| - 1) && !popupShown
      ensures key.code == Char('s') && Validate(env, old(cronNotation)).Success? && !isNew ==>
        && jobs == cronJobs[selected.value := Draft(env)] && selection == selected && !popupShown
      // the committed record keeps the untrimmed mirror, which validation did not look at
      ensures key.code == Char('s') && Validate(env, old(cronNotation)).Success?
              && env.parse(cronNotationValue, env.now).None? ==>
        (if isNew then jobs[|jobs| - 1] else jobs[selected.value]).nextExecution == InvalidCronExpression
      ensures key.code == Char('s') && Validate(env, old(cronNotation)).Failure? ==>
        popupShown == showPopup && jobs == cronJobs && selection == selected
      // every other key: only the focused buffer and its mirror may change
      ensures IsTyped(key) ==>
        && currentInput == old(currentInput)
        && popupShown == showPopup && jobs == cronJobs && selection == selected
        && (cronNotation, cronNotationValue)
           == (if old(currentInput) == CronNotation
               then Typed(ed, old(cronNotation), old(cronNotationValue), key)
               else (old(cronNotation), old(cronNotationValue)))
        && (job, jobValue)
           == (if old(currentInput) == Job
               then Typed(ed, old(job), old(jobValue), key)
               else (old(job), old(jobValue)))
        && (jobDescription, jobDescriptionValue)
           == (if old(currentInput) == JobDescription
               then Typed(ed, old(jobDescription), old(jobDescriptionValue), key)
               else (old(jobDescription), old(jobDescriptionValue)))
    {
      popupShown, jobs, selection, saved := showPopup, cronJobs, selected, None;
      if key.code == Tab {
        currentInput := Next(currentInput);
      } else if key.code == Esc {
        popupShown := false;
        FlashInputs();
        FlashValues();
        currentInput := CronNotation;
      } else if key.code == Char('s') {
        var validation := Validate(env, cronNotation);
        if validation.Success? {
          if isNew {
            jobs := jobs + [Draft(env)];
            selection := Some(|jobs| - 1);
          } else {
            jobs := jobs[selection.value := Draft(env)];
          }
          var text := SaveToCrontab(jobs);
          saved := Some(text);
          popupShown := false;
        }
      } else {
        match currentInput
        case CronNotation =>
          var (changed, after) := ed.input(cronNotation, key);
          cronNotation := after;
          if changed {
            cronNotationValue := FirstLine(cronNotation);
          }
        case Job =>
          var (changed, after) := ed.input(job, key);
          job := after;
          if changed {
            jobValue := FirstLine(job);
          }
        case JobDescription =>
          var (changed, after) := ed.input(jobDescription, key);
          jobDescription := after;
          if changed {
            jobDescriptionValue := FirstLine(jobDescription);
          }
      }
    }

    /** `init_empty`: a new record with a blank form focused on the schedule. */
    method InitEmpty()
      modifies this
      ensures isNew && currentInput == CronNotation
      ensures cronNotation == Cleared && job == Cleared && jobDescription == Cleared
      ensures cronNotationValue == "" && jobValue == "" && jobDescriptionValue == ""
    {
      isNew := true;
      FlashInputs();
      FlashValues();
      currentInput := CronNotation;
    }

    /**
     * `init`: a blank form focused on the schedule; when editing an existing record, its
     * three fields are written into the buffers and copied into the mirrors. The job list
     * itself is only read.
     */
    method Init(ed: Editor, cronJobs: seq<CronJob>, selected: Option<nat>)
      requires !isNew ==> selected.Some? && selected.value < |cronJobs|
      modifies this
      ensures isNew == old(isNew) && currentInput == CronNotation
      ensures isNew ==>
        && cronNotation == Cleared && job == Cleared && jobDescription == Cleared
        && cronNotationValue == "" && jobValue == "" && jobDescriptionValue == ""
      ensures !isNew ==>
        var r := cronJobs[selected.value];
        && cronNotation == ed.insertStr(Cleared, r.cronNotation)
        && job == ed.insertStr(Cleared, r.job)
        && jobDescription == ed.insertStr(Cleared, r.jobDescription)
        && cronNotationValue == r.cronNotation && jobValue == r.job
        && jobDescriptionValue == r.jobDescription
    {
      FlashInputs();
      FlashValues();
      currentInput := CronNotation;
      if !isNew {
        var selectedCron := cronJobs[selected.value];
        cronNotation := ed.insertStr(cronNotation, selectedCron.cronNotation);
        job := ed.insertStr(job, selectedCron.job);
        jobDescription := ed.insertStr(jobDescription, selectedCron.jobDescription);
        cronNotationValue := selectedCron.cronNotation;
        jobValue := selectedCron.job;
        jobDescriptionValue := selectedCron.jobDescription;
      }
    }
  }

  /**
   * Validation reads the trimmed buffer line while the committed record keeps the
   * untrimmed mirror: whenever the parser accepts the trimmed mirror but not the mirror
   * itself, the schedule validates and the record built from it gets the
   * invalid-expression marker as its next run.
   */
  lemma ValidationTrimsRecordDoesNot(env: CronEnv, mirror: string, job: string, jobDescription: string)
    requires env.parse(Trim(mirror), env.now).Some? && env.parse(mirror, env.now).None?
    ensures Validate(env, [mirror]).Success?
    ensures CronJob(mirror, job, jobDescription, GetNextExecution(env, mirror)).nextExecution == InvalidCronExpression
  {
    assert FirstLine([mirror]) == mirror;
  }

  /** The premise above is met: a parser that accepts exactly `* * * * *` and the mirror " * * * * *". */
  lemma {:induction false} LeadingSpaceMismatch()
    ensures
      var env := CronEnv((e: string, t: Instant) => if e == "* * * * *" then Some(t) else None,
                         (t: Instant) => "next", (e: string) => Panicked, 0);
      var mirror := " * * * * *";
      env.parse(Trim(mirror), env.now).Some? && env.parse(mirror, env.now).None?
  {
    var mirror := " * * * * *";
    assert mirror[0] == ' ';
    assert mirror[1..] == "* * * * *";
    TrimLeadingSpace("* * * * *");
    assert mirror != "* * * * *";
  }
}
