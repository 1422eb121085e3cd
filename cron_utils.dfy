/**
 * The crontab codec and the cron helpers of src/components/cron/utils.rs.
 *
 * The crontab text follows crontab(5): one job per line, five schedule fields and then
 * the command, with '#' comment lines; a comment is kept as the description of the job
 * that follows it. The `crontab -l` and `crontab` processes are not run: their output
 * is a parameter of `FromCrontab`, and `SaveToCrontab` returns the text it would pipe
 * to `crontab`. The cron libraries (`cron_parser::parse`, the formatting of the next
 * instant, `cron_descriptor`) and the clock are the fields of a `CronEnv`.
 */
module CronUtils {
  import opened Wrappers
  import opened Text

  /** A `DateTime<Utc>`, in seconds. */
  type Instant = int

  /** What `catch_unwind(|| get_description_cron_options(..))` yields. */
  datatype Description =
    | Described(text: string)
    | DescriptorError(debug: string)  // Ok(Err(e)), with `e` shown by `{:?}`
    | Panicked                        // Err(_): the library panicked

  /**
   * The delegated capabilities: `parse(expr, now)` is `cron_parser::parse`, giving the
   * next trigger instant or nothing on a parse error; `format` is `format!("{}", t)`;
   * `describe` is the natural-language description; `now` is the reading of
   * `Utc::now()` that one operation sees.
   */
  datatype CronEnv = CronEnv(
    parse: (string, Instant) -> Option<Instant>,
    format: Instant -> string,
    describe: string -> Description,
    now: Instant)

  /** One schedule entry (fields as used in src/components/cron/utils.rs). */
  datatype CronJob = CronJob(
    cronNotation: string,
    job: string,
    jobDescription: string,
    nextExecution: string)

  const InvalidCronExpression: string := "Invalid cron expression"
  const EmptyExpressionError: string := "Cron expression is empty"
  const UnsupportedExpressionError: string := "Unable to generate human-readable format"
  const DescriptorErrorPrefix: string := "Failed to generate human-readable format: "
  const DescriptorPanicError: string := "Library function panicked while generating description"
  const NoCrontabMarker: string := "no crontab for"
  const NoCrontabNotation: string := "User has no crontab"
  const ReadCrontabError: string := "Failed to read crontab"

  /** `get_next_execution`: never fails; the fixed marker stands for a parse error. */
  function GetNextExecution(env: CronEnv, cronExpr: string): (r: string)
    ensures env.parse(cronExpr, env.now).None? ==> r == InvalidCronExpression
    ensures env.parse(cronExpr, env.now).Some? ==> r == env.format(env.parse(cronExpr, env.now).value)
  {
    match env.parse(cronExpr, env.now)
    case Some(next) => env.format(next)
    case None => InvalidCronExpression
  }

  /**
   * `get_human_readable_cron`: checks, in this order, for an all-whitespace expression,
   * then for one that does not parse (trimmed) or holds a ',', and only then asks the
   * descriptor, whose error or panic becomes an error value.
   */
  function GetHumanReadableCron(env: CronEnv, cronExpr: string): (r: Result<string, string>)
    ensures Trim(cronExpr) == "" ==> r == Failure(EmptyExpressionError)
    ensures Trim(cronExpr) != "" && (env.parse(Trim(cronExpr), env.now).None? || ',' in cronExpr)
      ==> r == Failure(UnsupportedExpressionError)
    ensures r.Success? <==>
      Trim(cronExpr) != "" && env.parse(Trim(cronExpr), env.now).Some? && ',' !in cronExpr
      && env.describe(Trim(cronExpr)).Described?
    ensures r.Success? ==> r.value == env.describe(Trim(cronExpr)).text
    ensures r.Failure? && Trim(cronExpr) != "" && env.parse(Trim(cronExpr), env.now).Some? && ',' !in cronExpr
      ==> r.error == (match env.describe(Trim(cronExpr))
                      case DescriptorError(e) => DescriptorErrorPrefix + e
                      case _ => DescriptorPanicError)
  {
    var trimmedExpr := Trim(cronExpr);
    if trimmedExpr == "" then Failure(EmptyExpressionError)
    else if env.parse(trimmedExpr, env.now).None? || ',' in cronExpr then Failure(UnsupportedExpressionError)
    else
      match env.describe(trimmedExpr)
      case Described(description) => Success(description)
      case DescriptorError(e) => Failure(DescriptorErrorPrefix + e)
      case Panicked => Failure(DescriptorPanicError)
  }

  // ---------------------------------------------------------------------------
  // Reading a crontab listing

  /** The result of `crontab -l`: exit status and the two output streams as text. */
  datatype ProcessOutput = ProcessOutput(success: bool, stdout: string, stderr: string)

  /** What the read loop carries from line to line: the pending comment and the jobs so far. */
  datatype ScanState = ScanState(comment: Option<string>, jobs: seq<CronJob>)

  const StartState: ScanState := ScanState(None, [])

  /** The description a comment line gives: every leading '#' removed, then trimmed. */
  function CommentText(line: string): (r: string)
    ensures IsTrimmed(r) && |r| <= |line|
    ensures line != [] && line[0] == '#' ==> |r| < |line|
  {
    Trim(TrimStartMatches(line, '#'))
  }

  /** The record a line split into `parts` (at least six) yields, given the pending comment. */
  function RecordOf(env: CronEnv, parts: seq<string>, comment: Option<string>): (r: CronJob)
    requires |parts| >= 6
    ensures (forall w :: w in parts ==> IsWord(w)) ==>
      SplitWhitespace(r.cronNotation) == parts[..5] && SplitWhitespace(r.job) == parts[5..] && r.job != ""
    ensures r.jobDescription == (if comment.Some? then comment.value else "")
    ensures r.nextExecution == GetNextExecution(env, r.cronNotation)
  {
    var cronNotation := Join(parts[..5], " ");
    var r := CronJob(cronNotation, Join(parts[5..], " "), comment.GetOr(""), GetNextExecution(env, cronNotation));
    if forall w :: w in parts ==> IsWord(w) then
      assert forall w :: w in parts[..5] ==> w in parts;
      assert forall w :: w in parts[5..] ==> w in parts;
      SplitJoin(parts[..5]);
      SplitJoin(parts[5..]);
      assert parts[5] in parts;
      r
    else r
  }

  /** One pass of the loop body of `from_crontab` over a raw line. */
  function ScanLine(env: CronEnv, st: ScanState, rawLine: string): (r: ScanState)
    ensures |st.jobs| <= |r.jobs| <= |st.jobs| + 1 && r.jobs[..|st.jobs|] == st.jobs
  {
    var line := Trim(rawLine);
    if line == "" then st
    else if line[0] == '#' then st.(comment := Some(CommentText(line)))
    else
      var parts := SplitWhitespace(line);
      if |parts| < 6 then st
      else ScanState(None, st.jobs + [RecordOf(env, parts, st.comment)])
  }

  /** The loop of `from_crontab` over the remaining lines, from state `st`. */
  function ScanLines(env: CronEnv, st: ScanState, lines: seq<string>): (r: ScanState)
    ensures |st.jobs| <= |r.jobs| <= |st.jobs| + |lines| && r.jobs[..|st.jobs|] == st.jobs
    decreases |lines|
  {
    if lines == [] then st
    else
      var next := ScanLine(env, st, lines[0]);
      var r := ScanLines(env, next, lines[1..]);
      assert r.jobs[..|st.jobs|] == r.jobs[..|next.jobs|][..|st.jobs|];
      r
  }

  /** The records a successful `crontab -l` listing yields. */
  function ParseCrontab(env: CronEnv, text: string): (r: seq<CronJob>)
    ensures |r| <= |Lines(text)|
  {
    ScanLines(env, StartState, Lines(text)).jobs
  }

  /** The single record that stands for a user without a crontab. */
  const NoCrontabRecord: CronJob := CronJob(NoCrontabNotation, "", "", "")

  /**
   * `from_crontab`, given the outcome of running `crontab -l`: a failure to run it is
   * passed on; a failed listing whose stderr says "no crontab for" is the single
   * no-crontab record, any other failed listing the read error; a successful listing
   * is read line by line.
   */
  method FromCrontab(env: CronEnv, listing: Result<ProcessOutput, string>) returns (r: Result<seq<CronJob>, string>)
    ensures listing.Failure? ==> r == Failure(listing.error)
    ensures listing.Success? && !listing.value.success && Contains(listing.value.stderr, NoCrontabMarker)
      ==> r == Success([NoCrontabRecord])
    ensures listing.Success? && !listing.value.success && !Contains(listing.value.stderr, NoCrontabMarker)
      ==> r == Failure(ReadCrontabError)
    ensures listing.Success? && listing.value.success ==> r == Success(ParseCrontab(env, listing.value.stdout))
  {
    if listing.Failure? {
      return Failure(listing.error);
    }
    var output := listing.value;
    if !output.success {
      if Contains(output.stderr, NoCrontabMarker) {
        return Success([NoCrontabRecord]);
      }
      return Failure(ReadCrontabError);
    }
    var lines := Lines(output.stdout);
    var cronJobs: seq<CronJob> := [];
    var comment: Option<string> := None;
    var i := 0;
    while i < |lines|
      invariant 0 <= i <= |lines|
      invariant ScanLines(env, ScanState(comment, cronJobs), lines[i..]) == ScanLines(env, StartState, lines)
    {
      assert lines[i..][1..] == lines[i + 1..];
      var line := Trim(lines[i]);
      if line == "" {
      } else if line[0] == '#' {
        comment := Some(Trim(TrimStartMatches(line, '#')));
      } else {
        var parts := SplitWhitespace(line);
        if |parts| >= 6 {
          var cronNotation := Join(parts[..5], " ");
          var job := Join(parts[5..], " ");
          var modifiedNextExecution := GetNextExecution(env, cronNotation);
          cronJobs := cronJobs + [CronJob(cronNotation, job, comment.GetOr(""), modifiedNextExecution)];
          comment := None;
        }
      }
      i := i + 1;
    }
    return Success(cronJobs);
  }

  // ---------------------------------------------------------------------------
  // Writing a crontab

  /** What the loop body of `save_to_crontab` appends for one record. */
  function EmitEntry(acc: string, job: CronJob): (r: string)
    ensures job.job == "" ==> r == acc
    ensures job.job != "" ==> |r| > |acc| && r[|r| - 1] == '\n'
  {
    if job.job == "" then acc
    else
      (if acc != "" then acc + "\n" else acc)
      + (if job.jobDescription != "" then "# " + job.jobDescription + "\n" else "")
      + job.cronNotation + " " + job.job + "\n"
  }

  /** The loop of `save_to_crontab` over the remaining records, from text `acc`. */
  function EmitAll(acc: string, jobs: seq<CronJob>): (r: string)
    ensures |acc| <= |r|
    ensures acc == "" || acc[|acc| - 1] == '\n' ==> r == "" || r[|r| - 1] == '\n'
    decreases |jobs|
  {
    if jobs == [] then acc
    else
      var r := EmitAll(EmitEntry(acc, jobs[0]), jobs[1..]);
      assert forall i :: 1 <= i < |jobs| ==> jobs[i] == jobs[1..][i - 1];
      r
  }

  /** The loop leaves the text as it was exactly when no record has a command. */
  lemma {:induction false} EmitAllUnchanged(acc: string, jobs: seq<CronJob>)
    ensures EmitAll(acc, jobs) == acc <==> forall i :: 0 <= i < |jobs| ==> jobs[i].job == ""
    decreases |jobs|
  {
    if jobs != [] {
      var next := EmitEntry(acc, jobs[0]);
      EmitAllUnchanged(next, jobs[1..]);
      assert forall i :: 1 <= i < |jobs| ==> jobs[i] == jobs[1..][i - 1];
      if jobs[0].job != "" {
        assert |EmitAll(next, jobs[1..])| > |acc|;
      }
    }
  }

  /** The replacement crontab text for `cronJobs`. */
  function CrontabText(cronJobs: seq<CronJob>): (r: string)
    ensures r == "" <==> forall i :: 0 <= i < |cronJobs| ==> cronJobs[i].job == ""
    ensures r == "" || r[|r| - 1] == '\n'
  {
    EmitAllUnchanged("", cronJobs);
    EmitAll("", cronJobs)
  }

  /** `save_to_crontab`: builds the text it pipes into `crontab`. */
  method SaveToCrontab(cronJobs: seq<CronJob>) returns (newCrontab: string)
    ensures newCrontab == CrontabText(cronJobs)
  {
    newCrontab := "";
    for i := 0 to |cronJobs|
      invariant EmitAll(newCrontab, cronJobs[i..]) == CrontabText(cronJobs)
    {
      assert cronJobs[i..][1..] == cronJobs[i + 1..];
      var job := cronJobs[i];
      ghost var before := newCrontab;
      if job.job != "" {
        if newCrontab != "" {
          newCrontab := newCrontab + "\n";
        }
        if job.jobDescription != "" {
          newCrontab := newCrontab + ("# " + job.jobDescription + "\n");
        } else {
          assert newCrontab + "" == newCrontab;
        }
        newCrontab := newCrontab + job.cronNotation + " " + job.job + "\n";
      }
      assert newCrontab == EmitEntry(before, job);
    }
    assert cronJobs[|cronJobs|..] == [];
  }

  // ---------------------------------------------------------------------------
  // Column widths

  /**
   * `constraint_len_calculator`: the widest schedule, next-run and description over the
   * records, under the display width `width`; 0 for no records.
   */
  function ConstraintLenCalculator(items: seq<CronJob>, width: string -> nat): (r: (nat, nat, nat))
    ensures forall i :: 0 <= i < |items| ==>
      width(items[i].cronNotation) <= r.0 && width(items[i].nextExecution) <= r.1
      && width(items[i].jobDescription) <= r.2
    ensures items == [] ==> r == (0, 0, 0)
    ensures items != [] ==>
      (exists i :: 0 <= i < |items| && r.0 == width(items[i].cronNotation))
      && (exists i :: 0 <= i < |items| && r.1 == width(items[i].nextExecution))
      && (exists i :: 0 <= i < |items| && r.2 == width(items[i].jobDescription))
  {
    (MaxWidth(items, (job: CronJob) => job.cronNotation, width),
     MaxWidth(items, (job: CronJob) => job.nextExecution, width),
     MaxWidth(items, (job: CronJob) => job.jobDescription, width))
  }
}
