/**
 * What the crontab codec of src/components/cron/utils.rs guarantees: the shape and the
 * order of the records it reads, how comments attach to jobs, the layout of the text it
 * writes, and that reading back written text gives the records again.
 */
module CrontabProperties {
  import opened Wrappers
  import opened Text
  import opened CronUtils

  // ---------------------------------------------------------------------------
  // How the reader classifies a raw line

  /** After trimming, the line starts with '#'. */
  predicate IsCommentLine(raw: string) {
    var line := Trim(raw);
    line != "" && line[0] == '#'
  }

  /** After trimming, the line is not a comment and has at least six words. */
  predicate IsJobLine(raw: string) {
    var line := Trim(raw);
    line != "" && line[0] != '#' && |SplitWhitespace(line)| >= 6
  }

  /** A blank line, or a non-comment line of fewer than six words. */
  predicate IsSkippedLine(raw: string) {
    !IsCommentLine(raw) && !IsJobLine(raw)
  }

  /** The record a job line yields under pending comment `comment`. */
  function JobLineRecord(env: CronEnv, raw: string, comment: Option<string>): CronJob
    requires IsJobLine(raw)
  {
    RecordOf(env, SplitWhitespace(Trim(raw)), comment)
  }

  /** The text of the last comment line of `lines`. */
  function LastCommentText(lines: seq<string>): string
    requires exists i :: 0 <= i < |lines| && IsCommentLine(lines[i])
    decreases |lines|
  {
    var last := lines[|lines| - 1];
    if IsCommentLine(last) then CommentText(Trim(last))
    else
      assert forall i :: 0 <= i < |lines| - 1 ==> lines[..|lines| - 1][i] == lines[i];
      LastCommentText(lines[..|lines| - 1])
  }

  // ---------------------------------------------------------------------------
  // Reading

  lemma {:induction false} ScanAppend(env: CronEnv, st: ScanState, a: seq<string>, b: seq<string>)
    ensures ScanLines(env, st, a + b) == ScanLines(env, ScanLines(env, st, a), b)
    decreases |a|
  {
    if a == [] {
      assert a + b == b;
    } else {
      assert (a + b)[0] == a[0];
      assert (a + b)[1..] == a[1..] + b;
      ScanAppend(env, ScanLine(env, st, a[0]), a[1..], b);
    }
  }

  lemma {:induction false} ScanLast(env: CronEnv, st: ScanState, a: seq<string>, x: string)
    ensures ScanLines(env, st, a + [x]) == ScanLine(env, ScanLines(env, st, a), x)
  {
    ScanAppend(env, st, a, [x]);
  }

  /** The shape every record read from a listing has. */
  predicate WellShaped(env: CronEnv, r: CronJob) {
    && |SplitWhitespace(r.cronNotation)| == 5 && SingleSpaced(r.cronNotation)
    && r.job != "" && SingleSpaced(r.job)
    && IsTrimmed(r.jobDescription)
    && r.nextExecution == GetNextExecution(env, r.cronNotation)
  }

  lemma {:induction false} RecordShape(env: CronEnv, parts: seq<string>, comment: Option<string>)
    requires |parts| >= 6
    requires forall w :: w in parts ==> IsWord(w)
    requires comment.Some? ==> IsTrimmed(comment.value)
    ensures WellShaped(env, RecordOf(env, parts, comment))
  {
    assert forall w :: w in parts[..5] ==> w in parts;
    assert forall w :: w in parts[5..] ==> w in parts;
    SplitJoin(parts[..5]);
    SplitJoin(parts[5..]);
    JoinWordsChars(parts[5..]);
  }

  /** Every record `from_crontab` reads has a five-word single-spaced schedule, a non-empty single-spaced command, a trimmed description and the next run of its schedule. */
  lemma {:induction false} ScanShape(env: CronEnv, st: ScanState, lines: seq<string>)
    requires forall r :: r in st.jobs ==> WellShaped(env, r)
    requires st.comment.Some? ==> IsTrimmed(st.comment.value)
    ensures forall r :: r in ScanLines(env, st, lines).jobs ==> WellShaped(env, r)
    decreases |lines|
  {
    if lines != [] {
      var line := Trim(lines[0]);
      if line != "" && line[0] != '#' && |SplitWhitespace(line)| >= 6 {
        RecordShape(env, SplitWhitespace(line), st.comment);
      }
      ScanShape(env, ScanLine(env, st, lines[0]), lines[1..]);
    }
  }

  lemma {:induction false} ParseShape(env: CronEnv, text: string)
    ensures forall r :: r in ParseCrontab(env, text) ==> WellShaped(env, r)
  {
    ScanShape(env, StartState, Lines(text));
  }

  /** Schedule and command of each record, in order. */
  function Entries(rs: seq<CronJob>): seq<(string, string)>
    decreases |rs|
  {
    if rs == [] then [] else Entries(rs[..|rs| - 1]) + [(rs[|rs| - 1].cronNotation, rs[|rs| - 1].job)]
  }

  /** Schedule and command that each job line of `lines` yields, in line order. */
  function JobLineEntries(lines: seq<string>): seq<(string, string)>
    decreases |lines|
  {
    if lines == [] then []
    else
      (if IsJobLine(lines[0])
       then var parts := SplitWhitespace(Trim(lines[0]));
            [(Join(parts[..5], " "), Join(parts[5..], " "))]
       else [])
      + JobLineEntries(lines[1..])
  }

  /** The reader yields one record per job line, in line order, after the records it already had. */
  lemma {:induction false} ScanOrder(env: CronEnv, st: ScanState, lines: seq<string>)
    ensures Entries(ScanLines(env, st, lines).jobs) == Entries(st.jobs) + JobLineEntries(lines)
    decreases |lines|
  {
    if lines != [] {
      var next := ScanLine(env, st, lines[0]);
      ScanOrder(env, next, lines[1..]);
      if IsJobLine(lines[0]) {
        assert (next.jobs)[..|next.jobs| - 1] == st.jobs;
      }
    }
  }

  lemma {:induction false} ParseOrder(env: CronEnv, text: string)
    ensures Entries(ParseCrontab(env, text)) == JobLineEntries(Lines(text))
  {
    ScanOrder(env, StartState, Lines(text));
  }

  /** Blank lines and short lines change nothing, not even the pending comment. */
  lemma {:induction false} SkippedLinesKeepState(env: CronEnv, st: ScanState, lines: seq<string>)
    requires forall l :: l in lines ==> IsSkippedLine(l)
    ensures ScanLines(env, st, lines) == st
    decreases |lines|
  {
    if lines != [] {
      assert lines[0] in lines;
      assert forall l :: l in lines[1..] ==> l in lines;
      SkippedLinesKeepState(env, st, lines[1..]);
    }
  }

  /** A run of lines without a job line leaves the most recent comment pending. */
  lemma {:induction false} CommentsPending(env: CronEnv, st: ScanState, lines: seq<string>)
    requires forall l :: l in lines ==> !IsJobLine(l)
    ensures (exists i :: 0 <= i < |lines| && IsCommentLine(lines[i])) ==>
      ScanLines(env, st, lines) == st.(comment := Some(LastCommentText(lines)))
    ensures (forall i :: 0 <= i < |lines| ==> !IsCommentLine(lines[i])) ==>
      ScanLines(env, st, lines) == st
    decreases |lines|
  {
    if lines != [] {
      var init := lines[..|lines| - 1];
      var last := lines[|lines| - 1];
      assert lines == init + [last];
      assert last in lines;
      assert forall l :: l in init ==> l in lines;
      CommentsPending(env, st, init);
      ScanLast(env, st, init, last);
      assert forall i :: 0 <= i < |init| ==> init[i] == lines[i];
    }
  }

  /**
   * A job line takes as description the most recent comment line before it, when only
   * comment, blank and short lines lie between them; it consumes that comment.
   */
  lemma {:induction false} CommentAttachment(env: CronEnv, st: ScanState, lines: seq<string>, job: string)
    requires forall l :: l in lines ==> !IsJobLine(l)
    requires exists i :: 0 <= i < |lines| && IsCommentLine(lines[i])
    requires IsJobLine(job)
    ensures ScanLines(env, st, lines + [job])
      == ScanState(None, st.jobs + [JobLineRecord(env, job, Some(LastCommentText(lines)))])
  {
    CommentsPending(env, st, lines);
    ScanLast(env, st, lines, job);
  }

  /** After a job line no comment is pending: the next job, past blank and short lines, has no description. */
  lemma {:induction false} JobConsumesComment(env: CronEnv, st: ScanState, first: string, skipped: seq<string>, second: string)
    requires IsJobLine(first) && IsJobLine(second)
    requires forall l :: l in skipped ==> IsSkippedLine(l)
    ensures ScanLines(env, st, [first] + skipped + [second]).jobs
      == st.jobs + [JobLineRecord(env, first, st.comment), JobLineRecord(env, second, None)]
  {
    var afterFirst := ScanLine(env, st, first);
    assert afterFirst == ScanState(None, st.jobs + [JobLineRecord(env, first, st.comment)]);
    ScanAppend(env, st, [first], skipped);
    SkippedLinesKeepState(env, afterFirst, skipped);
    ScanLast(env, st, [first] + skipped, second);
  }

  /** Lines without a job line add no record: in particular a trailing comment is dropped. */
  lemma {:induction false} NoJobLineNoRecord(env: CronEnv, st: ScanState, lines: seq<string>)
    requires forall l :: l in lines ==> !IsJobLine(l)
    ensures ScanLines(env, st, lines).jobs == st.jobs
    decreases |lines|
  {
    if lines != [] {
      assert lines[0] in lines;
      assert forall l :: l in lines[1..] ==> l in lines;
      NoJobLineNoRecord(env, ScanLine(env, st, lines[0]), lines[1..]);
    }
  }

  // ---------------------------------------------------------------------------
  // Writing

  /** The records `save_to_crontab` writes: those with a non-empty command, in order. */
  function Emitted(jobs: seq<CronJob>): (r: seq<CronJob>)
    decreases |jobs|
  {
    if jobs == [] then []
    else (if jobs[0].job != "" then [jobs[0]] else []) + Emitted(jobs[1..])
  }

  /** The lines of one written record: its comment line, if it has a description, then the job line. */
  function EntryLines(r: CronJob): seq<string> {
    (if r.jobDescription != "" then ["# " + r.jobDescription] else []) + [r.cronNotation + " " + r.job]
  }

  /** Each record's lines, preceded by an empty line. */
  function Sections(es: seq<CronJob>): seq<string>
    decreases |es|
  {
    if es == [] then [] else [""] + EntryLines(es[0]) + Sections(es[1..])
  }

  /** The lines of the written text: the records' lines, an empty line between two records. */
  function SavedLines(es: seq<CronJob>): seq<string> {
    if es == [] then [] else EntryLines(es[0]) + Sections(es[1..])
  }

  lemma {:induction false} EntryText(r: CronJob)
    ensures Unlines(EntryLines(r))
      == (if r.jobDescription != "" then "# " + r.jobDescription + "\n" else "") + r.cronNotation + " " + r.job + "\n"
  {
    var jobLine := r.cronNotation + " " + r.job;
    assert [jobLine][1..] == [];
    assert Unlines([jobLine]) == jobLine + "\n";
    if r.jobDescription != "" {
      var commentLine := "# " + r.jobDescription;
      assert EntryLines(r) == [commentLine, jobLine];
      assert [commentLine, jobLine][1..] == [jobLine];
    } else {
      assert EntryLines(r) == [jobLine];
    }
  }

  lemma {:induction false} SectionText(r: CronJob)
    ensures Unlines([""] + EntryLines(r)) == "\n" + Unlines(EntryLines(r))
  {
    assert ([""] + EntryLines(r))[1..] == EntryLines(r);
  }

  /** Once text exists, a written record adds an empty line and then its lines. */
  lemma EmitSection(acc: string, j: CronJob)
    requires acc != "" && j.job != ""
    ensures EmitEntry(acc, j) == acc + Unlines([""] + EntryLines(j))
  {
    var d := if j.jobDescription != "" then "# " + j.jobDescription + "\n" else "";
    var x := acc + "\n";
    EntryText(j);
    SectionText(j);
    Assoc(x, d, j.cronNotation);
    Assoc(x, d + j.cronNotation, " ");
    Assoc(x, d + j.cronNotation + " ", j.job);
    Assoc(x, d + j.cronNotation + " " + j.job, "\n");
    Assoc(acc, "\n", Unlines(EntryLines(j)));
  }

  lemma {:induction false} EmitAfterText(acc: string, jobs: seq<CronJob>)
    requires acc != ""
    ensures EmitAll(acc, jobs) == acc + Unlines(Sections(Emitted(jobs)))
    decreases |jobs|
  {
    if jobs != [] {
      var j := jobs[0];
      if j.job == "" {
        assert EmitAll(acc, jobs) == EmitAll(acc, jobs[1..]);
        assert Emitted(jobs) == Emitted(jobs[1..]);
        EmitAfterText(acc, jobs[1..]);
      } else {
        var section := [""] + EntryLines(j);
        var later := Sections(Emitted(jobs[1..]));
        var next := EmitEntry(acc, j);
        EmitSection(acc, j);
        assert |next| >= |acc|;
        EmitAfterText(next, jobs[1..]);
        Assoc(acc, Unlines(section), Unlines(later));
        assert Emitted(jobs) == [j] + Emitted(jobs[1..]);
        assert Sections(Emitted(jobs)) == section + later;
        UnlinesAppend(section, later);
      }
    } else {
      assert Emitted(jobs) == [];
    }
  }

  /** `save_to_crontab` writes each kept record as its lines, an empty line between records, every line ended by '\n'. */
  lemma {:induction false} SaveLayout(jobs: seq<CronJob>)
    ensures CrontabText(jobs) == Unlines(SavedLines(Emitted(jobs)))
    decreases |jobs|
  {
    if jobs != [] {
      var j := jobs[0];
      if j.job == "" {
        assert EmitAll("", jobs) == EmitAll("", jobs[1..]);
        assert Emitted(jobs) == Emitted(jobs[1..]);
        SaveLayout(jobs[1..]);
      } else {
        var first := EmitEntry("", j);
        EntryText(j);
        assert first == Unlines(EntryLines(j));
        EmitAfterText(first, jobs[1..]);
        assert Emitted(jobs) == [j] + Emitted(jobs[1..]);
        UnlinesAppend(EntryLines(j), Sections(Emitted(jobs[1..])));
      }
    }
  }

  lemma {:induction false} EmittedIdempotent(jobs: seq<CronJob>)
    ensures Emitted(Emitted(jobs)) == Emitted(jobs)
    decreases |jobs|
  {
    if jobs != [] {
      var rest := Emitted(jobs[1..]);
      EmittedIdempotent(jobs[1..]);
      if jobs[0].job != "" {
        assert Emitted(jobs) == [jobs[0]] + rest;
        assert ([jobs[0]] + rest)[0] == jobs[0];
        assert ([jobs[0]] + rest)[1..] == rest;
      } else {
        assert Emitted(jobs) == rest;
      }
    }
  }

  /** Records with an empty command leave no trace in the written text. */
  lemma {:induction false} SaveOmitsEmpty(jobs: seq<CronJob>)
    ensures CrontabText(jobs) == CrontabText(Emitted(jobs))
  {
    SaveLayout(jobs);
    SaveLayout(Emitted(jobs));
    EmittedIdempotent(jobs);
  }

  /** A single record with a command and a description is written as its comment line and its command line. */
  lemma SaveSingle(j: CronJob)
    requires j.job != "" && j.jobDescription != ""
    ensures CrontabText([j]) == "# " + j.jobDescription + "\n" + j.cronNotation + " " + j.job + "\n"
  {
    assert [j][1..] == [];
    assert EmitAll("", [j]) == EmitAll(EmitEntry("", j), []);
    assert EmitEntry("", j) == "" + ("# " + j.jobDescription + "\n") + j.cronNotation + " " + j.job + "\n";
  }

  /** The text written for the single record `0 2 * * *`, `/usr/bin/backup.sh`, "backup". */
  lemma SaveExample(nextExecution: string)
    ensures CrontabText([CronJob("0 2 * * *", "/usr/bin/backup.sh", "backup", nextExecution)])
      == "# " + "backup" + "\n" + "0 2 * * *" + " " + "/usr/bin/backup.sh" + "\n"
  {
    SaveSingle(CronJob("0 2 * * *", "/usr/bin/backup.sh", "backup", nextExecution));
  }

  // ---------------------------------------------------------------------------
  // Round trip

  /** A schedule the reader reads back verbatim: five single-spaced words, the first not a comment. */
  predicate PersistableNotation(n: string) {
    n != "" && n[0] != '#' && |SplitWhitespace(n)| == 5 && SingleSpaced(n)
  }

  /** A command the reader reads back verbatim: one or more single-spaced words. */
  predicate PersistableCommand(job: string) {
    job != "" && SingleSpaced(job)
  }

  /** A description the reader reads back verbatim: trimmed, on one line, not itself starting with '#'. */
  predicate PersistableDescription(d: string) {
    IsTrimmed(d) && '\n' !in d && (d == "" || d[0] != '#')
  }

  /** A record that is either not written (empty command) or read back verbatim. */
  predicate Persistable(r: CronJob) {
    r.job == "" ||
    (PersistableNotation(r.cronNotation) && PersistableCommand(r.job) && PersistableDescription(r.jobDescription))
  }

  /** `r` with its next run recomputed, as the reader does. */
  function Refresh(env: CronEnv, r: CronJob): CronJob {
    r.(nextExecution := GetNextExecution(env, r.cronNotation))
  }

  function Refreshed(env: CronEnv, rs: seq<CronJob>): seq<CronJob>
    decreases |rs|
  {
    if rs == [] then [] else [Refresh(env, rs[0])] + Refreshed(env, rs[1..])
  }

  lemma {:induction false} EmittedKept(jobs: seq<CronJob>)
    requires forall r :: r in jobs ==> Persistable(r)
    ensures forall r :: r in Emitted(jobs) ==> r.job != "" && Persistable(r)
    decreases |jobs|
  {
    if jobs != [] {
      assert jobs[0] in jobs;
      assert forall r :: r in jobs[1..] ==> r in jobs;
      EmittedKept(jobs[1..]);
    }
  }

  /** The job line of a written record is read back as that record. */
  lemma {:induction false} ScanJobLine(env: CronEnv, st: ScanState, r: CronJob)
    requires r.job != "" && Persistable(r)
    ensures ScanLine(env, st, r.cronNotation + " " + r.job)
      == ScanState(None, st.jobs + [r.(jobDescription := st.comment.GetOr(""), nextExecution := GetNextExecution(env, r.cronNotation))])
  {
    var n, j := r.cronNotation, r.job;
    var line := n + " " + j;
    SingleSpacedChars(n);
    SingleSpacedChars(j);
    assert line == n + [' '] + j;
    assert line[0] == n[0];
    assert line[|line| - 1] == j[|j| - 1];
    TrimmedIsFixed(line);
    SplitAtWhitespace(n, ' ', j);
    var parts := SplitWhitespace(line);
    assert parts == SplitWhitespace(n) + SplitWhitespace(j);
    assert SplitWhitespace(j) != [];
    assert parts[..5] == SplitWhitespace(n);
    assert parts[5..] == SplitWhitespace(j);
  }

  lemma {:induction false} CommentLineText(d: string)
    requires d != "" && PersistableDescription(d)
    ensures TrimStartMatches("# " + d, '#') == " " + d
  {
    assert ("# " + d)[1..] == " " + d;
  }

  lemma {:induction false} ScanTrimmedComment(env: CronEnv, st: ScanState, line: string, text: string)
    requires Trim(line) == line && line != "" && line[0] == '#' && CommentText(line) == text
    ensures ScanLine(env, st, line) == st.(comment := Some(text))
  {
  }

  lemma {:induction false} CommentLineTrimmed(d: string)
    requires d != "" && PersistableDescription(d)
    ensures Trim("# " + d) == "# " + d
  {
    var line := "# " + d;
    assert line[0] == '#';
    assert line[|line| - 1] == d[|d| - 1];
    TrimmedIsFixed(line);
  }

  lemma {:induction false} CommentTextOf(d: string)
    requires d != "" && PersistableDescription(d)
    ensures CommentText("# " + d) == d
  {
    CommentLineText(d);
    TrimLeadingSpace(d);
  }

  /** The comment line of a written record is read back as a pending description. */
  lemma {:induction false} ScanCommentLine(env: CronEnv, st: ScanState, d: string)
    requires d != "" && PersistableDescription(d)
    ensures ScanLine(env, st, "# " + d) == st.(comment := Some(d))
  {
    var line := "# " + d;
    CommentLineTrimmed(d);
    CommentTextOf(d);
    assert line[0] == '#';
    ScanTrimmedComment(env, st, line, d);
  }

  lemma {:induction false} ScanEntry(env: CronEnv, jobs: seq<CronJob>, r: CronJob)
    requires r.job != "" && Persistable(r)
    ensures ScanLines(env, ScanState(None, jobs), EntryLines(r)) == ScanState(None, jobs + [Refresh(env, r)])
  {
    var st := ScanState(None, jobs);
    var jobLine := r.cronNotation + " " + r.job;
    if r.jobDescription != "" {
      ScanCommentLine(env, st, r.jobDescription);
      ScanJobLine(env, st.(comment := Some(r.jobDescription)), r);
      assert EntryLines(r) == ["# " + r.jobDescription, jobLine];
      assert ScanLines(env, st, EntryLines(r)) == ScanLines(env, ScanLine(env, st, "# " + r.jobDescription), [jobLine]);
    } else {
      ScanJobLine(env, st, r);
      assert EntryLines(r) == [jobLine];
    }
  }

  lemma {:induction false} ScanSection(env: CronEnv, jobs: seq<CronJob>, r: CronJob)
    requires r.job != "" && Persistable(r)
    ensures ScanLines(env, ScanState(None, jobs), [""] + EntryLines(r)) == ScanState(None, jobs + [Refresh(env, r)])
  {
    var st := ScanState(None, jobs);
    assert ([""] + EntryLines(r))[0] == "";
    assert ([""] + EntryLines(r))[1..] == EntryLines(r);
    assert ScanLine(env, st, "") == st;
    ScanEntry(env, jobs, r);
  }

  lemma {:induction false} ScanSectionsStep(env: CronEnv, jobs: seq<CronJob>, es: seq<CronJob>)
    requires es != [] && es[0].job != "" && Persistable(es[0])
    ensures ScanLines(env, ScanState(None, jobs), Sections(es))
      == ScanLines(env, ScanState(None, jobs + [Refresh(env, es[0])]), Sections(es[1..]))
  {
    var section := [""] + EntryLines(es[0]);
    assert Sections(es) == section + Sections(es[1..]);
    ScanAppend(env, ScanState(None, jobs), section, Sections(es[1..]));
    ScanSection(env, jobs, es[0]);
  }

  lemma {:induction false} ScanSections(env: CronEnv, jobs: seq<CronJob>, es: seq<CronJob>)
    requires forall r :: r in es ==> r.job != "" && Persistable(r)
    ensures ScanLines(env, ScanState(None, jobs), Sections(es)) == ScanState(None, jobs + Refreshed(env, es))
    decreases |es|
  {
    if es != [] {
      assert es[0] in es;
      assert forall r :: r in es[1..] ==> r in es;
      var next := jobs + [Refresh(env, es[0])];
      ScanSectionsStep(env, jobs, es);
      ScanSections(env, next, es[1..]);
      assert next + Refreshed(env, es[1..]) == jobs + Refreshed(env, es);
    } else {
      assert jobs + [] == jobs;
    }
  }

  lemma {:induction false} EntryLinesPlain(r: CronJob)
    requires r.job != "" && Persistable(r)
    ensures forall l :: l in EntryLines(r) ==> IsPlainLine(l)
  {
    var n, j, d := r.cronNotation, r.job, r.jobDescription;
    SingleSpacedChars(n);
    SingleSpacedChars(j);
    PlainAfter(n + " ", j);
    if d != "" {
      PlainAfter("# ", d);
    }
  }

  /** A line ending with a trimmed, newline-free part after a newline-free prefix is plain. */
  lemma PlainAfter(prefix: string, s: string)
    requires '\n' !in prefix && '\n' !in s && s != [] && IsTrimmed(s)
    ensures IsPlainLine(prefix + s)
  {
    assert forall c :: c in prefix + s ==> c in prefix || c in s;
    assert (prefix + s)[|prefix + s| - 1] == s[|s| - 1];
  }

  lemma {:induction false} SectionsPlain(es: seq<CronJob>)
    requires forall r :: r in es ==> r.job != "" && Persistable(r)
    ensures forall l :: l in Sections(es) ==> IsPlainLine(l)
    decreases |es|
  {
    if es != [] {
      assert es[0] in es;
      assert forall r :: r in es[1..] ==> r in es;
      EntryLinesPlain(es[0]);
      SectionsPlain(es[1..]);
    }
  }

  lemma {:induction false} ScanSaved(env: CronEnv, es: seq<CronJob>)
    requires forall r :: r in es ==> r.job != "" && Persistable(r)
    ensures ScanLines(env, StartState, SavedLines(es)) == ScanState(None, Refreshed(env, es))
  {
    if es != [] {
      assert es[0] in es;
      assert forall r :: r in es[1..] ==> r in es;
      ScanAppend(env, StartState, EntryLines(es[0]), Sections(es[1..]));
      ScanEntry(env, [], es[0]);
      assert [] + [Refresh(env, es[0])] == [Refresh(env, es[0])];
      ScanSections(env, [Refresh(env, es[0])], es[1..]);
      assert [Refresh(env, es[0])] + Refreshed(env, es[1..]) == Refreshed(env, es);
    }
  }

  lemma {:induction false} SavedLinesPlain(es: seq<CronJob>)
    requires forall r :: r in es ==> r.job != "" && Persistable(r)
    ensures forall l :: l in SavedLines(es) ==> IsPlainLine(l)
  {
    if es != [] {
      assert es[0] in es;
      assert forall r :: r in es[1..] ==> r in es;
      EntryLinesPlain(es[0]);
      SectionsPlain(es[1..]);
    }
  }

  /**
   * Reading back the text `save_to_crontab` writes gives every record with a non-empty
   * command, in order, with the same schedule, command and description, and its next
   * run recomputed.
   */
  lemma {:induction false} RoundTrip(env: CronEnv, jobs: seq<CronJob>)
    requires forall r :: r in jobs ==> Persistable(r)
    ensures ParseCrontab(env, CrontabText(jobs)) == Refreshed(env, Emitted(jobs))
  {
    var es := Emitted(jobs);
    EmittedKept(jobs);
    SaveLayout(jobs);
    SavedLinesPlain(es);
    LinesUnlines(SavedLines(es));
    ScanSaved(env, es);
  }

  lemma {:induction false} ExampleNotation()
    ensures PersistableNotation("0 2 * * *")
  {
    var fields := ["0", "2", "*", "*", "*"];
    assert forall w :: w in fields ==> IsWord(w);
    assert Join(fields, " ") == "0 2 * * *";
    SplitJoin(fields);
  }

  lemma {:induction false} ExampleCommand()
    ensures PersistableCommand("/usr/bin/backup.sh")
  {
    assert IsWord("/usr/bin/backup.sh");
    SplitOfWord("/usr/bin/backup.sh");
    assert Join(["/usr/bin/backup.sh"], " ") == "/usr/bin/backup.sh";
  }

  lemma {:induction false} ExampleDescription()
    ensures PersistableDescription("backup")
  {
  }

  /** The listing `# backup` / `0 2 * * * /usr/bin/backup.sh` reads as one described record. */
  lemma {:induction false} ParseExample(env: CronEnv)
    ensures ParseCrontab(env, "# " + "backup" + "\n" + "0 2 * * *" + " " + "/usr/bin/backup.sh" + "\n")
      == [CronJob("0 2 * * *", "/usr/bin/backup.sh", "backup", GetNextExecution(env, "0 2 * * *"))]
  {
    var j := CronJob("0 2 * * *", "/usr/bin/backup.sh", "backup", "");
    ExampleNotation();
    ExampleCommand();
    ExampleDescription();
    SaveExample("");
    RoundTrip(env, [j]);
    assert [j][1..] == [];
  }
}
