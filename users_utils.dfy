/**
 * The passwd(5) reader of src/components/users/utils.rs: every line of the file is split
 * on ':'; a line with at least seven fields whose sixth field (the home directory)
 * starts with the configured document-root prefix yields a user.
 *
 * Opening and reading the file are not modelled: the function receives what they
 * gave, either an error when opening, or the outcome of reading each line.
 */
module UsersUtils {
  import opened Wrappers
  import opened Text

  /** A row of the users table. */
  datatype User = User(username: string, docroot: string, shell: string)

  /** The outcome of reading one line: its text, or the error message. */
  datatype LineRead = LineOk(line: string) | LineErr(error: string)

  /** What the file gave: an error when opening it, or the results of its lines in order. */
  datatype Passwd = OpenFailed(error: string) | Opened(results: seq<LineRead>)

  /** A row that shows only a message in the username column. */
  function MessageRow(message: string): User {
    User(message, "", "")
  }

  const NoUsersFound: string := "No users found"

  /** The user a passwd line describes, if it has seven fields and its home directory is under `prefix`. */
  function UserOfLine(prefix: string, line: string): (r: Option<User>)
    ensures r.Some? <==>
      |SplitOn(line, ':')| >= 7 && StartsWith(SplitOn(line, ':')[5], prefix)
    ensures r.Some? ==>
      var parts := SplitOn(line, ':');
      r.value == User(parts[0], parts[5], parts[6])
  {
    var parts := SplitOn(line, ':');
    if |parts| < 7 then None
    else if StartsWith(parts[5], prefix) then Some(User(parts[0], parts[5], parts[6]))
    else None
  }

  /** One pass of the loop body: a read error ends the gathering, an accepted line adds its user. */
  function Step(prefix: string, acc: Result<seq<User>, string>, read: LineRead): (r: Result<seq<User>, string>)
    ensures acc.Failure? ==> r == acc
    ensures r.Success? ==>
      && acc.Success? && read.LineOk?
      && |acc.value| <= |r.value| <= |acc.value| + 1
  {
    match acc
    case Failure(e) => Failure(e)
    case Success(users) =>
      match read
      case LineErr(e) => Failure(e)
      case LineOk(line) =>
        match UserOfLine(prefix, line)
        case Some(u) => Success(users + [u])
        case None => Success(users)
  }

  /** The users gathered by the loop over `results`, or the first read error. */
  function Gather(prefix: string, results: seq<LineRead>): (r: Result<seq<User>, string>)
    ensures r.Success? ==> |r.value| <= |results|
    decreases |results|
  {
    if results == [] then Success([])
    else Step(prefix, Gather(prefix, results[..|results| - 1]), results[|results| - 1])
  }

  /** What `get_users_from_passwd` returns. */
  function UsersFromPasswd(prefix: string, passwd: Passwd): (r: seq<User>)
    ensures passwd.Opened? && |r| > 1 ==> |r| <= |passwd.results|
    ensures passwd.OpenFailed? ==> |r| == 1
  {
    match passwd
    case OpenFailed(e) => [MessageRow("Error: " + e)]
    case Opened(results) =>
      match Gather(prefix, results)
      case Failure(e) => [MessageRow("Error reading line: " + e)]
      case Success(users) => if users == [] then [MessageRow(NoUsersFound)] else users
  }

  /** `get_users_from_passwd`. */
  method GetUsersFromPasswd(prefix: string, passwd: Passwd) returns (users: seq<User>)
    ensures users == UsersFromPasswd(prefix, passwd)
  {
    if passwd.OpenFailed? {
      return [MessageRow("Error: " + passwd.error)];
    }
    var results := passwd.results;
    users := [];
    for i := 0 to |results|
      invariant Gather(prefix, results[..i]) == Success(users)
    {
      assert results[..i + 1][..i] == results[..i];
      match results[i]
      case LineErr(e) =>
        GatherStopsAtError(prefix, results[..i + 1], results[i + 1..]);
        assert results[..i + 1] + results[i + 1..] == results;
        return [MessageRow("Error reading line: " + e)];
      case LineOk(line) =>
        var parts := SplitOn(line, ':');
        if |parts| < 7 {
          continue;
        }
        var username := parts[0];
        var homeDir := parts[5];
        var shell := parts[6];
        if StartsWith(homeDir, prefix) {
          users := users + [User(username, homeDir, shell)];
        }
    }
    assert results[..|results|] == results;
    if users == [] {
      users := users + [MessageRow(NoUsersFound)];
    }
  }

  /** `constraint_len_calculator`: the widest username, docroot and shell, 0 for no users. */
  function ConstraintLenCalculator(items: seq<User>, width: string -> nat): (r: (nat, nat, nat))
    ensures forall i :: 0 <= i < |items| ==>
      width(items[i].username) <= r.0 && width(items[i].docroot) <= r.1 && width(items[i].shell) <= r.2
    ensures items == [] ==> r == (0, 0, 0)
    ensures items != [] ==>
      (exists i :: 0 <= i < |items| && r.0 == width(items[i].username))
      && (exists i :: 0 <= i < |items| && r.1 == width(items[i].docroot))
      && (exists i :: 0 <= i < |items| && r.2 == width(items[i].shell))
  {
    (MaxWidth(items, (u: User) => u.username, width),
     MaxWidth(items, (u: User) => u.docroot, width),
     MaxWidth(items, (u: User) => u.shell, width))
  }

  // ---------------------------------------------------------------------------
  // What the reader guarantees

  /** The results split in two: the first part's error wins, otherwise the users of both parts in order. */
  lemma {:induction false} GatherAppend(prefix: string, a: seq<LineRead>, b: seq<LineRead>)
    ensures Gather(prefix, a).Failure? ==> Gather(prefix, a + b) == Gather(prefix, a)
    ensures Gather(prefix, a).Success? && Gather(prefix, b).Failure? ==> Gather(prefix, a + b) == Gather(prefix, b)
    ensures Gather(prefix, a).Success? && Gather(prefix, b).Success? ==>
      Gather(prefix, a + b) == Success(Gather(prefix, a).value + Gather(prefix, b).value)
    decreases |b|
  {
    if b == [] {
      assert a + b == a;
      if Gather(prefix, a).Success? {
        assert Gather(prefix, a).value + [] == Gather(prefix, a).value;
      }
    } else {
      var b', last := b[..|b| - 1], b[|b| - 1];
      assert (a + b)[..|a + b| - 1] == a + b';
      assert (a + b)[|a + b| - 1] == last;
      GatherAppend(prefix, a, b');
      assert Gather(prefix, a + b) == Step(prefix, Gather(prefix, a + b'), last);
      assert Gather(prefix, b) == Step(prefix, Gather(prefix, b'), last);
      if Gather(prefix, a).Success? && Gather(prefix, b').Success? && last.LineOk? && UserOfLine(prefix, last.line).Some? {
        assert Gather(prefix, a).value + (Gather(prefix, b').value + [UserOfLine(prefix, last.line).value])
          == Gather(prefix, a).value + Gather(prefix, b').value + [UserOfLine(prefix, last.line).value];
      }
    }
  }

  lemma GatherStopsAtError(prefix: string, a: seq<LineRead>, b: seq<LineRead>)
    requires Gather(prefix, a).Failure?
    ensures Gather(prefix, a + b) == Gather(prefix, a)
  {
    GatherAppend(prefix, a, b);
  }

  /** Reading fails exactly when some line could not be read, and the message is the first such error. */
  lemma {:induction false} GatherFirstError(prefix: string, results: seq<LineRead>)
    ensures Gather(prefix, results).Failure? <==> exists j :: 0 <= j < |results| && results[j].LineErr?
    ensures Gather(prefix, results).Failure? ==>
      exists j :: 0 <= j < |results| && results[j] == LineErr(Gather(prefix, results).error)
        && forall k :: 0 <= k < j ==> results[k].LineOk?
    decreases |results|
  {
    if results != [] {
      var front := results[..|results| - 1];
      GatherFirstError(prefix, front);
      assert forall j :: 0 <= j < |front| ==> results[j] == front[j];
    }
  }

  /** A line with fewer than seven fields, or a home directory outside the prefix, adds nobody wherever it stands. */
  lemma SkippedLine(prefix: string, a: seq<LineRead>, line: string, b: seq<LineRead>)
    requires UserOfLine(prefix, line).None?
    ensures Gather(prefix, a + [LineOk(line)] + b) == Gather(prefix, a + b)
  {
    assert (a + [LineOk(line)])[..|a|] == a;
    assert Gather(prefix, a + [LineOk(line)]) == Gather(prefix, a);
    GatherAppend(prefix, a + [LineOk(line)], b);
    GatherAppend(prefix, a, b);
  }

  /** Every gathered user comes from a read line with seven fields and a docroot under the prefix. */
  lemma {:induction false} GatherSound(prefix: string, results: seq<LineRead>)
    requires Gather(prefix, results).Success?
    ensures var users := Gather(prefix, results).value;
      forall i :: 0 <= i < |users| ==>
        StartsWith(users[i].docroot, prefix)
        && exists j :: 0 <= j < |results| && results[j].LineOk? && UserOfLine(prefix, results[j].line) == Some(users[i])
    decreases |results|
  {
    if results != [] {
      var front := results[..|results| - 1];
      GatherSound(prefix, front);
      assert forall j :: 0 <= j < |front| ==> results[j] == front[j];
    }
  }

  /** Every read line that describes a user under the prefix is gathered. */
  lemma {:induction false} GatherComplete(prefix: string, results: seq<LineRead>, j: nat)
    requires Gather(prefix, results).Success?
    requires j < |results| && results[j].LineOk? && UserOfLine(prefix, results[j].line).Some?
    ensures UserOfLine(prefix, results[j].line).value in Gather(prefix, results).value
  {
    var a, read, b := results[..j], results[j], results[j + 1..];
    var u := UserOfLine(prefix, read.line).value;
    assert results == (a + [read]) + b;
    GatherAppend(prefix, a + [read], b);
    assert (a + [read])[..|a|] == a && (a + [read])[|a|] == read;
    assert Gather(prefix, a + [read]) == Step(prefix, Gather(prefix, a), read);
    var front, back := Gather(prefix, a + [read]), Gather(prefix, b);
    assert front.Success? && back.Success?;
    assert front.value == Gather(prefix, a).value + [u];
    assert Gather(prefix, results).value == front.value + back.value;
    assert (front.value + back.value)[|front.value| - 1] == u;
  }

  /** The result always has at least one row. */
  lemma NeverEmpty(prefix: string, passwd: Passwd)
    ensures |UsersFromPasswd(prefix, passwd)| >= 1
  {
  }

  /** Lines that are all read and all rejected gather nobody. */
  lemma {:induction false} GatherNothing(prefix: string, results: seq<LineRead>)
    requires forall j :: 0 <= j < |results| ==> results[j].LineOk? && UserOfLine(prefix, results[j].line).None?
    ensures Gather(prefix, results) == Success([])
    decreases |results|
  {
    if results != [] {
      var front := results[..|results| - 1];
      assert forall j :: 0 <= j < |front| ==> front[j] == results[j];
      GatherNothing(prefix, front);
    }
  }

  /** With no matching line the result is exactly the "No users found" row. */
  lemma NoMatch(prefix: string, results: seq<LineRead>)
    requires forall j :: 0 <= j < |results| ==> results[j].LineOk? && UserOfLine(prefix, results[j].line).None?
    ensures UsersFromPasswd(prefix, Opened(results)) == [MessageRow(NoUsersFound)]
  {
    GatherNothing(prefix, results);
  }

  /** A read error discards the users gathered so far: the result is the one error row of the first failing read. */
  lemma ReadErrorDiscards(prefix: string, results: seq<LineRead>, j: nat)
    requires j < |results| && results[j].LineErr? && forall k :: 0 <= k < j ==> results[k].LineOk?
    ensures UsersFromPasswd(prefix, Opened(results)) == [MessageRow("Error reading line: " + results[j].error)]
  {
    GatherFirstError(prefix, results);
    var e := Gather(prefix, results).error;
    var j' :| 0 <= j' < |results| && results[j'] == LineErr(e) && forall k :: 0 <= k < j' ==> results[k].LineOk?;
    assert j' == j;
  }
}
