/**
 * The string operations of Rust's standard library that the components rely on,
 * written out over `string` (a sequence of Unicode scalar values): `char::is_whitespace`,
 * `str::trim`, `trim_start_matches`, `split_whitespace`, `split(char)`, `lines`,
 * `[&str]::join`, `starts_with`, `contains`, `replace(pat, "")` and `str::len`
 * (the UTF-8 byte length), plus the `iter().map(width).max().unwrap_or(0)` idiom.
 */
module Text {

  /** Rust's `char::is_whitespace`: the characters with the Unicode White_Space property. */
  predicate IsWhitespace(c: char) {
    ('\t' <= c <= '\r') || c == ' ' || c == '\U{85}' || c == '\U{A0}' || c == '\U{1680}'
    || ('\U{2000}' <= c <= '\U{200A}') || c == '\U{2028}' || c == '\U{2029}'
    || c == '\U{202F}' || c == '\U{205F}' || c == '\U{3000}'
  }

  /** The characters the crontab and passwd readers split on are whitespace; their markers are not. */
  lemma WhitespaceClasses(c: char)
    ensures c == ' ' || c == '\t' || c == '\n' || c == '\r' ==> IsWhitespace(c)
    ensures IsWhitespace(c) ==> c != '#' && c != ':' && c != ',' && c != '*' && !('0' <= c <= '9')
  {
  }

  /** `str::trim_start`: drops exactly the leading whitespace. */
  function TrimStart(s: string): (r: string)
    ensures |r| <= |s|
    ensures r == [] || !IsWhitespace(r[0])
    ensures forall k :: 0 <= k < |s| - |r| ==> IsWhitespace(s[k])
  {
    if s != [] && IsWhitespace(s[0]) then TrimStart(s[1..]) else s
  }

  /** What `trim_start` keeps is the end of its input. */
  lemma {:induction false} TrimStartSuffix(s: string)
    ensures TrimStart(s) == s[|s| - |TrimStart(s)|..]
    decreases |s|
  {
    if s != [] && IsWhitespace(s[0]) {
      TrimStartSuffix(s[1..]);
      assert s[1..][|s[1..]| - |TrimStart(s[1..])|..] == s[|s| - |TrimStart(s[1..])|..];
    }
  }

  /** `str::trim_end`: drops exactly the trailing whitespace. */
  function TrimEnd(s: string): (r: string)
    ensures |r| <= |s| && r == s[..|r|]
    ensures r == [] || !IsWhitespace(r[|r| - 1])
    ensures forall k :: |r| <= k < |s| ==> IsWhitespace(s[k])
  {
    if s != [] && IsWhitespace(s[|s| - 1]) then TrimEnd(s[..|s| - 1]) else s
  }

  /** Neither end of `s` is whitespace. */
  predicate IsTrimmed(s: string) {
    s == [] || (!IsWhitespace(s[0]) && !IsWhitespace(s[|s| - 1]))
  }

  /** `str::trim`. */
  function Trim(s: string): (r: string)
    ensures IsTrimmed(r)
    ensures |r| <= |s|
    ensures IsTrimmed(s) ==> r == s
  {
    TrimEnd(TrimStart(s))
  }

  lemma TrimmedIsFixed(s: string)
    requires IsTrimmed(s)
    ensures TrimStart(s) == s && TrimEnd(s) == s && Trim(s) == s
  {
  }

  lemma TrimLeadingSpace(s: string)
    requires IsTrimmed(s)
    ensures Trim(" " + s) == s
  {
    assert (" " + s)[1..] == s;
    assert TrimStart(" " + s) == TrimStart(s);
    TrimmedIsFixed(s);
  }

  /** `str::trim_start_matches(c)` for a single character `c`. */
  function TrimStartMatches(s: string, c: char): (r: string)
    ensures |r| <= |s| && r == s[|s| - |r|..]
    ensures r == [] || r[0] != c
    ensures forall k :: 0 <= k < |s| - |r| ==> s[k] == c
  {
    if s != [] && s[0] == c then TrimStartMatches(s[1..], c) else s
  }

  /** `str::starts_with`. */
  predicate StartsWith(s: string, prefix: string) {
    |prefix| <= |s| && s[..|prefix|] == prefix
  }

  /** `str::contains` for a string pattern. */
  predicate Contains(s: string, pat: string)
    decreases |s|
  {
    StartsWith(s, pat) || (s != [] && Contains(s[1..], pat))
  }

  /** A maximal run of non-whitespace characters, as `split_whitespace` yields. */
  predicate IsWord(w: string) {
    w != [] && forall c :: c in w ==> !IsWhitespace(c)
  }

  /** `str::split_whitespace`: the maximal non-whitespace runs of `s`, in order. */
  function SplitWhitespace(s: string): (r: seq<string>)
    ensures forall w :: w in r ==> IsWord(w)
    ensures s != [] && !IsWhitespace(s[0]) ==> r != [] && |r[0]| > 0 && r[0][0] == s[0]
    decreases |s|
  {
    if s == [] then []
    else if IsWhitespace(s[0]) then SplitWhitespace(s[1..])
    else
      var rest := SplitWhitespace(s[1..]);
      if |s| > 1 && !IsWhitespace(s[1]) then
        assert forall w :: w in rest[1..] ==> w in rest;
        assert rest[0] in rest;
        assert forall c :: c in [s[0]] + rest[0] ==> c == s[0] || c in rest[0];
        [[s[0]] + rest[0]] + rest[1..]
      else
        [[s[0]]] + rest
  }

  /** `[&str]::join(sep)`. */
  function Join(ws: seq<string>, sep: string): (r: string)
    ensures ws == [] ==> r == ""
    ensures ws != [] ==> StartsWith(r, ws[0])
    decreases |ws|
  {
    if |ws| == 0 then ""
    else if |ws| == 1 then ws[0]
    else
      var r := ws[0] + sep + Join(ws[1..], sep);
      assert r[..|ws[0]|] == ws[0];
      r
  }

  /** `s` is its words joined by single spaces. */
  predicate SingleSpaced(s: string) {
    s == Join(SplitWhitespace(s), " ")
  }

  /** A whitespace character separates the words on its two sides. */
  lemma {:induction false} SplitAtWhitespace(a: string, c: char, b: string)
    requires IsWhitespace(c)
    ensures SplitWhitespace(a + [c] + b) == SplitWhitespace(a) + SplitWhitespace(b)
    decreases |a|
  {
    var s := a + [c] + b;
    if a == [] {
      assert s == [c] + b;
      assert s[1..] == b;
    } else {
      assert s[1..] == a[1..] + [c] + b;
      SplitAtWhitespace(a[1..], c, b);
      SplitStep(a, c, b);
    }
  }

  /** The step of `SplitAtWhitespace`: one more character in front of `a`. */
  lemma SplitStep(a: string, c: char, b: string)
    requires a != [] && IsWhitespace(c)
    requires SplitWhitespace(a[1..] + [c] + b) == SplitWhitespace(a[1..]) + SplitWhitespace(b)
    ensures SplitWhitespace(a + [c] + b) == SplitWhitespace(a) + SplitWhitespace(b)
  {
    var s := a + [c] + b;
    assert s[0] == a[0];
    assert s[1..] == a[1..] + [c] + b;
    if IsWhitespace(a[0]) {
      SplitLeadingSpace(s);
      SplitLeadingSpace(a);
    } else if |a| == 1 || IsWhitespace(a[1]) {
      assert s[1] == (if |a| == 1 then c else a[1]);
      SplitLoneChar(s);
      SplitLoneChar(a);
      Assoc([[a[0]]], SplitWhitespace(a[1..]), SplitWhitespace(b));
    } else {
      assert s[1] == a[1];
      SplitGlued(a, s, SplitWhitespace(b));
    }
  }

  lemma SplitLeadingSpace(s: string)
    requires s != [] && IsWhitespace(s[0])
    ensures SplitWhitespace(s) == SplitWhitespace(s[1..])
  {
  }

  /** A non-whitespace character followed by whitespace or nothing is a word of its own. */
  lemma SplitLoneChar(s: string)
    requires s != [] && !IsWhitespace(s[0]) && (|s| == 1 || IsWhitespace(s[1]))
    ensures SplitWhitespace(s) == [[s[0]]] + SplitWhitespace(s[1..])
  {
  }

  /** `a` and `s` begin with the same two non-whitespace characters, and the words after `a`'s first are the words after `s`'s first less `tail`. */
  lemma SplitGlued(a: string, s: string, tail: seq<string>)
    requires |a| > 1 && |s| > 1 && s[0] == a[0] && s[1] == a[1]
    requires !IsWhitespace(a[0]) && !IsWhitespace(a[1])
    requires SplitWhitespace(s[1..]) == SplitWhitespace(a[1..]) + tail
    ensures SplitWhitespace(s) == SplitWhitespace(a) + tail
  {
    SplitTwoWordChars(s);
    SplitTwoWordChars(a);
    GlueAppend(a[0], SplitWhitespace(a[1..]), tail);
  }

  /** A string that starts with two non-whitespace characters: its first word is the first character glued to the first word of the rest. */
  lemma SplitTwoWordChars(s: string)
    requires |s| > 1 && !IsWhitespace(s[0]) && !IsWhitespace(s[1])
    ensures SplitWhitespace(s[1..]) != []
    ensures SplitWhitespace(s) == [[s[0]] + SplitWhitespace(s[1..])[0]] + SplitWhitespace(s[1..])[1..]
  {
  }

  /** Gluing `x` to the first word commutes with appending more words. */
  lemma GlueAppend(x: char, ws: seq<string>, tail: seq<string>)
    requires ws != []
    ensures [[x] + (ws + tail)[0]] + (ws + tail)[1..] == ([[x] + ws[0]] + ws[1..]) + tail
  {
    assert (ws + tail)[0] == ws[0];
    assert (ws + tail)[1..] == ws[1..] + tail;
  }

  lemma {:induction false} SplitOfWord(w: string)
    requires IsWord(w)
    ensures SplitWhitespace(w) == [w]
    decreases |w|
  {
    assert w[0] in w;
    if |w| == 1 {
      assert SplitWhitespace(w) == [[w[0]]] + SplitWhitespace(w[1..]);
      assert [w[0]] == w;
    } else {
      assert forall c :: c in w[1..] ==> c in w;
      assert w[1] in w;
      SplitOfWord(w[1..]);
      var r := SplitWhitespace(w[1..]);
      assert SplitWhitespace(w) == [[w[0]] + r[0]] + r[1..];
      assert [w[0]] + w[1..] == w;
    }
  }

  /** Splitting words joined by single spaces gives back the words. */
  lemma {:induction false} SplitJoin(ws: seq<string>)
    requires forall w :: w in ws ==> IsWord(w)
    ensures SplitWhitespace(Join(ws, " ")) == ws
    decreases |ws|
  {
    if |ws| == 1 {
      assert ws[0] in ws;
      SplitOfWord(ws[0]);
    } else if |ws| > 1 {
      assert ws[0] in ws;
      assert forall w :: w in ws[1..] ==> w in ws;
      SplitJoin(ws[1..]);
      SplitOfWord(ws[0]);
      assert ws[0] + " " + Join(ws[1..], " ") == ws[0] + [' '] + Join(ws[1..], " ");
      SplitAtWhitespace(ws[0], ' ', Join(ws[1..], " "));
      assert [ws[0]] + ws[1..] == ws;
    }
  }

  /** Words joined by single spaces: the only whitespace in the result is the separating ' '. */
  lemma {:induction false} JoinWordsChars(ws: seq<string>)
    requires forall w :: w in ws ==> IsWord(w)
    ensures forall c :: c in Join(ws, " ") ==> c == ' ' || !IsWhitespace(c)
    ensures ws != [] ==> Join(ws, " ") != [] && IsTrimmed(Join(ws, " "))
    decreases |ws|
  {
    if |ws| == 1 {
      assert ws[0] in ws;
    } else if |ws| > 1 {
      assert ws[0] in ws;
      assert forall w :: w in ws[1..] ==> w in ws;
      JoinWordsChars(ws[1..]);
      var j := ws[0] + " " + Join(ws[1..], " ");
      assert j[0] == ws[0][0];
      assert j[|j| - 1] == Join(ws[1..], " ")[|Join(ws[1..], " ")| - 1];
    }
  }

  /** A single-spaced string has no whitespace except the ' ' between its words. */
  lemma SingleSpacedChars(s: string)
    requires SingleSpaced(s)
    ensures forall c :: c in s ==> c == ' ' || !IsWhitespace(c)
    ensures s == [] || IsTrimmed(s)
  {
    JoinWordsChars(SplitWhitespace(s));
  }

  /** Concatenation regroups. */
  lemma Assoc<T>(a: seq<T>, b: seq<T>, c: seq<T>)
    ensures (a + b) + c == a + (b + c)
  {
  }

  /** Position of the first `c` in `s`, or `|s|` when there is none. */
  function IndexOf(s: string, c: char): (k: nat)
    ensures k <= |s|
    ensures k < |s| ==> s[k] == c
    ensures forall i :: 0 <= i < k ==> s[i] != c
  {
    if s == [] then 0 else if s[0] == c then 0 else 1 + IndexOf(s[1..], c)
  }

  /** Removes the '\r' of a "\r\n" line ending. */
  function StripCr(line: string): (r: string)
    ensures line == r || line == r + "\r"
    ensures line != [] && line[|line| - 1] == '\r' ==> line == r + "\r"
  {
    if line != [] && line[|line| - 1] == '\r' then line[..|line| - 1] else line
  }

  /**
   * `str::lines` (and `BufRead::lines` on valid UTF-8): the pieces between '\n'
   * characters, each without a '\r' that stood just before its '\n'; a final '\n'
   * does not start another line.
   */
  function Lines(s: string): (r: seq<string>)
    ensures r == [] <==> s == []
    ensures forall l :: l in r ==> '\n' !in l
    decreases |s|
  {
    if s == [] then []
    else
      var k := IndexOf(s, '\n');
      if k == |s| then
        assert forall c :: c in s ==> c != '\n';
        [s]
      else
        var line := StripCr(s[..k]);
        assert forall i :: 0 <= i < |line| ==> line[i] == s[i];
        assert '\n' !in line;
        var rest := Lines(s[k + 1..]);
        assert forall l :: l in [line] + rest ==> l == line || l in rest;
        [line] + rest
  }

  /** Every line followed by '\n', as a text file writes them. */
  function Unlines(ls: seq<string>): string
    decreases |ls|
  {
    if ls == [] then "" else ls[0] + "\n" + Unlines(ls[1..])
  }

  lemma {:induction false} UnlinesAppend(a: seq<string>, b: seq<string>)
    ensures Unlines(a + b) == Unlines(a) + Unlines(b)
    decreases |a|
  {
    if a != [] {
      assert (a + b)[1..] == a[1..] + b;
      UnlinesAppend(a[1..], b);
    } else {
      assert a + b == b;
    }
  }

  /** A line that `Lines` reads back verbatim: no '\n' in it and no '\r' at its end. */
  predicate IsPlainLine(l: string) {
    '\n' !in l && (l == [] || l[|l| - 1] != '\r')
  }

  /** `lines` undoes writing each line with a terminating '\n'. */
  lemma {:induction false} LinesUnlines(ls: seq<string>)
    requires forall l :: l in ls ==> IsPlainLine(l)
    ensures Lines(Unlines(ls)) == ls
    decreases |ls|
  {
    if ls != [] {
      var l0 := ls[0];
      assert l0 in ls;
      var s := Unlines(ls);
      assert s == l0 + "\n" + Unlines(ls[1..]);
      var k := IndexOf(s, '\n');
      assert s[|l0|] == '\n';
      forall i | 0 <= i < |l0|
        ensures s[i] != '\n'
      {
        assert s[i] == l0[i];
        assert l0[i] in l0;
      }
      assert k == |l0|;
      assert s[..k] == l0;
      assert s[k + 1..] == Unlines(ls[1..]);
      assert forall l :: l in ls[1..] ==> l in ls;
      LinesUnlines(ls[1..]);
      assert [l0] + ls[1..] == ls;
    }
  }

  /** `str::split(c)`: the pieces between occurrences of `c`, empty ones included. */
  function SplitOn(s: string, c: char): (r: seq<string>)
    ensures |r| >= 1
    ensures forall piece :: piece in r ==> c !in piece
    decreases |s|
  {
    if s == [] then [[]]
    else
      var rest := SplitOn(s[1..], c);
      if s[0] == c then [[]] + rest
      else
        assert forall p :: p in rest[1..] ==> p in rest;
        assert rest[0] in rest;
        [[s[0]] + rest[0]] + rest[1..]
  }

  /** Splitting on `c` and joining with `c` gives back the string. */
  lemma {:induction false} JoinSplitOn(s: string, c: char)
    ensures Join(SplitOn(s, c), [c]) == s
    decreases |s|
  {
    if s != [] {
      var rest := SplitOn(s[1..], c);
      JoinSplitOn(s[1..], c);
      if s[0] == c {
        assert SplitOn(s, c) == [[]] + rest;
        assert ([[]] + rest)[1..] == rest;
        assert Join(SplitOn(s, c), [c]) == [] + [c] + Join(rest, [c]);
        assert [c] + s[1..] == s;
      } else {
        assert SplitOn(s, c) == [[s[0]] + rest[0]] + rest[1..];
        if |rest| == 1 {
          assert Join(rest, [c]) == rest[0];
        } else {
          assert Join(rest, [c]) == rest[0] + [c] + Join(rest[1..], [c]);
          assert ([[s[0]] + rest[0]] + rest[1..])[1..] == rest[1..];
        }
        assert [s[0]] + s[1..] == s;
      }
    }
  }

  /**
   * `str::replace(pat, "")`: every occurrence of `pat` found scanning left to right,
   * matches not overlapping, is deleted.
   */
  function RemoveAll(s: string, pat: string): (r: string)
    requires pat != []
    ensures |r| <= |s|
    ensures !Contains(s, pat) ==> r == s
    decreases |s|
  {
    if |s| < |pat| then s
    else if s[..|pat|] == pat then RemoveAll(s[|pat|..], pat)
    else
      assert [s[0]] + s[1..] == s;
      [s[0]] + RemoveAll(s[1..], pat)
  }

  /** Every character of `s` is ASCII, one byte in UTF-8. */
  predicate IsAscii(s: string) {
    forall k :: 0 <= k < |s| ==> (s[k] as int) < 0x80
  }

  /** Bytes that `c` takes in UTF-8. */
  function Utf8Width(c: char): nat {
    if (c as int) < 0x80 then 1
    else if (c as int) < 0x800 then 2
    else if (c as int) < 0x10000 then 3
    else 4
  }

  /** `str::len`: the length of `s` encoded in UTF-8, in bytes. */
  function Utf8Len(s: string): (n: nat)
    ensures |s| <= n <= 4 * |s|
    ensures IsAscii(s) ==> n == |s|
    decreases |s|
  {
    if s == [] then 0 else Utf8Width(s[0]) + Utf8Len(s[1..])
  }

  /** `items.iter().map(|x| field(x)).map(width).max().unwrap_or(0)`. */
  function MaxWidth<T>(items: seq<T>, field: T -> string, width: string -> nat): (r: nat)
    ensures forall i :: 0 <= i < |items| ==> width(field(items[i])) <= r
    ensures items == [] ==> r == 0
    ensures items != [] ==> exists i :: 0 <= i < |items| && r == width(field(items[i]))
    decreases |items|
  {
    if items == [] then 0
    else
      var m := MaxWidth(items[..|items| - 1], field, width);
      var w := width(field(items[|items| - 1]));
      if m < w then w else m
  }

  /** The pieces of `ss` written one after another. */
  function Concat(ss: seq<string>): string
    decreases |ss|
  {
    if ss == [] then "" else ss[0] + Concat(ss[1..])
  }

  /** `s.chars().collect::<Vec<_>>().chunks(n)`, each chunk collected back into a string. */
  function Chunks(s: string, n: nat): (r: seq<string>)
    requires n > 0
    ensures Concat(r) == s
    ensures forall i :: 0 <= i < |r| ==> 0 < |r[i]| <= n
    ensures forall i :: 0 <= i < |r| - 1 ==> |r[i]| == n
    decreases |s|
  {
    if s == [] then []
    else if |s| <= n then [s]
    else
      var rest := Chunks(s[n..], n);
      assert ([s[..n]] + rest)[1..] == rest;
      assert s[..n] + s[n..] == s;
      [s[..n]] + rest
  }
}
