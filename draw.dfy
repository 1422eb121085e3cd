/**
 * The footer of src/draw.rs: (key, description) pairs laid out greedily on lines no
 * wider than the area minus four columns. A line is the list of its span texts; styles
 * and the painting of the paragraph are not modelled.
 */
module Draw {
  import opened Text

  /** One keybinding shown in a footer: the key and what it does. */
  type Pair = (string, string)

  /** `key.len() + 1 + desc.len() + 2`: byte lengths, a space between, two spaces after. */
  function PairWidth(p: Pair): (w: nat)
    ensures w >= |p.0| + |p.1| + 3
    ensures IsAscii(p.0) && IsAscii(p.1) ==> w == |p.0| + |p.1| + 3
  {
    Utf8Len(p.0) + 1 + Utf8Len(p.1) + 2
  }

  /** `area.width.saturating_sub(4)`. */
  function MaxLineWidth(areaWidth: nat): (r: nat)
    ensures areaWidth >= 4 ==> r + 4 == areaWidth
    ensures areaWidth < 4 ==> r == 0
  {
    if areaWidth >= 4 then areaWidth - 4 else 0
  }

  /** The total pair width of a line. */
  function GroupWidth(g: seq<Pair>): nat
    decreases |g|
  {
    if g == [] then 0 else GroupWidth(g[..|g| - 1]) + PairWidth(g[|g| - 1])
  }

  /** The spans of a line: `key`, " ", `desc`, "  " for each pair. */
  function SpansOf(g: seq<Pair>): (r: seq<string>)
    ensures |r| == 4 * |g|
    decreases |g|
  {
    if g == [] then [] else SpansOf(g[..|g| - 1]) + [g[|g| - 1].0, " ", g[|g| - 1].1, "  "]
  }

  /** The lines of a layout. */
  function Render(gs: seq<seq<Pair>>): (r: seq<seq<string>>)
    ensures |r| == |gs|
    ensures forall i :: 0 <= i < |gs| ==> r[i] == SpansOf(gs[i])
    decreases |gs|
  {
    if gs == [] then [] else Render(gs[..|gs| - 1]) + [SpansOf(gs[|gs| - 1])]
  }

  /** The groups of a layout written one after another. */
  function Flatten(gs: seq<seq<Pair>>): seq<Pair>
    decreases |gs|
  {
    if gs == [] then [] else Flatten(gs[..|gs| - 1]) + gs[|gs| - 1]
  }

  /** The layout of the lines still open: `group` is the line being filled, `done` the lines already flushed. */
  function Close(done: seq<seq<Pair>>, group: seq<Pair>): seq<seq<Pair>> {
    if group == [] then done else done + [group]
  }

  /** The loop of `draw_footer` over the remaining pairs. */
  function WrapFrom(maxWidth: nat, done: seq<seq<Pair>>, group: seq<Pair>, rest: seq<Pair>): (r: seq<seq<Pair>>)
    ensures |done| <= |r| <= |done| + |rest| + (if group == [] then 0 else 1)
    decreases |rest|
  {
    if rest == [] then Close(done, group)
    else if GroupWidth(group) + PairWidth(rest[0]) > maxWidth && group != []
    then WrapFrom(maxWidth, done + [group], [rest[0]], rest[1..])
    else WrapFrom(maxWidth, done, group + [rest[0]], rest[1..])
  }

  /** The lines of the footer, as groups of pairs. */
  function Wrap(maxWidth: nat, keybinds: seq<Pair>): (r: seq<seq<Pair>>)
    ensures |r| <= |keybinds|
  {
    WrapFrom(maxWidth, [], [], keybinds)
  }

  /** `draw_footer`: the text of the footer lines for an area `areaWidth` columns wide. */
  method DrawFooter(areaWidth: nat, keybinds: seq<Pair>) returns (lines: seq<seq<string>>)
    ensures lines == Render(Wrap(MaxLineWidth(areaWidth), keybinds))
  {
    var spans: seq<string> := [];
    lines := [];
    var currentWidth := 0;
    var maxWidth := MaxLineWidth(areaWidth);
    ghost var done: seq<seq<Pair>> := [];
    ghost var group: seq<Pair> := [];
    for i := 0 to |keybinds|
      invariant WrapFrom(maxWidth, done, group, keybinds[i..]) == Wrap(maxWidth, keybinds)
      invariant lines == Render(done) && spans == SpansOf(group) && currentWidth == GroupWidth(group)
    {
      assert keybinds[i..][1..] == keybinds[i + 1..];
      var (key, desc) := keybinds[i];
      var pairWidth := Utf8Len(key) + 1 + Utf8Len(desc) + 2;
      if currentWidth + pairWidth > maxWidth && spans != [] {
        assert (done + [group])[..|done|] == done;
        lines := lines + [spans];
        spans := [];
        currentWidth := 0;
        done, group := done + [group], [];
      }
      spans := spans + [key, " ", desc, "  "];
      currentWidth := currentWidth + pairWidth;
      assert (group + [keybinds[i]])[..|group|] == group;
      group := group + [keybinds[i]];
    }
    assert keybinds[|keybinds|..] == [];
    if spans != [] {
      assert (done + [group])[..|done|] == done;
      lines := lines + [spans];
    }
  }

  // ---------------------------------------------------------------------------
  // What the layout guarantees

  lemma FlattenAppend(gs: seq<seq<Pair>>, g: seq<Pair>)
    ensures Flatten(gs + [g]) == Flatten(gs) + g
  {
    assert (gs + [g])[..|gs|] == gs;
  }

  lemma GroupWidthAppend(g: seq<Pair>, p: Pair)
    ensures GroupWidth(g + [p]) == GroupWidth(g) + PairWidth(p)
  {
    assert (g + [p])[..|g|] == g;
  }

  /** Every pair is laid out exactly once, in input order. */
  lemma {:induction false} WrapFromCovers(maxWidth: nat, done: seq<seq<Pair>>, group: seq<Pair>, rest: seq<Pair>)
    ensures Flatten(WrapFrom(maxWidth, done, group, rest)) == Flatten(done) + group + rest
    decreases |rest|
  {
    if rest == [] {
      if group != [] {
        FlattenAppend(done, group);
      }
    } else {
      var p, later := rest[0], rest[1..];
      assert [p] + later == rest;
      if GroupWidth(group) + PairWidth(p) > maxWidth && group != [] {
        assert WrapFrom(maxWidth, done, group, rest) == WrapFrom(maxWidth, done + [group], [p], later);
        WrapFromCovers(maxWidth, done + [group], [p], later);
        FlattenAppend(done, group);
        Assoc(Flatten(done) + group, [p], later);
      } else {
        assert WrapFrom(maxWidth, done, group, rest) == WrapFrom(maxWidth, done, group + [p], later);
        WrapFromCovers(maxWidth, done, group + [p], later);
        Assoc(Flatten(done) + group, [p], later);
        Assoc(Flatten(done), group, [p]);
      }
    }
  }

  lemma WrapCovers(maxWidth: nat, keybinds: seq<Pair>)
    ensures Flatten(Wrap(maxWidth, keybinds)) == keybinds
  {
    WrapFromCovers(maxWidth, [], [], keybinds);
  }

  /** A line is no wider than the limit unless it holds a single pair. */
  predicate Fits(maxWidth: nat, g: seq<Pair>) {
    |g| == 1 || GroupWidth(g) <= maxWidth
  }

  /** What a laid-out footer satisfies: no empty line, no line over the limit except a lone pair, and a line break only where the next pair would not have fitted. */
  predicate WellWrapped(maxWidth: nat, gs: seq<seq<Pair>>) {
    && (forall i :: 0 <= i < |gs| ==> gs[i] != [] && Fits(maxWidth, gs[i]))
    && (forall i :: 1 <= i < |gs| ==> GroupWidth(gs[i - 1]) + PairWidth(gs[i][0]) > maxWidth)
  }

  /** The open line, when it is not the first, follows a break the greedy rule allowed. */
  predicate OpenLineOk(maxWidth: nat, done: seq<seq<Pair>>, group: seq<Pair>) {
    && (group == [] || Fits(maxWidth, group))
    && (done != [] ==> group != [] && GroupWidth(done[|done| - 1]) + PairWidth(group[0]) > maxWidth)
  }

  /** Flushing the open line keeps the layout well wrapped. */
  lemma CloseLine(maxWidth: nat, done: seq<seq<Pair>>, group: seq<Pair>)
    requires WellWrapped(maxWidth, done) && OpenLineOk(maxWidth, done, group) && group != []
    ensures WellWrapped(maxWidth, done + [group])
  {
    var gs := done + [group];
    forall i | 0 <= i < |gs|
      ensures gs[i] != [] && Fits(maxWidth, gs[i])
    {
      if i < |done| {
        assert gs[i] == done[i];
      }
    }
    forall i | 1 <= i < |gs|
      ensures GroupWidth(gs[i - 1]) + PairWidth(gs[i][0]) > maxWidth
    {
      assert gs[i - 1] == done[i - 1];
      if i < |done| {
        assert gs[i] == done[i];
      }
    }
  }

  lemma {:induction false} WrapFromWellWrapped(maxWidth: nat, done: seq<seq<Pair>>, group: seq<Pair>, rest: seq<Pair>)
    requires WellWrapped(maxWidth, done) && OpenLineOk(maxWidth, done, group)
    ensures WellWrapped(maxWidth, WrapFrom(maxWidth, done, group, rest))
    decreases |rest|
  {
    if rest == [] {
      if group != [] {
        CloseLine(maxWidth, done, group);
      }
    } else if GroupWidth(group) + PairWidth(rest[0]) > maxWidth && group != [] {
      CloseLine(maxWidth, done, group);
      var gs := done + [group];
      assert gs[|gs| - 1] == group;
      assert OpenLineOk(maxWidth, gs, [rest[0]]);
      WrapFromWellWrapped(maxWidth, gs, [rest[0]], rest[1..]);
    } else {
      GroupWidthAppend(group, rest[0]);
      var g := group + [rest[0]];
      assert group != [] ==> g[0] == group[0];
      assert OpenLineOk(maxWidth, done, g);
      WrapFromWellWrapped(maxWidth, done, g, rest[1..]);
    }
  }

  /** The layout of any pairs is well wrapped. */
  lemma WrapWellWrapped(maxWidth: nat, keybinds: seq<Pair>)
    ensures WellWrapped(maxWidth, Wrap(maxWidth, keybinds))
  {
    WrapFromWellWrapped(maxWidth, [], [], keybinds);
  }

  /** No pairs give no line, and some pairs give at least one line. */
  lemma WrapEmpty(maxWidth: nat, keybinds: seq<Pair>)
    ensures Wrap(maxWidth, keybinds) == [] <==> keybinds == []
  {
    WrapCovers(maxWidth, keybinds);
  }

  /** Within a line, every pair after the first fitted beside the ones before it. */
  lemma {:induction false} FitsPrefixes(maxWidth: nat, g: seq<Pair>, k: nat)
    requires Fits(maxWidth, g) && 1 <= k < |g|
    ensures GroupWidth(g[..k]) + PairWidth(g[k]) <= maxWidth
    decreases |g|
  {
    GroupWidthAppend(g[..k], g[k]);
    assert g[..k] + [g[k]] == g[..k + 1];
    PrefixWidth(g, k + 1);
  }

  lemma {:induction false} PrefixWidth(g: seq<Pair>, k: nat)
    requires k <= |g|
    ensures GroupWidth(g[..k]) <= GroupWidth(g)
    decreases |g|
  {
    if k < |g| {
      assert g[..|g| - 1][..k] == g[..k];
      PrefixWidth(g[..|g| - 1], k);
    } else {
      assert g[..k] == g;
    }
  }
}
