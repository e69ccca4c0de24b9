// The bricks `createBricksFromResume` leaves behind, compared row by row with
// the layout `layoutWords` computes for the same words.

module ResumeLayout {
  import opened Prelude
  import opened SceneObjects
  import opened BrickLayout
  import opened Bricks

  /** A row the justification pass spreads: it has free space on its right. */
  predicate Spread(row: seq<ProvBrick>, rightEdge: int)
  {
    row != [] && Space(row, rightEdge) > 0
  }

  /** The bricks created for one row while placing, destroyed or not. */
  function KeptRow(row: seq<ProvBrick>, destroyed: bool): (r: seq<BrickObj>)
    ensures |r| == |row|
  {
    seq(|row|, j requires 0 <= j < |row| => Initial(row[j]).(active := !destroyed))
  }

  /** The bricks created while placing, row by row, once the first `done` rows
      went through the justification pass. */
  function KeptRows(rows: seq<seq<ProvBrick>>, done: nat, rightEdge: int): (r: seq<seq<BrickObj>>)
    ensures |r| == |rows|
  {
    seq(|rows|, i requires 0 <= i < |rows| => KeptRow(rows[i], i < done && Spread(rows[i], rightEdge)))
  }

  function Rebuilts(out: seq<Brick>): (r: seq<BrickObj>)
    ensures |r| == |out|
  {
    seq(|out|, j requires 0 <= j < |out| => Rebuilt(out[j]))
  }

  /** The layout's bricks row by row. */
  function LayoutRows(rows: seq<seq<ProvBrick>>, rightEdge: int): (r: seq<seq<Brick>>)
    ensures |r| == |rows|
  {
    seq(|rows|, i requires 0 <= i < |rows| => JustifyRow(rows[i], rightEdge))
  }

  /** The bricks the justification pass creates row by row: the layout's
      bricks of a spread row, rebuilt, and none for any other row. */
  function Created(rows: seq<seq<ProvBrick>>, rightEdge: int): (r: seq<seq<BrickObj>>)
    ensures |r| == |rows|
  {
    seq(|rows|, i requires 0 <= i < |rows| =>
      if Spread(rows[i], rightEdge) then Rebuilts(LayoutRows(rows, rightEdge)[i]) else [])
  }

  /** The number of elements in all the pieces. */
  function Count<T>(ss: seq<seq<T>>): nat
  {
    if ss == [] then 0 else Count(ss[..|ss| - 1]) + |ss[|ss| - 1]|
  }

  /** The `bricksByRow` entries are the rows' bricks, numbered in placement
      order from `base`. */
  ghost predicate Numbered(erows: seq<seq<RowEntry>>, rows: seq<seq<ProvBrick>>, base: nat)
  {
    && |erows| == |rows|
    && forall i {:trigger erows[i]} :: 0 <= i < |rows| ==> erows[i] == Entries(rows[i], base + Count(rows[..i]))
  }

  /** The members from `lo` up to `hi`, destroyed. */
  function DestroyRange(group: seq<BrickObj>, lo: nat, hi: nat): (r: seq<BrickObj>)
    ensures |r| == |group|
  {
    seq(|group|, k requires 0 <= k < |group| => if lo <= k < hi then group[k].(active := false) else group[k])
  }

  // ---------------------------------------------------------------------------
  // the headline

  /** `createBricksFromResume` on an empty group leaves the bricks it placed,
      in placement order, with exactly those of the spread rows destroyed,
      followed by the bricks rebuilt from the layout's justified bricks of each
      spread row, row after row; the layout is those justified rows in the
      same order. */
  lemma ResumeAsLayout(elements: seq<string>, vp: Viewport)
    ensures var rows, re := Group(Placed(elements, vp), RowKey), RightEdge(vp);
      && ResumeBricks([], elements, vp) == Flatten(KeptRows(rows, |rows|, re)) + Flatten(Created(rows, re))
      && Layout(elements, vp).bricks == Flatten(LayoutRows(rows, re))
  {
    var p, re := Placed(elements, vp), RightEdge(vp);
    var rows, erows := Group(p, RowKey), Group(Entries(p, 0), EntryRow);
    EntryGroups(p, 0);
    GroupFlatten(p, RowKey);
    InitialsAsKept(rows, re);
    assert [] + Initials(p) == Flatten(KeptRows(rows, 0, re)) + Flatten(Created(rows[..0], re));
    PassFrom(rows, erows, 0, re);
    assert rows[..|rows|] == rows;
    assert erows[0..] == erows;
    LayoutAsRows(rows, re);
  }

  /** The layout's bricks are its rows' justified bricks, row after row. */
  lemma {:induction false} LayoutAsRows(rows: seq<seq<ProvBrick>>, rightEdge: int)
    ensures JustifyAll(rows, rightEdge) == Flatten(LayoutRows(rows, rightEdge))
    decreases |rows|
  {
    if rows != [] {
      var n := |rows| - 1;
      LayoutAsRows(rows[..n], rightEdge);
      assert LayoutRows(rows, rightEdge)[..n] == LayoutRows(rows[..n], rightEdge);
    }
  }

  /** A flush row stays as placed: its bricks are live, at the layout's
      position and width, and none of them is flagged, while the layout flags
      the last. A spread row's placed bricks are all destroyed. */
  lemma RowAgainstLayout(row: seq<ProvBrick>, rightEdge: int)
    requires row != []
    ensures var kept, laid := KeptRow(row, Spread(row, rightEdge)), JustifyRow(row, rightEdge);
      && |kept| == |laid| == |row|
      && (Spread(row, rightEdge) ==> forall j :: 0 <= j < |row| ==> !kept[j].active)
      && (!Spread(row, rightEdge) ==>
            && (forall j :: 0 <= j < |row| ==>
                  && kept[j].active && !kept[j].isLastInRow
                  && kept[j].x == laid[j].x && kept[j].y == laid[j].y && kept[j].width == laid[j].width)
            && laid[|row| - 1].isLastInRow)
  {
    JustifyRowAt(row, rightEdge, |row| - 1);
    if !Spread(row, rightEdge) {
      JustifyRowFlush(row, rightEdge);
      forall j | 0 <= j < |row| ensures JustifyRow(row, rightEdge)[j].y == row[j].y {
        JustifyRowAt(row, rightEdge, j);
      }
    }
  }

  // ---------------------------------------------------------------------------
  // the pass, row by row

  /** Before the pass, the group holds the placed bricks, all live. */
  lemma {:induction false} InitialsAsKept(rows: seq<seq<ProvBrick>>, rightEdge: int)
    ensures Initials(Flatten(rows)) == Flatten(KeptRows(rows, 0, rightEdge))
    decreases |rows|
  {
    if rows != [] {
      var n := |rows| - 1;
      InitialsAsKept(rows[..n], rightEdge);
      assert KeptRows(rows, 0, rightEdge)[..n] == KeptRows(rows[..n], 0, rightEdge);
      InitialsAppend(Flatten(rows[..n]), rows[n]);
      assert Initials(rows[n]) == KeptRow(rows[n], false);
    }
  }

  lemma InitialsAppend(a: seq<ProvBrick>, b: seq<ProvBrick>)
    ensures Initials(a + b) == Initials(a) + Initials(b)
  {
  }

  /** The pass over the rows from `i` on finishes the job. */
  lemma {:induction false} PassFrom(rows: seq<seq<ProvBrick>>, erows: seq<seq<RowEntry>>, i: nat, rightEdge: int)
    requires Numbered(erows, rows, 0) && i <= |rows|
    ensures JustifyGroup(Flatten(KeptRows(rows, i, rightEdge)) + Flatten(Created(rows[..i], rightEdge)),
                         erows[i..], rightEdge)
         == Flatten(KeptRows(rows, |rows|, rightEdge)) + Flatten(Created(rows, rightEdge))
    decreases |rows| - i
  {
    if i == |rows| {
      assert rows[..i] == rows;
    } else {
      var es := erows[i..];
      assert es[0] == erows[i] && es[1..] == erows[i + 1..];
      RowStep(rows, erows[i], i, rightEdge);
      PassFrom(rows, erows, i + 1, rightEdge);
    }
  }

  /** One row of the pass takes the group from state `i` to state `i + 1`. */
  lemma RowStep(rows: seq<seq<ProvBrick>>, es: seq<RowEntry>, i: nat, rightEdge: int)
    requires i < |rows| && es == Entries(rows[i], Count(rows[..i]))
    ensures ReplaceRow(Flatten(KeptRows(rows, i, rightEdge)) + Flatten(Created(rows[..i], rightEdge)), es, rightEdge)
         == Flatten(KeptRows(rows, i + 1, rightEdge)) + Flatten(Created(rows[..i + 1], rightEdge))
  {
    if Spread(rows[i], rightEdge) {
      SpreadCase(rows, es, i, rightEdge);
    } else {
      FlushCase(rows, es, i, rightEdge);
    }
  }

  lemma SpreadCase(rows: seq<seq<ProvBrick>>, es: seq<RowEntry>, i: nat, rightEdge: int)
    requires i < |rows| && es == Entries(rows[i], Count(rows[..i])) && Spread(rows[i], rightEdge)
    ensures ReplaceRow(Flatten(KeptRows(rows, i, rightEdge)) + Flatten(Created(rows[..i], rightEdge)), es, rightEdge)
         == Flatten(KeptRows(rows, i + 1, rightEdge)) + Flatten(Created(rows[..i + 1], rightEdge))
  {
    var s := Count(rows[..i]);
    var kept, made := Flatten(KeptRows(rows, i, rightEdge)), Flatten(Created(rows[..i], rightEdge));
    SpreadReplace(rows, es, i, rightEdge, kept, made, s);
    DestroyKept(rows, i, rightEdge, made, s);
    CreatedSnoc(rows, i, rightEdge);
    Regroup(ReplaceRow(kept + made, es, rightEdge), DestroyRange(kept + made, s, s + |rows[i]|),
            Flatten(KeptRows(rows, i + 1, rightEdge)), made, Rebuilts(JustifyRow(rows[i], rightEdge)),
            Flatten(Created(rows[..i + 1], rightEdge)));
  }

  /** The spread row's entries point at its placed bricks, which come before
      every created brick. */
  lemma SpreadReplace(rows: seq<seq<ProvBrick>>, es: seq<RowEntry>, i: nat, rightEdge: int,
                      kept: seq<BrickObj>, made: seq<BrickObj>, s: nat)
    requires i < |rows| && s == Count(rows[..i]) && es == Entries(rows[i], s) && Spread(rows[i], rightEdge)
    requires kept == Flatten(KeptRows(rows, i, rightEdge))
    ensures ReplaceRow(kept + made, es, rightEdge)
         == DestroyRange(kept + made, s, s + |rows[i]|) + Rebuilts(JustifyRow(rows[i], rightEdge))
  {
    RowBounds(rows, i, rightEdge);
    SpreadRowStep(kept + made, rows[i], s, rightEdge);
  }

  lemma FlushCase(rows: seq<seq<ProvBrick>>, es: seq<RowEntry>, i: nat, rightEdge: int)
    requires i < |rows| && es == Entries(rows[i], Count(rows[..i])) && !Spread(rows[i], rightEdge)
    ensures ReplaceRow(Flatten(KeptRows(rows, i, rightEdge)) + Flatten(Created(rows[..i], rightEdge)), es, rightEdge)
         == Flatten(KeptRows(rows, i + 1, rightEdge)) + Flatten(Created(rows[..i + 1], rightEdge))
  {
    var s := Count(rows[..i]);
    var kept, made := Flatten(KeptRows(rows, i, rightEdge)), Flatten(Created(rows[..i], rightEdge));
    FlushRowStep(kept + made, rows[i], s, rightEdge);
    KeptUnspread(rows, i, rightEdge);
    CreatedSnoc(rows, i, rightEdge);
    Regroup(ReplaceRow(kept + made, es, rightEdge), kept + made,
            Flatten(KeptRows(rows, i + 1, rightEdge)), made, [], Flatten(Created(rows[..i + 1], rightEdge)));
  }

  lemma Regroup(x: seq<BrickObj>, a: seq<BrickObj>, k: seq<BrickObj>, m: seq<BrickObj>, r: seq<BrickObj>, c: seq<BrickObj>)
    requires x == a + r && a == k + m && c == m + r
    ensures x == k + c
  {
  }

  /** A row the pass skips leaves the group as it is. */
  lemma FlushRowStep(group: seq<BrickObj>, row: seq<ProvBrick>, s: nat, rightEdge: int)
    requires !Spread(row, rightEdge)
    ensures ReplaceRow(group, Entries(row, s), rightEdge) == group
  {
    DatasEntries(row, s);
  }

  /** A spread row whose bricks are the members from `s` on: they are
      destroyed and the rebuilt justified bricks are appended. */
  lemma SpreadRowStep(group: seq<BrickObj>, row: seq<ProvBrick>, s: nat, rightEdge: int)
    requires Spread(row, rightEdge) && s + |row| <= |group|
    ensures ReplaceRow(group, Entries(row, s), rightEdge)
         == DestroyRange(group, s, s + |row|) + Rebuilts(JustifyRow(row, rightEdge))
  {
    var es, out := Entries(row, s), JustifyRow(row, rightEdge);
    DatasEntries(row, s);
    JustifyRowAt(row, rightEdge, 0);
    ReplaceFromRange(group, es, 0, out, s);
    assert out[0..] == out;
  }

  lemma DatasEntries(row: seq<ProvBrick>, s: nat)
    ensures Datas(Entries(row, s)) == row
  {
  }

  /** The created bricks of one more row come after those of the rows before. */
  lemma CreatedSnoc(rows: seq<seq<ProvBrick>>, i: nat, rightEdge: int)
    requires i < |rows|
    ensures Flatten(Created(rows[..i + 1], rightEdge))
         == Flatten(Created(rows[..i], rightEdge))
          + (if Spread(rows[i], rightEdge) then Rebuilts(JustifyRow(rows[i], rightEdge)) else [])
  {
    assert Created(rows[..i + 1], rightEdge)[..i] == Created(rows[..i], rightEdge);
    assert LayoutRows(rows[..i + 1], rightEdge)[i] == JustifyRow(rows[i], rightEdge);
  }

  /** A row the pass skips changes nothing. */
  lemma KeptUnspread(rows: seq<seq<ProvBrick>>, i: nat, rightEdge: int)
    requires i < |rows| && !Spread(rows[i], rightEdge)
    ensures KeptRows(rows, i + 1, rightEdge) == KeptRows(rows, i, rightEdge)
  {
  }

  /** Row `i`'s placed bricks sit at `Count(rows[..i])` onwards. */
  lemma RowBounds(rows: seq<seq<ProvBrick>>, i: nat, rightEdge: int)
    requires i < |rows|
    ensures Count(rows[..i]) + |rows[i]| <= |Flatten(KeptRows(rows, i, rightEdge))|
  {
    FlattenSplit(rows, i);
    FlattenCount(rows[..i]);
    FlattenShape(KeptRows(rows, i, rightEdge), rows);
  }

  /** Destroying the bricks of a spread row `i` marks them destroyed in state
      `i + 1`. */
  lemma DestroyKept(rows: seq<seq<ProvBrick>>, i: nat, rightEdge: int, made: seq<BrickObj>, s: nat)
    requires i < |rows| && Spread(rows[i], rightEdge) && s == Count(rows[..i])
    ensures DestroyRange(Flatten(KeptRows(rows, i, rightEdge)) + made, s, s + |rows[i]|)
        == Flatten(KeptRows(rows, i + 1, rightEdge)) + made
  {
    var k, k' := KeptRows(rows, i, rightEdge), KeptRows(rows, i + 1, rightEdge);
    KeptAround(rows, i, rightEdge, k, k');
    FlattenSplit(k, i);
    FlattenSplit(k', i);
    KeptPrefixSize(rows, i, rightEdge, k, s);
    DestroyPieces(Flatten(k[..i]), k[i], k'[i], Flatten(k[i + 1..]), made, Flatten(k), Flatten(k'),
                  s, |rows[i]|);
  }

  /** Passing spread row `i` changes row `i` of the kept bricks and no other. */
  lemma KeptAround(rows: seq<seq<ProvBrick>>, i: nat, rightEdge: int, k: seq<seq<BrickObj>>, k': seq<seq<BrickObj>>)
    requires i < |rows| && Spread(rows[i], rightEdge)
    requires k == KeptRows(rows, i, rightEdge) && k' == KeptRows(rows, i + 1, rightEdge)
    ensures k'[..i] == k[..i] && k'[i + 1..] == k[i + 1..] && k'[i] == Deactivated(k[i])
  {
    assert k'[..i] == k[..i];
    assert k'[i + 1..] == k[i + 1..];
    assert k[i] == KeptRow(rows[i], false) && k'[i] == KeptRow(rows[i], true);
  }

  lemma KeptPrefixSize(rows: seq<seq<ProvBrick>>, i: nat, rightEdge: int, k: seq<seq<BrickObj>>, s: nat)
    requires i < |rows| && k == KeptRows(rows, i, rightEdge) && s == Count(rows[..i])
    ensures |Flatten(k[..i])| == s
  {
    FlattenShape(k[..i], rows[..i]);
    FlattenCount(rows[..i]);
  }

  lemma DestroyPieces(a: seq<BrickObj>, m: seq<BrickObj>, m': seq<BrickObj>, b: seq<BrickObj>, c: seq<BrickObj>,
                      whole: seq<BrickObj>, whole': seq<BrickObj>, s: nat, len: nat)
    requires whole == a + m + b && whole' == a + m' + b && m' == Deactivated(m)
    requires |a| == s && |m| == len
    ensures DestroyRange(whole + c, s, s + len) == whole' + c
  {
    assert whole + c == a + m + (b + c);
    assert whole' + c == a + m' + (b + c);
    DestroyMiddle(a, m, b + c);
  }

  function Deactivated(m: seq<BrickObj>): (r: seq<BrickObj>)
    ensures |r| == |m|
  {
    seq(|m|, j requires 0 <= j < |m| => m[j].(active := false))
  }

  lemma DestroyMiddle(a: seq<BrickObj>, m: seq<BrickObj>, b: seq<BrickObj>)
    ensures DestroyRange(a + m + b, |a|, |a| + |m|) == a + Deactivated(m) + b
  {
  }

  /** The inner `forEach` of a spread row whose entries point at consecutive
      members from `s` on destroys those members and appends the replacements. */
  lemma {:induction false} ReplaceFromRange(group: seq<BrickObj>, row: seq<RowEntry>, j: nat, out: seq<Brick>, s: nat)
    requires j <= |row| == |out|
    requires forall k :: 0 <= k < |row| ==> row[k].brick == s + k
    requires s + |row| <= |group|
    ensures ReplaceFrom(group, row, j, out) == DestroyRange(group, s + j, s + |row|) + Rebuilts(out[j..])
    decreases |row| - j
  {
    if j == |row| {
      assert DestroyRange(group, s + j, s + |row|) == group;
      assert Rebuilts(out[j..]) == [];
    } else {
      var g' := Destroy(group, s + j) + [Rebuilt(out[j])];
      ReplaceFromUnfold(group, row, j, out);
      ReplaceFromRange(g', row, j + 1, out, s);
      DestroyRangeStep(group, s + j, s + |row|, Rebuilt(out[j]));
      RebuiltsCons(out, j);
      Assoc(ReplaceFrom(group, row, j, out), DestroyRange(group, s + j, s + |row|), [Rebuilt(out[j])],
            Rebuilts(out[j + 1..]), Rebuilts(out[j..]));
    }
  }

  /** Destroying member `h` and appending one brick extends the range by one. */
  lemma DestroyRangeStep(group: seq<BrickObj>, h: nat, hi: nat, b: BrickObj)
    requires h < hi <= |group|
    ensures DestroyRange(Destroy(group, h) + [b], h + 1, hi) == DestroyRange(group, h, hi) + [b]
  {
  }

  lemma RebuiltsCons(out: seq<Brick>, j: nat)
    requires j < |out|
    ensures Rebuilts(out[j..]) == [Rebuilt(out[j])] + Rebuilts(out[j + 1..])
  {
  }

  lemma Assoc<T>(x: seq<T>, p: seq<T>, m: seq<T>, b: seq<T>, y: seq<T>)
    requires x == (p + m) + b && y == m + b
    ensures x == p + y
  {
  }

  // ---------------------------------------------------------------------------
  // the entries, grouped

  /** Grouping the entries gives the layout's rows, each entry numbered by its
      place in the placement order. */
  lemma {:induction false} EntryGroups(p: seq<ProvBrick>, base: nat)
    ensures Numbered(Group(Entries(p, base), EntryRow), Group(p, RowKey), base)
    decreases |p|
  {
    if p == [] {
      assert Entries(p, base) == [];
    } else {
      var pre, x := p[..|p| - 1], p[|p| - 1];
      assert pre + [x] == p;
      EntryGroups(pre, base);
      GroupFlatten(pre, RowKey);
      FlattenCount(Group(pre, RowKey));
      GroupStep(pre, x, base, Group(pre, RowKey), Group(Entries(pre, base), EntryRow));
    }
  }

  /** One more placed brick extends the last row or opens a new one, on both
      sides alike. */
  lemma GroupStep(pre: seq<ProvBrick>, x: ProvBrick, base: nat, g: seq<seq<ProvBrick>>, eg: seq<seq<RowEntry>>)
    requires g == Group(pre, RowKey) && eg == Group(Entries(pre, base), EntryRow)
    requires Numbered(eg, g, base) && Count(g) == |pre|
    ensures Numbered(Group(Entries(pre + [x], base), EntryRow), Group(pre + [x], RowKey), base)
  {
    var e := RowEntry(base + |pre|, x);
    EntriesSnoc(pre, x, base);
    if g != [] {
      SameKey(eg, g, base);
    }
    var eg', g' := Group(Entries(pre + [x], base), EntryRow), Group(pre + [x], RowKey);
    if g != [] && RowKey(g[|g| - 1][0]) == RowKey(x) {
      var n := |g| - 1;
      GroupExtends(pre, x, RowKey, g, n);
      GroupExtends(Entries(pre, base), e, EntryRow, eg, n);
      CountLast(g, n);
      ExtendLast(g, eg, x, base, n, e);
      Transport(eg', eg[..n] + [eg[n] + [e]], g', g[..n] + [g[n] + [x]], base);
    } else {
      GroupOpens(pre, x, RowKey, g);
      GroupOpens(Entries(pre, base), e, EntryRow, eg);
      OpenRow(g, eg, x, base, e);
      Transport(eg', eg + [[e]], g', g + [[x]], base);
    }
  }

  lemma Transport(eg: seq<seq<RowEntry>>, eg': seq<seq<RowEntry>>, g: seq<seq<ProvBrick>>, g': seq<seq<ProvBrick>>, base: nat)
    requires eg == eg' && g == g' && Numbered(eg', g', base)
    ensures Numbered(eg, g, base)
  {
  }

  lemma GroupExtends<T>(xs: seq<T>, x: T, key: T -> int, g: seq<seq<T>>, n: nat)
    requires g == Group(xs, key) && n + 1 == |g| && key(g[n][0]) == key(x)
    ensures Group(xs + [x], key) == g[..n] + [g[n] + [x]]
  {
    GroupSnoc(xs, x, key);
  }

  lemma GroupOpens<T>(xs: seq<T>, x: T, key: T -> int, g: seq<seq<T>>)
    requires g == Group(xs, key) && !(g != [] && key(g[|g| - 1][0]) == key(x))
    ensures Group(xs + [x], key) == g + [[x]]
  {
    GroupSnoc(xs, x, key);
  }

  lemma SameKey(eg: seq<seq<RowEntry>>, g: seq<seq<ProvBrick>>, base: nat)
    requires Numbered(eg, g, base) && g != [] && g[|g| - 1] != []
    ensures eg[|g| - 1] != [] && EntryRow(eg[|g| - 1][0]) == RowKey(g[|g| - 1][0])
  {
    var n := |g| - 1;
    assert eg[n] == Entries(g[n], base + Count(g[..n]));
  }

  lemma ExtendLast(g: seq<seq<ProvBrick>>, eg: seq<seq<RowEntry>>, x: ProvBrick, base: nat, n: nat, e: RowEntry)
    requires Numbered(eg, g, base) && n + 1 == |g| && e == RowEntry(base + Count(g[..n]) + |g[n]|, x)
    ensures Numbered(eg[..n] + [eg[n] + [e]], g[..n] + [g[n] + [x]], base)
  {
    forall i | 0 <= i < n + 1
      ensures (eg[..n] + [eg[n] + [e]])[i] == Entries((g[..n] + [g[n] + [x]])[i], base + Count((g[..n] + [g[n] + [x]])[..i]))
    {
      if i < n {
        assert (g[..n] + [g[n] + [x]])[..i] == g[..i];
        assert (eg[..n] + [eg[n] + [e]])[i] == eg[i];
      } else {
        assert (g[..n] + [g[n] + [x]])[..i] == g[..n];
        ExtendRow(eg[n], g[n], x, base + Count(g[..n]), e);
      }
    }
  }

  lemma CountLast<T>(g: seq<seq<T>>, n: nat)
    requires n + 1 == |g|
    ensures Count(g) == Count(g[..n]) + |g[n]|
  {
  }

  lemma ExtendRow(er: seq<RowEntry>, r: seq<ProvBrick>, x: ProvBrick, s: nat, e: RowEntry)
    requires er == Entries(r, s) && e == RowEntry(s + |r|, x)
    ensures er + [e] == Entries(r + [x], s)
  {
    EntriesSnoc(r, x, s);
  }

  lemma OpenRow(g: seq<seq<ProvBrick>>, eg: seq<seq<RowEntry>>, x: ProvBrick, base: nat, e: RowEntry)
    requires Numbered(eg, g, base) && e == RowEntry(base + Count(g), x)
    ensures Numbered(eg + [[e]], g + [[x]], base)
  {
    EntriesOne(x, e);
    NumberedSnoc(eg, g, [e], [x], base);
  }

  lemma NumberedSnoc(eg: seq<seq<RowEntry>>, g: seq<seq<ProvBrick>>, er: seq<RowEntry>, r: seq<ProvBrick>, base: nat)
    requires Numbered(eg, g, base) && er == Entries(r, base + Count(g))
    ensures Numbered(eg + [er], g + [r], base)
  {
    forall i | 0 <= i < |g| + 1 ensures (eg + [er])[i] == Entries((g + [r])[i], base + Count((g + [r])[..i])) {
      if i < |g| {
        assert (g + [r])[..i] == g[..i];
      } else {
        assert (g + [r])[..i] == g;
      }
    }
  }

  lemma EntriesOne(x: ProvBrick, e: RowEntry)
    requires e.data == x
    ensures Entries([x], e.brick) == [e]
  {
  }

  /** The size of the pieces is the length of their concatenation. */
  lemma {:induction false} FlattenCount<T>(ss: seq<seq<T>>)
    ensures |Flatten(ss)| == Count(ss)
    decreases |ss|
  {
    if ss != [] {
      FlattenCount(ss[..|ss| - 1]);
    }
  }

  // ---------------------------------------------------------------------------
  // concatenation

  lemma FlattenSplit<T>(ss: seq<seq<T>>, i: nat)
    requires i < |ss|
    ensures Flatten(ss) == Flatten(ss[..i]) + ss[i] + Flatten(ss[i + 1..])
  {
    var a, b := ss[..i + 1], ss[i + 1..];
    assert ss == a + b;
    FlattenAppend(a, b);
    FlattenLast(a, i);
    assert a[..i] == ss[..i];
    Reassociate(Flatten(ss), Flatten(a), Flatten(ss[..i]), ss[i], Flatten(b));
  }

  lemma FlattenLast<T>(a: seq<seq<T>>, i: nat)
    requires i + 1 == |a|
    ensures Flatten(a) == Flatten(a[..i]) + a[i]
  {
  }

  lemma Reassociate<T>(whole: seq<T>, front: seq<T>, p: seq<T>, m: seq<T>, b: seq<T>)
    requires whole == front + b && front == p + m
    ensures whole == p + m + b
  {
  }

  /** Pieces of the same lengths flatten to the same length. */
  lemma {:induction false} FlattenShape<A, B>(a: seq<seq<A>>, b: seq<seq<B>>)
    requires |a| == |b|
    requires forall i :: 0 <= i < |a| ==> |a[i]| == |b[i]|
    ensures |Flatten(a)| == |Flatten(b)|
    decreases |a|
  {
    if a != [] {
      var n := |a| - 1;
      FlattenShape(a[..n], b[..n]);
    }
  }
}
