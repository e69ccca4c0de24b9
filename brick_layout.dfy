/** The text-to-brick layout engine of src/brickLayout.js: a greedy line wrap of
    the words of the resume, a vertical cut-off, grouping by row and full
    justification of every row. */
module BrickLayout {
  import opened Prelude
  import opened JsStrings
  import opened JsNumbers
  import opened Constants

  /** `window.innerWidth` and `window.innerHeight`. */
  datatype Viewport = Viewport(innerWidth: int, innerHeight: int)

  /** A brick as the placement pass records it: integer position and width. */
  datatype ProvBrick = ProvBrick(x: int, y: int, width: int, text: string, color: int, rowIndex: int)

  /** A brick of the finished layout; justification makes x and width fractional. */
  datatype Brick = Brick(x: real, y: int, width: real, text: string, color: int, rowIndex: int, isLastInRow: bool)

  /** The running `x`, `y` of the placement loop. */
  datatype Cursor = Cursor(x: int, y: int)

  datatype Placement = Placement(cursor: Cursor, bricks: seq<ProvBrick>)

  datatype LayoutResult = LayoutResult(bricks: seq<Brick>, totalRows: int)

  const LEFT_X: int := 10
  const START: Cursor := Cursor(LEFT_X, MARGIN_TOP)

  function RightEdge(vp: Viewport): int
  {
    vp.innerWidth - 10
  }

  // ---------------------------------------------------------------------------
  // placement

  /** `text.split(/\s+/).filter(w => w.length > 0)`. */
  function Words(text: string): seq<string>
  {
    NonEmpty(SplitRuns(text, IsWhitespace))
  }

  /** The words of all elements, in order. */
  function AllWords(elements: seq<string>): seq<string>
  {
    if elements == [] then []
    else AllWords(elements[..|elements| - 1]) + Words(elements[|elements| - 1])
  }

  /** `word.length * BASE_BRICK_WIDTH + 10`, with `length` in UTF-16 code units. */
  function BrickWidth(word: string): int
  {
    Utf16Length(word) * BASE_BRICK_WIDTH + 10
  }

  /** A word of one character beyond the Basic Multilingual Plane is as wide
      as a two-letter word, since `length` counts its surrogate pair. */
  lemma AstralBrickWidth(word: string)
    requires word == "\U{1F600}"
    ensures BrickWidth(word) == 2 * BASE_BRICK_WIDTH + 10
  {
    Utf16LengthAstral(word[0], "");
    assert [word[0]] + "" == word;
  }

  /** `Math.floor((y - MARGIN_TOP) / (BRICK_HEIGHT + BRICK_PADDING))`; Dafny's
      division by a positive divisor rounds down as `Math.floor` does. */
  function RowOf(y: int): int
  {
    (y - MARGIN_TOP) / ROW_STEP
  }

  function RowColor(row: int): int
  {
    BRICK_COLORS[row % |BRICK_COLORS|]
  }

  /** `y + BRICK_HEIGHT > innerHeight * MAX_BRICK_HEIGHT_RATIO`, exactly. */
  predicate BelowCutoff(y: int, vp: Viewport)
  {
    MAX_BRICK_HEIGHT_DEN * (y + BRICK_HEIGHT) > MAX_BRICK_HEIGHT_NUM * vp.innerHeight
  }

  /** One word of the placement loop: wrap if it does not fit, then either drop
      it (below the cut-off) or place it and advance the cursor. */
  function Step(c: Cursor, word: string, vp: Viewport): (Cursor, Option<ProvBrick>)
  {
    var w := BrickWidth(word);
    var at := if c.x + w > RightEdge(vp) then Cursor(LEFT_X, c.y + ROW_STEP) else c;
    if BelowCutoff(at.y, vp) then (at, None)
    else
      var row := RowOf(at.y);
      (Cursor(at.x + w + BRICK_PADDING, at.y), Some(ProvBrick(at.x, at.y, w, word, RowColor(row), row)))
  }

  /** `Step` wraps to `at`, then drops the word or places it there. */
  lemma StepFrom(c: Cursor, word: string, vp: Viewport, at: Cursor)
    requires at == if c.x + BrickWidth(word) > RightEdge(vp) then Cursor(LEFT_X, c.y + ROW_STEP) else c
    ensures BelowCutoff(at.y, vp) ==> Step(c, word, vp) == (at, None)
    ensures !BelowCutoff(at.y, vp) ==>
      Step(c, word, vp) == (Cursor(at.x + BrickWidth(word) + BRICK_PADDING, at.y),
                            Some(ProvBrick(at.x, at.y, BrickWidth(word), word, RowColor(RowOf(at.y)), RowOf(at.y))))
  {
  }

  /** The placement loop over a sequence of words. */
  function Place(ws: seq<string>, vp: Viewport): Placement
  {
    if ws == [] then Placement(START, [])
    else
      var p := Place(ws[..|ws| - 1], vp);
      var (c, b) := Step(p.cursor, ws[|ws| - 1], vp);
      Placement(c, if b.Some? then p.bricks + [b.value] else p.bricks)
  }

  /** `totalRows = Math.max(totalRows, rowIndex + 1)` over the placed bricks. */
  function TotalRowsOf(bs: seq<ProvBrick>): int
  {
    if bs == [] then 0 else Max(TotalRowsOf(bs[..|bs| - 1]), bs[|bs| - 1].rowIndex + 1)
  }

  // ---------------------------------------------------------------------------
  // grouping by row

  function RowKey(b: ProvBrick): int
  {
    b.rowIndex
  }

  /** The maximal runs of consecutive elements with the same key. Because the
      placed rows never decrease, these runs are exactly the entries of the
      `bricksByRow` map in insertion order. */
  function Group<T>(xs: seq<T>, key: T -> int): (r: seq<seq<T>>)
    ensures (r == []) == (xs == [])
    ensures forall i :: 0 <= i < |r| ==> r[i] != []
  {
    if xs == [] then []
    else
      var g := Group(xs[..|xs| - 1], key);
      var x := xs[|xs| - 1];
      if g != [] && key(g[|g| - 1][0]) == key(x) then g[..|g| - 1] + [g[|g| - 1] + [x]]
      else g + [[x]]
  }

  /** Appending one element either extends the last run or opens a new one. */
  lemma GroupSnoc<T>(xs: seq<T>, x: T, key: T -> int)
    ensures var g := Group(xs, key);
      Group(xs + [x], key) ==
        if g != [] && key(g[|g| - 1][0]) == key(x) then g[..|g| - 1] + [g[|g| - 1] + [x]]
        else g + [[x]]
  {
    assert (xs + [x])[..|xs|] == xs;
  }

  /** The runs put back together are the input. */
  lemma {:induction false} GroupFlatten<T>(xs: seq<T>, key: T -> int)
    ensures Flatten(Group(xs, key)) == xs
  {
    if xs != [] {
      var pre, x := xs[..|xs| - 1], xs[|xs| - 1];
      assert pre + [x] == xs;
      GroupFlatten(pre, key);
      GroupSnoc(pre, x, key);
      var g := Group(pre, key);
      var r := Group(xs, key);
      if g != [] && key(g[|g| - 1][0]) == key(x) {
        assert r[..|r| - 1] == g[..|g| - 1];
        assert Flatten(g) == Flatten(g[..|g| - 1]) + g[|g| - 1];
      } else {
        assert r[..|r| - 1] == g;
      }
    }
  }

  /** Every element of a run has the key of the run. */
  lemma {:induction false} GroupUniform<T>(xs: seq<T>, key: T -> int)
    ensures var r := Group(xs, key);
      forall i, j :: 0 <= i < |r| && 0 <= j < |r[i]| ==> key(r[i][j]) == key(r[i][0])
  {
    if xs != [] {
      var pre, x := xs[..|xs| - 1], xs[|xs| - 1];
      assert pre + [x] == xs;
      GroupUniform(pre, key);
      GroupSnoc(pre, x, key);
      var g, r := Group(pre, key), Group(xs, key);
      if g != [] && key(g[|g| - 1][0]) == key(x) {
        forall i, j | 0 <= i < |r| && 0 <= j < |r[i]| ensures key(r[i][j]) == key(r[i][0]) {
          if i < |g| - 1 {
            assert r[i] == g[i];
          } else {
            assert r[i] == g[|g| - 1] + [x];
          }
        }
      } else {
        forall i, j | 0 <= i < |r| && 0 <= j < |r[i]| ensures key(r[i][j]) == key(r[i][0]) {
          if i < |g| {
            assert r[i] == g[i];
          }
        }
      }
    }
  }

  /** The runs are maximal: two neighbouring runs have different keys. */
  lemma {:induction false} GroupRunsMaximal<T>(xs: seq<T>, key: T -> int)
    ensures var r := Group(xs, key);
      forall i, j :: 0 <= i && j == i + 1 && j < |r| ==> key(r[i][0]) != key(r[j][0])
  {
    if xs != [] {
      var pre, x := xs[..|xs| - 1], xs[|xs| - 1];
      assert pre + [x] == xs;
      GroupRunsMaximal(pre, key);
      GroupSnoc(pre, x, key);
    }
  }

  /** Every member of a run is an element of the input. */
  lemma {:induction false} GroupMembers<T>(xs: seq<T>, key: T -> int)
    ensures var r := Group(xs, key);
      forall i, j :: 0 <= i < |r| && 0 <= j < |r[i]| ==> r[i][j] in xs
  {
    if xs != [] {
      var pre, x := xs[..|xs| - 1], xs[|xs| - 1];
      assert pre + [x] == xs;
      GroupMembers(pre, key);
      GroupSnoc(pre, x, key);
      var g, r := Group(pre, key), Group(xs, key);
      if g != [] && key(g[|g| - 1][0]) == key(x) {
        var last := g[|g| - 1];
        forall i, j | 0 <= i < |r| && 0 <= j < |r[i]| ensures r[i][j] in xs {
          if i < |g| - 1 {
            assert r[i] == g[i];
            assert g[i][j] in pre;
          } else if j < |last| {
            assert r[i] == last + [x];
            assert last[j] in pre;
          } else {
            assert r[i] == last + [x];
          }
        }
      } else {
        forall i, j | 0 <= i < |r| && 0 <= j < |r[i]| ensures r[i][j] in xs {
          if i < |g| {
            assert r[i] == g[i];
            assert g[i][j] in pre;
          } else {
            assert r[i] == [x];
          }
        }
      }
    }
  }

  /** The last element belongs to the last run. */
  lemma LastOfGroups<T>(xs: seq<T>, key: T -> int)
    requires xs != []
    ensures var g := Group(xs, key);
      key(xs[|xs| - 1]) == key(g[|g| - 1][0])
  {
    var pre, x := xs[..|xs| - 1], xs[|xs| - 1];
    assert pre + [x] == xs;
    GroupSnoc(pre, x, key);
  }

  ghost predicate Increasing(s: seq<int>)
  {
    forall i, j :: 0 <= i < j < |s| ==> s[i] < s[j]
  }

  predicate AllNonEmpty<T>(g: seq<seq<T>>)
  {
    forall i :: 0 <= i < |g| ==> g[i] != []
  }

  /** The key of each run, in order: the insertion order of `bricksByRow`. */
  function RunKeys<T>(g: seq<seq<T>>, key: T -> int): (r: seq<int>)
    requires AllNonEmpty(g)
    ensures |r| == |g|
  {
    if g == [] then [] else RunKeys(g[..|g| - 1], key) + [key(g[|g| - 1][0])]
  }

  /** The runs stored under their keys: the contents of `bricksByRow`. */
  function RunMap<T>(g: seq<seq<T>>, key: T -> int): map<int, seq<T>>
    requires AllNonEmpty(g)
  {
    if g == [] then map[] else RunMap(g[..|g| - 1], key)[key(g[|g| - 1][0]) := g[|g| - 1]]
  }

  /** `m` with insertion order `order` holds exactly the runs `groups`. */
  ghost predicate Tracks<T>(m: map<int, seq<T>>, order: seq<int>, groups: seq<seq<T>>, key: T -> int)
  {
    && AllNonEmpty(groups)
    && m == RunMap(groups, key)
    && order == RunKeys(groups, key)
    && Increasing(order)
  }

  lemma {:induction false} RunMapDomain<T>(g: seq<seq<T>>, key: T -> int, k: int)
    requires AllNonEmpty(g)
    ensures (k in RunMap(g, key)) == (k in RunKeys(g, key))
  {
    if g != [] {
      RunMapDomain(g[..|g| - 1], key, k);
    }
  }

  /** With distinct keys, each run is found under its own key. */
  lemma {:induction false} RunMapAt<T>(g: seq<seq<T>>, key: T -> int, i: nat)
    requires AllNonEmpty(g) && Increasing(RunKeys(g, key)) && i < |g|
    ensures RunKeys(g, key)[i] in RunMap(g, key)
    ensures RunMap(g, key)[RunKeys(g, key)[i]] == g[i]
  {
    var n := |g| - 1;
    var pre := g[..n];
    assert RunKeys(g, key) == RunKeys(pre, key) + [key(g[n][0])];
    assert forall j :: 0 <= j < n ==> RunKeys(pre, key)[j] == RunKeys(g, key)[j];
    if i < n {
      assert Increasing(RunKeys(pre, key));
      RunMapAt(pre, key, i);
      assert RunKeys(g, key)[i] < RunKeys(g, key)[n];
    }
  }

  /** One more element appended to `bricksByRow`: a new key is added exactly
      when the element opens a new run, and the map keeps holding the runs. */
  lemma TracksStep<T>(m: map<int, seq<T>>, order: seq<int>, xs: seq<T>, x: T, key: T -> int)
    requires Tracks(m, order, Group(xs, key), key)
    requires xs != [] ==> key(xs[|xs| - 1]) <= key(x)
    ensures (key(x) in m) == (xs != [] && key(xs[|xs| - 1]) == key(x))
    ensures var k := key(x);
      var m1 := if k in m then m else m[k := []];
      var o1 := if k in m then order else order + [k];
      Tracks(m1[k := m1[k] + [x]], o1, Group(xs + [x], key), key)
  {
    GroupSnoc(xs, x, key);
    if xs != [] {
      LastOfGroups(xs, key);
    }
    TracksAppend(m, order, Group(xs, key), x, key);
  }

  lemma TracksAppend<T>(m: map<int, seq<T>>, order: seq<int>, g: seq<seq<T>>, x: T, key: T -> int)
    requires Tracks(m, order, g, key)
    requires g != [] ==> key(g[|g| - 1][0]) <= key(x)
    ensures (key(x) in m) == (g != [] && key(g[|g| - 1][0]) == key(x))
    ensures var k := key(x);
      var m1 := if k in m then m else m[k := []];
      var o1 := if k in m then order else order + [k];
      var g1 := if g != [] && key(g[|g| - 1][0]) == k then g[..|g| - 1] + [g[|g| - 1] + [x]] else g + [[x]];
      Tracks(m1[k := m1[k] + [x]], o1, g1, key)
  {
    var k := key(x);
    RunMapDomain(g, key, k);
    if g != [] && key(g[|g| - 1][0]) == k {
      var n := |g| - 1;
      var g1 := g[..n] + [g[n] + [x]];
      assert g1[..n] == g[..n];
      assert k in order;
      assert RunKeys(g1, key) == RunKeys(g, key);
      assert RunMap(g1, key) == RunMap(g[..n], key)[k := g[n] + [x]];
    } else {
      if g != [] {
        assert order[|order| - 1] == key(g[|g| - 1][0]);
        assert forall i :: 0 <= i < |order| ==> order[i] < k;
      }
      assert k !in order;
      var g1 := g + [[x]];
      assert g1[..|g|] == g;
      assert Increasing(order + [k]);
      var m1 := m[k := []];
      assert m1[k] + [x] == [x];
      assert m1[k := m1[k] + [x]] == m[k := [x]];
    }
  }

  // ---------------------------------------------------------------------------
  // justification

  /** What the row leaves free up to the right edge. */
  function Space(row: seq<ProvBrick>, rightEdge: int): int
    requires row != []
  {
    rightEdge - (row[|row| - 1].x + row[|row| - 1].width)
  }

  /** One row of the justification pass. */
  function JustifyRow(row: seq<ProvBrick>, rightEdge: int): seq<Brick>
  {
    if row == [] then []
    else if Space(row, rightEdge) > 0 then
      var extra := Space(row, rightEdge) as real / |row| as real;
      seq(|row|, j requires 0 <= j < |row| =>
        Brick(row[j].x as real + j as real * extra, row[j].y, row[j].width as real + extra,
              row[j].text, row[j].color, row[j].rowIndex, j == |row| - 1))
    else
      seq(|row|, j requires 0 <= j < |row| =>
        Brick(row[j].x as real, row[j].y, row[j].width as real,
              row[j].text, row[j].color, row[j].rowIndex, j == |row| - 1))
  }

  function JustifyAll(rows: seq<seq<ProvBrick>>, rightEdge: int): seq<Brick>
  {
    if rows == [] then []
    else JustifyAll(rows[..|rows| - 1], rightEdge) + JustifyRow(rows[|rows| - 1], rightEdge)
  }

  /** The bricks the placement keeps for the given elements. */
  function Placed(elements: seq<string>, vp: Viewport): seq<ProvBrick>
  {
    Place(AllWords(elements), vp).bricks
  }

  /** What `calculateBrickLayout` returns for the given element texts. */
  function Layout(elements: seq<string>, vp: Viewport): LayoutResult
  {
    var p := Placed(elements, vp);
    LayoutResult(JustifyAll(Group(p, RowKey), RightEdge(vp)), TotalRowsOf(p))
  }

  /** `'#' + hex.toString(16).padStart(6, '0')`. */
  function HexToCss(hex: int): string
  {
    "#" + PadStart(ToStringRadix(hex, 16), 6, '0')
  }

  /** For a colour from 0 to 0xFFFFFF the padding only adds leading zeros. */
  lemma HexToCssPadded(hex: int)
    requires 0 <= hex <= 0xFFFFFF
    ensures |Digits(hex, 16)| <= 6
    ensures HexToCss(hex) == "#" + Repeat('0', 6 - |Digits(hex, 16)|) + Digits(hex, 16)
  {
    assert Pow16(6) == 16777216;
    HexDigitsFit(hex, 6);
  }

  /** A colour from 0 to 0xFFFFFF is written as `#` and exactly six lower-case
      hex digits: the digits of the number, padded with leading zeros. */
  lemma HexToCssShape(hex: int)
    requires 0 <= hex <= 0xFFFFFF
    ensures |HexToCss(hex)| == 7 && HexToCss(hex)[0] == '#'
    ensures forall i :: 1 <= i < 7 ==> IsLowerDigit(HexToCss(hex)[i], 16)
  {
    HexToCssPadded(hex);
    DigitsLowercase(hex, 16);
    var d := Digits(hex, 16);
    var z := Repeat('0', 6 - |d|);
    assert HexToCss(hex) == "#" + z + d;
    forall i | 1 <= i < 7
      ensures IsLowerDigit(HexToCss(hex)[i], 16)
    {
      if i < 1 + |z| {
        assert HexToCss(hex)[i] == z[i - 1];
      } else {
        assert HexToCss(hex)[i] == d[i - 1 - |z|];
      }
    }
  }

  // ---------------------------------------------------------------------------
  // what the placement keeps true

  /** Every placed brick: at or right of the left margin, on its row's line,
      as wide as its word demands, coloured by its row, above the cut-off, and
      inside the right edge unless it starts a row. */
  ghost predicate WellPlaced(b: ProvBrick, vp: Viewport)
  {
    && b.x >= LEFT_X
    && b.rowIndex >= 0
    && b.y == MARGIN_TOP + ROW_STEP * b.rowIndex
    && b.width == BrickWidth(b.text)
    && b.color == RowColor(b.rowIndex)
    && !BelowCutoff(b.y, vp)
    && (b.x + b.width <= RightEdge(vp) || b.x == LEFT_X)
  }

  /** `b` comes right after `a`: same row and one padding further right, or a
      later row starting at the left margin. */
  ghost predicate Follows(a: ProvBrick, b: ProvBrick)
  {
    && a.rowIndex <= b.rowIndex
    && (a.rowIndex == b.rowIndex ==> b.x == a.x + a.width + BRICK_PADDING)
    && (a.rowIndex != b.rowIndex ==> b.x == LEFT_X)
  }

  ghost predicate PlaceInv(p: Placement, vp: Viewport)
  {
    var c, bs := p.cursor, p.bricks;
    && c.x >= LEFT_X && c.y >= MARGIN_TOP && (c.y - MARGIN_TOP) % ROW_STEP == 0
    && (forall k :: 0 <= k < |bs| ==> WellPlaced(bs[k], vp))
    && (forall k, l :: 0 <= k && l == k + 1 && l < |bs| ==> Follows(bs[k], bs[l]))
    && (bs != [] ==> bs[0].x == LEFT_X)
    && (bs == [] ==> c.x == LEFT_X)
    && (bs != [] ==>
          var last := bs[|bs| - 1];
          && last.rowIndex <= RowOf(c.y)
          && (last.rowIndex == RowOf(c.y) ==> c.x == last.x + last.width + BRICK_PADDING)
          && (last.rowIndex < RowOf(c.y) ==> c.x == LEFT_X))
  }

  /** The placed bricks carry the first words, in order; once a word is
      dropped the cursor is below the cut-off and every later word is dropped. */
  ghost predicate KeepsPrefix(p: Placement, ws: seq<string>, vp: Viewport)
  {
    && |p.bricks| <= |ws|
    && (forall k :: 0 <= k < |p.bricks| ==> p.bricks[k].text == ws[k])
    && (|p.bricks| < |ws| ==> BelowCutoff(p.cursor.y, vp))
  }

  lemma StepKeepsInv(p: Placement, word: string, vp: Viewport)
    requires PlaceInv(p, vp)
    ensures var (c, b) := Step(p.cursor, word, vp);
      PlaceInv(Placement(c, if b.Some? then p.bricks + [b.value] else p.bricks), vp)
      && c.y >= p.cursor.y
  {
    var c := p.cursor;
    var at := if c.x + BrickWidth(word) > RightEdge(vp) then Cursor(LEFT_X, c.y + ROW_STEP) else c;
    WrapKeepsInv(p, BrickWidth(word), vp, at);
    StepFrom(c, word, vp, at);
    if !BelowCutoff(at.y, vp) {
      AppendKeepsInv(p.bricks, at, word, vp);
    }
  }

  /** Wrapping to the next line keeps the invariant and leaves room for the
      brick, unless it starts the line. */
  lemma WrapKeepsInv(p: Placement, w: int, vp: Viewport, at: Cursor)
    requires PlaceInv(p, vp)
    requires at == if p.cursor.x + w > RightEdge(vp) then Cursor(LEFT_X, p.cursor.y + ROW_STEP) else p.cursor
    ensures PlaceInv(Placement(at, p.bricks), vp) && at.y >= p.cursor.y
    ensures at.x + w <= RightEdge(vp) || at.x == LEFT_X
  {
    if p.cursor.x + w > RightEdge(vp) {
      WrapLine(p, vp);
    } else {
      assert Placement(at, p.bricks) == p;
    }
  }

  lemma WrapLine(p: Placement, vp: Viewport)
    requires PlaceInv(p, vp)
    ensures PlaceInv(Placement(Cursor(LEFT_X, p.cursor.y + ROW_STEP), p.bricks), vp)
  {
    var c, bs := p.cursor, p.bricks;
    var at := Cursor(LEFT_X, c.y + ROW_STEP);
    RowOfNextLine(c.y);
    assert (at.y - MARGIN_TOP) % ROW_STEP == 0 by {
      assert at.y - MARGIN_TOP == (c.y - MARGIN_TOP) + ROW_STEP;
    }
    assert bs != [] ==> bs[|bs| - 1].rowIndex < RowOf(at.y);
  }

  /** Placing the brick at `at` keeps the invariant. */
  lemma AppendKeepsInv(bs: seq<ProvBrick>, at: Cursor, word: string, vp: Viewport)
    requires PlaceInv(Placement(at, bs), vp) && !BelowCutoff(at.y, vp)
    requires at.x + BrickWidth(word) <= RightEdge(vp) || at.x == LEFT_X
    ensures var row := RowOf(at.y);
      PlaceInv(Placement(Cursor(at.x + BrickWidth(word) + BRICK_PADDING, at.y),
                         bs + [ProvBrick(at.x, at.y, BrickWidth(word), word, RowColor(row), row)]), vp)
  {
    var w, row := BrickWidth(word), RowOf(at.y);
    var b := ProvBrick(at.x, at.y, w, word, RowColor(row), row);
    PlacedBrickWell(at, word, vp);
    var bs2 := bs + [b];
    assert bs != [] ==> Follows(bs[|bs| - 1], b);
    assert forall k, l :: 0 <= k && l == k + 1 && l < |bs2| ==> Follows(bs2[k], bs2[l]);
    assert forall k :: 0 <= k < |bs2| ==> WellPlaced(bs2[k], vp);
  }

  lemma PlacedBrickWell(at: Cursor, word: string, vp: Viewport)
    requires at.x >= LEFT_X && at.y >= MARGIN_TOP && (at.y - MARGIN_TOP) % ROW_STEP == 0
    requires at.x + BrickWidth(word) <= RightEdge(vp) || at.x == LEFT_X
    requires !BelowCutoff(at.y, vp)
    ensures WellPlaced(ProvBrick(at.x, at.y, BrickWidth(word), word, RowColor(RowOf(at.y)), RowOf(at.y)), vp)
  {
  }

  lemma {:induction false} PlaceInvariant(ws: seq<string>, vp: Viewport)
    ensures PlaceInv(Place(ws, vp), vp)
    ensures KeepsPrefix(Place(ws, vp), ws, vp)
  {
    if ws != [] {
      var pre := ws[..|ws| - 1];
      PlaceInvariant(pre, vp);
      var p := Place(pre, vp);
      StepKeepsInv(p, ws[|ws| - 1], vp);
    }
  }

  // ---------------------------------------------------------------------------
  // the engine

  lemma PlaceSnoc(ws: seq<string>, w: string, vp: Viewport)
    ensures var p := Place(ws, vp);
      var (c, b) := Step(p.cursor, w, vp);
      Place(ws + [w], vp) == Placement(c, if b.Some? then p.bricks + [b.value] else p.bricks)
  {
    assert (ws + [w])[..|ws|] == ws;
  }

  /** The cursor is on a row line, at or after the last placed brick's row. */
  lemma CursorAhead(ws: seq<string>, vp: Viewport, c: Cursor, bs: seq<ProvBrick>)
    requires Place(ws, vp) == Placement(c, bs)
    ensures c.y >= MARGIN_TOP && (c.y - MARGIN_TOP) % ROW_STEP == 0
    ensures bs != [] ==> bs[|bs| - 1].rowIndex <= RowOf(c.y)
  {
    PlaceInvariant(ws, vp);
  }

  lemma JustifyRowAt(row: seq<ProvBrick>, rightEdge: int, j: nat)
    requires j < |row|
    ensures |JustifyRow(row, rightEdge)| == |row|
    ensures var b := row[j];
      JustifyRow(row, rightEdge)[j] ==
        if Space(row, rightEdge) > 0 then
          var extra := Space(row, rightEdge) as real / |row| as real;
          Brick(b.x as real + j as real * extra, b.y, b.width as real + extra, b.text, b.color, b.rowIndex, j == |row| - 1)
        else Brick(b.x as real, b.y, b.width as real, b.text, b.color, b.rowIndex, j == |row| - 1)
  {
  }

  /** `calculateBrickLayout` after the fetch: the placement loop over every
      word of every element, filling `bricksByRow`, then the justification
      pass over the rows in insertion order. */
  method CalculateBrickLayout(elements: seq<string>, vp: Viewport) returns (bricks: seq<Brick>, totalRows: int)
    ensures bricks == Layout(elements, vp).bricks
    ensures totalRows == Layout(elements, vp).totalRows
  {
    var rightEdge := vp.innerWidth - 10;
    var bricksByRow, rowOrder;
    ghost var placed;
    bricksByRow, rowOrder, totalRows, placed := PlaceWords(elements, vp);
    bricks := JustifyRows(bricksByRow, rowOrder, Group(placed, RowKey), rightEdge);
  }

  /** The placement loop: the bricks by row, the rows in insertion order, and
      the running `totalRows`. `placed` is every brick in placement order. */
  method PlaceWords(elements: seq<string>, vp: Viewport)
    returns (bricksByRow: map<int, seq<ProvBrick>>, rowOrder: seq<int>, totalRows: int, ghost placed: seq<ProvBrick>)
    ensures placed == Placed(elements, vp)
    ensures totalRows == TotalRowsOf(placed)
    ensures Tracks(bricksByRow, rowOrder, Group(placed, RowKey), RowKey)
  {
    var x, y := LEFT_X, MARGIN_TOP;
    totalRows := 0;
    bricksByRow := map[];
    rowOrder := [];
    ghost var done: seq<string> := [];
    placed := [];

    var i := 0;
    while i < |elements|
      invariant 0 <= i <= |elements|
      invariant done == AllWords(elements[..i])
      invariant Place(done, vp) == Placement(Cursor(x, y), placed)
      invariant totalRows == TotalRowsOf(placed)
      invariant Tracks(bricksByRow, rowOrder, Group(placed, RowKey), RowKey)
    {
      var words := Words(elements[i]);
      x, y, bricksByRow, rowOrder, totalRows, placed :=
        PlaceElementWords(words, vp, done, x, y, bricksByRow, rowOrder, totalRows, placed);
      AllWordsSnoc(elements, i);
      done := done + words;
      i := i + 1;
    }
    assert elements[..|elements|] == elements;
  }

  lemma AllWordsSnoc(elements: seq<string>, i: nat)
    requires i < |elements|
    ensures AllWords(elements[..i + 1]) == AllWords(elements[..i]) + Words(elements[i])
  {
    assert elements[..i + 1][..i] == elements[..i];
  }

  /** The inner `forEach` over the words of one element. */
  method PlaceElementWords(words: seq<string>, vp: Viewport, ghost done: seq<string>, x0: int, y0: int,
                           bricksByRow0: map<int, seq<ProvBrick>>, rowOrder0: seq<int>, totalRows0: int,
                           ghost placed0: seq<ProvBrick>)
    returns (x: int, y: int, bricksByRow: map<int, seq<ProvBrick>>, rowOrder: seq<int>, totalRows: int,
             ghost placed: seq<ProvBrick>)
    requires Place(done, vp) == Placement(Cursor(x0, y0), placed0)
    requires totalRows0 == TotalRowsOf(placed0)
    requires Tracks(bricksByRow0, rowOrder0, Group(placed0, RowKey), RowKey)
    ensures Place(done + words, vp) == Placement(Cursor(x, y), placed)
    ensures totalRows == TotalRowsOf(placed)
    ensures Tracks(bricksByRow, rowOrder, Group(placed, RowKey), RowKey)
  {
    x, y, bricksByRow, rowOrder, totalRows, placed := x0, y0, bricksByRow0, rowOrder0, totalRows0, placed0;
    var j := 0;
    ghost var before := done;
    assert done + words[..0] == done;
    while j < |words|
      invariant 0 <= j <= |words| && before == done + words[..j]
      invariant Place(before, vp) == Placement(Cursor(x, y), placed)
      invariant totalRows == TotalRowsOf(placed)
      invariant Tracks(bricksByRow, rowOrder, Group(placed, RowKey), RowKey)
    {
      SnocPrefix(done, words, j);
      x, y, bricksByRow, rowOrder, totalRows, placed :=
        PlaceWord(words[j], vp, before, x, y, bricksByRow, rowOrder, totalRows, placed);
      before := before + [words[j]];
      j := j + 1;
    }
    assert words[..|words|] == words;
  }

  /** The body of the inner `forEach`: wrap, cut off, or record one brick. */
  method PlaceWord(word: string, vp: Viewport, ghost before: seq<string>, x0: int, y0: int,
                   bricksByRow0: map<int, seq<ProvBrick>>, rowOrder0: seq<int>, totalRows0: int,
                   ghost placed0: seq<ProvBrick>)
    returns (x: int, y: int, bricksByRow: map<int, seq<ProvBrick>>, rowOrder: seq<int>, totalRows: int,
             ghost placed: seq<ProvBrick>)
    requires Place(before, vp) == Placement(Cursor(x0, y0), placed0)
    requires totalRows0 == TotalRowsOf(placed0)
    requires Tracks(bricksByRow0, rowOrder0, Group(placed0, RowKey), RowKey)
    ensures Place(before + [word], vp) == Placement(Cursor(x, y), placed)
    ensures totalRows == TotalRowsOf(placed)
    ensures Tracks(bricksByRow, rowOrder, Group(placed, RowKey), RowKey)
  {
    x, y, bricksByRow, rowOrder, totalRows, placed := x0, y0, bricksByRow0, rowOrder0, totalRows0, placed0;
    ghost var step := Step(Cursor(x0, y0), word, vp);
    PlaceSnoc(before, word, vp);
    CursorAhead(before, vp, Cursor(x0, y0), placed0);
    var rightEdge := vp.innerWidth - 10;
    var brickWidth := Utf16Length(word) * BASE_BRICK_WIDTH + 10;
    assert brickWidth == BrickWidth(word);
    if x + brickWidth > rightEdge {
      x := LEFT_X;
      y := y + BRICK_HEIGHT + BRICK_PADDING;
      RowOfNextLine(y0);
    }
    StepFrom(Cursor(x0, y0), word, vp, Cursor(x, y));
    if !(MAX_BRICK_HEIGHT_DEN * (y + BRICK_HEIGHT) > MAX_BRICK_HEIGHT_NUM * vp.innerHeight) {
      var rowIndex := (y - MARGIN_TOP) / (BRICK_HEIGHT + BRICK_PADDING);
      var rowColor := BRICK_COLORS[rowIndex % |BRICK_COLORS|];
      var b := ProvBrick(x, y, brickWidth, word, rowColor, rowIndex);
      assert rowIndex == RowOf(y) && rowColor == RowColor(rowIndex);
      assert step == (Cursor(x + brickWidth + BRICK_PADDING, y), Some(b));
      bricksByRow, rowOrder, totalRows := RecordBrick(b, bricksByRow, rowOrder, totalRows, placed);
      placed := placed + [b];
      x := x + brickWidth + BRICK_PADDING;
    } else {
      assert step == (Cursor(x, y), None);
    }
  }

  /** `totalRows = Math.max(totalRows, rowIndex + 1)` and the push onto the
      brick's row in the map. */
  method RecordBrick(b: ProvBrick, bricksByRow0: map<int, seq<ProvBrick>>, rowOrder0: seq<int>, totalRows0: int,
                     ghost placed: seq<ProvBrick>)
    returns (bricksByRow: map<int, seq<ProvBrick>>, rowOrder: seq<int>, totalRows: int)
    requires totalRows0 == TotalRowsOf(placed)
    requires Tracks(bricksByRow0, rowOrder0, Group(placed, RowKey), RowKey)
    requires placed != [] ==> placed[|placed| - 1].rowIndex <= b.rowIndex
    ensures totalRows == TotalRowsOf(placed + [b])
    ensures Tracks(bricksByRow, rowOrder, Group(placed + [b], RowKey), RowKey)
  {
    totalRows := Max(totalRows0, b.rowIndex + 1);
    TotalRowsSnoc(placed, b);
    bricksByRow, rowOrder := AddToRow(bricksByRow0, rowOrder0, placed, b, RowKey);
  }

  lemma TakeSnoc<T>(s: seq<T>, j: nat)
    requires j < |s|
    ensures s[..j + 1] == s[..j] + [s[j]]
  {
  }

  /** The row of a line is its index. */
  lemma RowOfLine(r: int)
    ensures RowOf(MARGIN_TOP + ROW_STEP * r) == r
  {
  }

  /** The next line down is the next row. */
  lemma RowOfNextLine(y: int)
    ensures RowOf(y + ROW_STEP) == RowOf(y) + 1
  {
  }

  lemma SnocPrefix<T>(done: seq<T>, words: seq<T>, j: nat)
    requires j < |words|
    ensures done + words[..j + 1] == (done + words[..j]) + [words[j]]
  {
    assert words[..j + 1] == words[..j] + [words[j]];
  }

  /** `if (!bricksByRow.has(rowIndex)) bricksByRow.set(rowIndex, []);
      bricksByRow.get(rowIndex).push(...)`, with the insertion order kept
      alongside: the map keeps holding the runs of the placed sequence. */
  method AddToRow<T>(bricksByRow0: map<int, seq<T>>, rowOrder0: seq<int>, ghost placed: seq<T>, b: T, key: T -> int)
    returns (bricksByRow: map<int, seq<T>>, rowOrder: seq<int>)
    requires Tracks(bricksByRow0, rowOrder0, Group(placed, key), key)
    requires placed != [] ==> key(placed[|placed| - 1]) <= key(b)
    ensures Tracks(bricksByRow, rowOrder, Group(placed + [b], key), key)
  {
    bricksByRow, rowOrder := bricksByRow0, rowOrder0;
    var rowIndex := key(b);
    TracksStep(bricksByRow, rowOrder, placed, b, key);
    if rowIndex !in bricksByRow {
      bricksByRow := bricksByRow[rowIndex := []];
      rowOrder := rowOrder + [rowIndex];
    }
    bricksByRow := bricksByRow[rowIndex := bricksByRow[rowIndex] + [b]];
  }

  lemma TotalRowsSnoc(placed: seq<ProvBrick>, b: ProvBrick)
    ensures TotalRowsOf(placed + [b]) == Max(TotalRowsOf(placed), b.rowIndex + 1)
  {
    assert (placed + [b])[..|placed|] == placed;
  }

  /** The justification pass, over the rows in the map's insertion order. */
  method JustifyRows(bricksByRow: map<int, seq<ProvBrick>>, rowOrder: seq<int>, ghost rows: seq<seq<ProvBrick>>, rightEdge: int)
    returns (bricks: seq<Brick>)
    requires Tracks(bricksByRow, rowOrder, rows, RowKey)
    ensures bricks == JustifyAll(rows, rightEdge)
  {
    bricks := [];
    var r := 0;
    while r < |rowOrder|
      invariant 0 <= r <= |rowOrder|
      invariant bricks == JustifyAll(rows[..r], rightEdge)
    {
      assert rows[..r + 1][..r] == rows[..r];
      RunMapAt(rows, RowKey, r);
      var bricksInRow := bricksByRow[rowOrder[r]];
      var justified := JustifyOneRow(bricksInRow, rightEdge);
      bricks := bricks + justified;
      r := r + 1;
    }
    assert rows[..|rows|] == rows;
  }

  /** `accumulatedOffset` after `j` bricks of a spread row: `j` shares added up. */
  function Offset(j: nat, extra: real): real
  {
    if j == 0 then 0.0 else Offset(j - 1, extra) + extra
  }

  /** The added-up shares are the `j * extraPerBrick` of the layout engine. */
  lemma {:induction false} OffsetIsProduct(j: nat, extra: real)
    ensures Offset(j, extra) == j as real * extra
  {
    if j > 0 {
      OffsetIsProduct(j - 1, extra);
    }
  }

  /** One pass of the spreading `forEach` extends the justified prefix. */
  lemma SpreadStep(row: seq<ProvBrick>, rightEdge: int, j: nat, extra: real, out: seq<Brick>)
    requires j < |row| && Space(row, rightEdge) > 0
    requires extra == Space(row, rightEdge) as real / |row| as real
    requires out == JustifyRow(row, rightEdge)[..j]
    ensures out + [Brick(row[j].x as real + Offset(j, extra), row[j].y, row[j].width as real + extra,
                         row[j].text, row[j].color, row[j].rowIndex, j == |row| - 1)]
            == JustifyRow(row, rightEdge)[..j + 1]
  {
    JustifyRowAt(row, rightEdge, j);
    var b := row[j];
    assert JustifyRow(row, rightEdge)[j] ==
      Brick(b.x as real + j as real * extra, b.y, b.width as real + extra, b.text, b.color, b.rowIndex, j == |row| - 1);
    OffsetIsProduct(j, extra);
    TakeSnoc(JustifyRow(row, rightEdge), j);
  }

  /** The bricks one row contributes: spread over the free space, or kept. */
  method JustifyOneRow(bricksInRow: seq<ProvBrick>, rightEdge: int) returns (out: seq<Brick>)
    ensures out == JustifyRow(bricksInRow, rightEdge)
  {
    if |bricksInRow| == 0 {
      return [];
    }
    var lastBrickData := bricksInRow[|bricksInRow| - 1];
    var currentRightEdge := lastBrickData.x + lastBrickData.width;
    var spaceRemaining := rightEdge - currentRightEdge;
    if spaceRemaining > 0 {
      out := SpreadRow(bricksInRow, rightEdge, spaceRemaining);
    } else {
      out := KeepRow(bricksInRow, rightEdge);
    }
  }

  /** The spreading `forEach`: every brick moves right by the shares before it
      and grows by one share. */
  method SpreadRow(bricksInRow: seq<ProvBrick>, rightEdge: int, spaceRemaining: int) returns (out: seq<Brick>)
    requires bricksInRow != [] && spaceRemaining == Space(bricksInRow, rightEdge) > 0
    ensures out == JustifyRow(bricksInRow, rightEdge)
  {
    out := [];
    var extraPerBrick := spaceRemaining as real / |bricksInRow| as real;
    var accumulatedOffset := 0.0;
    var j := 0;
    while j < |bricksInRow|
      invariant 0 <= j <= |bricksInRow|
      invariant accumulatedOffset == Offset(j, extraPerBrick)
      invariant out == JustifyRow(bricksInRow, rightEdge)[..j]
    {
      var data := bricksInRow[j];
      var newWidth := data.width as real + extraPerBrick;
      var newX := data.x as real + accumulatedOffset;
      var isLastInRow := j == |bricksInRow| - 1;
      SpreadStep(bricksInRow, rightEdge, j, extraPerBrick, out);
      out := out + [Brick(newX, data.y, newWidth, data.text, data.color, data.rowIndex, isLastInRow)];
      accumulatedOffset := accumulatedOffset + extraPerBrick;
      j := j + 1;
    }
    assert JustifyRow(bricksInRow, rightEdge)[..|bricksInRow|] == JustifyRow(bricksInRow, rightEdge);
  }

  /** The `forEach` of a row without free space: every brick stays. */
  method KeepRow(bricksInRow: seq<ProvBrick>, rightEdge: int) returns (out: seq<Brick>)
    requires bricksInRow != [] && Space(bricksInRow, rightEdge) <= 0
    ensures out == JustifyRow(bricksInRow, rightEdge)
  {
    out := [];
    var j := 0;
    while j < |bricksInRow|
      invariant 0 <= j <= |bricksInRow|
      invariant out == JustifyRow(bricksInRow, rightEdge)[..j]
    {
      var data := bricksInRow[j];
      JustifyRowAt(bricksInRow, rightEdge, j);
      var isLastInRow := j == |bricksInRow| - 1;
      TakeSnoc(JustifyRow(bricksInRow, rightEdge), j);
      out := out + [Brick(data.x as real, data.y, data.width as real, data.text, data.color, data.rowIndex, isLastInRow)];
      j := j + 1;
    }
    assert JustifyRow(bricksInRow, rightEdge)[..|bricksInRow|] == JustifyRow(bricksInRow, rightEdge);
  }

  // ---------------------------------------------------------------------------
  // properties of justification

  /** A finished brick that stands for the provisional brick `p`. */
  predicate Matches(b: Brick, p: ProvBrick)
  {
    b.y == p.y && b.text == p.text && b.color == p.color && b.rowIndex == p.rowIndex
  }

  /** Justification replaces a row brick for brick: same line, text, colour and
      row, and only the row's last brick is flagged. */
  lemma JustifyRowKeeps(row: seq<ProvBrick>, rightEdge: int)
    ensures var r := JustifyRow(row, rightEdge);
      && |r| == |row|
      && (forall j :: 0 <= j < |row| ==> Matches(r[j], row[j]))
      && (forall j :: 0 <= j < |row| ==> (r[j].isLastInRow <==> j == |row| - 1))
  {
  }

  /** A row with free space: brick `j` moves right by `j` shares and grows by
      one share, the gaps between neighbours stay as they were, and the last
      brick then ends exactly at the right edge. */
  lemma JustifyRowSpread(row: seq<ProvBrick>, rightEdge: int)
    requires row != [] && Space(row, rightEdge) > 0
    ensures var r := JustifyRow(row, rightEdge);
      var n := |row|;
      var extra := Space(row, rightEdge) as real / n as real;
      && |r| == n
      && extra > 0.0
      && (forall j :: 0 <= j < n ==>
            r[j].x == row[j].x as real + j as real * extra && r[j].width == row[j].width as real + extra)
      && (forall j, l :: 0 <= j && l == j + 1 && l < n ==>
            r[l].x - (r[j].x + r[j].width) == (row[l].x - (row[j].x + row[j].width)) as real)
      && r[n - 1].x + r[n - 1].width == rightEdge as real
  {
    SharePositive(Space(row, rightEdge), |row|);
    SpreadShifts(row, rightEdge);
    SpreadGaps(row, rightEdge);
    RightEdgeReached(row, rightEdge);
  }

  /** With free space, brick `j` moves right by `j` shares and grows by one. */
  lemma SpreadShifts(row: seq<ProvBrick>, rightEdge: int)
    requires row != [] && Space(row, rightEdge) > 0
    ensures var r := JustifyRow(row, rightEdge);
      var extra := Space(row, rightEdge) as real / |row| as real;
      && |r| == |row|
      && forall j :: 0 <= j < |row| ==>
           r[j].x == row[j].x as real + j as real * extra && r[j].width == row[j].width as real + extra
  {
  }

  /** With free space, every gap between neighbours stays as it was. */
  lemma SpreadGaps(row: seq<ProvBrick>, rightEdge: int)
    requires row != [] && Space(row, rightEdge) > 0
    ensures var r := JustifyRow(row, rightEdge);
      forall j, l :: 0 <= j && l == j + 1 && l < |row| ==>
        r[l].x - (r[j].x + r[j].width) == (row[l].x - (row[j].x + row[j].width)) as real
  {
    var r := JustifyRow(row, rightEdge);
    forall j, l | 0 <= j && l == j + 1 && l < |row|
      ensures r[l].x - (r[j].x + r[j].width) == (row[l].x - (row[j].x + row[j].width)) as real
    {
      GapKept(row, rightEdge, j);
    }
  }

  /** Spreading keeps the gap between brick `j` and the next one. */
  lemma GapKept(row: seq<ProvBrick>, rightEdge: int, j: nat)
    requires row != [] && Space(row, rightEdge) > 0 && j + 1 < |row|
    ensures var r := JustifyRow(row, rightEdge);
      r[j + 1].x - (r[j].x + r[j].width) == (row[j + 1].x - (row[j].x + row[j].width)) as real
  {
    var extra := Space(row, rightEdge) as real / |row| as real;
    var r := JustifyRow(row, rightEdge);
    var a, b := j as real * extra, (j + 1) as real * extra;
    assert r[j + 1].x == row[j + 1].x as real + b;
    assert r[j].x == row[j].x as real + a && r[j].width == row[j].width as real + extra;
    SharesStep(j, extra);
  }

  lemma SharePositive(space: int, n: int)
    requires space > 0 && n > 0
    ensures space as real / n as real > 0.0
  {
  }

  lemma SharesStep(j: nat, extra: real)
    ensures (j + 1) as real * extra == j as real * extra + extra
  {
  }

  lemma RightEdgeReached(row: seq<ProvBrick>, rightEdge: int)
    requires row != [] && Space(row, rightEdge) > 0
    ensures var r := JustifyRow(row, rightEdge);
      r[|row| - 1].x + r[|row| - 1].width == rightEdge as real
  {
    var n := |row|;
    var space := Space(row, rightEdge) as real;
    var extra := space / n as real;
    assert extra * n as real == space;
    SharesStep(n - 1, extra);
  }

  /** A row with no free space is left where the placement put it. */
  lemma JustifyRowFlush(row: seq<ProvBrick>, rightEdge: int)
    requires row != [] && Space(row, rightEdge) <= 0
    ensures var r := JustifyRow(row, rightEdge);
      && |r| == |row|
      && forall j :: 0 <= j < |row| ==> r[j].x == row[j].x as real && r[j].width == row[j].width as real
  {
  }

  /** Every run is non-empty, its bricks share one row, and neighbouring runs
      are on different rows. */
  ghost predicate RowsFormed(rows: seq<seq<ProvBrick>>)
  {
    && AllNonEmpty(rows)
    && (forall i, j :: 0 <= i < |rows| && 0 <= j < |rows[i]| ==> rows[i][j].rowIndex == rows[i][0].rowIndex)
    && (forall i, l :: 0 <= i && l == i + 1 && l < |rows| ==> rows[i][0].rowIndex != rows[l][0].rowIndex)
  }

  lemma GroupFormsRows(bs: seq<ProvBrick>)
    ensures RowsFormed(Group(bs, RowKey))
  {
    GroupUniform(bs, RowKey);
    GroupRunsMaximal(bs, RowKey);
  }

  /** The flag marks the last brick of every row: a brick is flagged exactly
      when the next one is on another row, and the very last one is flagged. */
  ghost predicate FlagsMarkRowEnds(bs: seq<Brick>)
  {
    && (bs != [] ==> bs[|bs| - 1].isLastInRow)
    && (forall k, l :: 0 <= k && l == k + 1 && l < |bs| ==>
          (bs[k].isLastInRow <==> bs[l].rowIndex != bs[k].rowIndex))
  }

  /** The justified rows, put together, stand brick for brick for the placed
      bricks. */
  lemma {:induction false} JustifyAllAligned(rows: seq<seq<ProvBrick>>, rightEdge: int)
    ensures var out, flat := JustifyAll(rows, rightEdge), Flatten(rows);
      |out| == |flat| && forall k :: 0 <= k < |out| ==> Matches(out[k], flat[k])
  {
    if rows != [] {
      var n := |rows| - 1;
      JustifyAllAligned(rows[..n], rightEdge);
      JustifyRowKeeps(rows[n], rightEdge);
    }
  }

  lemma {:induction false} JustifyAllFlags(rows: seq<seq<ProvBrick>>, rightEdge: int)
    requires RowsFormed(rows)
    ensures FlagsMarkRowEnds(JustifyAll(rows, rightEdge))
  {
    if rows != [] {
      var n := |rows| - 1;
      var pre := rows[..n];
      assert RowsFormed(pre);
      JustifyAllFlags(pre, rightEdge);
      var a, b := JustifyAll(pre, rightEdge), JustifyRow(rows[n], rightEdge);
      assert JustifyAll(rows, rightEdge) == a + b;
      RowFlags(rows[n], rightEdge);
      if a != [] {
        JustifyAllAligned(pre, rightEdge);
        LastRowOfFlatten(pre);
        assert a[|a| - 1].rowIndex == rows[n - 1][0].rowIndex;
      }
      FlagsConcat(a, b);
    }
  }

  /** One justified row on its own: only its last brick is flagged, and all
      its bricks keep the row's index. */
  lemma RowFlags(row: seq<ProvBrick>, rightEdge: int)
    requires row != []
    requires forall j :: 0 <= j < |row| ==> row[j].rowIndex == row[0].rowIndex
    ensures var b := JustifyRow(row, rightEdge);
      && b != [] && FlagsMarkRowEnds(b)
      && forall j :: 0 <= j < |b| ==> b[j].rowIndex == row[0].rowIndex
  {
    JustifyRowKeeps(row, rightEdge);
  }

  /** Flags stay right when a row on a new line follows. */
  lemma FlagsConcat(a: seq<Brick>, b: seq<Brick>)
    requires FlagsMarkRowEnds(a) && FlagsMarkRowEnds(b) && b != []
    requires forall j :: 0 <= j < |b| ==> b[j].rowIndex == b[0].rowIndex
    requires a != [] ==> a[|a| - 1].rowIndex != b[0].rowIndex
    ensures FlagsMarkRowEnds(a + b)
  {
    var out := a + b;
    forall k, l | 0 <= k && l == k + 1 && l < |out|
      ensures out[k].isLastInRow <==> out[l].rowIndex != out[k].rowIndex
    {
      if l < |a| {
        assert out[k] == a[k] && out[l] == a[l];
      } else if k == |a| - 1 {
        assert out[k] == a[k] && out[l] == b[0];
      } else {
        assert out[k] == b[k - |a|] && out[l] == b[l - |a|];
      }
    }
  }

  /** The last placed brick is the last brick of the last row. */
  lemma LastRowOfFlatten(rows: seq<seq<ProvBrick>>)
    requires rows != [] && RowsFormed(rows)
    ensures var flat := Flatten(rows);
      flat != [] && flat[|flat| - 1].rowIndex == rows[|rows| - 1][0].rowIndex
  {
    var n := |rows| - 1;
    assert Flatten(rows) == Flatten(rows[..n]) + rows[n];
  }

  // ---------------------------------------------------------------------------
  // properties of the words and of the whole layout

  /** The words are the non-empty, whitespace-free pieces of the text. */
  lemma WordsAreWords(text: string)
    ensures forall i :: 0 <= i < |Words(text)| ==> Words(text)[i] != [] && Free(Words(text)[i], IsWhitespace)
  {
    SplitRunsPiecesFree(text, IsWhitespace);
    NonEmptyKeeps(SplitRuns(text, IsWhitespace), (w: string) => Free(w, IsWhitespace));
  }

  /** Words joined by single spaces split back into the same words. */
  lemma WordsOfJoin(ws: seq<string>)
    requires forall i :: 0 <= i < |ws| ==> ws[i] != [] && Free(ws[i], IsWhitespace)
    ensures Words(Join(ws, " ")) == ws
  {
    if ws != [] {
      SplitRunsJoin(ws, ' ', IsWhitespace);
      NonEmptyOfNonEmpty(ws);
    }
  }

  /** Once the cursor is below the cut-off, every further word is dropped. */
  lemma StepBelowCutoff(c: Cursor, word: string, vp: Viewport)
    requires BelowCutoff(c.y, vp)
    ensures Step(c, word, vp).1 == None && BelowCutoff(Step(c, word, vp).0.y, vp)
  {
  }

  /** A dropped word ends the layout: later words add nothing. */
  lemma {:induction false} DroppedStaysDropped(ws: seq<string>, more: seq<string>, vp: Viewport)
    requires |Place(ws, vp).bricks| < |ws|
    ensures Place(ws + more, vp).bricks == Place(ws, vp).bricks
    ensures BelowCutoff(Place(ws + more, vp).cursor.y, vp)
    decreases |more|
  {
    if more == [] {
      assert ws + more == ws;
      PlaceInvariant(ws, vp);
    } else {
      var m := |more| - 1;
      DroppedStaysDropped(ws, more[..m], vp);
      assert ws + more == (ws + more[..m]) + [more[m]];
      PlaceSnoc(ws + more[..m], more[m], vp);
      StepBelowCutoff(Place(ws + more[..m], vp).cursor, more[m], vp);
    }
  }

  lemma {:induction false} TotalRowsBound(bs: seq<ProvBrick>)
    ensures forall k :: 0 <= k < |bs| ==> bs[k].rowIndex < TotalRowsOf(bs)
    ensures bs == [] ==> TotalRowsOf(bs) == 0
  {
    if bs != [] {
      TotalRowsBound(bs[..|bs| - 1]);
    }
  }

  /** With non-decreasing rows, the row count is one more than the last row. */
  lemma {:induction false} TotalRowsLast(bs: seq<ProvBrick>)
    requires bs != [] && bs[0].rowIndex >= 0
    requires forall k, l :: 0 <= k && l == k + 1 && l < |bs| ==> bs[k].rowIndex <= bs[l].rowIndex
    ensures TotalRowsOf(bs) == bs[|bs| - 1].rowIndex + 1
  {
    if |bs| > 1 {
      TotalRowsLast(bs[..|bs| - 1]);
    } else {
      assert bs[..0] == [];
    }
  }

  /** The placed bricks: the first words, each well placed, rows in order. */
  lemma PlacedFacts(elements: seq<string>, vp: Viewport)
    ensures var p, ws := Placed(elements, vp), AllWords(elements);
      && |p| <= |ws|
      && (forall k :: 0 <= k < |p| ==> p[k].text == ws[k] && WellPlaced(p[k], vp))
      && (forall k, l :: 0 <= k && l == k + 1 && l < |p| ==> Follows(p[k], p[l]))
  {
    PlaceInvariant(AllWords(elements), vp);
  }

  /** The layout's bricks are the placed bricks, one for one. */
  lemma LayoutAligned(elements: seq<string>, vp: Viewport)
    ensures var out, p := Layout(elements, vp).bricks, Placed(elements, vp);
      |out| == |p| && forall k :: 0 <= k < |out| ==> Matches(out[k], p[k])
  {
    var p := Placed(elements, vp);
    GroupFlatten(p, RowKey);
    JustifyAllAligned(Group(p, RowKey), RightEdge(vp));
  }

  /** The bricks of the layout: one per kept word, in word order, each on its
      row's line, above the cut-off and in its row's colour; rows never go
      back up; and exactly the last brick of each row is flagged. */
  lemma LayoutBricks(elements: seq<string>, vp: Viewport)
    ensures var out, ws := Layout(elements, vp).bricks, AllWords(elements);
      && |out| == |Placed(elements, vp)| <= |ws|
      && (forall k :: 0 <= k < |out| ==>
            && out[k].text == ws[k]
            && out[k].rowIndex >= 0
            && out[k].y == MARGIN_TOP + ROW_STEP * out[k].rowIndex
            && out[k].color == RowColor(out[k].rowIndex)
            && !BelowCutoff(out[k].y, vp))
      && (forall k, l :: 0 <= k && l == k + 1 && l < |out| ==> out[k].rowIndex <= out[l].rowIndex)
  {
    PlacedFacts(elements, vp);
    LayoutAligned(elements, vp);
    MatchedFacts(Layout(elements, vp).bricks, Placed(elements, vp), AllWords(elements), vp);
  }

  /** What matching well-placed bricks inherit. */
  lemma MatchedFacts(out: seq<Brick>, p: seq<ProvBrick>, ws: seq<string>, vp: Viewport)
    requires |out| == |p| <= |ws|
    requires forall k :: 0 <= k < |out| ==> Matches(out[k], p[k])
    requires forall k :: 0 <= k < |p| ==> p[k].text == ws[k] && WellPlaced(p[k], vp)
    requires forall k, l :: 0 <= k && l == k + 1 && l < |p| ==> Follows(p[k], p[l])
    ensures forall k :: 0 <= k < |out| ==>
            && out[k].text == ws[k]
            && out[k].rowIndex >= 0
            && out[k].y == MARGIN_TOP + ROW_STEP * out[k].rowIndex
            && out[k].color == RowColor(out[k].rowIndex)
            && !BelowCutoff(out[k].y, vp)
    ensures forall k, l :: 0 <= k && l == k + 1 && l < |out| ==> out[k].rowIndex <= out[l].rowIndex
  {
    forall k, l | 0 <= k && l == k + 1 && l < |out|
      ensures out[k].rowIndex <= out[l].rowIndex
    {
      assert Matches(out[k], p[k]) && Matches(out[l], p[l]) && Follows(p[k], p[l]);
    }
  }

  /** In the final layout, a brick is flagged as the last of its row exactly
      when the next brick starts a new row, and the very last brick is flagged. */
  lemma LayoutFlags(elements: seq<string>, vp: Viewport)
    ensures FlagsMarkRowEnds(Layout(elements, vp).bricks)
  {
    var p := Placed(elements, vp);
    PlaceInvariant(AllWords(elements), vp);
    GroupFormsRows(p);
    JustifyAllFlags(Group(p, RowKey), RightEdge(vp));
  }

  /** `totalRows` is 0 exactly for an empty layout, otherwise one more than the
      last brick's row, and every brick's row is below it. */
  lemma LayoutTotalRows(elements: seq<string>, vp: Viewport)
    ensures var L := Layout(elements, vp);
      && (L.totalRows == 0 <==> L.bricks == [])
      && (L.bricks != [] ==> L.totalRows == L.bricks[|L.bricks| - 1].rowIndex + 1)
      && (forall k :: 0 <= k < |L.bricks| ==> 0 <= L.bricks[k].rowIndex < L.totalRows)
  {
    var p := Placed(elements, vp);
    PlacedFacts(elements, vp);
    LayoutAligned(elements, vp);
    TotalRowsBound(p);
    var out := Layout(elements, vp).bricks;
    assert forall k :: 0 <= k < |out| ==> out[k].rowIndex == p[k].rowIndex;
    PlacedTotalRows(elements, vp, p);
  }

  lemma PlacedTotalRows(elements: seq<string>, vp: Viewport, p: seq<ProvBrick>)
    requires p == Placed(elements, vp)
    ensures p != [] ==> TotalRowsOf(p) == p[|p| - 1].rowIndex + 1
  {
    if p != [] {
      PlacedFacts(elements, vp);
      assert p[0].rowIndex >= 0;
      assert forall k, l :: 0 <= k && l == k + 1 && l < |p| ==> p[k].rowIndex <= p[l].rowIndex;
      TotalRowsLast(p);
    }
  }
}
