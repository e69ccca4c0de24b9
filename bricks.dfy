/** The brick wall of src/bricks.js: `createBrick`, the copy of the layout
    algorithm inside `createBricksFromResume` that creates physics bricks as it
    places words and replaces the bricks of every row it spreads, and the
    scoring in `handleBrickCollision`. */
module Bricks {
  import opened Prelude
  import opened Constants
  import opened SceneObjects
  import opened State
  import opened BrickLayout
  import JsStrings

  /** `createBrick(scene, x, y, text, brickWidth, color, isLastInRow)`: a live
      brick whose stored row is computed back from `y`; only a non-empty text
      gets a caption. */
  function CreateBrick(x: real, y: int, text: string, width: real, color: int, isLastInRow: bool): BrickObj
  {
    BrickObj(x, y, width, if text != "" then Some(text) else None, color, RowOf(y), isLastInRow, true)
  }

  /** The brick created while placing: unflagged, at the provisional position. */
  function Initial(p: ProvBrick): BrickObj
  {
    CreateBrick(p.x as real, p.y, p.text, p.width as real, p.color, false)
  }

  function Initials(ps: seq<ProvBrick>): (r: seq<BrickObj>)
    ensures |r| == |ps|
  {
    seq(|ps|, k requires 0 <= k < |ps| => Initial(ps[k]))
  }

  /** The brick created for a justified brick. */
  function Rebuilt(b: Brick): BrickObj
  {
    CreateBrick(b.x, b.y, b.text, b.width, b.color, b.isLastInRow)
  }

  /** An entry of `bricksByRow`: the brick created for the word (here its index
      in the group) and the word's provisional placement. */
  datatype RowEntry = RowEntry(brick: nat, data: ProvBrick)

  function EntryRow(e: RowEntry): int
  {
    e.data.rowIndex
  }

  function Datas(row: seq<RowEntry>): (r: seq<ProvBrick>)
    ensures |r| == |row|
  {
    seq(|row|, j requires 0 <= j < |row| => row[j].data)
  }

  /** The entries recorded for the placed bricks, whose bricks were added to a
      group that already held `base` members. */
  function Entries(placed: seq<ProvBrick>, base: nat): (r: seq<RowEntry>)
    ensures |r| == |placed|
  {
    seq(|placed|, k requires 0 <= k < |placed| => RowEntry(base + k, placed[k]))
  }

  /** `brick.destroy()` of the member at index `h`. */
  function Destroy(group: seq<BrickObj>, h: nat): (r: seq<BrickObj>)
    ensures |r| == |group|
  {
    if h < |group| then group[h := group[h].(active := false)] else group
  }

  /** The inner `forEach` of a spread row, from its `j`-th entry on: destroy the
      entry's brick, create its justified replacement (`out[j]`). */
  function ReplaceFrom(group: seq<BrickObj>, row: seq<RowEntry>, j: nat, out: seq<Brick>): seq<BrickObj>
    decreases |row| - j
  {
    if j >= |row| || j >= |out| then group
    else ReplaceFrom(Destroy(group, row[j].brick) + [Rebuilt(out[j])], row, j + 1, out)
  }

  /** One row of the justification pass: a row with free space has all its
      bricks replaced; a flush row is left as it is. */
  function ReplaceRow(group: seq<BrickObj>, row: seq<RowEntry>, rightEdge: int): seq<BrickObj>
  {
    if row != [] && Space(Datas(row), rightEdge) > 0 then ReplaceFrom(group, row, 0, JustifyRow(Datas(row), rightEdge))
    else group
  }

  /** The justification pass over the rows in the map's insertion order. */
  function JustifyGroup(group: seq<BrickObj>, rows: seq<seq<RowEntry>>, rightEdge: int): seq<BrickObj>
    decreases |rows|
  {
    if rows == [] then group
    else JustifyGroup(ReplaceRow(group, rows[0], rightEdge), rows[1..], rightEdge)
  }

  /** `gameState.totalRows = Math.max(gameState.totalRows, rowIndex + 1)` for
      every placed brick, starting from the value the state already holds. */
  function TotalRowsFrom(t0: int, bs: seq<ProvBrick>): int
  {
    if bs == [] then t0 else Max(TotalRowsFrom(t0, bs[..|bs| - 1]), bs[|bs| - 1].rowIndex + 1)
  }

  /** The group after `createBricksFromResume` added the bricks for `elements`
      to `group0`. */
  function ResumeBricks(group0: seq<BrickObj>, elements: seq<string>, vp: Viewport): seq<BrickObj>
  {
    var placed := Placed(elements, vp);
    JustifyGroup(group0 + Initials(placed), Group(Entries(placed, |group0|), EntryRow), RightEdge(vp))
  }

  /** The game state after `createBricksFromResume`. */
  function AfterResume(s: Session, elements: seq<string>, vp: Viewport): Session
    requires s.bricksGroup.Some?
  {
    s.(bricksGroup := Some(ResumeBricks(s.bricksGroup.value, elements, vp)),
       totalRows := TotalRowsFrom(s.totalRows, Placed(elements, vp)),
       bricksCreated := true)
  }

  /** `(gameState.totalRows - row) * 10`. */
  function Points(totalRows: int, row: int): int
  {
    (totalRows - row) * 10
  }

  /** `handleBrickCollision` for the member at index `h`: score it, then
      destroy it. */
  function AfterHit(s: Session, h: nat): Session
    requires s.bricksGroup.Some? && h < |s.bricksGroup.value|
  {
    var group := s.bricksGroup.value;
    var t := s.IncrementScore(Points(s.totalRows, group[h].row));
    t.(bricksGroup := Some(Destroy(group, h)))
  }

  // ---------------------------------------------------------------------------
  // the code

  /** `createBricksFromResume` after the fetch. It needs the group `create`
      made: adding a brick to a missing group throws. */
  method CreateBricksFromResume(gs: GameState, elements: seq<string>, vp: Viewport)
    requires gs.bricksGroup.Some?
    modifies gs`totalRows, gs`bricksGroup, gs`bricksCreated
    ensures gs.Snapshot() == AfterResume(old(gs.Snapshot()), elements, vp)
  {
    var group, totalRows := BuildResumeBricks(gs.bricksGroup.value, gs.totalRows, elements, vp);
    gs.totalRows := totalRows;
    gs.bricksGroup := Some(group);
    gs.bricksCreated := true;
  }

  /** The two passes of `createBricksFromResume`: placement, then
      justification of the recorded rows. */
  method BuildResumeBricks(group0: seq<BrickObj>, totalRows0: int, elements: seq<string>, vp: Viewport)
    returns (group: seq<BrickObj>, totalRows: int)
    ensures group == ResumeBricks(group0, elements, vp)
    ensures totalRows == TotalRowsFrom(totalRows0, Placed(elements, vp))
  {
    var rightEdge := vp.innerWidth - 10;
    ghost var placed;
    var bricksByRow, rowOrder;
    group, bricksByRow, rowOrder, totalRows, placed := PlaceResumeWords(group0, totalRows0, elements, vp);
    EntriesHandles(placed, |group0|);
    group := JustifyResumeRows(group, bricksByRow, rowOrder, Group(Entries(placed, |group0|), EntryRow), rightEdge);
  }

  /** The placement loop of `createBricksFromResume`: as the layout engine's,
      but it also creates a brick for every placed word and keeps the running
      maximum in `gameState.totalRows`. */
  method PlaceResumeWords(group0: seq<BrickObj>, totalRows0: int, elements: seq<string>, vp: Viewport)
    returns (group: seq<BrickObj>, bricksByRow: map<int, seq<RowEntry>>, rowOrder: seq<int>, totalRows: int,
             ghost placed: seq<ProvBrick>)
    ensures placed == Placed(elements, vp)
    ensures group == group0 + Initials(placed)
    ensures totalRows == TotalRowsFrom(totalRows0, placed)
    ensures Tracks(bricksByRow, rowOrder, Group(Entries(placed, |group0|), EntryRow), EntryRow)
  {
    var x, y := LEFT_X, MARGIN_TOP;
    group, totalRows := group0, totalRows0;
    bricksByRow := map[];
    rowOrder := [];
    ghost var done: seq<string> := [];
    placed := [];
    assert group0 + Initials([]) == group0;

    var i := 0;
    while i < |elements|
      invariant 0 <= i <= |elements|
      invariant done == AllWords(elements[..i])
      invariant Place(done, vp) == Placement(Cursor(x, y), placed)
      invariant group == group0 + Initials(placed)
      invariant totalRows == TotalRowsFrom(totalRows0, placed)
      invariant Tracks(bricksByRow, rowOrder, Group(Entries(placed, |group0|), EntryRow), EntryRow)
    {
      var words := Words(elements[i]);
      x, y, group, bricksByRow, rowOrder, totalRows, placed :=
        PlaceResumeElement(words, vp, done, group0, x, y, group, bricksByRow, rowOrder, totalRows0, totalRows, placed);
      AllWordsSnoc(elements, i);
      done := done + words;
      i := i + 1;
    }
    assert elements[..|elements|] == elements;
  }

  /** The inner `forEach` over the words of one element. */
  method PlaceResumeElement(words: seq<string>, vp: Viewport, ghost done: seq<string>, ghost group0: seq<BrickObj>,
                            x0: int, y0: int, groupIn: seq<BrickObj>, bricksByRow0: map<int, seq<RowEntry>>,
                            rowOrder0: seq<int>, ghost totalRowsStart: int, totalRows0: int, ghost placed0: seq<ProvBrick>)
    returns (x: int, y: int, group: seq<BrickObj>, bricksByRow: map<int, seq<RowEntry>>, rowOrder: seq<int>,
             totalRows: int, ghost placed: seq<ProvBrick>)
    requires Place(done, vp) == Placement(Cursor(x0, y0), placed0)
    requires groupIn == group0 + Initials(placed0)
    requires totalRows0 == TotalRowsFrom(totalRowsStart, placed0)
    requires Tracks(bricksByRow0, rowOrder0, Group(Entries(placed0, |group0|), EntryRow), EntryRow)
    ensures Place(done + words, vp) == Placement(Cursor(x, y), placed)
    ensures group == group0 + Initials(placed)
    ensures totalRows == TotalRowsFrom(totalRowsStart, placed)
    ensures Tracks(bricksByRow, rowOrder, Group(Entries(placed, |group0|), EntryRow), EntryRow)
  {
    x, y, group, bricksByRow, rowOrder, totalRows, placed := x0, y0, groupIn, bricksByRow0, rowOrder0, totalRows0, placed0;
    var j := 0;
    ghost var before := done;
    assert done + words[..0] == done;
    while j < |words|
      invariant 0 <= j <= |words| && before == done + words[..j]
      invariant Place(before, vp) == Placement(Cursor(x, y), placed)
      invariant group == group0 + Initials(placed)
      invariant totalRows == TotalRowsFrom(totalRowsStart, placed)
      invariant Tracks(bricksByRow, rowOrder, Group(Entries(placed, |group0|), EntryRow), EntryRow)
    {
      SnocPrefix(done, words, j);
      x, y, group, bricksByRow, rowOrder, totalRows, placed :=
        PlaceResumeWord(words[j], vp, before, group0, x, y, group, bricksByRow, rowOrder, totalRowsStart, totalRows, placed);
      before := before + [words[j]];
      j := j + 1;
    }
    assert words[..|words|] == words;
  }

  /** The body of the inner `forEach`: wrap, cut off, or create and record one
      brick. */
  method PlaceResumeWord(word: string, vp: Viewport, ghost before: seq<string>, ghost group0: seq<BrickObj>,
                         x0: int, y0: int, groupIn: seq<BrickObj>, bricksByRow0: map<int, seq<RowEntry>>,
                         rowOrder0: seq<int>, ghost totalRowsStart: int, totalRows0: int, ghost placed0: seq<ProvBrick>)
    returns (x: int, y: int, group: seq<BrickObj>, bricksByRow: map<int, seq<RowEntry>>, rowOrder: seq<int>,
             totalRows: int, ghost placed: seq<ProvBrick>)
    requires Place(before, vp) == Placement(Cursor(x0, y0), placed0)
    requires groupIn == group0 + Initials(placed0)
    requires totalRows0 == TotalRowsFrom(totalRowsStart, placed0)
    requires Tracks(bricksByRow0, rowOrder0, Group(Entries(placed0, |group0|), EntryRow), EntryRow)
    ensures Place(before + [word], vp) == Placement(Cursor(x, y), placed)
    ensures group == group0 + Initials(placed)
    ensures totalRows == TotalRowsFrom(totalRowsStart, placed)
    ensures Tracks(bricksByRow, rowOrder, Group(Entries(placed, |group0|), EntryRow), EntryRow)
  {
    x, y, group, bricksByRow, rowOrder, totalRows, placed := x0, y0, groupIn, bricksByRow0, rowOrder0, totalRows0, placed0;
    ghost var step := Step(Cursor(x0, y0), word, vp);
    PlaceSnoc(before, word, vp);
    CursorAhead(before, vp, Cursor(x0, y0), placed0);
    var rightEdge := vp.innerWidth - 10;
    var brickWidth := JsStrings.Utf16Length(word) * BASE_BRICK_WIDTH + 10;
    assert brickWidth == BrickWidth(word);
    if x + brickWidth > rightEdge {
      x := LEFT_X;
      y := y + BRICK_HEIGHT + BRICK_PADDING;
      RowOfNextLine(y0);
    }
    StepFrom(Cursor(x0, y0), word, vp, Cursor(x, y));
    if !(MAX_BRICK_HEIGHT_DEN * (y + BRICK_HEIGHT) > MAX_BRICK_HEIGHT_NUM * vp.innerHeight) {
      var rowIndex := (y - MARGIN_TOP) / (BRICK_HEIGHT + BRICK_PADDING);
      var rowColor := BRICK_COLORS[rowIndex % |BRICK_COLORS|];
      var b := ProvBrick(x, y, brickWidth, word, rowColor, rowIndex);
      assert rowIndex == RowOf(y) && rowColor == RowColor(rowIndex);
      assert step == (Cursor(x + brickWidth + BRICK_PADDING, y), Some(b));
      group, bricksByRow, rowOrder, totalRows := RecordResumeBrick(b, group0, group, bricksByRow, rowOrder, totalRowsStart, totalRows, placed);
      placed := placed + [b];
      x := x + brickWidth + BRICK_PADDING;
    } else {
      assert step == (Cursor(x, y), None);
    }
  }

  /** The placed word's part of the loop body: `gameState.totalRows = Math.max(...)`,
      `createBrick(...)` added to the group, and the entry pushed onto its row. */
  method RecordResumeBrick(b: ProvBrick, ghost group0: seq<BrickObj>, groupIn: seq<BrickObj>,
                           bricksByRow0: map<int, seq<RowEntry>>, rowOrder0: seq<int>,
                           ghost totalRowsStart: int, totalRows0: int, ghost placed: seq<ProvBrick>)
    returns (group: seq<BrickObj>, bricksByRow: map<int, seq<RowEntry>>, rowOrder: seq<int>, totalRows: int)
    requires groupIn == group0 + Initials(placed)
    requires totalRows0 == TotalRowsFrom(totalRowsStart, placed)
    requires Tracks(bricksByRow0, rowOrder0, Group(Entries(placed, |group0|), EntryRow), EntryRow)
    requires placed != [] ==> placed[|placed| - 1].rowIndex <= b.rowIndex
    ensures group == group0 + Initials(placed + [b])
    ensures totalRows == TotalRowsFrom(totalRowsStart, placed + [b])
    ensures Tracks(bricksByRow, rowOrder, Group(Entries(placed + [b], |group0|), EntryRow), EntryRow)
  {
    totalRows := Max(totalRows0, b.rowIndex + 1);
    var handle := |groupIn|;
    group := groupIn + [CreateBrick(b.x as real, b.y, b.text, b.width as real, b.color, false)];
    InitialsSnoc(placed, b);
    TotalRowsFromSnoc(totalRowsStart, placed, b);
    assert |groupIn| == |group0| + |placed|;
    bricksByRow, rowOrder := AddResumeEntry(bricksByRow0, rowOrder0, placed, b, |group0|, handle);
  }

  /** `bricksByRow[rowIndex].push({ brick, data })` for the brick at `handle`,
      the one created after the first `base` bricks and the earlier entries. */
  method AddResumeEntry(bricksByRow0: map<int, seq<RowEntry>>, rowOrder0: seq<int>, ghost placed: seq<ProvBrick>,
                        b: ProvBrick, ghost base: nat, handle: nat)
    returns (bricksByRow: map<int, seq<RowEntry>>, rowOrder: seq<int>)
    requires handle == base + |placed|
    requires Tracks(bricksByRow0, rowOrder0, Group(Entries(placed, base), EntryRow), EntryRow)
    requires placed != [] ==> placed[|placed| - 1].rowIndex <= b.rowIndex
    ensures Tracks(bricksByRow, rowOrder, Group(Entries(placed + [b], base), EntryRow), EntryRow)
  {
    EntriesSnoc(placed, b, base);
    ghost var entries := Entries(placed, base);
    assert entries != [] ==> entries[|entries| - 1].data == placed[|placed| - 1];
    bricksByRow, rowOrder := AddToRow(bricksByRow0, rowOrder0, entries, RowEntry(handle, b), EntryRow);
  }

  lemma TotalRowsFromSnoc(t0: int, placed: seq<ProvBrick>, b: ProvBrick)
    ensures TotalRowsFrom(t0, placed + [b]) == Max(TotalRowsFrom(t0, placed), b.rowIndex + 1)
  {
    assert (placed + [b])[..|placed|] == placed;
  }

  lemma EntriesSnoc(placed: seq<ProvBrick>, b: ProvBrick, base: nat)
    ensures Entries(placed + [b], base) == Entries(placed, base) + [RowEntry(base + |placed|, b)]
  {
  }

  lemma InitialsSnoc(placed: seq<ProvBrick>, b: ProvBrick)
    ensures Initials(placed + [b]) == Initials(placed) + [Initial(b)]
  {
  }

  /** The justification pass of `createBricksFromResume`, over the rows in the
      map's insertion order. */
  method JustifyResumeRows(groupIn: seq<BrickObj>, bricksByRow: map<int, seq<RowEntry>>, rowOrder: seq<int>,
                           ghost rows: seq<seq<RowEntry>>, rightEdge: int)
    returns (group: seq<BrickObj>)
    requires Tracks(bricksByRow, rowOrder, rows, EntryRow)
    requires HandlesBelow(rows, |groupIn|)
    ensures group == JustifyGroup(groupIn, rows, rightEdge)
  {
    group := groupIn;
    var r := 0;
    while r < |rowOrder|
      invariant 0 <= r <= |rowOrder| == |rows|
      invariant |group| >= |groupIn|
      invariant JustifyGroup(group, rows[r..], rightEdge) == JustifyGroup(groupIn, rows, rightEdge)
    {
      RunMapAt(rows, EntryRow, r);
      var bricksInRow := bricksByRow[rowOrder[r]];
      assert rows[r..][0] == rows[r] && rows[r..][1..] == rows[r + 1..];
      group := ReplaceResumeRow(group, bricksInRow, rightEdge);
      r := r + 1;
    }
  }

  /** The recorded entries point at the bricks added after the first `base`. */
  lemma EntriesHandles(placed: seq<ProvBrick>, base: nat)
    ensures HandlesBelow(Group(Entries(placed, base), EntryRow), base + |placed|)
  {
    var es := Entries(placed, base);
    GroupMembers(es, EntryRow);
    assert forall e :: e in es ==> e.brick < base + |placed|;
  }

  /** Every recorded brick lies inside a group of size `n`. */
  ghost predicate HandlesBelow(rows: seq<seq<RowEntry>>, n: nat)
  {
    forall i, k :: 0 <= i < |rows| && 0 <= k < |rows[i]| ==> rows[i][k].brick < n
  }

  /** One row of the justification pass: spread the free space, destroying and
      re-creating each brick; a flush row is skipped. */
  method ReplaceResumeRow(groupIn: seq<BrickObj>, bricksInRow: seq<RowEntry>, rightEdge: int) returns (group: seq<BrickObj>)
    requires forall k :: 0 <= k < |bricksInRow| ==> bricksInRow[k].brick < |groupIn|
    ensures group == ReplaceRow(groupIn, bricksInRow, rightEdge)
    ensures |group| >= |groupIn|
  {
    group := groupIn;
    if |bricksInRow| == 0 {
      return;
    }
    var lastBrickData := bricksInRow[|bricksInRow| - 1];
    var currentRightEdge := lastBrickData.data.x + lastBrickData.data.width;
    var spaceRemaining := rightEdge - currentRightEdge;
    assert Datas(bricksInRow)[|bricksInRow| - 1] == lastBrickData.data;
    assert |Datas(bricksInRow)| == |bricksInRow|;
    if spaceRemaining > 0 {
      ghost var out := JustifyRow(Datas(bricksInRow), rightEdge);
      SpreadReplacements(bricksInRow, rightEdge);
      group := SpreadResumeRow(groupIn, bricksInRow, spaceRemaining, out);
    }
  }

  /** The brick that replaces the `k`-th entry of a row spread by `extra`
      per brick: moved right by the shares before it, one share wider. */
  function Replacement(row: seq<RowEntry>, extra: real, k: nat): BrickObj
    requires k < |row|
  {
    var d := row[k].data;
    CreateBrick(d.x as real + Offset(k, extra), d.y, d.text, d.width as real + extra, d.color, k == |row| - 1)
  }

  /** The inner `forEach` of a row with free space: each entry's brick is
      destroyed and `out`'s re-created brick is added. */
  method SpreadResumeRow(groupIn: seq<BrickObj>, bricksInRow: seq<RowEntry>, spaceRemaining: int, ghost out: seq<Brick>)
    returns (group: seq<BrickObj>)
    requires forall k :: 0 <= k < |bricksInRow| ==> bricksInRow[k].brick < |groupIn|
    requires bricksInRow != [] && |out| == |bricksInRow|
    requires forall k :: 0 <= k < |bricksInRow| ==>
      Rebuilt(out[k]) == Replacement(bricksInRow, spaceRemaining as real / |bricksInRow| as real, k)
    ensures group == ReplaceFrom(groupIn, bricksInRow, 0, out)
    ensures |group| >= |groupIn|
  {
    group := groupIn;
    var extraPerBrick := spaceRemaining as real / |bricksInRow| as real;
    var accumulatedOffset := 0.0;
    var j := 0;
    while j < |bricksInRow|
      invariant 0 <= j <= |bricksInRow|
      invariant |group| >= |groupIn|
      invariant accumulatedOffset == Offset(j, extraPerBrick)
      invariant ReplaceFrom(group, bricksInRow, j, out) == ReplaceFrom(groupIn, bricksInRow, 0, out)
    {
      var data := bricksInRow[j];
      ghost var before := group;
      var newWidth := data.data.width as real + extraPerBrick;
      var newX := data.data.x as real + accumulatedOffset;
      group := group[data.brick := group[data.brick].(active := false)];
      var isLast := j == |bricksInRow| - 1;
      var made := CreateBrick(newX, data.data.y, data.data.text, newWidth, data.data.color, isLast);
      group := group + [made];
      assert made == Replacement(bricksInRow, extraPerBrick, j);
      ReplaceStep(before, bricksInRow, j, out, made);
      accumulatedOffset := accumulatedOffset + extraPerBrick;
      j := j + 1;
    }
  }

  /** Every brick of a justified spread row rebuilds to its replacement. */
  lemma SpreadReplacements(row: seq<RowEntry>, rightEdge: int)
    requires row != [] && Space(Datas(row), rightEdge) > 0
    ensures |JustifyRow(Datas(row), rightEdge)| == |row|
    ensures forall k :: 0 <= k < |row| ==>
      Rebuilt(JustifyRow(Datas(row), rightEdge)[k]) == Replacement(row, Space(Datas(row), rightEdge) as real / |row| as real, k)
  {
    var extra := Space(Datas(row), rightEdge) as real / |row| as real;
    assert |Datas(row)| == |row|;
    JustifyRowAt(Datas(row), rightEdge, 0);
    forall k | 0 <= k < |row|
      ensures Rebuilt(JustifyRow(Datas(row), rightEdge)[k]) == Replacement(row, extra, k)
    {
      SpreadAt(row, rightEdge, k, extra, Offset(k, extra));
    }
  }

  /** One entry of the inner `forEach`: destroying the entry's brick and
      adding its replacement leaves what remains of the row to do. */
  lemma ReplaceStep(group: seq<BrickObj>, row: seq<RowEntry>, j: nat, out: seq<Brick>, made: BrickObj)
    requires j < |row| && |row| == |out|
    requires row[j].brick < |group|
    requires made == Rebuilt(out[j])
    ensures ReplaceFrom(group, row, j, out)
         == ReplaceFrom(group[row[j].brick := group[row[j].brick].(active := false)] + [made], row, j + 1, out)
  {
    ReplaceFromUnfold(group, row, j, out);
    DestroyAt(group, row[j].brick);
  }

  lemma ReplaceFromUnfold(group: seq<BrickObj>, row: seq<RowEntry>, j: nat, out: seq<Brick>)
    requires j < |row| && |row| == |out|
    ensures ReplaceFrom(group, row, j, out) == ReplaceFrom(Destroy(group, row[j].brick) + [Rebuilt(out[j])], row, j + 1, out)
  {
  }

  lemma DestroyAt(group: seq<BrickObj>, h: nat)
    requires h < |group|
    ensures Destroy(group, h) == group[h := group[h].(active := false)]
  {
  }

  /** The replacement of the `j`-th entry of a spread row is `extra` wider and
      moved right by the running `offset`. */
  lemma SpreadAt(row: seq<RowEntry>, rightEdge: int, j: nat, extra: real, offset: real)
    requires j < |row|
    requires Space(Datas(row), rightEdge) > 0
    requires extra == Space(Datas(row), rightEdge) as real / |Datas(row)| as real
    requires offset == Offset(j, extra)
    ensures |JustifyRow(Datas(row), rightEdge)| == |row|
    ensures var d := row[j].data;
      Rebuilt(JustifyRow(Datas(row), rightEdge)[j])
        == CreateBrick(d.x as real + offset, d.y, d.text, d.width as real + extra, d.color, j == |row| - 1)
  {
    JustifyRowAt(Datas(row), rightEdge, j);
    OffsetIsProduct(j, extra);
    assert Datas(row)[j] == row[j].data;
  }

  /** `handleBrickCollision` for the member at index `h` of the group. */
  method HandleBrickCollision(gs: GameState, h: nat)
    requires gs.bricksGroup.Some? && h < |gs.bricksGroup.value|
    modifies gs, gs.store
    ensures gs.Snapshot() == AfterHit(old(gs.Snapshot()), h)
  {
    var brick := gs.bricksGroup.value[h];
    var row := brick.row;
    var points := (gs.totalRows - row) * 10;
    gs.IncrementScore(points);
    gs.bricksGroup := Some(gs.bricksGroup.value[h := brick.(active := false)]);
  }

  // ---------------------------------------------------------------------------
  // properties

  /** The entries `es` still to be processed point at distinct live members. */
  ghost predicate Live(group: seq<BrickObj>, es: seq<RowEntry>)
  {
    && (forall k :: 0 <= k < |es| ==> es[k].brick < |group| && group[es[k].brick].active)
    && (forall k, l :: 0 <= k < l < |es| ==> es[k].brick != es[l].brick)
  }

  lemma LiveSuffix(group: seq<BrickObj>, a: seq<RowEntry>, b: seq<RowEntry>)
    requires Live(group, a + b)
    ensures Live(group, b)
  {
    forall k | 0 <= k < |b|
      ensures b[k].brick < |group| && group[b[k].brick].active
    {
      assert b[k] == (a + b)[|a| + k];
    }
    forall k, l | 0 <= k < l < |b|
      ensures b[k].brick != b[l].brick
    {
      assert b[k] == (a + b)[|a| + k] && b[l] == (a + b)[|a| + l];
    }
  }

  /** Replacing the rest of a row destroys as many live bricks as it creates,
      and leaves the bricks of later rows alive. */
  lemma {:induction false} ReplaceFromCount(group: seq<BrickObj>, row: seq<RowEntry>, j: nat, out: seq<Brick>,
                                            later: seq<RowEntry>)
    requires j <= |row| == |out|
    requires Live(group, row[j..] + later)
    ensures CountActive(ReplaceFrom(group, row, j, out)) == CountActive(group)
    ensures Live(ReplaceFrom(group, row, j, out), later)
    decreases |row| - j
  {
    if j == |row| {
      assert row[j..] + later == later;
    } else {
      var h := row[j].brick;
      var es := row[j..] + later;
      assert es[0] == row[j] && row[j + 1..] + later == es[1..];
      var next := group[h := group[h].(active := false)] + [Rebuilt(out[j])];
      DestroyAt(group, h);
      CountActiveDestroy(group, h);
      CountActiveAppend(group[h := group[h].(active := false)], [Rebuilt(out[j])]);
      assert CountActive([Rebuilt(out[j])]) == 1 by {
        assert |[Rebuilt(out[j])][..0]| == 0;
      }
      assert Live(next, es[1..]) by {
        forall k | 0 <= k < |es[1..]|
          ensures es[1..][k].brick < |next| && next[es[1..][k].brick].active
        {
          assert es[1..][k] == es[k + 1];
        }
      }
      ReplaceFromCount(next, row, j + 1, out, later);
    }
  }

  /** The justification pass keeps the number of live bricks. */
  lemma {:induction false} JustifyGroupCount(group: seq<BrickObj>, rows: seq<seq<RowEntry>>, rightEdge: int)
    requires Live(group, Flatten(rows))
    ensures CountActive(JustifyGroup(group, rows, rightEdge)) == CountActive(group)
    decreases |rows|
  {
    if rows != [] {
      var row, rest := rows[0], rows[1..];
      assert rows == [row] + rest;
      FlattenAppend([row], rest);
      var single: seq<seq<RowEntry>> := [row];
      assert Flatten(single) == row by {
        assert single[..0] == [];
      }
      var next := ReplaceRow(group, row, rightEdge);
      if row != [] && Space(Datas(row), rightEdge) > 0 {
        JustifyRowAt(Datas(row), rightEdge, 0);
        assert row[0..] == row;
        ReplaceFromCount(group, row, 0, JustifyRow(Datas(row), rightEdge), Flatten(rest));
      } else {
        LiveSuffix(group, row, Flatten(rest));
      }
      JustifyGroupCount(next, rest, rightEdge);
    }
  }

  /** `createBricksFromResume` adds one live brick per placed word: the bricks
      it destroys while spreading rows are exactly those it replaces. */
  lemma ResumeCount(group0: seq<BrickObj>, elements: seq<string>, vp: Viewport)
    ensures CountActive(ResumeBricks(group0, elements, vp)) == CountActive(group0) + |Placed(elements, vp)|
  {
    var placed := Placed(elements, vp);
    var es := Entries(placed, |group0|);
    var group := group0 + Initials(placed);
    GroupFlatten(es, EntryRow);
    CountActiveAppend(group0, Initials(placed));
    CountActiveAll(Initials(placed));
    assert Live(group, es) by {
      forall k | 0 <= k < |es|
        ensures es[k].brick < |group| && group[es[k].brick].active
      {
        assert group[|group0| + k] == Initials(placed)[k];
      }
    }
    JustifyGroupCount(group, Group(es, EntryRow), RightEdge(vp));
  }

  /** Every member of the group, live or destroyed, has a row in `[0, t)`. */
  ghost predicate RowsWithin(group: seq<BrickObj>, t: int)
  {
    forall k :: 0 <= k < |group| ==> 0 <= group[k].row < t
  }

  /** Every recorded placement lies on a line whose row is in `[0, t)`. */
  ghost predicate LinesWithin(row: seq<RowEntry>, t: int)
  {
    forall k :: 0 <= k < |row| ==> 0 <= RowOf(row[k].data.y) < t
  }

  lemma {:induction false} ReplaceFromRows(group: seq<BrickObj>, row: seq<RowEntry>, j: nat, rightEdge: int, t: int)
    requires j <= |row| && RowsWithin(group, t) && LinesWithin(row, t)
    ensures RowsWithin(ReplaceFrom(group, row, j, JustifyRow(Datas(row), rightEdge)), t)
    decreases |row| - j
  {
    var out := JustifyRow(Datas(row), rightEdge);
    if j < |row| {
      JustifyRowAt(Datas(row), rightEdge, j);
      assert Datas(row)[j] == row[j].data;
      var h := row[j].brick;
      var next := Destroy(group, h) + [Rebuilt(out[j])];
      assert RowsWithin(next, t) by {
        forall k | 0 <= k < |next|
          ensures 0 <= next[k].row < t
        {
          if k < |group| {
            assert next[k].row == group[k].row;
          }
        }
      }
      ReplaceFromRows(next, row, j + 1, rightEdge, t);
    }
  }

  lemma {:induction false} JustifyGroupRows(group: seq<BrickObj>, rows: seq<seq<RowEntry>>, rightEdge: int, t: int)
    requires RowsWithin(group, t)
    requires forall i :: 0 <= i < |rows| ==> LinesWithin(rows[i], t)
    ensures RowsWithin(JustifyGroup(group, rows, rightEdge), t)
    decreases |rows|
  {
    if rows != [] {
      if rows[0] != [] && Space(Datas(rows[0]), rightEdge) > 0 {
        ReplaceFromRows(group, rows[0], 0, rightEdge, t);
      }
      JustifyGroupRows(ReplaceRow(group, rows[0], rightEdge), rows[1..], rightEdge, t);
    }
  }

  /** With a non-negative start, the running maximum of
      `createBricksFromResume` is the layout engine's row count or the start. */
  lemma {:induction false} TotalRowsFromOf(t0: int, bs: seq<ProvBrick>)
    requires t0 >= 0
    ensures TotalRowsFrom(t0, bs) == Max(t0, TotalRowsOf(bs))
  {
    if bs != [] {
      TotalRowsFromOf(t0, bs[..|bs| - 1]);
    }
  }

  /** The bricks created while placing are on the rows of their placements. */
  lemma InitialRows(group0: seq<BrickObj>, placed: seq<ProvBrick>, t: int)
    requires RowsWithin(group0, t)
    requires forall k :: 0 <= k < |placed| ==> 0 <= RowOf(placed[k].y) < t
    ensures RowsWithin(group0 + Initials(placed), t)
  {
    var group := group0 + Initials(placed);
    forall k | 0 <= k < |group|
      ensures 0 <= group[k].row < t
    {
      if k >= |group0| {
        assert group[k] == Initial(placed[k - |group0|]);
      }
    }
  }

  /** Every run of recorded entries lies on lines whose rows are in `[0, t)`. */
  lemma EntryLines(placed: seq<ProvBrick>, base: nat, t: int)
    requires forall k :: 0 <= k < |placed| ==> 0 <= RowOf(placed[k].y) < t
    ensures forall i :: 0 <= i < |Group(Entries(placed, base), EntryRow)| ==>
      LinesWithin(Group(Entries(placed, base), EntryRow)[i], t)
  {
    var es := Entries(placed, base);
    var rows := Group(es, EntryRow);
    GroupMembers(es, EntryRow);
    assert forall e :: e in es ==> 0 <= RowOf(e.data.y) < t;
    forall i | 0 <= i < |rows|
      ensures LinesWithin(rows[i], t)
    {
      forall k | 0 <= k < |rows[i]|
        ensures 0 <= RowOf(rows[i][k].data.y) < t
      {
        assert rows[i][k] in es;
      }
    }
  }

  /** The placed bricks are on rows below the running maximum. */
  lemma PlacedLines(t0: int, elements: seq<string>, vp: Viewport)
    requires t0 >= 0
    ensures forall k :: 0 <= k < |Placed(elements, vp)| ==>
      0 <= RowOf(Placed(elements, vp)[k].y) < TotalRowsFrom(t0, Placed(elements, vp))
  {
    var placed := Placed(elements, vp);
    TotalRowsFromOf(t0, placed);
    TotalRowsBound(placed);
    PlaceInvariant(AllWords(elements), vp);
    forall k | 0 <= k < |placed|
      ensures 0 <= RowOf(placed[k].y) < TotalRowsFrom(t0, placed)
    {
      assert WellPlaced(placed[k], vp);
      RowOfLine(placed[k].rowIndex);
    }
  }

  /** After `createBricksFromResume`, every brick of the group (the old ones
      included) is on a row below `gameState.totalRows`, so hitting any of them
      scores at least 10; the row count is the layout engine's, or the old one
      if that was larger. */
  lemma ResumeRows(s: Session, elements: seq<string>, vp: Viewport)
    requires s.bricksGroup.Some? && s.totalRows >= 0 && RowsWithin(s.bricksGroup.value, s.totalRows)
    ensures var r := AfterResume(s, elements, vp);
      && r.totalRows == Max(s.totalRows, Layout(elements, vp).totalRows)
      && r.bricksCreated
      && RowsWithin(r.bricksGroup.value, r.totalRows)
  {
    var group0 := s.bricksGroup.value;
    var placed := Placed(elements, vp);
    var t := TotalRowsFrom(s.totalRows, placed);
    TotalRowsFromOf(s.totalRows, placed);
    PlacedLines(s.totalRows, elements, vp);
    assert RowsWithin(group0, t);
    InitialRows(group0, placed, t);
    EntryLines(placed, |group0|, t);
    JustifyGroupRows(group0 + Initials(placed), Group(Entries(placed, |group0|), EntryRow), RightEdge(vp), t);
  }

  /** `handleBrickCollision` on a live brick: the score grows by
      `(totalRows - row) * 10`, at least 10 when the brick's row is below
      `totalRows`, the high score follows, and the group has one live brick less
      while keeping its size. */
  lemma HitEffect(s: Session, h: nat)
    requires s.bricksGroup.Some? && h < |s.bricksGroup.value| && s.bricksGroup.value[h].active
    ensures var r, b := AfterHit(s, h), s.bricksGroup.value[h];
      && r.score == s.score + (s.totalRows - b.row) * 10
      && (0 <= b.row < s.totalRows ==> r.score >= s.score + 10)
      && r.highScore == Max(s.highScore, r.score)
      && r.bricksGroup.Some? && |r.bricksGroup.value| == |s.bricksGroup.value|
      && !r.bricksGroup.value[h].active
      && CountActive(r.bricksGroup.value) == CountActive(s.bricksGroup.value) - 1
      && r.lives == s.lives && r.totalRows == s.totalRows && r.paused == s.paused
  {
    var group := s.bricksGroup.value;
    IncrementScoreEffect(s, Points(s.totalRows, group[h].row));
    CountActiveDestroy(group, h);
    DestroyAt(group, h);
  }

  /** Destroying two members in either order gives the same group. */
  lemma DestroyCommute(group: seq<BrickObj>, h1: nat, h2: nat)
    ensures Destroy(Destroy(group, h1), h2) == Destroy(Destroy(group, h2), h1)
    ensures |Destroy(group, h1)| == |group|
    ensures forall k :: 0 <= k < |group| ==> Destroy(group, h1)[k].row == group[k].row
  {
  }

  /** Scoring does not touch the group. */
  lemma IncrementKeepsGroup(s: Session, points: int, g: Option<seq<BrickObj>>)
    ensures s.(bricksGroup := g).IncrementScore(points) == s.IncrementScore(points).(bricksGroup := g)
    ensures s.IncrementScore(points).bricksGroup == s.bricksGroup
    ensures s.IncrementScore(points).totalRows == s.totalRows
  {
  }

  /** The order in which two bricks below `totalRows` are hit does not matter. */
  lemma HitsCommute(s: Session, h1: nat, h2: nat)
    requires s.bricksGroup.Some?
    requires h1 < |s.bricksGroup.value| && h2 < |s.bricksGroup.value|
    requires RowsWithin(s.bricksGroup.value, s.totalRows)
    ensures AfterHit(AfterHit(s, h1), h2) == AfterHit(AfterHit(s, h2), h1)
  {
    var group := s.bricksGroup.value;
    var a, b := Points(s.totalRows, group[h1].row), Points(s.totalRows, group[h2].row);
    DestroyCommute(group, h1, h2);
    DestroyCommute(group, h2, h1);
    IncrementKeepsGroup(s, a, Some(Destroy(group, h1)));
    IncrementKeepsGroup(s, b, Some(Destroy(group, h2)));
    IncrementKeepsGroup(s.IncrementScore(a), b, Some(Destroy(group, h1)));
    IncrementKeepsGroup(s.IncrementScore(b), a, Some(Destroy(group, h2)));
    IncrementsCommute(s, a, b);
  }

  /** The word the flush-row example places: 27 letters, 280 pixels wide. */
  lemma FlushPlacement(w: string, vp: Viewport)
    requires w == seq(27, _ => 'a') && vp == Viewport(300, 100)
    ensures Placed([w], vp) == [ProvBrick(10, 10, 280, w, BRICK_COLORS[0], 0)]
  {
    PlaceOne(w, vp);
    WordsOfJoin([w]);
    assert AllWords([w]) == [w] by {
      assert [w][..0] == [];
    }
  }

  lemma PlaceOne(w: string, vp: Viewport)
    requires w == seq(27, _ => 'a') && vp == Viewport(300, 100)
    ensures Place([w], vp) == Placement(Cursor(294, 10), [ProvBrick(10, 10, 280, w, BRICK_COLORS[0], 0)])
  {
    JsStrings.Utf16LengthBmp(w);
    assert BrickWidth(w) == 280;
    StepFrom(START, w, vp, START);
    assert [w][..0] == [];
  }

  /** A row that already reaches the right edge is left alone, so its last
      brick keeps the `false` flag it was created with: a 27-letter word in a
      300 by 100 window fills the first row exactly. */
  lemma FlushRowUnflagged()
    ensures var w, vp := seq(27, _ => 'a'), Viewport(300, 100);
      && |ResumeBricks([], [w], vp)| == 1
      && !ResumeBricks([], [w], vp)[0].isLastInRow
      && ResumeBricks([], [w], vp)[0].active
  {
    var w, vp := seq(27, _ => 'a'), Viewport(300, 100);
    FlushPlacement(w, vp);
    var placed := Placed([w], vp);
    var es := Entries(placed, 0);
    assert es == [RowEntry(0, placed[0])];
    var rows: seq<seq<RowEntry>> := [es];
    assert Group(es, EntryRow) == rows by {
      assert es[..0] == [];
    }
    assert Space(Datas(es), 290) == 0;
    var group := [] + Initials(placed);
    assert group == [Initial(placed[0])];
    assert ReplaceRow(group, es, 290) == group;
    assert rows[1..] == [];
    assert JustifyGroup(group, rows, 290) == group;
  }

  /** The layout engine flags the same brick as the last of its row. */
  lemma FlushRowFlaggedInLayout()
    ensures var w, vp := seq(27, _ => 'a'), Viewport(300, 100);
      && |Layout([w], vp).bricks| == 1
      && Layout([w], vp).bricks[0].isLastInRow
  {
    var w, vp := seq(27, _ => 'a'), Viewport(300, 100);
    FlushPlacement(w, vp);
    var placed := Placed([w], vp);
    var rows: seq<seq<ProvBrick>> := [placed];
    assert Group(placed, RowKey) == rows by {
      assert placed[..0] == [];
    }
    assert rows[..0] == [];
    assert JustifyAll(rows, 290) == JustifyAll([], 290) + JustifyRow(placed, 290);
    assert Layout([w], vp).bricks == JustifyRow(placed, 290);
    JustifyRowAt(placed, 290, 0);
  }
}
