/** Detection geometry over exact reals: decoding boxes, resolving their format, cropping faces, resampling and
    padding. */
module Geometry {

  import opened Tracker
  import opened Wrappers

  datatype Format = Xyxy | Cxcywh

  type Row = seq<real>

  function Max(a: real, b: real): real {
    if a >= b then a else b
  }

  function Min(a: real, b: real): real {
    if a <= b then a else b
  }

  function Clip(v: real, lo: real, hi: real): real {
    Min(Max(v, lo), hi)
  }

  /** Opposite corners. */
  datatype Corners = Corners(x0: real, y0: real, x1: real, y1: real)

  // ---------------------------------------------------------------- decoding a box

  function CornersOf(r: Row, format: Format, normalized: bool, height: nat, width: nat): Corners
    requires |r| >= 4
  {
    var sx, sy := if normalized then width as real else 1.0, if normalized then height as real else 1.0;
    if format == Xyxy then
      Corners(r[0] * sx, r[1] * sy, r[2] * sx, r[3] * sy)
    else
      var cx, cy, w, h := r[0] * sx, r[1] * sy, r[2] * sx, r[3] * sy;
      Corners(cx - w / 2.0, cy - h / 2.0, cx + w / 2.0, cy + h / 2.0)
  }

  /** Clipped to the frame's last column and row; None where the code raises. */
  function Clipped(c: Corners, height: nat, width: nat): Option<Box> {
    var x0 := Clip(c.x0, 0.0, width as real - 1.0);
    var y0 := Clip(c.y0, 0.0, height as real - 1.0);
    var x1 := Clip(c.x1, 0.0, width as real - 1.0);
    var y1 := Clip(c.y1, 0.0, height as real - 1.0);
    if x1 <= x0 || y1 <= y0 then None else Some(Box(x0, y0, x1 - x0, y1 - y0))
  }

  function DecodeBbox(r: Row, height: nat, width: nat, format: Format, normalized: bool): Option<Box>
    requires |r| >= 4
  {
    Clipped(CornersOf(r, format, normalized, height, width), height, width)
  }

  /** Inside the frame, with positive size. */
  predicate Inside(b: Box, height: nat, width: nat) {
    b.x >= 0.0 && b.y >= 0.0 && b.w > 0.0 && b.h > 0.0 &&
    b.x + b.w <= width as real - 1.0 && b.y + b.h <= height as real - 1.0
  }

  /** The four numbers of a row as opposite corners in pixels: corners as they stand, a centre with half its width and
      height to either side; columns scale with the frame's width, rows with its height. */
  predicate Spans(r: Row, format: Format, normalized: bool, height: nat, width: nat, x0: real, y0: real, x1: real, y1: real)
    requires |r| >= 4
  {
    var sx, sy := if normalized then width as real else 1.0, if normalized then height as real else 1.0;
    match format
    case Xyxy => x0 == r[0] * sx && y0 == r[1] * sy && x1 == r[2] * sx && y1 == r[3] * sy
    case Cxcywh =>
      && x0 + x1 == 2.0 * (r[0] * sx) && x1 - x0 == r[2] * sx
      && y0 + y1 == 2.0 * (r[1] * sy) && y1 - y0 == r[3] * sy
  }

  /** A row decodes exactly if its box overlaps the frame in more than an edge; it then decodes to their intersection,
      corner by corner, given as position and size. */
  lemma DecodesToTheOverlap(r: Row, height: nat, width: nat, format: Format, normalized: bool,
                            x0: real, y0: real, x1: real, y1: real)
    requires |r| >= 4 && height >= 1 && width >= 1 && Spans(r, format, normalized, height, width, x0, y0, x1, y1)
    ensures var b, right, bottom := DecodeBbox(r, height, width, format, normalized), width as real - 1.0, height as real - 1.0;
            && (b.Some? <==> x0 < x1 && y0 < y1 && x1 > 0.0 && y1 > 0.0 && x0 < right && y0 < bottom && width > 1 && height > 1)
            && (b.Some? ==>
                  && b.value.x == (if x0 > 0.0 then x0 else 0.0) && b.value.y == (if y0 > 0.0 then y0 else 0.0)
                  && b.value.x + b.value.w == (if x1 < right then x1 else right)
                  && b.value.y + b.value.h == (if y1 < bottom then y1 else bottom)
                  && b.value.w > 0.0 && b.value.h > 0.0)
  {
    SpansAreCorners(r, format, normalized, height, width, x0, y0, x1, y1);
    DecodesIffOverlaps(r, height, width, format, normalized);
  }

  lemma SpansAreCorners(r: Row, format: Format, normalized: bool, height: nat, width: nat, x0: real, y0: real, x1: real, y1: real)
    requires |r| >= 4 && Spans(r, format, normalized, height, width, x0, y0, x1, y1)
    ensures CornersOf(r, format, normalized, height, width) == Corners(x0, y0, x1, y1)
  {
  }

  /** The box and the frame overlap in more than an edge. */
  predicate Overlaps(c: Corners, height: nat, width: nat) {
    && height > 1 && width > 1
    && c.x0 < c.x1 && 0.0 < c.x1 && c.x0 < width as real - 1.0
    && c.y0 < c.y1 && 0.0 < c.y1 && c.y0 < height as real - 1.0
  }

  /** A row decodes exactly if its box overlaps the frame, and what it decodes to is their intersection, inside the
      frame and of positive size. */
  lemma DecodesIffOverlaps(r: Row, height: nat, width: nat, format: Format, normalized: bool)
    requires |r| >= 4 && height >= 1 && width >= 1
    ensures var b, c := DecodeBbox(r, height, width, format, normalized), CornersOf(r, format, normalized, height, width);
            && (b.Some? <==> Overlaps(c, height, width))
            && (b.Some? ==>
                  && Inside(b.value, height, width)
                  && b.value.x == Max(c.x0, 0.0) && b.value.x + b.value.w == Min(c.x1, width as real - 1.0)
                  && b.value.y == Max(c.y0, 0.0) && b.value.y + b.value.h == Min(c.y1, height as real - 1.0))
  {
  }

  lemma ScalesAgree(r: Row, height: nat, width: nat, format: Format)
    requires |r| >= 4 && height >= 1 && width >= 1
    ensures CornersOf([r[0] / width as real, r[1] / height as real, r[2] / width as real, r[3] / height as real], format, true,
                      height, width) ==
            CornersOf(r, format, false, height, width)
  {
    Rescale(r[0], width as real);
    Rescale(r[1], height as real);
    Rescale(r[2], width as real);
    Rescale(r[3], height as real);
  }

  /** The same box decodes alike in either format and either scale. */
  lemma FormatsAgree(cx: real, cy: real, w: real, h: real, format: Format, r: Row, height: nat, width: nat)
    requires height >= 1 && width >= 1 && |r| >= 4
    ensures DecodeBbox([cx - w / 2.0, cy - h / 2.0, cx + w / 2.0, cy + h / 2.0], height, width, Xyxy, false) ==
            DecodeBbox([cx, cy, w, h], height, width, Cxcywh, false)
    ensures DecodeBbox([r[0] / width as real, r[1] / height as real, r[2] / width as real, r[3] / height as real], height, width,
                       format, true) ==
            DecodeBbox(r, height, width, format, false)
  {
    ScalesAgree(r, height, width, format);
  }

  lemma Rescale(v: real, side: real)
    requires side != 0.0
    ensures (v / side) * side == v
  {
  }

  // ---------------------------------------------------------------- resolving the format of a frame

  predicate LooksXyxy(r: Row)
    requires |r| >= 4
  {
    r[2] > r[0] && r[3] > r[1]
  }

  predicate Votes(r: Row) {
    |r| >= 4 && LooksXyxy(r)
  }

  predicate VotesAgainst(r: Row) {
    |r| >= 4 && !LooksXyxy(r)
  }

  function Tally(rows: seq<Row>, votes: Row -> bool): nat {
    if rows == [] then 0
    else Tally(rows[..|rows| - 1], votes) + (if votes(rows[|rows| - 1]) then 1 else 0)
  }

  predicate UnitRow(r: Row) {
    |r| >= 4 ==> forall k :: 0 <= k < 4 ==> -1.0 <= r[k] <= 1.0
  }

  function Abs(v: real): real {
    if v < 0.0 then -v else v
  }

  function Voters(rows: seq<Row>, votes: Row -> bool): set<nat> {
    set i: nat | i < |rows| && votes(rows[i])
  }

  lemma {:induction false} TallyCounts(rows: seq<Row>, votes: Row -> bool)
    ensures Tally(rows, votes) == |Voters(rows, votes)|
  {
    if rows != [] {
      var k := |rows| - 1;
      TallyCounts(rows[..k], votes);
      assert Voters(rows, votes) == Voters(rows[..k], votes) + if votes(rows[k]) then {k} else {};
    }
  }

  /** The rows whose last two numbers are above their first two, as those of corners are, and the others. */
  function LikeCorners(rows: seq<Row>): set<nat> {
    set i: nat | i < |rows| && |rows[i]| >= 4 && rows[i][2] > rows[i][0] && rows[i][3] > rows[i][1]
  }

  function UnlikeCorners(rows: seq<Row>): set<nat> {
    set i: nat | i < |rows| && |rows[i]| >= 4 && !(rows[i][2] > rows[i][0] && rows[i][3] > rows[i][1])
  }

  lemma TalliesDecide(rows: seq<Row>)
    ensures Tally(rows, Votes) == |LikeCorners(rows)| && Tally(rows, VotesAgainst) == |UnlikeCorners(rows)|
  {
    TallyCounts(rows, Votes);
    TallyCounts(rows, VotesAgainst);
    assert Voters(rows, Votes) == LikeCorners(rows) && Voters(rows, VotesAgainst) == UnlikeCorners(rows);
  }

  /** No coordinate exceeds 1 in size. */
  predicate AllWithinOne(rows: seq<Row>) {
    forall i, k :: 0 <= i < |rows| && |rows[i]| >= 4 && 0 <= k < 4 ==> -1.0 <= rows[i][k] <= 1.0
  }

  lemma UnitRowsAreWithinOne(rows: seq<Row>)
    ensures (forall i :: 0 <= i < |rows| ==> UnitRow(rows[i])) <==> AllWithinOne(rows)
  {
  }

  /** One vote per row of four columns or more; ties go to corners, and coordinates are taken for normalized exactly if
      none exceeds 1 in size. */
  method AutoresolveBboxFormat(rows: seq<Row>) returns (format: Format, normalized: bool)
    ensures format == Xyxy <==> Tally(rows, Votes) >= Tally(rows, VotesAgainst)
    ensures normalized <==> rows != [] && forall i :: 0 <= i < |rows| ==> UnitRow(rows[i])
    ensures (format == Xyxy <==> |LikeCorners(rows)| >= |UnlikeCorners(rows)|) && (normalized <==> rows != [] && AllWithinOne(rows))
  {
    TalliesDecide(rows);
    UnitRowsAreWithinOne(rows);
    if rows == [] {
      return Xyxy, false;
    }
    var xyxy, cxcywh, maxAbs := 0, 0, 0.0;
    for i := 0 to |rows|
      invariant xyxy == Tally(rows[..i], Votes) && cxcywh == Tally(rows[..i], VotesAgainst)
      invariant maxAbs <= 1.0 <==> forall k :: 0 <= k < i ==> UnitRow(rows[k])
    {
      var r := rows[i];
      assert rows[..i + 1][..i] == rows[..i];
      if |r| >= 4 {
        maxAbs := Max(maxAbs, Max(Max(Abs(r[0]), Abs(r[1])), Max(Abs(r[2]), Abs(r[3]))));
        if LooksXyxy(r) {
          xyxy := xyxy + 1;
        } else {
          cxcywh := cxcywh + 1;
        }
      }
    }
    assert rows[..|rows|] == rows;
    format := if cxcywh > xyxy then Cxcywh else Xyxy;
    normalized := maxAbs <= 1.0;
  }

  // ---------------------------------------------------------------- parsing a frame

  datatype Scored = Scored(score: real, classId: nat)

  /** How a row is scored is given; None is a row whose class scores cannot be normalized. */
  type Scorer = Row -> Option<Scored>

  datatype Frame = Frame(index: nat, id: string, height: nat, width: nat)

  function ParseRow(f: Frame, r: Row, score: Scorer, threshold: real, format: Format, normalized: bool): Option<Detection> {
    if |r| < 5 || score(r).None? || score(r).value.score < threshold then None
    else
      var b := DecodeBbox(r, f.height, f.width, format, normalized);
      if b.None? then None
      else Some(Detection(f.index, f.id, b.value, score(r).value.score, score(r).value.classId))
  }

  function ParseRows(f: Frame, rows: seq<Row>, score: Scorer, threshold: real, format: Format, normalized: bool): seq<Detection> {
    if rows == [] then []
    else
      var last := ParseRow(f, rows[|rows| - 1], score, threshold, format, normalized);
      ParseRows(f, rows[..|rows| - 1], score, threshold, format, normalized) + if last.Some? then [last.value] else []
  }

  /** Configured format and scale, or None for "auto". */
  type Configured = Option<(Format, bool)>

  /** The format and scale that a whole frame is decoded with. */
  ghost predicate ResolvedTo(rows: seq<Row>, configured: Configured, format: Format, normalized: bool) {
    if configured.Some? then (format, normalized) == configured.value
    else
      && (format == Xyxy <==> Tally(rows, Votes) >= Tally(rows, VotesAgainst))
      && (normalized <==> rows != [] && forall i :: 0 <= i < |rows| ==> UnitRow(rows[i]))
  }

  lemma ParseNextRow(f: Frame, rows: seq<Row>, score: Scorer, threshold: real, format: Format, normalized: bool, i: nat)
    requires i < |rows|
    ensures var last := ParseRow(f, rows[i], score, threshold, format, normalized);
            ParseRows(f, rows[..i + 1], score, threshold, format, normalized) ==
            ParseRows(f, rows[..i], score, threshold, format, normalized) + if last.Some? then [last.value] else []
  {
    assert rows[..i + 1][..i] == rows[..i];
  }

  /** The row has a score of at least the threshold and a box in the frame. */
  predicate Qualifies(f: Frame, r: Row, score: Scorer, threshold: real, format: Format, normalized: bool) {
    && |r| >= 5 && score(r).Some? && score(r).value.score >= threshold
    && DecodeBbox(r, f.height, f.width, format, normalized).Some?
  }

  /** Detection `i` stems from row `from[i]`: its frame, its box, its score and its class. */
  ghost predicate StemsFrom(f: Frame, rows: seq<Row>, score: Scorer, threshold: real, format: Format, normalized: bool,
                            ds: seq<Detection>, from: seq<nat>, i: nat)
    requires i < |ds| == |from|
  {
    from[i] < |rows| &&
    var r := rows[from[i]];
    && |r| >= 5 && score(r).Some? && score(r).value.score >= threshold
    && DecodeBbox(r, f.height, f.width, format, normalized) == Some(ds[i].bbox)
    && ds[i].frameIndex == f.index && ds[i].frameId == f.id
    && ds[i].score == score(r).value.score && ds[i].classId == score(r).value.classId
  }

  /** The rows that qualify are picked, each once and in order, and no others. */
  lemma {:induction false} RowsArePicked(f: Frame, rows: seq<Row>, score: Scorer, threshold: real, format: Format, normalized: bool)
    returns (from: seq<nat>)
    ensures var ds := ParseRows(f, rows, score, threshold, format, normalized);
            && |from| == |ds|
            && (forall i: nat :: i < |ds| ==> StemsFrom(f, rows, score, threshold, format, normalized, ds, from, i))
            && (forall i, j :: 0 <= i < j < |from| ==> from[i] < from[j])
            && (forall k: nat :: k < |rows| && Qualifies(f, rows[k], score, threshold, format, normalized) ==> k in from)
  {
    from := [];
    if rows != [] {
      var n := |rows| - 1;
      var init := rows[..n];
      from := RowsArePicked(f, init, score, threshold, format, normalized);
      var before, ds := ParseRows(f, init, score, threshold, format, normalized), ParseRows(f, rows, score, threshold, format, normalized);
      var was := from;
      if Qualifies(f, rows[n], score, threshold, format, normalized) {
        from := from + [n];
      }
      forall i: nat | i < |ds| ensures StemsFrom(f, rows, score, threshold, format, normalized, ds, from, i) {
        if i < |before| {
          assert StemsFrom(f, init, score, threshold, format, normalized, before, was, i);
        }
      }
      forall k: nat | k < |rows| && Qualifies(f, rows[k], score, threshold, format, normalized) ensures k in from {
        if k < n {
          assert init[k] == rows[k];
          assert k in was;
        }
      }
      forall i, j | 0 <= i < j < |from| ensures from[i] < from[j] {
        if j == |was| {
          assert StemsFrom(f, init, score, threshold, format, normalized, before, was, i);
        }
      }
    }
  }

  ghost predicate Passes(d: Detection, f: Frame, threshold: real) {
    Inside(d.bbox, f.height, f.width) && d.score >= threshold
  }

  /** Automatic resolution happens once a frame, never row by row. */
  method ParseDetections(f: Frame, rows: seq<Row>, score: Scorer, threshold: real, configured: Configured)
    returns (ds: seq<Detection>, format: Format, normalized: bool)
    requires f.height >= 1 && f.width >= 1
    ensures ResolvedTo(rows, configured, format, normalized)
    ensures ds == ParseRows(f, rows, score, threshold, format, normalized)
    ensures forall i :: 0 <= i < |ds| ==> Passes(ds[i], f, threshold)
  {
    if configured.Some? {
      format, normalized := configured.value.0, configured.value.1;
    } else {
      format, normalized := AutoresolveBboxFormat(rows);
    }
    ds := [];
    for i := 0 to |rows|
      invariant ds == ParseRows(f, rows[..i], score, threshold, format, normalized)
      invariant forall k :: 0 <= k < |ds| ==> Passes(ds[k], f, threshold)
    {
      var r := rows[i];
      ParseNextRow(f, rows, score, threshold, format, normalized, i);
      if |r| >= 5 {
        var s := score(r);
        if s.Some? && s.value.score >= threshold {
          var b := DecodeBbox(r, f.height, f.width, format, normalized);
          DecodesIffOverlaps(r, f.height, f.width, format, normalized);
          if b.Some? {
            ds := ds + [Detection(f.index, f.id, b.value, s.value.score, s.value.classId)];
          }
        }
      }
    }
    assert rows[..|rows|] == rows;
  }

  // ---------------------------------------------------------------- cropping

  function Ceil(v: real): int {
    -((-v).Floor)
  }

  function MaxInt(a: int, b: int): int {
    if a >= b then a else b
  }

  function MinInt(a: int, b: int): int {
    if a <= b then a else b
  }

  /** Half open in both directions. */
  datatype Window = Window(x0: int, y0: int, x1: int, y1: int)

  /** None where the code raises. */
  function CropWindow(b: Box, height: nat, width: nat): Option<Window> {
    var w := Window(MaxInt(b.x.Floor, 0), MaxInt(b.y.Floor, 0),
                    MinInt(Ceil(b.x + b.w), width), MinInt(Ceil(b.y + b.h), height));
    if w.x1 <= w.x0 || w.y1 <= w.y0 then None else Some(w)
  }

  /** A parsed box always crops: the window is within the frame, holds the whole box, and no side of it could be
      moved in by a pixel. */
  lemma ParsedBoxCrops(b: Box, height: nat, width: nat)
    requires Inside(b, height, width)
    ensures var w := CropWindow(b, height, width);
            && w.Some?
            && 0 <= w.value.x0 < w.value.x1 <= width && 0 <= w.value.y0 < w.value.y1 <= height
            && w.value.x0 as real <= b.x < (w.value.x0 + 1) as real
            && (w.value.x1 - 1) as real < b.x + b.w <= w.value.x1 as real
            && w.value.y0 as real <= b.y < (w.value.y0 + 1) as real
            && (w.value.y1 - 1) as real < b.y + b.h <= w.value.y1 as real
  {
  }

  // ---------------------------------------------------------------- resampling

  /** Ties go to the even neighbour. */
  function RoundHalfEven(v: real): int {
    var f := v.Floor;
    var d := v - f as real;
    if d < 0.5 then f else if d > 0.5 then f + 1 else if f % 2 == 0 then f else f + 1
  }

  lemma RoundIsNearest(v: real)
    ensures v - 0.5 <= RoundHalfEven(v) as real <= v + 0.5
    ensures RoundHalfEven(v) as real == v - 0.5 || RoundHalfEven(v) as real == v + 0.5 ==> RoundHalfEven(v) % 2 == 0
  {
  }

  lemma RoundIsMonotone(a: real, b: real)
    requires a <= b
    ensures RoundHalfEven(a) <= RoundHalfEven(b)
  {
    if a.Floor < b.Floor {
      assert RoundHalfEven(a) <= a.Floor + 1 <= b.Floor <= RoundHalfEven(b);
    }
  }

  /** Position `i` of `target` evenly spaced points from 0 to `source` - 1. */
  function Linspace(source: nat, target: nat, i: nat): real
    requires source >= 1 && i < target
  {
    if target == 1 then 0.0 else (i * (source - 1)) as real / (target - 1) as real
  }

  function ResizeIndex(source: nat, target: nat, i: nat): int
    requires source >= 1 && i < target
  {
    MinInt(MaxInt(RoundHalfEven(Linspace(source, target, i)), 0), source - 1)
  }

  lemma DivideAtMost(a: real, b: real, c: real)
    requires b > 0.0 && a <= c * b
    ensures a / b <= c
  {
  }

  lemma DivideMonotone(a: real, b: real, c: real)
    requires c > 0.0 && a <= b
    ensures a / c <= b / c
  {
  }

  lemma Multiples(i: int, j: int, n: nat)
    requires i <= j
    ensures i * n <= j * n
  {
  }

  lemma LinspaceInRange(source: nat, target: nat, i: nat)
    requires source >= 1 && i < target
    ensures 0.0 <= Linspace(source, target, i) <= (source - 1) as real
  {
    if target > 1 {
      var a, b, c := i * (source - 1), target - 1, source - 1;
      Multiples(0, i, c);
      Multiples(i, b, c);
      assert b * c == c * b;
      DivideAtMost(a as real, b as real, c as real);
      DivideMonotone(0.0, a as real, b as real);
    }
  }

  lemma LinspaceEnds(source: nat, target: nat)
    requires source >= 1 && target > 1
    ensures Linspace(source, target, target - 1) == (source - 1) as real
  {
    var b, c := (target - 1) as real, (source - 1) as real;
    assert ((target - 1) * (source - 1)) as real == b * c;
    assert b * c / b == c;
  }

  /** Every index is in range before any clipping, and the first and the last pixel are kept. */
  lemma IndicesInRange(source: nat, target: nat, i: nat)
    requires source >= 1 && i < target
    ensures ResizeIndex(source, target, i) == RoundHalfEven(Linspace(source, target, i))
    ensures 0 <= ResizeIndex(source, target, i) < source
    ensures i == 0 ==> ResizeIndex(source, target, i) == 0
    ensures i == target - 1 && target > 1 ==> ResizeIndex(source, target, i) == source - 1
  {
    LinspaceInRange(source, target, i);
    RoundIsMonotone(0.0, Linspace(source, target, i));
    RoundIsMonotone(Linspace(source, target, i), (source - 1) as real);
    if i == target - 1 && target > 1 {
      LinspaceEnds(source, target);
    }
  }

  /** The step from one point to the next. */
  lemma LinspaceStep(source: nat, target: nat, i: nat)
    requires source >= 1 && i + 1 < target
    ensures Linspace(source, target, i + 1) - Linspace(source, target, i) == (source - 1) as real / (target - 1) as real
  {
  }

  /** Indices never go back. */
  lemma {:induction false} IndicesNondecreasing(source: nat, target: nat, i: nat, j: nat)
    requires source >= 1 && i <= j < target
    ensures ResizeIndex(source, target, i) <= ResizeIndex(source, target, j)
  {
    IndicesInRange(source, target, i);
    IndicesInRange(source, target, j);
    if target > 1 {
      Multiples(i, j, source - 1);
      DivideMonotone((i * (source - 1)) as real, (j * (source - 1)) as real, (target - 1) as real);
    }
    RoundIsMonotone(Linspace(source, target, i), Linspace(source, target, j));
  }

  lemma LinspaceSame(n: nat, i: nat)
    requires n >= 1 && i < n
    ensures Linspace(n, n, i) == i as real
  {
    if n > 1 {
      var b := (n - 1) as real;
      assert (i * (n - 1)) as real == i as real * b;
      assert i as real * b / b == i as real;
    }
  }

  /** A crop of the target's own size is copied as it is. */
  lemma SameSizeIsIdentity(n: nat, i: nat)
    requires n >= 1 && i < n
    ensures ResizeIndex(n, n, i) == i
  {
    LinspaceSame(n, i);
    assert (i as real).Floor == i;
  }

  lemma DivideAtLeast(a: real, b: real)
    requires b > 0.0
    ensures a >= b <==> a / b >= 1.0
    ensures a > b <==> a / b > 1.0
  {
  }

  lemma RoundApart(a: real, b: real)
    ensures b - a > 1.0 ==> RoundHalfEven(a) < RoundHalfEven(b)
    ensures a <= b && b - a < 1.0 ==> RoundHalfEven(b) <= RoundHalfEven(a) + 1
  {
    RoundIsNearest(a);
    RoundIsNearest(b);
  }

  /** Shrinking never repeats a pixel. */
  lemma ShrinkingRepeatsNone(source: nat, target: nat, i: nat)
    requires i + 1 < target <= source
    ensures ResizeIndex(source, target, i) < ResizeIndex(source, target, i + 1)
  {
    if source == target {
      SameSizeIsIdentity(source, i);
      SameSizeIsIdentity(source, i + 1);
    } else {
      IndicesInRange(source, target, i);
      IndicesInRange(source, target, i + 1);
      LinspaceStep(source, target, i);
      DivideAtLeast((source - 1) as real, (target - 1) as real);
      RoundApart(Linspace(source, target, i), Linspace(source, target, i + 1));
    }
  }

  lemma GrowingStep(source: nat, target: nat, i: nat)
    requires 1 <= source <= target && i + 1 < target
    ensures ResizeIndex(source, target, i + 1) <= ResizeIndex(source, target, i) + 1
  {
    if source == target {
      SameSizeIsIdentity(source, i);
      SameSizeIsIdentity(source, i + 1);
    } else {
      IndicesInRange(source, target, i);
      IndicesInRange(source, target, i + 1);
      IndicesNondecreasing(source, target, i, i + 1);
      LinspaceStep(source, target, i);
      DivideAtLeast((source - 1) as real, (target - 1) as real);
      DivideMonotone(0.0, (source - 1) as real, (target - 1) as real);
      RoundApart(Linspace(source, target, i), Linspace(source, target, i + 1));
    }
  }

  /** Enlarging leaves no pixel out. */
  lemma {:induction false} EnlargingSkipsNone(source: nat, target: nat, pixel: nat, upTo: nat) returns (i: nat)
    requires 1 <= source <= target && upTo < target
    ensures pixel <= ResizeIndex(source, target, upTo) ==> i <= upTo && ResizeIndex(source, target, i) == pixel
    decreases upTo
  {
    i := upTo;
    if pixel < ResizeIndex(source, target, upTo) {
      IndicesInRange(source, target, 0);
      GrowingStep(source, target, upTo - 1);
      i := EnlargingSkipsNone(source, target, pixel, upTo - 1);
    }
  }

  lemma EveryPixelIsKept(source: nat, target: nat, pixel: nat) returns (i: nat)
    requires pixel < source <= target
    ensures i < target && ResizeIndex(source, target, i) == pixel
  {
    IndicesInRange(source, target, target - 1);
    i := EnlargingSkipsNone(source, target, pixel, target - 1);
  }

  // ---------------------------------------------------------------- the detector's input

  const STRIDE: nat := 32

  function Pad(n: nat): nat {
    (-(n as int)) % STRIDE
  }

  /** Padding reaches the least multiple of 32, by fewer than 32. */
  lemma PadReachesNextMultiple(n: nat, other: nat)
    ensures (n + Pad(n)) % 32 == 0 && Pad(n) < 32
    ensures other % 32 == 0 && other >= n ==> n + Pad(n) <= other
  {
  }

  /** Rows of pixels, each pixel its channels. */
  type Image = seq<seq<seq<real>>>

  predicate Shaped(image: Image, height: nat, width: nat, channels: nat) {
    && |image| == height
    && (forall y :: 0 <= y < height ==> |image[y]| == width)
    && (forall y, x :: 0 <= y < height && 0 <= x < width ==> |image[y][x]| == channels)
  }

  function PaddedRow(row: seq<seq<real>>, channel: nat): seq<real>
    requires forall x :: 0 <= x < |row| ==> channel < |row[x]|
  {
    seq(|row| + Pad(|row|), x requires 0 <= x < |row| + Pad(|row|) => if x < |row| then row[x][channel] else 0.0)
  }

  function Zeros(n: nat): seq<real> {
    seq(n, x requires 0 <= x < n => 0.0)
  }

  /** One colour plane, zero-padded to the right and below. */
  function PaddedPlane(image: Image, height: nat, width: nat, channels: nat, channel: nat): seq<seq<real>>
    requires Shaped(image, height, width, channels) && channel < channels
  {
    seq(height + Pad(height), y requires 0 <= y < height + Pad(height) =>
      if y < height then PaddedRow(image[y], channel) else Zeros(width + Pad(width)))
  }

  /** Three planes: grey is repeated, an alpha channel is dropped; None is an unsupported channel count. */
  function ModelInput(image: Image, height: nat, width: nat, channels: nat): Option<seq<seq<seq<real>>>>
    requires Shaped(image, height, width, channels)
  {
    if channels == 1 then
      var grey := PaddedPlane(image, height, width, channels, 0);
      Some([grey, grey, grey])
    else if channels == 3 || channels == 4 then
      Some([PaddedPlane(image, height, width, channels, 0), PaddedPlane(image, height, width, channels, 1),
            PaddedPlane(image, height, width, channels, 2)])
    else None
  }

  /** No pixel moves: both sides become the next multiple of 32, every coordinate of the frame reads the value it had,
      and the rest is zero, so a box decoded against the frame's own size means the same pixels in the padded one. */
  lemma PaddingMovesNothing(image: Image, height: nat, width: nat, channels: nat, c: nat, y: nat, x: nat)
    requires Shaped(image, height, width, channels)
    requires c < 3 && y < height + Pad(height) && x < width + Pad(width)
    ensures var p := ModelInput(image, height, width, channels);
            && (p.Some? <==> channels in {1, 3, 4})
            && (p.Some? ==>
                  && |p.value| == 3 && |p.value[c]| == height + Pad(height) && |p.value[c][y]| == width + Pad(width)
                  && p.value[c][y][x] == if y < height && x < width then image[y][x][if channels == 1 then 0 else c] else 0.0)
  {
    var p := ModelInput(image, height, width, channels);
    if p.Some? {
      var channel := if channels == 1 then 0 else c;
      assert p.value[c] == PaddedPlane(image, height, width, channels, channel);
      assert p.value[c][y] == if y < height then PaddedRow(image[y], channel) else Zeros(width + Pad(width));
    }
  }
}
