/** The within-batch centroid tracker. */
module Tracker {

  datatype Box = Box(x: real, y: real, w: real, h: real)

  datatype Detection = Detection(frameIndex: nat, frameId: string, bbox: Box, score: real, classId: nat)

  datatype Tracked = Tracked(detection: Detection, trackId: int)

  datatype Point = Point(x: real, y: real)

  function Centroid(b: Box): Point {
    Point(b.x + b.w / 2.0, b.y + b.h / 2.0)
  }

  /** How far apart two centroids are, and whether that is close enough to link. */
  datatype Metric = Metric(gap: (Point, Point) -> real, near: (Point, Point) -> bool)

  /** The metric of the pipeline. Over exact reals the squared distance orders candidates as the distance
      does, and a negative reach links nothing. */
  function Euclid(reach: real): Metric {
    var square := (p: Point, q: Point) => (p.x - q.x) * (p.x - q.x) + (p.y - q.y) * (p.y - q.y);
    Metric(square, (p, q) => reach >= 0.0 && square(p, q) <= reach * reach)
  }

  // ---------------------------------------------------------------- order of processing

  function Insert(d: Detection, sorted: seq<Detection>): (r: seq<Detection>)
    ensures |r| == |sorted| + 1
  {
    if sorted == [] then [d]
    else if d.score >= sorted[0].score then [d] + sorted
    else [sorted[0]] + Insert(d, sorted[1..])
  }

  /** Highest score first; equal scores keep their order. */
  function ByScore(ds: seq<Detection>): (r: seq<Detection>)
    ensures |r| == |ds|
  {
    if ds == [] then [] else Insert(ds[0], ByScore(ds[1..]))
  }

  ghost predicate Descending(ds: seq<Detection>) {
    forall i, j :: 0 <= i < j < |ds| ==> ds[i].score >= ds[j].score
  }

  function WithScore(ds: seq<Detection>, score: real): seq<Detection> {
    if ds == [] then [] else (if ds[0].score == score then [ds[0]] else []) + WithScore(ds[1..], score)
  }

  lemma {:induction false} InsertSorts(d: Detection, sorted: seq<Detection>)
    requires Descending(sorted)
    ensures var r := Insert(d, sorted);
            && Descending(r)
            && r[0].score == (if sorted == [] || d.score >= sorted[0].score then d.score else sorted[0].score)
  {
    if sorted != [] && d.score < sorted[0].score {
      InsertSorts(d, sorted[1..]);
      var rest := Insert(d, sorted[1..]);
      var r := [sorted[0]] + rest;
      assert forall k :: 0 <= k < |rest| ==> r[k + 1] == rest[k] && rest[k].score <= rest[0].score;
    }
  }

  lemma {:induction false} InsertIsStable(d: Detection, sorted: seq<Detection>, score: real)
    ensures WithScore(Insert(d, sorted), score) == (if d.score == score then [d] else []) + WithScore(sorted, score)
  {
    if sorted == [] || d.score >= sorted[0].score {
      assert ([d] + sorted)[1..] == sorted;
    } else {
      InsertIsStable(d, sorted[1..], score);
      var rest := Insert(d, sorted[1..]);
      assert ([sorted[0]] + rest)[1..] == rest;
      if sorted[0].score == score {
        assert [] + WithScore(sorted[1..], score) == WithScore(sorted[1..], score);
        assert [] + WithScore(sorted, score) == WithScore(sorted, score);
      }
    }
  }

  lemma {:induction false} InsertKeepsAll(d: Detection, sorted: seq<Detection>)
    ensures multiset(Insert(d, sorted)) == multiset{d} + multiset(sorted)
  {
    if sorted != [] && d.score < sorted[0].score {
      InsertKeepsAll(d, sorted[1..]);
      assert sorted == [sorted[0]] + sorted[1..];
    }
  }

  /** The processing order is a permutation, by descending score, and stable. */
  lemma {:induction false} ByScoreSortsStably(ds: seq<Detection>, score: real)
    ensures multiset(ByScore(ds)) == multiset(ds)
    ensures Descending(ByScore(ds)) && WithScore(ByScore(ds), score) == WithScore(ds, score)
  {
    if ds != [] {
      ByScoreSortsStably(ds[1..], score);
      InsertSorts(ds[0], ByScore(ds[1..]));
      InsertIsStable(ds[0], ByScore(ds[1..]), score);
      InsertKeepsAll(ds[0], ByScore(ds[1..]));
      assert ds == [ds[0]] + ds[1..];
    }
  }

  // ---------------------------------------------------------------- one frame

  /** A track of the previous frame that detection `d` may be linked to. */
  predicate Candidate(prev: map<nat, Point>, taken: seq<nat>, d: Detection, m: Metric, track: nat) {
    track in prev && track !in taken && m.near(Centroid(d.bbox), prev[track])
  }

  /** Detection `d` gets the nearest free track within reach, or a new id when there is none. */
  ghost predicate Chosen(prev: map<nat, Point>, taken: seq<nat>, d: Detection, m: Metric, next: nat, id: nat) {
    if exists t: nat :: Candidate(prev, taken, d, m, t) then
      && Candidate(prev, taken, d, m, id)
      && forall t: nat :: Candidate(prev, taken, d, m, t) ==> m.gap(Centroid(d.bbox), prev[id]) <= m.gap(Centroid(d.bbox), prev[t])
    else id == next
  }

  /** The ids above `first` handed out by a frame. */
  function Fresh(prev: map<nat, Point>, ids: seq<nat>): nat {
    if ids == [] then 0 else Fresh(prev, ids[..|ids| - 1]) + if ids[|ids| - 1] in prev then 0 else 1
  }

  ghost predicate ChosenAt(prev: map<nat, Point>, ds: seq<Detection>, m: Metric, first: nat, ids: seq<nat>, j: nat)
    requires j < |ds| == |ids|
  {
    Chosen(prev, ids[..j], ds[j], m, first + Fresh(prev, ids[..j]), ids[j])
  }

  /** Greedy assignment of one frame, in processing order. */
  ghost predicate Greedy(prev: map<nat, Point>, ds: seq<Detection>, m: Metric, first: nat, ids: seq<nat>) {
    |ids| == |ds| && forall j: nat :: j < |ds| ==> ChosenAt(prev, ds, m, first, ids, j)
  }

  /** The tracks a frame leaves for the next one. */
  function TracksOf(ds: seq<Detection>, ids: seq<nat>): map<nat, Point>
    requires |ids| == |ds|
  {
    if ds == [] then map[]
    else TracksOf(ds[..|ds| - 1], ids[..|ids| - 1])[ids[|ids| - 1] := Centroid(ds[|ds| - 1].bbox)]
  }

  function Label(ds: seq<Detection>, ids: seq<nat>): seq<Tracked>
    requires |ids| == |ds|
  {
    seq(|ds|, j requires 0 <= j < |ds| => Tracked(ds[j], ids[j]))
  }

  /** The scan over the free tracks, in whatever order the set yields them. */
  method Nearest(prev: map<nat, Point>, free: set<nat>, c: Point, m: Metric) returns (found: bool, best: nat)
    requires free <= prev.Keys
    ensures found <==> exists t: nat :: t in free && m.near(c, prev[t])
    ensures found ==> best in free && m.near(c, prev[best])
    ensures found ==> forall t: nat :: t in free && m.near(c, prev[t]) ==> m.gap(c, prev[best]) <= m.gap(c, prev[t])
  {
    found, best := false, 0;
    var todo := free;
    while todo != {}
      invariant todo <= free
      invariant found ==> best in free && m.near(c, prev[best])
      invariant forall t: nat :: t in free && t !in todo && m.near(c, prev[t]) ==> found && m.gap(c, prev[best]) <= m.gap(c, prev[t])
      decreases todo
    {
      var t :| t in todo;
      todo := todo - {t};
      if m.near(c, prev[t]) && (!found || m.gap(c, prev[t]) < m.gap(c, prev[best])) {
        found, best := true, t;
      }
    }
  }

  /** One more detection of a greedily assigned frame. */
  lemma GreedySnoc(prev: map<nat, Point>, ds: seq<Detection>, m: Metric, first: nat, ids: seq<nat>, d: Detection, id: nat)
    requires Greedy(prev, ds, m, first, ids)
    requires Chosen(prev, ids, d, m, first + Fresh(prev, ids), id)
    ensures Greedy(prev, ds + [d], m, first, ids + [id])
  {
    var es, all := ds + [d], ids + [id];
    forall j: nat | j < |es| ensures ChosenAt(prev, es, m, first, all, j) {
      assert all[..j] == ids[..j];
      if j == |ds| {
        assert ids[..j] == ids;
      } else {
        assert ChosenAt(prev, ds, m, first, ids, j);
      }
    }
  }

  /** What the scan finds among the free tracks is the greedy choice. */
  lemma ScanIsChoice(prev: map<nat, Point>, free: set<nat>, ids: seq<nat>, d: Detection, m: Metric, next: nat, found: bool, id: nat)
    requires forall t: nat :: t in free <==> t in prev && t !in ids
    requires found ==> id in free && m.near(Centroid(d.bbox), prev[id])
    requires found ==> forall t: nat :: t in free && m.near(Centroid(d.bbox), prev[t]) ==>
                         m.gap(Centroid(d.bbox), prev[id]) <= m.gap(Centroid(d.bbox), prev[t])
    requires !found ==> id == next && forall t: nat :: t in free ==> !m.near(Centroid(d.bbox), prev[t])
    ensures Chosen(prev, ids, d, m, next, id)
  {
    assert forall t: nat :: Candidate(prev, ids, d, m, t) ==> t in free;
    if found {
      assert Candidate(prev, ids, d, m, id);
    }
  }

  lemma TracksSnoc(prev: map<nat, Point>, ds: seq<Detection>, ids: seq<nat>, d: Detection, id: nat)
    requires |ids| == |ds|
    ensures TracksOf(ds + [d], ids + [id]) == TracksOf(ds, ids)[id := Centroid(d.bbox)]
    ensures Fresh(prev, ids + [id]) == Fresh(prev, ids) + if id in prev then 0 else 1
  {
    assert (ds + [d])[..|ds|] == ds && (ids + [id])[..|ids|] == ids;
  }

  method LinkFrame(prev: map<nat, Point>, ds: seq<Detection>, m: Metric, first: nat)
    returns (ids: seq<nat>, current: map<nat, Point>, next: nat)
    requires forall t: nat :: t in prev ==> t < first
    ensures Greedy(prev, ds, m, first, ids)
    ensures current == TracksOf(ds, ids) && next == first + Fresh(prev, ids)
  {
    var free := prev.Keys;
    ids, current, next := [], map[], first;
    for j := 0 to |ds|
      invariant |ids| == j && Greedy(prev, ds[..j], m, first, ids)
      invariant forall t: nat :: t in free <==> t in prev && t !in ids
      invariant current == TracksOf(ds[..j], ids) && next == first + Fresh(prev, ids)
    {
      var d := ds[j];
      var c := Centroid(d.bbox);
      var found, id := Nearest(prev, free, c, m);
      if !found {
        id := next;
      }
      ScanIsChoice(prev, free, ids, d, m, next, found, id);
      GreedySnoc(prev, ds[..j], m, first, ids, d, id);
      TracksSnoc(prev, ds[..j], ids, d, id);
      assert ds[..j + 1] == ds[..j] + [d];
      if found {
        free := free - {id};
      } else {
        next := next + 1;
      }
      current := current[id := c];
      ids := ids + [id];
    }
    assert ds[..|ds|] == ds;
  }

  // ---------------------------------------------------------------- ids within one frame

  /** The last detection of a frame got a free previous track or the next new id. */
  lemma GreedyInit(prev: map<nat, Point>, ds: seq<Detection>, m: Metric, first: nat, ids: seq<nat>)
    requires Greedy(prev, ds, m, first, ids) && ds != []
    ensures var k := |ds| - 1;
            && Greedy(prev, ds[..k], m, first, ids[..k])
            && ((ids[k] in prev && ids[k] !in ids[..k]) || ids[k] == first + Fresh(prev, ids[..k]))
  {
    var k := |ds| - 1;
    forall j: nat | j < k ensures ChosenAt(prev, ds[..k], m, first, ids[..k], j) {
      assert ids[..k][..j] == ids[..j];
      assert ChosenAt(prev, ds, m, first, ids, j);
    }
    assert ChosenAt(prev, ds, m, first, ids, k);
  }

  ghost predicate Distinct(ids: seq<nat>) {
    forall i, j :: 0 <= i < j < |ids| ==> ids[i] != ids[j]
  }

  /** What greedy assignment means for the ids: linked ids are distinct previous tracks, new ids count up. */
  ghost predicate WellNumbered(prev: map<nat, Point>, first: nat, ids: seq<nat>) {
    && (forall id: nat :: id in ids ==> id in prev || first <= id < first + Fresh(prev, ids))
    && (forall id: nat :: first <= id < first + Fresh(prev, ids) ==> id in ids)
    && Distinct(ids)
  }

  lemma NumberOneMore(prev: map<nat, Point>, first: nat, init: seq<nat>, last: nat)
    requires WellNumbered(prev, first, init) && forall t: nat :: t in prev ==> t < first
    requires (last in prev && last !in init) || last == first + Fresh(prev, init)
    ensures WellNumbered(prev, first, init + [last])
  {
    var ids := init + [last];
    assert ids[..|ids| - 1] == init;
    assert Fresh(prev, ids) == Fresh(prev, init) + if last in prev then 0 else 1;
    assert last !in init;
    assert forall id: nat :: id in ids <==> id in init || id == last;
  }

  lemma {:induction false} GreedyIds(prev: map<nat, Point>, ds: seq<Detection>, m: Metric, first: nat, ids: seq<nat>)
    requires Greedy(prev, ds, m, first, ids) && forall t: nat :: t in prev ==> t < first
    ensures WellNumbered(prev, first, ids)
  {
    if ids != [] {
      var k := |ids| - 1;
      GreedyInit(prev, ds, m, first, ids);
      GreedyIds(prev, ds[..k], m, first, ids[..k]);
      NumberOneMore(prev, first, ids[..k], ids[k]);
      assert ids == ids[..k] + [ids[k]];
    }
  }

  lemma {:induction false} TracksOfKeys(ds: seq<Detection>, ids: seq<nat>)
    requires |ids| == |ds| && Distinct(ids)
    ensures forall t: nat :: t in TracksOf(ds, ids) <==> t in ids
    ensures forall j :: 0 <= j < |ids| ==> ids[j] in TracksOf(ds, ids) && TracksOf(ds, ids)[ids[j]] == Centroid(ds[j].bbox)
  {
    if ds != [] {
      var k := |ds| - 1;
      TracksOfKeys(ds[..k], ids[..k]);
      assert ids == ids[..k] + [ids[k]];
    }
  }

  // ---------------------------------------------------------------- the whole batch

  /** One id list per frame, as long as the frame. */
  predicate Fits(frames: seq<seq<Detection>>, ids: seq<seq<nat>>) {
    |ids| <= |frames| && forall g :: 0 <= g < |ids| ==> |ids[g]| == |frames[g]|
  }

  /** The tracks remembered when frame `f` starts: those of the frame just before it. */
  function Remembered(frames: seq<seq<Detection>>, ids: seq<seq<nat>>, f: nat): map<nat, Point>
    requires Fits(frames, ids) && f <= |ids|
  {
    if f == 0 then map[] else TracksOf(ByScore(frames[f - 1]), ids[f - 1])
  }

  /** The next new id when frame `f` starts. */
  function NextId(frames: seq<seq<Detection>>, ids: seq<seq<nat>>, f: nat): nat
    requires Fits(frames, ids) && f <= |ids|
  {
    if f == 0 then 1 else NextId(frames, ids, f - 1) + Fresh(Remembered(frames, ids, f - 1), ids[f - 1])
  }

  ghost predicate FrameAssigned(frames: seq<seq<Detection>>, m: Metric, ids: seq<seq<nat>>, f: nat)
    requires Fits(frames, ids) && f < |ids|
  {
    Greedy(Remembered(frames, ids, f), ByScore(frames[f]), m, NextId(frames, ids, f), ids[f])
  }

  /** Every frame is assigned greedily against the frame before it. */
  ghost predicate Assigned(frames: seq<seq<Detection>>, m: Metric, ids: seq<seq<nat>>) {
    Fits(frames, ids) && forall f: nat :: f < |ids| ==> FrameAssigned(frames, m, ids, f)
  }

  function Output(frames: seq<seq<Detection>>, ids: seq<seq<nat>>): seq<Tracked>
    requires Fits(frames, ids)
  {
    if ids == [] then []
    else Output(frames, ids[..|ids| - 1]) + Label(ByScore(frames[|ids| - 1]), ids[|ids| - 1])
  }

  /** A batch of at most one frame carries no temporal signal: ids are -1, -2, ... in input order. */
  function Sentinels(ds: seq<Detection>): seq<Tracked> {
    seq(|ds|, j requires 0 <= j < |ds| => Tracked(ds[j], -1 - j))
  }

  ghost predicate UsedBefore(ids: seq<seq<nat>>, f: nat, id: nat)
    requires f <= |ids|
  {
    exists g :: 0 <= g < f && id in ids[g]
  }

  /** The ids used before frame `f` are exactly 1 .. next-1, each frame's ids are distinct, and the
      remembered tracks are the ids of the last frame. */
  ghost predicate Numbered(frames: seq<seq<Detection>>, ids: seq<seq<nat>>, f: nat)
    requires Fits(frames, ids) && f <= |ids|
  {
    && 1 <= NextId(frames, ids, f)
    && (forall id: nat :: UsedBefore(ids, f, id) <==> 1 <= id < NextId(frames, ids, f))
    && (forall t: nat :: t in Remembered(frames, ids, f) <==> f > 0 && t in ids[f - 1])
    && (forall g :: 0 <= g < f ==> Distinct(ids[g]))
  }

  lemma RememberedAreOld(frames: seq<seq<Detection>>, ids: seq<seq<nat>>, f: nat)
    requires Fits(frames, ids) && f <= |ids| && Numbered(frames, ids, f)
    ensures forall t: nat :: t in Remembered(frames, ids, f) ==> t < NextId(frames, ids, f)
  {
    forall t: nat | t in Remembered(frames, ids, f) ensures t < NextId(frames, ids, f) {
      assert UsedBefore(ids, f, t);
    }
  }

  lemma UsedStep(ids: seq<seq<nat>>, f: nat, id: nat)
    requires f < |ids|
    ensures UsedBefore(ids, f + 1, id) <==> UsedBefore(ids, f, id) || id in ids[f]
  {
    if UsedBefore(ids, f, id) {
      var h :| 0 <= h < f && id in ids[h];
    }
  }

  lemma {:induction false} IdsSoFar(frames: seq<seq<Detection>>, m: Metric, ids: seq<seq<nat>>, f: nat)
    requires Assigned(frames, m, ids) && f <= |ids|
    ensures Numbered(frames, ids, f)
  {
    if f > 0 {
      var g := f - 1;
      IdsSoFar(frames, m, ids, g);
      RememberedAreOld(frames, ids, g);
      var prev, first := Remembered(frames, ids, g), NextId(frames, ids, g);
      assert FrameAssigned(frames, m, ids, g);
      GreedyIds(prev, ByScore(frames[g]), m, first, ids[g]);
      TracksOfKeys(ByScore(frames[g]), ids[g]);
      forall id: nat ensures UsedBefore(ids, f, id) <==> 1 <= id < first + Fresh(prev, ids[g]) {
        UsedStep(ids, g, id);
        if id in prev {
          assert UsedBefore(ids, g, id);
        }
      }
    }
  }

  /** The ids of a batch are exactly 1 .. k and distinct within each frame. */
  lemma IdsAreConsecutive(frames: seq<seq<Detection>>, m: Metric, ids: seq<seq<nat>>) returns (k: nat)
    requires Assigned(frames, m, ids)
    ensures forall id: nat :: UsedBefore(ids, |ids|, id) <==> 1 <= id <= k
    ensures forall f :: 0 <= f < |ids| ==> Distinct(ids[f])
  {
    IdsSoFar(frames, m, ids, |ids|);
    k := NextId(frames, ids, |ids|) - 1;
  }

  /** An id of frame `h` that was ever used before is an id of the frame just before `h`. */
  lemma OldIdsComeFromTheLastFrame(frames: seq<seq<Detection>>, m: Metric, ids: seq<seq<nat>>, h: nat, id: nat)
    requires Assigned(frames, m, ids) && h < |ids| && id in ids[h] && UsedBefore(ids, h, id)
    ensures id in ids[h - 1]
  {
    IdsSoFar(frames, m, ids, h);
    var prev, first := Remembered(frames, ids, h), NextId(frames, ids, h);
    RememberedAreOld(frames, ids, h);
    assert FrameAssigned(frames, m, ids, h);
    GreedyIds(prev, ByScore(frames[h]), m, first, ids[h]);
  }

  /** An id that is absent from one frame never comes back: each id occupies one contiguous run of frames. */
  lemma {:induction false} IdsNeverReturn(frames: seq<seq<Detection>>, m: Metric, ids: seq<seq<nat>>, f: nat, g: nat, h: nat, id: nat)
    requires Assigned(frames, m, ids) && f <= g <= h < |ids| && id in ids[f] && id in ids[h]
    ensures id in ids[g]
    decreases h
  {
    if g < h {
      assert UsedBefore(ids, h, id);
      OldIdsComeFromTheLastFrame(frames, m, ids, h, id);
      IdsNeverReturn(frames, m, ids, f, g, h - 1, id);
    }
  }

  // ---------------------------------------------------------------- links between adjacent frames

  /** Position `j` of frame `f` continues position `i` of the frame before it. */
  predicate Linked(ids: seq<seq<nat>>, f: nat, i: nat, j: nat)
    requires 0 < f < |ids|
  {
    i < |ids[f - 1]| && j < |ids[f]| && ids[f - 1][i] == ids[f][j]
  }

  predicate Linkable(frames: seq<seq<Detection>>, m: Metric, f: nat, i: nat, j: nat)
    requires 0 < f < |frames|
  {
    var before, now := ByScore(frames[f - 1]), ByScore(frames[f]);
    i < |before| && j < |now| && m.near(Centroid(now[j].bbox), Centroid(before[i].bbox))
  }

  function Apart(frames: seq<seq<Detection>>, m: Metric, f: nat, i: nat, j: nat): real
    requires 0 < f < |frames| && i < |frames[f - 1]| && j < |frames[f]|
  {
    m.gap(Centroid(ByScore(frames[f])[j].bbox), Centroid(ByScore(frames[f - 1])[i].bbox))
  }

  /** Links are within reach, one-to-one and maximal, and they respect the score order: a detection that
      did not get a closer track lost it to a detection with at least its score. */
  lemma LinksAreGreedy(frames: seq<seq<Detection>>, m: Metric, ids: seq<seq<nat>>, f: nat)
    requires Assigned(frames, m, ids) && 0 < f < |ids|
    ensures forall i: nat, j: nat :: Linked(ids, f, i, j) ==> Linkable(frames, m, f, i, j)
    ensures forall i: nat, j: nat, i': nat, j': nat :: Linked(ids, f, i, j) && Linked(ids, f, i', j') ==> (i == i' <==> j == j')
    ensures forall i: nat, j: nat :: Linkable(frames, m, f, i, j) ==>
              exists i': nat, j': nat :: Linked(ids, f, i', j') && (i' == i || j' == j)
    ensures forall i: nat, j: nat, i': nat ::
              Linked(ids, f, i, j) && Linkable(frames, m, f, i', j) && Apart(frames, m, f, i', j) < Apart(frames, m, f, i, j) ==>
              exists j': nat :: j' < j && Linked(ids, f, i', j')
  {
    IdsSoFar(frames, m, ids, f);
    IdsSoFar(frames, m, ids, f + 1);
    RememberedAreOld(frames, ids, f);
    assert FrameAssigned(frames, m, ids, f);
    var before, now := ByScore(frames[f - 1]), ByScore(frames[f]);
    var prev, first := TracksOf(before, ids[f - 1]), NextId(frames, ids, f);
    TracksOfKeys(before, ids[f - 1]);
    forall i: nat, j: nat | Linkable(frames, m, f, i, j)
      ensures exists i': nat, j': nat :: Linked(ids, f, i', j') && (i' == i || j' == j)
    {
      LinkFound(prev, now, m, first, ids[f], j, ids[f - 1][i]);
      if t :| 0 <= t < j && ids[f][t] == ids[f - 1][i] {
        assert Linked(ids, f, i, t);
      } else {
        assert ids[f][j] in prev;
        var i' :| 0 <= i' < |ids[f - 1]| && ids[f - 1][i'] == ids[f][j];
        assert Linked(ids, f, i', j);
      }
    }
    forall i: nat, j: nat | Linked(ids, f, i, j) ensures Linkable(frames, m, f, i, j) {
      LinkIsCandidate(prev, now, m, first, ids[f], j);
    }
    forall i: nat, j: nat, i': nat | Linked(ids, f, i, j) && Linkable(frames, m, f, i', j)
                                     && Apart(frames, m, f, i', j) < Apart(frames, m, f, i, j)
      ensures exists j': nat :: j' < j && Linked(ids, f, i', j')
    {
      LinkFound(prev, now, m, first, ids[f], j, ids[f - 1][i']);
      var t :| 0 <= t < j && ids[f][t] == ids[f - 1][i'];
      assert Linked(ids, f, i', t);
    }
  }

  lemma LinkIsCandidate(prev: map<nat, Point>, ds: seq<Detection>, m: Metric, first: nat, ids: seq<nat>, j: nat)
    requires Greedy(prev, ds, m, first, ids) && j < |ds| && ids[j] in prev && forall t: nat :: t in prev ==> t < first
    ensures m.near(Centroid(ds[j].bbox), prev[ids[j]])
  {
    assert ChosenAt(prev, ds, m, first, ids, j);
  }

  /** A reachable track was taken earlier, or the detection got a track at least as close. */
  lemma LinkFound(prev: map<nat, Point>, ds: seq<Detection>, m: Metric, first: nat, ids: seq<nat>, j: nat, track: nat)
    requires Greedy(prev, ds, m, first, ids) && j < |ds| && track in prev && m.near(Centroid(ds[j].bbox), prev[track])
    ensures (exists t :: 0 <= t < j && ids[t] == track)
         || (ids[j] in prev && m.gap(Centroid(ds[j].bbox), prev[ids[j]]) <= m.gap(Centroid(ds[j].bbox), prev[track]))
  {
    assert ChosenAt(prev, ds, m, first, ids, j);
    if track !in ids[..j] {
      assert Candidate(prev, ids[..j], ds[j], m, track);
    } else {
      var t :| 0 <= t < |ids[..j]| && ids[..j][t] == track;
      assert ids[t] == track;
    }
  }

  // ---------------------------------------------------------------- in terms of the boxes

  /** The square of the distance between the centres of two boxes. */
  function Apart2(a: Box, b: Box): real {
    var dx, dy := b.x + b.w / 2.0 - (a.x + a.w / 2.0), b.y + b.h / 2.0 - (a.y + a.h / 2.0);
    dx * dx + dy * dy
  }

  /** Neither position `i` of the frame before nor position `j` of frame `f` has a partner in the other frame. */
  predicate Loners(ids: seq<seq<nat>>, f: nat, i: nat, j: nat)
    requires 0 < f < |ids|
  {
    i < |ids[f - 1]| && j < |ids[f]| && ids[f - 1][i] !in ids[f] && ids[f][j] !in ids[f - 1]
  }

  predicate NoPartner(ids: seq<seq<nat>>, f: nat, i: nat)
    requires 0 < f < |ids|
  {
    i < |ids[f - 1]| && ids[f - 1][i] !in ids[f]
  }

  /** Two boxes of adjacent frames that share an id have centres at most `reach` apart; two that are both left without
      a partner have centres more than `reach` apart; and a box is no nearer to a box of the frame before that was left
      without a partner than to its own. */
  ghost predicate ByCentres(frames: seq<seq<Detection>>, ids: seq<seq<nat>>, reach: real)
    requires Fits(frames, ids)
  {
    && (forall f: nat, i: nat, j: nat :: 0 < f < |ids| && Linked(ids, f, i, j) ==>
          reach >= 0.0 && Apart2(ByScore(frames[f - 1])[i].bbox, ByScore(frames[f])[j].bbox) <= reach * reach)
    && (forall f: nat, i: nat, j: nat :: 0 < f < |ids| && Loners(ids, f, i, j) ==>
          reach < 0.0 || Apart2(ByScore(frames[f - 1])[i].bbox, ByScore(frames[f])[j].bbox) > reach * reach)
    && (forall f: nat, i: nat, j: nat, k: nat :: 0 < f < |ids| && Linked(ids, f, i, j) && NoPartner(ids, f, k) ==>
          Apart2(ByScore(frames[f - 1])[i].bbox, ByScore(frames[f])[j].bbox) <=
          Apart2(ByScore(frames[f - 1])[k].bbox, ByScore(frames[f])[j].bbox))
  }

  lemma SquaresAgree(a: Box, b: Box, reach: real)
    ensures Euclid(reach).gap(Centroid(b), Centroid(a)) == Apart2(a, b)
    ensures Euclid(reach).near(Centroid(b), Centroid(a)) <==> reach >= 0.0 && Apart2(a, b) <= reach * reach
  {
  }

  lemma BoxesNear(frames: seq<seq<Detection>>, reach: real, f: nat, i: nat, j: nat)
    requires 0 < f < |frames| && i < |frames[f - 1]| && j < |frames[f]|
    ensures var gap := Apart2(ByScore(frames[f - 1])[i].bbox, ByScore(frames[f])[j].bbox);
            && Apart(frames, Euclid(reach), f, i, j) == gap
            && (Linkable(frames, Euclid(reach), f, i, j) <==> reach >= 0.0 && gap <= reach * reach)
  {
    SquaresAgree(ByScore(frames[f - 1])[i].bbox, ByScore(frames[f])[j].bbox, reach);
  }

  /** The tracker links by the distance of centres. */
  lemma LinkedByCentres(frames: seq<seq<Detection>>, reach: real, ids: seq<seq<nat>>)
    requires Assigned(frames, Euclid(reach), ids)
    ensures ByCentres(frames, ids, reach)
  {
    forall f: nat, i: nat, j: nat | 0 < f < |ids| && Linked(ids, f, i, j)
      ensures reach >= 0.0 && Apart2(ByScore(frames[f - 1])[i].bbox, ByScore(frames[f])[j].bbox) <= reach * reach
    {
      LinkedIsLinkable(frames, Euclid(reach), ids, f, i, j);
      BoxesNear(frames, reach, f, i, j);
    }
    forall f: nat, i: nat, j: nat | 0 < f < |ids| && Loners(ids, f, i, j)
      ensures reach < 0.0 || Apart2(ByScore(frames[f - 1])[i].bbox, ByScore(frames[f])[j].bbox) > reach * reach
    {
      LonersAreNotLinkable(frames, Euclid(reach), ids, f, i, j);
      BoxesNear(frames, reach, f, i, j);
    }
    forall f: nat, i: nat, j: nat, k: nat | 0 < f < |ids| && Linked(ids, f, i, j) && NoPartner(ids, f, k)
      ensures Apart2(ByScore(frames[f - 1])[i].bbox, ByScore(frames[f])[j].bbox) <=
              Apart2(ByScore(frames[f - 1])[k].bbox, ByScore(frames[f])[j].bbox)
    {
      PartnerIsNearest(frames, Euclid(reach), ids, f, i, j, k);
      LinkedIsLinkable(frames, Euclid(reach), ids, f, i, j);
      BoxesNear(frames, reach, f, i, j);
      BoxesNear(frames, reach, f, k, j);
    }
  }

  lemma LinkedIsLinkable(frames: seq<seq<Detection>>, m: Metric, ids: seq<seq<nat>>, f: nat, i: nat, j: nat)
    requires Assigned(frames, m, ids) && 0 < f < |ids| && Linked(ids, f, i, j)
    ensures Linkable(frames, m, f, i, j)
  {
    LinksAreGreedy(frames, m, ids, f);
  }

  lemma LonersAreNotLinkable(frames: seq<seq<Detection>>, m: Metric, ids: seq<seq<nat>>, f: nat, i: nat, j: nat)
    requires Assigned(frames, m, ids) && 0 < f < |ids|
    requires Loners(ids, f, i, j)
    ensures !Linkable(frames, m, f, i, j)
  {
    LinksAreGreedy(frames, m, ids, f);
  }

  lemma PartnerIsNearest(frames: seq<seq<Detection>>, m: Metric, ids: seq<seq<nat>>, f: nat, i: nat, j: nat, k: nat)
    requires Assigned(frames, m, ids) && 0 < f < |ids|
    requires Linked(ids, f, i, j) && NoPartner(ids, f, k)
    ensures Linkable(frames, m, f, k, j) ==> Apart(frames, m, f, i, j) <= Apart(frames, m, f, k, j)
  {
    LinksAreGreedy(frames, m, ids, f);
  }

  // ---------------------------------------------------------------- only centres matter

  /** The same score, and a centre moved by (dx, dy), whatever the size. */
  predicate Shifted(a: Detection, b: Detection, dx: real, dy: real) {
    && b.score == a.score
    && b.bbox.x + b.bbox.w / 2.0 == a.bbox.x + a.bbox.w / 2.0 + dx
    && b.bbox.y + b.bbox.h / 2.0 == a.bbox.y + a.bbox.h / 2.0 + dy
  }

  ghost predicate AllShifted(a: seq<Detection>, b: seq<Detection>, dx: real, dy: real) {
    |a| == |b| && forall j: nat :: j < |a| ==> Shifted(a[j], b[j], dx, dy)
  }

  lemma {:induction false} InsertShifted(d: Detection, e: Detection, a: seq<Detection>, b: seq<Detection>, dx: real, dy: real)
    requires Shifted(d, e, dx, dy) && AllShifted(a, b, dx, dy)
    ensures AllShifted(Insert(d, a), Insert(e, b), dx, dy)
  {
    if a != [] {
      assert Shifted(a[0], b[0], dx, dy);
      InsertShifted(d, e, a[1..], b[1..], dx, dy);
    }
  }

  lemma {:induction false} ByScoreShifted(a: seq<Detection>, b: seq<Detection>, dx: real, dy: real)
    requires AllShifted(a, b, dx, dy)
    ensures AllShifted(ByScore(a), ByScore(b), dx, dy)
  {
    if a != [] {
      assert Shifted(a[0], b[0], dx, dy);
      ByScoreShifted(a[1..], b[1..], dx, dy);
      InsertShifted(a[0], b[0], ByScore(a[1..]), ByScore(b[1..]), dx, dy);
    }
  }

  function Translate(p: Point, dx: real, dy: real): Point {
    Point(p.x + dx, p.y + dy)
  }

  /** The same tracks, each moved by (dx, dy). */
  ghost predicate TracksShifted(p: map<nat, Point>, q: map<nat, Point>, dx: real, dy: real) {
    p.Keys == q.Keys && forall t: nat :: t in p ==> q[t] == Translate(p[t], dx, dy)
  }

  lemma {:induction false} TracksOfShifted(a: seq<Detection>, b: seq<Detection>, ids: seq<nat>, dx: real, dy: real)
    requires AllShifted(a, b, dx, dy) && |ids| == |a|
    ensures TracksShifted(TracksOf(a, ids), TracksOf(b, ids), dx, dy)
  {
    if a != [] {
      var k := |a| - 1;
      assert Shifted(a[k], b[k], dx, dy);
      TracksOfShifted(a[..k], b[..k], ids[..k], dx, dy);
    }
  }

  lemma {:induction false} FreshShifted(p: map<nat, Point>, q: map<nat, Point>, ids: seq<nat>)
    requires p.Keys == q.Keys
    ensures Fresh(p, ids) == Fresh(q, ids)
  {
    if ids != [] {
      FreshShifted(p, q, ids[..|ids| - 1]);
    }
  }

  lemma GapShifted(reach: real, p: Point, q: Point, dx: real, dy: real)
    ensures var m := Euclid(reach);
            && m.gap(Translate(p, dx, dy), Translate(q, dx, dy)) == m.gap(p, q)
            && m.near(Translate(p, dx, dy), Translate(q, dx, dy)) == m.near(p, q)
  {
    assert p.x + dx - (q.x + dx) == p.x - q.x && p.y + dy - (q.y + dy) == p.y - q.y;
  }

  lemma CandidateShifted(p: map<nat, Point>, q: map<nat, Point>, taken: seq<nat>, d: Detection, e: Detection, reach: real,
                         dx: real, dy: real, t: nat)
    requires TracksShifted(p, q, dx, dy) && Shifted(d, e, dx, dy)
    ensures Candidate(p, taken, d, Euclid(reach), t) <==> Candidate(q, taken, e, Euclid(reach), t)
    ensures t in p ==> Euclid(reach).gap(Centroid(e.bbox), q[t]) == Euclid(reach).gap(Centroid(d.bbox), p[t])
  {
    assert Centroid(e.bbox) == Translate(Centroid(d.bbox), dx, dy);
    if t in p {
      GapShifted(reach, Centroid(d.bbox), p[t], dx, dy);
    }
  }

  lemma ChosenShifted(p: map<nat, Point>, q: map<nat, Point>, taken: seq<nat>, d: Detection, e: Detection, reach: real,
                      dx: real, dy: real, next: nat, id: nat)
    requires TracksShifted(p, q, dx, dy) && Shifted(d, e, dx, dy) && Chosen(p, taken, d, Euclid(reach), next, id)
    ensures Chosen(q, taken, e, Euclid(reach), next, id)
  {
    var m := Euclid(reach);
    forall t: nat
      ensures Candidate(p, taken, d, m, t) <==> Candidate(q, taken, e, m, t)
      ensures t in p ==> m.gap(Centroid(e.bbox), q[t]) == m.gap(Centroid(d.bbox), p[t])
    {
      CandidateShifted(p, q, taken, d, e, reach, dx, dy, t);
    }
  }

  lemma GreedyShifted(p: map<nat, Point>, q: map<nat, Point>, a: seq<Detection>, b: seq<Detection>, reach: real, first: nat,
                      ids: seq<nat>, dx: real, dy: real)
    requires TracksShifted(p, q, dx, dy) && AllShifted(a, b, dx, dy) && Greedy(p, a, Euclid(reach), first, ids)
    ensures Greedy(q, b, Euclid(reach), first, ids)
  {
    forall j: nat | j < |b| ensures ChosenAt(q, b, Euclid(reach), first, ids, j) {
      assert ChosenAt(p, a, Euclid(reach), first, ids, j) && Shifted(a[j], b[j], dx, dy);
      FreshShifted(p, q, ids[..j]);
      ChosenShifted(p, q, ids[..j], a[j], b[j], reach, dx, dy, first + Fresh(p, ids[..j]), ids[j]);
    }
  }

  ghost predicate FramesShifted(a: seq<seq<Detection>>, b: seq<seq<Detection>>, dx: real, dy: real) {
    |a| == |b| && forall f: nat :: f < |a| ==> AllShifted(a[f], b[f], dx, dy)
  }

  lemma {:induction false} NumbersShifted(a: seq<seq<Detection>>, b: seq<seq<Detection>>, ids: seq<seq<nat>>, dx: real, dy: real, f: nat)
    requires FramesShifted(a, b, dx, dy) && Fits(a, ids) && Fits(b, ids) && f <= |ids|
    ensures TracksShifted(Remembered(a, ids, f), Remembered(b, ids, f), dx, dy) && NextId(a, ids, f) == NextId(b, ids, f)
  {
    if f > 0 {
      NumbersShifted(a, b, ids, dx, dy, f - 1);
      FreshShifted(Remembered(a, ids, f - 1), Remembered(b, ids, f - 1), ids[f - 1]);
      assert AllShifted(a[f - 1], b[f - 1], dx, dy);
      ByScoreShifted(a[f - 1], b[f - 1], dx, dy);
      TracksOfShifted(ByScore(a[f - 1]), ByScore(b[f - 1]), ids[f - 1], dx, dy);
    }
  }

  /** Only centres matter, and only relative to each other: resizing boxes about their own centres and shifting all of
      them together leaves every way to assign ids as it was. */
  lemma OnlyCentresMatter(a: seq<seq<Detection>>, b: seq<seq<Detection>>, reach: real, ids: seq<seq<nat>>, dx: real, dy: real)
    requires FramesShifted(a, b, dx, dy) && Assigned(a, Euclid(reach), ids)
    ensures Assigned(b, Euclid(reach), ids)
  {
    assert Fits(b, ids) by {
      forall g: nat | g < |ids| ensures |ids[g]| == |b[g]| {
        assert AllShifted(a[g], b[g], dx, dy);
      }
    }
    forall f: nat | f < |ids| ensures FrameAssigned(b, Euclid(reach), ids, f) {
      assert FrameAssigned(a, Euclid(reach), ids, f);
      NumbersShifted(a, b, ids, dx, dy, f);
      assert AllShifted(a[f], b[f], dx, dy);
      ByScoreShifted(a[f], b[f], dx, dy);
      GreedyShifted(Remembered(a, ids, f), Remembered(b, ids, f), ByScore(a[f]), ByScore(b[f]), reach, NextId(a, ids, f), ids[f], dx, dy);
    }
  }

  // ---------------------------------------------------------------- half-optimality

  type Pair = (nat, nat)

  ghost predicate OneToOne(s: set<Pair>) {
    forall a, b :: a in s && b in s && (a.0 == b.0 || a.1 == b.1) ==> a == b
  }

  predicate Touch(a: Pair, b: Pair) {
    a.0 == b.0 || a.1 == b.1
  }

  ghost predicate Blocked(links: set<Pair>, r: Pair) {
    exists l :: l in links && Touch(l, r)
  }

  /** If every pair of a one-to-one set is blocked by some link, the set is at most twice as large as the links. */
  lemma {:induction false} MaximalIsHalf(links: set<Pair>, rival: set<Pair>)
    requires OneToOne(rival) && forall r :: r in rival ==> Blocked(links, r)
    ensures |rival| <= 2 * |links|
    decreases links
  {
    if r :| r in rival {
      assert Blocked(links, r);
      var l :| l in links;
      var rest := WithoutTouching(l, rival);
      OneLinkFewer(links, l, rival, rest);
      MaximalIsHalf(links - {l}, rest);
    }
  }

  lemma WithoutTouching(l: Pair, rival: set<Pair>) returns (rest: set<Pair>)
    requires OneToOne(rival)
    ensures rest <= rival && |rival| <= |rest| + 2
    ensures forall r :: r in rest ==> !Touch(l, r)
  {
    var touched := set x | x in rival && Touch(l, x);
    rest := rival - touched;
    TouchedByOne(l, touched);
    assert rival == touched + rest;
  }

  lemma OneLinkFewer(links: set<Pair>, l: Pair, rival: set<Pair>, rest: set<Pair>)
    requires rest <= rival && forall r :: r in rival ==> Blocked(links, r)
    requires forall r :: r in rest ==> !Touch(l, r)
    ensures forall r :: r in rest ==> Blocked(links - {l}, r)
  {
    forall r | r in rest ensures Blocked(links - {l}, r) {
      assert Blocked(links, r);
    }
  }

  lemma TouchedByOne(l: Pair, touched: set<Pair>)
    requires OneToOne(touched) && forall r :: r in touched ==> Touch(l, r)
    ensures |touched| <= 2
  {
    if a :| a in touched {
      if b :| b in touched && b != a {
        assert touched == {a, b};
      } else {
        assert touched == {a};
      }
    }
  }

  /** The links of a frame, as pairs of positions. */
  ghost function Links(ids: seq<seq<nat>>, f: nat): set<Pair>
    requires 0 < f < |ids|
  {
    set i: nat, j: nat | i < |ids[f - 1]| && j < |ids[f]| && Linked(ids, f, i, j) :: (i, j)
  }

  /** Greedy linking reaches at least half of what any one-to-one linking within reach could. */
  lemma LinksAreHalfOptimal(frames: seq<seq<Detection>>, m: Metric, ids: seq<seq<nat>>, f: nat, rival: set<Pair>)
    requires Assigned(frames, m, ids) && 0 < f < |ids|
    requires OneToOne(rival) && forall r :: r in rival ==> Linkable(frames, m, f, r.0, r.1)
    ensures |rival| <= 2 * |Links(ids, f)|
  {
    LinksAreGreedy(frames, m, ids, f);
    forall r | r in rival ensures Blocked(Links(ids, f), r) {
      assert Linkable(frames, m, f, r.0, r.1);
      var i: nat, j: nat :| Linked(ids, f, i, j) && (i == r.0 || j == r.1);
      assert (i, j) in Links(ids, f) && Touch((i, j), r);
    }
    MaximalIsHalf(Links(ids, f), rival);
  }

  // ---------------------------------------------------------------- ties and output

  /** No two remembered tracks are equally far from the detection. */
  ghost predicate NoTie(prev: map<nat, Point>, d: Detection, m: Metric) {
    forall t, u :: t in prev && u in prev && t != u ==> m.gap(Centroid(d.bbox), prev[t]) != m.gap(Centroid(d.bbox), prev[u])
  }

  /** Where two assignments agree on the detections before `j`, they agree on `j`. */
  lemma ChosenIsUnique(prev: map<nat, Point>, ds: seq<Detection>, m: Metric, first: nat, a: seq<nat>, b: seq<nat>, j: nat)
    requires Greedy(prev, ds, m, first, a) && Greedy(prev, ds, m, first, b)
    requires j < |ds| && NoTie(prev, ds[j], m) && a[..j] == b[..j]
    ensures a[j] == b[j]
  {
    assert ChosenAt(prev, ds, m, first, a, j) && ChosenAt(prev, ds, m, first, b, j);
  }

  ghost predicate NoTies(prev: map<nat, Point>, ds: seq<Detection>, m: Metric) {
    forall d :: d in ds ==> NoTie(prev, d, m)
  }

  lemma {:induction false} FirstDifference(a: seq<nat>, b: seq<nat>) returns (k: nat)
    requires |a| == |b| && a != b
    ensures k < |a| && a[..k] == b[..k] && a[k] != b[k]
  {
    k := |a| - 1;
    if a[..k] == b[..k] {
      assert a == a[..k] + [a[k]] && b == b[..k] + [b[k]];
    } else {
      var n := k;
      k := FirstDifference(a[..n], b[..n]);
      assert a[..n][..k] == a[..k] && b[..n][..k] == b[..k];
    }
  }

  /** Without ties the assignment does not depend on the order in which free tracks are scanned. */
  lemma GreedyIsUnique(prev: map<nat, Point>, ds: seq<Detection>, m: Metric, first: nat, a: seq<nat>, b: seq<nat>)
    requires Greedy(prev, ds, m, first, a) && Greedy(prev, ds, m, first, b) && NoTies(prev, ds, m)
    ensures a == b
  {
    if a != b {
      var k := FirstDifference(a, b);
      ChosenIsUnique(prev, ds, m, first, a, b, k);
    }
  }

  function Strip(ts: seq<Tracked>): seq<Detection> {
    seq(|ts|, j requires 0 <= j < |ts| => ts[j].detection)
  }

  /** The frames one after the other, each in processing order. */
  function InFrameOrder(frames: seq<seq<Detection>>): seq<Detection> {
    if frames == [] then [] else InFrameOrder(frames[..|frames| - 1]) + ByScore(frames[|frames| - 1])
  }

  function Bag(frames: seq<seq<Detection>>): multiset<Detection> {
    if frames == [] then multiset{} else Bag(frames[..|frames| - 1]) + multiset(frames[|frames| - 1])
  }

  lemma {:induction false} FrameOrderKeepsAll(frames: seq<seq<Detection>>)
    ensures multiset(InFrameOrder(frames)) == Bag(frames)
  {
    if frames != [] {
      FrameOrderKeepsAll(frames[..|frames| - 1]);
      ByScoreSortsStably(frames[|frames| - 1], 0.0);
    }
  }

  lemma {:induction false} OutputFollowsFrames(frames: seq<seq<Detection>>, ids: seq<seq<nat>>)
    requires Fits(frames, ids)
    ensures Strip(Output(frames, ids)) == InFrameOrder(frames[..|ids|])
  {
    if ids != [] {
      var k := |ids| - 1;
      OutputFollowsFrames(frames, ids[..k]);
      assert frames[..k + 1][..k] == frames[..k];
      var before, last := Output(frames, ids[..k]), Label(ByScore(frames[k]), ids[k]);
      assert Strip(before + last) == Strip(before) + Strip(last);
      assert Strip(last) == ByScore(frames[k]);
    }
  }

  /** The output lists every input detection exactly once, frame by frame. */
  lemma OutputKeepsDetections(frames: seq<seq<Detection>>, ids: seq<seq<nat>>)
    requires Fits(frames, ids) && |ids| == |frames|
    ensures Strip(Output(frames, ids)) == InFrameOrder(frames)
    ensures multiset(Strip(Output(frames, ids))) == Bag(frames)
  {
    OutputFollowsFrames(frames, ids);
    FrameOrderKeepsAll(frames);
    assert frames[..|ids|] == frames;
  }

  lemma {:induction false} NextIdPrefix(frames: seq<seq<Detection>>, ids: seq<seq<nat>>, more: seq<nat>, f: nat)
    requires Fits(frames, ids) && Fits(frames, ids + [more]) && f <= |ids|
    ensures NextId(frames, ids + [more], f) == NextId(frames, ids, f)
    ensures Remembered(frames, ids + [more], f) == Remembered(frames, ids, f)
  {
    if f > 0 {
      NextIdPrefix(frames, ids, more, f - 1);
      assert (ids + [more])[f - 1] == ids[f - 1];
    }
  }

  lemma FrameStaysAssigned(frames: seq<seq<Detection>>, m: Metric, ids: seq<seq<nat>>, more: seq<nat>, f: nat)
    requires Fits(frames, ids) && Fits(frames, ids + [more]) && f < |ids| && FrameAssigned(frames, m, ids, f)
    ensures FrameAssigned(frames, m, ids + [more], f)
  {
    NextIdPrefix(frames, ids, more, f);
    assert (ids + [more])[f] == ids[f];
  }

  lemma NewFrameAssigned(frames: seq<seq<Detection>>, m: Metric, ids: seq<seq<nat>>, more: seq<nat>)
    requires Fits(frames, ids) && Fits(frames, ids + [more]) && |ids| < |frames|
    requires Greedy(Remembered(frames, ids, |ids|), ByScore(frames[|ids|]), m, NextId(frames, ids, |ids|), more)
    ensures FrameAssigned(frames, m, ids + [more], |ids|)
    ensures NextId(frames, ids + [more], |ids|) == NextId(frames, ids, |ids|)
    ensures Remembered(frames, ids + [more], |ids|) == Remembered(frames, ids, |ids|)
  {
    NextIdPrefix(frames, ids, more, |ids|);
    assert (ids + [more])[|ids|] == more;
  }

  lemma FitsSnoc(frames: seq<seq<Detection>>, ids: seq<seq<nat>>, more: seq<nat>)
    requires Fits(frames, ids) && |ids| < |frames| && |more| == |frames[|ids|]|
    ensures Fits(frames, ids + [more])
  {
  }

  lemma AssignedSnoc(frames: seq<seq<Detection>>, m: Metric, ids: seq<seq<nat>>, more: seq<nat>)
    requires Assigned(frames, m, ids) && |ids| < |frames| && |more| == |frames[|ids|]|
    requires Greedy(Remembered(frames, ids, |ids|), ByScore(frames[|ids|]), m, NextId(frames, ids, |ids|), more)
    ensures Assigned(frames, m, ids + [more])
    ensures NextId(frames, ids + [more], |ids|) == NextId(frames, ids, |ids|)
    ensures Remembered(frames, ids + [more], |ids|) == Remembered(frames, ids, |ids|)
  {
    FitsSnoc(frames, ids, more);
    NewFrameAssigned(frames, m, ids, more);
    OldFramesAssigned(frames, m, ids, more);
  }

  lemma OldFramesAssigned(frames: seq<seq<Detection>>, m: Metric, ids: seq<seq<nat>>, more: seq<nat>)
    requires Assigned(frames, m, ids) && Fits(frames, ids + [more])
    ensures forall f: nat :: f < |ids| ==> FrameAssigned(frames, m, ids + [more], f)
  {
    forall f: nat | f < |ids| ensures FrameAssigned(frames, m, ids + [more], f) {
      FrameStaysAssigned(frames, m, ids, more, f);
    }
  }

  /** Everything known after `f` frames. */
  ghost predicate Tracking(frames: seq<seq<Detection>>, m: Metric, ids: seq<seq<nat>>, previous: map<nat, Point>, next: nat,
                           results: seq<Tracked>) {
    && Assigned(frames, m, ids)
    && previous == Remembered(frames, ids, |ids|) && next == NextId(frames, ids, |ids|)
    && results == Output(frames, ids)
  }

  lemma PreviousAreOld(frames: seq<seq<Detection>>, m: Metric, ids: seq<seq<nat>>, previous: map<nat, Point>, next: nat,
                       results: seq<Tracked>)
    requires Tracking(frames, m, ids, previous, next, results)
    ensures forall t: nat :: t in previous ==> t < next
  {
    IdsSoFar(frames, m, ids, |ids|);
    RememberedAreOld(frames, ids, |ids|);
  }

  /** How many detections the first `f` frames hold. */
  function Preceding(frames: seq<seq<Detection>>, f: nat): nat
    requires f <= |frames|
  {
    if f == 0 then 0 else Preceding(frames, f - 1) + |frames[f - 1]|
  }

  /** Every detection comes out with its own id, at its place. */
  ghost predicate Placed(frames: seq<seq<Detection>>, ids: seq<seq<nat>>, results: seq<Tracked>, f: nat, j: nat)
    requires Fits(frames, ids)
  {
    f < |ids| && j < |ids[f]| ==>
      var k := Preceding(frames, f) + j;
      k < |results| && results[k] == Tracked(ByScore(frames[f])[j], ids[f][j])
  }

  lemma {:induction false} OutputPlaces(frames: seq<seq<Detection>>, ids: seq<seq<nat>>, f: nat, j: nat)
    requires Fits(frames, ids)
    ensures |Output(frames, ids)| == Preceding(frames, |ids|) && Placed(frames, ids, Output(frames, ids), f, j)
  {
    if ids != [] {
      var k := |ids| - 1;
      OutputPlaces(frames, ids[..k], f, j);
      var before := Output(frames, ids[..k]);
      assert |before| == Preceding(frames, k);
    }
  }

  lemma OutputSnoc(frames: seq<seq<Detection>>, ids: seq<seq<nat>>, more: seq<nat>)
    requires Fits(frames, ids) && Fits(frames, ids + [more])
    ensures Output(frames, ids + [more]) == Output(frames, ids) + Label(ByScore(frames[|ids|]), more)
  {
    assert (ids + [more])[..|ids|] == ids;
  }

  lemma TrackingSnoc(frames: seq<seq<Detection>>, m: Metric, ids: seq<seq<nat>>, previous: map<nat, Point>, next: nat,
                     results: seq<Tracked>, links: seq<nat>)
    requires Tracking(frames, m, ids, previous, next, results) && |ids| < |frames|
    requires Greedy(previous, ByScore(frames[|ids|]), m, next, links)
    ensures var sorted := ByScore(frames[|ids|]);
            Tracking(frames, m, ids + [links], TracksOf(sorted, links), next + Fresh(previous, links),
                     results + Label(sorted, links))
  {
    AssignedSnoc(frames, m, ids, links);
    OutputSnoc(frames, ids, links);
  }

  /** The tracker. Only the tracks of the immediately preceding frame are remembered. */
  method TrackDetections(frames: seq<seq<Detection>>, reach: real) returns (results: seq<Tracked>, ghost ids: seq<seq<nat>>)
    ensures |frames| <= 1 ==> results == if frames == [] then [] else Sentinels(frames[0])
    ensures |frames| == 1 ==>
              |results| == |frames[0]| && forall j :: 0 <= j < |results| ==> results[j] == Tracked(frames[0][j], -1 - j)
    ensures |frames| >= 2 ==>
              Assigned(frames, Euclid(reach), ids) && |ids| == |frames| && results == Output(frames, ids)
    ensures |frames| >= 2 ==>
              ByCentres(frames, ids, reach) && forall f: nat, j: nat :: Placed(frames, ids, results, f, j)
  {
    results, ids := [], [];
    if |frames| <= 1 {
      if |frames| == 1 {
        for offset := 0 to |frames[0]|
          invariant results == Sentinels(frames[0])[..offset]
        {
          results := results + [Tracked(frames[0][offset], -1 - offset)];
        }
        assert results == Sentinels(frames[0]);
      }
      return;
    }
    var m := Euclid(reach);
    var previous: map<nat, Point>, next := map[], 1;
    for f := 0 to |frames|
      invariant |ids| == f && Tracking(frames, m, ids, previous, next, results)
    {
      PreviousAreOld(frames, m, ids, previous, next, results);
      var sorted := ByScore(frames[f]);
      var links, current, after := LinkFrame(previous, sorted, m, next);
      TrackingSnoc(frames, m, ids, previous, next, results, links);
      results := results + Label(sorted, links);
      ids := ids + [links];
      previous, next := current, after;
    }
    LinkedByCentres(frames, reach, ids);
    forall f: nat, j: nat ensures Placed(frames, ids, results, f, j) {
      OutputPlaces(frames, ids, f, j);
    }
  }
}
