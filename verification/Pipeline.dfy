/** The frame pipeline: detect in every frame, track across frames, crop every face, and report one result per face. */
module Pipeline {

  import opened Tracker
  import opened Geometry
  import opened Wrappers

  datatype Payload = Payload(id: string, height: nat, width: nat)

  /** What the face models and the vector search answer for a face is given. */
  datatype Recognizer = Recognizer(liveness: Tracked -> real, identity: Tracked -> Option<nat>)

  datatype Face = Face(tracked: Tracked, window: Window, live: bool, student: Option<nat>)

  datatype Response = Response(frameCount: nat, detectionCount: nat, trackCount: nat, liveCount: nat, results: seq<Face>)

  function FrameOf(payloads: seq<Payload>, f: nat): Frame
    requires f < |payloads|
  {
    Frame(f, payloads[f].id, payloads[f].height, payloads[f].width)
  }

  /** A detection of this frame: inside it, and tagged with its index. */
  predicate Belongs(payloads: seq<Payload>, d: Detection, f: nat) {
    f < |payloads| && d.frameIndex == f && Inside(d.bbox, payloads[f].height, payloads[f].width)
  }

  predicate AllBelong(payloads: seq<Payload>, ds: seq<Detection>, f: nat) {
    forall i :: 0 <= i < |ds| ==> Belongs(payloads, ds[i], f)
  }

  predicate Located(payloads: seq<Payload>, frames: seq<seq<Detection>>) {
    |frames| <= |payloads| && forall f: nat :: f < |frames| ==> AllBelong(payloads, frames[f], f)
  }

  /** What the tracker returns for these detections. */
  ghost predicate TrackedAs(frames: seq<seq<Detection>>, reach: real, ts: seq<Tracked>, ids: seq<seq<nat>>) {
    && (|frames| <= 1 ==> ts == if frames == [] then [] else Sentinels(frames[0]))
    && (|frames| >= 2 ==> Assigned(frames, Euclid(reach), ids) && |ids| == |frames| && ts == Output(frames, ids))
  }

  lemma {:induction false} InSomeFrame(frames: seq<seq<Detection>>, d: Detection) returns (f: nat)
    requires d in Bag(frames)
    ensures f < |frames| && d in frames[f]
  {
    f := |frames| - 1;
    if d !in frames[f] {
      f := InSomeFrame(frames[..f], d);
    }
  }

  /** Every tracked detection is one of the parsed detections, so it crops. */
  lemma TrackedBelongs(payloads: seq<Payload>, frames: seq<seq<Detection>>, reach: real, ts: seq<Tracked>, ids: seq<seq<nat>>, i: nat)
    requires Located(payloads, frames) && TrackedAs(frames, reach, ts, ids) && i < |ts|
    ensures Belongs(payloads, ts[i].detection, ts[i].detection.frameIndex)
  {
    var d := ts[i].detection;
    if |frames| <= 1 {
      assert d == frames[0][i];
      assert AllBelong(payloads, frames[0], 0);
    } else {
      OutputKeepsDetections(frames, ids);
      assert Strip(ts)[i] == d;
      assert d in Bag(frames);
      var f := InSomeFrame(frames, d);
      assert AllBelong(payloads, frames[f], f);
    }
  }

  /** The result of one tracked face. */
  ghost predicate Reports(face: Face, t: Tracked, payloads: seq<Payload>, r: Recognizer, threshold: real) {
    var f := t.detection.frameIndex;
    && face.tracked == t && f < |payloads|
    && CropWindow(t.detection.bbox, payloads[f].height, payloads[f].width) == Some(face.window)
    && face.live == (r.liveness(t) >= threshold) && face.student == r.identity(t)
  }

  function TrackIds(ts: seq<Tracked>): set<int> {
    set i | 0 <= i < |ts| :: ts[i].trackId
  }

  function Live(faces: seq<Face>): nat {
    if faces == [] then 0 else Live(faces[..|faces| - 1]) + (if faces[|faces| - 1].live then 1 else 0)
  }

  lemma {:induction false} LiveCounts(faces: seq<Face>)
    ensures Live(faces) == |set i | 0 <= i < |faces| && faces[i].live|
  {
    if faces != [] {
      var k := |faces| - 1;
      LiveCounts(faces[..k]);
      var before := set i | 0 <= i < k && faces[..k][i].live;
      assert before == set i | 0 <= i < k && faces[i].live;
      assert (set i | 0 <= i < |faces| && faces[i].live) == before + if faces[k].live then {k} else {};
    }
  }

  /** The detections of a frame are its rows, all decoded with the one format resolved for it. */
  ghost predicate Parsed(payloads: seq<Payload>, rows: seq<seq<Row>>, score: Scorer, threshold: real, configured: Configured,
                         frames: seq<seq<Detection>>, f: nat) {
    f < |frames| && f < |payloads| && f < |rows| &&
    exists format, normalized ::
      ResolvedTo(rows[f], configured, format, normalized) &&
      frames[f] == ParseRows(FrameOf(payloads, f), rows[f], score, threshold, format, normalized)
  }

  /** Detections, frame by frame. */
  method Detect(payloads: seq<Payload>, rows: seq<seq<Row>>, score: Scorer, threshold: real, configured: Configured)
    returns (frames: seq<seq<Detection>>)
    requires |rows| == |payloads| && forall f: nat :: f < |payloads| ==> payloads[f].height >= 1 && payloads[f].width >= 1
    ensures |frames| == |payloads| && Located(payloads, frames)
    ensures forall f: nat :: f < |frames| ==> Parsed(payloads, rows, score, threshold, configured, frames, f)
  {
    frames := [];
    for f := 0 to |payloads|
      invariant |frames| == f && Located(payloads, frames)
      invariant forall g: nat :: g < f ==> Parsed(payloads, rows, score, threshold, configured, frames, g)
    {
      var ds, format, normalized := ParseDetections(FrameOf(payloads, f), rows[f], score, threshold, configured);
      ParsedBelong(payloads, f, rows[f], score, threshold, format, normalized);
      ghost var before := frames;
      frames := frames + [ds];
      forall g: nat | g < |frames|
        ensures AllBelong(payloads, frames[g], g) && Parsed(payloads, rows, score, threshold, configured, frames, g)
      {
        if g < f {
          assert AllBelong(payloads, before[g], g) && Parsed(payloads, rows, score, threshold, configured, before, g);
        }
      }
    }
  }

  lemma {:induction false} ParsedBelong(payloads: seq<Payload>, f: nat, rows: seq<Row>, score: Scorer, threshold: real,
                                        format: Format, normalized: bool)
    requires f < |payloads| && payloads[f].height >= 1 && payloads[f].width >= 1
    ensures AllBelong(payloads, ParseRows(FrameOf(payloads, f), rows, score, threshold, format, normalized), f)
  {
    if rows != [] {
      ParsedBelong(payloads, f, rows[..|rows| - 1], score, threshold, format, normalized);
      var r := rows[|rows| - 1];
      if |r| >= 5 {
        DecodesIffOverlaps(r, payloads[f].height, payloads[f].width, format, normalized);
      }
    }
  }

  ghost predicate Cropped(crop: (Tracked, Window), t: Tracked, payloads: seq<Payload>) {
    var f := t.detection.frameIndex;
    crop.0 == t && f < |payloads| && CropWindow(t.detection.bbox, payloads[f].height, payloads[f].width) == Some(crop.1)
  }

  /** A face whose crop is empty is dropped; no tracked face is. */
  method CropFaces(payloads: seq<Payload>, ts: seq<Tracked>) returns (crops: seq<(Tracked, Window)>)
    requires forall i: nat :: i < |ts| ==> Belongs(payloads, ts[i].detection, ts[i].detection.frameIndex)
    ensures |crops| == |ts| && forall i: nat :: i < |ts| ==> Cropped(crops[i], ts[i], payloads)
  {
    crops := [];
    for i := 0 to |ts|
      invariant |crops| == i
      invariant forall k: nat :: k < i ==> Cropped(crops[k], ts[k], payloads)
    {
      var d := ts[i].detection;
      assert Belongs(payloads, d, d.frameIndex);
      ParsedBoxCrops(d.bbox, payloads[d.frameIndex].height, payloads[d.frameIndex].width);
      var w := CropWindow(d.bbox, payloads[d.frameIndex].height, payloads[d.frameIndex].width);
      if w.Some? {
        crops := crops + [(ts[i], w.value)];
      }
    }
  }

  method ReportFaces(payloads: seq<Payload>, ghost ts: seq<Tracked>, crops: seq<(Tracked, Window)>, r: Recognizer, threshold: real)
    returns (faces: seq<Face>, live: nat)
    requires |crops| == |ts| && forall i: nat :: i < |ts| ==> Cropped(crops[i], ts[i], payloads)
    ensures |faces| == |ts| && live == Live(faces)
    ensures forall i: nat :: i < |ts| ==> Reports(faces[i], ts[i], payloads, r, threshold)
  {
    faces, live := [], 0;
    for i := 0 to |crops|
      invariant |faces| == i && live == Live(faces)
      invariant forall k: nat :: k < i ==> Reports(faces[k], ts[k], payloads, r, threshold)
    {
      assert Cropped(crops[i], ts[i], payloads);
      var t := crops[i].0;
      var face := Face(t, crops[i].1, r.liveness(t) >= threshold, r.identity(t));
      live := live + if face.live then 1 else 0;
      assert (faces + [face])[..i] == faces;
      faces := faces + [face];
    }
  }

  /** process_inference_batch: every detection that was tracked is reported, once and in the tracker's order. */
  method ProcessInferenceBatch(payloads: seq<Payload>, rows: seq<seq<Row>>, score: Scorer, threshold: real, configured: Configured,
                               reach: real, r: Recognizer, livenessThreshold: real)
    returns (response: Response, ghost frames: seq<seq<Detection>>, ghost tracked: seq<Tracked>, ghost ids: seq<seq<nat>>)
    requires |rows| == |payloads| && forall f: nat :: f < |payloads| ==> payloads[f].height >= 1 && payloads[f].width >= 1
    ensures |frames| == |payloads| && Located(payloads, frames) && TrackedAs(frames, reach, tracked, ids)
    ensures forall f: nat :: f < |frames| ==> Parsed(payloads, rows, score, threshold, configured, frames, f)
    ensures response.frameCount == |payloads| && response.detectionCount == |tracked| == |response.results|
    ensures forall i: nat :: i < |tracked| ==> Reports(response.results[i], tracked[i], payloads, r, livenessThreshold)
    ensures response.trackCount == |TrackIds(tracked)| && response.liveCount == Live(response.results)
    ensures response.trackCount == |set i | 0 <= i < |tracked| :: response.results[i].tracked.trackId|
    ensures response.liveCount == |set i | 0 <= i < |tracked| && response.results[i].live|
  {
    var detected := Detect(payloads, rows, score, threshold, configured);
    frames := detected;
    var ts;
    ts, ids := TrackDetections(detected, reach);
    tracked := ts;
    forall i: nat | i < |ts| ensures Belongs(payloads, ts[i].detection, ts[i].detection.frameIndex) {
      TrackedBelongs(payloads, detected, reach, ts, ids, i);
    }
    var crops := CropFaces(payloads, ts);
    var faces, live := ReportFaces(payloads, ts, crops, r, livenessThreshold);
    response := Response(|payloads|, |ts|, |TrackIds(ts)|, live, faces);
    LiveCounts(faces);
    assert forall i: nat :: i < |ts| ==> Reports(faces[i], ts[i], payloads, r, livenessThreshold);
    assert TrackIds(ts) == set i | 0 <= i < |ts| :: faces[i].tracked.trackId;
  }

  /** How many results a batch has: as many as detections were parsed, over all its frames. */
  lemma OneResultPerDetection(frames: seq<seq<Detection>>, reach: real, tracked: seq<Tracked>, ids: seq<seq<nat>>)
    requires TrackedAs(frames, reach, tracked, ids)
    ensures |tracked| == |Bag(frames)|
    ensures multiset(Strip(tracked)) == Bag(frames)
  {
    if |frames| >= 2 {
      OutputKeepsDetections(frames, ids);
    } else if |frames| == 1 {
      assert frames[..0] == [];
      assert Strip(tracked) == frames[0];
    }
    assert |multiset(Strip(tracked))| == |tracked|;
  }
}
