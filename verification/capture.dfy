/** The capture loop: one iteration per camera frame, accumulating faces until six
    exist, with a settle window after each capture and an operator prompt telling
    how to turn the cube next. The camera, the display and the quit key are
    inputs: each frame arrives as what the face scan would return for it and
    whether the quit key was pressed during it. */
module Capture {
  import opened Wrappers
  import opened CubeTypes
  import opened CubeLabels

  /** The number of faces a full scan needs. */
  const FacesNeeded: nat := 6
  /** Scanning is re-enabled at the start of an iteration whose loop counter
      exceeds this. */
  const SettleFrames: nat := 100

  datatype Prompt = RotateLeft | RotateUp | RotateUpTwice

  function PromptText(p: Prompt): string {
    match p
    case RotateLeft => "Rotate Cube to the Left"
    case RotateUp => "Rotate Cube Up"
    case RotateUpTwice => "Rotate Cube Up Twice"
  }

  /** The prompt shown after the `faces`-th capture: turn left after the first
      three, up after the fourth, up twice after the fifth, nothing after the sixth. */
  function PromptFor(faces: nat): (p: Option<Prompt>)
    ensures p == Some(RotateLeft) <==> 1 <= faces <= 3
    ensures p == Some(RotateUp) <==> faces == 4
    ensures p == Some(RotateUpTwice) <==> faces == 5
    ensures p == None <==> faces == 0 || faces >= 6
  {
    if 1 <= faces <= 3 then Some(RotateLeft)
    else if faces == 4 then Some(RotateUp)
    else if faces == 5 then Some(RotateUpTwice)
    else None
  }

  /** The scan session: whether the next frame is scanned, the loop counter, and
      the faces captured so far in capture order. */
  datatype Session = Session(scanNow: bool, loops: nat, sides: seq<Face>)

  const Initial := Session(true, 0, [])

  /** What every session reached from `Initial` satisfies between iterations: the
      counter is 0 only before the first iteration, when scanning is on. */
  predicate Reachable(st: Session) {
    (st.loops == 0 ==> st.scanNow) && |st.sides| <= FacesNeeded
  }

  /** One frame: what scanning it would give, and whether quit was pressed. */
  datatype Frame = Frame(scanned: Option<Face>, quitPressed: bool)

  /** The effects of one iteration. `result` is the resolved cube, present in the
      iteration that captures the sixth face. */
  datatype Iteration = Iteration(next: Session, prompt: Option<Prompt>, result: Option<CubeScan>)

  /** Whether the iteration scans at all: scanning is on, or re-enabled because
      the settle window is over. */
  predicate Armed(st: Session) {
    st.loops > SettleFrames || st.scanNow
  }

  /** One loop iteration on a frame whose scan would give `scanned`. `cluster` is
      the clustering of the 54 colour samples into labels. */
  function Step(st: Session, scanned: Option<Face>, cluster: seq<Bgr> -> seq<int>): (it: Iteration)
    requires |st.sides| < FacesNeeded
    ensures Armed(st) && scanned.Some? ==>
      it.next == Session(false, 1, st.sides + [scanned.value])
    ensures !(Armed(st) && scanned.Some?) ==>
      it.next == Session(Armed(st), st.loops + 1, st.sides)
    ensures Reachable(it.next)
    ensures Reachable(st) ==>
      it.prompt == (if Armed(st) && scanned.Some? then PromptFor(|it.next.sides|) else None)
    ensures it.result.Some? <==> |it.next.sides| == FacesNeeded
    ensures it.result.Some? ==>
      it.result.value == Resolve(it.next.sides, cluster(Flatten(it.next.sides)))
  {
    var scanNow := if st.loops > SettleFrames then true else st.scanNow;
    var captured := if scanNow then scanned else None;
    var sides := if captured.Some? then st.sides + [captured.value] else st.sides;
    var scanNow' := if captured.Some? then false else scanNow;
    var loops := if captured.Some? then 0 else st.loops;
    var prompt := if !scanNow' && loops == 0 then PromptFor(|sides|) else None;
    var result := if |sides| > 5 then Some(Resolve(sides, cluster(Flatten(sides)))) else None;
    assert captured.Some? <==> Armed(st) && scanned.Some?;
    assert captured.Some? ==> sides == st.sides + [scanned.value] && loops + 1 == 1;
    Iteration(Session(scanNow', loops + 1, sides), prompt, result)
  }

  /** What a run of the loop over a sequence of frames produces: the final
      session, the prompts shown in order, and the resolved cube if it got that far. */
  datatype RunResult = RunResult(final: Session, prompts: seq<Prompt>, result: Option<CubeScan>)

  /** The loop: iterate while fewer than six faces exist and frames remain; an
      iteration whose frame had quit pressed is the last one. */
  function Run(st: Session, frames: seq<Frame>, cluster: seq<Bgr> -> seq<int>): (r: RunResult)
    requires |st.sides| <= FacesNeeded
    ensures |st.sides| <= |r.final.sides| <= FacesNeeded
    ensures r.final.sides[..|st.sides|] == st.sides
    decreases |frames|
  {
    if |st.sides| >= FacesNeeded || frames == [] then RunResult(st, [], None)
    else
      var it := Step(st, frames[0].scanned, cluster);
      var rest :=
        if frames[0].quitPressed then RunResult(it.next, [], None)
        else Run(it.next, frames[1..], cluster);
      RunResult(rest.final, ToSeq(it.prompt) + rest.prompts,
                if it.result.Some? then it.result else rest.result)
  }

  /** The prompts due while the face count goes from `from` to `to`. */
  function PromptsBetween(from: nat, to: nat): seq<Prompt>
    decreases to - from
  {
    if from >= to then [] else ToSeq(PromptFor(from + 1)) + PromptsBetween(from + 1, to)
  }

  /** A full scan prompts exactly left, left, left, up, up twice. */
  lemma FullScanPrompts()
    ensures PromptsBetween(0, 6) == [RotateLeft, RotateLeft, RotateLeft, RotateUp, RotateUpTwice]
  {
  }

  /** Faces are only ever appended, at most one per frame and in frame order:
      `js` lists, for each face the run adds, the frame it was scanned from, and
      these frames strictly increase. */
  lemma {:induction false} RunAppendsFaces(st: Session, frames: seq<Frame>, cluster: seq<Bgr> -> seq<int>)
    returns (js: seq<nat>)
    requires |st.sides| <= FacesNeeded
    ensures var r := Run(st, frames, cluster);
      && |js| == |r.final.sides| - |st.sides|
      && (forall k | 0 <= k < |js| ::
            js[k] < |frames| && frames[js[k]].scanned == Some(r.final.sides[|st.sides| + k]))
      && (forall k, l | 0 <= k < l < |js| :: js[k] < js[l])
    decreases |frames|
  {
    if |st.sides| >= FacesNeeded || frames == [] {
      js := [];
    } else {
      var it := Step(st, frames[0].scanned, cluster);
      var first := FirstFrame(st, frames, cluster);
      var rest: seq<nat> := [];
      if !frames[0].quitPressed {
        rest := RunAppendsFaces(it.next, frames[1..], cluster);
      }
      js := first + Later(rest);
      PrependFrame(frames, Run(st, frames, cluster).final.sides, |st.sides|, first, rest);
    }
  }

  /** What the first frame of a run contributes: `[0]` if it was captured,
      nothing otherwise, and the rest of the run starts from there. */
  lemma FirstFrame(st: Session, frames: seq<Frame>, cluster: seq<Bgr> -> seq<int>) returns (first: seq<nat>)
    requires |st.sides| < FacesNeeded && frames != []
    ensures var it := Step(st, frames[0].scanned, cluster);
      var sides := Run(st, frames, cluster).final.sides;
      && (first == [] || first == [0])
      && |it.next.sides| == |st.sides| + |first|
      && (first != [] ==> |st.sides| < |sides| && frames[0].scanned == Some(sides[|st.sides|]))
      && sides == (if frames[0].quitPressed then it.next.sides
                   else Run(it.next, frames[1..], cluster).final.sides)
  {
    var it := Step(st, frames[0].scanned, cluster);
    var sides := Run(st, frames, cluster).final.sides;
    first := if |it.next.sides| > |st.sides| then [0] else [];
    assert sides[..|it.next.sides|] == it.next.sides;
    if first != [] {
      assert it.next.sides[|st.sides|] == sides[|st.sides|];
    }
  }

  /** Joins the face captured by the first frame, if any, to the faces the rest
      of the frames captured. */
  lemma PrependFrame(frames: seq<Frame>, sides: seq<Face>, base: nat, first: seq<nat>, rest: seq<nat>)
    requires frames != [] && (first == [] || first == [0])
    requires first != [] ==> base < |sides| && frames[0].scanned == Some(sides[base])
    requires base + |first| + |rest| <= |sides|
    requires forall k | 0 <= k < |rest| ::
      rest[k] < |frames[1..]| && frames[1..][rest[k]].scanned == Some(sides[base + |first| + k])
    requires forall k, l | 0 <= k < l < |rest| :: rest[k] < rest[l]
    ensures var js := first + Later(rest);
      && (forall k | 0 <= k < |js| :: js[k] < |frames| && frames[js[k]].scanned == Some(sides[base + k]))
      && (forall k, l | 0 <= k < l < |js| :: js[k] < js[l])
  {
    var js := first + Later(rest);
    forall k | 0 <= k < |js| ensures js[k] < |frames| && frames[js[k]].scanned == Some(sides[base + k]) {
      if k >= |first| {
        assert js[k] == rest[k - |first|] + 1;
      }
    }
  }

  /** Frame indices of a run on `frames[1..]`, as indices into `frames`. */
  function Later(js: seq<nat>): (r: seq<nat>)
    ensures |r| == |js|
    ensures forall k | 0 <= k < |js| :: r[k] == js[k] + 1
  {
    seq(|js|, k requires 0 <= k < |js| => js[k] + 1)
  }

  /** Prompts depend on the face count alone: a run shows exactly the prompts due
      for the faces it captured, one per capture, whatever the timing. */
  lemma {:induction false} RunPrompts(st: Session, frames: seq<Frame>, cluster: seq<Bgr> -> seq<int>)
    requires Reachable(st)
    ensures var r := Run(st, frames, cluster);
      r.prompts == PromptsBetween(|st.sides|, |r.final.sides|)
    decreases |frames|
  {
    if |st.sides| < FacesNeeded && frames != [] {
      var it := Step(st, frames[0].scanned, cluster);
      var r := Run(st, frames, cluster);
      var rest :=
        if frames[0].quitPressed then RunResult(it.next, [], None)
        else Run(it.next, frames[1..], cluster);
      assert r.prompts == ToSeq(it.prompt) + rest.prompts && r.final == rest.final;
      if !frames[0].quitPressed {
        RunPrompts(it.next, frames[1..], cluster);
      }
      assert rest.prompts == PromptsBetween(|it.next.sides|, |r.final.sides|);
      assert |it.next.sides| <= |r.final.sides|;
      if Armed(st) && frames[0].scanned.Some? {
        assert it.prompt == PromptFor(|st.sides| + 1);
      } else {
        assert ToSeq(it.prompt) == [];
        assert it.next.sides == st.sides;
      }
    }
  }

  /** The cube is resolved exactly once: a run yields a result exactly when it
      captures the sixth face, and the result resolves the six faces with the
      labels the clustering gives their 54 colours. */
  lemma {:induction false} RunResolvesOnce(st: Session, frames: seq<Frame>, cluster: seq<Bgr> -> seq<int>)
    requires |st.sides| <= FacesNeeded
    ensures var r := Run(st, frames, cluster);
      && (r.result.Some? <==> |st.sides| < FacesNeeded && |r.final.sides| == FacesNeeded)
      && (r.result.Some? ==>
            r.result.value == Resolve(r.final.sides, cluster(Flatten(r.final.sides))))
    decreases |frames|
  {
    if |st.sides| >= FacesNeeded || frames == [] {
    } else {
      var it := Step(st, frames[0].scanned, cluster);
      if !frames[0].quitPressed {
        RunResolvesOnce(it.next, frames[1..], cluster);
      }
    }
  }

  /** End to end: when a run resolves the cube and the clustering labels all 54
      samples, every face name maps to its captured face and to nine labels,
      the label at position p of the face captured q-th being the one given to
      the colour of that face's square p. */
  lemma {:induction false} ResolvedCube(st: Session, frames: seq<Frame>, cluster: seq<Bgr> -> seq<int>)
    requires |st.sides| <= FacesNeeded
    ensures var r := Run(st, frames, cluster);
      var labels := cluster(Flatten(r.final.sides));
      r.result.Some? && |labels| == 54 ==>
      && |r.final.sides| == FacesNeeded
      && (forall q | 0 <= q < 6 ::
            SideLabel(q) in r.result.value.sides && r.result.value.sides[SideLabel(q)] == r.final.sides[q])
      && (forall f :: f in r.result.value.cube && |r.result.value.cube[f]| == 9)
      && (forall q, p | 0 <= q < 6 && 0 <= p < 9 ::
            r.result.value.cube[SideLabel(q)][p] == labels[9 * q + p])
  {
    RunResolvesOnce(st, frames, cluster);
    var r := Run(st, frames, cluster);
    var labels := cluster(Flatten(r.final.sides));
    if r.result.Some? && |labels| == 54 {
      SplitFullScan(labels);
    }
  }

  /** The settle window: while scanning is off, no face is captured until an
      iteration starts with the counter above 100. After a capture the counter is
      1, so the next 100 frames capture nothing. */
  lemma {:induction false} SettleWindow(st: Session, frames: seq<Frame>, cluster: seq<Bgr> -> seq<int>)
    requires |st.sides| <= FacesNeeded
    requires !st.scanNow && st.loops + |frames| <= SettleFrames + 1
    ensures Run(st, frames, cluster).final.sides == st.sides
    decreases |frames|
  {
    if |st.sides| >= FacesNeeded || frames == [] {
    } else {
      var it := Step(st, frames[0].scanned, cluster);
      assert !Armed(st);
      if !frames[0].quitPressed {
        SettleWindow(it.next, frames[1..], cluster);
      }
    }
  }

  /** Once the counter exceeds 100, the next frame that yields a face is captured. */
  lemma Rearmed(st: Session, face: Face, cluster: seq<Bgr> -> seq<int>)
    requires |st.sides| < FacesNeeded && st.loops > SettleFrames
    ensures Step(st, Some(face), cluster).next.sides == st.sides + [face]
  {
  }
}
