/**
 * The frame-driven tween engine of src/Animator.js.
 *
 * The browser's `requestAnimationFrame` queue is a `Host.Queue` of the runs
 * whose next frame is pending; `Date` becomes the `now` of each call; the
 * easing curve is an uninterpreted function.
 */
module Animation {
  import opened Wrappers
  import opened Host

  /** An easing curve `(elapsedMs, from, diffValue, timeMs) -> value`. */
  type Easing = (int, real, real, int) -> real

  /** What the `anim` closure of one `animate` call captures. */
  datatype Run = Run(from: real, diff: real, timeMs: int, start: int) {

    function Target(): real {
      from + diff
    }

    /** The value a frame at clock time `now` hands to the callback. */
    function Value(now: int, easing: Easing): real {
      easing(now - start, from, diff, timeMs)
    }
  }

  /** `animRef` is the Animator's own field; `frames` is the host's frame queue. */
  datatype Animator = Animator(animRef: Option<nat>, frames: Queue<Run>)

  /** The constructor: `animRef` starts as null and nothing is scheduled. */
  function NewAnimator(): (a: Animator)
    ensures Valid(a) && a.animRef.None? && a.frames.pending == map[]
  {
    Animator(None, EmptyQueue())
  }

  /** Reachable states: the only frame that can be pending is the one `animRef` names. */
  predicate Valid(a: Animator) {
    && WellFormed(a.frames)
    && (a.animRef.Some? ==> a.animRef.value < a.frames.next)
    && (forall h :: h in a.frames.pending ==> a.animRef == Some(h))
  }

  /** At most one frame is pending per Animator. */
  lemma AtMostOnePending(a: Animator)
    requires Valid(a)
    ensures |a.frames.pending| <= 1
  {
    if a.frames.pending != map[] {
      var h :| h in a.frames.pending;
      assert a.frames.pending.Keys == {h};
    }
  }

  /** True when the single pending frame belongs to `run`. */
  predicate Tweening(a: Animator, run: Run) {
    a.animRef.Some? && a.frames.pending == map[a.animRef.value := run]
  }

  /** `stopAnimation`: cancels the frame `animRef` names, and never resets `animRef`. */
  function StopAnimation(a: Animator): (r: Animator)
    ensures r.animRef == a.animRef
    ensures a.animRef.None? ==> r == a
    ensures Valid(a) ==> Valid(r) && r.frames.pending == map[]
    ensures forall h :: h in r.frames.pending ==> h in a.frames.pending
  {
    if a.animRef.Some? then a.(frames := Cancel(a.frames, a.animRef.value)) else a
  }

  /**
   * `animate`: stops the current run, then schedules the first frame of a new
   * run that starts at `now`. It delivers no value itself.
   */
  function Animate(a: Animator, from: real, to: real, timeMs: nat, now: int): (r: Animator)
    ensures Valid(a) ==> Valid(r)
    ensures Valid(a) ==> Tweening(r, Run(from, to - from, timeMs, now))
    ensures Valid(a) ==> r.animRef.Some? && r.animRef.value !in a.frames.pending && r.animRef != a.animRef
    ensures Valid(a) ==> r.animRef.value >= a.frames.next
  {
    var stopped := StopAnimation(a);
    var s := Schedule(stopped.frames, Run(from, to - from, timeMs, now));
    Animator(Some(s.handle), s.queue)
  }

  /** `animate({})`: the defaults `from = 0`, `to = 1`, `time = 1` (one second). */
  function AnimateWithDefaults(a: Animator, now: int): (r: Animator)
    ensures Valid(a) ==> Tweening(r, Run(0.0, 1.0, 1000, now))
  {
    Animate(a, 0.0, 1.0, 1000, now)
  }

  /** What a frame does: the animator afterwards and the value passed to `callback`, if any. */
  datatype Fired = Fired(next: Animator, callback: Option<real>)

  /**
   * The host fires frame `h` at clock time `now` (the `anim` closure). While
   * `elapsed <= timeMs` it schedules the next frame and then delivers
   * `easing(elapsed, from, diffValue, timeMs)`; past the duration it delivers
   * nothing and stops.
   */
  function OnFrame(a: Animator, h: nat, now: int, easing: Easing): (r: Fired)
    ensures Valid(a) ==> Valid(r.next)
    ensures h !in a.frames.pending ==> r == Fired(a, None)
    ensures h in a.frames.pending && now - a.frames.pending[h].start <= a.frames.pending[h].timeMs ==>
              && r.callback == Some(a.frames.pending[h].Value(now, easing))
              && (Valid(a) ==> Tweening(r.next, a.frames.pending[h]) && r.next.animRef.value >= a.frames.next)
    ensures h in a.frames.pending && now - a.frames.pending[h].start > a.frames.pending[h].timeMs ==>
              && r.callback == None
              && (Valid(a) ==> r.next.frames.pending == map[])
    ensures r.next.animRef == a.animRef || r.callback.Some?
  {
    if h !in a.frames.pending then Fired(a, None)
    else
      var run := a.frames.pending[h];
      var consumed := a.(frames := Cancel(a.frames, h));
      var elapsed := now - run.start;
      var value := run.Value(now, easing);
      if elapsed <= run.timeMs then
        var s := Schedule(consumed.frames, run);
        Fired(Animator(Some(s.handle), s.queue), Some(value))
      else
        Fired(StopAnimation(consumed), None)
  }

  /** One call into an Animator: `animate`, a frame firing, or `stopAnimation`. */
  datatype Call =
    | AnimateCall(from: real, to: real, timeMs: nat, now: int)
    | FrameCall(handle: nat, now: int)
    | StopCall

  function Apply(a: Animator, c: Call, easing: Easing): (r: Fired)
    ensures !c.FrameCall? ==> r.callback.None?
    ensures Valid(a) ==> Valid(r.next)
  {
    match c
    case AnimateCall(from, to, timeMs, now) => Fired(Animate(a, from, to, timeMs, now), None)
    case FrameCall(h, now) => OnFrame(a, h, now, easing)
    case StopCall => Fired(StopAnimation(a), None)
  }

  /** The final animator and every value delivered to the callback, in order. */
  datatype Trace = Trace(last: Animator, ticks: seq<real>)

  function Replay(a: Animator, calls: seq<Call>, easing: Easing): (r: Trace)
    ensures Valid(a) ==> Valid(r.last)
    ensures |r.ticks| <= |calls|
    decreases |calls|
  {
    if |calls| == 0 then Trace(a, [])
    else
      var f := Apply(a, calls[0], easing);
      var rest := Replay(f.next, calls[1..], easing);
      var first := if f.callback.Some? then [f.callback.value] else [];
      Trace(rest.last, first + rest.ticks)
  }

  predicate NoAnimate(calls: seq<Call>) {
    forall i :: 0 <= i < |calls| ==> !calls[i].AnimateCall?
  }

  /**
   * Once nothing is pending (after `stopAnimation`, or after the frame that
   * ended a run), no callback occurs until the next `animate`.
   */
  lemma {:induction false} SilentUntilAnimate(a: Animator, calls: seq<Call>, easing: Easing)
    requires Valid(a) && a.frames.pending == map[]
    requires NoAnimate(calls)
    ensures Replay(a, calls, easing).ticks == []
    ensures Replay(a, calls, easing).last.frames.pending == map[]
    decreases |calls|
  {
    if |calls| > 0 {
      var f := Apply(a, calls[0], easing);
      assert f.callback.None? && f.next.frames.pending == map[];
      assert NoAnimate(calls[1..]) by {
        forall i | 0 <= i < |calls[1..]| ensures !calls[1..][i].AnimateCall? {
          assert calls[1..][i] == calls[i + 1];
        }
      }
      SilentUntilAnimate(f.next, calls[1..], easing);
    }
  }

  /** Every pending frame belongs to `run` (vacuous when nothing is pending). */
  predicate OnlyRun(a: Animator, run: Run) {
    forall h :: h in a.frames.pending ==> a.frames.pending[h] == run
  }

  /** `v` is a value `run` delivers at some frame no later than its duration. */
  ghost predicate FromRun(v: real, run: Run, easing: Easing) {
    exists now :: now - run.start <= run.timeMs && v == run.Value(now, easing)
  }

  /**
   * Without a new `animate`, every value delivered comes from the current run,
   * at an elapsed time no later than its duration, and depends on nothing but that
   * elapsed time and the run's fixed `from`/`diffValue`/`timeMs`.
   */
  lemma {:induction false} TicksComeFromRun(a: Animator, run: Run, calls: seq<Call>, easing: Easing)
    requires Valid(a) && OnlyRun(a, run)
    requires NoAnimate(calls)
    ensures forall i :: 0 <= i < |Replay(a, calls, easing).ticks| ==> FromRun(Replay(a, calls, easing).ticks[i], run, easing)
    decreases |calls|
  {
    if |calls| > 0 {
      var f := Apply(a, calls[0], easing);
      var rest := Replay(f.next, calls[1..], easing);
      assert OnlyRun(f.next, run);
      if f.callback.Some? {
        var h := calls[0].handle;
        assert h in a.frames.pending;
        assert FromRun(f.callback.value, run, easing) by {
          assert f.callback.value == run.Value(calls[0].now, easing);
        }
      }
      assert NoAnimate(calls[1..]) by {
        forall i | 0 <= i < |calls[1..]| ensures !calls[1..][i].AnimateCall? {
          assert calls[1..][i] == calls[i + 1];
        }
      }
      TicksComeFromRun(f.next, run, calls[1..], easing);
    }
  }

  /**
   * A second `animate` supersedes the first: afterwards, until another
   * `animate`, only the new run delivers values.
   */
  lemma RestartSupersedes(a: Animator, from: real, to: real, timeMs: nat, now: int, calls: seq<Call>, easing: Easing)
    requires Valid(a)
    requires NoAnimate(calls)
    ensures var t := Replay(Animate(a, from, to, timeMs, now), calls, easing);
            forall i :: 0 <= i < |t.ticks| ==> FromRun(t.ticks[i], Run(from, to - from, timeMs, now), easing)
  {
    TicksComeFromRun(Animate(a, from, to, timeMs, now), Run(from, to - from, timeMs, now), calls, easing);
  }

  /** A frame that fires at the very time of `animate` delivers `easing(0, from, to - from, timeMs)`. */
  lemma FirstFrameAtStart(a: Animator, from: real, to: real, timeMs: nat, now: int, easing: Easing)
    requires Valid(a)
    ensures var b := Animate(a, from, to, timeMs, now);
            OnFrame(b, b.animRef.value, now, easing).callback == Some(easing(0, from, to - from, timeMs))
  {
  }
}
