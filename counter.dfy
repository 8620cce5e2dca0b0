/** The visibility-gated count-up card: the observer callback that latches
    `isVisible`, the animation effect that starts a frame loop, and the
    `animate` closure that runs once per display frame.

    Every run of the animation effect creates a fresh `animate` closure with its
    own `startTime` and its own captured `endValue` and `duration`, and requests
    its first frame; nothing ever cancels a request. A closure is modelled by the
    value `Loop`; the card as written keeps every closure it ever started in
    `loops`, and the browser may call any pending one with the frame timestamp. */
module Counter {
  import opened Wrappers
  import opened Easing

  /** One `animate` closure: its `startTime` (null until its first frame), the
      `endValue` and `duration` it captured, and whether it has a frame request
      outstanding. */
  datatype Loop = Loop(startTime: Option<int>, endValue: int, duration: int, pending: bool)

  ghost predicate WellFormed(l: Loop)
  {
    l.duration > 0 && (l.startTime.None? ==> l.pending)
  }

  /** The closure created by one run of the animation effect, with its first
      frame requested. */
  function StartLoop(endValue: int, duration: int): Loop
  {
    Loop(None, endValue, duration, true)
  }

  /** The start time a frame at `t` uses: the recorded one, or `t` itself on
      the first frame. */
  function StartOf(l: Loop, t: int): int
  {
    if l.startTime.Some? then l.startTime.value else t
  }

  /** One call `animate(t)`: the closure's new state and the count passed to
      `setCount`. */
  function Animate(l: Loop, t: int): (r: (Loop, int))
    requires l.duration > 0
    ensures r.0.endValue == l.endValue && r.0.duration == l.duration
    ensures r.0.startTime.Some?
    ensures l.startTime.Some? ==> r.0.startTime == l.startTime
    ensures l.startTime.None? ==> r.0.startTime == Some(t)
  {
    var start := StartOf(l, t);
    var progress := Progress(t - start, l.duration);
    var count := FrameCount(l.endValue, t - start, l.duration);
    (l.(startTime := Some(start), pending := progress < 1.0), count)
  }

  /** The first frame fixes the start time to its own timestamp, so its
      elapsed time is 0, it shows 0 and it requests another frame. */
  lemma AnimateFirstFrame(l: Loop, t: int)
    requires l.duration > 0 && l.startTime.None?
    ensures Animate(l, t).0.startTime == Some(t)
    ensures Animate(l, t).1 == 0
    ensures Animate(l, t).0.pending
  {
    FrameCountAtStart(l.endValue, l.duration);
    ProgressBelowOne(0, l.duration);
  }

  /** Another frame is requested exactly when the elapsed time is still below
      the duration (`progress < 1`). */
  lemma AnimateSchedulesIff(l: Loop, t: int)
    requires l.duration > 0
    ensures Animate(l, t).0.pending <==> t - StartOf(l, t) < l.duration
  {
    ProgressBelowOne(t - StartOf(l, t), l.duration);
  }

  /** The frame at or past the duration shows exactly the target and requests
      no further frame; and a frame that requests none is such a frame. */
  lemma AnimateFinalFrame(l: Loop, t: int)
    requires l.duration > 0
    ensures !Animate(l, t).0.pending <==> t - StartOf(l, t) >= l.duration
    ensures !Animate(l, t).0.pending ==> Animate(l, t).1 == l.endValue
  {
    AnimateSchedulesIff(l, t);
    if t - StartOf(l, t) >= l.duration {
      FrameCountAtEnd(l.endValue, t - StartOf(l, t), l.duration);
    }
  }

  /** A frame no earlier than the start shows a count between 0 and the
      (non-negative) target. */
  lemma AnimateBounds(l: Loop, t: int)
    requires l.duration > 0 && l.endValue >= 0 && StartOf(l, t) <= t
    ensures 0 <= Animate(l, t).1 <= l.endValue
  {
    FrameCountBounds(l.endValue, t - StartOf(l, t), l.duration);
  }

  // ---------------------------------------------------------------------------
  // One closure over a sequence of frames

  ghost predicate NonDecreasing(s: seq<int>)
  {
    forall i, j :: 0 <= i <= j < |s| ==> s[i] <= s[j]
  }

  /** The closure `l` run on frames at the timestamps `ts`: it is called while
      it has a frame request outstanding, and ignores later timestamps once it
      has stopped. Returns its final state and the counts it showed. */
  function Run(l: Loop, ts: seq<int>): (r: (Loop, seq<int>))
    requires l.duration > 0
    ensures r.0.endValue == l.endValue && r.0.duration == l.duration
    ensures |r.1| <= |ts|
    decreases |ts|
  {
    if ts == [] || !l.pending then (l, [])
    else
      var (next, c) := Animate(l, ts[0]);
      var (last, cs) := Run(next, ts[1..]);
      (last, [c] + cs)
  }

  /** Every count a started closure shows on frames no earlier than `lo` lies
      between the count at `lo` and the target. */
  lemma {:induction false} RunCountsBetween(l: Loop, ts: seq<int>, lo: int)
    requires l.duration > 0 && l.endValue >= 0 && l.startTime.Some?
    requires l.startTime.value <= lo
    requires forall i :: 0 <= i < |ts| ==> lo <= ts[i]
    ensures forall c :: c in Run(l, ts).1 ==>
      FrameCount(l.endValue, lo - l.startTime.value, l.duration) <= c <= l.endValue
    decreases |ts|
  {
    if ts != [] && l.pending {
      var (next, c) := Animate(l, ts[0]);
      FrameCountMonotone(l.endValue, lo - l.startTime.value, ts[0] - l.startTime.value, l.duration);
      AnimateBounds(l, ts[0]);
      RunCountsBetween(next, ts[1..], lo);
    }
  }

  /** For a non-negative target and non-decreasing timestamps, the counts a
      closure shows are non-negative, never exceed the target and never
      decrease. */
  lemma {:induction false} RunMonotone(l: Loop, ts: seq<int>)
    requires l.duration > 0 && l.endValue >= 0
    requires NonDecreasing(ts)
    requires l.startTime.Some? ==> forall i :: 0 <= i < |ts| ==> l.startTime.value <= ts[i]
    ensures NonDecreasing(Run(l, ts).1)
    ensures forall c :: c in Run(l, ts).1 ==> 0 <= c <= l.endValue
    decreases |ts|
  {
    if ts != [] && l.pending {
      var (next, c) := Animate(l, ts[0]);
      var s := StartOf(l, ts[0]);
      var rest := Run(next, ts[1..]).1;
      assert Run(l, ts).1 == [c] + rest;
      RunCountsBetween(next, ts[1..], ts[0]);
      FrameCountBounds(l.endValue, ts[0] - s, l.duration);
      RunMonotone(next, ts[1..]);
      assert forall j :: 0 <= j < |rest| ==> c <= rest[j] by {
        forall j | 0 <= j < |rest| ensures c <= rest[j] {
          assert rest[j] in rest;
        }
      }
    }
  }

  /** Once a frame reaches `startTime + duration`, the run stops there: every
      earlier frame was before the end and requested another, the last one
      shows exactly the target, and no further frame is requested. */
  lemma {:induction false} RunFinishes(l: Loop, ts: seq<int>, k: nat)
    requires l.duration > 0 && l.pending
    requires k < |ts| && ts[k] - StartOf(l, ts[0]) >= l.duration
    ensures !Run(l, ts).0.pending
    ensures 0 < |Run(l, ts).1| <= k + 1
    ensures Run(l, ts).1[|Run(l, ts).1| - 1] == l.endValue
    ensures forall i :: 0 <= i < |Run(l, ts).1| - 1 ==> ts[i] - StartOf(l, ts[0]) < l.duration
    decreases |ts|
  {
    var (next, c) := Animate(l, ts[0]);
    var s := StartOf(l, ts[0]);
    AnimateFinalFrame(l, ts[0]);
    if next.pending {
      assert k > 0;
      assert StartOf(next, ts[1..][0]) == s;
      RunFinishes(next, ts[1..], k - 1);
      var cs := Run(next, ts[1..]).1;
      assert Run(l, ts).1 == [c] + cs;
      forall i | 0 <= i < |Run(l, ts).1| - 1
        ensures ts[i] - s < l.duration
      {
        if i > 0 { assert ts[i] == ts[1..][i - 1]; }
      }
    } else {
      assert Run(next, ts[1..]) == (next, []);
    }
  }

  // ---------------------------------------------------------------------------
  // The observer callback

  /** The IntersectionObserver callback: for each entry, if it is intersecting
      and the card was not yet visible when the callback was created, set
      `isVisible` to true. Returns the new `isVisible`: it only ever goes from
      false to true. */
  method ObserverCallback(isVisible: bool, entries: seq<bool>) returns (visible: bool)
    ensures visible <==> isVisible || true in entries
    ensures isVisible ==> visible
  {
    visible := isVisible;
    var i := 0;
    while i < |entries|
      invariant 0 <= i <= |entries|
      invariant visible <==> isVisible || true in entries[..i]
    {
      assert entries[..i + 1] == entries[..i] + [entries[i]];
      if entries[i] && !isVisible {
        visible := true;
      }
      i := i + 1;
    }
    assert entries[..i] == entries;
  }

  // ---------------------------------------------------------------------------
  // The card as written: no frame request is ever cancelled

  class CounterCard {
    var targetValue: int
    var duration: int
    var count: int
    var isVisible: bool
    /** Every `animate` closure the animation effect has started, oldest first. */
    var loops: seq<Loop>

    ghost predicate Valid()
      reads this
    {
      && duration > 0
      && (forall i :: 0 <= i < |loops| ==> WellFormed(loops[i]))
      && (!isVisible ==> loops == [] && count == 0)
      && (isVisible ==> loops != []
                        && loops[|loops| - 1].endValue == targetValue
                        && loops[|loops| - 1].duration == duration)
    }

    /** Some closure still has a frame request outstanding. */
    predicate Animating()
      reads this
    {
      exists i :: 0 <= i < |loops| && loops[i].pending
    }

    /** Mount: count 0, not visible, no frame requested. */
    constructor (targetValue: int, duration: int)
      requires duration > 0
      ensures Valid()
      ensures this.targetValue == targetValue && this.duration == duration
      ensures count == 0 && !isVisible && loops == []
    {
      this.targetValue := targetValue;
      this.duration := duration;
      count := 0;
      isVisible := false;
      loops := [];
    }

    /** The animation effect, run after a render in which `isVisible`,
        `targetValue` or `duration` changed: nothing while not visible,
        otherwise a new closure with the current props and its first frame
        requested. Earlier closures keep running. */
    method AnimationEffect()
      requires duration > 0
      requires forall i :: 0 <= i < |loops| ==> WellFormed(loops[i])
      requires !isVisible ==> loops == [] && count == 0
      modifies this
      ensures Valid()
      ensures loops == if isVisible then old(loops) + [StartLoop(targetValue, duration)] else old(loops)
      ensures unchanged(this`targetValue, this`duration, this`count, this`isVisible)
    {
      if !isVisible {
        return;
      }
      loops := loops + [StartLoop(targetValue, duration)];
    }

    /** The observer reports intersection entries; if `isVisible` changes,
        the animation effect runs. */
    method Observe(entries: seq<bool>)
      requires Valid()
      modifies this
      ensures Valid()
      ensures isVisible <==> old(isVisible) || true in entries
      ensures old(isVisible) ==> isVisible
      ensures loops == if isVisible && !old(isVisible)
                       then old(loops) + [StartLoop(targetValue, duration)]
                       else old(loops)
      ensures unchanged(this`targetValue, this`duration, this`count)
    {
      var visible := ObserverCallback(isVisible, entries);
      if visible != isVisible {
        isVisible := visible;
        AnimationEffect();
      }
    }

    /** The parent re-renders the card with new props; if either changed, the
        animation effect runs again. */
    method SetProps(newTarget: int, newDuration: int)
      requires Valid() && newDuration > 0
      modifies this
      ensures Valid()
      ensures targetValue == newTarget && duration == newDuration
      ensures loops == if isVisible && (newTarget != old(targetValue) || newDuration != old(duration))
                       then old(loops) + [StartLoop(newTarget, newDuration)]
                       else old(loops)
      ensures unchanged(this`count, this`isVisible)
    {
      var changed := newTarget != targetValue || newDuration != duration;
      targetValue, duration := newTarget, newDuration;
      if changed {
        AnimationEffect();
      }
    }

    /** The browser calls the pending closure `loops[i]` with the frame
        timestamp `t`. */
    method AnimateFrame(i: nat, t: int)
      requires Valid() && i < |loops| && loops[i].pending
      modifies this
      ensures Valid()
      ensures loops == old(loops)[i := Animate(old(loops)[i], t).0]
      ensures count == Animate(old(loops)[i], t).1
      ensures unchanged(this`targetValue, this`duration, this`isVisible)
    {
      var next, c := Animate(loops[i], t).0, Animate(loops[i], t).1;
      loops := loops[i := next];
      count := c;
    }
  }

  /** A card showing 100 over 1000 ms is re-rendered with 50 over 10 ms after
      its first frame. The new closure reaches 50 at 110 ms, but the old one is
      never cancelled and, at 1000 ms, shows 100: once every frame request is
      done, the card displays 100 while its `targetValue` is 50. */
  method StaleTargetScenario() returns (shown: int, target: int, animating: bool)
    ensures shown == 100 && target == 50 && !animating
  {
    var card := new CounterCard(100, 1000);
    card.Observe([true]);
    AnimateFirstFrame(card.loops[0], 0);
    card.AnimateFrame(0, 0);
    card.SetProps(50, 10);
    AnimateSchedulesIff(card.loops[0], 100);
    card.AnimateFrame(0, 100);
    AnimateFirstFrame(card.loops[1], 100);
    card.AnimateFrame(1, 100);
    AnimateSchedulesIff(card.loops[0], 110);
    card.AnimateFrame(0, 110);
    AnimateFinalFrame(card.loops[1], 110);
    card.AnimateFrame(1, 110);
    assert card.count == 50;
    AnimateFinalFrame(card.loops[0], 1000);
    card.AnimateFrame(0, 1000);
    shown, target := card.count, card.targetValue;
    assert |card.loops| == 2 && !card.loops[0].pending && !card.loops[1].pending;
    animating := card.Animating();
  }

  // ---------------------------------------------------------------------------
  // The card with the evidently intended restart: the effect's cleanup
  // cancels the previous closure's frame request

  class CancellingCounterCard {
    var targetValue: int
    var duration: int
    var count: int
    var isVisible: bool
    /** The one live closure, if the animation has started. */
    var loop: Option<Loop>

    ghost predicate Valid()
      reads this
    {
      && duration > 0
      && (isVisible <==> loop.Some?)
      && (!isVisible ==> count == 0)
      && (loop.Some? ==> WellFormed(loop.value)
                         && loop.value.endValue == targetValue
                         && loop.value.duration == duration
                         && (!loop.value.pending ==> count == targetValue))
    }

    /** Visible and no frame request outstanding: the animation is over. */
    ghost predicate Finished()
      reads this
    {
      loop.Some? && !loop.value.pending
    }

    constructor (targetValue: int, duration: int)
      requires duration > 0
      ensures Valid()
      ensures this.targetValue == targetValue && this.duration == duration
      ensures count == 0 && !isVisible && loop == None
    {
      this.targetValue := targetValue;
      this.duration := duration;
      count := 0;
      isVisible := false;
      loop := None;
    }

    /** The animation effect with a cleanup: the previous closure's request is
        cancelled before a new closure starts. */
    method AnimationEffect()
      requires duration > 0
      requires !isVisible ==> count == 0 && loop == None
      modifies this
      ensures Valid()
      ensures loop == if isVisible then Some(StartLoop(targetValue, duration)) else None
      ensures unchanged(this`targetValue, this`duration, this`count, this`isVisible)
    {
      loop := None;
      if !isVisible {
        return;
      }
      loop := Some(StartLoop(targetValue, duration));
    }

    method Observe(entries: seq<bool>)
      requires Valid()
      modifies this
      ensures Valid()
      ensures isVisible <==> old(isVisible) || true in entries
      ensures old(isVisible) ==> isVisible
      ensures loop == if isVisible && !old(isVisible)
                      then Some(StartLoop(targetValue, duration))
                      else old(loop)
      ensures unchanged(this`targetValue, this`duration, this`count)
    {
      var visible := ObserverCallback(isVisible, entries);
      if visible != isVisible {
        isVisible := visible;
        AnimationEffect();
      }
    }

    method SetProps(newTarget: int, newDuration: int)
      requires Valid() && newDuration > 0
      modifies this
      ensures Valid()
      ensures targetValue == newTarget && duration == newDuration
      ensures loop == if isVisible && (newTarget != old(targetValue) || newDuration != old(duration))
                      then Some(StartLoop(newTarget, newDuration))
                      else old(loop)
      ensures unchanged(this`count, this`isVisible)
    {
      var changed := newTarget != targetValue || newDuration != duration;
      targetValue, duration := newTarget, newDuration;
      if changed {
        AnimationEffect();
      }
    }

    /** The browser calls the live closure with the frame timestamp `t`; when
        it requests no further frame the card shows exactly its current
        `targetValue`. */
    method AnimateFrame(t: int)
      requires Valid() && loop.Some? && loop.value.pending
      modifies this
      ensures Valid()
      ensures loop == Some(Animate(old(loop).value, t).0)
      ensures count == Animate(old(loop).value, t).1
      ensures Finished() ==> count == targetValue
      ensures unchanged(this`targetValue, this`duration, this`isVisible)
    {
      AnimateFinalFrame(loop.value, t);
      var next, c := Animate(loop.value, t).0, Animate(loop.value, t).1;
      loop := Some(next);
      count := c;
    }
  }

  /** The same sequence of events as `StaleTargetScenario` on the cancelling
      card: the old closure's remaining frames never fire, and the card ends
      showing its current target 50. */
  method RestartScenario() returns (shown: int, target: int, finished: bool)
    ensures shown == 50 && target == 50 && finished
  {
    var card := new CancellingCounterCard(100, 1000);
    card.Observe([true]);
    AnimateFirstFrame(card.loop.value, 0);
    card.AnimateFrame(0);
    card.SetProps(50, 10);
    AnimateFirstFrame(card.loop.value, 100);
    card.AnimateFrame(100);
    AnimateFinalFrame(card.loop.value, 110);
    card.AnimateFrame(110);
    shown, target := card.count, card.targetValue;
    finished := card.loop.Some? && !card.loop.value.pending;
  }
}
