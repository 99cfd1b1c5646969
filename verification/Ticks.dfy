/** The per-step tick loop of an applet and its clock countdowns. */
module Ticks {

  const CHANNELS := 4

  /** What the loop and the applet share: one countdown and one output per channel, and the applet's own state. */
  datatype Frame<A> = Frame(countdown: seq<int>, outputs: seq<int>, applet: A)
  {
    predicate Valid() {
      |countdown| == CHANNELS && |outputs| == CHANNELS
    }
  }

  /** An applet's `Controller()`: any change of the frame that keeps its shape. */
  ghost predicate IsController<A(!new)>(controller: Frame<A> -> Frame<A>) {
    forall f: Frame<A> :: f.Valid() ==> controller(f).Valid()
  }

  function Decayed(c: int): int {
    if c > 0 then c - 1 else c
  }

  /** The channel's output is forced to 0 by the countdown. */
  predicate Expires(c: int) {
    c == 1
  }

  /** The countdown part of a tick. */
  function CountDown<A>(f: Frame<A>): (r: Frame<A>)
    requires f.Valid()
    ensures r.Valid()
  {
    Frame(seq(CHANNELS, ch requires 0 <= ch < CHANNELS => Decayed(f.countdown[ch])),
          seq(CHANNELS, ch requires 0 <= ch < CHANNELS => if Expires(f.countdown[ch]) then 0 else f.outputs[ch]),
          f.applet)
  }

  /** The frame after n ticks. */
  ghost function After<A(!new)>(f: Frame<A>, controller: Frame<A> -> Frame<A>, n: nat): (r: Frame<A>)
    requires f.Valid() && IsController(controller)
    ensures r.Valid()
  {
    if n == 0 then f else controller(CountDown(After(f, controller, n - 1)))
  }

  /** What a tick is: the applet is handed the frame with every positive countdown one lower and the output 0 exactly where
      a countdown was 1. */
  lemma TickIs<A(!new)>(f: Frame<A>, controller: Frame<A> -> Frame<A>, t: nat)
    requires f.Valid() && IsController(controller) && t > 0
    ensures var b := After(f, controller, t - 1);
      exists g: Frame<A> :: g.Valid() && After(f, controller, t) == controller(g) && g.applet == b.applet
        && (forall ch :: 0 <= ch < CHANNELS ==>
          g.countdown[ch] == if b.countdown[ch] > 0 then b.countdown[ch] - 1 else b.countdown[ch])
        && (forall ch :: 0 <= ch < CHANNELS ==>
          g.outputs[ch] == if b.countdown[ch] == 1 then 0 else b.outputs[ch])
  {
    var g := CountDown(After(f, controller, t - 1));
    assert After(f, controller, t) == controller(g);
  }

  /** With an applet that touches nothing, n ticks lower every positive countdown by n, to 0 at most, and clear exactly the
      outputs whose countdown was from 1 to n. */
  lemma {:induction false} IdleTicks<A(!new)>(f: Frame<A>, controller: Frame<A> -> Frame<A>, n: nat, ch: nat)
    requires f.Valid() && IsController(controller) && ch < CHANNELS
    requires forall g: Frame<A> :: controller(g) == g
    ensures var r, c := After(f, controller, n), f.countdown[ch];
      && r.countdown[ch] == (if c <= 0 then c else if c <= n then 0 else c - n)
      && r.outputs[ch] == (if 1 <= c <= n then 0 else f.outputs[ch])
      && r.applet == f.applet
    decreases n
  {
    if n > 0 {
      IdleTicks(f, controller, n - 1, ch);
      TickIs(f, controller, n);
    }
  }

  // ---- The step ---------------------------------------------------------------------------------

  /** How many ticks a step runs: the override if one is set, else a third of its frames and at least one. (For a
      negative count both roundings of the division stay below one.) */
  function TicksOfStep(numFramesBy4: int, innerTicksOverride: int): (t: nat)
    ensures t >= 1
  {
    if innerTicksOverride > 0 then innerTicksOverride
    else if numFramesBy4 * 4 / 3 < 1 then 1
    else numFramesBy4 * 4 / 3
  }

  class Runner<A(!new)> {
    var frame: Frame<A>
    var ticks: nat
    var innerTicksOverride: int
    const controller: Frame<A> -> Frame<A>

    ghost predicate Valid()
      reads this
    {
      frame.Valid() && IsController(controller)
    }

    constructor (f: Frame<A>, c: Frame<A> -> Frame<A>)
      requires f.Valid() && IsController(c)
      ensures Valid() && frame == f && controller == c && ticks == 0 && innerTicksOverride == 0
    {
      frame, controller, ticks, innerTicksOverride := f, c, 0, 0;
    }

    /** The loop over the channels. */
    method CountDownChannels()
      requires Valid()
      modifies this`frame
      ensures Valid() && frame == CountDown(old(frame))
    {
      for ch := 0 to 4
        invariant frame.Valid() && frame.applet == old(frame).applet
        invariant forall k :: 0 <= k < ch ==> frame.countdown[k] == CountDown(old(frame)).countdown[k]
                                              && frame.outputs[k] == CountDown(old(frame)).outputs[k]
        invariant forall k :: ch <= k < 4 ==> frame.countdown[k] == old(frame).countdown[k]
                                              && frame.outputs[k] == old(frame).outputs[k]
      {
        if frame.countdown[ch] > 0 {
          frame := frame.(countdown := frame.countdown[ch := frame.countdown[ch] - 1]);
          if frame.countdown[ch] == 0 {
            frame := frame.(outputs := frame.outputs[ch := 0]);
          }
        }
      }
      assert frame.countdown == CountDown(old(frame)).countdown;
      assert frame.outputs == CountDown(old(frame)).outputs;
    }

    /** `run_controller_inner_ticks` */
    method RunInnerTicks(numFramesBy4: int)
      requires Valid()
      modifies this
      ensures Valid() && innerTicksOverride <= 0
      ensures old(innerTicksOverride) <= 0 ==> innerTicksOverride == old(innerTicksOverride)
      ensures var n := TicksOfStep(numFramesBy4, old(innerTicksOverride));
        ticks == old(ticks) + n && frame == After(old(frame), controller, n)
      ensures old(innerTicksOverride) > 0 ==> ticks == old(ticks) + old(innerTicksOverride)
      ensures old(innerTicksOverride) <= 0 && numFramesBy4 < 1 ==> ticks == old(ticks) + 1
      ensures old(innerTicksOverride) <= 0 && numFramesBy4 >= 1 ==>
        3 * (ticks - old(ticks)) <= numFramesBy4 * 4 <= 3 * (ticks - old(ticks)) + 2
    {
      var numFrames := numFramesBy4 * 4;
      var ticksThisStep: int;
      if innerTicksOverride > 0 {
        ticksThisStep := innerTicksOverride;
        innerTicksOverride := 0;
      } else {
        ticksThisStep := numFrames / 3;
        if ticksThisStep < 1 {
          ticksThisStep := 1;
        }
      }
      for i := 0 to ticksThisStep
        invariant Valid() && ticks == old(ticks) + i
        invariant frame == After(old(frame), controller, i)
        invariant innerTicksOverride <= 0 && (old(innerTicksOverride) <= 0 ==> innerTicksOverride == old(innerTicksOverride))
      {
        ticks := ticks + 1;
        CountDownChannels();
        frame := controller(frame);
      }
    }
  }

  // ---- Countdowns over runs ---------------------------------------------------------------------

  /** How ticks are grouped into steps does not matter. */
  lemma {:induction false} TicksAddUp<A(!new)>(f: Frame<A>, controller: Frame<A> -> Frame<A>, m: nat, n: nat)
    requires f.Valid() && IsController(controller)
    ensures After(f, controller, m + n) == After(After(f, controller, m), controller, n)
    decreases n
  {
    if n > 0 {
      TicksAddUp(f, controller, m, n - 1);
    }
  }

  /** The countdown of a channel after tick t. */
  ghost function Counter<A(!new)>(f: Frame<A>, controller: Frame<A> -> Frame<A>, ch: nat, t: nat): int
    requires f.Valid() && IsController(controller) && ch < CHANNELS
  {
    After(f, controller, t).countdown[ch]
  }

  /** In tick t the applet leaves the channel's countdown as the loop left it. */
  ghost predicate Untouched<A(!new)>(f: Frame<A>, controller: Frame<A> -> Frame<A>, ch: nat, t: nat)
    requires f.Valid() && IsController(controller) && ch < CHANNELS && t > 0
  {
    Counter(f, controller, ch, t) == Decayed(Counter(f, controller, ch, t - 1))
  }

  /** Tick t forces the channel's output to 0. */
  ghost predicate ClearedIn<A(!new)>(f: Frame<A>, controller: Frame<A> -> Frame<A>, ch: nat, t: nat)
    requires f.Valid() && IsController(controller) && ch < CHANNELS && t > 0
  {
    Expires(Counter(f, controller, ch, t - 1))
  }

  /** A countdown the applet leaves alone runs down by one a tick and stops at 0. */
  lemma {:induction false} CounterRunsDown<A(!new)>(f: Frame<A>, controller: Frame<A> -> Frame<A>, ch: nat, s: nat, t: nat)
    requires f.Valid() && IsController(controller) && ch < CHANNELS && s <= t
    requires forall u :: s < u <= t ==> Untouched(f, controller, ch, u)
    ensures var c := Counter(f, controller, ch, s);
      Counter(f, controller, ch, t) == if c <= 0 then c else if c <= t - s then 0 else c - (t - s)
    decreases t
  {
    hide Counter;
    if s < t {
      CounterRunsDown(f, controller, ch, s, t - 1);
      assert Untouched(f, controller, ch, t);
    }
  }

  /** With no touch since tick s, tick t clears the output exactly when the countdown armed at s is t - s. */
  lemma ClearedExactly<A(!new)>(f: Frame<A>, controller: Frame<A> -> Frame<A>, ch: nat, s: nat, t: nat)
    requires f.Valid() && IsController(controller) && ch < CHANNELS && s < t
    requires forall u :: s < u < t ==> Untouched(f, controller, ch, u)
    ensures ClearedIn(f, controller, ch, t) <==> s + Counter(f, controller, ch, s) == t
  {
    hide Counter;
    CounterRunsDown(f, controller, ch, s, t - 1);
  }

  /** The last tick before t in which the applet armed the channel; 0 is the initial arming. */
  ghost function LastArmed<A(!new)>(f: Frame<A>, controller: Frame<A> -> Frame<A>, ch: nat, t: nat): (s: nat)
    requires f.Valid() && IsController(controller) && ch < CHANNELS && t > 0
    ensures s < t && forall u :: s < u < t ==> Untouched(f, controller, ch, u)
    ensures s > 0 ==> !Untouched(f, controller, ch, s)
  {
    if t == 1 then 0
    else if Untouched(f, controller, ch, t - 1) then LastArmed(f, controller, ch, t - 1)
    else t - 1
  }

  /** Whatever the applet does, and however ticks are split over steps and overrides, tick t clears an output exactly
      when the latest arming before it, of c at tick s, has s + c = t. In that tick the loop hands the applet the
      output 0, and in every other tick the output as the applet left it. */
  lemma CountdownIsExact<A(!new)>(f: Frame<A>, controller: Frame<A> -> Frame<A>, ch: nat, t: nat)
    requires f.Valid() && IsController(controller) && ch < CHANNELS && t > 0
    ensures var s := LastArmed(f, controller, ch, t);
      var before := After(f, controller, t - 1);
      && (ClearedIn(f, controller, ch, t) <==> s + Counter(f, controller, ch, s) == t)
      && After(f, controller, t) == controller(CountDown(before))
      && CountDown(before).outputs[ch] == (if s + Counter(f, controller, ch, s) == t then 0 else before.outputs[ch])
  {
    ClearedExactly(f, controller, ch, LastArmed(f, controller, ch, t), t);
  }

  // ---- Ticks against frames ---------------------------------------------------------------------

  function FramesOf(steps: seq<int>): int {
    if steps == [] then 0 else steps[0] * 4 + FramesOf(steps[1..])
  }

  function TicksOf(steps: seq<int>): nat {
    if steps == [] then 0 else TicksOfStep(steps[0], 0) + TicksOf(steps[1..])
  }

  /** Without overrides, steps of at least one block run one tick per three frames, losing at most two frames a step. */
  lemma {:induction false} TicksFollowFrames(steps: seq<int>)
    requires forall k :: 0 <= k < |steps| ==> steps[k] >= 1
    ensures 3 * TicksOf(steps) <= FramesOf(steps) <= 3 * TicksOf(steps) + 2 * |steps|
  {
    if steps != [] {
      TicksFollowFrames(steps[1..]);
    }
  }

  /** The per-step bound holds exactly for steps with frames: an empty step still runs a tick. */
  lemma StepTicksFollowFrames(numFramesBy4: int)
    ensures 3 * TicksOfStep(numFramesBy4, 0) <= numFramesBy4 * 4 <= 3 * TicksOfStep(numFramesBy4, 0) + 2 <==> numFramesBy4 >= 1
  {
  }

  lemma NoTicks<A(!new)>(f: Frame<A>, controller: Frame<A> -> Frame<A>)
    requires f.Valid() && IsController(controller)
    ensures After(f, controller, 0) == f
  {
  }

  /** Without an override that is positive, a step runs the ticks of its frames. */
  lemma NoOverride(numFramesBy4: int, innerTicksOverride: int)
    ensures TicksOfStep(numFramesBy4, innerTicksOverride)
         == if innerTicksOverride > 0 then innerTicksOverride else TicksOfStep(numFramesBy4, 0)
  {
  }

  /** The ticks of the first n steps: an override counts as it is. */
  function TicksWith(steps: seq<int>, overrides: seq<int>, n: nat): nat
    requires n <= |steps| == |overrides|
  {
    if n == 0 then 0
    else TicksWith(steps, overrides, n - 1) + if overrides[n - 1] > 0 then overrides[n - 1] else TicksOfStep(steps[n - 1], 0)
  }

  /** Steps run one after the other, each with the override that was set before it. */
  method RunSteps<A(!new)>(r: Runner<A>, steps: seq<int>, overrides: seq<int>) returns (ghost total: nat)
    requires r.Valid() && |steps| == |overrides|
    modifies r
    ensures r.Valid() && r.ticks == old(r.ticks) + total
    ensures r.frame == After(old(r.frame), r.controller, total)
    ensures total == TicksWith(steps, overrides, |steps|)
    ensures (forall k :: 0 <= k < |steps| ==> overrides[k] <= 0) ==> total == TicksOf(steps)
  {
    hide After, CountDown, TicksOfStep;
    total := 0;
    assert steps[0..] == steps;
    NoTicks(r.frame, r.controller);
    ghost var f := r.frame;
    for k := 0 to |steps|
      invariant r.Valid() && r.ticks == old(r.ticks) + total && r.frame == After(f, r.controller, total)
      invariant total == TicksWith(steps, overrides, k)
      invariant (forall k :: 0 <= k < |steps| ==> overrides[k] <= 0) ==> total + TicksOf(steps[k..]) == TicksOf(steps)
    {
      r.innerTicksOverride := overrides[k];
      r.RunInnerTicks(steps[k]);
      ghost var n := TicksOfStep(steps[k], overrides[k]);
      TicksAddUp(f, r.controller, total, n);
      NoOverride(steps[k], overrides[k]);
      assert steps[k..][1..] == steps[k + 1..];
      total := total + n;
    }
  }
}
