/** The trailing-edge debounce hook: each call cancels the pending timer, if
    any, and schedules a new one that will invoke the callback with that
    call's arguments once `delay` milliseconds have passed. Time is explicit:
    a clock advanced by ticks. */
module Debounce {
  import opened Wrappers

  /** The delay used when the caller gives none, in milliseconds. */
  const DefaultDelay: nat := 500

  /** The one scheduled timeout: the arguments it carries and when it fires. */
  datatype Timer<A> = Timer(args: A, deadline: nat)

  /** One invocation of the callback: its arguments and the time it ran. */
  datatype Invocation<A> = Invocation(args: A, at: nat)

  /** What happens to a debounced function: it is called, or time passes. */
  datatype Event<A> = Call(args: A) | Tick(elapsed: nat)

  /** The clock, the single pending-timer slot, the invocations so far and
      the number of calls so far. */
  datatype State<A> = State(clock: nat, pending: Option<Timer<A>>, fired: seq<Invocation<A>>, calls: nat)

  function Init<A>(): State<A>
  {
    State(0, None, [], 0)
  }

  /** One event. A call replaces the pending timer; a tick moves the clock and
      runs the pending timer if its deadline has been reached. */
  function Step<A>(delay: nat, s: State<A>, e: Event<A>): State<A>
  {
    match e
    case Call(a) =>
      s.(pending := Some(Timer(a, s.clock + delay)), calls := s.calls + 1)
    case Tick(dt) =>
      var now := s.clock + dt;
      if s.pending.Some? && s.pending.value.deadline <= now then
        s.(clock := now, pending := None,
           fired := s.fired + [Invocation(s.pending.value.args, s.pending.value.deadline)])
      else
        s.(clock := now)
  }

  function Run<A>(delay: nat, s: State<A>, evs: seq<Event<A>>): State<A>
    decreases |evs|
  {
    if evs == [] then s else Run(delay, Step(delay, s, evs[0]), evs[1..])
  }

  /** What every reachable state satisfies: at most one pending timer per
      call not yet answered, a pending deadline at most `delay` ahead, and
      no invocation in the future. */
  ghost predicate Inv<A>(delay: nat, s: State<A>)
  {
    && |s.fired| + (if s.pending.Some? then 1 else 0) <= s.calls
    && (s.pending.Some? ==> s.clock <= s.pending.value.deadline <= s.clock + delay)
    && (forall i :: 0 <= i < |s.fired| ==> s.fired[i].at <= s.clock)
  }

  lemma StepKeepsInv<A>(delay: nat, s: State<A>, e: Event<A>)
    requires Inv(delay, s)
    ensures Inv(delay, Step(delay, s, e))
  {
  }

  lemma {:induction false} RunKeepsInv<A>(delay: nat, s: State<A>, evs: seq<Event<A>>)
    requires Inv(delay, s)
    ensures Inv(delay, Run(delay, s, evs))
    decreases |evs|
  {
    if evs != [] {
      StepKeepsInv(delay, s, evs[0]);
      RunKeepsInv(delay, Step(delay, s, evs[0]), evs[1..]);
    }
  }

  lemma {:induction false} RunAppend<A>(delay: nat, s: State<A>, a: seq<Event<A>>, b: seq<Event<A>>)
    ensures Run(delay, s, a + b) == Run(delay, Run(delay, s, a), b)
    decreases |a|
  {
    if a == [] {
      assert a + b == b;
    } else {
      assert (a + b)[0] == a[0];
      assert (a + b)[1..] == a[1..] + b;
      RunAppend(delay, Step(delay, s, a[0]), a[1..], b);
    }
  }

  lemma RunSnoc<A>(delay: nat, s: State<A>, evs: seq<Event<A>>, e: Event<A>)
    ensures Run(delay, s, evs + [e]) == Step(delay, Run(delay, s, evs), e)
  {
    RunAppend(delay, s, evs, [e]);
    assert Run(delay, Run(delay, s, evs), [e]) == Step(delay, Run(delay, s, evs), e);
  }

  /** Time may be split into ticks freely: two ticks act as one of their total length. */
  lemma TicksAdd<A>(delay: nat, s: State<A>, a: nat, b: nat)
    ensures Step(delay, Step(delay, s, Tick(a)), Tick(b)) == Step(delay, s, Tick(a + b))
  {
  }

  function CountCalls<A>(evs: seq<Event<A>>): nat
  {
    if evs == [] then 0 else (if evs[0].Call? then 1 else 0) + CountCalls(evs[1..])
  }

  lemma {:induction false} RunCountsCalls<A>(delay: nat, s: State<A>, evs: seq<Event<A>>)
    ensures Run(delay, s, evs).calls == s.calls + CountCalls(evs)
    decreases |evs|
  {
    if evs != [] {
      RunCountsCalls(delay, Step(delay, s, evs[0]), evs[1..]);
    }
  }

  /** The callback never runs more often than the debounced function was called. */
  lemma InvocationsBounded<A>(delay: nat, evs: seq<Event<A>>)
    ensures |Run(delay, Init(), evs).fired| <= CountCalls(evs)
  {
    RunKeepsInv(delay, Init(), evs);
    RunCountsCalls(delay, Init(), evs);
  }

  /** The time that has passed over a run of events. */
  function Elapsed<A>(evs: seq<Event<A>>): nat
  {
    if evs == [] then 0
    else Elapsed(evs[..|evs| - 1]) + (match evs[|evs| - 1] case Tick(dt) => dt case Call(_) => 0)
  }

  /** The most recent call in a run: its arguments and the time it was made. */
  function LastCall<A>(evs: seq<Event<A>>): Option<(A, nat)>
  {
    if evs == [] then None
    else match evs[|evs| - 1]
      case Call(a) => Some((a, Elapsed(evs[..|evs| - 1])))
      case Tick(_) => LastCall(evs[..|evs| - 1])
  }

  /** The pending timer, when there is one, carries the arguments of the most
      recent call and is due `delay` after it. */
  lemma {:induction false} PendingIsLatest<A>(delay: nat, evs: seq<Event<A>>)
    ensures Run(delay, Init(), evs).clock == Elapsed(evs)
    ensures var s := Run(delay, Init(), evs);
      s.pending.Some? ==>
        LastCall(evs).Some?
        && s.pending.value == Timer(LastCall(evs).value.0, LastCall(evs).value.1 + delay)
    decreases |evs|
  {
    if evs != [] {
      var init, e := evs[..|evs| - 1], evs[|evs| - 1];
      assert evs == init + [e];
      RunSnoc(delay, Init(), init, e);
      PendingIsLatest(delay, init);
    }
  }

  /** A tick runs the callback exactly when the pending deadline has been
      reached, and then with the most recent call's arguments, `delay` after
      that call. */
  lemma FiresLatest<A>(delay: nat, evs: seq<Event<A>>, dt: nat)
    ensures var s, s' := Run(delay, Init(), evs), Run(delay, Init(), evs + [Tick(dt)]);
      if s.pending.Some? && s.pending.value.deadline <= s.clock + dt then
        LastCall(evs).Some?
        && LastCall(evs).value.1 + delay <= Elapsed(evs) + dt
        && s'.fired == s.fired + [Invocation(LastCall(evs).value.0, LastCall(evs).value.1 + delay)]
      else
        s'.fired == s.fired
  {
    RunSnoc(delay, Init(), evs, Tick(dt));
    PendingIsLatest(delay, evs);
  }

  function Sum(xs: seq<nat>): nat
  {
    if xs == [] then 0 else xs[0] + Sum(xs[1..])
  }

  /** Calls with the given arguments, separated by the given gaps. */
  function Burst<A>(args: seq<A>, gaps: seq<nat>): seq<Event<A>>
    requires |args| == |gaps| + 1
  {
    if gaps == [] then [Call(args[0])]
    else [Call(args[0]), Tick(gaps[0])] + Burst(args[1..], gaps[1..])
  }

  /** While every gap is shorter than the delay, a burst never runs the
      callback; it leaves one timer pending for the last call. */
  lemma {:induction false} BurstCoalesces<A>(delay: nat, s: State<A>, args: seq<A>, gaps: seq<nat>)
    requires |args| == |gaps| + 1
    requires forall i :: 0 <= i < |gaps| ==> gaps[i] < delay
    ensures Run(delay, s, Burst(args, gaps))
         == s.(clock := s.clock + Sum(gaps),
               pending := Some(Timer(args[|args| - 1], s.clock + Sum(gaps) + delay)),
               calls := s.calls + |args|)
    decreases |gaps|
  {
    var evs := Burst(args, gaps);
    if gaps == [] {
      assert Run(delay, s, evs) == Step(delay, s, Call(args[0]));
    } else {
      var rest := Burst(args[1..], gaps[1..]);
      var s2 := Step(delay, Step(delay, s, Call(args[0])), Tick(gaps[0]));
      assert evs[0] == Call(args[0]) && evs[1..][0] == Tick(gaps[0]) && evs[1..][1..] == rest;
      assert Run(delay, s, evs) == Run(delay, s2, rest);
      BurstCoalesces(delay, s2, args[1..], gaps[1..]);
    }
  }

  /** A burst of calls each less than `delay` apart, followed by a quiet
      period of at least `delay`, runs the callback exactly once, with the
      last call's arguments, `delay` after that call. */
  lemma BurstFiresOnce<A>(delay: nat, s: State<A>, args: seq<A>, gaps: seq<nat>, quiet: nat)
    requires |args| == |gaps| + 1
    requires forall i :: 0 <= i < |gaps| ==> gaps[i] < delay
    requires delay <= quiet
    ensures Run(delay, s, Burst(args, gaps) + [Tick(quiet)]).fired
         == s.fired + [Invocation(args[|args| - 1], s.clock + Sum(gaps) + delay)]
    ensures Run(delay, s, Burst(args, gaps) + [Tick(quiet)]).pending == None
  {
    RunSnoc(delay, s, Burst(args, gaps), Tick(quiet));
    BurstCoalesces(delay, s, args, gaps);
  }

  /** Calls each followed by a pause: `args[i]`, then `gaps[i]` of quiet. */
  function Spaced<A>(args: seq<A>, gaps: seq<nat>): seq<Event<A>>
    requires |args| == |gaps|
  {
    if args == [] then [] else [Call(args[0]), Tick(gaps[0])] + Spaced(args[1..], gaps[1..])
  }

  /** Calls spaced at least `delay` apart each run the callback once, in
      order, each with its own arguments, `delay` after that call. */
  lemma {:induction false} SpacedFireEach<A>(delay: nat, s: State<A>, args: seq<A>, gaps: seq<nat>)
    requires |args| == |gaps|
    requires forall i :: 0 <= i < |gaps| ==> delay <= gaps[i]
    ensures var r := Run(delay, s, Spaced(args, gaps));
      && |r.fired| == |s.fired| + |args|
      && r.fired[..|s.fired|] == s.fired
      && (forall i :: 0 <= i < |args| ==>
            r.fired[|s.fired| + i] == Invocation(args[i], s.clock + Sum(gaps[..i]) + delay))
      && r.clock == s.clock + Sum(gaps)
      && (args != [] ==> r.pending == None)
    decreases |args|
  {
    var evs := Spaced(args, gaps);
    if args != [] {
      var rest := Spaced(args[1..], gaps[1..]);
      var s2 := Step(delay, Step(delay, s, Call(args[0])), Tick(gaps[0]));
      assert s2.fired == s.fired + [Invocation(args[0], s.clock + delay)];
      assert evs[0] == Call(args[0]) && evs[1..][0] == Tick(gaps[0]) && evs[1..][1..] == rest;
      assert Run(delay, s, evs) == Run(delay, s2, rest);
      SpacedFireEach(delay, s2, args[1..], gaps[1..]);
      var r := Run(delay, s, evs);
      forall i | 0 <= i < |args|
        ensures r.fired[|s.fired| + i] == Invocation(args[i], s.clock + Sum(gaps[..i]) + delay)
      {
        if i == 0 {
          assert gaps[..0] == [];
        } else {
          assert gaps[..i][0] == gaps[0] && gaps[..i][1..] == gaps[1..][..i - 1];
          assert r.fired[|s.fired| + i] == r.fired[|s2.fired| + (i - 1)];
        }
      }
      assert r.fired[..|s.fired|] == r.fired[..|s2.fired|][..|s.fired|];
    }
  }

  /** Edits at 0, 200 and 400 ms with an 800 ms delay: nothing runs before
      1200 ms, then exactly one write carrying the 400 ms snapshot. */
  lemma EditorBurst<A>(x: A, y: A, z: A)
    ensures Run(800, Init(), [Call(x), Tick(200), Call(y), Tick(200), Call(z), Tick(799)]).fired == []
    ensures Run(800, Init(), [Call(x), Tick(200), Call(y), Tick(200), Call(z), Tick(800)]).fired
         == [Invocation(z, 1200)]
  {
    var s: State<A> := Init();
    assert [x, y, z][1..] == [y, z] && [y, z][1..] == [z];
    var g2: seq<nat>, g1: seq<nat> := [200, 200], [200];
    assert g2[1..] == g1 && g1[1..] == [];
    assert Burst([z], []) == [Call(z)];
    assert Burst([y, z], g1) == [Call(y), Tick(200), Call(z)];
    assert Burst([x, y, z], g2) == [Call(x), Tick(200), Call(y), Tick(200), Call(z)];
    BurstCoalesces(800, s, [x, y, z], [200, 200]);
    RunSnoc(800, s, Burst([x, y, z], [200, 200]), Tick(799));
    RunSnoc(800, s, Burst([x, y, z], [200, 200]), Tick(800));
    assert [Call(x), Tick(200), Call(y), Tick(200), Call(z), Tick(799)]
        == Burst([x, y, z], [200, 200]) + [Tick(799)];
    assert [Call(x), Tick(200), Call(y), Tick(200), Call(z), Tick(800)]
        == Burst([x, y, z], [200, 200]) + [Tick(800)];
  }

  /** The debounced function returned by the hook, with its timeout slot. */
  class Debouncer<A> {
    const delay: nat
    var clock: nat
    var pending: Option<Timer<A>>
    ghost var log: seq<Invocation<A>>
    ghost var calls: nat

    ghost function Model(): State<A>
      reads this
    {
      State(clock, pending, log, calls)
    }

    ghost predicate Valid()
      reads this
    {
      Inv(delay, Model())
    }

    constructor (delay: nat := DefaultDelay)
      ensures Valid() && this.delay == delay && Model() == Init()
    {
      this.delay := delay;
      clock, pending := 0, None;
      log, calls := [], 0;
    }

    /** Calling the debounced function: clear the pending timer, schedule a new one. */
    method Call(args: A)
      requires Valid()
      modifies this
      ensures Valid() && Model() == Step(delay, old(Model()), Event.Call(args))
    {
      if pending.Some? {
        pending := None;
      }
      pending := Some(Timer(args, clock + delay));
      calls := calls + 1;
    }

    /** Time passes; `fire` holds the arguments the callback is run with, if it runs. */
    method Tick(elapsed: nat) returns (fire: Option<A>)
      requires Valid()
      modifies this
      ensures Valid() && Model() == Step(delay, old(Model()), Event.Tick(elapsed))
      ensures fire.Some? <==> |log| == |old(log)| + 1
      ensures fire.Some? ==> old(pending).Some? && fire.value == old(pending).value.args
    {
      StepKeepsInv(delay, Model(), Event.Tick(elapsed));
      var now := clock + elapsed;
      fire := None;
      if pending.Some? && pending.value.deadline <= now {
        fire := Some(pending.value.args);
        log := log + [Invocation(pending.value.args, pending.value.deadline)];
        pending := None;
      }
      clock := now;
    }
  }
}
