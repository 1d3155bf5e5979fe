/** The toast list: a toast arrives with a fresh id, is appended to the list
    shown on screen, and is filtered out again by a timer 4000 ms later.
    Time is an explicit clock advanced by ticks; the random UUID source is
    an oracle object. */
module Toasts {
  import opened Wrappers

  datatype Tone = Success | Error | Info

  datatype ToastMessage = ToastMessage(
    id: string, title: string, description: Option<string>, tone: Option<Tone>)

  /** What `showToast` is given: a toast without its id. */
  datatype ToastInput = ToastInput(title: string, description: Option<string>, tone: Option<Tone>)

  /** How long a toast stays on screen, in milliseconds. */
  const ToastLifetime: nat := 4000

  /** The part of a toast that `showToast` receives from its caller. */
  function Strip(m: ToastMessage): ToastInput
  {
    ToastInput(m.title, m.description, m.tone)
  }

  /** `{ id, ...toast }`: the event detail built by `showToast`. */
  function WithId(id: string, toast: ToastInput): (m: ToastMessage)
    ensures m.id == id && Strip(m) == toast
  {
    ToastMessage(id, toast.title, toast.description, toast.tone)
  }

  /** `prev.filter((toast) => toast.id !== id)` */
  function RemoveId(ts: seq<ToastMessage>, id: string): (r: seq<ToastMessage>)
    ensures |r| <= |ts|
    ensures forall t :: t in r <==> t in ts && t.id != id
  {
    if ts == [] then []
    else if ts[0].id == id then RemoveId(ts[1..], id)
    else [ts[0]] + RemoveId(ts[1..], id)
  }

  lemma {:induction false} RemoveIdConcat(a: seq<ToastMessage>, b: seq<ToastMessage>, id: string)
    ensures RemoveId(a + b, id) == RemoveId(a, id) + RemoveId(b, id)
  {
    if a == [] {
      assert a + b == b;
    } else {
      assert (a + b)[0] == a[0] && (a + b)[1..] == a[1..] + b;
      RemoveIdConcat(a[1..], b, id);
    }
  }

  /** Expiry keeps every toast with another id where it was relative to the
      rest: around any kept toast, what comes before and after is filtered
      on its own. */
  lemma KeepsRelativeOrder(before: seq<ToastMessage>, t: ToastMessage, after: seq<ToastMessage>, id: string)
    requires t.id != id
    ensures RemoveId(before + [t] + after, id) == RemoveId(before, id) + [t] + RemoveId(after, id)
  {
    RemoveIdConcat(before + [t], after, id);
    RemoveIdConcat(before, [t], id);
    assert RemoveId([t], id) == [t] + RemoveId([], id);
  }

  /** Expiring an id that no toast carries leaves the list as it was. */
  lemma {:induction false} RemoveAbsentId(ts: seq<ToastMessage>, id: string)
    requires forall t :: t in ts ==> t.id != id
    ensures RemoveId(ts, id) == ts
  {
    if ts != [] {
      assert ts[0] in ts;
      RemoveAbsentId(ts[1..], id);
      assert ts == [ts[0]] + ts[1..];
    }
  }

  /** A scheduled removal: the id it filters out and when it runs. */
  datatype Expiry = Expiry(id: string, deadline: nat)

  /** The clock, the list on screen and the pending removal timers in the order scheduled. */
  datatype ToasterState = ToasterState(clock: nat, toasts: seq<ToastMessage>, timers: seq<Expiry>)

  function TimerIds(timers: seq<Expiry>): set<string>
  {
    set e | e in timers :: e.id
  }

  /** `handleToast`: append the toast, schedule its removal. */
  function Receive(s: ToasterState, t: ToastMessage): ToasterState
  {
    s.(toasts := s.toasts + [t], timers := s.timers + [Expiry(t.id, s.clock + ToastLifetime)])
  }

  /** Run, in order, every leading timer that is due at `now`. */
  function FireDue(toasts: seq<ToastMessage>, timers: seq<Expiry>, now: nat): (seq<ToastMessage>, seq<Expiry>)
    decreases |timers|
  {
    if timers == [] || timers[0].deadline > now then (toasts, timers)
    else FireDue(RemoveId(toasts, timers[0].id), timers[1..], now)
  }

  /** Time passes: the clock moves on and the timers that came due run. */
  function Advance(s: ToasterState, elapsed: nat): ToasterState
  {
    var now := s.clock + elapsed;
    var (ts, rest) := FireDue(s.toasts, s.timers, now);
    ToasterState(now, ts, rest)
  }

  predicate Sorted(timers: seq<Expiry>)
  {
    forall i, j :: 0 <= i < j < |timers| ==> timers[i].deadline <= timers[j].deadline
  }

  /** What every reachable state satisfies: timers are in deadline order, all
      lie in the coming 4000 ms, and every toast on screen still has its
      removal pending. */
  ghost predicate Inv(s: ToasterState)
  {
    && Sorted(s.timers)
    && (forall e :: e in s.timers ==> s.clock < e.deadline <= s.clock + ToastLifetime)
    && (forall t :: t in s.toasts ==> t.id in TimerIds(s.timers))
  }

  lemma ReceiveKeepsInv(s: ToasterState, t: ToastMessage)
    requires Inv(s)
    ensures Inv(Receive(s, t))
  {
    var s' := Receive(s, t);
    forall u | u in s'.toasts ensures u.id in TimerIds(s'.timers) {
      if u in s.toasts {
        var e :| e in s.timers && e.id == u.id;
        assert e in s'.timers;
      } else {
        assert s'.timers[|s'.timers| - 1] in s'.timers;
      }
    }
    assert forall e :: e in s'.timers ==> e in s.timers || e == Expiry(t.id, s.clock + ToastLifetime);
  }

  /** The timers left after FireDue are the ones not yet run: a suffix of the
      pending ones. */
  lemma {:induction false} FireDueLeavesSuffix(toasts: seq<ToastMessage>, timers: seq<Expiry>, now: nat)
    ensures |FireDue(toasts, timers, now).1| <= |timers|
    ensures FireDue(toasts, timers, now).1 == timers[|timers| - |FireDue(toasts, timers, now).1|..]
    decreases |timers|
  {
    if timers != [] && timers[0].deadline <= now {
      FireDueLeavesSuffix(RemoveId(toasts, timers[0].id), timers[1..], now);
    }
  }

  /** FireDue stops at the first timer that is not due. */
  lemma {:induction false} FireDueStops(toasts: seq<ToastMessage>, timers: seq<Expiry>, now: nat)
    ensures var rest := FireDue(toasts, timers, now).1;
      rest != [] ==> rest[0].deadline > now
    decreases |timers|
  {
    if timers != [] && timers[0].deadline <= now {
      FireDueStops(RemoveId(toasts, timers[0].id), timers[1..], now);
    }
  }

  /** A toast keeps a pending timer for its id across FireDue. */
  lemma {:induction false} FireDueKeepsTimerIds(toasts: seq<ToastMessage>, timers: seq<Expiry>, now: nat)
    requires forall t :: t in toasts ==> t.id in TimerIds(timers)
    ensures var (ts, rest) := FireDue(toasts, timers, now);
      forall t :: t in ts ==> t in toasts && t.id in TimerIds(rest)
    decreases |timers|
  {
    if timers != [] && timers[0].deadline <= now {
      var toasts' := RemoveId(toasts, timers[0].id);
      forall t | t in toasts' ensures t.id in TimerIds(timers[1..]) {
        var e :| e in timers && e.id == t.id;
        assert e != timers[0];
        assert e in timers[1..] by { assert timers == [timers[0]] + timers[1..]; }
      }
      FireDueKeepsTimerIds(toasts', timers[1..], now);
    }
  }

  /** A toast whose every timer is still in the future survives FireDue. */
  lemma {:induction false} FireDueSpares(toasts: seq<ToastMessage>, timers: seq<Expiry>, now: nat, t: ToastMessage)
    requires t in toasts
    requires forall e :: e in timers && e.id == t.id ==> e.deadline > now
    ensures t in FireDue(toasts, timers, now).0
    decreases |timers|
  {
    if timers != [] && timers[0].deadline <= now {
      assert timers[0] in timers;
      forall e | e in timers[1..] && e.id == t.id ensures e.deadline > now {
        assert e in timers;
      }
      FireDueSpares(RemoveId(toasts, timers[0].id), timers[1..], now, t);
    }
  }

  /** When every timer is due, all run: none is left and no toast with their ids remains. */
  lemma {:induction false} FireDueAll(toasts: seq<ToastMessage>, timers: seq<Expiry>, now: nat)
    requires forall e :: e in timers ==> e.deadline <= now
    ensures var (ts, rest) := FireDue(toasts, timers, now);
      rest == [] && forall t :: t in ts ==> t in toasts && t.id !in TimerIds(timers)
    decreases |timers|
  {
    if timers != [] {
      assert timers[0] in timers;
      forall e | e in timers[1..] ensures e.deadline <= now {
        assert e in timers;
      }
      FireDueAll(RemoveId(toasts, timers[0].id), timers[1..], now);
      var (ts, rest) := FireDue(toasts, timers, now);
      forall t | t in ts ensures t.id !in TimerIds(timers) {
        assert t.id != timers[0].id;
        assert t.id !in TimerIds(timers[1..]);
        assert timers == [timers[0]] + timers[1..];
      }
    }
  }

  lemma SuffixTimerIds(timers: seq<Expiry>, k: nat)
    requires k <= |timers|
    ensures TimerIds(timers[k..]) <= TimerIds(timers)
  {
    forall id | id in TimerIds(timers[k..]) ensures id in TimerIds(timers) {
      var e :| e in timers[k..] && e.id == id;
      assert e in timers;
    }
  }

  lemma AdvanceKeepsInv(s: ToasterState, elapsed: nat)
    requires Inv(s)
    ensures Inv(Advance(s, elapsed))
  {
    var now := s.clock + elapsed;
    FireDueLeavesSuffix(s.toasts, s.timers, now);
    FireDueStops(s.toasts, s.timers, now);
    FireDueKeepsTimerIds(s.toasts, s.timers, now);
    var rest := FireDue(s.toasts, s.timers, now).1;
    var k := |s.timers| - |rest|;
    assert Sorted(rest) by {
      forall i, j | 0 <= i < j < |rest| ensures rest[i].deadline <= rest[j].deadline {
        assert rest[i] == s.timers[k + i] && rest[j] == s.timers[k + j];
      }
    }
    forall e | e in rest ensures now < e.deadline <= now + ToastLifetime {
      var j :| 0 <= j < |rest| && rest[j] == e;
      assert e == s.timers[k + j] && rest[0] == s.timers[k];
      assert e in s.timers;
    }
  }

  lemma {:induction false} FireDueTwice(toasts: seq<ToastMessage>, timers: seq<Expiry>, early: nat, late: nat)
    requires early <= late
    ensures var (ts, rest) := FireDue(toasts, timers, early);
      FireDue(ts, rest, late) == FireDue(toasts, timers, late)
    decreases |timers|
  {
    if timers != [] && timers[0].deadline <= early {
      FireDueTwice(RemoveId(toasts, timers[0].id), timers[1..], early, late);
    }
  }

  /** Time may be split into ticks freely: two ticks act as one of their total length. */
  lemma AdvanceAdditive(s: ToasterState, a: nat, b: nat)
    ensures Advance(Advance(s, a), b) == Advance(s, a + b)
  {
    FireDueTwice(s.toasts, s.timers, s.clock + a, s.clock + a + b);
  }

  /** A toast with a fresh id is shown for exactly 4000 ms after it arrives:
      still there while less time has passed, gone once that much has. */
  lemma ShownUntilExpiry(s: ToasterState, t: ToastMessage, elapsed: nat)
    requires Inv(s)
    requires t.id !in TimerIds(s.timers)
    ensures t in Advance(Receive(s, t), elapsed).toasts <==> elapsed < ToastLifetime
  {
    var s1 := Receive(s, t);
    var now := s1.clock + elapsed;
    var last := Expiry(t.id, s.clock + ToastLifetime);
    assert s1.timers == s.timers + [last];
    if elapsed < ToastLifetime {
      assert forall e :: e in s.timers ==> e.id in TimerIds(s.timers);
      forall e | e in s1.timers && e.id == t.id ensures e.deadline > now {
        assert e in s.timers || e == last;
      }
      FireDueSpares(s1.toasts, s1.timers, now, t);
    } else {
      FireDueAll(s1.toasts, s1.timers, now);
      assert last in s1.timers;
    }
  }

  function IdsOf(ts: seq<ToastMessage>): set<string>
  {
    set t | t in ts :: t.id
  }

  /** The list holds only toasts that were received and whose removal is
      still pending, and every pending removal is for a received toast. */
  ghost predicate ShowsReceived(s: ToasterState, received: seq<ToastMessage>)
  {
    && Inv(s)
    && (forall t :: t in s.toasts ==> t in received)
    && TimerIds(s.timers) <= IdsOf(received)
  }

  lemma ReceiveShowsReceived(s: ToasterState, received: seq<ToastMessage>, t: ToastMessage)
    requires ShowsReceived(s, received)
    ensures ShowsReceived(Receive(s, t), received + [t])
  {
    ReceiveKeepsInv(s, t);
    var s' := Receive(s, t);
    assert TimerIds(s'.timers) == TimerIds(s.timers) + {t.id};
    assert t in received + [t];
    assert IdsOf(received) + {t.id} <= IdsOf(received + [t]);
  }

  lemma AdvanceShowsReceived(s: ToasterState, received: seq<ToastMessage>, elapsed: nat)
    requires ShowsReceived(s, received)
    ensures ShowsReceived(Advance(s, elapsed), received)
  {
    var now := s.clock + elapsed;
    AdvanceKeepsInv(s, elapsed);
    FireDueKeepsTimerIds(s.toasts, s.timers, now);
    FireDueLeavesSuffix(s.toasts, s.timers, now);
    var rest := FireDue(s.toasts, s.timers, now).1;
    SuffixTimerIds(s.timers, |s.timers| - |rest|);
  }

  /** The decimal digits of `n`. */
  function Decimal(n: nat): (r: string)
    ensures |r| >= 1
    ensures n >= 10 ==> |r| >= 2
  {
    if n < 10 then [DigitChar(n)] else Decimal(n / 10) + [DigitChar(n % 10)]
  }

  function DigitChar(d: nat): char
    requires d < 10
  {
    (48 + d) as char
  }

  /** Distinct numbers render as distinct decimal strings. */
  lemma {:induction false} DecimalInjective(m: nat, n: nat)
    requires Decimal(m) == Decimal(n)
    ensures m == n
    decreases m
  {
    if m < 10 && n < 10 {
      assert DigitChar(m) == Decimal(m)[0] == Decimal(n)[0] == DigitChar(n);
    } else if m >= 10 && n >= 10 {
      var a, b := Decimal(m), Decimal(n);
      assert a[|a| - 1] == DigitChar(m % 10) && b[|b| - 1] == DigitChar(n % 10);
      assert a[..|a| - 1] == Decimal(m / 10) && b[..|b| - 1] == Decimal(n / 10);
      DecimalInjective(m / 10, n / 10);
    }
  }

  /** The source of toast ids standing in for `crypto.randomUUID`: it never
      hands out the same id twice. */
  class IdOracle {
    var next: nat
    ghost var issued: set<string>

    ghost predicate Valid()
      reads this
    {
      issued == set k | 0 <= k < next :: Decimal(k)
    }

    constructor ()
      ensures Valid() && issued == {}
    {
      next := 0;
      issued := {};
    }

    method RandomUuid() returns (id: string)
      requires Valid()
      modifies this
      ensures Valid()
      ensures id !in old(issued) && issued == old(issued) + {id}
    {
      id := Decimal(next);
      if id in issued {
        var k :| 0 <= k < next && Decimal(k) == id;
        DecimalInjective(k, next);
        assert false;
      }
      next := next + 1;
      issued := issued + {id};
    }
  }

  /** The listener's state: the list on screen and its pending removal timers;
      `received` records every toast delivered to it. */
  class Toaster {
    var clock: nat
    var toasts: seq<ToastMessage>
    var timers: seq<Expiry>
    ghost var received: seq<ToastMessage>

    function Model(): ToasterState
      reads this
    {
      ToasterState(clock, toasts, timers)
    }

    ghost function ReceivedIds(): set<string>
      reads this
    {
      IdsOf(received)
    }

    /** The list holds only toasts that were received and whose removal is still pending. */
    ghost predicate Valid()
      reads this
    {
      ShowsReceived(Model(), received)
    }

    constructor ()
      ensures Valid() && toasts == [] && timers == [] && received == []
    {
      clock, toasts, timers := 0, [], [];
      received := [];
    }

    /** `handleToast`: the listener for a toast event. */
    method HandleToast(t: ToastMessage)
      requires Valid()
      modifies this
      ensures Valid()
      ensures Model() == Receive(old(Model()), t) && received == old(received) + [t]
    {
      ReceiveShowsReceived(Model(), received, t);
      toasts := toasts + [t];
      timers := timers + [Expiry(t.id, clock + ToastLifetime)];
      received := received + [t];
    }

    /** The removal timer's callback, filtering out one id. */
    method Expire(id: string)
      modifies this`toasts
      ensures toasts == RemoveId(old(toasts), id)
    {
      toasts := RemoveId(toasts, id);
    }

    /** Run, in order, every pending timer that is due at `now`. */
    method RunDue(now: nat)
      modifies this`toasts, this`timers
      ensures (toasts, timers) == FireDue(old(toasts), old(timers), now)
    {
      while timers != [] && timers[0].deadline <= now
        invariant FireDue(toasts, timers, now) == FireDue(old(toasts), old(timers), now)
        decreases |timers|
      {
        var e := timers[0];
        timers := timers[1..];
        Expire(e.id);
      }
    }

    /** Time passes by `elapsed` ms; every timer that comes due runs. */
    method Tick(elapsed: nat)
      requires Valid()
      modifies this
      ensures Valid()
      ensures Model() == Advance(old(Model()), elapsed) && received == old(received)
    {
      AdvanceShowsReceived(Model(), received, elapsed);
      var now := clock + elapsed;
      RunDue(now);
      clock := now;
    }
  }

  /** `showToast`: give the toast a fresh id and deliver it to the listener. */
  method ShowToast(oracle: IdOracle, toaster: Toaster, toast: ToastInput) returns (shown: ToastMessage)
    requires oracle.Valid() && toaster.Valid()
    requires toaster.ReceivedIds() <= oracle.issued
    modifies oracle, toaster
    ensures oracle.Valid() && toaster.Valid() && toaster.ReceivedIds() <= oracle.issued
    ensures Strip(shown) == toast
    ensures shown.id !in old(toaster.ReceivedIds())
    ensures toaster.Model() == Receive(old(toaster.Model()), shown)
  {
    var id := oracle.RandomUuid();
    shown := WithId(id, toast);
    toaster.HandleToast(shown);
  }
}
