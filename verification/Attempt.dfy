/**
 attempt.go: the retry clock. Times and durations are integers; the clock is
 read by the calls and never goes back. What the calls do is given by pure
 functions of the readings, about which the promises are proved for every mix
 of calls; the class is shown to do what they say.
 */
module Attempt {
  import opened Counting

  datatype Strategy = Strategy(total: int, delay: int, min: int)

  datatype Core = Core(last: int, end: int, force: bool, count: int)

  /** A call with what it reads from the clock; wake is read after Next has slept, if it does. */
  datatype Event = Next(now: int, wake: int) | HasNext(now: int)

  function Begin(st: Strategy, now: int): Core {
    Core(now, now + st.total, true, 0)
  }

  /** The time left until delay has passed since the last attempt. */
  function NextSleep(st: Strategy, a: Core, now: int): (d: int)
    ensures d >= 0 && now + d >= a.last + st.delay
    ensures d > 0 ==> now + d == a.last + st.delay
  {
    var sleep := st.delay - (now - a.last);
    if sleep < 0 then 0 else sleep
  }

  predicate Stops(st: Strategy, a: Core, now: int) {
    !a.force && now + NextSleep(st, a, now) >= a.end && st.min <= a.count
  }

  /** The call is a Next that goes to sleep. */
  predicate Sleeps(st: Strategy, a: Core, e: Event) {
    e.Next? && !Stops(st, a, e.now) && NextSleep(st, a, e.now) > 0 && a.count > 0
  }

  /** The result of a call. */
  predicate Answer(st: Strategy, a: Core, e: Event) {
    match e
    case Next(now, _) => !Stops(st, a, now)
    case HasNext(now) => a.force || st.min > a.count || now + NextSleep(st, a, now) < a.end
  }

  /** The attempt's fields after a call. */
  function After(st: Strategy, a: Core, e: Event): Core {
    match e
    case Next(now, wake) =>
      if Stops(st, a, now) then a else Core(if Sleeps(st, a, e) then wake else now, a.end, false, a.count + 1)
    case HasNext(now) =>
      if !a.force && st.min <= a.count && now + NextSleep(st, a, now) < a.end then a.(force := true) else a
  }

  /** The last reading a call makes. */
  function ClockAfter(st: Strategy, a: Core, e: Event): int {
    if Sleeps(st, a, e) then e.wake else e.now
  }

  /** The readings are possible for a clock that never goes back and a sleep that is not cut short. */
  predicate Plausible(st: Strategy, a: Core, clock: int, e: Event) {
    e.now >= clock && (Sleeps(st, a, e) ==> e.wake >= e.now + NextSleep(st, a, e.now))
  }

  /** A run: the fields and the clock after the events, the results, and the times of the attempts made. */
  datatype Outcome = Outcome(a: Core, clock: int, results: seq<bool>, times: seq<int>)

  function Exec(st: Strategy, start: int, events: seq<Event>): (o: Outcome)
    ensures |o.results| == |events|
    decreases |events|
  {
    if events == [] then Outcome(Begin(st, start), start, [], [])
    else
      var o, e := Exec(st, start, events[..|events| - 1]), events[|events| - 1];
      var r := Answer(st, o.a, e);
      Outcome(After(st, o.a, e), ClockAfter(st, o.a, e), o.results + [r],
              if e.Next? && r then o.times + [ClockAfter(st, o.a, e)] else o.times)
  }

  predicate AllPlausible(st: Strategy, start: int, events: seq<Event>)
    decreases |events|
  {
    events == [] || (
      var before := events[..|events| - 1];
      AllPlausible(st, start, before)
      && Plausible(st, Exec(st, start, before).a, Exec(st, start, before).clock, events[|events| - 1]))
  }

  /** Attempts follow each other at least delay apart. */
  ghost predicate Spaced(st: Strategy, times: seq<int>) {
    forall i :: 0 < i < |times| ==> times[i] >= times[i - 1] + st.delay
  }

  /** The number n of attempts made is allowed by the strategy. */
  predicate Allowed(st: Strategy, n: int) {
    n <= 1 || n <= st.min || (n - 1) * st.delay < st.total
  }

  ghost predicate Inv(st: Strategy, start: int, o: Outcome) {
    && o.a.end == start + st.total && o.a.count == |o.times|
    && start <= o.a.last <= o.clock && Spaced(st, o.times)
    && (if o.times == [] then o.a.force && o.a.last == start else o.a.last == o.times[|o.times| - 1])
    && (o.times != [] ==> o.a.last >= start + (o.a.count - 1) * st.delay)
    && (o.a.force && o.times != [] ==> o.a.last + st.delay < o.a.end)
    && Allowed(st, o.a.count)
  }

  lemma NextStep(st: Strategy, start: int, o: Outcome, e: Event)
    requires Inv(st, start, o) && Plausible(st, o.a, o.clock, e) && e.Next? && !Stops(st, o.a, e.now)
    ensures o.times != [] ==> ClockAfter(st, o.a, e) >= o.a.last + st.delay >= start + o.a.count * st.delay
    ensures Allowed(st, o.a.count + 1)
  {
    if o.times != [] {
      var n := o.a.count;
      assert (n - 1) * st.delay + st.delay == n * st.delay;
      assert o.a.last + st.delay >= start + n * st.delay;
    }
  }

  lemma InvStep(st: Strategy, start: int, o: Outcome, e: Event, o': Outcome)
    requires Inv(st, start, o) && Plausible(st, o.a, o.clock, e)
    requires o'.a == After(st, o.a, e) && o'.clock == ClockAfter(st, o.a, e)
    requires o'.times == if e.Next? && Answer(st, o.a, e) then o.times + [o'.clock] else o.times
    ensures Inv(st, start, o')
  {
    if e.Next? && !Stops(st, o.a, e.now) {
      NextStep(st, start, o, e);
    }
  }

  lemma BeginInv(st: Strategy, start: int)
    ensures Inv(st, start, Exec(st, start, []))
  {
  }

  lemma {:induction false} ExecInv(st: Strategy, start: int, events: seq<Event>)
    requires AllPlausible(st, start, events)
    ensures Inv(st, start, Exec(st, start, events))
    decreases |events|
  {
    hide Inv;
    if events == [] {
      BeginInv(st, start);
    } else {
      var before := events[..|events| - 1];
      ExecInv(st, start, before);
      InvStep(st, start, Exec(st, start, before), events[|events| - 1], Exec(st, start, events));
    }
  }

  /** The retry bound, for any mix of calls: how many attempts are made and how far apart they are. */
  lemma RetryBound(st: Strategy, start: int, events: seq<Event>)
    requires AllPlausible(st, start, events)
    ensures var o := Exec(st, start, events);
            && |o.times| == Count(Zip(events, o.results), TrueNext)
            && (|o.times| <= 1 || |o.times| <= st.min || (|o.times| - 1) * st.delay < st.total)
            && forall i :: 0 < i < |o.times| ==> o.times[i] >= o.times[i - 1] + st.delay
  {
    ExecInv(st, start, events);
    TimesCount(st, start, events);
  }

  function Zip(events: seq<Event>, results: seq<bool>): seq<(Event, bool)>
    requires |events| == |results|
  {
    seq(|events|, i requires 0 <= i < |events| => (events[i], results[i]))
  }

  predicate TrueNext(p: (Event, bool)) {
    p.0.Next? && p.1
  }

  lemma {:induction false} TimesCount(st: Strategy, start: int, events: seq<Event>)
    ensures var o := Exec(st, start, events);
            |o.times| == Count(Zip(events, o.results), TrueNext)
    decreases |events|
  {
    if events == [] {
    } else {
      var n := |events| - 1;
      var o, o' := Exec(st, start, events[..n]), Exec(st, start, events);
      TimesCount(st, start, events[..n]);
      assert Zip(events, o'.results)[..n] == Zip(events[..n], o.results);
      assert Zip(events, o'.results)[n] == (events[n], o'.results[n]);
    }
  }

  // ----- the promises

  /** The next call of either kind is true, whatever the clock says by then. */
  predicate Promised(st: Strategy, a: Core) {
    a.force || st.min > a.count
  }

  lemma {:induction false} ResultAt(st: Strategy, start: int, events: seq<Event>, k: nat)
    requires k < |events|
    ensures Exec(st, start, events).results[k] == Answer(st, Exec(st, start, events[..k]).a, events[k])
    ensures Exec(st, start, events[..k + 1]).a == After(st, Exec(st, start, events[..k]).a, events[k])
    decreases |events|
  {
    hide Answer, After, ClockAfter;
    if k == |events| - 1 {
    } else {
      var before := events[..|events| - 1];
      ResultAt(st, start, before, k);
      assert before[..k] == events[..k];
    }
    assert events[..k + 1][..k] == events[..k];
  }

  lemma {:induction false} PromiseKept(st: Strategy, start: int, events: seq<Event>, i: nat, j: nat)
    requires i < j < |events| && events[i].HasNext? && Exec(st, start, events).results[i]
    requires forall k :: i < k < j ==> events[k].HasNext?
    ensures Promised(st, Exec(st, start, events[..j]).a)
    decreases j
  {
    ResultAt(st, start, events, j - 1);
    if i == j - 1 {
    } else {
      PromiseKept(st, start, events, i, j - 1);
    }
  }

  /** After a true HasNext, every result up to and including that of the next Next is true, at any times. */
  lemma HasNextPromise(st: Strategy, start: int, events: seq<Event>, i: nat, j: nat)
    requires i < j < |events| && events[i].HasNext? && Exec(st, start, events).results[i]
    requires forall k :: i < k < j ==> events[k].HasNext?
    ensures Exec(st, start, events).results[j]
  {
    PromiseKept(st, start, events, i, j);
    ResultAt(st, start, events, j);
  }

  /** A HasNext has been true since the last attempt. */
  predicate Pledged(st: Strategy, start: int, events: seq<Event>)
    decreases |events|
  {
    if events == [] then false
    else
      var n := |events| - 1;
      if Exec(st, start, events).results[n] then events[n].HasNext? else Pledged(st, start, events[..n])
  }

  lemma {:induction false} PledgeIsForce(st: Strategy, start: int, events: seq<Event>)
    requires AllPlausible(st, start, events)
    ensures var o := Exec(st, start, events);
            && (o.a.force ==> o.times == [] || Pledged(st, start, events))
            && (Pledged(st, start, events) ==> Promised(st, o.a))
    decreases |events|
  {
    if events == [] {
    } else {
      var before := events[..|events| - 1];
      PledgeIsForce(st, start, before);
      ExecInv(st, start, before);
    }
  }

  /**
   What both calls answer, exactly: true for the first attempt, below the
   minimum, after a true HasNext since the last attempt, and else exactly if
   neither now nor delay after the last attempt is past the total.
   */
  lemma AnswersExactly(st: Strategy, start: int, events: seq<Event>, e: Event)
    requires AllPlausible(st, start, events)
    ensures var o := Exec(st, start, events);
            Answer(st, o.a, e) <==>
              || o.times == [] || |o.times| < st.min || Pledged(st, start, events)
              || (e.now < start + st.total && o.times[|o.times| - 1] + st.delay < start + st.total)
  {
    ExecInv(st, start, events);
    PledgeIsForce(st, start, events);
  }

  /** When an attempt is made: at once the first time and when delay has passed, else when the sleep is over. */
  lemma WaitsExactly(st: Strategy, start: int, events: seq<Event>, e: Event)
    requires AllPlausible(st, start, events) && e.Next? && Answer(st, Exec(st, start, events).a, e)
    ensures var times := Exec(st, start, events).times;
            var waits := times != [] && e.now < times[|times| - 1] + st.delay;
            Exec(st, start, events + [e]).times == times + [if waits then e.wake else e.now]
  {
    ExecInv(st, start, events);
    assert (events + [e])[..|events|] == events;
  }

  /** Next is false only after max(1, min) attempts. */
  lemma FalseOnlyAfterMin(st: Strategy, start: int, events: seq<Event>, e: Event)
    requires AllPlausible(st, start, events) && e.Next? && !Answer(st, Exec(st, start, events).a, e)
    ensures |Exec(st, start, events).times| >= 1 && |Exec(st, start, events).times| >= st.min
  {
    ExecInv(st, start, events);
  }

  /** No attempt will be made any more. */
  predicate Over(st: Strategy, a: Core, clock: int) {
    !a.force && st.min <= a.count && (clock >= a.end || a.last + st.delay >= a.end)
  }

  lemma OverStays(st: Strategy, a: Core, clock: int, e: Event)
    requires Over(st, a, clock) && Plausible(st, a, clock, e)
    ensures !Answer(st, a, e) && After(st, a, e) == a && Over(st, a, ClockAfter(st, a, e))
  {
  }

  lemma FalseMeansOver(st: Strategy, a: Core, e: Event)
    requires !Answer(st, a, e)
    ensures After(st, a, e) == a && Over(st, a, e.now) && ClockAfter(st, a, e) == e.now
  {
  }

  /** After a false from either call, every later result is false and nothing changes. */
  lemma {:induction false} FalseIsPermanent(st: Strategy, start: int, events: seq<Event>, i: nat)
    requires AllPlausible(st, start, events) && i < |events|
    requires !Exec(st, start, events).results[i]
    ensures forall j :: i <= j < |events| ==> !Exec(st, start, events).results[j]
    ensures Over(st, Exec(st, start, events).a, Exec(st, start, events).clock)
    ensures Exec(st, start, events[..i]).a == Exec(st, start, events).a
    ensures Exec(st, start, events[..i]).times == Exec(st, start, events).times
    decreases |events|
  {
    hide Over, Answer, After, ClockAfter, Plausible, Begin;
    var n := |events| - 1;
    var before, e := events[..n], events[n];
    var o := Exec(st, start, before);
    if i == n {
      FalseMeansOver(st, o.a, e);
    } else {
      FalseIsPermanent(st, start, before, i);
      OverStays(st, o.a, o.clock, e);
      assert before[..i] == events[..i];
    }
  }

  // ----- the methods

  class Clock {
    var time: int

    constructor (time: int)
      ensures this.time == time
    {
      this.time := time;
    }

    /** Reads the clock; any time may have passed. */
    method Now() returns (t: int)
      modifies this
      ensures t == time >= old(time)
    {
      var passed: nat :| true;
      time := time + passed;
      t := time;
    }

    method Sleep(d: int)
      modifies this
      ensures time >= old(time) + d && time >= old(time)
    {
      if d > 0 {
        time := time + d;
      }
    }
  }

  class Attempt {
    const clock: Clock
    const strategy: Strategy
    var last: int
    var end: int
    var force: bool
    var count: int

    function State(): Core
      reads this
    {
      Core(last, end, force, count)
    }

    constructor Start(strategy: Strategy, clock: Clock)
      modifies clock
      ensures this.strategy == strategy && this.clock == clock
      ensures State() == Begin(strategy, clock.time) && clock.time >= old(clock.time)
    {
      var now := clock.Now();
      this.strategy, this.clock := strategy, clock;
      last, end, force, count := now, now + strategy.total, true, 0;
    }

    method Next() returns (r: bool, ghost e: Event)
      modifies this, clock
      ensures e.Next? && Plausible(strategy, old(State()), old(clock.time), e)
      ensures r == Answer(strategy, old(State()), e)
      ensures State() == After(strategy, old(State()), e)
      ensures clock.time == ClockAfter(strategy, old(State()), e)
    {
      var now := clock.Now();
      e := Event.Next(now, now);
      var sleep := NextSleep(strategy, State(), now);
      if !force && !(now + sleep < end) && strategy.min <= count {
        return false, e;
      }
      force := false;
      if sleep > 0 && count > 0 {
        clock.Sleep(sleep);
        ghost var first := now;
        now := clock.Now();
        e := Event.Next(first, now);
      }
      count := count + 1;
      last := now;
      r := true;
    }

    method HasNext() returns (r: bool, ghost e: Event)
      modifies this, clock
      ensures e.HasNext? && Plausible(strategy, old(State()), old(clock.time), e)
      ensures r == Answer(strategy, old(State()), e)
      ensures State() == After(strategy, old(State()), e)
      ensures clock.time == ClockAfter(strategy, old(State()), e)
    {
      e := Event.HasNext(clock.time);
      if force || strategy.min > count {
        return true, e;
      }
      var now := clock.Now();
      e := Event.HasNext(now);
      if now + NextSleep(strategy, State(), now) < end {
        force := true;
        return true, e;
      }
      return false, e;
    }
  }

  /** Any mix of calls on the object is one of the runs above. */
  method Mix(strategy: Strategy, clock: Clock, calls: seq<bool>)
    returns (a: Attempt, results: seq<bool>, ghost start: int, ghost events: seq<Event>)
    modifies clock
    ensures fresh(a) && a.strategy == strategy && a.clock == clock
    ensures |events| == |calls| && forall i :: 0 <= i < |calls| ==> (calls[i] <==> events[i].Next?)
    ensures AllPlausible(strategy, start, events)
    ensures var o := Exec(strategy, start, events);
            results == o.results && a.State() == o.a && clock.time == o.clock
  {
    hide Answer, After, ClockAfter, Plausible, Begin;
    a := new Attempt.Start(strategy, clock);
    start, events, results := clock.time, [], [];
    for i := 0 to |calls|
      invariant a.strategy == strategy && a.clock == clock && fresh(a)
      invariant |events| == i && forall j :: 0 <= j < i ==> (calls[j] <==> events[j].Next?)
      invariant AllPlausible(strategy, start, events)
      invariant var o := Exec(strategy, start, events);
                results == o.results && a.State() == o.a && clock.time == o.clock
    {
      var r;
      ghost var e;
      if calls[i] {
        r, e := a.Next();
      } else {
        r, e := a.HasNext();
      }
      assert (events + [e])[..i] == events;
      events, results := events + [e], results + [r];
    }
  }
}
