/** Lazy timer accounting: scanning often or rarely gives the same ticks and the same next deadline. */
module Timerfd {
  import opened Base

  const U64_MAX: nat := U64_LIMIT - 1

  /** A zero deadline is a disarmed timer; a zero interval a timer that fires once. */
  datatype Timer = Timer(interval: nat, deadline: nat, ticks: nat)

  ghost predicate Valid(t: Timer) {
    t.interval <= I64_MAX && t.deadline <= I64_MAX && t.ticks <= U64_MAX
  }

  /** Expirations at or before `now`. */
  function Count(t: Timer, now: nat): nat {
    if t.deadline == 0 || t.deadline > now then 0
    else if t.interval == 0 then 1
    else 1 + (now - t.deadline) / t.interval
  }

  function AddTicks(ticks: nat, count: nat): nat {
    if count > U64_MAX - ticks then U64_MAX else ticks + count
  }

  function Refreshed(t: Timer, now: nat): (r: Timer)
    requires Valid(t) && now <= I64_MAX
  {
    if t.deadline == 0 || t.deadline > now then t
    else
      var count := Count(t, now);
      Timer(t.interval,
            if t.interval == 0 || now == I64_MAX then 0
            else if count > (I64_MAX - t.deadline) / t.interval then I64_MAX
            else t.deadline + count * t.interval,
            AddTicks(t.ticks, count))
  }

  // ---- the ticks are the expirations ----

  /** The k-th expiration, at deadline + k intervals, has been counted exactly when its time has come. */
  lemma CountExact(t: Timer, now: nat, k: nat)
    requires t.deadline != 0 && t.interval > 0
    ensures k < Count(t, now) <==> t.deadline + k * t.interval <= now
  {
    if t.deadline <= now {
      DivideMeans(now - t.deadline, t.interval, k);
    } else {
      assert k * t.interval >= 0;
    }
  }

  /** The next deadline is the first expiration after `now`, capped at the end of time. */
  lemma NextDeadline(t: Timer, now: nat)
    requires Valid(t) && now < I64_MAX && t.interval > 0 && 0 < t.deadline <= now
    ensures Refreshed(t, now).deadline == (var next := t.deadline + Count(t, now) * t.interval; if next > I64_MAX
            then I64_MAX else next)
    ensures Refreshed(t, now).deadline > now
    ensures now < t.deadline + Count(t, now) * t.interval <= now + t.interval
  {
    var c := Count(t, now);
    CountExact(t, now, c);
    CountExact(t, now, c - 1);
    DivideMeans(I64_MAX - t.deadline, t.interval, c);
    assert (c - 1) * t.interval == c * t.interval - t.interval;
  }

  lemma RefreshedValid(t: Timer, now: nat)
    requires Valid(t) && now <= I64_MAX
    ensures Valid(Refreshed(t, now))
  {
    if t.interval > 0 && 0 < t.deadline <= now < I64_MAX { NextDeadline(t, now); }
  }

  /** A timer without an interval gives one tick once it is due, whenever that is seen, and never another. */
  lemma OneShot(t: Timer, now1: nat, now2: nat)
    requires Valid(t) && t.interval == 0 && t.deadline != 0 && now1 <= now2 <= I64_MAX
    ensures now1 < t.deadline ==> Refreshed(t, now1) == t
    ensures now1 >= t.deadline ==>
              && Refreshed(t, now1) == Timer(0, 0, if t.ticks < U64_MAX then t.ticks + 1 else U64_MAX)
              && Refreshed(Refreshed(t, now1), now2) == Refreshed(t, now1)
  {
    RefreshedValid(t, now1);
  }

  /** A scan adds the expirations it finds to the unread ones, up to what the counter holds. */
  lemma TicksSaturate(t: Timer, now: nat)
    requires Valid(t) && now <= I64_MAX
    ensures var sum := t.ticks + Count(t, now); Refreshed(t, now).ticks == if sum < U64_MAX then sum else U64_MAX
  {
    hide Count;
    assert t.deadline == 0 || t.deadline > now ==> Count(t, now) == 0 by { NothingDue(t, now); }
  }

  lemma NothingDue(t: Timer, now: nat)
    ensures Count(t, now) == 0 <==> t.deadline == 0 || t.deadline > now
  {
    if t.deadline != 0 && t.deadline <= now && t.interval > 0 { CountExact(t, now, 0); }
  }

  // ---- path independence ----

  /** Counting from the advanced deadline continues the count. */
  lemma CountContinues(t: Timer, now1: nat, now2: nat)
    requires Valid(t) && t.interval > 0 && 0 < t.deadline <= now1 <= now2
    ensures var c := Count(t, now1);
            var u := t.(deadline := t.deadline + c * t.interval);
            Count(t, now2) == c + Count(u, now2)
  {
    var c := Count(t, now1);
    var u := t.(deadline := t.deadline + c * t.interval);
    var x, y := Count(t, now2), c + Count(u, now2);
    CountExact(t, now1, c - 1);
    CountExact(t, now2, c - 1);
    Shifted(t.deadline, t.interval, c, x);
    CountExact(t, now2, x);
    CountExact(u, now2, x - c);
    Shifted(t.deadline, t.interval, c, y);
    CountExact(t, now2, y);
    CountExact(u, now2, y - c);
  }

  lemma Shifted(d: nat, interval: nat, c: nat, e: nat)
    requires c <= e
    ensures d + c * interval + (e - c) * interval == d + e * interval
  {
    assert (e - c) * interval == e * interval - c * interval;
  }

  /** The scan in between was followed by more expirations. */
  lemma PathLater(t: Timer, now1: nat, now2: nat)
    requires Valid(t) && t.interval > 0 && 0 < t.deadline <= now1 <= now2 < I64_MAX
             && t.deadline + Count(t, now1) * t.interval <= now2
    ensures Valid(Refreshed(t, now1)) && Refreshed(Refreshed(t, now1), now2) == Refreshed(t, now2)
  {
    var c := Count(t, now1);
    var r := Refreshed(t, now1);
    NextDeadline(t, now1);
    RefreshedValid(t, now1);
    CountContinues(t, now1, now2);
    assert r == Timer(t.interval, t.deadline + c * t.interval, AddTicks(t.ticks, c));
    var more := Count(r, now2);
    assert more == Count(t.(deadline := r.deadline), now2);
    NextDeadline(t, now2);
    NextDeadline(r, now2);
    Shifted(t.deadline, t.interval, c, c + more);
    hide Count;
  }

  /** The scan in between was followed by none. */
  lemma PathSame(t: Timer, now1: nat, now2: nat)
    requires Valid(t) && t.interval > 0 && 0 < t.deadline <= now1 <= now2 < I64_MAX
             && t.deadline + Count(t, now1) * t.interval > now2
    ensures Valid(Refreshed(t, now1)) && Refreshed(Refreshed(t, now1), now2) == Refreshed(t, now2)
  {
    var c := Count(t, now1);
    NextDeadline(t, now1);
    RefreshedValid(t, now1);
    CountContinues(t, now1, now2);
    assert Count(t.(deadline := t.deadline + c * t.interval), now2) == 0;
    NextDeadline(t, now2);
    hide Count;
  }

  /** A scan in between changes nothing about a later one. */
  lemma PathIndependent(t: Timer, now1: nat, now2: nat)
    requires Valid(t) && now1 <= now2 < I64_MAX
    ensures Valid(Refreshed(t, now1)) && Refreshed(Refreshed(t, now1), now2) == Refreshed(t, now2)
  {
    RefreshedValid(t, now1);
    if 0 < t.deadline <= now1 && t.interval > 0 {
      hide Refreshed;
      if t.deadline + Count(t, now1) * t.interval <= now2 { PathLater(t, now1, now2); } else {
        PathSame(t, now1, now2);
      }
    }
  }

  function Scanned(t: Timer, times: seq<nat>): (r: Timer)
    requires Valid(t) && forall i {:trigger times[i]} :: 0 <= i < |times| ==> times[i] <= I64_MAX
    ensures Valid(r)
    decreases |times|
  {
    if times == [] then t
    else
      RefreshedValid(t, times[0]);
      Scanned(Refreshed(t, times[0]), times[1..])
  }

  /** No number of scans loses or duplicates an expiration: only the last time matters. */
  lemma {:induction false} ScansAgree(t: Timer, times: seq<nat>)
    requires Valid(t) && times != [] && times[|times| - 1] < I64_MAX
    requires forall i, j {:trigger times[i], times[j]} :: 0 <= i <= j < |times| ==> times[i] <= times[j]
    ensures (forall i {:trigger times[i]} :: 0 <= i < |times| ==> times[i] <= I64_MAX)
            && Scanned(t, times) == Refreshed(t, times[|times| - 1])
    decreases |times|
  {
    assert forall i {:trigger times[i]} :: 0 <= i < |times| ==> times[i] <= times[|times| - 1];
    RefreshedValid(t, times[0]);
    if |times| > 1 {
      var rest := times[1..];
      forall i, j | 0 <= i <= j < |rest|
        ensures rest[i] <= rest[j]
      {
        assert rest[i] == times[i + 1] && rest[j] == times[j + 1];
      }
      ScansAgree(Refreshed(t, times[0]), rest);
      PathIndependent(t, times[0], times[|times| - 1]);
    } else {
      assert Scanned(t, times) == Scanned(Refreshed(t, times[0]), times[1..]);
    }
  }

  // ---- the end of time ----

  /** The next deadline was capped, so the timer would seem to fire once more at the last instant. */
  predicate Capped(t: Timer, now1: nat) {
    now1 < I64_MAX && t.interval > 0 && 0 < t.deadline <= now1 && t.deadline + Count(t, now1) * t.interval > I64_MAX
  }

  /** At the last representable time the two paths agree exactly when no deadline was capped, or the ticks are
      saturated. */
  lemma LastInstant(t: Timer, now1: nat)
    requires Valid(t) && now1 <= I64_MAX
    ensures Valid(Refreshed(t, now1))
    ensures Refreshed(Refreshed(t, now1), I64_MAX) == Refreshed(t, I64_MAX) <==>
              !Capped(t, now1) || t.ticks + Count(t, now1) >= U64_MAX
  {
    RefreshedValid(t, now1);
    if now1 < I64_MAX && t.interval > 0 && 0 < t.deadline <= now1 {
      var c := Count(t, now1);
      var u := t.(deadline := t.deadline + c * t.interval);
      NextDeadline(t, now1);
      CountContinues(t, now1, I64_MAX);
      var r := Refreshed(t, now1);
      if Capped(t, now1) {
        assert Count(u, I64_MAX) == 0;
        assert r.deadline == I64_MAX && Count(r, I64_MAX) == 1;
      } else {
        assert Count(r, I64_MAX) == Count(u, I64_MAX);
      }
    }
  }

  /** An input on which they differ. */
  lemma LastInstantDiffers()
    ensures var t := Timer(I64_MAX, 1, 0);
            Valid(t) && Valid(Refreshed(t, 1)) && Refreshed(Refreshed(t, 1), I64_MAX) != Refreshed(t, I64_MAX)
  {
    var t := Timer(I64_MAX, 1, 0);
    assert Count(t, 1) == 1;
    assert Capped(t, 1);
    LastInstant(t, 1);
  }

  // ---- the descriptor ----

  class TimerOpen {
    var interval: nat
    var deadline: nat
    var ticks: nat

    ghost function View(): Timer
      reads this
    {
      Timer(interval, deadline, ticks)
    }

    method Refresh(now: nat)
      requires Valid(View()) && now <= I64_MAX
      modifies this
      ensures Valid(View()) && View() == Refreshed(old(View()), now)
    {
      RefreshedValid(View(), now);
      if deadline == 0 || deadline > now { return; }
      var count := if interval != 0 then 1 + (now - deadline) / interval else 1;
      ticks := if count > U64_MAX - ticks then U64_MAX else ticks + count;
      if interval == 0 || now == I64_MAX { deadline := 0; }
      else if count > (I64_MAX - deadline) / interval { deadline := I64_MAX; }
      else { deadline := deadline + count * interval; }
    }

    /** timerfd_settime; an absolute value is the deadline itself. */
    method Arm(newInterval: nat, value: nat, absolute: bool, now: nat)
      requires Valid(View()) && now <= I64_MAX && newInterval <= I64_MAX && value <= I64_MAX
      modifies this
      ensures Valid(View()) && interval == newInterval && ticks == 0 && (deadline == 0 <==> value == 0)
      ensures value != 0 && absolute ==> deadline == value
      ensures value != 0 && !absolute ==> deadline == if value + now > I64_MAX then I64_MAX else now + value
    {
      Refresh(now);
      interval, ticks := newInterval, 0;
      deadline := if value == 0 || absolute then value else if value > I64_MAX - now then I64_MAX else now + value;
    }

    /** A read takes every unread expiration up to now; without one it takes nothing. */
    method Take(now: nat) returns (taken: nat)
      requires Valid(View()) && now <= I64_MAX
      modifies this
      ensures Valid(View()) && ticks == 0
      ensures var sum := old(ticks) + Count(old(View()), now); taken == if sum < U64_MAX then sum else U64_MAX
      ensures View() == Refreshed(old(View()), now).(ticks := 0)
    {
      TicksSaturate(View(), now);
      Refresh(now);
      taken := ticks;
      ticks := 0;
    }
  }
}
