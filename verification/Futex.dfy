/** The futex wait queue: who is woken, who is moved, and that no wake-up is lost or made up. */
module Futex {
  import opened Base

  /** `mask` is the set of bits of the waiter's bitset. */
  datatype Waiter = Waiter(id: nat, address: nat, mask: set<nat>, isPrivate: bool, woken: bool)

  /** What a wake looks for; a requeue ignores bitsets. */
  datatype Key = Key(address: nat, isPrivate: bool, mask: Option<set<nat>>)

  predicate Eligible(w: Waiter, key: Key) {
    !w.woken && w.address == key.address && w.isPrivate == key.isPrivate
        && (key.mask.Some? ==> w.mask * key.mask.value != {})
  }

  /** How many eligible waiters queued before position `i`. */
  function Rank(active: seq<Waiter>, key: Key, i: nat): (r: nat)
    requires i <= |active|
    ensures r <= i
  {
    if i == 0 then 0 else Rank(active, key, i - 1) + if Eligible(active[i - 1], key) then 1 else 0
  }

  function Min(a: nat, b: nat): nat {
    if a < b then a else b
  }

  /** The earliest `wakes` eligible waiters are woken, the next `moves` are moved, everyone else stays. */
  function ServedOne(w: Waiter, key: Key, rank: nat, wakes: nat, moves: nat, to: nat): Waiter {
    if !Eligible(w, key) then w
    else if rank < wakes then w.(woken := true)
    else if rank < wakes + moves then w.(address := to)
    else w
  }

  function Served(active: seq<Waiter>, key: Key, wakes: nat, moves: nat, to: nat): (r: seq<Waiter>)
    ensures |r| == |active|
    ensures forall i {:trigger r[i]} :: 0 <= i < |active| ==>
              r[i] == ServedOne(active[i], key, Rank(active, key, i), wakes, moves, to)
  {
    seq(|active|, i requires 0 <= i < |active| => ServedOne(active[i], key, Rank(active, key, i), wakes, moves, to))
  }

  /** Once enough are served the rest of the queue is as it was. */
  lemma {:induction false} RankGrows(active: seq<Waiter>, key: Key, i: nat, j: nat)
    requires i <= j <= |active|
    ensures Rank(active, key, i) <= Rank(active, key, j)
    decreases j
  {
    if i < j { RankGrows(active, key, i, j - 1); }
  }

  /** Nonpositive counts wake one, as the original system call does. */
  function Wanted(count: int): (n: nat)
    ensures n >= 1
  {
    if count > 0 then count else 1
  }

  /** The queue with its first `i` waiters served. */
  ghost predicate ServedTo(before: seq<Waiter>, after: seq<Waiter>, key: Key, wakes: nat, moves: nat, to: nat, i: nat) {
    && i <= |before| == |after|
    && (forall j {:trigger after[j]} :: 0 <= j < i ==>
         after[j] == ServedOne(before[j], key, Rank(before, key, j), wakes, moves, to))
    && (forall j {:trigger after[j]} :: i <= j < |after| ==> after[j] == before[j])
  }

  lemma ServeNext(before: seq<Waiter>, after: seq<Waiter>, key: Key, wakes: nat, moves: nat, to: nat, i: nat, w: Waiter)
    requires ServedTo(before, after, key, wakes, moves, to, i) && i < |before|
             && w == ServedOne(before[i], key, Rank(before, key, i), wakes, moves, to)
    ensures after[i] == before[i] && ServedTo(before, after[i := w], key, wakes, moves, to, i + 1)
    ensures w == before[i] ==> after[i := w] == after
    ensures Rank(before, key, i + 1) == Rank(before, key, i) + if Eligible(before[i], key) then 1 else 0
  {
    hide ServedOne, Eligible;
  }

  lemma ServedAll(before: seq<Waiter>, after: seq<Waiter>, key: Key, wakes: nat, moves: nat, to: nat, i: nat)
    requires ServedTo(before, after, key, wakes, moves, to, i)
             && (i == |before| || Rank(before, key, i) >= wakes + moves)
    ensures after == Served(before, key, wakes, moves, to)
    ensures Min(Rank(before, key, |before|), wakes + moves) == Min(Rank(before, key, i), wakes + moves)
  {
    RankGrows(before, key, i, |before|);
    forall j | i <= j < |before|
      ensures ServedOne(before[j], key, Rank(before, key, j), wakes, moves, to) == before[j]
    {
      RankGrows(before, key, i, j);
    }
    hide ServedOne, Rank;
    assert forall j :: 0 <= j < |before| ==> after[j] == Served(before, key, wakes, moves, to)[j];
  }

  class Queue {
    var active: seq<Waiter>

    method Wake(key: Key, count: int) returns (done: nat)
      requires key.mask.Some?
      modifies this`active
      ensures var most := if count > 0 then count else 1;
              && active == Served(old(active), key, most, 0, key.address)
              && done == Min(Rank(old(active), key, |old(active)|), most)
    {
      hide Eligible, Served, ServedTo;
      var maximum := Wanted(count);
      ghost var before := active;
      assert ServedTo(before, active, key, maximum, 0, key.address, 0) by {
        ServeNone(before, key, maximum, 0, key.address);
      }
      done := 0;
      var i := 0;
      while i < |active|
        invariant i <= |active| == |before| && done == Rank(before, key, i) < maximum
        invariant ServedTo(before, active, key, maximum, 0, key.address, i)
      {
        ServeNext(before, active, key, maximum, 0, key.address, i,
            ServedOne(before[i], key, Rank(before, key, i), maximum, 0, key.address));
        if Eligible(active[i], key) {
          active := active[i := active[i].(woken := true)];
          done := done + 1;
          if done == maximum {
            ServedAll(before, active, key, maximum, 0, key.address, i + 1);
            return;
          }
        }
        i := i + 1;
      }
      ServedAll(before, active, key, maximum, 0, key.address, i);
    }

    /** FUTEX_REQUEUE: each waiter counts once, also when both keys are the same. */
    method Requeue(address: nat, wakes: nat, moves: nat, to: nat) returns (count: nat)
      modifies this`active
      ensures active == Served(old(active), Key(address, true, None), wakes, moves, to)
      ensures count == Min(Rank(old(active), Key(address, true, None), |old(active)|), wakes + moves)
    {
      hide Eligible, Served, ServedTo;
      ghost var before := active;
      var key := Key(address, true, None);
      assert ServedTo(before, active, key, wakes, moves, to, 0) by { ServeNone(before, key, wakes, moves, to); }
      var woken, moved := 0, 0;
      var i := 0;
      while i < |active|
        invariant i <= |active| == |before| && woken + moved == Rank(before, key, i) && woken <= wakes && moved <= moves
        invariant (moved > 0 ==> woken == wakes) && ServedTo(before, active, key, wakes, moves, to, i)
      {
        ServeNext(before, active, key, wakes, moves, to, i,
            ServedOne(before[i], key, Rank(before, key, i), wakes, moves, to));
        if Eligible(active[i], key) {
          if woken < wakes {
            active := active[i := active[i].(woken := true)];
            woken := woken + 1;
          } else if moved < moves {
            active := active[i := active[i].(address := to)];
            moved := moved + 1;
          } else {
            break;
          }
        }
        i := i + 1;
      }
      ServedAll(before, active, key, wakes, moves, to, i);
      count := woken + moved;
    }
  }

  lemma ServeNone(active: seq<Waiter>, key: Key, wakes: nat, moves: nat, to: nat)
    ensures ServedTo(active, active, key, wakes, moves, to, 0)
  {
  }

  // ---- who is served ----

  /** A waiter still waits for it: at that address, as private or shared as the wake, with a bit of its bitset if it has
      one. */
  ghost predicate Wants(w: Waiter, key: Key) {
    && !w.woken && w.address == key.address && (w.isPrivate <==> key.isPrivate)
    && (key.mask.Some? ==> exists bit :: bit in w.mask && bit in key.mask.value)
  }

  ghost function Ahead(active: seq<Waiter>, key: Key, i: nat): set<nat>
    requires i <= |active|
  {
    set j: nat | j < i && Wants(active[j], key)
  }

  lemma WantsIs(w: Waiter, key: Key)
    ensures Wants(w, key) <==> Eligible(w, key)
  {
    if key.mask.Some? {
      var both := w.mask * key.mask.value;
      if bit :| bit in w.mask && bit in key.mask.value { assert bit in both; }
      if both != {} { var bit :| bit in both; }
    }
  }

  lemma {:induction false} RankCounts(active: seq<Waiter>, key: Key, i: nat)
    requires i <= |active|
    ensures Rank(active, key, i) == |Ahead(active, key, i)|
  {
    if i == 0 {
      assert Ahead(active, key, 0) == {};
    } else {
      RankCounts(active, key, i - 1);
      WantsIs(active[i - 1], key);
      hide Wants, Eligible;
      var before := Ahead(active, key, i - 1);
      assert Ahead(active, key, i) == if Wants(active[i - 1], key) then before + {i - 1} else before;
    }
  }

  /** Who is woken and who is moved: of those that want it, in queue order, the first `wakes` and then the next `moves`.
      */
  lemma ServedMeans(active: seq<Waiter>, key: Key, wakes: nat, moves: nat, to: nat, i: nat)
    requires i < |active|
    ensures var w, ahead := active[i], |Ahead(active, key, i)|;
            Served(active, key, wakes, moves, to)[i] ==
              if !Wants(w, key) then w
              else if ahead < wakes then w.(woken := true)
              else if ahead < wakes + moves then w.(address := to)
              else w
  {
    RankCounts(active, key, i);
    WantsIs(active[i], key);
    hide Wants, Eligible, Rank;
  }

  // ---- conservation ----

  function WokenIn(active: seq<Waiter>): nat {
    if active == [] then 0 else WokenIn(active[..|active| - 1]) + if active[|active| - 1].woken then 1 else 0
  }

  lemma {:induction false} RankPrefix(active: seq<Waiter>, key: Key, n: nat, i: nat)
    requires i <= n <= |active|
    ensures Rank(active[..n], key, i) == Rank(active, key, i)
  {
    if i > 0 { RankPrefix(active, key, n, i - 1); }
  }

  /** A wake or requeue marks exactly as many waiters as it reports woken. */
  lemma {:induction false} ServedMarks(active: seq<Waiter>, key: Key, wakes: nat, moves: nat, to: nat)
    ensures WokenIn(Served(active, key, wakes, moves, to)) == WokenIn(active) + Min(Rank(active, key, |active|), wakes)
  {
    if active != [] {
      var n := |active| - 1;
      ServedMarks(active[..n], key, wakes, moves, to);
      ServedPrefix(active, key, wakes, moves, to);
      RankPrefix(active, key, n, n);
      MarkLast(active, key, wakes, moves, to);
      hide Served, Eligible;
    }
  }

  lemma MarkLast(active: seq<Waiter>, key: Key, wakes: nat, moves: nat, to: nat)
    requires active != []
    ensures var n := |active| - 1;
            var after := Served(active, key, wakes, moves, to);
            && WokenIn(after) == WokenIn(after[..n])
               + (if active[n].woken || (Eligible(active[n], key) && Rank(active, key, n) < wakes) then 1 else 0)
            && WokenIn(active) == WokenIn(active[..n]) + (if active[n].woken then 1 else 0)
            && Rank(active, key, n + 1) == Rank(active, key, n) + (if Eligible(active[n], key) then 1 else 0)
            && (Eligible(active[n], key) ==> !active[n].woken)
  {
    var n := |active| - 1;
    var after := Served(active, key, wakes, moves, to);
    ServedWoken(active[n], key, Rank(active, key, n), wakes, moves, to);
    assert after[n] == ServedOne(active[n], key, Rank(active, key, n), wakes, moves, to);
    hide Served, Eligible, ServedOne;
    WokenLast(after);
    WokenLast(active);
  }

  lemma ServedWoken(w: Waiter, key: Key, rank: nat, wakes: nat, moves: nat, to: nat)
    ensures ServedOne(w, key, rank, wakes, moves, to).woken <==> w.woken || (Eligible(w, key) && rank < wakes)
    ensures Eligible(w, key) ==> !w.woken
  {
  }

  lemma WokenLast(active: seq<Waiter>)
    requires active != []
    ensures WokenIn(active) == WokenIn(active[..|active| - 1]) + if active[|active| - 1].woken then 1 else 0
  {
  }

  lemma ServedPrefix(active: seq<Waiter>, key: Key, wakes: nat, moves: nat, to: nat)
    requires active != []
    ensures var n := |active| - 1;
            Served(active, key, wakes, moves, to)[..n] == Served(active[..n], key, wakes, moves, to)
  {
    var n := |active| - 1;
    hide ServedOne;
    forall i | 0 <= i < n
      ensures Served(active, key, wakes, moves, to)[i] == Served(active[..n], key, wakes, moves, to)[i]
    {
      RankPrefix(active, key, n, i);
    }
  }

  lemma {:induction false} RemoveMarks(active: seq<Waiter>, i: nat)
    requires i < |active|
    ensures WokenIn(RemoveAt(active, i)) == WokenIn(active) - if active[i].woken then 1 else 0
  {
    var n := |active| - 1;
    if i == n {
      assert RemoveAt(active, i) == active[..n];
    } else {
      assert RemoveAt(active, i)[..n - 1] == RemoveAt(active[..n], i) && RemoveAt(active, i)[n - 1] == active[n];
      RemoveMarks(active[..n], i);
    }
  }

  // ---- runs ----

  /** The queue together with what has happened: ids handed out, waiters marked, waits that returned zero and that did
      not. */
  datatype State = State(active: seq<Waiter>, nextId: nat, marked: nat, succeeded: nat, gaveUp: nat)

  /** The critical sections of the futex lock; `GiveUp` is what a wait would report if it were not woken. */
  datatype Step =
    | Enqueue(address: nat, mask: set<nat>, isPrivate: bool)
    | WakeStep(key: Key, count: int)
    | RequeueStep(address: nat, wakes: nat, moves: nat, to: nat)
    | ClearTid(address: nat)
    | Leave(index: nat, giveUp: int)

  const ALL_BITS: set<nat> := set b | 0 <= b < 32

  predicate Enabled(s: State, limit: nat, step: Step) {
    match step
    case Enqueue(_, mask, _) => mask != {} && mask <= ALL_BITS && |s.active| != limit
    case WakeStep(key, _) => key.mask.Some? && key.mask.value != {}
    case RequeueStep(_, _, _, _) => true
    case ClearTid(_) => true
    case Leave(index, giveUp) => index < |s.active| && giveUp < 0
  }

  /** What a wait that leaves reports; FutexWait proves it of the loop, step by step. */
  function WaitResult(w: Waiter, giveUp: int): int {
    if w.woken then 0 else giveUp
  }

  function Next(s: State, limit: nat, step: Step): State
    requires Enabled(s, limit, step)
  {
    match step
    case Enqueue(address, mask, isPrivate) => s.(active := s.active
        + [Waiter(s.nextId, address, mask, isPrivate, false)], nextId := s.nextId + 1)
    case WakeStep(key, count) => Mark(s, key, Wanted(count), 0, key.address)
    case RequeueStep(address, wakes, moves, to) => Mark(s, Key(address, true, None), wakes, moves, to)
    case ClearTid(address) => Mark(s, Key(address, false, Some(ALL_BITS)), 1, 0, address)
    case Leave(index, giveUp) =>
      var zero := WaitResult(s.active[index], giveUp) == 0;
      s.(active := RemoveAt(s.active, index), succeeded := s.succeeded + if zero then 1 else 0,
          gaveUp := s.gaveUp + if zero then 0 else 1)
  }

  function Mark(s: State, key: Key, wakes: nat, moves: nat, to: nat): State {
    s.(active := Served(s.active, key, wakes, moves, to),
        marked := s.marked + Min(Rank(s.active, key, |s.active|), wakes))
  }

  /** Queue order is arrival order. */
  ghost predicate InOrder(active: seq<Waiter>, nextId: nat) {
    && (forall i {:trigger active[i]} :: 0 <= i < |active| ==> active[i].id < nextId)
    && (forall i, j {:trigger active[i], active[j]} :: 0 <= i < j < |active| ==> active[i].id < active[j].id)
  }

  /** Every wake-up is accounted for: waits that returned zero plus woken waiters that have yet to return. */
  ghost predicate Conserved(s: State) {
    && s.marked == s.succeeded + WokenIn(s.active)
    && s.nextId == s.succeeded + s.gaveUp + |s.active|
    && InOrder(s.active, s.nextId)
  }

  lemma ServedInOrder(active: seq<Waiter>, nextId: nat, key: Key, wakes: nat, moves: nat, to: nat)
    requires InOrder(active, nextId)
    ensures InOrder(Served(active, key, wakes, moves, to), nextId)
  {
    forall i | 0 <= i < |active| ensures Served(active, key, wakes, moves, to)[i].id == active[i].id {}
  }

  lemma NextConserved(s: State, limit: nat, step: Step)
    requires Conserved(s) && Enabled(s, limit, step)
    ensures Conserved(Next(s, limit, step))
  {
    match step
    case Enqueue(address, mask, isPrivate) =>
      var w := Waiter(s.nextId, address, mask, isPrivate, false);
      assert (s.active + [w])[..|s.active|] == s.active;
    case WakeStep(key, count) =>
      ServedMarks(s.active, key, Wanted(count), 0, key.address);
      ServedInOrder(s.active, s.nextId, key, Wanted(count), 0, key.address);
    case RequeueStep(address, wakes, moves, to) =>
      ServedMarks(s.active, Key(address, true, None), wakes, moves, to);
      ServedInOrder(s.active, s.nextId, Key(address, true, None), wakes, moves, to);
    case ClearTid(address) =>
      ServedMarks(s.active, Key(address, false, Some(ALL_BITS)), 1, 0, address);
      ServedInOrder(s.active, s.nextId, Key(address, false, Some(ALL_BITS)), 1, 0, address);
    case Leave(index, giveUp) =>
      RemoveMarks(s.active, index);
  }

  ghost predicate IsRun(states: seq<State>, limit: nat, steps: seq<Step>) {
    && |states| == |steps| + 1 && states[0] == State([], 0, 0, 0, 0)
    && forall i {:trigger steps[i]} :: 0 <= i < |steps| ==>
         Enabled(states[i], limit, steps[i]) && states[i + 1] == Next(states[i], limit, steps[i])
  }

  /** In every run the number of waiters marked woken is the number of waits that returned zero plus woken waiters still
      queued. */
  lemma {:induction false} WakesConserved(states: seq<State>, limit: nat, steps: seq<Step>, i: nat)
    requires IsRun(states, limit, steps) && i < |states|
    ensures Conserved(states[i])
  {
    if i > 0 {
      WakesConserved(states, limit, steps, i - 1);
      assert states[i] == Next(states[i - 1], limit, steps[i - 1]);
      hide Conserved, Next;
      NextConserved(states[i - 1], limit, steps[i - 1]);
    }
  }

  /** Once woken, a waiter stays woken until it returns zero. */
  lemma WokenStays(s: State, limit: nat, step: Step, i: nat)
    requires Enabled(s, limit, step) && i < |s.active| && s.active[i].woken
    ensures step.Leave? && step.index == i ==>
              Next(s, limit, step).succeeded == s.succeeded + 1 && Next(s, limit, step).gaveUp == s.gaveUp
    ensures !(step.Leave? && step.index == i) ==> s.active[i] in Next(s, limit, step).active
  {
    var s' := Next(s, limit, step);
    if step.Leave? && step.index != i {
      assert s'.active[if i < step.index then i else i - 1] == s.active[i];
    } else if !step.Leave? {
      assert s'.active[i] == s.active[i];
    }
  }
}
