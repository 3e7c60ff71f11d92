/** The futex wait loop step by step: threads that take the lock, compare, queue, test, block and leave in any order. */
module FutexWait {
  import opened Base
  import opened Futex

  /** A call whose arguments have been checked. */
  datatype Call =
    | Wait(address: nat, expected: nat, mask: set<nat>, isPrivate: bool, timed: bool, interruptible: bool)
    | Wake(key: Key, count: int)
    | Requeue(address: nat, wakes: nat, moves: nat, to: nat)
    | Clear(address: nat)

  /** `Compared` has seen the expected word and is about to queue; all but `Wants`, `Blocked` and `Finished` hold the
      lock. */
  datatype Pc =
    | Wants
    | Entered
    | Compared
    | Testing(id: nat)
    | Deciding(id: nat)
    | Blocked(id: nat)
    | Erasing(id: nat)
    | Finished

  /** `result` is what the call has computed so far; `notified` says that a blocked thread's condition was signalled. */
  datatype Thread = Thread(call: Call, pc: Pc, result: int, notified: bool)

  /** `words` are the guest's mapped futex words. */
  datatype Machine = Machine(queue: State, words: map<nat, nat>, holder: Option<nat>, threads: seq<Thread>)

  predicate Holds(m: Machine, address: nat, value: nat) {
    address in m.words && m.words[address] == value
  }

  predicate HasLock(pc: Pc) {
    pc.Entered? || pc.Compared? || pc.Testing? || pc.Deciding? || pc.Erasing?
  }

  predicate InQueue(pc: Pc) {
    pc.Testing? || pc.Deciding? || pc.Blocked? || pc.Erasing?
  }

  ghost predicate Queued(active: seq<Waiter>, id: nat) {
    exists i :: 0 <= i < |active| && active[i].id == id
  }

  ghost predicate Woken(active: seq<Waiter>, id: nat) {
    exists i :: 0 <= i < |active| && active[i].id == id && active[i].woken
  }

  /** What the guest clock says about the deadline. */
  datatype Clock = Fails(error: int) | Passed | Before

  /** Guest memory changes as it likes; `Acquire` is also how a blocked thread continues, signalled or not. */
  datatype Move =
    | Guest(words: map<nat, nat>)
    | Acquire(t: nat)
    | Work(t: nat)
    | Enter(t: nat)
    | Test(t: nat, index: nat)
    | Decide(t: nat, interrupted: bool, clock: Clock)
    | Erase(t: nat, index: nat)

  predicate Here(m: Machine, t: nat, index: nat) {
    && t < |m.threads| && InQueue(m.threads[t].pc)
    && index < |m.queue.active| && m.queue.active[index].id == m.threads[t].pc.id
  }

  /** Bitsets are checked before the lock is taken. */
  predicate Checked(call: Call) {
    match call
    case Wait(_, _, mask, _, _, _) => mask != {} && mask <= ALL_BITS
    case Wake(key, _) => key.mask.Some? && key.mask.value != {}
    case _ => true
  }

  predicate Ready(m: Machine, move: Move) {
    match move
    case Guest(_) => true
    case Acquire(t) => t < |m.threads| && m.holder.None? && (m.threads[t].pc.Wants? || m.threads[t].pc.Blocked?)
    case Work(t) => t < |m.threads| && m.threads[t].pc.Entered? && Checked(m.threads[t].call)
    case Enter(t) => t < |m.threads| && m.threads[t].pc.Compared? && m.threads[t].call.Wait?
    case Test(t, index) => Here(m, t, index) && m.threads[t].pc.Testing?
    case Decide(t, _, clock) =>
      t < |m.threads| && m.threads[t].pc.Deciding? && m.threads[t].call.Wait? && (clock.Fails? ==> clock.error < 0)
    case Erase(t, index) => Here(m, t, index) && m.threads[t].pc.Erasing?
  }

  function At(m: Machine, t: nat, th: Thread): Machine
    requires t < |m.threads|
  {
    m.(threads := m.threads[t := th])
  }

  /** The call ends and lets go of the lock. */
  function Finish(m: Machine, t: nat, result: int): Machine
    requires t < |m.threads|
  {
    At(m, t, m.threads[t].(pc := Finished, result := result)).(holder := None)
  }

  /** Marking a waiter signals the thread blocked on it. */
  ghost function Signalled(threads: seq<Thread>, before: seq<Waiter>, after: seq<Waiter>): (r: seq<Thread>)
    ensures |r| == |threads|
    ensures forall t {:trigger r[t]} :: 0 <= t < |threads| ==> r[t] == SignalledOne(threads[t], before, after)
  {
    seq(|threads|, t requires 0 <= t < |threads| => SignalledOne(threads[t], before, after))
  }

  ghost function SignalledOne(th: Thread, before: seq<Waiter>, after: seq<Waiter>): Thread {
    if th.pc.Blocked? && Woken(after, th.pc.id) && !Woken(before, th.pc.id) then th.(notified := true) else th
  }

  ghost function Serve(m: Machine, step: Step, limit: nat): Machine
    requires Enabled(m.queue, limit, step)
  {
    var queue := Futex.Next(m.queue, limit, step);
    m.(queue := queue, threads := Signalled(m.threads, m.queue.active, queue.active))
  }

  /** How many waiters a wake or requeue says it served. */
  function Reported(m: Machine, key: Key, most: nat): nat {
    Min(Rank(m.queue.active, key, |m.queue.active|), most)
  }

  ghost function Requeued(m: Machine, t: nat, limit: nat): Machine
    requires t < |m.threads| && m.threads[t].call.Requeue?
  {
    var c := m.threads[t].call;
    Finish(Serve(m, RequeueStep(c.address, c.wakes, c.moves, c.to), limit), t, Reached(m, c))
  }

  /** Woken and moved waiters together. */
  function Reached(m: Machine, c: Call): nat
    requires c.Requeue?
  {
    Reported(m, Key(c.address, true, None), c.wakes + c.moves)
  }

  /** What one call does when it first has the lock. */
  ghost function Begin(m: Machine, t: nat, limit: nat): Machine
    requires t < |m.threads| && Checked(m.threads[t].call)
  {
    var th := m.threads[t];
    match th.call
    case Wait(address, expected, _, _, _, _) =>
      if address !in m.words then Finish(m, t, -14)
      else if m.words[address] != expected then Finish(m, t, -11)
      else if |m.queue.active| == limit then Finish(m, t, -12)
      else At(m, t, th.(pc := Compared))
    case Wake(key, count) =>
      if !key.isPrivate && key.address !in m.words then Finish(m, t, -14)
      else Finish(Serve(m, WakeStep(key, count), limit), t, Reported(m, key, Futex.Wanted(count)))
    case Requeue(_, _, _, _) => Requeued(m, t, limit)
    case Clear(address) =>
      if address !in m.words then Finish(m, t, -14)
      else Finish(Serve(m.(words := m.words[address := 0]), ClearTid(address), limit), t, 0)
  }

  /** The body of the wait loop once `woken` was found false. */
  function Decided(m: Machine, t: nat, interrupted: bool, clock: Clock): Machine
    requires t < |m.threads| && m.threads[t].pc.Deciding? && m.threads[t].call.Wait?
  {
    var th := m.threads[t];
    var id := th.pc.id;
    if th.call.interruptible && interrupted then At(m, t, th.(pc := Erasing(id), result := -4))
    else if th.call.timed && clock.Fails? then At(m, t, th.(pc := Erasing(id), result := clock.error))
    else if th.call.timed && clock.Passed? then At(m, t, th.(pc := Erasing(id), result := -110))
    else At(m, t, th.(pc := Blocked(id), result := 0, notified := false)).(holder := None)
  }

  ghost function Next(m: Machine, limit: nat, move: Move): Machine
    requires Ready(m, move)
  {
    match move
    case Guest(words) => m.(words := words)
    case Acquire(t) =>
      var th := m.threads[t];
      At(m, t, th.(pc := if th.pc.Wants? then Entered else Testing(th.pc.id), notified := false)).(holder := Some(t))
    case Work(t) => Begin(m, t, limit)
    case Enter(t) =>
      var th, q := m.threads[t], m.queue;
      var w := Waiter(q.nextId, th.call.address, th.call.mask, th.call.isPrivate, false);
      At(m, t, th.(pc := Testing(q.nextId), result := 0)).(queue :=
            q.(active := q.active + [w], nextId := q.nextId + 1))
    case Test(t, index) =>
      var th := m.threads[t];
      At(m, t, th.(pc := if m.queue.active[index].woken then Erasing(th.pc.id) else Deciding(th.pc.id)))
    case Decide(t, interrupted, clock) => Decided(m, t, interrupted, clock)
    case Erase(t, index) =>
      var zero, q := m.threads[t].result == 0, m.queue;
      var queue := q.(active := RemoveAt(q.active, index), succeeded := q.succeeded + if zero then 1 else 0,
                      gaveUp := q.gaveUp + if zero then 0 else 1);
      Finish(m.(queue := queue), t, m.threads[t].result)
  }

  // ---- how a wait begins and ends ----

  /** A wait is queued exactly when its word is there and still has the expected value and there is room; its waiter
      then is
      the last in the queue, not woken, with its own address, bitset and privacy. Otherwise it ends at once, with the
      reason. */
  lemma WaitBegins(m: Machine, limit: nat, t: nat)
    requires Ready(m, Work(t)) && m.threads[t].call.Wait?
    ensures var a, c := Next(m, limit, Work(t)), m.threads[t].call;
            if c.address in m.words && m.words[c.address] == c.expected && |m.queue.active| != limit
            then
              && Ready(a, Enter(t)) && a.holder == m.holder
              && var b := Next(a, limit, Enter(t));
              && b.threads[t].pc == Testing(m.queue.nextId) && b.holder == m.holder
              && b.queue.active == m.queue.active + [Waiter(m.queue.nextId, c.address, c.mask, c.isPrivate, false)]
            else
              && a.threads[t].pc == Finished && a.holder.None? && a.queue == m.queue
              && a.threads[t].result == if c.address !in m.words then -14
                                        else if m.words[c.address] != c.expected then -11 else -12
  {
  }

  /** A queued wait that was not woken goes to sleep exactly when it is not interrupted and has no deadline that passed
      or
      cannot be told; otherwise it leaves with the reason. */
  lemma WaitSleeps(m: Machine, limit: nat, t: nat, interrupted: bool, clock: Clock)
    requires Ready(m, Decide(t, interrupted, clock))
    ensures var a, c, id := Next(m, limit, Decide(t, interrupted, clock)), m.threads[t].call, m.threads[t].pc.id;
            if !(c.interruptible && interrupted) && !(c.timed && (clock.Fails? || clock.Passed?))
            then a.threads[t].pc == Blocked(id) && a.holder.None? && a.queue == m.queue
            else
              && a.threads[t].pc == Erasing(id) && a.queue == m.queue
              && a.threads[t].result == if c.interruptible && interrupted then -4
                                        else if clock.Fails? then clock.error else -110
  {
  }

  // ---- what holds in every state ----

  /** Exactly the holder is inside a critical section. */
  ghost predicate LockOk(m: Machine) {
    && (m.holder.Some? ==> m.holder.value < |m.threads|)
    && forall t {:trigger m.threads[t]} :: 0 <= t < |m.threads| ==> (HasLock(m.threads[t].pc) <==> m.holder == Some(t))
  }

  /** Each waiting thread has a waiter of its own in the queue. */
  ghost predicate WaitersOk(m: Machine) {
    && (forall t {:trigger m.threads[t]} :: 0 <= t < |m.threads| && InQueue(m.threads[t].pc) ==>
         Queued(m.queue.active, m.threads[t].pc.id))
    && (forall t, u {:trigger m.threads[t], m.threads[u]} ::
          0 <= t < u < |m.threads| && InQueue(m.threads[t].pc) && InQueue(m.threads[u].pc) ==>
                m.threads[t].pc.id != m.threads[u].pc.id)
  }

  /** One thread's result agrees with its waiter, and if it is blocked on a woken waiter it has been signalled. */
  ghost predicate ThreadOk(active: seq<Waiter>, th: Thread) {
    && (th.pc.Testing? ==> th.result == 0)
    && (th.pc.Deciding? ==> th.result == 0 && !Woken(active, th.pc.id))
    && (th.pc.Blocked? ==> th.result == 0 && (Woken(active, th.pc.id) ==> th.notified))
    && (th.pc.Erasing? ==> th.result <= 0 && (th.result == 0 <==> Woken(active, th.pc.id)))
  }

  ghost predicate ThreadsOk(m: Machine) {
    forall t {:trigger m.threads[t]} :: 0 <= t < |m.threads| ==> ThreadOk(m.queue.active, m.threads[t])
  }

  ghost predicate Inv(m: Machine) {
    LockOk(m) && WaitersOk(m) && ThreadsOk(m) && Conserved(m.queue)
  }

  lemma WokenHere(q: State, index: nat)
    requires InOrder(q.active, q.nextId) && index < |q.active|
    ensures Woken(q.active, q.active[index].id) <==> q.active[index].woken
  {
  }

  /** Marking and moving keeps every waiter, and who was woken. */
  lemma ServedKeeps(active: seq<Waiter>, key: Key, wakes: nat, moves: nat, to: nat, id: nat)
    ensures Queued(active, id) ==> Queued(Served(active, key, wakes, moves, to), id)
    ensures Woken(active, id) ==> Woken(Served(active, key, wakes, moves, to), id)
  {
    var after := Served(active, key, wakes, moves, to);
    if i :| 0 <= i < |active| && active[i].id == id && active[i].woken {
      assert after[i].id == id && after[i].woken;
    }
    if i :| 0 <= i < |active| && active[i].id == id { assert after[i].id == id; }
  }

  lemma NextKeepsWaiters(q: State, limit: nat, step: Step, id: nat)
    requires Enabled(q, limit, step) && !step.Enqueue? && !step.Leave?
    ensures Queued(q.active, id) ==> Queued(Futex.Next(q, limit, step).active, id)
    ensures Woken(q.active, id) ==> Woken(Futex.Next(q, limit, step).active, id)
  {
    hide Served, Queued, Woken;
    match step
    case WakeStep(key, count) => ServedKeeps(q.active, key, Futex.Wanted(count), 0, key.address, id);
    case RequeueStep(address, wakes, moves, to) => ServedKeeps(q.active, Key(address, true, None), wakes, moves, to,
        id);
    case ClearTid(address) => ServedKeeps(q.active, Key(address, false, Some(ALL_BITS)), 1, 0, address, id);
  }

  /** Serving keeps everything that is true of the threads, if none of them has just found its waiter not woken. */
  lemma ServeKeepsInv(m: Machine, step: Step, limit: nat, t: nat, result: int)
    requires Inv(m) && Enabled(m.queue, limit, step) && !step.Enqueue? && !step.Leave?
    requires m.holder == Some(t) && t < |m.threads| && m.threads[t].pc.Entered?
    ensures Inv(Finish(Serve(m, step, limit), t, result))
  {
    NextConserved(m.queue, limit, step);
    forall id: nat
      ensures Queued(m.queue.active, id) ==> Queued(Futex.Next(m.queue, limit, step).active, id)
      ensures Woken(m.queue.active, id) ==> Woken(Futex.Next(m.queue, limit, step).active, id)
    {
      NextKeepsWaiters(m.queue, limit, step, id);
    }
    hide Conserved, Enabled, Woken, Queued, Futex.Next;
    ThreadsServed(m, Futex.Next(m.queue, limit, step), t, result);
  }

  lemma ThreadsServed(m: Machine, queue: State, t: nat, result: int)
    requires Inv(m) && Conserved(queue) && m.holder == Some(t) && t < |m.threads| && m.threads[t].pc.Entered?
    requires forall id: nat :: Queued(m.queue.active, id) ==> Queued(queue.active, id)
    requires forall id: nat :: Woken(m.queue.active, id) ==> Woken(queue.active, id)
    ensures Inv(Finish(m.(queue := queue, threads := Signalled(m.threads, m.queue.active, queue.active)), t, result))
  {
    hide Conserved, Woken, Queued;
  }

  lemma BeginWait(m: Machine, t: nat, limit: nat)
    requires Inv(m) && t < |m.threads| && m.threads[t].pc.Entered? && Checked(m.threads[t].call)
             && m.threads[t].call.Wait?
    ensures Inv(Begin(m, t, limit))
  {
    HolderIs(m, t);
    hide Inv, Serve, Finish, Reported;
    EndKeepsInv(m, t, -14);
    EndKeepsInv(m, t, -11);
    EndKeepsInv(m, t, -12);
    CompareKeepsInv(m, t);
  }

  lemma BeginWake(m: Machine, t: nat, limit: nat)
    requires Inv(m) && t < |m.threads| && m.threads[t].pc.Entered? && Checked(m.threads[t].call)
             && m.threads[t].call.Wake?
    ensures Inv(Begin(m, t, limit))
  {
    HolderIs(m, t);
    hide Inv, Serve, Finish, Reported;
    var key, count := m.threads[t].call.key, m.threads[t].call.count;
    EndKeepsInv(m, t, -14);
    ServeKeepsInv(m, WakeStep(key, count), limit, t, Reported(m, key, Futex.Wanted(count)));
  }

  lemma BeginRequeue(m: Machine, t: nat, limit: nat)
    requires Inv(m) && t < |m.threads| && m.threads[t].pc.Entered? && m.threads[t].call.Requeue?
    ensures Inv(Requeued(m, t, limit))
  {
    HolderIs(m, t);
    hide Inv, Serve, Finish, Reached;
    var c := m.threads[t].call;
    ServeKeepsInv(m, RequeueStep(c.address, c.wakes, c.moves, c.to), limit, t, Reached(m, c));
  }

  lemma BeginClear(m: Machine, t: nat, limit: nat)
    requires Inv(m) && t < |m.threads| && m.threads[t].pc.Entered? && Checked(m.threads[t].call)
             && m.threads[t].call.Clear?
    ensures Inv(Begin(m, t, limit))
  {
    HolderIs(m, t);
    hide Inv, Serve, Finish, Reported;
    var address := m.threads[t].call.address;
    EndKeepsInv(m, t, -14);
    var stored := m.(words := m.words[address := 0]);
    WordsKeepInv(m, stored.words);
    ServeKeepsInv(stored, ClearTid(address), limit, t, 0);
  }

  lemma BeginKeepsInv(m: Machine, t: nat, limit: nat)
    requires Inv(m) && t < |m.threads| && m.threads[t].pc.Entered? && Checked(m.threads[t].call)
    ensures Inv(Begin(m, t, limit))
  {
    hide Inv, Requeued;
    match m.threads[t].call
    case Wait(_, _, _, _, _, _) => BeginWait(m, t, limit);
    case Wake(_, _) => BeginWake(m, t, limit);
    case Requeue(_, _, _, _) => BeginRequeue(m, t, limit);
    case Clear(_) => BeginClear(m, t, limit);
  }

  lemma HolderIs(m: Machine, t: nat)
    requires Inv(m) && t < |m.threads| && HasLock(m.threads[t].pc)
    ensures m.holder == Some(t)
  {
    hide Conserved, WaitersOk, ThreadsOk;
  }

  lemma WordsKeepInv(m: Machine, words: map<nat, nat>)
    requires Inv(m)
    ensures Inv(m.(words := words))
  {
    hide Conserved, ThreadOk;
  }

  lemma CompareKeepsInv(m: Machine, t: nat)
    requires Inv(m) && m.holder == Some(t) && t < |m.threads| && m.threads[t].pc.Entered?
    ensures Inv(At(m, t, m.threads[t].(pc := Compared)))
  {
    hide Conserved, Queued, Woken;
  }

  lemma EndKeepsInv(m: Machine, t: nat, result: int)
    requires Inv(m) && m.holder == Some(t) && t < |m.threads| && m.threads[t].pc.Entered?
    ensures Inv(Finish(m, t, result))
  {
    hide Conserved;
  }

  lemma EnteredConserved(q: State, w: Waiter)
    requires Conserved(q) && w.id == q.nextId && !w.woken
    ensures Conserved(q.(active := q.active + [w], nextId := q.nextId + 1))
  {
    assert (q.active + [w])[..|q.active|] == q.active;
  }

  lemma EnteredKeeps(q: State, w: Waiter, id: nat)
    requires InOrder(q.active, q.nextId) && w.id == q.nextId && !w.woken
    ensures Queued(q.active, id) ==> Queued(q.active + [w], id) && id < q.nextId
    ensures id != w.id ==> (Woken(q.active + [w], id) <==> Woken(q.active, id))
    ensures Queued(q.active + [w], w.id)
  {
    var after := q.active + [w];
    assert after[|q.active|] == w && forall i {:trigger after[i]} :: 0 <= i < |q.active| ==> after[i] == q.active[i];
    if i :| 0 <= i < |q.active| && q.active[i].id == id { assert after[i].id == id; }
    if i :| 0 <= i < |q.active| && q.active[i].id == id && q.active[i].woken { assert after[i].woken; }
  }

  /** Nothing changes for the other threads. */
  ghost predicate OthersSame(m: Machine, m': Machine, t: nat) {
    && |m'.threads| == |m.threads| && (forall u {:trigger m'.threads[u]} :: 0 <= u < |m.threads| && u != t ==>
         m'.threads[u] == m.threads[u])
    && (forall u {:trigger m.threads[u]} :: 0 <= u < |m.threads| && u != t && InQueue(m.threads[u].pc) ==>
          && Queued(m'.queue.active, m.threads[u].pc.id)
          && (Woken(m'.queue.active, m.threads[u].pc.id) <==> Woken(m.queue.active, m.threads[u].pc.id)))
  }

  /** No other thread's waiter has this id. */
  ghost predicate OwnId(m: Machine, t: nat, id: nat) {
    forall u {:trigger m.threads[u]} :: 0 <= u < |m.threads| && u != t && InQueue(m.threads[u].pc) ==>
          m.threads[u].pc.id != id
  }

  /** The holder of the lock moves on. */
  lemma HolderMoves(m: Machine, m': Machine, t: nat)
    requires Inv(m) && t < |m.threads| && m.holder == Some(t) && OthersSame(m, m', t) && Conserved(m'.queue)
    requires m'.holder == if HasLock(m'.threads[t].pc) then Some(t) else None
    requires InQueue(m'.threads[t].pc) ==>
               Queued(m'.queue.active, m'.threads[t].pc.id) && OwnId(m, t, m'.threads[t].pc.id)
    requires ThreadOk(m'.queue.active, m'.threads[t])
    ensures Inv(m')
  {
    hide Conserved, Queued, Woken;
  }

  lemma SameId(m: Machine, t: nat)
    requires Inv(m) && t < |m.threads| && InQueue(m.threads[t].pc)
    ensures OwnId(m, t, m.threads[t].pc.id) && Queued(m.queue.active, m.threads[t].pc.id)
            && ThreadOk(m.queue.active, m.threads[t])
  {
    hide Conserved, Queued, Woken;
  }

  lemma AllQueued(m: Machine)
    requires Inv(m)
    ensures forall u {:trigger m.threads[u]} :: 0 <= u < |m.threads| && InQueue(m.threads[u].pc) ==>
              Queued(m.queue.active, m.threads[u].pc.id)
    ensures Conserved(m.queue)
  {
    hide Conserved, Queued, Woken, ThreadOk;
  }

  lemma EnterKeepsInv(m: Machine, limit: nat, t: nat)
    requires Inv(m) && Ready(m, Enter(t))
    ensures Inv(Next(m, limit, Enter(t)))
  {
    HolderIs(m, t);
    AllQueued(m);
    var q, c := m.queue, m.threads[t].call;
    var w := Waiter(q.nextId, c.address, c.mask, c.isPrivate, false);
    assert InOrder(q.active, q.nextId);
    EnteredConserved(q, w);
    hide Conserved, Inv, InOrder, Queued, Woken;
    forall u | 0 <= u < |m.threads| && u != t && InQueue(m.threads[u].pc)
      ensures var id := m.threads[u].pc.id;
              id < q.nextId && Queued(q.active + [w], id) && (Woken(q.active + [w], id) <==> Woken(q.active, id))
    {
      EnteredKeeps(q, w, m.threads[u].pc.id);
    }
    EnteredKeeps(q, w, w.id);
    HolderMoves(m, Next(m, limit, Enter(t)), t);
  }

  lemma EraseKeepsInv(m: Machine, limit: nat, t: nat, index: nat)
    requires Inv(m) && Ready(m, Erase(t, index))
    ensures Inv(Next(m, limit, Erase(t, index)))
  {
    HolderIs(m, t);
    AllQueued(m);
    SameId(m, t);
    var q := m.queue;
    assert InOrder(q.active, q.nextId);
    WokenHere(q, index);
    ErasedConserved(q, index, m.threads[t].result == 0);
    hide Conserved, Inv, InOrder, Queued, Woken, RemoveAt;
    forall u | 0 <= u < |m.threads| && u != t && InQueue(m.threads[u].pc)
      ensures var id := m.threads[u].pc.id;
              Queued(RemoveAt(q.active, index), id) && (Woken(RemoveAt(q.active, index), id) <==> Woken(q.active, id))
    {
      RemoveKeeps(q, index, m.threads[u].pc.id);
    }
    HolderMoves(m, Next(m, limit, Erase(t, index)), t);
  }

  lemma ErasedConserved(q: State, index: nat, zero: bool)
    requires Conserved(q) && index < |q.active| && (zero <==> q.active[index].woken)
    ensures Conserved(q.(active := RemoveAt(q.active, index), succeeded := q.succeeded + (if zero then 1 else 0),
                         gaveUp := q.gaveUp + (if zero then 0 else 1)))
  {
    RemoveMarks(q.active, index);
    RemoveInOrder(q, index);
  }

  lemma RemoveInOrder(q: State, index: nat)
    requires InOrder(q.active, q.nextId) && index < |q.active|
    ensures InOrder(RemoveAt(q.active, index), q.nextId)
  {
  }

  lemma RemoveKeeps(q: State, index: nat, id: nat)
    requires InOrder(q.active, q.nextId) && index < |q.active| && id != q.active[index].id && Queued(q.active, id)
    ensures Queued(RemoveAt(q.active, index), id) && (Woken(RemoveAt(q.active, index), id) <==> Woken(q.active, id))
  {
    var after := RemoveAt(q.active, index);
    var i :| 0 <= i < |q.active| && q.active[i].id == id;
    assert after[if i < index then i else i - 1] == q.active[i];
  }

  lemma AcquireKeepsInv(m: Machine, limit: nat, t: nat)
    requires Inv(m) && Ready(m, Acquire(t))
    ensures Inv(Next(m, limit, Acquire(t)))
  {
    hide Conserved, Woken, Queued;
  }

  lemma TestKeepsInv(m: Machine, limit: nat, t: nat, index: nat)
    requires Inv(m) && Ready(m, Test(t, index))
    ensures Inv(Next(m, limit, Test(t, index)))
  {
    AllQueued(m);
    WokenHere(m.queue, index);
    HolderIs(m, t);
    SameId(m, t);
    hide Inv, Conserved, Woken, Queued, OwnId;
    HolderMoves(m, Next(m, limit, Test(t, index)), t);
  }

  lemma DecideKeepsInv(m: Machine, limit: nat, t: nat, interrupted: bool, clock: Clock)
    requires Inv(m) && Ready(m, Decide(t, interrupted, clock))
    ensures Inv(Next(m, limit, Decide(t, interrupted, clock)))
  {
    AllQueued(m);
    HolderIs(m, t);
    SameId(m, t);
    hide Inv, Conserved, Woken, Queued, OwnId;
    HolderMoves(m, Next(m, limit, Decide(t, interrupted, clock)), t);
  }

  lemma WorkKeepsInv(m: Machine, limit: nat, t: nat)
    requires Inv(m) && Ready(m, Work(t))
    ensures Inv(Next(m, limit, Work(t)))
  {
    hide Inv, Begin;
    BeginKeepsInv(m, t, limit);
  }

  lemma GuestKeepsInv(m: Machine, limit: nat, words: map<nat, nat>)
    requires Inv(m)
    ensures Inv(Next(m, limit, Guest(words)))
  {
    hide Inv;
    WordsKeepInv(m, words);
  }

  lemma NextKeepsInv(m: Machine, limit: nat, move: Move)
    requires Inv(m) && Ready(m, move)
    ensures Inv(Next(m, limit, move))
  {
    hide Inv, Ready, Next;
    match move
    case Guest(words) => GuestKeepsInv(m, limit, words);
    case Acquire(t) => AcquireKeepsInv(m, limit, t);
    case Work(t) => WorkKeepsInv(m, limit, t);
    case Enter(t) => EnterKeepsInv(m, limit, t);
    case Test(t, index) => TestKeepsInv(m, limit, t, index);
    case Decide(t, interrupted, clock) => DecideKeepsInv(m, limit, t, interrupted, clock);
    case Erase(t, index) => EraseKeepsInv(m, limit, t, index);
  }

  // ---- runs ----

  ghost predicate Starts(m: Machine) {
    && m.queue == State([], 0, 0, 0, 0) && m.holder.None?
    && forall t {:trigger m.threads[t]} :: 0 <= t < |m.threads| ==> m.threads[t].pc.Wants?
  }

  ghost predicate IsRun(states: seq<Machine>, limit: nat, moves: seq<Move>) {
    && |states| == |moves| + 1 && Starts(states[0])
    && forall i {:trigger moves[i]} :: 0 <= i < |moves| ==>
         Ready(states[i], moves[i]) && states[i + 1] == Next(states[i], limit, moves[i])
  }

  lemma RunStep(states: seq<Machine>, limit: nat, moves: seq<Move>, i: nat)
    requires IsRun(states, limit, moves) && i < |moves|
    ensures Ready(states[i], moves[i]) && states[i + 1] == Next(states[i], limit, moves[i])
  {
    hide Ready, Next;
  }

  lemma {:induction false} RunInv(states: seq<Machine>, limit: nat, moves: seq<Move>, n: nat)
    requires IsRun(states, limit, moves) && n < |states|
    ensures Inv(states[n])
  {
    if n > 0 {
      RunInv(states, limit, moves, n - 1);
      assert states[n] == Next(states[n - 1], limit, moves[n - 1]);
      hide Inv, Next, Ready;
      NextKeepsInv(states[n - 1], limit, moves[n - 1]);
    }
  }

  /** A wait that leaves the queue returns zero exactly when it was woken: no wake-up is reported as a timeout, an
      interruption or an error, and none of these as a wake-up. */
  lemma ReturnsZeroIffWoken(states: seq<Machine>, limit: nat, moves: seq<Move>, i: nat)
    requires IsRun(states, limit, moves) && i < |moves| && moves[i].Erase?
    ensures var t, index := moves[i].t, moves[i].index;
            && t < |states[i].threads| == |states[i + 1].threads| && index < |states[i].queue.active|
            && states[i + 1].threads[t].pc.Finished? && states[i + 1].threads[t].result <= 0
            && (states[i + 1].threads[t].result == 0 <==> states[i].queue.active[index].woken)
  {
    RunInv(states, limit, moves, i);
    assert Ready(states[i], moves[i]) && states[i + 1] == Next(states[i], limit, moves[i]);
    WokenHere(states[i].queue, moves[i].index);
    hide IsRun, Conserved, Woken, RemoveAt;
  }

  /** The step loop does what the critical sections of the queue do, so its wake-ups are conserved. */
  lemma ConservedThroughout(states: seq<Machine>, limit: nat, moves: seq<Move>, n: nat)
    requires IsRun(states, limit, moves) && n < |states|
    ensures states[n].queue.marked == states[n].queue.succeeded + WokenIn(states[n].queue.active)
  {
    RunInv(states, limit, moves, n);
    hide IsRun;
  }

  /** A thread that blocks after its waiter was examined and not woken cannot sleep through the mark: it is signalled.
      */
  lemma BlockedIsSignalled(states: seq<Machine>, limit: nat, moves: seq<Move>, n: nat, t: nat)
    requires IsRun(states, limit, moves) && n < |states| && t < |states[n].threads|
    requires states[n].threads[t].pc.Blocked? && Woken(states[n].queue.active, states[n].threads[t].pc.id)
    ensures states[n].threads[t].notified
  {
    RunInv(states, limit, moves, n);
    hide IsRun, Conserved, Woken;
  }

  // ---- store, then wake ----

  /** Thread `t` waits for the word to change from `value`, could be woken by `key`, and has not been. */
  ghost predicate Stranded(m: Machine, key: Key, value: nat, t: nat)
    requires t < |m.threads|
  {
    var th := m.threads[t];
    && th.call.Wait? && th.call.expected == value && th.call.address == key.address
    && if th.pc.Compared? then Eligible(Waiter(0, th.call.address, th.call.mask, th.call.isPrivate, false), key)
       else InQueue(th.pc) && exists i ::
             0 <= i < |m.queue.active| && m.queue.active[i].id == th.pc.id && Eligible(m.queue.active[i], key)
  }

  ghost predicate NoneStranded(m: Machine, key: Key, value: nat) {
    forall t {:trigger m.threads[t]} :: 0 <= t < |m.threads| ==> !Stranded(m, key, value, t)
  }

  /** A wake that found fewer waiters than it may wake leaves none behind. */
  lemma WakeLeavesNone(m: Machine, limit: nat, t: nat, value: nat)
    requires Inv(m) && Ready(m, Work(t)) && m.threads[t].call.Wake?
    requires 0 <= Next(m, limit, Work(t)).threads[t].result < Futex.Wanted(m.threads[t].call.count)
    ensures NoneStranded(Next(m, limit, Work(t)), m.threads[t].call.key, value)
  {
    var key, m' := m.threads[t].call.key, Next(m, limit, Work(t));
    assert m.holder == Some(t);
    var wakes := Futex.Wanted(m.threads[t].call.count);
    assert m'.queue.active == Served(m.queue.active, key, wakes, 0, key.address);
    forall i | 0 <= i < |m.queue.active| ensures !Eligible(m'.queue.active[i], key) {
      RankGrows(m.queue.active, key, i, |m.queue.active|);
    }
    hide Conserved, WaitersOk, ThreadsOk, Rank, Served, Eligible, Woken;
    forall u | 0 <= u < |m'.threads| ensures !Stranded(m', key, value, u) {
      assert u != t ==> m'.threads[u].pc == m.threads[u].pc;
    }
  }

  ghost predicate MovesTo(m: Machine, move: Move, address: nat) {
    move.Work? && move.t < |m.threads| && m.threads[move.t].call.Requeue? && m.threads[move.t].call.to == address
  }

  /** While the word is not what it waits for, no thread becomes stranded, unless a requeue brings it. */
  lemma StaysUnstranded(m: Machine, limit: nat, move: Move, key: Key, value: nat)
    requires Inv(m) && Ready(m, move) && NoneStranded(m, key, value) && !Holds(m, key.address, value)
             && !MovesTo(m, move, key.address)
    ensures NoneStranded(Next(m, limit, move), key, value)
  {
    var m' := Next(m, limit, move);
    forall t | 0 <= t < |m'.threads| ensures !Stranded(m', key, value, t) {
      NotStranded(m, limit, move, key, value, t);
    }
  }

  lemma NotStranded(m: Machine, limit: nat, move: Move, key: Key, value: nat, t: nat)
    requires Inv(m) && Ready(m, move) && NoneStranded(m, key, value) && !Holds(m, key.address, value)
             && !MovesTo(m, move, key.address)
    requires t < |m.threads| == |Next(m, limit, move).threads|
    ensures !Stranded(Next(m, limit, move), key, value, t)
  {
    assert !Stranded(m, key, value, t);
    match move
    case Work(u) =>
      hide Inv, NoneStranded, Next, Stranded;
      if m.threads[u].call.Wait? {
        ComparedNotStranded(m, limit, u, key, value, t);
      } else {
        ServedNotStranded(m, limit, u, key, value, t);
      }
    case Enter(u) =>
      assert !Stranded(m, key, value, u);
      assert WaitersOk(m) && InOrder(m.queue.active, m.queue.nextId);
      hide Inv, NoneStranded, Next, Stranded, WaitersOk, InOrder;
      EnteredNotStranded(m, limit, u, key, value, t);
    case _ =>
      hide Inv, NoneStranded, Next, Stranded, Holds;
      OthersNotStranded(m, limit, move, key, value, t);
  }

  lemma OthersNotStranded(m: Machine, limit: nat, move: Move, key: Key, value: nat, t: nat)
    requires Ready(m, move) && !move.Work? && !move.Enter? && t < |m.threads| && !Stranded(m, key, value, t)
    ensures t < |Next(m, limit, move).threads| && !Stranded(Next(m, limit, move), key, value, t)
  {
    match move
    case Guest(words) => StoredNotStranded(m, words, key, value, t);
    case Erase(u, index) => ErasedNotStranded(m, limit, u, index, key, value, t);
    case _ => hide Eligible;
  }

  lemma ErasedNotStranded(m: Machine, limit: nat, u: nat, index: nat, key: Key, value: nat, t: nat)
    requires Ready(m, Erase(u, index)) && t < |m.threads| && !Stranded(m, key, value, t)
    ensures !Stranded(Next(m, limit, Erase(u, index)), key, value, t)
  {
    var after := Next(m, limit, Erase(u, index)).queue.active;
    assert forall i {:trigger after[i]} :: 0 <= i < |after| ==>
             after[i] == m.queue.active[if i < index then i else i + 1];
    hide Eligible, RemoveAt;
  }

  /** Only a thread that sees the value goes on to queue. */
  lemma ComparedNotStranded(m: Machine, limit: nat, u: nat, key: Key, value: nat, t: nat)
    requires Ready(m, Work(u)) && m.threads[u].call.Wait? && t < |m.threads| && !Stranded(m, key, value, t)
             && !Holds(m, key.address, value)
    ensures t < |Next(m, limit, Work(u)).threads| && !Stranded(Next(m, limit, Work(u)), key, value, t)
  {
    hide Eligible;
  }

  lemma EnteredNotStranded(m: Machine, limit: nat, u: nat, key: Key, value: nat, t: nat)
    requires WaitersOk(m) && InOrder(m.queue.active, m.queue.nextId) && Ready(m, Enter(u)) && t < |m.threads|
    requires !Stranded(m, key, value, t) && !Stranded(m, key, value, u)
    ensures !Stranded(Next(m, limit, Enter(u)), key, value, t)
  {
    var m' := Next(m, limit, Enter(u));
    var n := |m.queue.active|;
    assert forall i {:trigger m'.queue.active[i]} :: 0 <= i < n ==> m'.queue.active[i] == m.queue.active[i];
    var w := m'.queue.active[n];
    assert t != u && InQueue(m.threads[t].pc) ==> m.threads[t].pc.id < m.queue.nextId by {
      if InQueue(m.threads[t].pc) {
        var i :| 0 <= i < n && m.queue.active[i].id == m.threads[t].pc.id;
      }
    }
    assert Eligible(w, key) <==> Eligible(w.(id := 0), key);
    hide WaitersOk, Eligible;
  }

  /** Marks and moves make no waiter eligible that was not, except by bringing it to the key's address. */
  lemma ServedNotEligible(q: State, limit: nat, step: Step, key: Key, i: nat)
    requires Enabled(q, limit, step) && !step.Enqueue? && !step.Leave? && (step.RequeueStep? ==> step.to != key.address)
             && i < |q.active|
    ensures var after := Futex.Next(q, limit, step).active;
            |after| == |q.active| && after[i].id == q.active[i].id
                && (Eligible(after[i], key) ==> Eligible(q.active[i], key))
  {
  }

  lemma ServeNotStranded(m: Machine, limit: nat, step: Step, key: Key, value: nat, t: nat)
    requires Enabled(m.queue, limit, step) && !step.Enqueue? && !step.Leave?
             && (step.RequeueStep? ==> step.to != key.address)
    requires t < |m.threads| && !Stranded(m, key, value, t)
    ensures t < |Serve(m, step, limit).threads| && !Stranded(Serve(m, step, limit), key, value, t)
  {
    forall i | 0 <= i < |m.queue.active|
      ensures var after := Futex.Next(m.queue, limit, step).active;
              |after| == |m.queue.active| && after[i].id == m.queue.active[i].id
                  && (Eligible(after[i], key) ==> Eligible(m.queue.active[i], key))
    {
      ServedNotEligible(m.queue, limit, step, key, i);
    }
    NextSize(m.queue, limit, step);
    hide Futex.Next, Eligible, Enabled, Woken;
  }

  lemma NextSize(q: State, limit: nat, step: Step)
    requires Enabled(q, limit, step) && !step.Enqueue? && !step.Leave?
    ensures |Futex.Next(q, limit, step).active| == |q.active|
  {
  }

  lemma FinishNotStranded(m: Machine, key: Key, value: nat, u: nat, result: int, t: nat)
    requires u < |m.threads| && t < |m.threads| && !Stranded(m, key, value, t)
    ensures t < |Finish(m, u, result).threads| && !Stranded(Finish(m, u, result), key, value, t)
  {
    hide Eligible;
  }

  lemma ServedNotStranded(m: Machine, limit: nat, u: nat, key: Key, value: nat, t: nat)
    requires Ready(m, Work(u)) && !m.threads[u].call.Wait? && t < |m.threads| && !Stranded(m, key, value, t)
    requires !MovesTo(m, Work(u), key.address)
    ensures t < |Next(m, limit, Work(u)).threads| && !Stranded(Next(m, limit, Work(u)), key, value, t)
  {
    hide Stranded, Serve, Reported, Reached, Finish;
    var c := m.threads[u].call;
    match c
    case Wake(k, count) =>
      FinishNotStranded(m, key, value, u, -14, t);
      ServeSize(m, limit, WakeStep(k, count));
      ServeNotStranded(m, limit, WakeStep(k, count), key, value, t);
      FinishNotStranded(Serve(m, WakeStep(k, count), limit), key, value, u, Reported(m, k, Futex.Wanted(count)), t);
    case Requeue(address, wakes, moves, to) =>
      var step := RequeueStep(address, wakes, moves, to);
      ServeSize(m, limit, step);
      ServeNotStranded(m, limit, step, key, value, t);
      FinishNotStranded(Serve(m, step, limit), key, value, u, Reached(m, c), t);
    case Clear(address) =>
      FinishNotStranded(m, key, value, u, -14, t);
      var stored := m.(words := m.words[address := 0]);
      StoredNotStranded(m, stored.words, key, value, t);
      ServeSize(stored, limit, ClearTid(address));
      ServeNotStranded(stored, limit, ClearTid(address), key, value, t);
      FinishNotStranded(Serve(stored, ClearTid(address), limit), key, value, u, 0, t);
  }

  lemma ServeSize(m: Machine, limit: nat, step: Step)
    requires Enabled(m.queue, limit, step)
    ensures |Serve(m, step, limit).threads| == |m.threads|
  {
  }

  lemma StoredNotStranded(m: Machine, words: map<nat, nat>, key: Key, value: nat, t: nat)
    requires t < |m.threads| && !Stranded(m, key, value, t)
    ensures !Stranded(m.(words := words), key, value, t)
  {
    hide Eligible;
  }

  /** From state `i` to just before state `n` the word is not `value`, and after the first step no requeue leads there.
      */
  ghost predicate Gone(states: seq<Machine>, moves: seq<Move>, i: nat, n: nat, address: nat, value: nat)
    requires i < n < |states| == |moves| + 1
  {
    && (forall k {:trigger states[k]} :: i <= k < n ==> !Holds(states[k], address, value))
    && (forall k {:trigger moves[k]} :: i < k < n ==> !MovesTo(states[k], moves[k], address))
  }

  /** A store followed by a wake is never missed: once the word is no longer `value` and a wake has found fewer waiters
      than it may wake, nobody who waits for that value there is left asleep, or falls asleep, while the word stays so.
      */
  lemma {:induction false} StoreThenWake(states: seq<Machine>, limit: nat, moves: seq<Move>, i: nat, n: nat, t: nat,
      key: Key, count: int,
                                         value: nat)
    requires IsRun(states, limit, moves) && i < n < |states| && moves[i] == Work(t) && t < |states[i].threads|
    requires states[i].threads[t].call == Wake(key, count) && t < |states[i + 1].threads|
    requires 0 <= states[i + 1].threads[t].result < Futex.Wanted(count) && Gone(states, moves, i, n, key.address, value)
    ensures NoneStranded(states[n], key, value)
    decreases n
  {
    RunInv(states, limit, moves, n - 1);
    RunStep(states, limit, moves, n - 1);
    if n == i + 1 {
      hide Inv, Next, Ready, NoneStranded, Gone, IsRun;
      WakeLeavesNone(states[i], limit, t, value);
    } else {
      GoneBefore(states, moves, i, n, key.address, value);
      hide Inv, Next, Ready, NoneStranded, Gone, IsRun, Holds, MovesTo;
      StoreThenWake(states, limit, moves, i, n - 1, t, key, count, value);
      StaysUnstranded(states[n - 1], limit, moves[n - 1], key, value);
    }
  }

  lemma GoneBefore(states: seq<Machine>, moves: seq<Move>, i: nat, n: nat, address: nat, value: nat)
    requires i + 1 < n < |states| == |moves| + 1 && Gone(states, moves, i, n, address, value)
    ensures Gone(states, moves, i, n - 1, address, value)
    ensures !Holds(states[n - 1], address, value) && !MovesTo(states[n - 1], moves[n - 1], address)
  {
    hide Holds, MovesTo;
  }
}
