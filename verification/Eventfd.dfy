/** Eventfd counting and its register-then-recheck sleep, under every interleaving of its callers. */
module Eventfd {
  import opened Base

  const U64_MAX: nat := U64_LIMIT - 1

  /** `value` is what a writer adds. */
  datatype Call = Read | Write(value: nat)

  /** `Wants` competes for the descriptor lock; `Committed` still holds it and owes the notification; `Attaching` has
      published an empty slot; `Asleep` has decided to sleep on its published owner. A nonblocking caller refuses
      instead. */
  datatype Pc = Wants | Checking | Committed | Attaching | Asleep | Finished

  /** `owner` says that the wake owner is published, `hint` that a wake signal is retained for it. */
  datatype Caller = Caller(call: Call, pc: Pc, registered: bool, owner: bool, hint: bool)

  /** The counter, the lock, the callers, and what has been added and taken so far. */
  datatype State = State(count: nat, holder: Option<nat>, callers: seq<Caller>, added: nat, taken: nat)

  predicate Permits(count: nat, call: Call) {
    match call
    case Read => count != 0
    case Write(value) => value < U64_MAX - count
  }

  function Amount(count: nat, semaphore: bool): nat {
    if semaphore then 1 else count
  }

  datatype Step =
    | Lock(i: nat)
    | Check(i: nat)
    | Refuse(i: nat)
    | Notify(i: nat)
    | Publish(i: nat)
    | WakeUp(i: nat)
    | Abandon(i: nat)

  predicate Enabled(s: State, step: Step) {
    match step
    case Lock(i) => i < |s.callers| && s.callers[i].pc.Wants? && s.holder.None?
    case Check(i) => i < |s.callers| && s.callers[i].pc.Checking?
    case Refuse(i) => i < |s.callers| && s.callers[i].pc.Checking? && !Permits(s.count, s.callers[i].call)
    case Notify(i) => i < |s.callers| && s.callers[i].pc.Committed?
    case Publish(i) => i < |s.callers| && s.callers[i].pc.Attaching?
    case WakeUp(i) => i < |s.callers| && s.callers[i].pc.Asleep?
    case Abandon(i) => i < |s.callers| && (s.callers[i].pc.Asleep? || s.callers[i].pc.Attaching?)
  }

  /** Every published owner gets a signal that stays until its wait consumes it. */
  function Signalled(callers: seq<Caller>): (r: seq<Caller>)
    ensures |r| == |callers|
    ensures forall i {:trigger r[i]} :: 0 <= i < |callers| ==>
              r[i] == if callers[i].owner then callers[i].(hint := true) else callers[i]
  {
    seq(|callers|, i requires 0 <= i < |callers| => if callers[i].owner then callers[i].(hint := true) else callers[i])
  }

  /** The committed change of the counter. */
  function Commit(s: State, i: nat, semaphore: bool): State
    requires i < |s.callers|
  {
    var c := s.callers[i];
    match c.call
    case Read =>
      var amount := Amount(s.count, semaphore);
      s.(count := if amount <= s.count then s.count - amount else 0, taken := s.taken + amount,
          callers := s.callers[i := c.(pc := Committed)])
    case Write(value) => s.(count := s.count + value, added := s.added + value,
        callers := s.callers[i := c.(pc := Committed)])
  }

  function Next(s: State, semaphore: bool, step: Step): State
    requires Enabled(s, step)
  {
    match step
    case Lock(i) => s.(holder := Some(i), callers := s.callers[i := s.callers[i].(pc := Checking)])
    case Check(i) =>
      var c := s.callers[i];
      if Permits(s.count, c.call) then Commit(s, i, semaphore)
      else if c.registered then s.(holder := None, callers := s.callers[i := c.(pc := Asleep)])
      else s.(holder := None, callers := s.callers[i := c.(pc := Attaching, registered := true)])
    case Refuse(i) => s.(holder := None, callers := s.callers[i := s.callers[i].(pc := Finished, owner := false)])
    case Notify(i) =>
      var signalled := Signalled(s.callers);
      s.(holder := None, callers := signalled[i := signalled[i].(pc := Finished)])
    case Publish(i) => s.(callers := s.callers[i := s.callers[i].(pc := Wants, owner := true)])
    case WakeUp(i) => s.(callers := s.callers[i := s.callers[i].(pc := Wants, hint := false)])
    case Abandon(i) => s.(callers := s.callers[i := s.callers[i].(pc := Finished, owner := false)])
  }

  /** The lock is held exactly by the one caller inside its critical section. */
  ghost predicate LockOk(s: State) {
    && (s.holder.Some? ==> s.holder.value < |s.callers|)
    && forall i {:trigger s.callers[i]} :: 0 <= i < |s.callers| ==>
         (s.callers[i].pc.Checking? || s.callers[i].pc.Committed? <==> s.holder == Some(i))
  }

  /** Sleepers are published; attaching callers are registered first. */
  ghost predicate Registered(s: State) {
    forall i {:trigger s.callers[i]} :: 0 <= i < |s.callers| ==>
      && (s.callers[i].pc.Attaching? ==> s.callers[i].registered)
      && (s.callers[i].registered && !s.callers[i].pc.Attaching? && !s.callers[i].pc.Finished? ==> s.callers[i].owner)
      && (s.callers[i].pc.Asleep? ==> s.callers[i].registered)
  }

  ghost predicate Notifying(s: State) {
    s.holder.Some? && s.holder.value < |s.callers| && s.callers[s.holder.value].pc.Committed?
  }

  /** A caller that sleeps although its operation is now possible has a wake-up waiting for it, or one about to be sent.
      */
  ghost predicate NoLostWakeup(s: State) {
    forall i {:trigger s.callers[i]} ::
          0 <= i < |s.callers| && s.callers[i].pc.Asleep? && Permits(s.count, s.callers[i].call) ==>
      s.callers[i].hint || Notifying(s)
  }

  ghost predicate CountOk(s: State, initial: nat) {
    s.count <= U64_MAX - 1 && s.count + s.taken == initial + s.added
  }

  ghost predicate Inv(s: State, initial: nat) {
    LockOk(s) && Registered(s) && NoLostWakeup(s) && CountOk(s, initial)
  }

  lemma CheckKeepsInv(s: State, semaphore: bool, initial: nat, step: Step)
    requires Inv(s, initial) && Enabled(s, step) && (step.Check? || step.Refuse?)
    ensures Inv(Next(s, semaphore, step), initial)
  {
    var s' := Next(s, semaphore, step);
    assert s.holder == Some(step.i);
    forall j | 0 <= j < |s'.callers| && j != step.i ensures s'.callers[j] == s.callers[j] {}
  }

  lemma NotifyKeepsInv(s: State, semaphore: bool, initial: nat, i: nat)
    requires Inv(s, initial) && Enabled(s, Notify(i))
    ensures Inv(Next(s, semaphore, Notify(i)), initial)
  {
    var s' := Next(s, semaphore, Notify(i));
    assert s.holder == Some(i);
    forall j | 0 <= j < |s'.callers| && j != i ensures s'.callers[j].pc == s.callers[j].pc
        && s'.callers[j].owner == s.callers[j].owner && s'.callers[j].registered == s.callers[j].registered {}
  }

  lemma OtherKeepsInv(s: State, semaphore: bool, initial: nat, step: Step)
    requires Inv(s, initial) && Enabled(s, step) && !step.Check? && !step.Refuse? && !step.Notify?
    ensures Inv(Next(s, semaphore, step), initial)
  {
    var s' := Next(s, semaphore, step);
    assert step.Lock? || s.holder != Some(step.i);
    forall j | 0 <= j < |s'.callers| && j != step.i ensures s'.callers[j] == s.callers[j] {}
    assert Notifying(s) ==> Notifying(s');
  }

  ghost predicate IsRun(states: seq<State>, semaphore: bool, initial: nat, steps: seq<Step>) {
    && |states| == |steps| + 1 && initial < U32_LIMIT
    && states[0].count == initial && states[0].added == states[0].taken == 0 && states[0].holder.None?
    && (forall i {:trigger states[0].callers[i]} :: 0 <= i < |states[0].callers| ==>
          states[0].callers[i].pc == Wants && !states[0].callers[i].registered && !states[0].callers[i].owner)
    && forall i {:trigger steps[i]} :: 0 <= i < |steps| ==>
         Enabled(states[i], steps[i]) && states[i + 1] == Next(states[i], semaphore, steps[i])
  }

  lemma {:induction false} RunInv(states: seq<State>, semaphore: bool, initial: nat, steps: seq<Step>, n: nat)
    requires IsRun(states, semaphore, initial, steps) && n < |states|
    ensures Inv(states[n], initial)
  {
    if n > 0 {
      RunInv(states, semaphore, initial, steps, n - 1);
      var s, step := states[n - 1], steps[n - 1];
      assert states[n] == Next(s, semaphore, step);
      hide Inv, Next;
      match step
      case Check(i) => CheckKeepsInv(s, semaphore, initial, step);
      case Refuse(i) => CheckKeepsInv(s, semaphore, initial, step);
      case Notify(i) => NotifyKeepsInv(s, semaphore, initial, i);
      case _ => OtherKeepsInv(s, semaphore, initial, step);
    }
  }

  /** The counter stays below 2^64 - 1 and is what was put in less what was taken out. */
  lemma CountsExactly(states: seq<State>, semaphore: bool, initial: nat, steps: seq<Step>, n: nat)
    requires IsRun(states, semaphore, initial, steps) && n < |states|
    ensures states[n].count <= U64_MAX - 1 && states[n].count == initial + states[n].added - states[n].taken
  {
    RunInv(states, semaphore, initial, steps, n);
    hide IsRun;
  }

  /** Whenever the descriptor lock is free, every sleeper whose operation is possible has a retained wake-up. */
  lemma SleepersAreWoken(states: seq<State>, semaphore: bool, initial: nat, steps: seq<Step>, n: nat, i: nat)
    requires IsRun(states, semaphore, initial, steps) && n < |states| && i < |states[n].callers|
    requires states[n].callers[i].pc.Asleep? && Permits(states[n].count, states[n].callers[i].call)
    ensures states[n].callers[i].hint || Notifying(states[n])
    ensures states[n].holder.None? ==> states[n].callers[i].hint
  {
    RunInv(states, semaphore, initial, steps, n);
    hide IsRun;
  }

  /** A read goes ahead exactly when there is a count, and takes all of it, or one of a semaphore; a write exactly when
      the
      sum stays below 2^64 - 1, and adds its value. */
  lemma CallEffect(s: State, semaphore: bool, initial: nat, i: nat)
    requires Inv(s, initial) && Enabled(s, Check(i))
    ensures var s', call := Next(s, semaphore, Check(i)), s.callers[i].call;
            match call
            case Read =>
              if s.count == 0 then !s'.callers[i].pc.Committed? && s'.count == s.count
              else
                && s'.callers[i].pc.Committed? && s'.count == (if semaphore then s.count - 1 else 0)
                && s'.taken == s.taken + (s.count - s'.count) && s'.added == s.added
            case Write(value) =>
              if s.count + value > U64_LIMIT - 2 then !s'.callers[i].pc.Committed? && s'.count == s.count
              else
                && s'.callers[i].pc.Committed? && s'.count == s.count + value && s'.added == s.added + value
                && s'.taken == s.taken
  {
  }

  /** A notification about to be sent reaches every sleeper. */
  lemma NotifyReaches(s: State, semaphore: bool, initial: nat, j: nat, i: nat)
    requires Inv(s, initial) && Enabled(s, Notify(j)) && i < |s.callers| && s.callers[i].pc.Asleep?
    ensures Next(s, semaphore, Notify(j)).callers[i].hint
  {
  }
}
