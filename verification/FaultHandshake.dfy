/** The lock-free handshake between fault handlers that read the region list and threads that change it. */
module FaultHandshake {
  /** A reader's atomic steps: check the gate, count itself, check again, then read and uncount. */
  datatype Reader = Start | Checked | Counted | Acquired | Backing | Done

  /** A writer holds the VM mutex from `Locked` on; `Writing` is past its wait loop. */
  datatype Writer = Idle | Locked | Announced | Writing | Cleared

  datatype State = State(readers: nat, mutating: bool, r: seq<Reader>, w: seq<Writer>)

  datatype Step = ReaderStep(i: nat) | ReaderAgain(i: nat) | WriterStep(i: nat)

  predicate Held(w: seq<Writer>) {
    exists i :: 0 <= i < |w| && !w[i].Idle?
  }

  /** Readers never wait; a writer waits for the mutex and, once announced, spins until the count is zero. */
  predicate Enabled(s: State, step: Step) {
    match step
    case ReaderStep(i) => i < |s.r| && !s.r[i].Done?
    case ReaderAgain(i) => i < |s.r| && s.r[i].Done?
    case WriterStep(i) => i < |s.w| && (s.w[i].Idle? ==> !Held(s.w))
  }

  function ReadNext(p: Reader, mutating: bool): Reader {
    match p
    case Start => if mutating then Done else Checked
    case Checked => Counted
    case Counted => if mutating then Backing else Acquired
    case Acquired => Done
    case Backing => Done
    case Done => Start
  }

  function WriteNext(p: Writer, readers: nat): Writer {
    match p
    case Idle => Locked
    case Locked => Announced
    case Announced => if readers == 0 then Writing else Announced
    case Writing => Cleared
    case Cleared => Idle
  }

  predicate Counts(p: Reader) {
    p.Counted? || p.Acquired? || p.Backing?
  }

  function Next(s: State, step: Step): State
    requires Enabled(s, step)
  {
    match step
    case ReaderStep(i) =>
      var p := ReadNext(s.r[i], s.mutating);
      var readers := if Counts(p) && !Counts(s.r[i]) then s.readers + 1
                     else if Counts(s.r[i]) && !Counts(p) && s.readers > 0 then s.readers - 1 else s.readers;
      s.(r := s.r[i := p], readers := readers)
    case ReaderAgain(i) => s.(r := s.r[i := Start])
    case WriterStep(i) =>
      var p := WriteNext(s.w[i], s.readers);
      s.(w := s.w[i := p], mutating := if p.Announced? then true else if p.Cleared? then false else s.mutating)
  }

  function Counting(r: seq<Reader>): nat {
    if r == [] then 0 else Counting(r[..|r| - 1]) + if Counts(r[|r| - 1]) then 1 else 0
  }

  /** The counter is the number of counted readers, the gate is up while a writer needs it, and writers take turns. */
  ghost predicate Inv(s: State) {
    && s.readers == Counting(s.r)
    && (forall i, j {:trigger s.w[i], s.w[j]} :: 0 <= i < j < |s.w| ==> s.w[i].Idle? || s.w[j].Idle?)
    && (forall i {:trigger s.w[i]} :: 0 <= i < |s.w| && (s.w[i].Announced? || s.w[i].Writing?) ==> s.mutating)
    && (forall i, j {:trigger s.r[i], s.w[j]} :: 0 <= i < |s.r| && 0 <= j < |s.w| && s.w[j].Writing? ==>
         !s.r[i].Acquired?)
  }

  lemma {:induction false} CountUpdate(r: seq<Reader>, i: nat, p: Reader)
    requires i < |r|
    ensures Counting(r[i := p]) == Counting(r) - (if Counts(r[i]) then 1 else 0) + (if Counts(p) then 1 else 0)
  {
    var n := |r| - 1;
    if i < n {
      CountUpdate(r[..n], i, p);
      assert r[i := p][..n] == r[..n][i := p];
    } else {
      assert r[i := p][..n] == r[..n];
    }
  }

  lemma {:induction false} CountsPositive(r: seq<Reader>, i: nat)
    requires i < |r| && Counts(r[i])
    ensures Counting(r) > 0
  {
    if i < |r| - 1 { CountsPositive(r[..|r| - 1], i); }
  }

  lemma ReaderKeepsInv(s: State, step: Step)
    requires Inv(s) && Enabled(s, step) && !step.WriterStep?
    ensures Inv(Next(s, step))
  {
    var p := if step.ReaderStep? then ReadNext(s.r[step.i], s.mutating) else Start;
    CountUpdate(s.r, step.i, p);
    if Counts(s.r[step.i]) { CountsPositive(s.r, step.i); }
  }

  lemma WriterKeepsInv(s: State, step: Step)
    requires Inv(s) && Enabled(s, step) && step.WriterStep?
    ensures Inv(Next(s, step))
  {
    if s.w[step.i].Announced? && s.readers == 0 {
      forall j | 0 <= j < |s.r| ensures !s.r[j].Acquired? {
        if s.r[j].Acquired? { CountsPositive(s.r, j); assert false; }
      }
    }
  }

  ghost predicate IsRun(states: seq<State>, steps: seq<Step>) {
    && |states| == |steps| + 1 && states[0].readers == 0 && !states[0].mutating
    && (forall i {:trigger states[0].r[i]} :: 0 <= i < |states[0].r| ==> states[0].r[i] == Start)
    && (forall i {:trigger states[0].w[i]} :: 0 <= i < |states[0].w| ==> states[0].w[i] == Idle)
    && forall i {:trigger steps[i]} :: 0 <= i < |steps| ==>
         Enabled(states[i], steps[i]) && states[i + 1] == Next(states[i], steps[i])
  }

  lemma {:induction false} NoneCounted(r: seq<Reader>)
    requires forall i {:trigger r[i]} :: 0 <= i < |r| ==> r[i] == Start
    ensures Counting(r) == 0
  {
    if r != [] { NoneCounted(r[..|r| - 1]); }
  }

  lemma {:induction false} RunInv(states: seq<State>, steps: seq<Step>, n: nat)
    requires IsRun(states, steps) && n < |states|
    ensures Inv(states[n])
  {
    if n == 0 {
      NoneCounted(states[0].r);
    } else {
      RunInv(states, steps, n - 1);
      assert states[n] == Next(states[n - 1], steps[n - 1]);
      hide Inv, Next;
      if steps[n - 1].WriterStep? { WriterKeepsInv(states[n - 1], steps[n - 1]); } else {
        ReaderKeepsInv(states[n - 1], steps[n - 1]);
      }
    }
  }

  /** Under every interleaving no acquired reader coexists with a writer past its wait loop. */
  lemma NeverTogether(states: seq<State>, steps: seq<Step>, n: nat, i: nat, j: nat)
    requires IsRun(states, steps) && n < |states| && i < |states[n].r| && j < |states[n].w|
    ensures !(states[n].r[i].Acquired? && states[n].w[j].Writing?)
  {
    RunInv(states, steps, n);
    hide IsRun;
  }

  /** How many of its own steps a reader is from the end, at most. */
  function Remaining(p: Reader): nat {
    match p
    case Start => 4
    case Checked => 3
    case Counted => 2
    case Acquired => 1
    case Backing => 1
    case Done => 0
  }

  /** Whatever the others do in between, a reader's next step is always possible and brings it closer to the end. */
  lemma ReaderIsWaitFree(s: State, i: nat)
    requires i < |s.r| && !s.r[i].Done?
    ensures Enabled(s, ReaderStep(i)) && Remaining(Next(s, ReaderStep(i)).r[i]) < Remaining(s.r[i]) <= 4
    ensures forall step {:trigger Enabled(s, step)} :: Enabled(s, step) && step != ReaderStep(i) ==>
              Next(s, step).r[i] == s.r[i]
  {
  }

  /** With the gate down, a reader that is not disturbed acquires in three steps, counted once, and leaves in a fourth;
      with
      the gate up it turns back at once, or uncounts itself if it had counted. */
  lemma ReaderAcquires(s: State, i: nat)
    requires Inv(s) && i < |s.r| && s.r[i] == Start
    ensures !s.mutating ==>
              var a := Next(s, ReaderStep(i));
              var b := Next(a, ReaderStep(i));
              var c := Next(b, ReaderStep(i));
              var e := Next(c, ReaderStep(i));
              c.r == s.r[i := Acquired] && c.readers == s.readers + 1 && e.r == s.r[i := Done] && e.readers == s.readers
    ensures s.mutating ==> Next(s, ReaderStep(i)).r == s.r[i := Done] && Next(s, ReaderStep(i)).readers == s.readers
    ensures forall k: nat, t: State :: Inv(t) && k < |t.r| && t.r[k] == Counted && t.mutating ==>
              var u := Next(t, ReaderStep(k));
              u.r[k] == Backing && Next(u, ReaderStep(k)).r[k] == Done
                  && Next(u, ReaderStep(k)).readers == t.readers - 1
  {
    forall k: nat, t: State | Inv(t) && k < |t.r| && t.r[k] == Counted && t.mutating
      ensures var u := Next(t, ReaderStep(k));
              u.r[k] == Backing && Next(u, ReaderStep(k)).r[k] == Done
                  && Next(u, ReaderStep(k)).readers == t.readers - 1
    {
      CountsPositive(t.r, k);
    }
  }

  /** The steps that readers past the gate still have to take. */
  function Pending(r: seq<Reader>): nat {
    if r == [] then 0
    else
      var p := r[|r| - 1];
      Pending(r[..|r| - 1]) + if p.Start? then 0 else Remaining(p)
  }

  lemma {:induction false} PendingUpdate(r: seq<Reader>, i: nat, p: Reader)
    requires i < |r|
    ensures Pending(r[i := p]) == Pending(r) - (if r[i].Start? then 0 else Remaining(r[i]))
                                  + (if p.Start? then 0 else Remaining(p))
  {
    var n := |r| - 1;
    if i < n {
      PendingUpdate(r[..n], i, p);
      assert r[i := p][..n] == r[..n][i := p];
    } else {
      assert r[i := p][..n] == r[..n];
    }
  }

  lemma {:induction false} NonePending(r: seq<Reader>)
    requires Pending(r) == 0
    ensures Counting(r) == 0
  {
    if r != [] { NonePending(r[..|r| - 1]); }
  }

  /** A writer that has announced itself waits only for the readers that were past the gate: no reader's step adds to
      what
      they still have to do, theirs take from it, and once nothing is left the writer's next step lets it in. */
  lemma WriterGetsIn(s: State, j: nat)
    requires Inv(s) && j < |s.w| && s.w[j].Announced?
    ensures s.mutating && Enabled(s, WriterStep(j))
    ensures Pending(s.r) == 0 ==> Next(s, WriterStep(j)).w[j] == Writing
    ensures forall step {:trigger Enabled(s, step)} :: Enabled(s, step) && !step.WriterStep? ==>
              var s' := Next(s, step);
              s'.w == s.w && Pending(s'.r) <= Pending(s.r)
                  && (s.r[step.i] !in {Start, Done} ==> Pending(s'.r) < Pending(s.r))
    ensures forall i: nat :: i < |s.w| && i != j ==> s.w[i].Idle? && !Enabled(s, WriterStep(i))
  {
    if Pending(s.r) == 0 { NonePending(s.r); }
    forall step | Enabled(s, step) && !step.WriterStep?
      ensures var s' := Next(s, step);
              s'.w == s.w && Pending(s'.r) <= Pending(s.r)
                  && (s.r[step.i] !in {Start, Done} ==> Pending(s'.r) < Pending(s.r))
    {
      PendingUpdate(s.r, step.i, Next(s, step).r[step.i]);
    }
  }
}
