/** Executing the packaged payload simulates executing the original text. */
module SvcSimulation {
  import opened Base
  import opened SvcMachine
  import opened SvcRewrite

  /** Addresses whose contents the guest never relies on: the stack below its stack pointer and rewritten code. */
  type Unseen = iset<nat>

  /** A conforming dispatcher: it answers machine words, neither reads nor writes the unseen addresses, and has room on
      the stack. */
  ghost predicate HostOk(h: Host, u: Unseen, sp: nat) {
    && h.low + 160 <= sp < U64_LIMIT && h.entry < U64_LIMIT && h.context < U64_LIMIT
    && (forall a: nat :: h.low <= a < sp ==> a in u)
    && (forall past, call, m {:trigger h.respond(past, call, m)} :: Decent(u, h.respond(past, call, m)))
    && (forall past, call, m, m' {:trigger h.respond(past, call, m), h.respond(past, call, m')} ::
          SameMemory(u, m, m') ==> h.respond(past, call, m') == h.respond(past, call, m))
  }

  ghost predicate Decent(u: Unseen, r: Response) {
    r.result < U64_LIMIT && forall a :: a in r.writes ==> a !in u
  }

  ghost predicate SameMemory(u: Unseen, m: Memory, m': Memory) {
    forall a: nat {:trigger Load(m, a)} {:trigger Load(m', a)} :: a !in u ==> Load(m', a) == Load(m, a)
  }

  /** The guest's view agrees; the host keeps its own x18 and the bridge registers x27 and x28. */
  ghost predicate Related(h: Host, u: Unseen, s: State, t: State) {
    && Valid(s) && Valid(t) && t.pc == s.pc && t.sp == s.sp && t.flags == s.flags && t.trace == s.trace
    && (forall r {:trigger t.x[r]} {:trigger s.x[r]} :: 0 <= r < 31 && Free(r) ==> t.x[r] == s.x[r])
    && t.x[27] == h.context && t.x[28] == h.entry && SameMemory(u, s.mem, t.mem)
  }

  /** What the packager cannot check: a load does not look at unseen addresses. */
  ghost predicate Polite(u: Unseen, s: State, i: Inst)
    requires |s.x| == 31 && Registers(i)
  {
    i.Ldr? ==> forall b: nat :: Address(GetBase(s, i.rn), i.offset) <= b < Address(GetBase(s, i.rn), i.offset) + 8 ==>
          b !in u
  }

  // ---- ordinary instructions ----

  predicate FreeRegisters(i: Inst) {
    match i
    case MovImm(_, rd, _, _) => Free(rd)
    case MovReg(rd, rm) => Free(rd) && Free(rm)
    case CmpImm(rn, _) => Free(rn)
    case CmpReg(rn, rm) => Free(rn) && Free(rm)
    case Adr(rd, _) => Free(rd)
    case CompareBranch(_, _, rt, _) => Free(rt)
    case Ldr(rt, rn, _) => Free(rt) && Free(rn)
    case Str(rt, rn, _) => Free(rt) && Free(rn)
    case _ => true
  }

  predicate Ordinary(i: Inst) {
    i.Nop? || i.MovImm? || i.MovReg? || i.CmpImm? || i.CmpReg? || i.Adr? || i.B? || i.BCond? || i.CompareBranch?
        || i.Ldr? || i.Str?
  }

  lemma SetRelated(h: Host, u: Unseen, s: State, t: State, r: nat, v: nat)
    requires Related(h, u, s, t) && r < 32 && Free(r) && v < U64_LIMIT
    ensures Related(h, u, Set(s, r, v), Set(t, r, v))
  {
    hide SameMemory;
  }

  lemma PcRelated(h: Host, u: Unseen, s: State, t: State, pc: int)
    requires Related(h, u, s, t)
    ensures Related(h, u, s.(pc := pc), t.(pc := pc))
  {
    hide SameMemory;
  }

  lemma FlagsRelated(h: Host, u: Unseen, s: State, t: State, flags: nat)
    requires Related(h, u, s, t) && flags < 16
    ensures Related(h, u, s.(flags := flags), t.(flags := flags))
  {
    hide SameMemory;
  }

  lemma ReadsRelated(h: Host, u: Unseen, s: State, t: State, r: nat)
    requires Related(h, u, s, t) && r < 32 && Free(r)
    ensures Get(t, r) == Get(s, r) < U64_LIMIT && GetBase(t, r) == GetBase(s, r) < U64_LIMIT
  {
    hide SameMemory;
    assert r < 31 ==> t.x[r] == s.x[r];
  }

  lemma LoadRelated(h: Host, u: Unseen, s: State, t: State, a: nat)
    requires Related(h, u, s, t) && forall b: nat :: a <= b < a + 8 ==> b !in u
    ensures Read(t.mem, a, 8) == Read(s.mem, a, 8) < U64_LIMIT
  {
    ReadSame(s.mem, t.mem, a, 8);
    ReadWord(s.mem, a);
  }

  lemma StoreRelated(h: Host, u: Unseen, s: State, t: State, a: nat, v: nat)
    requires Related(h, u, s, t)
    ensures Related(h, u, s.(mem := Write(s.mem, a, v)), t.(mem := Write(t.mem, a, v)))
  {
    forall b: nat | b !in u ensures Load(Write(t.mem, a, v), b) == Load(Write(s.mem, a, v), b) {
      WriteAlike(s.mem, t.mem, a, v, 8, b);
    }
    hide Write, Load;
    assert SameMemory(u, Write(s.mem, a, v), Write(t.mem, a, v));
  }

  /** Every admitted instruction but SVC does the same on both sides. */
  lemma OrdinaryRelated(h: Host, u: Unseen, s: State, t: State, i: Inst)
    requires Related(h, u, s, t) && Ordinary(i) && Registers(i) && FreeRegisters(i) && Polite(u, s, i)
    ensures Execute(h, s, i).Some? && Execute(h, t, i).Some?
    ensures Related(h, u, Execute(h, s, i).value, Execute(h, t, i).value) && Execute(h, s, i).value.sp == s.sp
  {
    RelatedParts(h, u, s, t);
    hide Related, Execute, Polite, Registers, FreeRegisters;
    if i.Ldr? || i.Str? { MemoryRelated(h, u, s, t, i); }
    else if i.B? || i.BCond? || i.CompareBranch? { BranchRelated(h, u, s, t, i); }
    else { RegisterRelated(h, u, s, t, i); }
  }

  lemma RegisterRelated(h: Host, u: Unseen, s: State, t: State, i: Inst)
    requires Related(h, u, s, t) && Registers(i) && FreeRegisters(i)
             && (i.Nop? || i.MovImm? || i.MovReg? || i.CmpImm? || i.CmpReg? || i.Adr?)
    ensures |s.x| == |t.x| == 31 && Execute(h, s, i).Some? && Execute(h, t, i).Some?
    ensures Related(h, u, Execute(h, s, i).value, Execute(h, t, i).value) && Execute(h, s, i).value.sp == s.sp
  {
    RelatedParts(h, u, s, t);
    hide Related, Read, Write, Compare, Shift, Set, Get, GetBase;
    match i
    case Nop => PcRelated(h, u, s, t, s.pc + 4);
    case MovImm(inverted, rd, imm, hw) =>
      MovRelated(h, u, s, t, rd, if inverted then (U64_LIMIT - 1 - imm * Shift(hw)) % U64_LIMIT
          else imm * Shift(hw) % U64_LIMIT);
    case MovReg(rd, rm) =>
      ReadsRelated(h, u, s, t, rm);
      MovRelated(h, u, s, t, rd, Get(s, rm));
    case CmpImm(rn, imm) =>
      ReadsRelated(h, u, s, t, rn);
      CompareRelated(h, u, s, t, Compare(GetBase(s, rn), imm));
    case CmpReg(rn, rm) =>
      ReadsRelated(h, u, s, t, rn);
      ReadsRelated(h, u, s, t, rm);
      CompareRelated(h, u, s, t, Compare(Get(s, rn), Get(s, rm)));
    case Adr(rd, offset) => MovRelated(h, u, s, t, rd, (h.base + s.pc + offset) % U64_LIMIT);
  }

  lemma BranchRelated(h: Host, u: Unseen, s: State, t: State, i: Inst)
    requires Related(h, u, s, t) && Registers(i) && FreeRegisters(i) && (i.B? || i.BCond? || i.CompareBranch?)
    ensures |s.x| == |t.x| == 31 && Execute(h, s, i).Some? && Execute(h, t, i).Some?
    ensures Related(h, u, Execute(h, s, i).value, Execute(h, t, i).value) && Execute(h, s, i).value.sp == s.sp
  {
    RelatedParts(h, u, s, t);
    hide Related, Met, Get;
    match i
    case B(offset) => PcRelated(h, u, s, t, s.pc + offset);
    case BCond(_, offset) =>
      PcRelated(h, u, s, t, s.pc + offset);
      PcRelated(h, u, s, t, s.pc + 4);
    case CompareBranch(_, _, rt, offset) =>
      ReadsRelated(h, u, s, t, rt);
      PcRelated(h, u, s, t, s.pc + offset);
      PcRelated(h, u, s, t, s.pc + 4);
  }

  lemma MemoryRelated(h: Host, u: Unseen, s: State, t: State, i: Inst)
    requires Related(h, u, s, t) && Registers(i) && FreeRegisters(i) && |s.x| == 31 && Polite(u, s, i)
             && (i.Ldr? || i.Str?)
    ensures |s.x| == |t.x| == 31 && Execute(h, s, i).Some? && Execute(h, t, i).Some?
    ensures Related(h, u, Execute(h, s, i).value, Execute(h, t, i).value) && Execute(h, s, i).value.sp == s.sp
  {
    RelatedParts(h, u, s, t);
    hide Related, Read, Write, Set, Get, GetBase, Address;
    match i
    case Ldr(rt, rn, offset) =>
      ReadsRelated(h, u, s, t, rn);
      LoadRelated(h, u, s, t, Address(GetBase(s, rn), offset));
      MovRelated(h, u, s, t, rt, Read(s.mem, Address(GetBase(s, rn), offset), 8));
    case Str(rt, rn, offset) =>
      ReadsRelated(h, u, s, t, rn);
      ReadsRelated(h, u, s, t, rt);
      var a := Address(GetBase(s, rn), offset);
      StoreRelated(h, u, s, t, a, Get(s, rt));
      PcRelated(h, u, s.(mem := Write(s.mem, a, Get(s, rt))), t.(mem := Write(t.mem, a, Get(s, rt))), s.pc + 4);
  }

  lemma RelatedParts(h: Host, u: Unseen, s: State, t: State)
    requires Related(h, u, s, t)
    ensures |s.x| == |t.x| == 31 && t.pc == s.pc && t.sp == s.sp && t.flags == s.flags
  {
  }

  lemma MovRelated(h: Host, u: Unseen, s: State, t: State, r: nat, v: nat)
    requires Related(h, u, s, t) && r < 32 && Free(r) && v < U64_LIMIT
    ensures |s.x| == |t.x| == 31 && Related(h, u, Forward(Set(s, r, v)), Forward(Set(t, r, v)))
            && Forward(Set(s, r, v)).sp == s.sp
  {
    SetRelated(h, u, s, t, r, v);
    RelatedParts(h, u, s, t);
    SetKeeps(s, r, v);
    SetKeeps(t, r, v);
    hide Related, Set;
    PcRelated(h, u, Set(s, r, v), Set(t, r, v), s.pc + 4);
  }

  lemma SetKeeps(s: State, r: nat, v: nat)
    requires |s.x| == 31 && r < 32
    ensures Set(s, r, v).pc == s.pc && Set(s, r, v).sp == s.sp
  {
  }

  lemma CompareRelated(h: Host, u: Unseen, s: State, t: State, flags: nat)
    requires Related(h, u, s, t) && flags < 16
    ensures Related(h, u, Forward(s.(flags := flags)), Forward(t.(flags := flags)))
  {
    RelatedParts(h, u, s, t);
    FlagsRelated(h, u, s, t, flags);
    hide Related;
    PcRelated(h, u, s.(flags := flags), t.(flags := flags), s.pc + 4);
  }

  // ---- inside a veneer ----

  /** The state after the first `j` words of a veneer entered in state `t`. */
  function VeneerRun(h: Host, t: State, j: nat): (r: Option<State>)
    requires j <= 31 && |t.x| == 31
    ensures r.Some? ==> |r.value.x| == 31
  {
    if j == 0 then Some(t)
    else
      var v := VeneerRun(h, t, j - 1);
      if v.None? then None
      else
        VeneerRegisters(j - 1);
        ExecuteRegisters(h, v.value, VeneerInst(j - 1));
        Execute(h, v.value, VeneerInst(j - 1))
  }

  lemma VeneerRegisters(j: nat)
    requires j < 31
    ensures Registers(VeneerInst(j))
  {
  }

  /** Which register slot `i` of the frame holds; slot 18 holds the flags. */
  function SavedRegister(i: nat): nat {
    if i % 2 == 0 then First(i / 2) else Second(i / 2)
  }

  function FrameAt(t: State, i: nat): nat
    requires t.sp >= 160
  {
    t.sp - 160 + 8 * i
  }

  /** The first `n` slots hold the caller's registers, and nothing above or below the frame has changed. */
  ghost predicate Framed(t: State, v: State, n: nat) {
    && |t.x| == |v.x| == 31 && t.sp >= 160 && v.sp == t.sp - 160 && v.trace == t.trace
    && (forall i: nat {:trigger FrameAt(t, i)} :: i < n && i < 18 ==>
         Read(v.mem, FrameAt(t, i), 8) == t.x[SavedRegister(i)])
    && (n > 18 ==> Read(v.mem, FrameAt(t, 18), 8) == t.flags * 0x1000_0000)
    && (forall a: nat {:trigger Load(v.mem, a)} :: a < t.sp - 160 || t.sp <= a ==> Load(v.mem, a) == Load(t.mem, a))
  }

  lemma SlotWrite(t: State, v: State, n: nat, value: nat)
    requires Framed(t, v, n) && n <= 18 && value < U64_LIMIT
             && value == if n < 18 then t.x[SavedRegister(n)] else t.flags * 0x1000_0000
    ensures Framed(t, v.(mem := Write(v.mem, FrameAt(t, n), value)), n + 1)
  {
    hide Write, Read, Load, SavedRegister;
    var m := Write(v.mem, FrameAt(t, n), value);
    WriteRead(v.mem, FrameAt(t, n), value, 0);
    forall i: nat | i < n ensures Read(m, FrameAt(t, i), 8) == Read(v.mem, FrameAt(t, i), 8) {
      WriteRead(v.mem, FrameAt(t, n), value, FrameAt(t, i));
    }
    forall a: nat | a < t.sp - 160 || t.sp <= a ensures Load(m, a) == Load(v.mem, a) {
      WriteSlot(v.mem, FrameAt(t, n), value, a);
    }
  }

  lemma WriteSlot(m: Memory, at: nat, value: nat, a: nat)
    requires a < at || at + 8 <= a
    ensures Load(Write(m, at, value), a) == Load(m, a)
  {
    WriteElsewhere(m, at, value, 8, a);
  }

  lemma PairRegisters(k: nat)
    requires k < 9
    ensures SavedRegister(2 * k) == First(k) < 31 && SavedRegister(2 * k + 1) == Second(k) < 31
  {
    assert 2 * k % 2 == 0 && 2 * k / 2 == k && (2 * k + 1) % 2 == 1 && (2 * k + 1) / 2 == k;
  }

  lemma NextSlot(t: State, i: nat)
    requires t.sp >= 160
    ensures FrameAt(t, i + 1) == FrameAt(t, i) + 8
  {
  }

  lemma TwoSlots(t: State, v: State, n: nat, a: nat, b: nat)
    requires Framed(t, v, n) && n + 1 < 18 && a < U64_LIMIT && b < U64_LIMIT && a == t.x[SavedRegister(n)]
             && b == t.x[SavedRegister(n + 1)]
    ensures Framed(t, v.(mem := Write(Write(v.mem, FrameAt(t, n), a), FrameAt(t, n) + 8, b)), n + 2)
  {
    FramedStack(t, v, n);
    hide Framed, Write, SavedRegister;
    SlotWrite(t, v, n, a);
    NextSlot(t, n);
    var m := Write(v.mem, FrameAt(t, n), a);
    SlotWrite(t, v.(mem := m), n + 1, b);
  }

  lemma PairSlots(t: State, v: State, n: nat, rt: nat, rt2: nat)
    requires Framed(t, v, n) && n + 1 < 18 && Valid(t) && rt < 31 && rt2 < 31 && |v.x| == 31
    requires v.x[rt] == t.x[SavedRegister(n)] < U64_LIMIT && v.x[rt2] == t.x[SavedRegister(n + 1)] < U64_LIMIT
    ensures Framed(t, StorePair(v, rt, rt2, FrameAt(t, n)), n + 2)
  {
    TwoSlots(t, v, n, v.x[rt], v.x[rt2]);
    hide Framed, Write, Valid, FrameAt, SavedRegister;
  }

  /** One of the nine stores. */
  lemma SaveStep(t: State, v: State, k: nat)
    requires Valid(t) && Framed(t, v, 2 * k) && k < 9 && v.x == t.x
    ensures First(k) < 31 && Second(k) < 31 && Framed(t, StorePair(v, First(k), Second(k), FrameAt(t, 2 * k)),
            2 * k + 2)
  {
    PairRegisters(k);
    FramedStack(t, v, 2 * k);
    var a, b := First(k), Second(k);
    assert v.x[a] == t.x[a] < U64_LIMIT && v.x[b] == t.x[b] < U64_LIMIT;
    hide *;
    PairSlots(t, v, 2 * k, a, b);
  }

  lemma StackAddress(sp: nat, offset: nat)
    requires 160 <= sp < U64_LIMIT && offset <= 160
    ensures Address(sp, -160) == sp - 160 && Address(sp - 160, offset) == sp - 160 + offset
  {
  }

  lemma FrameStart(t: State)
    requires |t.x| == 31 && t.sp >= 160
    ensures Framed(t, t.(sp := t.sp - 160), 0)
  {
  }

  lemma VeneerNext(h: Host, t: State, j: nat)
    requires j < 31 && |t.x| == 31 && VeneerRun(h, t, j).Some?
    ensures Registers(VeneerInst(j)) && VeneerRun(h, t, j + 1) == Execute(h, VeneerRun(h, t, j).value, VeneerInst(j))
  {
    VeneerRegisters(j);
    hide Execute, VeneerInst;
  }

  /** The nine stores execute as pair stores into the frame. */
  lemma SaveExecutes(h: Host, t: State, v: State, k: nat)
    requires 160 <= t.sp < U64_LIMIT && |v.x| == 31 && k < 9 && v.sp == if k == 0 then t.sp else t.sp - 160
    ensures Registers(VeneerInst(k)) && First(k) < 32 && Second(k) < 32
    ensures Execute(h, v, VeneerInst(k)) == Some(Forward(StorePair(v.(sp := t.sp - 160), First(k), Second(k),
            FrameAt(t, 2 * k))))
  {
    StackAddress(t.sp, 16 * k);
    hide Write, Address;
  }

  lemma ForwardFramed(t: State, v: State, n: nat)
    requires Framed(t, v, n)
    ensures Framed(t, Forward(v), n)
  {
    hide Load, Read, SavedRegister;
  }

  lemma StorePairKeeps(v: State, rt: nat, rt2: nat, a: nat)
    requires |v.x| == 31 && rt < 32 && rt2 < 32
    ensures var w := StorePair(v, rt, rt2, a); w.x == v.x && w.flags == v.flags && w.pc == v.pc
  {
    hide Write;
  }

  lemma SaveNext(h: Host, t: State, v: State, k: nat)
    requires Valid(t) && t.sp >= 160 && k < 9 && |v.x| == 31 && VeneerRun(h, t, k) == Some(v)
    requires v.sp == (if k == 0 then t.sp else t.sp - 160) && Framed(t, v.(sp := t.sp - 160), 2 * k) && v.x == t.x
    ensures var r := VeneerRun(h, t, k + 1);
            r.Some? && Framed(t, r.value, 2 * (k + 1)) && r.value.x == t.x && r.value.flags == v.flags
                && r.value.pc == v.pc + 4
  {
    ValidParts(t);
    hide *;
    var w := v.(sp := t.sp - 160);
    SaveExecutes(h, t, v, k);
    VeneerNext(h, t, k);
    SaveStep(t, w, k);
    var y := StorePair(w, First(k), Second(k), FrameAt(t, 2 * k));
    StorePairKeeps(w, First(k), Second(k), FrameAt(t, 2 * k));
    ForwardFramed(t, y, 2 * k + 2);
    ForwardIs(y);
  }

  lemma {:induction false} SavePhase(h: Host, t: State, k: nat)
    requires Valid(t) && t.sp >= 160 && 1 <= k <= 9
    ensures var r := VeneerRun(h, t, k);
            r.Some? && Framed(t, r.value, 2 * k) && r.value.x == t.x && r.value.flags == t.flags
                && r.value.pc == t.pc + 4 * k
  {
    ValidParts(t);
    hide *;
    VeneerStart(h, t);
    if k > 1 {
      SavePhase(h, t, k - 1);
      FramedStack(t, VeneerRun(h, t, k - 1).value, 2 * k - 2);
    } else {
      FrameStart(t);
    }
    SaveNext(h, t, VeneerRun(h, t, k - 1).value, k - 1);
  }

  lemma VeneerStart(h: Host, t: State)
    requires |t.x| == 31
    ensures VeneerRun(h, t, 0) == Some(t)
  {
  }

  lemma ValidParts(t: State)
    requires Valid(t)
    ensures |t.x| == 31 && t.sp < U64_LIMIT && t.flags < 16
  {
  }

  lemma ForwardIs(s: State)
    ensures Forward(s) == s.(pc := s.pc + 4)
  {
  }

  lemma FramedStack(t: State, v: State, n: nat)
    requires Framed(t, v, n)
    ensures t.sp >= 160 && v.sp == t.sp - 160 && |v.x| == 31 && v.trace == t.trace
  {
  }

  /** Two states with the same memory, stack pointer and trace have the same frame. */
  lemma FramedSame(t: State, v: State, w: State, n: nat)
    requires Framed(t, v, n) && w.mem == v.mem && w.sp == v.sp && w.trace == v.trace && |w.x| == 31
    ensures Framed(t, w, n)
  {
  }

  lemma FlagsExecute(h: Host, t: State, v: State)
    requires Valid(t) && t.sp >= 160 && |v.x| == 31 && v.sp == t.sp - 160
    ensures Execute(h, v, VeneerInst(9)) == Some(v.(x := v.x[9 := v.flags * 0x1000_0000], pc := v.pc + 4))
    ensures Execute(h, v, VeneerInst(10)) == Some(v.(mem := Write(v.mem, FrameAt(t, 18), v.x[9]), pc := v.pc + 4))
  {
    StackAddress(t.sp, 144);
    hide Write, Address;
  }

  lemma FlagsSaved(h: Host, t: State)
    requires Valid(t) && t.sp >= 160
    ensures var r := VeneerRun(h, t, 11);
            && r.Some? && Framed(t, r.value, 19) && r.value.x == t.x[9 := t.flags * 0x1000_0000]
            && r.value.pc == t.pc + 44
  {
    ValidParts(t);
    hide *;
    SavePhase(h, t, 9);
    var v := VeneerRun(h, t, 9).value;
    FramedStack(t, v, 18);
    FlagsExecute(h, t, v);
    VeneerNext(h, t, 9);
    var w := VeneerRun(h, t, 10).value;
    FramedSame(t, v, w, 18);
    FlagsExecute(h, t, w);
    VeneerNext(h, t, 10);
    SlotWrite(t, w, 18, t.flags * 0x1000_0000);
    ForwardFramed(t, w.(mem := Write(w.mem, FrameAt(t, 18), t.flags * 0x1000_0000)), 19);
    ForwardIs(w.(mem := Write(w.mem, FrameAt(t, 18), t.flags * 0x1000_0000)));
  }

  /** The moves so far: destination 7 - i has its source's value, lower registers are still the caller's. */
  ghost predicate Moved(t: State, v: State, n: nat) {
    && |t.x| == |v.x| == 31
    && (forall r {:trigger v.x[r]} :: 0 <= r < 31 && r != 9 ==>
         v.x[r] == if 8 - n <= r < 8 then t.x[MoveSource(7 - r)] else t.x[r])
  }

  lemma MoveExecutes(h: Host, v: State, n: nat)
    requires |v.x| == 31 && n < 8
    ensures Execute(h, v, VeneerInst(11 + n)) == Some(v.(x := v.x[7 - n := v.x[MoveSource(n)]], pc := v.pc + 4))
  {
  }

  lemma MoveStep(t: State, v: State, w: State, n: nat)
    requires Moved(t, v, n) && n < 8 && w.x == v.x[7 - n := v.x[MoveSource(n)]]
    ensures Moved(t, w, n + 1)
  {
  }

  lemma {:induction false} MovePhase(h: Host, t: State, n: nat)
    requires Valid(t) && t.sp >= 160 && n <= 8
    ensures var r := VeneerRun(h, t, 11 + n);
            r.Some? && Framed(t, r.value, 19) && Moved(t, r.value, n) && r.value.pc == t.pc + 44 + 4 * n
  {
    if n == 0 {
      hide Framed, VeneerRun;
      FlagsSaved(h, t);
    } else {
      ValidParts(t);
      hide *;
      MovePhase(h, t, n - 1);
      var v := VeneerRun(h, t, 10 + n).value;
      FramedStack(t, v, 19);
      MoveExecutes(h, v, n - 1);
      VeneerNext(h, t, 10 + n);
      FramedSame(t, v, VeneerRun(h, t, 11 + n).value, 19);
      MoveStep(t, v, VeneerRun(h, t, 11 + n).value, n - 1);
    }
  }

  // ---- the call ----

  lemma CallExecutes(h: Host, t: State, v: State)
    requires Moved(t, v, 8) && v.x[28] == h.entry && t.x[27] == h.context
    ensures Execute(h, v, VeneerInst(19)) == Some(CallHost(h, v))
    ensures v.x[1] == t.x[8] && v.x[2..8] == t.x[0..6]
    ensures forall r {:trigger v.x[r]} :: 19 <= r <= 29 ==> v.x[r] == t.x[r]
  {
    assert VeneerInst(19) == Blr(28);
    forall i | 0 <= i < 6 ensures v.x[2..8][i] == t.x[0..6][i] {
      assert v.x[2 + i] == t.x[MoveSource(7 - (2 + i))];
    }
  }

  /** What the dispatcher answers at the BLR. */
  function Bridged(h: Host, v: State): Response
    requires |v.x| == 31
  {
    h.respond(v.trace, Call(v.x[1], v.x[2..8]), v.mem)
  }

  /** The dispatcher is asked what the guest asked, and cannot tell the two memories apart. */
  lemma AskedAlike(h: Host, u: Unseen, t: State, v: State)
    requires Framed(t, v, 19) && HostOk(h, u, t.sp) && v.x[1] == t.x[8] && v.x[2..8] == t.x[0..6]
    ensures Bridged(h, v) == Asked(h, t) && Decent(u, Asked(h, t))
  {
    forall a: nat | a !in u ensures Load(v.mem, a) == Load(t.mem, a) { assert !(h.low <= a < t.sp); }
    hide Load, Framed;
    assert SameMemory(u, t.mem, v.mem);
  }

  lemma LoadMerged(m: Memory, below: Memory, writes: Memory, a: nat)
    ensures a !in below && a !in writes ==> Load(m + below + writes, a) == Load(m, a)
    ensures a !in below ==> Load(m + below + writes, a) == if a in writes then Load(writes, a) else Load(m, a)
  {
  }

  /** What the rest of the veneer relies on: the frame is intact and the callee-saved registers are the caller's. */
  ghost predicate Called(h: Host, u: Unseen, t: State, v: State, r: Response) {
    && |t.x| == |v.x| == 31 && t.sp >= 160 && v.sp == t.sp - 160 && v.x[0] == r.result && v.x[18] < U64_LIMIT
    && (forall i {:trigger v.x[i]} :: 19 <= i <= 29 ==> v.x[i] == t.x[i])
    && (forall i: nat {:trigger FrameAt(t, i)} :: i < 18 ==> Read(v.mem, FrameAt(t, i), 8) == t.x[SavedRegister(i)])
    && Read(v.mem, FrameAt(t, 18), 8) == t.flags * 0x1000_0000
    && (forall a: nat {:trigger Load(v.mem, a)} :: a !in u ==> Load(v.mem, a) == Load(t.mem + r.writes, a))
    && v.trace == t.trace + [Wanted(t)]
  }

  lemma FrameSurvives(h: Host, u: Unseen, t: State, v: State, i: nat)
    requires HostOk(h, u, t.sp) && v.sp == t.sp - 160 && |v.x| == 31 && i < 20
    ensures Read(CallHost(h, v).mem, FrameAt(t, i), 8) == Read(v.mem, FrameAt(t, i), 8)
  {
    var r, c := Bridged(h, v), h.clobber(v);
    var below := Below(c.writes, h.low, v.sp);
    forall a | FrameAt(t, i) <= a < FrameAt(t, i) + 8 ensures Load(CallHost(h, v).mem, a) == Load(v.mem, a) {
      assert a in u;
      LoadMerged(v.mem, below, r.writes, a);
    }
    ReadSame(v.mem, CallHost(h, v).mem, FrameAt(t, i), 8);
  }

  lemma CallKeepsMemory(h: Host, u: Unseen, t: State, v: State, a: nat)
    requires HostOk(h, u, t.sp) && v.sp == t.sp - 160 && |v.x| == 31 && a !in u && Load(v.mem, a) == Load(t.mem, a)
    ensures Load(CallHost(h, v).mem, a) == Load(t.mem + Bridged(h, v).writes, a)
  {
    var r, c := Bridged(h, v), h.clobber(v);
    LoadMerged(v.mem, Below(c.writes, h.low, v.sp), r.writes, a);
  }

  lemma CallHostParts(h: Host, v: State)
    requires |v.x| == 31
    ensures var w := CallHost(h, v);
            && |w.x| == 31 && w.sp == v.sp && w.pc == v.pc + 4 && w.trace == v.trace + [Call(v.x[1], v.x[2..8])]
            && w.x[0] == Bridged(h, v).result && (forall i {:trigger w.x[i]} :: 19 <= i <= 29 ==> w.x[i] == v.x[i])
            && w.x[18] < U64_LIMIT
  {
    hide Below;
  }

  lemma CallPhase(h: Host, u: Unseen, t: State)
    requires Valid(t) && HostOk(h, u, t.sp) && t.x[27] == h.context && t.x[28] == h.entry
    ensures var r := VeneerRun(h, t, 20); r.Some? && Called(h, u, t, r.value, Asked(h, t)) && r.value.pc == t.pc + 80
  {
    MovePhase(h, t, 8);
    var v := VeneerRun(h, t, 19).value;
    assert v.x[28] == t.x[28];
    CallExecutes(h, t, v);
    VeneerNext(h, t, 19);
    CallHostParts(h, v);
    AskedAlike(h, u, t, v);
    var w := CallHost(h, v);
    hide Asked, Bridged, SameMemory, CallHost, VeneerRun, Execute, Read, Load, SavedRegister, Moved, MoveSource;
    forall i: nat | i < 19
      ensures Read(w.mem, FrameAt(t, i), 8) == Read(v.mem, FrameAt(t, i), 8)
    {
      FrameSurvives(h, u, t, v, i);
    }
    forall a: nat | a !in u ensures Load(w.mem, a) == Load(t.mem + Asked(h, t).writes, a) {
      CallKeepsMemory(h, u, t, v, a);
    }
  }

  // ---- the return ----

  lemma ReturnExecutes(h: Host, t: State, v: State)
    requires Valid(t) && t.sp >= 160 && |v.x| == 31 && v.sp == t.sp - 160
    ensures Execute(h, v, VeneerInst(20)) == Some(v.(x := v.x[9 := Read(v.mem, FrameAt(t, 18), 8)], pc := v.pc + 4))
    ensures Execute(h, v, VeneerInst(21)) == Some(v.(flags := v.x[9] / 0x1000_0000 % 16, pc := v.pc + 4))
  {
    StackAddress(t.sp, 144);
    assert FrameAt(t, 18) == Address(v.sp, 144);
    hide Read, Address, FrameAt;
  }

  /** After the flags and the first `n` of the later pairs are restored. */
  ghost predicate Restored(h: Host, u: Unseen, t: State, v: State, r: Response, n: nat) {
    && Called(h, u, t, v, r) && v.flags == t.flags
    && (forall i: nat {:trigger SavedRegister(i)} :: 2 <= i < 2 * n + 2 && i < 18 ==>
         v.x[SavedRegister(i)] == t.x[SavedRegister(i)])
  }

  /** Called depends on the registers only through x0 and the callee-saved ones. */
  lemma CalledSame(h: Host, u: Unseen, t: State, v: State, w: State, r: Response)
    requires Called(h, u, t, v, r) && w.mem == v.mem && w.sp == v.sp && w.trace == v.trace && |w.x| == 31
    requires w.x[0] == v.x[0] && w.x[18] == v.x[18] && forall i {:trigger w.x[i]} :: 19 <= i <= 29 ==> w.x[i] == v.x[i]
    ensures Called(h, u, t, w, r)
  {
    hide Read, Load, SavedRegister, FrameAt;
  }

  lemma CalledParts(h: Host, u: Unseen, t: State, v: State, r: Response)
    requires Called(h, u, t, v, r)
    ensures |t.x| == |v.x| == 31 && t.sp >= 160 && v.sp == t.sp - 160
            && Read(v.mem, FrameAt(t, 18), 8) == t.flags * 0x1000_0000
    ensures forall i: nat {:trigger FrameAt(t, i)} :: i < 18 ==> Read(v.mem, FrameAt(t, i), 8) == t.x[SavedRegister(i)]
  {
  }

  lemma FlagsBack(flags: nat)
    requires flags < 16
    ensures flags * 0x1000_0000 / 0x1000_0000 % 16 == flags
  {
  }

  lemma RestoredStart(h: Host, u: Unseen, t: State, v: State, r: Response)
    requires Called(h, u, t, v, r) && v.flags == t.flags
    ensures Restored(h, u, t, v, r, 0)
  {
    hide Called, SavedRegister;
  }

  lemma FlagsRestored(h: Host, u: Unseen, t: State)
    requires Valid(t) && HostOk(h, u, t.sp) && t.x[27] == h.context && t.x[28] == h.entry
    ensures var r := VeneerRun(h, t, 22);
            r.Some? && Restored(h, u, t, r.value, Asked(h, t), 0) && r.value.pc == t.pc + 88
  {
    ValidParts(t);
    hide *;
    CallPhase(h, u, t);
    var v := VeneerRun(h, t, 20).value;
    var q := Asked(h, t);
    CalledParts(h, u, t, v, q);
    ReturnExecutes(h, t, v);
    VeneerNext(h, t, 20);
    var w := VeneerRun(h, t, 21).value;
    ReturnExecutes(h, t, w);
    VeneerNext(h, t, 21);
    var y := VeneerRun(h, t, 22).value;
    FlagsBack(t.flags);
    assert w.x[9] == t.flags * 0x1000_0000;
    CalledSame(h, u, t, v, y, q);
    RestoredStart(h, u, t, y, q);
  }

  lemma PairExecutes(h: Host, v: State, k: nat)
    requires |v.x| == 31 && 1 <= k < 9
    ensures First(k) < 31 && Second(k) < 31
    ensures Execute(h, v, VeneerInst(21 + k)) == Some(Forward(LoadPair(v, First(k), Second(k), Address(v.sp, 16 * k))))
  {
    hide LoadPair, Address;
  }

  lemma LoadPairIs(v: State, rt: nat, rt2: nat, a: nat)
    requires |v.x| == 31 && rt < 31 && rt2 < 31
    ensures Forward(LoadPair(v, rt, rt2, a)) == v.(x := v.x[rt := Read(v.mem, a, 8)][rt2 := Read(v.mem, a + 8, 8)],
            pc := v.pc + 4)
  {
    hide Read;
  }

  lemma RestoreExecutes(h: Host, t: State, v: State, k: nat)
    requires Valid(t) && t.sp >= 160 && |v.x| == 31 && v.sp == t.sp - 160 && 1 <= k < 9
    ensures First(k) < 31 && Second(k) < 31
    ensures Execute(h, v, VeneerInst(21 + k)) == Some(v.(x :=
              v.x[First(k) := Read(v.mem, FrameAt(t, 2 * k), 8)][Second(k) := Read(v.mem, FrameAt(t, 2 * k + 1), 8)],
              pc := v.pc + 4))
  {
    ValidParts(t);
    StackAddress(t.sp, 16 * k);
    NextSlot(t, 2 * k);
    assert FrameAt(t, 2 * k) == Address(v.sp, 16 * k);
    hide *;
    PairExecutes(h, v, k);
    LoadPairIs(v, First(k), Second(k), Address(v.sp, 16 * k));
  }

  lemma RestoreStep(h: Host, u: Unseen, t: State, v: State, w: State, r: Response, k: nat)
    requires 1 <= k < 9 && Restored(h, u, t, v, r, k - 1) && First(k) < 31 && Second(k) < 31
    requires w == v.(x := v.x[First(k) := t.x[First(k)]][Second(k) := t.x[Second(k)]], pc := v.pc + 4)
    ensures Restored(h, u, t, w, r, k)
  {
    CalledParts(h, u, t, v, r);
    assert First(k) != 0 && Second(k) != 0 && First(k) < 18 && (Second(k) < 18 || Second(k) == 30);
    assert Called(h, u, t, w, r) by { hide SavedRegister; CalledSame(h, u, t, v, w, r); }
    forall i: nat | 2 <= i < 2 * k + 2 && i < 18 ensures w.x[SavedRegister(i)] == t.x[SavedRegister(i)] {
      assert SavedRegister(i) < 31;
      PairRegisters(k);
    }
  }

  lemma {:induction false} RestorePhase(h: Host, u: Unseen, t: State, n: nat)
    requires Valid(t) && HostOk(h, u, t.sp) && t.x[27] == h.context && t.x[28] == h.entry && n <= 8
    ensures var r := VeneerRun(h, t, 22 + n);
            r.Some? && Restored(h, u, t, r.value, Asked(h, t), n) && r.value.pc == t.pc + 88 + 4 * n
  {
    if n == 0 {
      FlagsRestored(h, u, t);
    } else {
      ValidParts(t);
      var q := Asked(h, t);
      hide *;
      RestorePhase(h, u, t, n - 1);
      var v := VeneerRun(h, t, 21 + n).value;
      RestoredParts(h, u, t, v, q, n - 1);
      PairRegisters(n);
      RestoreExecutes(h, t, v, n);
      VeneerNext(h, t, 21 + n);
      RestoreStep(h, u, t, v, VeneerRun(h, t, 22 + n).value, q, n);
    }
  }

  lemma RestoredParts(h: Host, u: Unseen, t: State, v: State, r: Response, n: nat)
    requires Restored(h, u, t, v, r, n)
    ensures |t.x| == |v.x| == 31 && t.sp >= 160 && v.sp == t.sp - 160
    ensures forall i: nat {:trigger FrameAt(t, i)} :: i < 18 ==> Read(v.mem, FrameAt(t, i), 8) == t.x[SavedRegister(i)]
    ensures v.flags == t.flags
  {
    hide Read, SavedRegister;
  }

  lemma LastExecutes(h: Host, t: State, v: State)
    requires Valid(t) && t.sp >= 160 && |v.x| == 31 && v.sp == t.sp - 160
    ensures Execute(h, v, VeneerInst(30)) == Some(v.(x :=
              v.x[1 := Read(v.mem, FrameAt(t, 0), 8)][2 := Read(v.mem, FrameAt(t, 1), 8)], sp := t.sp, pc := v.pc + 4))
  {
    StackAddress(t.sp, 160);
    NextSlot(t, 0);
    assert FrameAt(t, 0) == v.sp && Address(v.sp, 160) == t.sp;
    hide Read, Address, FrameAt;
  }

  /** A veneer changes, as far as the guest can see, what the system call would have. */
  ghost predicate Returned(h: Host, u: Unseen, t: State, w: State, r: Response) {
    && |t.x| == |w.x| == 31 && w.sp == t.sp && w.flags == t.flags && w.x[0] == r.result && w.x[18] < U64_LIMIT
    && (forall i {:trigger w.x[i]} :: 1 <= i < 31 && i != 18 ==> w.x[i] == t.x[i])
    && (forall a: nat {:trigger Load(w.mem, a)} :: a !in u ==> Load(w.mem, a) == Load(t.mem + r.writes, a))
    && w.trace == t.trace + [Wanted(t)]
  }

  lemma SlotOf(i: nat)
    requires 1 <= i <= 17 || i == 30
    ensures i == 30 ==> SavedRegister(17) == 30
    ensures i <= 17 ==> SavedRegister(i - 1) == i
  {
  }

  lemma AllRestored(h: Host, u: Unseen, t: State, v: State, w: State, r: Response)
    requires Restored(h, u, t, v, r, 8) && w == v.(x := v.x[1 := t.x[1]][2 := t.x[2]], sp := t.sp, pc := w.pc)
    ensures Returned(h, u, t, w, r)
  {
    forall i | 1 <= i < 31 && i != 18 ensures w.x[i] == t.x[i] {
      if 3 <= i <= 17 || i == 30 {
        SlotOf(i);
        var slot := if i == 30 then 17 else i - 1;
        assert v.x[SavedRegister(slot)] == t.x[SavedRegister(slot)];
      }
    }
    hide SavedRegister, Read, Load;
  }

  lemma VeneerReturns(h: Host, u: Unseen, t: State)
    requires Valid(t) && HostOk(h, u, t.sp) && t.x[27] == h.context && t.x[28] == h.entry
    ensures var r := VeneerRun(h, t, 31); r.Some? && Returned(h, u, t, r.value, Asked(h, t)) && r.value.pc == t.pc + 124
  {
    ValidParts(t);
    hide *;
    RestorePhase(h, u, t, 8);
    var v := VeneerRun(h, t, 30).value;
    var q := Asked(h, t);
    RestoredParts(h, u, t, v, q, 8);
    LastExecutes(h, t, v);
    VeneerNext(h, t, 30);
    SlotOf(1);
    SlotOf(2);
    AllRestored(h, u, t, v, VeneerRun(h, t, 31).value, q);
  }

  // ---- the packaged code ----

  lemma VeneerPc(h: Host, t: State, j: nat)
    requires j <= 31 && |t.x| == 31 && VeneerRun(h, t, j).Some?
    ensures VeneerRun(h, t, j).value.pc == t.pc + 4 * j
    decreases j
  {
    if j > 0 {
      var v := VeneerRun(h, t, j - 1);
      assert v.Some?;
      VeneerPc(h, t, j - 1);
      VeneerNext(h, t, j - 1);
      hide VeneerRun;
      InstPc(h, v.value, j - 1);
    }
  }

  lemma InstPc(h: Host, v: State, j: nat)
    requires j < 31 && |v.x| == 31 && Registers(VeneerInst(j)) && Execute(h, v, VeneerInst(j)).Some?
    ensures Execute(h, v, VeneerInst(j)).value.pc == v.pc + 4
  {
    hide Read, Write, Below;
  }

  /** The word at `pc` is there to execute and means `i`. */
  ghost predicate Fetches(code: seq<byte>, limit: nat, pc: int, i: Inst) {
    limit <= |code| && 0 <= pc && pc % 4 == 0 && pc + 4 <= limit && Decode(Word(code, pc)) == Some(i)
  }

  lemma StepIs(code: seq<byte>, limit: nat, h: Host, s: State, i: Inst)
    requires |s.x| == 31 && Fetches(code, limit, s.pc, i)
    ensures Registers(i) && limit <= |code| && Step(code, limit, h, s) == Execute(h, s, i)
  {
    DecodeRegisters(Word(code, s.pc));
    hide Decode, Execute, Word;
  }

  /** The code of site number `m`, word by word. */
  lemma FetchVeneer(image: seq<byte>, payload: seq<byte>, site: nat, m: nat, j: nat)
    requires SiteDone(image, payload, site, m) && j <= 31
    ensures Fetches(payload, |payload|, VeneerAt(image, m) + 4 * j,
            if j < 31 then VeneerInst(j) else B(site + 4 - (VeneerAt(image, m) + 124)))
  {
    var at := VeneerAt(image, m);
    var words := Veneer(at, site + 4).value;
    assert Word(payload, at + 4 * j) == words[j];
    assert at + 128 <= |payload|;
    assert j < 31 ==> words[j] == words[..31][j] == VeneerBody()[j];
    hide *;
    PaddedSize(image, m);
    VeneerWord(at, site + 4, j);
    WordThere(payload, at, j, if j < 31 then VeneerInst(j) else B(site + 4 - (at + 124)));
  }

  lemma VeneerWord(at: nat, resume: nat, j: nat)
    requires Veneer(at, resume).Some? && j <= 31
    ensures Decode(Veneer(at, resume).value[j]) == Some(if j < 31 then VeneerInst(j) else B(resume - (at + 124)))
  {
    var words := Veneer(at, resume).value;
    hide Decode, VeneerBody, VeneerInst;
    if j < 31 {
      VeneerDecodes(j);
      assert words[j] == words[..31][j];
    }
  }

  lemma WordThere(payload: seq<byte>, at: nat, j: nat, i: Inst)
    requires at % 4 == 0 && j <= 31 && at + 128 <= |payload| && Decode(Word(payload, at + 4 * j)) == Some(i)
    ensures Fetches(payload, |payload|, at + 4 * j, i)
  {
    hide Decode, Word;
  }

  lemma {:induction false} RunVeneer(image: seq<byte>, payload: seq<byte>, site: nat, m: nat, h: Host, t: State, j: nat)
    requires SiteDone(image, payload, site, m) && j <= 31 && |t.x| == 31 && t.pc == VeneerAt(image, m)
             && VeneerRun(h, t, j).Some?
    ensures Run(payload, |payload|, h, t, j) == VeneerRun(h, t, j)
  {
    hide *;
    if j == 0 {
      VeneerStart(h, t);
      RunNone(payload, |payload|, h, t);
    } else {
      VeneerBefore(h, t, j);
      var v := VeneerRun(h, t, j - 1).value;
      RunVeneer(image, payload, site, m, h, t, j - 1);
      FetchVeneer(image, payload, site, m, j - 1);
      VeneerPc(h, t, j - 1);
      VeneerNext(h, t, j - 1);
      StepIs(payload, |payload|, h, v, VeneerInst(j - 1));
      RunAppend(payload, |payload|, h, t, j - 1, 1);
      RunOne(payload, |payload|, h, v);
    }
  }

  lemma VeneerBefore(h: Host, t: State, j: nat)
    requires 0 < j <= 31 && |t.x| == 31 && VeneerRun(h, t, j).Some?
    ensures VeneerRun(h, t, j - 1).Some?
  {
    hide Execute, VeneerInst;
  }

  lemma RunNone(code: seq<byte>, limit: nat, h: Host, s: State)
    requires limit <= |code| && |s.x| == 31
    ensures Run(code, limit, h, s, 0) == Some(s)
  {
  }

  lemma FetchJump(image: seq<byte>, payload: seq<byte>, site: nat, m: nat)
    requires SiteDone(image, payload, site, m) && site % 4 == 0
    ensures Fetches(payload, |payload|, site, B(VeneerAt(image, m) - site))
  {
    hide Decode, Veneer;
  }

  lemma RunOne(code: seq<byte>, limit: nat, h: Host, s: State)
    requires limit <= |code| && |s.x| == 31
    ensures Run(code, limit, h, s, 1) == Step(code, limit, h, s)
  {
    hide Step;
    StepRegisters(code, limit, h, s);
    var r := Step(code, limit, h, s);
    if r.Some? { assert Run(code, limit, h, r.value, 0) == Some(r.value); }
  }

  lemma JumpIs(h: Host, s: State, offset: int)
    requires |s.x| == 31
    ensures Execute(h, s, B(offset)) == Some(s.(pc := s.pc + offset))
  {
  }

  /** Branch in, thirty-one instructions, branch back: thirty-three steps for one system call. */
  lemma SiteRuns(image: seq<byte>, payload: seq<byte>, site: nat, m: nat, h: Host, u: Unseen, t: State)
    requires SiteDone(image, payload, site, m) && t.pc == site
             && Fetches(payload, |payload|, site, B(VeneerAt(image, m) - site))
    requires Valid(t) && HostOk(h, u, t.sp) && t.x[27] == h.context && t.x[28] == h.entry
    ensures var r := Run(payload, |payload|, h, t, 33);
            r.Some? && Returned(h, u, t, r.value, Asked(h, t)) && r.value.pc == site + 4
  {
    var entered := t.(pc := VeneerAt(image, m));
    EnterValid(t, VeneerAt(image, m));
    hide *;
    VeneerReturns(h, u, entered);
    var w := VeneerRun(h, entered, 31).value;
    SiteRunsThrough(image, payload, site, m, h, t, entered, w);
    ReturnedPc(h, u, t, entered, w, w.(pc := site + 4), Asked(h, t));
  }

  lemma SiteRunsThrough(image: seq<byte>, payload: seq<byte>, site: nat, m: nat, h: Host, t: State, entered: State,
      w: State)
    requires SiteDone(image, payload, site, m) && t.pc == site
             && Fetches(payload, |payload|, site, B(VeneerAt(image, m) - site))
    requires |t.x| == |w.x| == 31 && entered == t.(pc := VeneerAt(image, m)) && VeneerRun(h, entered, 31) == Some(w)
             && w.pc == entered.pc + 124
    ensures Run(payload, |payload|, h, t, 33) == Some(w.(pc := site + 4))
  {
    hide *;
    JumpStep(payload, |payload|, h, t, VeneerAt(image, m));
    RunVeneer(image, payload, site, m, h, entered, 31);
    FetchVeneer(image, payload, site, m, 31);
    JumpStep(payload, |payload|, h, w, site + 4);
    RunThrough(payload, |payload|, h, t, entered, 31, w, w.(pc := site + 4));
  }

  lemma JumpStep(code: seq<byte>, limit: nat, h: Host, s: State, target: int)
    requires |s.x| == 31 && Fetches(code, limit, s.pc, B(target - s.pc))
    ensures limit <= |code| && Step(code, limit, h, s) == Some(s.(pc := target))
  {
    StepIs(code, limit, h, s, B(target - s.pc));
    JumpIs(h, s, target - s.pc);
    hide *;
  }

  lemma RunThrough(code: seq<byte>, limit: nat, h: Host, s: State, a: State, n: nat, b: State, c: State)
    requires limit <= |code| && |s.x| == |a.x| == |b.x| == 31
    requires Step(code, limit, h, s) == Some(a) && Run(code, limit, h, a, n) == Some(b)
             && Step(code, limit, h, b) == Some(c)
    ensures Run(code, limit, h, s, n + 2) == Some(c)
  {
    hide Step, Run;
    RunOne(code, limit, h, s);
    RunOne(code, limit, h, b);
    RunAppend(code, limit, h, s, 1, n);
    RunAppend(code, limit, h, s, n + 1, 1);
  }

  lemma EnterValid(t: State, pc: int)
    requires Valid(t)
    ensures Valid(t.(pc := pc))
  {
  }

  lemma ReturnedPc(h: Host, u: Unseen, t: State, t': State, w: State, w': State, r: Response)
    requires Returned(h, u, t', w, r) && t' == t.(pc := t'.pc) && w' == w.(pc := w'.pc)
    ensures Returned(h, u, t, w', r)
  {
    hide Load;
  }

  // ---- simulation ----

  lemma KernelRelated(h: Host, u: Unseen, s: State, t: State, w: State)
    requires Related(h, u, s, t) && HostOk(h, u, s.sp) && Returned(h, u, t, w, Asked(h, t)) && w.pc == s.pc + 4
    ensures Related(h, u, CallKernel(h, s), w)
  {
    var s' := CallKernel(h, s);
    AskedTheSame(h, u, s, t);
    var r := Asked(h, s);
    hide Asked, HostOk;
    forall a: nat | a !in u ensures Load(w.mem, a) == Load(s'.mem, a) {
      assert Load(t.mem, a) == Load(s.mem, a);
      assert Load(w.mem, a) == Load(t.mem + r.writes, a);
    }
    hide Load;
  }

  /** Related states make the same call and get the same answer. */
  lemma AskedTheSame(h: Host, u: Unseen, s: State, t: State)
    requires Related(h, u, s, t) && HostOk(h, u, s.sp)
    ensures |s.x| == |t.x| == 31 && Wanted(t) == Wanted(s) && Asked(h, t) == Asked(h, s) && Decent(u, Asked(h, s))
  {
    hide Load, SameMemory;
    assert s.x[0..6] == t.x[0..6] by {
      forall i | 0 <= i < 6 ensures s.x[0..6][i] == t.x[0..6][i] { assert Free(i); }
    }
    assert Free(8);
  }

  /** The instruction the guest is about to execute. */
  function Current(image: seq<byte>, s: State): Option<Inst>
    requires 0 <= s.pc && s.pc + 4 <= |image|
  {
    Decode(Word(image, s.pc))
  }

  ghost predicate InText(textSize: nat, s: State) {
    0 <= s.pc && s.pc % 4 == 0 && s.pc + 4 <= textSize
  }

  /** What the inspection says about the instruction the guest is about to execute. */
  lemma AdmittedHere(image: seq<byte>, textSize: nat, s: State)
    requires TextOk(image, textSize) && Accepted(image, textSize) && InText(textSize, s)
    ensures Current(image, s).Some?
    ensures var i := Current(image, s).value;
            && Fetches(image, textSize, s.pc, i) && Registers(i) && (i.Svc? || (Ordinary(i) && FreeRegisters(i)))
            && (i.B? || i.BCond? || i.CompareBranch? ==> InText(textSize, s.(pc := s.pc + i.offset)))
            && (!i.B? ==> InText(textSize, s.(pc := s.pc + 4)))
  {
    hide Decode, Word, Admits;
    var k := s.pc / 4;
    assert s.pc == 4 * k && Text(image, k) == Word(image, s.pc) && k < textSize / 4;
    assert Admits(Text(image, k), 4 * k, |image|, textSize);
    hide Accepted, Text;
    AdmittedInst(Word(image, s.pc), s.pc, |image|, textSize);
    DecodeRegisters(Word(image, s.pc));
    if s.pc + 4 == textSize { LastBranches(image, textSize, s); }
  }

  lemma LastBranches(image: seq<byte>, textSize: nat, s: State)
    requires TextOk(image, textSize) && Accepted(image, textSize) && InText(textSize, s) && s.pc + 4 == textSize
    ensures Current(image, s).Some? && Current(image, s).value.B?
  {
    hide Decode, Admits, Word;
    assert Text(image, textSize / 4 - 1) == Word(image, s.pc);
    BranchWord(Word(image, s.pc));
  }

  lemma BranchWord(w: nat)
    requires w / 0x400_0000 == 5
    ensures Decode(w).Some? && Decode(w).value.B?
  {
    var rest := w % 0x400_0000;
    assert w == 5 * 0x400_0000 + rest;
    assert w / 0x80_0000 == 40 + rest / 0x80_0000;
    assert w / 0x20_0000 == 160 + rest / 0x20_0000;
    assert w / 0x40_0000 == 80 + rest / 0x40_0000;
    assert w / 0x100_0000 % 32 == 20 + rest / 0x100_0000;
  }

  lemma AdmittedInst(w: nat, pc: nat, size: nat, textSize: nat)
    requires Admits(w, pc, size, textSize) && pc % 4 == 0 && textSize % 4 == 0
    ensures Decode(w).Some?
    ensures var i := Decode(w).value;
            && (i.Svc? || (Ordinary(i) && FreeRegisters(i)))
            && (i.B? || i.BCond? || i.CompareBranch? ==>
                 0 <= pc + i.offset && pc + i.offset + 4 <= textSize && (pc + i.offset) % 4 == 0)
  {
    DecodeOffsets(w);
    hide Decode;
  }

  lemma DecodeOffsets(w: nat)
    ensures var i := Decode(w);
            i.Some? && (i.value.B? || i.value.BCond? || i.value.CompareBranch?) ==> i.value.offset % 4 == 0
  {
    hide Field, Signed;
  }

  lemma ExecutePc(h: Host, s: State, i: Inst)
    requires |s.x| == 31 && Registers(i) && (i.Svc? || Ordinary(i))
    ensures Execute(h, s, i).Some?
    ensures var pc := Execute(h, s, i).value.pc;
            if i.B? then pc == s.pc + i.offset
            else if i.BCond? || i.CompareBranch? then pc == s.pc + 4 || pc == s.pc + i.offset else pc == s.pc + 4
  {
    hide Read, Write, Compare, Met;
  }

  /** The `m`-th site is done in the payload, and everything else of the text is as it was. */
  ghost predicate Packaged(image: seq<byte>, textSize: nat, payload: seq<byte>)
    requires TextOk(image, textSize)
  {
    Payload(image, textSize) == Some(payload)
  }

  lemma OrdinaryFetch(image: seq<byte>, textSize: nat, payload: seq<byte>, pc: nat, i: Inst)
    requires TextOk(image, textSize) && Packaged(image, textSize, payload) && Fetches(image, textSize, pc, i) && !i.Svc?
    ensures Fetches(payload, |payload|, pc, i)
  {
    var n := textSize / 4;
    var sites := Sites(image, n);
    SitesIncrease(image, n);
    assert pc !in sites by {
      SitesAre(image, n);
      if pc in sites {
        SiteIn(image, n, pc);
        SvcWord();
      }
    }
    hide Sites, Rewritten, Decode, Word, Increasing, SitesIn;
    RewrittenElsewhere(image, sites, |sites|, pc);
  }

  lemma SvcWord()
    ensures Decode(SVC) == Some(Svc) && forall w {:trigger Decode(w)} :: Decode(w) == Some(Svc) ==> w == SVC
  {
  }

  lemma SvcIndex(image: seq<byte>, textSize: nat, pc: nat) returns (m: nat)
    requires TextOk(image, textSize) && Fetches(image, textSize, pc, Svc)
    ensures m < |Sites(image, textSize / 4)| && Sites(image, textSize / 4)[m] == pc && pc % 4 == 0
  {
    SvcWord();
    assert Text(image, pc / 4) == SVC && pc / 4 < textSize / 4 && pc == 4 * (pc / 4);
    hide Sites, Decode, Word, Text;
    SitesAre(image, textSize / 4);
    m :| 0 <= m < |Sites(image, textSize / 4)| && Sites(image, textSize / 4)[m] == pc;
  }

  lemma SvcFetch(image: seq<byte>, textSize: nat, payload: seq<byte>, pc: nat) returns (m: nat)
    requires TextOk(image, textSize) && Packaged(image, textSize, payload) && Fetches(image, textSize, pc, Svc)
    ensures SiteDone(image, payload, pc, m) && Fetches(payload, |payload|, pc, B(VeneerAt(image, m) - pc))
  {
    var n := textSize / 4;
    var sites := Sites(image, n);
    SitesIncrease(image, n);
    assert Rewritten(image, sites, |sites|) == Some(payload);
    hide *;
    m := SvcIndex(image, textSize, pc);
    RewrittenSites(image, sites, |sites|, m);
    FetchJump(image, payload, pc, m);
  }

  /** The guest's next instruction looks only at what it may see. */
  ghost predicate PoliteStep(image: seq<byte>, textSize: nat, u: Unseen, s: State) {
    |s.x| == 31 && InText(textSize, s) && textSize <= |image| && Current(image, s).Some?
        && Registers(Current(image, s).value)
    && Polite(u, s, Current(image, s).value)
  }

  /** One original step, either the same step or thirty-three packaged ones. */
  lemma StepSimulates(image: seq<byte>, textSize: nat, payload: seq<byte>, h: Host, u: Unseen, s: State, t: State)
        returns (n: nat)
    requires TextOk(image, textSize) && Accepted(image, textSize) && Packaged(image, textSize, payload)
    requires InText(textSize, s) && Related(h, u, s, t) && HostOk(h, u, s.sp) && PoliteStep(image, textSize, u, s)
    ensures 1 <= n <= 33 && |s.x| == |t.x| == 31
    ensures Step(image, textSize, h, s).Some? && InText(textSize, Step(image, textSize, h, s).value)
            && Step(image, textSize, h, s).value.sp == s.sp
    ensures var r := Run(payload, |payload|, h, t, n);
            r.Some? && Related(h, u, Step(image, textSize, h, s).value, r.value)
  {
    hide *;
    RelatedParts(h, u, s, t);
    TextParts(image, textSize);
    InTextParts(image, textSize, s);
    AdmittedHere(image, textSize, s);
    var i := Current(image, s).value;
    StepIs(image, textSize, h, s, i);
    StaysInText(textSize, h, s, i);
    if i.Svc? {
      n := 33;
      KernelIs(h, s);
      SvcSimulates(image, textSize, payload, h, u, s, t);
    } else {
      n := 1;
      PoliteHere(image, textSize, u, s);
      OrdinaryFetch(image, textSize, payload, s.pc, i);
      OrdinaryRelated(h, u, s, t, i);
      StepIs(payload, |payload|, h, t, i);
      RunOne(payload, |payload|, h, t);
    }
  }

  lemma InTextParts(image: seq<byte>, textSize: nat, s: State)
    requires textSize <= |image| && InText(textSize, s)
    ensures 0 <= s.pc && s.pc + 4 <= |image|
  {
  }

  lemma PoliteHere(image: seq<byte>, textSize: nat, u: Unseen, s: State)
    requires PoliteStep(image, textSize, u, s) && 0 <= s.pc && s.pc + 4 <= |image|
    ensures |s.x| == 31 && Current(image, s).Some? && Registers(Current(image, s).value)
            && Polite(u, s, Current(image, s).value)
  {
    hide Current, Polite, Registers;
  }

  lemma RelatedBridge(h: Host, u: Unseen, s: State, t: State)
    requires Related(h, u, s, t)
    ensures Valid(t) && |t.x| == 31 && t.x[27] == h.context && t.x[28] == h.entry
  {
    hide SameMemory;
  }

  lemma SvcSimulates(image: seq<byte>, textSize: nat, payload: seq<byte>, h: Host, u: Unseen, s: State, t: State)
    requires TextOk(image, textSize) && Packaged(image, textSize, payload) && 0 <= s.pc
             && Fetches(image, textSize, s.pc, Svc)
    requires Related(h, u, s, t) && HostOk(h, u, s.sp)
    ensures |s.x| == |t.x| == 31
    ensures var r := Run(payload, |payload|, h, t, 33); r.Some? && Related(h, u, CallKernel(h, s), r.value)
  {
    hide *;
    RelatedParts(h, u, s, t);
    RelatedBridge(h, u, s, t);
    var m := SvcFetch(image, textSize, payload, s.pc);
    SiteRuns(image, payload, s.pc, m, h, u, t);
    KernelRelated(h, u, s, t, Run(payload, |payload|, h, t, 33).value);
  }

  lemma KernelIs(h: Host, s: State)
    requires |s.x| == 31
    ensures Execute(h, s, Svc) == Some(CallKernel(h, s)) && CallKernel(h, s).sp == s.sp
  {
  }

  lemma StaysInText(textSize: nat, h: Host, s: State, i: Inst)
    requires |s.x| == 31 && Registers(i) && (i.Svc? || Ordinary(i)) && InText(textSize, s)
    requires i.B? || i.BCond? || i.CompareBranch? ==> InText(textSize, s.(pc := s.pc + i.offset))
    requires !i.B? ==> InText(textSize, s.(pc := s.pc + 4))
    ensures Execute(h, s, i).Some? && InText(textSize, Execute(h, s, i).value)
  {
    hide Execute;
    ExecutePc(h, s, i);
  }

  /** The first `n` states of the guest's run look only at what they may. */
  ghost predicate PoliteRun(image: seq<byte>, textSize: nat, h: Host, u: Unseen, s: State, n: nat)
    requires textSize <= |image| && |s.x| == 31
    decreases n
  {
    n > 0 ==> PoliteStep(image, textSize, u, s)
              && (Step(image, textSize, h, s).Some? ==>
                    |Step(image, textSize, h, s).value.x| == 31
                        && PoliteRun(image, textSize, h, u, Step(image, textSize, h, s).value, n - 1))
  }

  /** Any number of steps of the original is matched by a run of the payload that makes the same system calls with the
      same arguments, in the same order, and leaves the guest the same registers, stack pointer, flags and memory. */
  lemma {:induction false} PackagingPreservesMeaning(image: seq<byte>, textSize: nat, payload: seq<byte>, h: Host,
      u: Unseen, s: State, t: State, n: nat)
      returns (k: nat)
    requires TextOk(image, textSize) && Accepted(image, textSize) && Packaged(image, textSize, payload)
    requires InText(textSize, s) && Related(h, u, s, t) && HostOk(h, u, s.sp)
    requires |s.x| == 31 && PoliteRun(image, textSize, h, u, s, n)
    ensures n <= k <= 33 * n && |t.x| == 31
    ensures Run(image, textSize, h, s, n).Some? && InText(textSize, Run(image, textSize, h, s, n).value)
    ensures var r := Run(payload, |payload|, h, t, k);
            r.Some? && Related(h, u, Run(image, textSize, h, s, n).value, r.value)
    decreases n
  {
    hide *;
    RelatedParts(h, u, s, t);
    TextParts(image, textSize);
    if n == 0 {
      k := 0;
      RunNone(image, textSize, h, s);
      RunNone(payload, |payload|, h, t);
    } else {
      PoliteRunParts(image, textSize, h, u, s, n);
      var a := StepSimulates(image, textSize, payload, h, u, s, t);
      var s', t' := Step(image, textSize, h, s).value, Run(payload, |payload|, h, t, a).value;
      RunStepIs(image, textSize, h, s, n);
      var b := PackagingPreservesMeaning(image, textSize, payload, h, u, s', t', n - 1);
      RunAppend(payload, |payload|, h, t, a, b);
      k := a + b;
    }
  }

  lemma TextParts(image: seq<byte>, textSize: nat)
    requires TextOk(image, textSize)
    ensures textSize <= |image|
  {
  }

  lemma PoliteRunParts(image: seq<byte>, textSize: nat, h: Host, u: Unseen, s: State, n: nat)
    requires textSize <= |image| && |s.x| == 31 && n > 0 && PoliteRun(image, textSize, h, u, s, n)
    ensures PoliteStep(image, textSize, u, s)
    ensures Step(image, textSize, h, s).Some? ==>
              |Step(image, textSize, h, s).value.x| == 31
                  && PoliteRun(image, textSize, h, u, Step(image, textSize, h, s).value, n - 1)
  {
    hide PoliteStep, Step;
  }

  lemma RunStepIs(code: seq<byte>, limit: nat, h: Host, s: State, n: nat)
    requires limit <= |code| && |s.x| == 31 && n > 0
    ensures Step(code, limit, h, s).Some? ==>
              |Step(code, limit, h, s).value.x| == 31
                  && Run(code, limit, h, s, n) == Run(code, limit, h, Step(code, limit, h, s).value, n - 1)
  {
    hide Step;
    StepRegisters(code, limit, h, s);
  }

  // ---- loading ----

  /** Memory with `bytes` placed at `base`. */
  function Loaded(m: Memory, base: nat, bytes: seq<byte>): Memory {
    m + map a: nat | a in Addresses(base, |bytes|) :: if base <= a < base + |bytes| then bytes[a - base] as nat else 0
  }

  function Addresses(base: nat, n: nat): (r: set<nat>)
    ensures forall a: nat :: a in r <==> base <= a < base + n
  {
    if n == 0 then {} else Addresses(base, n - 1) + {base + n - 1}
  }

  /** What the guest must not rely on: the stack below its pointer, rewritten words, and where veneers are appended. */
  ghost predicate IsHidden(image: seq<byte>, textSize: nat, payload: seq<byte>, h: Host, sp: nat, a: nat)
    requires TextOk(image, textSize)
  {
    || h.low <= a < sp
    || (h.base <= a < h.base + |payload|
        && (a - h.base >= |image| || !Outside(Sites(image, textSize / 4), a - h.base)))
  }

  ghost function Hidden(image: seq<byte>, textSize: nat, payload: seq<byte>, h: Host, sp: nat): Unseen
    requires TextOk(image, textSize)
  {
    iset a: nat | IsHidden(image, textSize, payload, h, sp, a)
  }

  /** The image and the payload loaded at the same place look the same to the guest. */
  lemma LoadedAlike(image: seq<byte>, textSize: nat, payload: seq<byte>, h: Host, sp: nat, m: Memory)
    requires TextOk(image, textSize) && Packaged(image, textSize, payload)
    ensures var u := Hidden(image, textSize, payload, h, sp);
            && SameMemory(u, Loaded(m, h.base, image), Loaded(m, h.base, payload))
            && forall a: nat :: h.low <= a < sp ==> a in u
  {
    hide TextOk, Packaged, Rewritten, Sites, Loaded, Load, SitesIn, Increasing, Outside;
    forall a: nat | !IsHidden(image, textSize, payload, h, sp, a)
      ensures Load(Loaded(m, h.base, payload), a) == Load(Loaded(m, h.base, image), a)
    {
      LoadedAlikeAt(image, textSize, payload, h, sp, m, a);
    }
  }

  lemma LoadedAlikeAt(image: seq<byte>, textSize: nat, payload: seq<byte>, h: Host, sp: nat, m: Memory, a: nat)
    requires TextOk(image, textSize) && Packaged(image, textSize, payload)
             && !IsHidden(image, textSize, payload, h, sp, a)
    ensures Load(Loaded(m, h.base, payload), a) == Load(Loaded(m, h.base, image), a)
  {
    PackagedParts(image, textSize, payload);
    ShownAt(image, textSize, payload, h, sp, a);
    var sites := Sites(image, textSize / 4);
    hide *;
    ShownByte(image, sites, payload, h.base, m, a);
  }

  lemma ShownAt(image: seq<byte>, textSize: nat, payload: seq<byte>, h: Host, sp: nat, a: nat)
    requires TextOk(image, textSize) && !IsHidden(image, textSize, payload, h, sp, a)
    ensures h.base <= a < h.base + |payload| ==> a - h.base < |image| && Outside(Sites(image, textSize / 4), a - h.base)
  {
    hide Sites, Outside;
  }

  lemma ShownByte(image: seq<byte>, sites: seq<nat>, payload: seq<byte>, base: nat, m: Memory, a: nat)
    requires SitesIn(sites, |image|) && Rewritten(image, sites, |sites|) == Some(payload)
    requires base <= a < base + |payload| ==> a - base < |image| && Outside(sites, a - base)
    ensures Load(Loaded(m, base, payload), a) == Load(Loaded(m, base, image), a)
  {
    hide *;
    LoadedAt(m, base, payload, a);
    LoadedAt(m, base, image, a);
    PaddedLonger(image, sites, payload);
    if base <= a < base + |payload| { RewrittenBytes(image, sites, |sites|, a - base); }
  }

  lemma PackagedParts(image: seq<byte>, textSize: nat, payload: seq<byte>)
    requires TextOk(image, textSize) && Packaged(image, textSize, payload)
    ensures var sites := Sites(image, textSize / 4);
            SitesIn(sites, |image|) && Rewritten(image, sites, |sites|) == Some(payload)
  {
    SitesIncrease(image, textSize / 4);
    hide Rewritten, Sites, SitesIn, Increasing;
  }

  lemma PaddedLonger(image: seq<byte>, sites: seq<nat>, payload: seq<byte>)
    requires SitesIn(sites, |image|) && Rewritten(image, sites, |sites|) == Some(payload)
    ensures |payload| >= |image|
  {
    PaddedSize(image, |sites|);
    hide RewriteOne;
  }

  lemma LoadedAt(m: Memory, base: nat, bytes: seq<byte>, a: nat)
    ensures Load(Loaded(m, base, bytes), a) == if base <= a < base + |bytes| then bytes[a - base] as nat else Load(m, a)
  {
  }

  // ---- from the loader on ----

  /** Where the packaged guest starts: the payload in place of the image, and the bridge in x27 and x28. */
  function Packed(h: Host, s: State, m: Memory, payload: seq<byte>): State
    requires |s.x| == 31
  {
    s.(x := s.x[27 := h.context][28 := h.entry], mem := Loaded(m, h.base, payload))
  }

  lemma PackedRelated(image: seq<byte>, textSize: nat, payload: seq<byte>, h: Host, m: Memory, s: State)
    requires TextOk(image, textSize) && Packaged(image, textSize, payload)
    requires Valid(s) && s.mem == Loaded(m, h.base, image) && h.entry < U64_LIMIT && h.context < U64_LIMIT
    ensures Related(h, Hidden(image, textSize, payload, h, s.sp), s, Packed(h, s, m, payload))
  {
    LoadedAlike(image, textSize, payload, h, s.sp, m);
    hide TextOk, Packaged, Hidden, Loaded, SameMemory;
  }

  /** A dispatcher that keeps to what the guest may see: not the stack below its pointer, nor the packager's words. */
  ghost predicate Dispatches(image: seq<byte>, textSize: nat, payload: seq<byte>, h: Host, sp: nat)
    requires TextOk(image, textSize)
  {
    HostOk(h, Hidden(image, textSize, payload, h, sp), sp)
  }

  /** Loaded at the same place and started alike, the packaged guest does what the original does: after any number of
      original steps it has made the same calls with the same answers, and shows the guest the same machine. */
  lemma PackagedGuestRuns(image: seq<byte>, textSize: nat, payload: seq<byte>, h: Host, m: Memory, s: State, n: nat)
        returns (k: nat)
    requires TextOk(image, textSize) && Accepted(image, textSize) && Packaged(image, textSize, payload)
    requires Valid(s) && InText(textSize, s) && s.mem == Loaded(m, h.base, image)
             && Dispatches(image, textSize, payload, h, s.sp)
    requires PoliteRun(image, textSize, h, Hidden(image, textSize, payload, h, s.sp), s, n)
    ensures n <= k <= 33 * n && Run(image, textSize, h, s, n).Some?
            && Run(payload, |payload|, h, Packed(h, s, m, payload), k).Some?
    ensures var a, b := Run(image, textSize, h, s, n).value,
            Run(payload, |payload|, h, Packed(h, s, m, payload), k).value;
            && b.trace == a.trace && b.pc == a.pc && b.sp == a.sp && b.flags == a.flags && |a.x| == |b.x| == 31
            && (forall r {:trigger b.x[r]} :: 0 <= r < 31 && Free(r) ==> b.x[r] == a.x[r])
            && SameMemory(Hidden(image, textSize, payload, h, s.sp), a.mem, b.mem)
  {
    TextParts(image, textSize);
    ValidParts(s);
    HostParts(h, Hidden(image, textSize, payload, h, s.sp), s.sp);
    PackedRelated(image, textSize, payload, h, m, s);
    var u, t := Hidden(image, textSize, payload, h, s.sp), Packed(h, s, m, payload);
    hide TextOk, Accepted, Packaged, Hidden, InText, PoliteRun, Loaded, Packed, HostOk, Run, Related, SameMemory;
    k := PackagingPreservesMeaning(image, textSize, payload, h, u, s, t, n);
    RelatedAgree(h, u, Run(image, textSize, h, s, n).value, Run(payload, |payload|, h, t, k).value);
  }

  lemma HostParts(h: Host, u: Unseen, sp: nat)
    requires HostOk(h, u, sp)
    ensures h.entry < U64_LIMIT && h.context < U64_LIMIT
  {
  }

  lemma RelatedAgree(h: Host, u: Unseen, s: State, t: State)
    requires Related(h, u, s, t)
    ensures t.trace == s.trace && t.pc == s.pc && t.sp == s.sp && t.flags == s.flags && |s.x| == |t.x| == 31
    ensures forall r {:trigger t.x[r]} :: 0 <= r < 31 && Free(r) ==> t.x[r] == s.x[r]
    ensures SameMemory(u, s.mem, t.mem)
  {
    hide SameMemory;
  }
}
