/** The arena's storage: which bytes each operation touches, and that delivered bytes stay put. */
module ArenaBytes {
  import opened Base
  import opened BinderArena

  /** The bytes of an arena and the buffers laid out in them. */
  datatype Store = Store(bytes: seq<byte>, slots: seq<Slot>)

  ghost predicate Valid(m: Store, base: nat) {
    Laid(m.slots, base, |m.bytes|)
  }

  datatype Op =
    | Take(dataSize: nat, offsetsSize: nat, extraSize: nat, clear: bool)
    | Fill(address: nat, offset: nat, data: seq<byte>)
    | Show(address: nat)
    | Cancel(address: nat)
    | Release(address: nat)
    | DiscardAll

  function Zeroed(bytes: seq<byte>, at: nat, n: nat): (r: seq<byte>)
    requires at + n <= |bytes|
    ensures |r| == |bytes|
    ensures forall i {:trigger r[i]} :: 0 <= i < |r| ==> r[i] == if at <= i < at + n then 0 else bytes[i]
  {
    Splice(bytes, at, seq(n, _ => 0))
  }

  /** The extents of the first `n` buffers zeroed. */
  function Wiped(bytes: seq<byte>, slots: seq<Slot>, base: nat, n: nat): (r: seq<byte>)
    requires Laid(slots, base, |bytes|) && n <= |slots|
    ensures |r| == |bytes|
  {
    if n == 0 then bytes
    else
      assert SlotFits(slots[n - 1], base, |bytes|);
      Zeroed(Wiped(bytes, slots, base, n - 1), slots[n - 1].address - base, slots[n - 1].extent)
  }

  function Apply(m: Store, base: nat, limit: nat, op: Op): (Store, int)
    requires Valid(m, base)
  {
    match op
    case Take(dataSize, offsetsSize, extraSize, clear) =>
      var place := Reserve(m.slots, base, |m.bytes|, limit, dataSize, offsetsSize, extraSize, clear);
      if place.Rejected? then (m, place.errno)
      else
        ReserveLaid(m.slots, base, |m.bytes|, limit, dataSize, offsetsSize, extraSize, clear);
        var s := place.slots[place.index];
        assert SlotFits(s, base, |m.bytes|);
        (Store(Zeroed(m.bytes, s.address - base, s.extent), place.slots), 0)
    case Fill(address, offset, data) =>
      var k := FindSlot(m.slots, address);
      if k == |m.slots| then (m, -22)
      else if m.slots[k].delivered then (m, -1)
      else if offset > m.slots[k].extent || |data| > m.slots[k].extent - offset then (m, -22)
      else
        assert SlotFits(m.slots[k], base, |m.bytes|);
        (m.(bytes := Splice(m.bytes, address - base + offset, data)), 0)
    case Show(address) => var (slots, code) := Publish(m.slots, address); (m.(slots := slots), code)
    case Cancel(address) => Gone(m, base, address, false)
    case Release(address) => Gone(m, base, address, true)
    case DiscardAll => (Store(Wiped(m.bytes, m.slots, base, |m.slots|), []), 0)
  }

  function Gone(m: Store, base: nat, address: nat, delivered: bool): (Store, int)
    requires Valid(m, base)
  {
    var k := FindSlot(m.slots, address);
    var (slots, code) := Remove(m.slots, address, delivered);
    if code == 0 && m.slots[k].clear then
      assert SlotFits(m.slots[k], base, |m.bytes|);
      (Store(Zeroed(m.bytes, address - base, m.slots[k].extent), slots), 0)
    else (m.(slots := slots), code)
  }

  /** Buffers stay sorted, disjoint, aligned and in range. */
  lemma ApplyValid(m: Store, base: nat, limit: nat, op: Op)
    requires Valid(m, base)
    ensures Valid(Apply(m, base, limit, op).0, base) && |Apply(m, base, limit, op).0.bytes| == |m.bytes|
  {
    match op
    case Take(dataSize, offsetsSize, extraSize, clear) =>
      hide Laid, Reserve;
      if Reserve(m.slots, base, |m.bytes|, limit, dataSize, offsetsSize, extraSize, clear).Placed? {
        ReserveLaid(m.slots, base, |m.bytes|, limit, dataSize, offsetsSize, extraSize, clear);
      }
    case Fill(address, offset, data) =>
    case Show(address) => hide Laid, Publish; PublishHolds(m.slots, base, |m.bytes|, address);
    case Cancel(address) => hide Laid, Remove, FindSlot; RemoveHolds(m.slots, base, |m.bytes|, address, false);
    case Release(address) => hide Laid, Remove, FindSlot; RemoveHolds(m.slots, base, |m.bytes|, address, true);
    case DiscardAll =>
  }

  // ---- writes stay inside their own extent ----

  predicate Within(s: Slot, base: nat, i: nat) {
    s.address <= base + i < s.address + s.extent
  }

  ghost predicate SlotIn(slots: seq<Slot>, s: Slot) {
    exists k :: 0 <= k < |slots| && slots[k] == s
  }

  lemma SlotRange(slots: seq<Slot>, base: nat, capacity: nat, k: nat)
    requires Laid(slots, base, capacity) && k < |slots|
    ensures base <= slots[k].address && slots[k].address + slots[k].extent <= base + capacity
  {
    assert SlotFits(slots[k], base, capacity);
  }

  /** Another buffer's bytes are elsewhere. */
  lemma OtherExtent(slots: seq<Slot>, base: nat, capacity: nat, j: nat, k: nat, i: nat)
    requires Laid(slots, base, capacity) && j < |slots| && k < |slots| && j != k && Within(slots[j], base, i)
    ensures !Within(slots[k], base, i)
  {
  }

  predicate EndsDelivery(op: Op, address: nat) {
    op == DiscardAll || op == Release(address)
  }

  /** Until it is released, a delivered buffer keeps its place and its bytes, whatever is done to the arena. */
  lemma DeliveredStays(m: Store, base: nat, limit: nat, op: Op, s: Slot)
    requires Valid(m, base) && SlotIn(m.slots, s) && s.delivered && !EndsDelivery(op, s.address)
    ensures var m' := Apply(m, base, limit, op).0;
            SlotIn(m'.slots, s) && |m'.bytes| == |m.bytes| && forall i {:trigger m'.bytes[i]} ::
                  0 <= i < |m.bytes| && Within(s, base, i) ==> m'.bytes[i] == m.bytes[i]
  {
    var j :| 0 <= j < |m.slots| && m.slots[j] == s;
    ApplyValid(m, base, limit, op);
    hide Laid, Valid;
    match op
    case Take(dataSize, offsetsSize, extraSize, clear) => hide Apply; TakeKeeps(m, base, limit, op, j);
    case Fill(address, offset, data) => FillKeeps(m, base, limit, op, j);
    case Show(address) =>
      ValidLaid(m, base);
      LaidDistinct(m.slots, base, |m.bytes|);
      assert Apply(m, base, limit, op).0.slots[j] == s;
    case Cancel(address) => hide Gone; GoneKeeps(m, base, address, false, j);
    case Release(address) => hide Gone; GoneKeeps(m, base, address, true, j);
  }

  lemma ValidLaid(m: Store, base: nat)
    requires Valid(m, base)
    ensures Laid(m.slots, base, |m.bytes|)
  {
    hide Laid;
  }

  lemma FillKeeps(m: Store, base: nat, limit: nat, op: Op, j: nat)
    requires Valid(m, base) && op.Fill? && j < |m.slots| && m.slots[j].delivered
    ensures var m' := Apply(m, base, limit, op).0;
            SlotIn(m'.slots, m.slots[j]) && |m'.bytes| == |m.bytes|
            && forall i {:trigger m'.bytes[i]} :: 0 <= i < |m.bytes| && Within(m.slots[j], base, i) ==>
                 m'.bytes[i] == m.bytes[i]
  {
    hide Laid;
    var k := FindSlot(m.slots, op.address);
    LaidDistinct(m.slots, base, |m.bytes|);
    assert m.slots[j] == m.slots[j];
    if k < |m.slots| {
      SlotRange(m.slots, base, |m.bytes|, k);
      forall i | 0 <= i < |m.bytes| && Within(m.slots[j], base, i) && k != j
        ensures !Within(m.slots[k], base, i)
      {
        OtherExtent(m.slots, base, |m.bytes|, j, k, i);
      }
    }
    hide FindSlot;
  }

  lemma TakeKeeps(m: Store, base: nat, limit: nat, op: Op, j: nat)
    requires Valid(m, base) && op.Take? && j < |m.slots|
    ensures var m' := Apply(m, base, limit, op).0;
            SlotIn(m'.slots, m.slots[j]) && forall i {:trigger m'.bytes[i]} ::
                  0 <= i < |m.bytes| && i < |m'.bytes| && Within(m.slots[j], base, i) ==> m'.bytes[i] == m.bytes[i]
  {
    hide BinderArena.Reserve, IsBestFit, Laid, Extent, RoundUp8, GapStart, NothingFits;
    var place := Reserve(m.slots, base, |m.bytes|, limit, op.dataSize, op.offsetsSize, op.extraSize, op.clear);
    assert SlotIn(m.slots, m.slots[j]);
    if place.Placed? {
      ReserveIsBestFit(m.slots, base, |m.bytes|, limit, op.dataSize, op.offsetsSize, op.extraSize, op.clear);
      ReserveLaid(m.slots, base, |m.bytes|, limit, op.dataSize, op.offsetsSize, op.extraSize, op.clear);
      SlotRange(place.slots, base, |m.bytes|, place.index);
      var x := if j < place.index then j else j + 1;
      assert place.slots[x] == m.slots[j];
      forall i | 0 <= i < |m.bytes| && Within(m.slots[j], base, i) ensures !Within(place.slots[place.index], base, i) {
        OtherExtent(place.slots, base, |m.bytes|, x, place.index, i);
      }
    }
  }

  lemma GoneKeeps(m: Store, base: nat, address: nat, delivered: bool, j: nat)
    requires Valid(m, base) && j < |m.slots| && m.slots[j].delivered && (delivered ==> m.slots[j].address != address)
    ensures var m' := Gone(m, base, address, delivered).0;
            SlotIn(m'.slots, m.slots[j]) && |m'.bytes| == |m.bytes|
            && forall i {:trigger m'.bytes[i]} :: 0 <= i < |m.bytes| && Within(m.slots[j], base, i) ==>
                 m'.bytes[i] == m.bytes[i]
  {
    hide Laid;
    var k := FindSlot(m.slots, address);
    LaidDistinct(m.slots, base, |m.bytes|);
    var m' := Gone(m, base, address, delivered).0;
    if k < |m.slots| && m.slots[k].delivered == delivered {
      SlotRange(m.slots, base, |m.bytes|, k);
      assert k != j;
      assert m'.slots[if j < k then j else j - 1] == m.slots[j];
      forall i | 0 <= i < |m.bytes| && Within(m.slots[j], base, i)
        ensures !Within(m.slots[k], base, i)
      {
        OtherExtent(m.slots, base, |m.bytes|, j, k, i);
      }
    } else {
      assert m'.slots[j] == m.slots[j];
    }
  }

  // ---- what each operation does to the bytes ----

  ghost predicate IsSlot(slots: seq<Slot>, k: nat, address: nat, delivered: bool) {
    k < |slots| && slots[k].address == address && slots[k].delivered == delivered
  }

  lemma FoundSlot(m: Store, base: nat, address: nat, k: nat)
    requires Valid(m, base) && k < |m.slots| && m.slots[k].address == address
    ensures FindSlot(m.slots, address) == k
  {
    LaidDistinct(m.slots, base, |m.bytes|);
    var j := FindSlot(m.slots, address);
    hide Laid, FindSlot;
  }

  /** A write puts its data at its offset in the undelivered buffer of that address, if it fits there, and otherwise
      nothing anywhere. */
  lemma FillMeans(m: Store, base: nat, limit: nat, address: nat, offset: nat, data: seq<byte>)
    requires Valid(m, base)
    ensures var (m', code) := Apply(m, base, limit, Fill(address, offset, data));
            && m'.slots == m.slots && |m'.bytes| == |m.bytes|
            && (code == 0 <==>
                 exists k: nat :: IsSlot(m.slots, k, address, false) && offset + |data| <= m.slots[k].extent)
            && (code != 0 ==> m' == m)
            && (code == 0 ==> forall i {:trigger m'.bytes[i]} :: 0 <= i < |m.bytes| ==>
                 m'.bytes[i] == var at := address - base + offset;
                                if at <= i < at + |data| then data[i - at] else m.bytes[i])
  {
    forall k: nat | k < |m.slots| && m.slots[k].address == address ensures FindSlot(m.slots, address) == k {
      FoundSlot(m, base, address, k);
    }
    var k := FindSlot(m.slots, address);
    if k < |m.slots| { SlotRange(m.slots, base, |m.bytes|, k); }
    hide Laid, FindSlot;
    assert k < |m.slots| && !m.slots[k].delivered ==> IsSlot(m.slots, k, address, false);
  }

  /** Buffer `k` is new, its bytes are zero and all other bytes are as they were. */
  ghost predicate Adds(m: Store, m': Store, base: nat, k: nat) {
    && k < |m'.slots| && RemoveAt(m'.slots, k) == m.slots && |m'.bytes| == |m.bytes|
    && forall i {:trigger m'.bytes[i]} :: 0 <= i < |m.bytes| ==>
         m'.bytes[i] == if Within(m'.slots[k], base, i) then 0 else m.bytes[i]
  }

  lemma ZeroedAdds(m: Store, slots: seq<Slot>, base: nat, k: nat)
    requires Laid(slots, base, |m.bytes|) && k < |slots| && RemoveAt(slots, k) == m.slots
    ensures base <= slots[k].address && slots[k].address + slots[k].extent <= base + |m.bytes|
    ensures Adds(m, Store(Zeroed(m.bytes, slots[k].address - base, slots[k].extent), slots), base, k)
  {
    SlotRange(slots, base, |m.bytes|, k);
    hide Laid;
  }

  /** A reservation zeroes the new buffer and no other byte; a refused one changes nothing. */
  lemma TakeMeans(m: Store, base: nat, limit: nat, op: Op)
    requires Valid(m, base) && op.Take?
    ensures var (m', code) := Apply(m, base, limit, op);
            if code == 0 then exists k: nat :: Adds(m, m', base, k) else m' == m
  {
    var place := Reserve(m.slots, base, |m.bytes|, limit, op.dataSize, op.offsetsSize, op.extraSize, op.clear);
    RejectedNonzero(m.slots, base, |m.bytes|, limit, op);
    if place.Placed? {
      ReserveIsBestFit(m.slots, base, |m.bytes|, limit, op.dataSize, op.offsetsSize, op.extraSize, op.clear);
      ReserveLaid(m.slots, base, |m.bytes|, limit, op.dataSize, op.offsetsSize, op.extraSize, op.clear);
      hide BinderArena.Reserve, Laid, IsBestFit, NothingFits, GapStart, Extent, RoundUp8, Adds;
      ZeroedAdds(m, place.slots, base, place.index);
    }
  }

  lemma RejectedNonzero(slots: seq<Slot>, base: nat, capacity: nat, limit: nat, op: Op)
    requires Laid(slots, base, capacity) && op.Take?
    ensures var r := Reserve(slots, base, capacity, limit, op.dataSize, op.offsetsSize, op.extraSize, op.clear);
            r.Rejected? ==> r.errno != 0
  {
  }

  /** Cancelling or releasing removes exactly the buffer of that address and kind, and zeroes its bytes if it asked for
      that; without one nothing changes. */
  lemma GoneMeans(m: Store, base: nat, address: nat, delivered: bool, k: nat)
    requires Valid(m, base)
    ensures var (m', code) := Gone(m, base, address, delivered);
            && |m'.bytes| == |m.bytes|
            && (IsSlot(m.slots, k, address, delivered) ==>
                 && code == 0 && m'.slots == RemoveAt(m.slots, k)
                 && forall i {:trigger m'.bytes[i]} :: 0 <= i < |m.bytes| ==>
                      m'.bytes[i] == if m.slots[k].clear && Within(m.slots[k], base, i) then 0 else m.bytes[i])
            && ((forall j: nat :: !IsSlot(m.slots, j, address, delivered)) ==> code != 0 && m' == m)
  {
    if IsSlot(m.slots, k, address, delivered) {
      FoundSlot(m, base, address, k);
      SlotRange(m.slots, base, |m.bytes|, k);
    }
    var f := FindSlot(m.slots, address);
    assert f < |m.slots| && m.slots[f].delivered == delivered ==> IsSlot(m.slots, f, address, delivered);
    hide Laid, FindSlot;
  }

  lemma {:induction false} WipedMeans(bytes: seq<byte>, slots: seq<Slot>, base: nat, n: nat)
    requires Laid(slots, base, |bytes|) && n <= |slots|
    ensures forall i {:trigger Wiped(bytes, slots, base, n)[i]} :: 0 <= i < |bytes| ==>
              Wiped(bytes, slots, base, n)[i] ==
                if exists k :: 0 <= k < n && Within(slots[k], base, i) then 0 else bytes[i]
  {
    if n > 0 {
      WipedMeans(bytes, slots, base, n - 1);
      SlotRange(slots, base, |bytes|, n - 1);
      hide Laid;
    }
  }

  /** Discarding forgets every buffer and zeroes the bytes of all of them and no others. */
  lemma DiscardMeans(m: Store, base: nat, limit: nat)
    requires Valid(m, base)
    ensures var (m', code) := Apply(m, base, limit, DiscardAll);
            && code == 0 && m'.slots == [] && |m'.bytes| == |m.bytes|
            && forall i {:trigger m'.bytes[i]} :: 0 <= i < |m.bytes| ==>
                 m'.bytes[i] == if exists k :: 0 <= k < |m.slots| && Within(m.slots[k], base, i) then 0 else m.bytes[i]
  {
    WipedMeans(m.bytes, m.slots, base, |m.slots|);
    hide Laid, Wiped;
  }

  // ---- runs ----

  /** One operation; nothing is said about what follows a broken layout. */
  ghost predicate Moves(m: Store, base: nat, limit: nat, op: Op, m': Store) {
    Valid(m, base) ==> m' == Apply(m, base, limit, op).0
  }

  /** Any operations, in any order, on an arena that starts empty. */
  ghost predicate IsRun(states: seq<Store>, base: nat, limit: nat, ops: seq<Op>) {
    && |states| == |ops| + 1 && states[0].slots == [] && Valid(states[0], base)
    && forall i {:trigger ops[i]} :: 0 <= i < |ops| ==> Moves(states[i], base, limit, ops[i], states[i + 1])
  }

  lemma {:induction false} AlwaysLaid(states: seq<Store>, base: nat, limit: nat, ops: seq<Op>, n: nat)
    requires IsRun(states, base, limit, ops) && n < |states|
    ensures Valid(states[n], base) && |states[n].bytes| == |states[0].bytes|
  {
    if n > 0 {
      AlwaysLaid(states, base, limit, ops, n - 1);
      assert Moves(states[n - 1], base, limit, ops[n - 1], states[n]);
      hide Apply, Valid;
      ApplyValid(states[n - 1], base, limit, ops[n - 1]);
    }
  }

  /** In every run, what a receiver was shown stays as it was until the receiver releases it. */
  lemma {:induction false} DeliveredNeverRewritten(states: seq<Store>, base: nat, limit: nat, ops: seq<Op>, a: nat,
      b: nat, s: Slot)
    requires IsRun(states, base, limit, ops) && a <= b < |states| && SlotIn(states[a].slots, s) && s.delivered
    requires forall i {:trigger ops[i]} :: a <= i < b ==> !EndsDelivery(ops[i], s.address)
    ensures SlotIn(states[b].slots, s) && |states[b].bytes| == |states[a].bytes|
    ensures forall i {:trigger states[b].bytes[i]} :: 0 <= i < |states[a].bytes| && Within(s, base, i) ==>
              states[b].bytes[i] == states[a].bytes[i]
    decreases b
  {
    if a < b {
      DeliveredNeverRewritten(states, base, limit, ops, a, b - 1, s);
      AlwaysLaid(states, base, limit, ops, b - 1);
      assert Moves(states[b - 1], base, limit, ops[b - 1], states[b]);
      hide Apply, Valid, SlotIn, IsRun;
      DeliveredStays(states[b - 1], base, limit, ops[b - 1], s);
    }
  }

  // ---- the allocator as it runs ----

  class Arena {
    const base: nat
    const limit: nat
    const writable: array<byte>
    var slots: seq<Slot>

    ghost function View(): Store
      reads this, writable
    {
      Store(writable[..], slots)
    }

    constructor (writable: array<byte>, base: nat, limit: nat)
      requires Laid([], base, writable.Length)
      ensures this.writable == writable && this.base == base && this.limit == limit && slots == []
              && Valid(View(), base)
    {
      this.writable, this.base, this.limit, this.slots := writable, base, limit, [];
    }

    method Zero(at: nat, n: nat)
      requires at + n <= writable.Length
      modifies writable
      ensures writable[..] == Zeroed(old(writable[..]), at, n)
    {
      for i := 0 to n
        invariant forall j {:trigger writable[j]} :: 0 <= j < writable.Length ==>
                    writable[j] == if at <= j < at + i then 0 else old(writable[j])
      {
        writable[at + i] := 0;
      }
    }

    method Reserve(dataSize: nat, offsetsSize: nat, extraSize: nat, clear: bool) returns (code: int)
      requires Valid(View(), base)
      modifies this, writable
      ensures (View(), code) == Apply(old(View()), base, limit, Take(dataSize, offsetsSize, extraSize, clear))
    {
      hide Laid, SlotFits;
      if offsetsSize % 8 != 0 { return -22; }
      var capacity := writable.Length;
      if dataSize > capacity || offsetsSize > capacity || extraSize > capacity || |slots| == limit { return -12; }
      if RoundUp8(dataSize) + offsetsSize + RoundUp8(extraSize) > capacity { return -12; }
      var extent := Extent(dataSize, offsetsSize, extraSize);
      var best := BestGap(slots, base, capacity, extent);
      if best.None? { return -12; }
      GapsWithin(slots, base, capacity, best.value);
      var offset := GapStart(slots, base, best.value);
      assert base + offset + extent < U64_LIMIT by { Fitting(slots, base, capacity, extent, best.value); }
      var slot := Layout(base, offset, dataSize, offsetsSize, extraSize, clear);
      ghost var place := BinderArena.Reserve(slots, base, capacity, limit, dataSize, offsetsSize, extraSize, clear);
      assert place == Placed(InsertAt(slots, best.value, slot), best.value);
      slots := InsertAt(slots, best.value, slot);
      Zero(offset, extent);
      code := 0;
    }

    method Write(address: nat, offset: nat, data: seq<byte>) returns (code: int)
      requires Valid(View(), base)
      modifies writable
      ensures (View(), code) == Apply(old(View()), base, limit, Fill(address, offset, data))
    {
      var k := FindSlot(slots, address);
      if k == |slots| { return -22; }
      if slots[k].delivered { return -1; }
      if offset > slots[k].extent || |data| > slots[k].extent - offset { return -22; }
      SlotRange(slots, base, writable.Length, k);
      hide Laid;
      var at := address - base + offset;
      for i := 0 to |data|
        invariant forall j {:trigger writable[j]} :: 0 <= j < writable.Length ==>
                    writable[j] == if at <= j < at + i then data[j - at] else old(writable[j])
      {
        writable[at + i] := data[i];
      }
      assert writable[..] == Splice(old(writable[..]), at, data);
      code := 0;
    }

    method Publish(address: nat) returns (code: int)
      requires Valid(View(), base)
      modifies this
      ensures (View(), code) == Apply(old(View()), base, limit, Show(address))
    {
      var k := FindSlot(slots, address);
      if k == |slots| { return -22; }
      if slots[k].delivered { return -1; }
      slots := slots[k := slots[k].(delivered := true)];
      code := 0;
    }

    /** Cancels an undelivered buffer or releases a delivered one. */
    method Remove(address: nat, delivered: bool) returns (code: int)
      requires Valid(View(), base)
      modifies this, writable
      ensures (View(), code) == Apply(old(View()), base, limit, if delivered then Release(address) else Cancel(address))
    {
      var k := FindSlot(slots, address);
      if k == |slots| { return -22; }
      if slots[k].delivered != delivered { return -1; }
      SlotRange(slots, base, writable.Length, k);
      hide Laid;
      if slots[k].clear { Zero(address - base, slots[k].extent); }
      slots := RemoveAt(slots, k);
      code := 0;
    }

    method Discard()
      requires Valid(View(), base)
      modifies this, writable
      ensures (View(), 0) == Apply(old(View()), base, limit, DiscardAll)
    {
      hide Laid;
      ghost var before := writable[..];
      for i := 0 to |slots|
        invariant slots == old(slots) && writable[..] == Wiped(before, slots, base, i)
      {
        SlotRange(slots, base, writable.Length, i);
        Zero(slots[i].address - base, slots[i].extent);
      }
      slots := [];
    }
  }

  lemma Fitting(slots: seq<Slot>, base: nat, capacity: nat, extent: nat, k: nat)
    requires Laid(slots, base, capacity) && k <= |slots| && Gap(slots, base, capacity, k) >= extent
    ensures base + GapStart(slots, base, k) + extent < U64_LIMIT
  {
    GapsWithin(slots, base, capacity, k);
  }

  /** The scan over the gaps, keeping the smallest that is large enough. */
  method BestGap(slots: seq<Slot>, base: nat, capacity: nat, extent: nat) returns (r: Option<nat>)
    ensures r == BestFit(slots, base, capacity, extent)
  {
    r := None;
    var previousEnd: int := 0;
    for i := 0 to |slots| + 1
      invariant r == BestFitBelow(slots, base, capacity, extent, i)
      invariant i <= |slots| ==> previousEnd == GapStart(slots, base, i)
    {
      var next := if i == |slots| then capacity else slots[i].address - base;
      var gap := next - previousEnd;
      if gap >= extent && (r.None? || gap < Gap(slots, base, capacity, r.value)) { r := Some(i); }
      if i != |slots| { previousEnd := next + slots[i].extent; }
    }
  }
}
