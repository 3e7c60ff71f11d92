/** The bounded best-fit allocator under a Binder receive mapping. */
module BinderArena {
  import opened Base

  datatype Slot = Slot(address: u64, extent: nat, dataSize: nat, offsetsAddress: u64, offsetsSize: nat,
                       extraAddress: u64, extraSize: nat, delivered: bool, clear: bool)

  ghost predicate SlotFits(s: Slot, base: nat, capacity: nat) {
    base <= s.address && s.address + s.extent <= base + capacity && s.extent > 0 && s.address % 8 == 0
        && s.extent % 8 == 0
  }

  ghost predicate Ordered(slots: seq<Slot>) {
    forall i, j {:trigger slots[i], slots[j]} :: 0 <= i < j < |slots| ==>
          slots[i].address + slots[i].extent <= slots[j].address
  }

  /** Buffers lie in the arena, are 8-aligned, nonempty, ordered by address and disjoint. */
  ghost predicate Laid(slots: seq<Slot>, base: nat, capacity: nat) {
    && base > 0 && base % 8 == 0 && capacity % 8 == 0 && base + capacity < U64_LIMIT
    && (forall i {:trigger slots[i]} :: 0 <= i < |slots| ==> SlotFits(slots[i], base, capacity))
    && Ordered(slots)
  }

  ghost predicate IsHeld(slots: seq<Slot>, address: nat, delivered: bool) {
    exists i :: 0 <= i < |slots| && slots[i].address == address && slots[i].delivered == delivered
  }

  /** Offset at which the gap before slot `i` begins, and where it stops. */
  function GapStart(slots: seq<Slot>, base: nat, i: nat): int
    requires i <= |slots|
  {
    if i == 0 then 0 else slots[i - 1].address - base + slots[i - 1].extent
  }

  function GapStop(slots: seq<Slot>, base: nat, capacity: nat, i: nat): int
    requires i <= |slots|
  {
    if i == |slots| then capacity else slots[i].address - base
  }

  function Gap(slots: seq<Slot>, base: nat, capacity: nat, i: nat): int
    requires i <= |slots|
  {
    GapStop(slots, base, capacity, i) - GapStart(slots, base, i)
  }

  /** Gap `k` is large enough, no smaller gap is, and no equally small one lies lower. */
  ghost predicate IsBestFit(slots: seq<Slot>, base: nat, capacity: nat, extent: nat, k: nat) {
    && k <= |slots| && Gap(slots, base, capacity, k) >= extent
    && (forall j: nat {:trigger Gap(slots, base, capacity, j)} ::
         j <= |slots| && Gap(slots, base, capacity, j) >= extent ==>
          Gap(slots, base, capacity, k) < Gap(slots, base, capacity, j)
          || (Gap(slots, base, capacity, k) == Gap(slots, base, capacity, j) && k <= j))
  }

  ghost predicate NothingFits(slots: seq<Slot>, base: nat, capacity: nat, extent: nat) {
    forall j: nat {:trigger Gap(slots, base, capacity, j)} :: j <= |slots| ==> Gap(slots, base, capacity, j) < extent
  }

  /** The best gap among the first `n`. */
  function BestFitBelow(slots: seq<Slot>, base: nat, capacity: nat, extent: nat, n: nat): (r: Option<nat>)
    requires n <= |slots| + 1
    ensures r.Some? ==>
              && r.value < n && Gap(slots, base, capacity, r.value) >= extent
              && (forall j: nat {:trigger Gap(slots, base, capacity, j)} ::
                   j < n && Gap(slots, base, capacity, j) >= extent ==>
                    Gap(slots, base, capacity, r.value) < Gap(slots, base, capacity, j)
                    || (Gap(slots, base, capacity, r.value) == Gap(slots, base, capacity, j) && r.value <= j))
    ensures r.None? ==> forall j: nat {:trigger Gap(slots, base, capacity, j)} :: j < n ==>
              Gap(slots, base, capacity, j) < extent
  {
    if n == 0 then None
    else
      var best := BestFitBelow(slots, base, capacity, extent, n - 1);
      var gap := Gap(slots, base, capacity, n - 1);
      if gap >= extent && (best.None? || gap < Gap(slots, base, capacity, best.value)) then Some(n - 1) else best
  }

  function BestFit(slots: seq<Slot>, base: nat, capacity: nat, extent: nat): (r: Option<nat>)
    ensures r.Some? ==> IsBestFit(slots, base, capacity, extent, r.value)
    ensures r.None? ==> NothingFits(slots, base, capacity, extent)
  {
    BestFitBelow(slots, base, capacity, extent, |slots| + 1)
  }

  function RoundUp8(x: nat): (r: nat)
    ensures r % 8 == 0 && x <= r < x + 8
  {
    (x + 7) / 8 * 8
  }

  function Extent(dataSize: nat, offsetsSize: nat, extraSize: nat): nat {
    var total := RoundUp8(dataSize) + offsetsSize + RoundUp8(extraSize);
    if total == 0 then 8 else total
  }

  function Layout(base: nat, offset: nat, dataSize: nat, offsetsSize: nat, extraSize: nat, clear: bool): Slot
    requires base + offset + Extent(dataSize, offsetsSize, extraSize) < U64_LIMIT
  {
    Slot(base + offset, Extent(dataSize, offsetsSize, extraSize), dataSize,
         base + offset + RoundUp8(dataSize), offsetsSize,
         base + offset + RoundUp8(dataSize) + offsetsSize, extraSize, false, clear)
  }

  datatype Placement = Rejected(errno: int) | Placed(slots: seq<Slot>, index: nat)

  function Reserve(slots: seq<Slot>, base: nat, capacity: nat, limit: nat,
                   dataSize: nat, offsetsSize: nat, extraSize: nat, clear: bool): Placement
    requires Laid(slots, base, capacity)
  {
    if offsetsSize % 8 != 0 then Rejected(-22)
    else if dataSize > capacity || offsetsSize > capacity || extraSize > capacity || |slots| == limit then Rejected(-12)
    else if RoundUp8(dataSize) + offsetsSize + RoundUp8(extraSize) > capacity then Rejected(-12)
    else
      var best := BestFit(slots, base, capacity, Extent(dataSize, offsetsSize, extraSize));
      if best.None? then Rejected(-12)
      else
        GapsWithin(slots, base, capacity, best.value);
        var slot := Layout(base, GapStart(slots, base, best.value), dataSize, offsetsSize, extraSize, clear);
        Placed(InsertAt(slots, best.value, slot), best.value)
  }

  lemma Aligned8(a: int, b: int, c: int)
    requires a % 8 == 0 && b % 8 == 0 && c % 8 == 0
    ensures (a - b + c) % 8 == 0
  {
  }

  lemma GapsWithin(slots: seq<Slot>, base: nat, capacity: nat, k: nat)
    requires Laid(slots, base, capacity) && k <= |slots|
    ensures 0 <= GapStart(slots, base, k) <= GapStop(slots, base, capacity, k) <= capacity
    ensures GapStart(slots, base, k) % 8 == 0
  {
    if k > 0 {
      var s := slots[k - 1];
      assert base <= s.address && s.address + s.extent <= base + capacity;
      assert k < |slots| ==>
               s.address + s.extent <= slots[k].address && slots[k].address + slots[k].extent <= base + capacity;
      Aligned8(s.address, base, s.extent);
    }
  }

  /** The index of the buffer at `address`, or the buffer count. */
  function FindSlot(slots: seq<Slot>, address: nat, i: nat := 0): (k: nat)
    requires i <= |slots|
    ensures i <= k <= |slots|
    ensures k < |slots| ==> slots[k].address == address
    ensures forall j :: i <= j < k ==> slots[j].address != address
    decreases |slots| - i
  {
    if i == |slots| || slots[i].address == address then i else FindSlot(slots, address, i + 1)
  }

  function Publish(slots: seq<Slot>, address: nat): (r: (seq<Slot>, int)) {
    var k := FindSlot(slots, address);
    if k == |slots| then (slots, -22)
    else if slots[k].delivered then (slots, -1)
    else (slots[k := slots[k].(delivered := true)], 0)
  }

  /** Cancelling removes an undelivered buffer, releasing removes a delivered one. */
  function Remove(slots: seq<Slot>, address: nat, delivered: bool): (r: (seq<Slot>, int)) {
    var k := FindSlot(slots, address);
    if k == |slots| then (slots, -22)
    else if slots[k].delivered != delivered then (slots, -1)
    else (RemoveAt(slots, k), 0)
  }

  // ---- what the operations do to the set of held buffers ----

  /** No two buffers share an address. */
  ghost predicate Distinct(slots: seq<Slot>) {
    forall i, j {:trigger slots[i], slots[j]} ::
          0 <= i < |slots| && 0 <= j < |slots| && slots[i].address == slots[j].address ==> i == j
  }

  lemma LaidDistinct(slots: seq<Slot>, base: nat, capacity: nat)
    requires Laid(slots, base, capacity)
    ensures Distinct(slots)
  {
  }

  lemma HeldOnce(slots: seq<Slot>, base: nat, capacity: nat, address: nat)
    requires Laid(slots, base, capacity)
    ensures !(IsHeld(slots, address, true) && IsHeld(slots, address, false))
  {
    if IsHeld(slots, address, true) && IsHeld(slots, address, false) {
      var i :| 0 <= i < |slots| && slots[i].address == address && slots[i].delivered;
      var j :| 0 <= j < |slots| && slots[j].address == address && !slots[j].delivered;
      LaidDistinct(slots, base, capacity);
    }
  }

  lemma ExtentAligned(dataSize: nat, offsetsSize: nat, extraSize: nat)
    requires offsetsSize % 8 == 0
    ensures Extent(dataSize, offsetsSize, extraSize) % 8 == 0
    ensures Extent(dataSize, offsetsSize, extraSize) >= RoundUp8(dataSize) + offsetsSize
  {
  }

  /** Once sizes and the slot count pass, a reservation is refused only when no gap is large enough, and
      otherwise takes the lowest of the smallest sufficient gaps. */
  lemma ReserveIsBestFit(slots: seq<Slot>, base: nat, capacity: nat, limit: nat,
                         dataSize: nat, offsetsSize: nat, extraSize: nat, clear: bool)
    requires Laid(slots, base, capacity)
    ensures var r := Reserve(slots, base, capacity, limit, dataSize, offsetsSize, extraSize, clear);
            var extent := Extent(dataSize, offsetsSize, extraSize);
            && (offsetsSize % 8 == 0 && |slots| != limit
                && RoundUp8(dataSize) + offsetsSize + RoundUp8(extraSize) <= capacity ==>
                  (r.Rejected? <==> NothingFits(slots, base, capacity, extent)))
            && extent > 0
            && (r.Placed? ==>
                  && r.index < |r.slots| == |slots| + 1
                  && r.slots == InsertAt(slots, r.index, r.slots[r.index])
                  && IsBestFit(slots, base, capacity, extent, r.index)
                  && RemoveAt(r.slots, r.index) == slots
                  && r.slots[r.index].address == base + GapStart(slots, base, r.index)
                  && r.slots[r.index].extent == extent
                  && !r.slots[r.index].delivered)
  {
    hide Laid, SlotFits, Ordered;
    var r := Reserve(slots, base, capacity, limit, dataSize, offsetsSize, extraSize, clear);
    if r.Placed? {
      GapsWithin(slots, base, capacity, r.index);
      assert RemoveAt(r.slots, r.index) == slots;
      assert Gap(slots, base, capacity, r.index) >= Extent(dataSize, offsetsSize, extraSize);
    }
  }

  lemma GapIs(slots: seq<Slot>, base: nat, capacity: nat, k: nat)
    requires k <= |slots|
    ensures Gap(slots, base, capacity, k) == GapStop(slots, base, capacity, k) - GapStart(slots, base, k)
  {
  }

  lemma BaseAligned(slots: seq<Slot>, base: nat, capacity: nat)
    requires Laid(slots, base, capacity)
    ensures base % 8 == 0 && base + capacity < U64_LIMIT
  {
  }

  lemma ReserveLaid(slots: seq<Slot>, base: nat, capacity: nat, limit: nat,
                    dataSize: nat, offsetsSize: nat, extraSize: nat, clear: bool)
    requires Laid(slots, base, capacity)
    requires Reserve(slots, base, capacity, limit, dataSize, offsetsSize, extraSize, clear).Placed?
    ensures Laid(Reserve(slots, base, capacity, limit, dataSize, offsetsSize, extraSize, clear).slots, base, capacity)
  {
    hide IsBestFit, Laid, Reserve, Extent;
    assert offsetsSize % 8 == 0 by {
      ReserveNeeds(slots, base, capacity, limit, dataSize, offsetsSize, extraSize, clear);
    }
    var r := Reserve(slots, base, capacity, limit, dataSize, offsetsSize, extraSize, clear);
    ReserveIsBestFit(slots, base, capacity, limit, dataSize, offsetsSize, extraSize, clear);
    var s := r.slots[r.index];
    GapsWithin(slots, base, capacity, r.index);
    ExtentAligned(dataSize, offsetsSize, extraSize);
    assert s.extent <= Gap(slots, base, capacity, r.index) by { Fits(slots, base, capacity, s.extent, r.index); }
    InsertLaid(slots, base, capacity, r.index, s);
  }

  /** A reserved buffer: its data at its start, its offsets on the next multiple of eight, all of it inside the arena.
      */
  ghost predicate Spans(s: Slot, base: nat, capacity: nat, dataSize: nat, offsetsSize: nat) {
    && base <= s.address && s.address % 8 == 0 && s.offsetsAddress % 8 == 0
    && s.address + dataSize <= s.offsetsAddress < s.address + dataSize + 8
    && s.offsetsAddress + offsetsSize <= s.address + s.extent <= base + capacity
    && s.dataSize == dataSize && s.offsetsSize == offsetsSize && !s.delivered
  }

  lemma LayoutSpans(base: nat, offset: nat, capacity: nat, dataSize: nat, offsetsSize: nat)
    requires base % 8 == 0 && offset % 8 == 0 && offset + Extent(dataSize, offsetsSize, 0) <= capacity
    requires base + capacity < U64_LIMIT
    ensures Spans(Layout(base, offset, dataSize, offsetsSize, 0, false), base, capacity, dataSize, offsetsSize)
  {
    Aligned8(base, 0, offset);
    Aligned8(base + offset, 0, RoundUp8(dataSize));
    hide RoundUp8;
  }

  lemma ReserveSpans(slots: seq<Slot>, base: nat, capacity: nat, limit: nat, dataSize: nat, offsetsSize: nat)
    requires Laid(slots, base, capacity)
    requires Reserve(slots, base, capacity, limit, dataSize, offsetsSize, 0, false).Placed?
    ensures var r := Reserve(slots, base, capacity, limit, dataSize, offsetsSize, 0, false);
            r.index < |r.slots| && Spans(r.slots[r.index], base, capacity, dataSize, offsetsSize)
  {
    hide Laid, SlotFits, Ordered, Gap, GapStart, GapStop, Spans, Layout, Extent, RoundUp8;
    var r := Reserve(slots, base, capacity, limit, dataSize, offsetsSize, 0, false);
    var extent := Extent(dataSize, offsetsSize, 0);
    var best := BestFit(slots, base, capacity, extent);
    GapsWithin(slots, base, capacity, best.value);
    Fits(slots, base, capacity, extent, best.value);
    assert Gap(slots, base, capacity, best.value) ==
           GapStop(slots, base, capacity, best.value) - GapStart(slots, base,
               best.value) by { GapIs(slots, base, capacity, best.value); }
    BaseAligned(slots, base, capacity);
    LayoutSpans(base, GapStart(slots, base, best.value), capacity, dataSize, offsetsSize);
  }

  lemma ReserveNeeds(slots: seq<Slot>, base: nat, capacity: nat, limit: nat,
                     dataSize: nat, offsetsSize: nat, extraSize: nat, clear: bool)
    requires Laid(slots, base, capacity)
    requires Reserve(slots, base, capacity, limit, dataSize, offsetsSize, extraSize, clear).Placed?
    ensures offsetsSize % 8 == 0
  {
  }

  lemma Fits(slots: seq<Slot>, base: nat, capacity: nat, extent: nat, k: nat)
    requires IsBestFit(slots, base, capacity, extent, k)
    ensures k <= |slots| && extent <= Gap(slots, base, capacity, k)
  {
  }

  lemma InsertOrdered(slots: seq<Slot>, base: nat, capacity: nat, k: nat, s: Slot)
    requires Ordered(slots) && k <= |slots|
    requires k > 0 ==> slots[k - 1].address + slots[k - 1].extent <= s.address
    requires k < |slots| ==> s.address + s.extent <= slots[k].address
    ensures Ordered(InsertAt(slots, k, s))
  {
    var t := InsertAt(slots, k, s);
    forall i, j | 0 <= i < j < |t| ensures t[i].address + t[i].extent <= t[j].address {
      if j == k {
        assert i == k - 1 || slots[i].address + slots[i].extent <= slots[k - 1].address;
      } else if i == k {
        assert j == k + 1 || slots[k].address + slots[k].extent <= slots[j - 1].address;
      }
    }
  }

  lemma InsertLaid(slots: seq<Slot>, base: nat, capacity: nat, k: nat, s: Slot)
    requires Laid(slots, base, capacity) && k <= |slots|
    requires s.address >= base && s.address - base == GapStart(slots, base, k)
    requires GapStart(slots, base, k) % 8 == 0 && s.extent > 0 && s.extent % 8 == 0
    requires s.extent <= Gap(slots, base, capacity, k)
    requires GapStop(slots, base, capacity, k) <= capacity
    ensures Laid(InsertAt(slots, k, s), base, capacity)
  {
    hide Ordered;
    Aligned8(GapStart(slots, base, k), 0, base);
    assert SlotFits(s, base, capacity);
    InsertOrdered(slots, base, capacity, k, s);
  }

  lemma ReserveHolds(slots: seq<Slot>, base: nat, capacity: nat, limit: nat,
                     dataSize: nat, offsetsSize: nat, extraSize: nat, clear: bool)
    requires Laid(slots, base, capacity)
    requires Reserve(slots, base, capacity, limit, dataSize, offsetsSize, extraSize, clear).Placed?
    ensures var r := Reserve(slots, base, capacity, limit, dataSize, offsetsSize, extraSize, clear);
            var a := r.slots[r.index].address;
            && (forall v :: !IsHeld(slots, a, v))
            && (forall x, v {:trigger IsHeld(r.slots, x, v)} :: IsHeld(r.slots, x, v) <==>
                 IsHeld(slots, x, v) || (x == a && !v))
  {
    hide Laid, IsBestFit;
    ReserveIsBestFit(slots, base, capacity, limit, dataSize, offsetsSize, extraSize, clear);
    ReserveLaid(slots, base, capacity, limit, dataSize, offsetsSize, extraSize, clear);
    var r := Reserve(slots, base, capacity, limit, dataSize, offsetsSize, extraSize, clear);
    LaidDistinct(r.slots, base, capacity);
    forall x, v ensures IsHeld(r.slots, x, v) <==> IsHeld(slots, x, v) || (x == r.slots[r.index].address && !v) {
      RemoveAtHolds(r.slots, r.index, x, v);
      if x == r.slots[r.index].address && IsHeld(r.slots, x, v) {
        var i :| 0 <= i < |r.slots| && r.slots[i].address == x && r.slots[i].delivered == v;
        assert i == r.index;
      }
    }
    forall v ensures !IsHeld(slots, r.slots[r.index].address, v) {
      RemoveAtHolds(r.slots, r.index, r.slots[r.index].address, v);
    }
  }

  lemma PublishAtLaid(slots: seq<Slot>, base: nat, capacity: nat, k: nat)
    requires Laid(slots, base, capacity) && k < |slots|
    ensures Laid(slots[k := slots[k].(delivered := true)], base, capacity)
  {
    assert SlotFits(slots[k].(delivered := true), base, capacity);
    hide SlotFits;
  }

  lemma PublishAtHolds(slots: seq<Slot>, k: nat, x: nat, v: bool)
    requires Distinct(slots) && k < |slots|
    ensures IsHeld(slots[k := slots[k].(delivered := true)], x, v) <==>
              if x == slots[k].address then v else IsHeld(slots, x, v)
  {
    var after := slots[k := slots[k].(delivered := true)];
    if IsHeld(after, x, v) {
      var i :| 0 <= i < |after| && after[i].address == x && after[i].delivered == v;
      assert slots[i].address == x;
    }
    assert x == slots[k].address ==> after[k].address == x;
    if x != slots[k].address && IsHeld(slots, x, v) {
      var i :| 0 <= i < |slots| && slots[i].address == x && slots[i].delivered == v;
      assert after[i] == slots[i];
    }
  }

  lemma PublishHolds(slots: seq<Slot>, base: nat, capacity: nat, address: nat)
    requires Laid(slots, base, capacity)
    ensures var (after, code) := Publish(slots, address);
            && (code == 0 <==> IsHeld(slots, address, false))
            && Laid(after, base, capacity)
            && (code != 0 ==> after == slots)
            && (code == 0 ==> forall x, v {:trigger IsHeld(after, x, v)} :: IsHeld(after, x, v) <==>
                 if x == address then v else IsHeld(slots, x, v))
  {
    var (after, code) := Publish(slots, address);
    var k := FindSlot(slots, address);
    LaidDistinct(slots, base, capacity);
    if IsHeld(slots, address, false) {
      var i :| 0 <= i < |slots| && slots[i].address == address && !slots[i].delivered;
      assert i == k;
    }
    if code == 0 {
      PublishAtLaid(slots, base, capacity, k);
      forall x, v ensures IsHeld(after, x, v) <==> if x == address then v else IsHeld(slots, x, v) {
        PublishAtHolds(slots, k, x, v);
      }
    }
  }

  lemma RemoveAtHolds(slots: seq<Slot>, k: nat, x: nat, v: bool)
    requires Distinct(slots) && k < |slots|
    ensures IsHeld(RemoveAt(slots, k), x, v) <==> x != slots[k].address && IsHeld(slots, x, v)
  {
    var after := RemoveAt(slots, k);
    if IsHeld(after, x, v) {
      var i :| 0 <= i < |after| && after[i].address == x && after[i].delivered == v;
      assert slots[if i < k then i else i + 1] == after[i];
    }
    if x != slots[k].address && IsHeld(slots, x, v) {
      var i :| 0 <= i < |slots| && slots[i].address == x && slots[i].delivered == v;
      assert after[if i < k then i else i - 1] == slots[i];
    }
  }

  lemma RemoveAtLaid(slots: seq<Slot>, base: nat, capacity: nat, k: nat)
    requires Laid(slots, base, capacity) && k < |slots|
    ensures Laid(RemoveAt(slots, k), base, capacity)
  {
    hide SlotFits;
  }

  lemma RemoveHolds(slots: seq<Slot>, base: nat, capacity: nat, address: nat, delivered: bool)
    requires Laid(slots, base, capacity)
    ensures var (after, code) := Remove(slots, address, delivered);
            && (code == 0 <==> IsHeld(slots, address, delivered))
            && Laid(after, base, capacity)
            && (code != 0 ==> after == slots)
            && (code == 0 ==> forall x, v {:trigger IsHeld(after, x, v)} :: IsHeld(after, x, v) <==>
                 x != address && IsHeld(slots, x, v))
  {
    var (after, code) := Remove(slots, address, delivered);
    var k := FindSlot(slots, address);
    LaidDistinct(slots, base, capacity);
    if IsHeld(slots, address, delivered) {
      var i :| 0 <= i < |slots| && slots[i].address == address && slots[i].delivered == delivered;
      assert i == k;
    }
    if code == 0 {
      RemoveAtLaid(slots, base, capacity, k);
      forall x, v ensures IsHeld(after, x, v) <==> x != address && IsHeld(slots, x, v) {
        RemoveAtHolds(slots, k, x, v);
      }
    }
  }
}
