/** The guest-visible memory operations over the region list. */
module AddressSpaces {
  import opened Base
  import opened VmPages
  import opened VirtualMemory

  /** What the host answers when asked for storage: an error, or a fresh range and what protecting, mapping
      and, if that fails, releasing it returned. */
  datatype Reply = Denied(error: int) | Given(base: nat, prepare: int, release: int)

  /** Fresh storage overlaps nothing that is there. */
  ghost predicate IsFresh(regions: seq<Region>, base: nat, size: nat) {
    forall k {:trigger regions[k]} :: 0 <= k < |regions| ==> !Overlaps(regions[k].base, regions[k].length, base, size)
  }

  lemma OwnedAppend(regions: seq<Region>, r: Region)
    ensures Owned(regions + [r]) == Owned(regions) + if r.owned then r.length else 0
  {
    assert (regions + [r])[..|regions|] == regions;
  }

  /** A page of a new region, everywhere the same. */
  function Uniform(page: nat, size: nat, p: Page): (pages: seq<Page>)
    requires page > 0
    ensures |pages| == size / page && forall i {:trigger pages[i]} :: 0 <= i < |pages| ==> pages[i] == p
  {
    seq(size / page, _ => p)
  }

  lemma {:induction false} UniformMapped(pages: seq<Page>, p: Page)
    requires forall i {:trigger pages[i]} :: 0 <= i < |pages| ==> pages[i] == p
    ensures Mapped(pages) == if p.isMapped then |pages| else 0
  {
    if pages != [] { UniformMapped(pages[..|pages| - 1], p); }
  }

  /** A new region of whole pages, all alike. */
  lemma NewRegion(page: nat, regions: seq<Region>, r: Region, p: Page)
    requires page > 0 && RegionsOk(page, regions) && IsFresh(regions, r.base, r.length)
    requires r.base > 0 && r.length > 0 && r.base + r.length < U64_LIMIT && r.length % page == 0 && r.base % page == 0
    requires r.pages == Uniform(page, r.length, p)
    requires PageOk(p) && (p.file <==> r.file.Some?) && r.live == (if p.isMapped then r.length / page else 0)
    requires r.guardBytes == 0 || (r.owned && r.guardBytes % page == 0 && r.guardBytes < r.length && p == EMPTY)
    ensures RegionsOk(page, regions + [r])
    ensures forall a: nat {:trigger View(page, regions + [r], a)} ::
              View(page, regions + [r], a) == if InRange(a, r.base, r.length) then p else View(page, regions, a)
  {
    UniformMapped(r.pages, p);
    WholePages(page, r.length);
    assert r.length / page > 0;
    assert r.pages[0] == p;
    assert RegionOk(page, r);
    hide RegionOk;
    forall a: nat
      ensures View(page, regions + [r], a) == if InRange(a, r.base, r.length) then p else View(page, regions, a)
    {
      ViewAppend(page, regions, r, a);
      if Contains(r, a) { PageIndex(page, a - r.base, 0, |r.pages|); }
    }
    ViewAppend(page, regions, r, 0);
  }

  class AddressSpace {
    const page: nat
    const limit: nat
    const regionLimit: nat
    var regions: seq<Region>
    var reserved: nat
    var poisoned: bool
    var watches: seq<nat>

    constructor (page: nat, limit: nat, regionLimit: nat)
      requires page > 0
      ensures Valid() && this.page == page && this.limit == limit && !poisoned && regions == []
    {
      this.page, this.limit, this.regionLimit := page, limit, regionLimit;
      regions, reserved, poisoned, watches := [], 0, false, [];
    }

    /** Live counts, guard pages, denied writes, the sum of what is owned and every watch are as they should be. */
    ghost predicate Valid()
      reads this
    {
      && page > 0 && RegionsOk(page, regions) && WatchesOk(regions, watches)
      && reserved == Owned(regions) <= limit && |regions| <= regionLimit
    }

    /** What a program can see and a caller relies on. */
    twostate predicate Unchanged()
      reads this
    {
      regions == old(regions) && reserved == old(reserved) && poisoned == old(poisoned) && watches == old(watches)
    }

    /** Only the page map inside the range changed, by `f`. */
    twostate predicate Stepped(address: nat, size: nat, f: Page -> Page)
      requires page > 0
      reads this
    {
      Steps(page, old(regions), regions, address, size, f)
    }

    // ---- access ----

    method Access(address: nat, length: nat, required: nat) returns (ok: bool)
      requires Valid()
      ensures ok <==> !poisoned && (length == 0 || (Containing(regions, address, length) < |regions|
                                                    && BytesAre(page, regions, address, length, Granting(required))))
    {
      if poisoned { return false; }
      if length == 0 { return true; }
      var k := Containing(regions, address, length);
      if k == |regions| { return false; }
      BytesMean(page, regions, k, address, length, Granting(required));
      var first, last := PageOfByte(page, regions[k], address), PageOfByte(page, regions[k], address + length - 1);
      hide RegionsOk, WatchesOk, BytesAre, PageOfByte;
      var n := first;
      while n <= last
        invariant first <= n
        invariant forall i {:trigger regions[k].pages[i]} :: first <= i < n && i < |regions[k].pages| ==>
                    Allows(regions[k].pages[i], required)
        decreases last + 1 - n
      {
        if !Allows(regions[k].pages[n], required) { return false; }
        n := n + 1;
      }
      ok := true;
    }

    // ---- mapping over owned storage ----

    /** The range lies in one owned region (the window's, if there is one), above its guard. */
    ghost predicate MayFix(window: Option<nat>, address: nat, size: nat)
      requires page > 0
      reads this
    {
      var k := Containing(regions, address, size);
      && Ranged(page, address, size) && k < |regions| && (window.Some? ==> k == window.value)
      && regions[k].owned && regions[k].base + regions[k].guardBytes <= address
    }

    /** MAP_FIXED: the range becomes anonymous memory with the given protection, whatever it was. */
    method MapFixed(window: Option<nat>, address: nat, size: nat, perm: nat, reset: int) returns (r: int)
      requires Valid() && size > 0 && size % page == 0 && perm in {0, 1, 3} && reset <= 0
      modifies this
      ensures Valid() && r <= 0 && reserved == old(reserved)
      ensures r == 0 <==> old(!poisoned && MayFix(window, address, size)) && reset == 0
      ensures poisoned <==> old(poisoned) || (old(MayFix(window, address, size)) && reset != 0)
      ensures r == 0 ==> address > 0 && Stepped(address, size, Fill(perm))
      ensures r != 0 ==> regions == old(regions) && (Unchanged() || poisoned)
      ensures old(poisoned) ==> Unchanged()
    {
      hide RegionsOk, WatchesOk, Owned, Steps, Repaged, Sound, Containing;
      if poisoned { return -5; }
      if !Ranged(page, address, size) { return -22; }
      var k := Containing(regions, address, size);
      if k == |regions| { return -95; }
      var region := regions[k];
      if window.Some? && k != window.value { return -95; }
      if !region.owned { return -1; }
      if address < region.base + region.guardBytes { return -1; }
      InsideRegion(page, regions, k, address, size);
      var first, count := (address - region.base) / page, size / page;
      SoundOperations(perm);
      AboveGuard(page, region, address);
      BasePositive(page, regions, k);
      ReplaceSteps(page, regions, k, address, size, Fill(perm));
      r := Replace(k, first, count, Fill(perm), reset, true);
    }

    /** The range lies in one protectable region, every page of it is there, and none forbids the protection. */
    ghost predicate MayProtect(address: nat, size: nat, writing: bool)
      requires page > 0
      reads this
    {
      var k := Containing(regions, address, size);
      k < |regions| && regions[k].protectable && BytesAre(page, regions, address, size, Permitting(writing))
    }

    /** mprotect: every page of the range gets the protection, unless one is missing or may not be written. */
    method Mprotect(address: nat, length: nat, prot: nat, host: int) returns (r: int)
      requires Valid()
      modifies this
      ensures Valid() && reserved == old(reserved) && watches == old(watches)
      ensures r == 0 <==>
                && !old(poisoned) && prot < 8 && prot / 4 == 0 && Ranged(page, address, Rounded(page, length))
                && (length > 0 ==> Rounded(page, length) > 0 && host == 0
                                   && old(MayProtect(address, Rounded(page, length), AsksWrite(prot))))
      ensures !old(poisoned) ==> (prot >= 8 ==> r == -22) && (prot < 8 && prot / 4 == 1 ==> r == -1)
      ensures r == 0 && length > 0 ==>
                && !poisoned && Stepped(address, Rounded(page, length), Protect(Protection(prot)))
                && BytesAre(page, regions, address, Rounded(page, length), Granted(prot))
      ensures r == 0 && length == 0 ==> Unchanged()
      ensures r != 0 ==> regions == old(regions) && (Unchanged() || poisoned)
      ensures old(poisoned) ==> Unchanged()
    {
      ProtectionGrants(prot);
      hide RegionsOk, WatchesOk, Owned, Repaged, Sound, Containing, View, Rounded, BytesAre, AsksRead, AsksWrite;
      if poisoned { return -5; }
      var perm := Protection(prot);
      if perm < 0 { return perm; }
      var size := Rounded(page, length);
      if !Ranged(page, address, size) || (size == 0 && length > 0) { return -22; }
      if length == 0 {
        NothingRounded(page);
        return 0;
      }
      var k := Containing(regions, address, size);
      if k == |regions| { return -12; }
      var region := regions[k];
      if !region.protectable { return -1; }
      InsideRegion(page, regions, k, address, size);
      var first, count := (address - region.base) / page, size / page;
      SoundOperations(perm);
      assert Protect(perm)(EMPTY) == EMPTY;
      ReplaceSteps(page, regions, k, address, size, Protect(perm));
      PageRange(page, regions, k, address, size, Permitting(AsksWrite(prot)));
      var fine := Protectable(region.pages, first, count, perm);
      if !fine.0 { return if fine.1 then -13 else -12; }
      ProtectedView(page, regions, k, address, size, perm, prot);
      r := Replace(k, first, count, Protect(perm), host, false);
    }

    // ---- new regions ----

    /** One more region of `size` bytes fits the limits. */
    predicate Room(size: nat)
      reads this
    {
      |regions| < regionLimit && reserved + size <= limit
    }

    /** Takes fresh storage into the region list. */
    method Adopt(base: nat, size: nat, p: Page, guardBytes: nat, watched: bool)
      requires Valid() && Room(size) && base > 0 && size > 0 && size % page == 0 && base % page == 0
               && base + size < U64_LIMIT
      requires IsFresh(regions, base, size)
      requires PageOk(p) && (watched ==> p.file) && (guardBytes > 0 ==>
                 guardBytes % page == 0 && guardBytes < size && p == EMPTY)
      modifies this`regions, this`reserved, this`watches
      ensures Valid() && reserved == old(reserved) + size
      ensures Stepped(base, size, (q: Page) => p)
      ensures watched ==> watches == old(watches) + [LIVE + INTACT]
      ensures |regions| == |old(regions)| + 1 && Tail(regions, base, size, watched, |old(watches)|)
      ensures regions[|regions| - 1].guardBytes == guardBytes
    {
      hide WatchesOk, View, RegionsOk, Owned, Uniform, Mapped;
      var file := if p.file then Some(FileMapping(if watched then Some(|watches|) else None)) else None;
      var region := Region(base, size, if p.isMapped then size / page else 0, guardBytes, true, true,
          Uniform(page, size, p), file);
      NewRegion(page, regions, region, p);
      OwnedAppend(regions, region);
      WatchesAppend(regions, watches, region, watched);
      regions := regions + [region];
      reserved := reserved + size;
      if watched { watches := watches + [LIVE + INTACT]; }
    }

    predicate Usable(reply: Reply, size: nat)
      requires page > 0
    {
      reply.Given? && reply.base != 0 && reply.base <= I64_MAX && Ranged(page, reply.base, size)
    }

    /** There is room, the host gave storage, and prepared it where that was needed. */
    predicate MayAdd(size: nat, p: Page, reply: Reply)
      requires page > 0
      reads this
    {
      Room(size) && Usable(reply, size) && (p.prot != 0 || p.file ==> reply.prepare == 0)
    }

    /** Anonymous or file pages in fresh storage; a failed rollback keeps the storage and poisons the space. */
    method MapNew(size: nat, p: Page, watched: bool, reply: Reply) returns (r: int)
      requires Valid() && size > 0 && size % page == 0 && p.isMapped && PageOk(p) && (watched ==> p.file)
      requires Promised(page, regions, reply, size)
      modifies this
      ensures Valid() && r != 0
      ensures r > 0 <==> old(!poisoned && MayAdd(size, p, reply))
      ensures r > 0 ==>
                r == reply.base && !poisoned && Stepped(r, size, (q: Page) => p) && reserved == old(reserved) + size
      ensures r > 0 && watched ==>
                watches == old(watches) + [LIVE + INTACT] && Tail(regions, r, size, true, |old(watches)|)
      ensures r < 0 ==> Unchanged() || (poisoned && reply.Given? && reply.prepare != 0 && reply.release != 0)
      ensures old(poisoned) ==> Unchanged()
    {
      hide WatchesOk, RegionsOk, View, Owned, Steps, IsFresh;
      if poisoned { return -5; }
      if |regions| == regionLimit || size > limit - reserved { return -12; }
      if reply.Denied? { return reply.error; }
      if !Usable(reply, size) { return -12; }
      if (p.prot != 0 || p.file) && reply.prepare != 0 {
        if reply.release != 0 {
          poisoned := true;
          Adopt(reply.base, size, p, 0, watched);
        }
        return reply.prepare;
      }
      Adopt(reply.base, size, p, 0, watched);
      r := reply.base;
    }

    /** The region of a window, or the number of regions. */
    function WindowAt(base: nat, i: nat := 0): (k: nat)
      requires i <= |regions|
      reads this
      ensures i <= k <= |regions| && (k < |regions| ==> regions[k].base == base && regions[k].guardBytes > 0)
      decreases |regions| - i
    {
      if i == |regions| || (regions[i].base == base && regions[i].guardBytes > 0) then i else WindowAt(base, i + 1)
    }

    /** When an anonymous mapping succeeds: over owned storage, in a hole of the window, or in new storage. */
    ghost predicate MayMap(window: Option<nat>, address: nat, size: nat, prot: nat, fixed: bool, reset: int,
        reply: Reply)
      requires page > 0
      reads this
    {
      if window.Some? then
        var k := WindowAt(window.value);
        && k < |regions| && reset == 0
        && if fixed then MayFix(Some(k), address, size) else HasHole(page, regions[k], PagesIn(page, size))
      else if fixed then MayFix(None, address, size) && reset == 0
      else Room(size) && Usable(reply, size) && (prot != 0 ==> reply.prepare == 0)
    }

    /** mmap of anonymous memory. */
    method Mmap(window: Option<nat>, address: nat, length: nat, prot: nat, flags: nat, offset: nat, reset: int,
        reply: Reply) returns (r: int)
      requires Valid() && Promised(page, regions, reply, Rounded(page, length)) && reset <= 0
      modifies this
      ensures Valid() && r != 0
      ensures r > 0 <==>
                && !old(poisoned) && Rounded(page, length) > 0 && offset % page == 0 && prot < 8 && prot / 4 == 0
                && flags in {0x22, 0x32, 0x4022, 0x4032}
                && old(MayMap(window, address, Rounded(page, length), prot, flags in {0x32, 0x4032}, reset, reply))
      ensures r > 0 ==>
                && !poisoned && Stepped(r, Rounded(page, length), Fill(Protection(prot)))
                && BytesAre(page, regions, r, Rounded(page, length), Anonymous(prot))
      ensures r > 0 && flags in {0x32, 0x4032} ==> r == address
      ensures r > 0 && flags !in {0x32, 0x4032} && window.None? ==> r == reply.base
      ensures r > 0 && flags !in {0x32, 0x4032} && window.Some? ==>
                PlacedIn(page, old(regions)[old(WindowAt(window.value))], address, PagesIn(page, Rounded(page, length)),
                    r)
      ensures r < 0 ==> Unchanged() || poisoned
      ensures old(poisoned) ==> Unchanged()
    {
      ProtectionGrants(prot);
      hide WatchesOk, RegionsOk, View, Owned, Rounded, IsFresh, Containing, MayFix, Steps, WindowAt, PlacedIn, HasHole,
          Protection, Promised, Usable, Room, BytesAre, AsksRead, AsksWrite;
      if poisoned { return -5; }
      var k := if window.Some? then WindowAt(window.value) else |regions|;
      if window.Some? && k == |regions| { return -95; }
      var size := Rounded(page, length);
      if size == 0 || offset % page != 0 { return -22; }
      var perm := Protection(prot);
      if perm < 0 { return perm; }
      if flags !in {0x22, 0x32, 0x4022, 0x4032} { return -95; }
      ghost var before := regions;
      FillGrants(prot);
      if flags in {0x32, 0x4032} {
        var error := MapFixed(if window.Some? then Some(k) else None, address, size, perm, reset);
        r := if error == 0 then address else error;
      } else if window.Some? {
        r := MapHole(k, address, size, perm, reset);
      } else {
        r := MapNew(size, Page(true, perm, false, false), false, reply);
      }
      if r > 0 { StepGrants(page, before, regions, r, size, Fill(perm), Anonymous(prot)); }
    }

    /** A mapping in a window goes to a free hint, else to the lowest hole. */
    method MapHole(k: nat, hint: nat, size: nat, perm: nat, reset: int) returns (r: int)
      requires Valid() && !poisoned && k < |regions| && regions[k].guardBytes > 0 && size > 0 && size % page == 0
      requires perm in {0, 1, 3} && reset <= 0
      modifies this
      ensures Valid() && r != 0
      ensures r > 0 <==> reset == 0 && HasHole(page, old(regions)[k], PagesIn(page, size))
      ensures r > 0 ==> !poisoned && Stepped(r, size, Fill(perm))
      ensures r > 0 ==> PlacedIn(page, old(regions)[k], hint, PagesIn(page, size), r)
      ensures r < 0 ==> Unchanged() || poisoned
    {
      hide WatchesOk, RegionsOk, View, Owned, Containing, Steps, BestHole, HasHole, PlacedIn, Ranged;
      SomePages(page, size);
      var first := FindHole(page, regions[k], hint, PagesIn(page, size));
      if first == |regions[k].pages| { return -12; }
      HoleFits(page, regions, k, first, size);
      var where := regions[k].base + first * page;
      PlacedAt(page, regions[k], hint, PagesIn(page, size), first);
      var error := MapFixed(Some(k), where, size, perm, reset);
      r := if error == 0 then where else error;
    }

    /** mmap of a file; pages of a file that may only be read never become writable. */
    method MapFile(window: Option<nat>, length: nat, prot: nat, flags: nat, offset: nat, maximum: nat, acquire: int,
        acquired: bool,
                   watched: bool, reply: Reply)
      returns (r: int)
      requires Valid() && Promised(page, regions, reply, Rounded(page, length)) && acquire <= 0
      modifies this
      ensures Valid() && r != 0
      ensures r > 0 <==>
                && maximum in {1, 3} && !old(poisoned) && window.None? && Rounded(page, length) > 0
                && offset % page == 0 && Rounded(page, length) + offset <= I64_MAX && prot < 8 && prot / 4 == 0
                && flags in {1, 2, 0x4001, 0x4002} && !(AsksWrite(prot) && maximum == 1) && acquire == 0 && acquired
                && old(Room(Rounded(page, length))) && Usable(reply, Rounded(page, length)) && reply.prepare == 0
      ensures r > 0 ==>
                && !poisoned && r == reply.base && reserved == old(reserved) + Rounded(page, length)
                && Stepped(r, Rounded(page, length), (q: Page) => Page(true, Protection(prot), true, maximum == 1))
                && BytesAre(page, regions, r, Rounded(page, length), Granted(prot))
      ensures r > 0 && watched ==>
                watches == old(watches) + [LIVE + INTACT]
                && Tail(regions, r, Rounded(page, length), true, |old(watches)|)
      ensures r < 0 ==> Unchanged() || poisoned
      ensures old(poisoned) ==> Unchanged()
    {
      ProtectionGrants(prot);
      hide WatchesOk, RegionsOk, View, Owned, Rounded, IsFresh, BytesAre, AsksRead, AsksWrite, Steps, Usable;
      if maximum != 1 && maximum != 3 { return -22; }
      if poisoned { return -5; }
      if window.Some? { return -95; }
      var size := Rounded(page, length);
      if size == 0 || offset % page != 0 { return -22; }
      if size > I64_MAX || offset > I64_MAX - size { return -75; }
      var perm := Protection(prot);
      if perm < 0 { return perm; }
      var sharing := flags % 16;
      if sharing != 1 && sharing != 2 { return -22; }
      if flags !in {1, 2, 0x4001, 0x4002} { return -95; }
      if perm == 3 && maximum == 1 { return -13; }
      if |regions| == regionLimit || size > limit - reserved { return -12; }
      if acquire != 0 { return acquire; }
      if !acquired { return -5; }
      ghost var before, p := regions, Page(true, perm, true, maximum == 1);
      r := MapNew(size, Page(true, perm, true, maximum == 1), watched, reply);
      if r > 0 { StepGrants(page, before, regions, r, size, (q: Page) => p, Granted(prot)); }
    }

    /** A window reserved for good: nothing in it is mapped yet, and its guard never will be. */
    method ReserveWindow(length: nat, guardBytes: nat, reply: Reply) returns (r: int)
      requires Valid() && Promised(page, regions, reply, length)
      modifies this
      ensures Valid()
      ensures r == 0 <==>
                && length <= U32_LIMIT && length % page == 0 && guardBytes % page == 0 && 0 < guardBytes < length
                && !old(poisoned) && old(Room(length)) && reply.Given? && 0 < reply.base
                && reply.base + length <= I64_MAX
      ensures r == 0 ==> !poisoned && Stepped(reply.base, length, Clear()) && reserved == old(reserved) + length
      ensures r == 0 ==>
                |regions| == |old(regions)| + 1 && Tail(regions, reply.base, length, false, 0)
                && regions[|regions| - 1].guardBytes == guardBytes
      ensures r != 0 ==> Unchanged() || poisoned
      ensures old(poisoned) ==> Unchanged()
    {
      hide WatchesOk, RegionsOk, View, Owned, IsFresh;
      if length > U32_LIMIT || length % page != 0 || guardBytes == 0 || guardBytes % page != 0 || guardBytes >= length {
        return -22;
      }
      if poisoned { return -5; }
      if |regions| == regionLimit || length > limit - reserved { return -12; }
      if reply.Denied? { return reply.error; }
      if reply.base == 0 || reply.base > I64_MAX || length > I64_MAX - reply.base || !Ranged(page, reply.base, length) {
        if reply.base != 0 && reply.release != 0 {
          poisoned := true;
          Adopt(reply.base, length, EMPTY, guardBytes, false);
        }
        return -12;
      }
      Adopt(reply.base, length, EMPTY, guardBytes, false);
      r := 0;
    }

    /** Host memory the guest may use but the manager does not own. */
    method RegisterData(window: Option<nat>, base: nat, length: nat, prot: nat) returns (r: int)
      requires Valid()
      modifies this
      ensures Valid() && reserved == old(reserved) && poisoned == old(poisoned)
      ensures r == 0 <==>
                && base > 0 && !poisoned && window.None? && prot < 8 && prot / 4 == 0 && length > 0
                && length % page == 0 && Ranged(page, base, length) && IsFresh(old(regions), base, length)
                && |old(regions)| < regionLimit
      ensures r == 0 ==>
                && Stepped(base, length, (q: Page) => Page(true, Protection(prot), false, false))
                && BytesAre(page, regions, base, length, Granted(prot))
      ensures r != 0 ==> Unchanged()
    {
      ProtectionGrants(prot);
      hide WatchesOk, View, RegionsOk, Owned, Uniform, Mapped, Disjoint, BytesAre, AsksRead, AsksWrite;
      ghost var before := regions;
      if base == 0 { return -22; }
      if poisoned { return -5; }
      if window.Some? { return -95; }
      var perm := Protection(prot);
      if perm < 0 { return perm; }
      if length == 0 || length % page != 0 || !Ranged(page, base, length) { return -22; }
      for k := 0 to |regions|
        invariant forall j {:trigger regions[j]} :: 0 <= j < k ==>
                    !Overlaps(regions[j].base, regions[j].length, base, length)
      {
        if Overlaps(regions[k].base, regions[k].length, base, length) { return -17; }
      }
      if |regions| == regionLimit { return -12; }
      var p := Page(true, perm, false, false);
      var region := Region(base, length, length / page, 0, false, true, Uniform(page, length, p), None);
      NewRegion(page, regions, region, p);
      OwnedAppend(regions, region);
      WatchesAppend(regions, watches, region, false);
      regions := regions + [region];
      StepGrants(page, before, regions, base, length, (q: Page) => p, Granted(prot));
      r := 0;
    }

    /** The range is mapped in one owned region and the host agrees to every run it is asked to discard. */
    ghost predicate MayAdvise(address: nat, size: nat, discard: bool, host: (nat, nat) -> int)
      requires page > 0
      reads this
    {
      var k := Containing(regions, address, size);
      && k < |regions| && regions[k].owned && BytesAre(page, regions, address, size, Permitting(false))
      && (discard ==> SpansAgree(page, regions[k], address, size, host))
    }

    /** madvise: the mapping is checked; discarding asks the host for each run of equal pages and changes no page. */
    method Madvise(address: nat, length: nat, advice: int, host: (nat, nat) -> int) returns (r: int)
      requires Valid()
      modifies this
      ensures Valid() && regions == old(regions) && reserved == old(reserved) && watches == old(watches)
      ensures r == 0 <==> && !old(poisoned) && advice in {0, 1, 4} && Ranged(page, address, Rounded(page, length))
                          && (length > 0 ==>
                               Rounded(page, length) > 0
                               && MayAdvise(address, Rounded(page, length), advice == 4, host))
      ensures r == 0 ==> !poisoned
      ensures r != 0 ==> Unchanged() || poisoned
      ensures old(poisoned) ==> Unchanged()
    {
      hide RegionsOk, WatchesOk, Owned, View, Rounded, Containing, BytesAre, SpansAgree;
      if poisoned { return -5; }
      if advice != 0 && advice != 1 && advice != 4 { return -95; }
      var size := Rounded(page, length);
      if !Ranged(page, address, size) || (size == 0 && length > 0) { return -22; }
      if length == 0 {
        NothingRounded(page);
        return 0;
      }
      var k := Containing(regions, address, size);
      if k == |regions| { return -12; }
      if !regions[k].owned { return -1; }
      InsideRegion(page, regions, k, address, size);
      PageRange(page, regions, k, address, size, Permitting(false));
      var first, count := (address - regions[k].base) / page, size / page;
      var fine := Protectable(regions[k].pages, first, count, 0);
      if !fine.1 { return -12; }
      if advice != 4 { return 0; }
      r := AskSpans(page, regions[k], address, size, host);
      if r != 0 { poisoned := true; }
    }

    // ---- unmapping ----

    method AllOwned(address: nat, size: nat) returns (ours: bool)
      ensures ours <==> OwnedBelow(regions, |regions|, address, size)
    {
      for j := 0 to |regions|
        invariant OwnedBelow(regions, j, address, size)
      {
        if !regions[j].owned && Overlaps(address, size, regions[j].base, regions[j].length) { return false; }
      }
      ours := true;
    }

    /** munmap: nothing is mapped in the range afterwards, and everything else is as it was. */
    method Munmap(address: nat, length: nat, host: (nat, nat) -> int) returns (r: int)
      requires Valid()
      modifies this
      ensures Valid()
      ensures r == 0 <==> && !old(poisoned) && Rounded(page, length) > 0 && Ranged(page, address, Rounded(page, length))
                          && OwnedBelow(old(regions), |old(regions)|, address, Rounded(page, length))
                          && HostAgrees(page, old(regions), |old(regions)|, address, Rounded(page, length), host)
      ensures r == 0 ==> !poisoned && Stepped(address, Rounded(page, length), Clear())
      ensures r != 0 ==> poisoned || Unchanged()
      ensures old(poisoned) ==> Unchanged()
    {
      hide RegionsOk, WatchesOk, Owned, Steps, View, Rounded, Agrees, ClearedTo, HostAgrees, OwnedBelow, Overlaps;
      if poisoned { return -5; }
      var size := Rounded(page, length);
      if size == 0 || !Ranged(page, address, size) { return -22; }
      assert address % page == 0;
      hide Ranged;
      var ours := AllOwned(address, size);
      if !ours { return -1; }
      ghost var before, seen := regions, 0;
      NothingYet(page, before, address, size);
      NothingAsked(page, before, address, size, host);
      var i := 0;
      while i < |regions|
        invariant Valid() && !poisoned && i <= |regions| && OwnedBelow(regions, |regions|, address, size)
        invariant seen <= |before| && regions[i..] == before[seen..]
        invariant HostAgrees(page, before, seen, address, size, host)
        invariant ClearedTo(page, before, regions, i, address, size)
        decreases |regions| - i
      {
        assert regions[i] == regions[i..][0] == before[seen] && regions[i..][1..] == regions[i + 1..];
        assert before[seen..][1..] == before[seen + 1..];
        HostAgreesAt(page, before, seen, address, size, host);
        if !Overlaps(address, size, regions[i].base, regions[i].length) {
          SkipRegion(page, before, regions, i, address, size);
          i := i + 1;
        } else {
          var error, erased := UnmapRegion(i, address, size, before, host);
          if error != 0 { return error; }
          if !erased { i := i + 1; }
        }
        seen := seen + 1;
      }
      AllCleared(page, before, regions, address, size);
      r := 0;
    }

    /** The part of one region that lies in the range; a region with nothing left is given back. */
    method UnmapRegion(i: nat, address: nat, size: nat, ghost before: seq<Region>, host: (nat, nat) -> int)
          returns (r: int, erased: bool)
      requires Valid() && !poisoned && i < |regions| && address % page == 0 && size % page == 0
      requires OwnedBelow(regions, |regions|, address, size) && ClearedTo(page, before, regions, i, address, size)
      requires Overlaps(address, size, regions[i].base, regions[i].length)
      modifies this
      ensures Valid() && (r != 0 <==> poisoned)
      ensures r == 0 <==> Agrees(page, old(regions)[i], address, size, host)
      ensures r == 0 ==> OwnedBelow(regions, |regions|, address, size)
      ensures r == 0 ==> var next := if erased then i else i + 1;
                         && next <= |regions| && regions[next..] == old(regions)[i + 1..]
                         && ClearedTo(page, before, regions, next, address, size)
    {
      hide RegionsOk, WatchesOk, Owned, Steps, View, ClearedTo, OwnedBelow, MappedIn, AnyFile, Agrees, Inside, RemoveAt,
          Begin, End, Reaches, Overlaps;
      ghost var was := regions;
      var region := regions[i];
      var begin, end := Begin(region, address), End(region, address, size);
      PartFits(page, regions, i, address, size, host);
      RangePart(region, address, size);
      var first, count := PagesIn(page, begin - region.base), PagesIn(page, end - begin);
      var removed := CountIn(region.pages, first, count);
      if removed == region.live && region.guardBytes == 0 {
        EraseSteps(page, regions, i, begin, end - begin);
        OwnedAt(regions, i, address, size);
        r := Erase(i, AnyFile(region.pages, first, count), host(region.base, region.length));
        if r != 0 { return r, false; }
        ErasedClears(page, before, was, i, begin, end - begin, address, size);
        RemoveTail(was, i);
        erased := true;
      } else {
        erased := false;
        r := ClearPart(i, begin, end - begin, removed, host);
        if r != 0 { return; }
        RegionClears(page, before, was, regions, i, begin, end - begin, address, size);
      }
    }

    /** Clears the range inside one region that stays; the host is asked only if something is mapped there. */
    method ClearPart(i: nat, begin: nat, size: nat, removed: nat, host: (nat, nat) -> int) returns (r: int)
      requires Valid() && !poisoned && i < |regions| && Inside(page, regions[i], begin, size) && regions[i].owned
               && regions[i].base <= begin
      requires PagesIn(page, begin - regions[i].base) + PagesIn(page, size) <= |regions[i].pages|
      requires removed == MappedIn(regions[i].pages, PagesIn(page, begin - regions[i].base), PagesIn(page, size))
      modifies this
      ensures Valid() && (r != 0 <==> poisoned) && (r == 0 <==> removed == 0 || host(begin, size) == 0)
      ensures r == 0 ==>
                Stepped(begin, size, Clear()) && |regions| == |old(regions)| && SamePlace(regions[i], old(regions)[i])
      ensures r == 0 ==> regions == old(regions)[i := regions[i]]
    {
      hide RegionsOk, WatchesOk, Owned, Steps, View, Repaged, MappedIn, Sound, AnyFile, Changed, Inside, SamePlace;
      var region := regions[i];
      var first, count := PagesIn(page, begin - region.base), PagesIn(page, size);
      if removed == 0 {
        NothingMapped(page, regions, i, begin, size);
        SameRegion(region);
        return 0;
      }
      SoundOperations(0);
      ReplaceSteps(page, regions, i, begin, size, Clear());
      RepagedShape(region, first, count, Clear());
      r := Replace(i, first, count, Clear(), host(begin, size), true);
    }

    /** Gives a region back to the host. */
    method Erase(i: nat, lost: bool, host: int) returns (r: int)
      requires Valid() && !poisoned && i < |regions| && regions[i].owned && RegionsOk(page, RemoveAt(regions, i))
      modifies this
      ensures Valid() && r == host && (r != 0 <==> poisoned)
      ensures r == 0 ==> regions == RemoveAt(old(regions), i)
    {
      hide RegionsOk, WatchesOk, Owned;
      var region := regions[i];
      WatchesUpdate(regions, watches, i, region, true);
      assert regions[i := region] == regions;
      if lost { watches := Invalidated(watches, region); }
      if host != 0 {
        poisoned := true;
        return host;
      }
      OwnedRemove(regions, i);
      WatchesRemove(regions, watches, i);
      reserved := reserved - region.length;
      watches := Dropped(watches, region);
      regions := RemoveAt(regions, i);
      r := 0;
    }

    /** The shared tail of a mutation: watches first if pages are `replaced`, then the host, then the pages. */
    method Replace(k: nat, first: nat, count: nat, f: Page -> Page, host: int, replaced: bool) returns (r: int)
      requires Valid() && !poisoned && k < |regions| && first + count <= |regions[k].pages|
      requires RegionsOk(page, regions[k := Repaged(regions[k], first, count, f)])
      requires Owned(regions[k := Repaged(regions[k], first, count, f)]) == Owned(regions)
      requires !replaced ==> forall p {:trigger f(p)} :: f(p).file == p.file
      modifies this
      ensures Valid() && reserved == old(reserved) && (!replaced ==> watches == old(watches))
      ensures r == host && (r == 0 ==>
                !poisoned && regions == old(regions)[k := Repaged(old(regions)[k], first, count, f)])
      ensures r != 0 ==> poisoned && regions == old(regions)
    {
      hide RegionsOk, WatchesOk, Owned, Repaged, AnyFile;
      var region := regions[k];
      var lost := replaced && AnyFile(region.pages, first, count);
      WatchesUpdate(regions, watches, k, region, lost);
      assert regions[k := region] == regions;
      ghost var before := watches;
      if lost { watches := Invalidated(watches, region); }
      assert WatchesOk(regions, watches);
      if host != 0 {
        poisoned := true;
        return host;
      }
      var pages, live := Rewrite(region.pages, first, count, f);
      var after := Trimmed(region.(pages := pages, live := live));
      RepagedIs(region, first, count, f, after);
      KeptFiles(page, regions, k, first, count, f, replaced);
      WatchesUpdate(regions, before, k, after, lost);
      if region.file.Some? && after.file.None? { watches := Dropped(watches, region); }
      regions := regions[k := after];
      r := 0;
    }
  }

  /** What the host promises about storage it gives: whole pages of the address space, used by nothing else. */
  ghost predicate Promised(page: nat, regions: seq<Region>, reply: Reply, size: nat)
    requires page > 0
  {
    match reply
    case Denied(error) => error < 0
    case Given(base, prepare, release) =>
      prepare <= 0 && base % page == 0 && base + size < U64_LIMIT && IsFresh(regions, base, size)
  }

  function PagesIn(page: nat, size: nat): nat
    requires page > 0
  {
    size / page
  }

  lemma RemoveTail<T>(s: seq<T>, i: nat)
    requires i < |s|
    ensures i <= |RemoveAt(s, i)| && RemoveAt(s, i)[i..] == s[i + 1..]
  {
  }

  lemma NothingRounded(page: nat)
    requires page > 0
    ensures Rounded(page, 0) == 0
  {
  }

  lemma SomePages(page: nat, size: nat)
    requires page > 0 && size > 0 && size % page == 0
    ensures size / page > 0
  {
    WholePages(page, size);
  }

  lemma RepagedIs(r: Region, first: nat, count: nat, f: Page -> Page, after: Region)
    requires first + count <= |r.pages|
    requires var pages := Changed(r.pages, first, count, f); after == Trimmed(r.(pages := pages, live := Mapped(pages)))
    ensures after == Repaged(r, first, count, f) && |after.pages| == |r.pages|
            && (after.file == r.file || after.file == None)
  {
    hide Changed, AnyFile, Mapped;
  }

  /** The pages of a range, seen page by page and byte by byte. */
  lemma PageRange(page: nat, regions: seq<Region>, k: nat, address: nat, size: nat, ok: Page -> bool)
    requires page > 0 && RegionsOk(page, regions) && k < |regions| && size > 0
    requires Inside(page, regions[k], address, size) && (regions[k].owned || regions[k].protectable)
    ensures var first, count := (address - regions[k].base) / page, size / page;
            && first + count <= |regions[k].pages|
            && (BytesAre(page, regions, address, size, ok)
                <==> forall n {:trigger regions[k].pages[n]} :: first <= n < first + count ==> ok(regions[k].pages[n]))
  {
    var r := regions[k];
    var first, count := (address - r.base) / page, size / page;
    assert RegionOk(page, r);
    assert |r.pages| * page == r.length;
    hide RegionsOk, RegionOk, BytesAre;
    RangeFits(page, r, address, size);
    LastPage(page, address - r.base, size);
    BytesMean(page, regions, k, address, size, ok);
  }

  lemma LastPage(page: nat, offset: nat, size: nat)
    requires page > 0 && offset % page == 0 && size % page == 0 && size > 0
    ensures size / page > 0 && (offset + size - 1) / page == offset / page + size / page - 1
  {
    var first, count := offset / page, size / page;
    WholePages(page, offset);
    WholePages(page, size);
    assert count > 0;
    assert (first + count) * page == first * page + count * page;
    assert (first + count - 1) * page == (first + count) * page - page;
    PageIndex(page, offset + size - 1, first + count - 1, 1);
  }

  /** The only region that can hold a range that is not empty. */
  lemma ContainingIs(regions: seq<Region>, k: nat, address: nat, size: nat)
    requires Disjoint(regions) && k < |regions| && Holds(regions[k], address, size) && size > 0
    ensures Containing(regions, address, size) == k
  {
    var j := Containing(regions, address, size);
    assert j <= k;
    assert j < k ==>
             Holds(regions[j], address, size) && !Overlaps(regions[j].base, regions[j].length, regions[k].base,
             regions[k].length);
  }

  lemma HoleInside(page: nat, length: nat, pages: nat, guardBytes: nat, first: nat, size: nat)
    requires page > 0 && guardBytes % page == 0 && size % page == 0 && pages * page == length
    requires first + size / page <= pages && guardBytes / page <= first
    ensures (first * page) % page == 0 && guardBytes <= first * page && first * page + size <= length
  {
    WholePages(page, guardBytes);
    WholePages(page, size);
    Multiple(page, first);
    DivideMeans(first * page, page, guardBytes / page);
    assert (first + size / page) * page == first * page + size / page * page;
    Multiple(page, pages);
    DivideMeans(pages * page, page, first + size / page);
  }

  /** A hole of a window is a place for a fixed mapping. */
  lemma HoleFits(page: nat, regions: seq<Region>, k: nat, first: nat, size: nat)
    requires page > 0 && RegionsOk(page, regions) && k < |regions| && regions[k].guardBytes > 0 && size > 0
             && size % page == 0
    requires first + PagesIn(page, size) <= |regions[k].pages| && PagesIn(page, regions[k].guardBytes) <= first
    ensures var where := regions[k].base + first * page;
            && where > 0 && Ranged(page, where, size) && Containing(regions, where, size) == k
            && regions[k].owned && regions[k].base + regions[k].guardBytes <= where
  {
    var r := regions[k];
    assert RegionOk(page, r) && Disjoint(regions);
    assert r.base % page == 0 && r.guardBytes % page == 0 && |r.pages| * page == r.length
           && r.base + r.length < U64_LIMIT;
    HoleInside(page, r.length, |r.pages|, r.guardBytes, first, size);
    hide RegionOk, RegionsOk, Disjoint, Containing, PagesIn;
    AlignedSum(page, r.base, first * page);
    ContainingIs(regions, k, r.base + first * page, size);
  }

  // ---- discarding run by run ----

  /** A maximal run of equal pages among those from `first` to `last`. */
  predicate IsSpan(pages: seq<Page>, first: nat, last: nat, n: nat, end: nat) {
    && first <= n < end <= last <= |pages| && (n == first || pages[n - 1] != pages[n])
    && (forall i :: n <= i < end ==> pages[i] == pages[n]) && (end == last || pages[end] != pages[n])
  }

  /** The host's answer for the pages from `n` to `end`. */
  function Discarded(page: nat, r: Region, n: nat, end: nat, host: (nat, nat) -> int): int
    requires n <= end
  {
    host(r.base + n * page, (end - n) * page)
  }

  ghost predicate AgreesFrom(page: nat, r: Region, first: nat, last: nat, host: (nat, nat) -> int) {
    forall n: nat, end: nat {:trigger IsSpan(r.pages, first, last, n, end)} ::
      IsSpan(r.pages, first, last, n, end) ==> Discarded(page, r, n, end, host) == 0
  }

  /** The host succeeds on every run of equal pages of the range. */
  ghost predicate SpansAgree(page: nat, r: Region, address: nat, size: nat, host: (nat, nat) -> int)
    requires page > 0
  {
    r.base <= address ==> AgreesFrom(page, r, (address - r.base) / page, (address - r.base) / page + size / page, host)
  }

  method AskSpans(page: nat, r: Region, address: nat, size: nat, host: (nat, nat) -> int) returns (error: int)
    requires page > 0 && r.base <= address && (address - r.base) / page + size / page <= |r.pages|
    ensures error == 0 <==> SpansAgree(page, r, address, size, host)
  {
    hide Discarded;
    var first, last := (address - r.base) / page, (address - r.base) / page + size / page;
    var n := first;
    while n < last
      invariant first <= n <= last && (first < n < last ==> r.pages[n - 1] != r.pages[n])
      invariant forall a: nat, b: nat {:trigger IsSpan(r.pages, first, last, a, b)} ::
                  IsSpan(r.pages, first, last, a, b) && a < n ==> Discarded(page, r, a, b, host) == 0
      decreases last - n
    {
      var end := n + 1;
      while end < last && r.pages[end] == r.pages[n]
        invariant n < end <= last && forall i :: n <= i < end ==> r.pages[i] == r.pages[n]
      {
        end := end + 1;
      }
      assert IsSpan(r.pages, first, last, n, end);
      error := Discarded(page, r, n, end, host);
      if error != 0 { return; }
      OneSpan(r.pages, first, last, n, end);
      n := end;
    }
    error := 0;
  }

  /** No other run starts inside a run. */
  lemma OneSpan(pages: seq<Page>, first: nat, last: nat, n: nat, end: nat)
    requires IsSpan(pages, first, last, n, end)
    ensures forall a: nat, b: nat {:trigger IsSpan(pages, first, last, a, b)} ::
              IsSpan(pages, first, last, a, b) && n <= a < end ==> a == n && b == end
  {
    forall a: nat, b: nat | IsSpan(pages, first, last, a, b) && n <= a < end
      ensures a == n && b == end
    {
      SameSpan(pages, first, last, n, end, a, b);
    }
  }

  lemma SameSpan(pages: seq<Page>, first: nat, last: nat, n: nat, end: nat, a: nat, b: nat)
    requires IsSpan(pages, first, last, n, end) && IsSpan(pages, first, last, a, b) && n <= a < end
    ensures a == n && b == end
  {
  }

  // ---- what munmap asks of the host ----

  /** The part of a region that lies in a range which overlaps it. */
  function Begin(r: Region, address: nat): nat {
    if address >= r.base then address else r.base
  }

  function End(r: Region, address: nat, size: nat): nat {
    if address + size <= r.base + r.length then address + size else r.base + r.length
  }

  /** The host gives back a region that ends up empty, and clears the range of one that does not. */
  ghost predicate Agrees(page: nat, r: Region, address: nat, size: nat, host: (nat, nat) -> int)
    requires page > 0
  {
    var begin, end := Begin(r, address), End(r, address, size);
    begin <= end && (begin - r.base) / page + (end - begin) / page <= |r.pages| ==>
      var removed := MappedIn(r.pages, (begin - r.base) / page, (end - begin) / page);
      if removed == r.live && r.guardBytes == 0 then host(r.base, r.length) == 0
      else removed == 0 || host(begin, end - begin) == 0
  }

  lemma PartFits(page: nat, regions: seq<Region>, i: nat, address: nat, size: nat, host: (nat, nat) -> int)
    requires page > 0 && RegionsOk(page, regions) && i < |regions| && address % page == 0 && size % page == 0
    requires OwnedBelow(regions, |regions|, address, size)
             && Overlaps(address, size, regions[i].base, regions[i].length)
    ensures var r, begin, end := regions[i], Begin(regions[i], address), End(regions[i], address, size);
            && r.owned && r.base <= begin <= end && Inside(page, r, begin, end - begin)
            && (begin - r.base) / page + (end - begin) / page <= |r.pages|
            && (Agrees(page, r, address, size, host)
                <==> var removed := MappedIn(r.pages, (begin - r.base) / page, (end - begin) / page);
                     if removed == r.live && r.guardBytes == 0 then host(r.base, r.length) == 0
                     else removed == 0 || host(begin, end - begin) == 0)
  {
    OverlapInside(page, regions, i, address, size);
    assert RegionOk(page, regions[i]);
    assert |regions[i].pages| * page == regions[i].length;
    hide RegionsOk, RegionOk, OwnedBelow, MappedIn, Begin, End;
    RangeFits(page, regions[i], Begin(regions[i], address),
        End(regions[i], address, size) - Begin(regions[i], address));
  }

  /** The host agrees to what the first `n` regions need. */
  ghost predicate HostAgrees(page: nat, regions: seq<Region>, n: nat, address: nat, size: nat, host: (nat, nat) -> int)
    requires page > 0 && n <= |regions|
  {
    forall k {:trigger regions[k]} :: 0 <= k < n && Overlaps(address, size, regions[k].base, regions[k].length) ==>
      Agrees(page, regions[k], address, size, host)
  }

  lemma NothingAsked(page: nat, regions: seq<Region>, address: nat, size: nat, host: (nat, nat) -> int)
    requires page > 0
    ensures HostAgrees(page, regions, 0, address, size, host)
  {
  }

  lemma HostAgreesAt(page: nat, regions: seq<Region>, n: nat, address: nat, size: nat, host: (nat, nat) -> int)
    requires page > 0 && n < |regions|
    ensures HostAgrees(page, regions, n + 1, address, size, host)
            <==> HostAgrees(page, regions, n, address, size, host)
                 && (Overlaps(address, size, regions[n].base, regions[n].length) ==>
                      Agrees(page, regions[n], address, size, host))
    ensures HostAgrees(page, regions, |regions|, address, size, host) ==>
              HostAgrees(page, regions, n + 1, address, size, host)
  {
    hide Agrees, Overlaps;
  }

  lemma FillGrants(prot: nat)
    requires Protection(prot) >= 0
    ensures forall p {:trigger Fill(Protection(prot))(p)} :: Anonymous(prot)(Fill(Protection(prot))(p))
  {
    ProtectionGrants(prot);
    var perm := Protection(prot);
    forall p: Page ensures Anonymous(prot)(Fill(perm)(p)) {
      var made := Fill(perm)(p);
      assert made == Page(true, perm, false, false);
      assert Granted(prot)(made);
      hide AsksRead, AsksWrite;
    }
  }

  lemma BasePositive(page: nat, regions: seq<Region>, k: nat)
    requires page > 0 && RegionsOk(page, regions) && k < |regions|
    ensures regions[k].base > 0
  {
    assert RegionOk(page, regions[k]);
  }

  lemma AboveGuard(page: nat, r: Region, address: nat)
    requires page > 0 && address >= r.base + r.guardBytes
    ensures (address - r.base) / page >= r.guardBytes / page
  {
    PageBetween(page, r.guardBytes, address - r.base, address - r.base);
  }

  /** File pages stay if none is in the range, or if the operation keeps them; then the file stays too. */
  lemma KeptFiles(page: nat, regions: seq<Region>, k: nat, first: nat, count: nat, f: Page -> Page, replaced: bool)
    requires page > 0 && RegionsOk(page, regions) && k < |regions| && first + count <= |regions[k].pages|
    requires !replaced ==> forall p {:trigger f(p)} :: f(p).file == p.file
    ensures var r, after := regions[k], Repaged(regions[k], first, count, f);
            && |after.pages| == |r.pages|
            && (!replaced || !AnyFile(r.pages, first, count) ==>
                  forall i {:trigger after.pages[i]} :: 0 <= i < |r.pages| && r.pages[i].file ==> after.pages[i].file)
            && (!replaced ==> after.file == r.file)
  {
    var r, after := regions[k], Repaged(regions[k], first, count, f);
    assert RegionOk(page, r);
    if !replaced && r.file.Some? {
      var i :| 0 <= i < |r.pages| && r.pages[i].file;
      assert Changed(r.pages, first, count, f)[i].file;
    }
  }

  /** Every page is there, and none forbids the protection; says which of the two failed. */
  method Protectable(pages: seq<Page>, first: nat, count: nat, perm: nat) returns (r: (bool, bool))
    requires first + count <= |pages|
    ensures r.0 <==> forall n {:trigger pages[n]} :: first <= n < first + count ==>
              pages[n].isMapped && !(pages[n].denyWrite && perm >= 2)
    ensures r.1 <==> forall n {:trigger pages[n]} :: first <= n < first + count ==> pages[n].isMapped
  {
    for n := first to first + count
      invariant forall i {:trigger pages[i]} :: first <= i < n ==> pages[i].isMapped
    {
      if !pages[n].isMapped { return (false, false); }
    }
    if perm >= 2 {
      for n := first to first + count
        invariant forall i {:trigger pages[i]} :: first <= i < n ==> !pages[i].denyWrite
      {
        if pages[n].denyWrite { return (false, true); }
      }
    }
    r := (true, true);
  }

  lemma ProtectedView(page: nat, regions: seq<Region>, k: nat, address: nat, size: nat, perm: nat, prot: nat)
    requires (perm % 2 == 1 <==> AsksRead(prot)) && (perm / 2 % 2 == 1 <==> AsksWrite(prot))
    requires page > 0 && RegionsOk(page, regions) && k < |regions| && Inside(page, regions[k], address, size)
    requires (regions[k].owned || regions[k].protectable)
             && (address - regions[k].base) / page + size / page <= |regions[k].pages|
    requires forall n {:trigger regions[k].pages[n]} ::
               (address - regions[k].base) / page <= n < (address - regions[k].base) / page + size / page ==>
               regions[k].pages[n].isMapped && !(regions[k].pages[n].denyWrite && perm >= 2)
    ensures var after := regions[k := Repaged(regions[k], (address - regions[k].base) / page, size / page,
            Protect(perm))];
            BytesAre(page, after, address, size, Granted(prot))
  {
    var r := regions[k];
    var first, count := (address - r.base) / page, size / page;
    var after := regions[k := Repaged(r, first, count, Protect(perm))];
    assert Disjoint(regions) && RegionOk(page, r);
    assert |r.pages| * page == r.length;
    hide RegionOk, RegionsOk, Repaged, Disjoint, View;
    forall a: nat | InRange(a, address, size)
      ensures View(page, after, a).isMapped && View(page, after, a).prot == perm
    {
      ReplaceAt(page, regions, k, address, size, Protect(perm), a);
      ByteInPages(page, regions, k, address, size, a);
    }
  }

  /** A byte of the range lies in one of its pages. */
  lemma ByteInPages(page: nat, regions: seq<Region>, k: nat, address: nat, size: nat, a: nat)
    requires page > 0 && Disjoint(regions) && k < |regions| && Inside(page, regions[k], address, size)
             && Contains(regions[k], a)
    ensures var first, count := (address - regions[k].base) / page, size / page;
            && (InRange(a, address, size) <==> first <= (a - regions[k].base) / page < first + count)
            && View(page, regions, a) == PageIn(page, regions[k], a)
  {
    var r := regions[k];
    var first, count := (address - r.base) / page, size / page;
    WholePages(page, address - r.base);
    WholePages(page, size);
    assert (first + count) * page == first * page + count * page;
    PageIndex(page, a - r.base, first, count);
    hide Disjoint;
    ViewIn(page, regions, k, a);
  }

  // ---- clearing a range region by region ----

  /** Of the first `n` regions, those in the way are owned. */
  ghost predicate OwnedBelow(regions: seq<Region>, n: nat, address: nat, size: nat)
    requires n <= |regions|
  {
    forall j {:trigger regions[j]} :: 0 <= j < n && Overlaps(address, size, regions[j].base, regions[j].length) ==>
          regions[j].owned
  }

  /** The first `i` regions have nothing left in the range, and nothing outside it has changed. */
  ghost predicate ClearedTo(page: nat, before: seq<Region>, regions: seq<Region>, i: nat, address: nat, size: nat)
    requires page > 0 && i <= |regions|
  {
    && (forall a: nat {:trigger View(page, regions, a)} ::
          View(page, regions, a) == View(page, before, a)
              || (InRange(a, address, size) && View(page, regions, a) == EMPTY))
    && (forall k, a: nat {:trigger Contains(regions[k], a)} ::
         0 <= k < i && Contains(regions[k], a) && InRange(a, address, size) ==> View(page, regions, a) == EMPTY)
  }

  lemma NothingYet(page: nat, before: seq<Region>, address: nat, size: nat)
    requires page > 0
    ensures ClearedTo(page, before, before, 0, address, size)
  {
  }

  lemma SkipRegion(page: nat, before: seq<Region>, regions: seq<Region>, i: nat, address: nat, size: nat)
    requires page > 0 && i < |regions| && ClearedTo(page, before, regions, i, address, size)
             && !Overlaps(address, size, regions[i].base, regions[i].length)
    ensures ClearedTo(page, before, regions, i + 1, address, size)
  {
    hide View;
  }

  lemma AllCleared(page: nat, before: seq<Region>, regions: seq<Region>, address: nat, size: nat)
    requires page > 0 && ClearedTo(page, before, regions, |regions|, address, size)
    ensures Steps(page, before, regions, address, size, Clear())
  {
    forall a: nat ensures View(page, regions, a) == if InRange(a, address, size) then EMPTY else View(page, before, a) {
      var k := RegionOf(regions, a);
      if k < |regions| { assert Contains(regions[k], a); }
    }
  }

  lemma OwnedAt(regions: seq<Region>, i: nat, address: nat, size: nat)
    requires i < |regions| && OwnedBelow(regions, |regions|, address, size)
             && Overlaps(address, size, regions[i].base, regions[i].length)
    ensures regions[i].owned && OwnedBelow(RemoveAt(regions, i), |regions| - 1, address, size)
  {
  }

  lemma OverlapInside(page: nat, regions: seq<Region>, i: nat, address: nat, size: nat)
    requires page > 0 && RegionsOk(page, regions) && i < |regions| && address % page == 0 && size % page == 0
    requires OwnedBelow(regions, |regions|, address, size)
             && Overlaps(address, size, regions[i].base, regions[i].length)
    ensures var begin, end := Begin(regions[i], address), End(regions[i], address, size);
            regions[i].owned && regions[i].base <= begin <= end && Inside(page, regions[i], begin, end - begin)
  {
    var r := regions[i];
    var begin, end := Begin(r, address), End(r, address, size);
    assert r.owned && RegionOk(page, r);
    assert r.base % page == 0 && |r.pages| * page == r.length;
    hide RegionOk, RegionsOk, OwnedBelow;
    Multiple(page, |r.pages|);
    AlignedSum(page, address, size);
    AlignedSum(page, r.base, r.length);
    AlignedDifference(page, begin, r.base);
    AlignedDifference(page, end, begin);
  }

  predicate SamePlace(r: Region, s: Region) {
    r.base == s.base && r.length == s.length && r.owned == s.owned
  }

  lemma SameRegion(r: Region)
    ensures SamePlace(r, r)
  {
  }

  lemma RepagedShape(r: Region, first: nat, count: nat, f: Page -> Page)
    requires first + count <= |r.pages|
    ensures SamePlace(Repaged(r, first, count, f), r)
  {
  }

  /** All of the region's part of a range. */
  ghost predicate Reaches(r: Region, address: nat, size: nat, begin: nat, part: nat) {
    forall a: nat {:trigger InRange(a, begin, part)} :: Contains(r, a) && InRange(a, address, size) ==>
          InRange(a, begin, part)
  }

  lemma RangePart(r: Region, address: nat, size: nat)
    requires Overlaps(address, size, r.base, r.length)
    ensures var begin, end := Begin(r, address), End(r, address, size);
            address <= begin <= end <= address + size && Reaches(r, address, size, begin, end - begin)
  {
  }

  lemma AlignedSum(page: nat, a: nat, b: nat)
    requires page > 0 && a % page == 0 && b % page == 0
    ensures (a + b) % page == 0
  {
    WholePages(page, a);
    WholePages(page, b);
    assert a / page * page + b / page * page == (a / page + b / page) * page;
    Multiple(page, a / page + b / page);
  }

  method CountIn(pages: seq<Page>, first: nat, count: nat) returns (n: nat)
    requires first + count <= |pages|
    ensures n == MappedIn(pages, first, count)
  {
    n := 0;
    for i := 0 to count
      invariant n == MappedIn(pages, first, i)
    {
      if pages[first + i].isMapped { n := n + 1; }
    }
  }

  /** Giving back a region all of whose mapped pages are in the range clears exactly the range. */
  lemma EraseSteps(page: nat, regions: seq<Region>, i: nat, begin: nat, size: nat)
    requires page > 0 && RegionsOk(page, regions) && i < |regions| && Inside(page, regions[i], begin, size)
             && regions[i].owned
    requires (begin - regions[i].base) / page + size / page <= |regions[i].pages|
    requires MappedIn(regions[i].pages, (begin - regions[i].base) / page, size / page) == regions[i].live
    ensures RegionsOk(page, RemoveAt(regions, i)) && Steps(page, regions, RemoveAt(regions, i), begin, size, Clear())
  {
    var r := regions[i];
    var first, count := (begin - r.base) / page, size / page;
    assert RegionOk(page, r) && Disjoint(regions);
    assert r.live == Mapped(r.pages) && |r.pages| * page == r.length;
    forall n | 0 <= n < |r.pages| && !(first <= n < first + count) ensures r.pages[n] == EMPTY {
      AllInRange(r.pages, first, count, n);
      assert PageOk(r.pages[n]);
    }
    ViewRemove(page, regions, i, 0);
    hide RegionOk;
    forall k | 0 <= k < |regions| - 1
      ensures RegionOk(page, RemoveAt(regions, i)[k])
    {
      assert RegionOk(page, regions[if k < i then k else k + 1]);
    }
    hide RegionsOk, Disjoint, MappedIn, View;
    forall a: nat
      ensures View(page, RemoveAt(regions, i), a) == if InRange(a, begin, size) then EMPTY else View(page, regions, a)
    {
      EraseAt(page, regions, i, begin, size, first, count, a);
    }
  }

  lemma EraseAt(page: nat, regions: seq<Region>, i: nat, begin: nat, size: nat, first: nat, count: nat, a: nat)
    requires page > 0 && Disjoint(regions) && i < |regions| && Inside(page, regions[i], begin, size)
    requires first == (begin - regions[i].base) / page && count == size / page
    requires forall n {:trigger regions[i].pages[n]} :: 0 <= n < |regions[i].pages| && !(first <= n < first + count) ==>
               regions[i].pages[n] == EMPTY
    ensures View(page, RemoveAt(regions, i), a) == if InRange(a, begin, size) then EMPTY else View(page, regions, a)
  {
    ViewRemove(page, regions, i, a);
    if Contains(regions[i], a) { ByteInPages(page, regions, i, begin, size, a); }
  }

  /** A range that is already clear. */
  lemma NothingMapped(page: nat, regions: seq<Region>, i: nat, begin: nat, size: nat)
    requires page > 0 && RegionsOk(page, regions) && i < |regions| && Inside(page, regions[i], begin, size)
             && regions[i].owned
    requires (begin - regions[i].base) / page + size / page <= |regions[i].pages|
    requires MappedIn(regions[i].pages, (begin - regions[i].base) / page, size / page) == 0
    ensures Steps(page, regions, regions, begin, size, Clear())
  {
    PagesClear(page, regions, i, (begin - regions[i].base) / page, size / page);
    hide RegionsOk, MappedIn, View;
    forall a: nat | InRange(a, begin, size) ensures View(page, regions, a) == EMPTY {
      ByteInPages(page, regions, i, begin, size, a);
    }
  }

  lemma PagesClear(page: nat, regions: seq<Region>, i: nat, first: nat, count: nat)
    requires page > 0 && RegionsOk(page, regions) && i < |regions| && first + count <= |regions[i].pages|
    requires MappedIn(regions[i].pages, first, count) == 0
    ensures Disjoint(regions) && forall n {:trigger regions[i].pages[n]} :: first <= n < first + count ==>
              regions[i].pages[n] == EMPTY
  {
    assert RegionOk(page, regions[i]);
    forall n | first <= n < first + count ensures regions[i].pages[n] == EMPTY {
      NoneMappedIn(regions[i].pages, first, count, n);
      assert PageOk(regions[i].pages[n]);
    }
  }

  lemma {:induction false} NoneMappedIn(pages: seq<Page>, first: nat, count: nat, n: nat)
    requires first + count <= |pages| && MappedIn(pages, first, count) == 0 && first <= n < first + count
    ensures !pages[n].isMapped
  {
    if n < first + count - 1 { NoneMappedIn(pages, first, count - 1, n); }
  }

  lemma ErasedClears(page: nat, before: seq<Region>, was: seq<Region>, i: nat, begin: nat, part: nat, address: nat,
      size: nat)
    requires page > 0 && i < |was| && ClearedTo(page, before, was, i, address, size)
             && Steps(page, was, RemoveAt(was, i), begin, part, Clear())
    requires address <= begin && begin + part <= address + size
    ensures ClearedTo(page, before, RemoveAt(was, i), i, address, size)
  {
    var now := RemoveAt(was, i);
    hide View;
    forall k, a: nat | 0 <= k < i && Contains(now[k], a) && InRange(a, address, size)
      ensures View(page, now, a) == EMPTY
    {
      assert now[k] == was[k] && Contains(was[k], a);
      assert View(page, was, a) == EMPTY;
    }
    forall a: nat
      ensures View(page, now, a) == View(page, before, a) || (InRange(a, address, size) && View(page, now, a) == EMPTY)
    {
      assert View(page, was, a) == View(page, before, a) || (InRange(a, address, size) && View(page, was, a) == EMPTY);
    }
  }

  lemma RegionClears(page: nat, before: seq<Region>, was: seq<Region>, now: seq<Region>, i: nat, begin: nat, part: nat,
      address: nat, size: nat)
    requires page > 0 && i < |was| == |now| && ClearedTo(page, before, was, i, address, size)
             && Steps(page, was, now, begin, part, Clear())
    requires address <= begin && begin + part <= address + size && OwnedBelow(was, |was|, address, size)
    requires forall k {:trigger now[k]} :: 0 <= k < |was| ==> SamePlace(now[k], was[k])
    requires Reaches(was[i], address, size, begin, part)
    ensures ClearedTo(page, before, now, i + 1, address, size) && OwnedBelow(now, |now|, address, size)
  {
    hide View;
    forall k, a: nat | 0 <= k < i + 1 && Contains(now[k], a) && InRange(a, address, size)
      ensures View(page, now, a) == EMPTY
    {
      assert now[k].base == was[k].base && Contains(was[k], a);
      if k < i { assert View(page, was, a) == EMPTY; } else { assert InRange(a, begin, part); }
    }
    forall a: nat
      ensures View(page, now, a) == View(page, before, a) || (InRange(a, address, size) && View(page, now, a) == EMPTY)
    {
      assert View(page, was, a) == View(page, before, a) || (InRange(a, address, size) && View(page, was, a) == EMPTY);
    }
  }

  /** The newest region. */
  ghost predicate Tail(regions: seq<Region>, base: nat, size: nat, watched: bool, watch: nat) {
    |regions| > 0 && regions[|regions| - 1].base == base && regions[|regions| - 1].length == size
    && (watched ==> Tracks(regions[|regions| - 1], watch))
  }

  predicate FreeRun(pages: seq<Page>, first: nat, count: nat) {
    first + count <= |pages| && forall n :: first <= n < first + count ==> !pages[n].isMapped
  }

  /** The hint names free pages above the guard. */
  predicate HintFree(page: nat, r: Region, hint: nat, count: nat)
    requires page > 0
  {
    r.base + r.guardBytes <= hint && hint % page == 0 && FreeRun(r.pages, (hint - r.base) / page, count)
  }

  ghost predicate HasHole(page: nat, r: Region, count: nat)
    requires page > 0
  {
    exists at {:trigger FreeRun(r.pages, at, count)} :: r.guardBytes / page <= at && FreeRun(r.pages, at, count)
  }

  /** Where a window puts `count` pages: at the hint if that is free, else in the lowest hole above the guard. */
  ghost predicate BestHole(page: nat, r: Region, hint: nat, count: nat, first: nat)
    requires page > 0
  {
    && r.guardBytes / page <= first && FreeRun(r.pages, first, count)
    && if HintFree(page, r, hint, count) then first == (hint - r.base) / page
       else forall at {:trigger FreeRun(r.pages, at, count)} :: r.guardBytes / page <= at < first ==>
             !FreeRun(r.pages, at, count)
  }

  ghost predicate PlacedIn(page: nat, r: Region, hint: nat, count: nat, address: int)
    requires page > 0
  {
    exists first {:trigger BestHole(page, r, hint, count, first)} ::
          first >= 0 && BestHole(page, r, hint, count, first) && address == r.base + first * page
  }

  lemma PlacedAt(page: nat, r: Region, hint: nat, count: nat, first: nat)
    requires page > 0 && BestHole(page, r, hint, count, first)
    ensures PlacedIn(page, r, hint, count, r.base + first * page)
  {
    hide BestHole;
  }

  /** The best hole of a window, or the number of its pages when it has none. */
  method FindHole(page: nat, r: Region, hint: nat, count: nat) returns (first: nat)
    requires page > 0 && count > 0
    ensures first <= |r.pages| && (first < |r.pages| <==> HasHole(page, r, count))
    ensures first < |r.pages| ==> BestHole(page, r, hint, count, first) && first + count <= |r.pages|
  {
    var guardPages := r.guardBytes / page;
    if r.base + r.guardBytes <= hint && hint % page == 0 {
      var candidate := (hint - r.base) / page;
      if FreeRun(r.pages, candidate, count) {
        PageBetween(page, r.guardBytes, hint - r.base, hint - r.base);
        return candidate;
      }
    }
    first := LowestHole(r.pages, guardPages, count);
  }

  /** The lowest run of `count` free pages at or above `low`. */
  method LowestHole(pages: seq<Page>, low: nat, count: nat) returns (first: nat)
    requires count > 0
    ensures first <= |pages| && (first < |pages| ==> FreeRun(pages, first, count) && first >= low)
    ensures forall at {:trigger FreeRun(pages, at, count)} :: low <= at && at < first ==> !FreeRun(pages, at, count)
    ensures first == |pages| ==> forall at {:trigger FreeRun(pages, at, count)} :: low <= at ==>
              !FreeRun(pages, at, count)
  {
    var run, n := 0, low;
    while n < |pages|
      invariant run < count && low + run <= n
      invariant forall i :: n - run <= i < n && i < |pages| ==> !pages[i].isMapped
      invariant forall at {:trigger FreeRun(pages, at, count)} :: low <= at < n - run ==> !FreeRun(pages, at, count)
      decreases |pages| - n
    {
      if pages[n].isMapped {
        forall at | n - run <= at <= n ensures !FreeRun(pages, at, count) { assert at <= n < at + count; }
        run := 0;
      } else {
        run := run + 1;
        if run == count {
          assert FreeRun(pages, n + 1 - count, count);
          return n + 1 - count;
        }
      }
      n := n + 1;
    }
    first := |pages|;
  }

  // ---- what validity means to a program ----

  /** Guard bytes are never mapped. */
  lemma GuardNeverMapped(page: nat, regions: seq<Region>, k: nat, a: nat)
    requires page > 0 && RegionsOk(page, regions) && k < |regions| && InRange(a, regions[k].base, regions[k].guardBytes)
    ensures View(page, regions, a) == EMPTY
  {
    var r := regions[k];
    assert RegionOk(page, r) && Disjoint(regions);
    WholePages(page, r.guardBytes);
    PageIndex(page, a - r.base, 0, r.guardBytes / page);
    ViewIn(page, regions, k, a);
  }

  /** What a successful operation does to its range: mprotect, or any of the others. */
  datatype Change = Protects(address: nat, size: nat, perm: nat) | Replaces(address: nat, size: nat, to: Page)

  function Effect(c: Change): Page -> Page {
    match c
    case Protects(_, _, perm) => Protect(perm)
    case Replaces(_, _, to) => ((p: Page) => to)
  }

  ghost predicate IsHistory(page: nat, states: seq<seq<Region>>, changes: seq<Change>)
    requires page > 0
  {
    && |states| == |changes| + 1 && RegionsOk(page, states[0])
    && forall i {:trigger changes[i]} :: 0 <= i < |changes| ==>
         Steps(page, states[i], states[i + 1], changes[i].address, changes[i].size, Effect(changes[i]))
  }

  /** However it is protected, a page of a file that may only be read stays marked and never becomes writable, until
      something else takes its place. */
  lemma {:induction false} DeniedUntilReplaced(page: nat, states: seq<seq<Region>>, changes: seq<Change>, n: nat,
      a: nat)
    requires page > 0 && IsHistory(page, states, changes) && n < |states| && View(page, states[0], a).denyWrite
    requires forall i {:trigger changes[i]} :: 0 <= i < n && changes[i].Replaces? ==>
               !InRange(a, changes[i].address, changes[i].size)
    ensures View(page, states[n], a).denyWrite && !Allows(View(page, states[n], a), 2)
  {
    hide View, RegionsOk;
    if n == 0 {
      DeniedHere(page, states[0], a);
    } else {
      DeniedUntilReplaced(page, states, changes, n - 1, a);
      var c := changes[n - 1];
      assert Steps(page, states[n - 1], states[n], c.address, c.size, Effect(c));
    }
  }

  lemma DeniedHere(page: nat, regions: seq<Region>, a: nat)
    requires page > 0 && RegionsOk(page, regions) && View(page, regions, a).denyWrite
    ensures !Allows(View(page, regions, a), 2)
  {
    var k := RegionOf(regions, a);
    assert RegionOk(page, regions[k]);
    assert PageOk(PageIn(page, regions[k], a));
  }

  /** While its watch is intact every byte of a file mapping is still the file's. */
  lemma IntactKeepsFile(page: nat, regions: seq<Region>, watches: seq<nat>, k: nat, w: nat, a: nat)
    requires page > 0 && RegionsOk(page, regions) && WatchesOk(regions, watches) && k < |regions|
             && Tracks(regions[k], w)
    requires w < |watches| && watches[w] == LIVE + INTACT && Contains(regions[k], a)
    ensures View(page, regions, a).file && View(page, regions, a).isMapped
  {
    var r := regions[k];
    assert RegionOk(page, r) && Disjoint(regions);
    assert |r.pages| * page >= r.length;
    PageIndex(page, a - r.base, 0, |r.pages|);
    ViewIn(page, regions, k, a);
    assert PageOk(r.pages[(a - r.base) / page]);
  }
}
