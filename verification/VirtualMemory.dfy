/** The virtual memory manager: its region list refines a page map, keeps its accounts, and stops when it is poisoned.
    */
module VirtualMemory {
  import opened Base
  import opened VmPages

  const LIVE: nat := 1
  const INTACT: nat := 2

  /** One page's flags are consistent. */
  predicate PageOk(p: Page) {
    p.prot <= 3 && p.prot != 2 && (!p.isMapped ==> p == EMPTY) && (p.denyWrite ==> p.prot < 2)
  }

  ghost predicate RegionOk(page: nat, r: Region)
    requires page > 0
  {
    && r.base > 0 && r.length > 0 && r.base + r.length < U64_LIMIT && r.live == Mapped(r.pages)
    && (forall i {:trigger r.pages[i]} :: 0 <= i < |r.pages| ==>
         PageOk(r.pages[i]) && (r.pages[i].file ==> r.file.Some?))
    && (r.owned || r.protectable ==> r.base % page == 0 && |r.pages| * page == r.length)
    && |r.pages| * page >= r.length
    && (r.guardBytes > 0 ==> r.owned && r.guardBytes % page == 0 && r.guardBytes < r.length)
    && (forall i {:trigger r.pages[i]} :: 0 <= i < r.guardBytes / page && i < |r.pages| ==> r.pages[i] == EMPTY)
    && (r.file.Some? ==> exists i :: 0 <= i < |r.pages| && r.pages[i].file)
  }

  /** Bytes of address space the manager owns. */
  function Owned(regions: seq<Region>): nat {
    if regions == [] then 0
    else Owned(regions[..|regions| - 1]) + if regions[|regions| - 1].owned then regions[|regions| - 1].length else 0
  }

  predicate Tracks(r: Region, w: nat) {
    r.file.Some? && r.file.value.watch == Some(w)
  }

  /** An intact watch's mapping has every page still backed by the file; a dead one has no mapping. */
  ghost predicate WatchesOk(regions: seq<Region>, watches: seq<nat>) {
    && (forall k, w: nat {:trigger Tracks(regions[k], w)} :: 0 <= k < |regions| && Tracks(regions[k], w) ==>
          w < |watches| && watches[w] in {LIVE, LIVE + INTACT}
          && (watches[w] == LIVE + INTACT ==> forall i {:trigger regions[k].pages[i]} :: 0 <= i < |regions[k].pages| ==>
               regions[k].pages[i].file))
    && (forall j, k, w: nat {:trigger Tracks(regions[j], w), Tracks(regions[k], w)} ::
          0 <= j < k < |regions| ==> !(Tracks(regions[j], w) && Tracks(regions[k], w)))
    && (forall w: nat {:trigger watches[w]} :: w < |watches| && watches[w] != 0 ==>
         exists k :: 0 <= k < |regions| && Tracks(regions[k], w))
  }

  ghost predicate RegionsOk(page: nat, regions: seq<Region>)
    requires page > 0
  {
    (forall k {:trigger regions[k]} :: 0 <= k < |regions| ==> RegionOk(page, regions[k])) && Disjoint(regions)
  }

  // ---- sums ----

  lemma {:induction false} OwnedUpdate(regions: seq<Region>, k: nat, r: Region)
    requires k < |regions| && r.owned == regions[k].owned && r.length == regions[k].length
    ensures Owned(regions[k := r]) == Owned(regions)
  {
    var n := |regions| - 1;
    if k < n {
      OwnedUpdate(regions[..n], k, r);
      assert regions[k := r][..n] == regions[..n][k := r];
    } else {
      assert regions[k := r][..n] == regions[..n];
    }
  }

  lemma {:induction false} OwnedRemove(regions: seq<Region>, k: nat)
    requires k < |regions|
    ensures Owned(RemoveAt(regions, k)) == Owned(regions) - if regions[k].owned then regions[k].length else 0
  {
    var n := |regions| - 1;
    if k < n {
      OwnedRemove(regions[..n], k);
      assert RemoveAt(regions, k)[..n - 1] == RemoveAt(regions[..n], k) && RemoveAt(regions, k)[n - 1] == regions[n];
    } else {
      assert RemoveAt(regions, k) == regions[..n];
    }
  }

  // ---- watches ----

  /** Losing some file pages leaves a watch live only. */
  function Invalidated(watches: seq<nat>, r: Region): (w: seq<nat>)
    ensures |w| == |watches|
  {
    if r.file.Some? && r.file.value.watch.Some? && r.file.value.watch.value < |watches|
        && watches[r.file.value.watch.value] != 0
    then watches[r.file.value.watch.value := LIVE] else watches
  }

  /** The file mapping is gone. */
  function Dropped(watches: seq<nat>, r: Region): (w: seq<nat>)
    ensures |w| == |watches|
  {
    if r.file.Some? && r.file.value.watch.Some? && r.file.value.watch.value < |watches|
    then watches[r.file.value.watch.value := 0] else watches
  }

  predicate AnyFile(pages: seq<Page>, first: nat, count: nat)
    requires first + count <= |pages|
  {
    exists i :: first <= i < first + count && pages[i].file
  }

  /** The file mapping is released with its last page. */
  function Trimmed(r: Region): Region {
    if r.file.Some? && !AnyFile(r.pages, 0, |r.pages|) then r.(file := None) else r
  }

  /** The watches after `r` became `r'`, some of whose file pages may have been replaced. */
  function Followed(watches: seq<nat>, r: Region, r': Region, lost: bool): seq<nat> {
    var w := if lost then Invalidated(watches, r) else watches;
    if r.file.Some? && r'.file.None? then Dropped(w, r) else w
  }

  lemma WatchesUpdate(regions: seq<Region>, watches: seq<nat>, k: nat, r: Region, lost: bool)
    requires WatchesOk(regions, watches) && k < |regions| && |r.pages| == |regions[k].pages|
    requires r.file == regions[k].file || r.file == None
    requires !lost ==> forall i {:trigger r.pages[i]} :: 0 <= i < |r.pages| && regions[k].pages[i].file ==>
               r.pages[i].file
    ensures WatchesOk(regions[k := r], Followed(watches, regions[k], r, lost))
  {
    var after, now := regions[k := r], Followed(watches, regions[k], r, lost);
    forall j, w: nat | 0 <= j < |after| && Tracks(after[j], w)
      ensures w < |now| && now[w] in {LIVE, LIVE + INTACT}
              && (now[w] == LIVE + INTACT ==> forall i {:trigger after[j].pages[i]} :: 0 <= i < |after[j].pages| ==>
                   after[j].pages[i].file)
    {
      assert Tracks(regions[j], w);
      if j != k { assert !(Tracks(regions[k], w)); }
    }
    forall i, j, w: nat | 0 <= i < j < |after| ensures !(Tracks(after[i], w) && Tracks(after[j], w)) {
      assert Tracks(after[i], w) ==> Tracks(regions[i], w);
      assert Tracks(after[j], w) ==> Tracks(regions[j], w);
    }
    forall w: nat | w < |now| && now[w] != 0 ensures exists j :: 0 <= j < |after| && Tracks(after[j], w) {
      assert watches[w] != 0;
      var j :| 0 <= j < |regions| && Tracks(regions[j], w);
      assert Tracks(after[j], w);
    }
  }

  lemma WatchesRemove(regions: seq<Region>, watches: seq<nat>, k: nat)
    requires WatchesOk(regions, watches) && k < |regions|
    ensures WatchesOk(RemoveAt(regions, k), Dropped(watches, regions[k]))
  {
    var after, now := RemoveAt(regions, k), Dropped(watches, regions[k]);
    forall j, w: nat | 0 <= j < |after| && Tracks(after[j], w)
      ensures w < |now| && now[w] in {LIVE, LIVE + INTACT}
              && (now[w] == LIVE + INTACT ==> forall i {:trigger after[j].pages[i]} :: 0 <= i < |after[j].pages| ==>
                   after[j].pages[i].file)
    {
      var x := if j < k then j else j + 1;
      assert Tracks(regions[x], w) && after[j] == regions[x];
      assert !(Tracks(regions[k], w));
    }
    forall i, j, w: nat | 0 <= i < j < |after| ensures !(Tracks(after[i], w) && Tracks(after[j], w)) {
      var x, y := if i < k then i else i + 1, if j < k then j else j + 1;
      assert Tracks(after[i], w) ==> Tracks(regions[x], w);
      assert Tracks(after[j], w) ==> Tracks(regions[y], w);
    }
    forall w: nat | w < |now| && now[w] != 0 ensures exists j :: 0 <= j < |after| && Tracks(after[j], w) {
      var j :| 0 <= j < |regions| && Tracks(regions[j], w);
      assert j != k;
      assert Tracks(after[if j < k then j else j - 1], w);
    }
  }

  lemma WatchesAppend(regions: seq<Region>, watches: seq<nat>, r: Region, watched: bool)
    requires WatchesOk(regions, watches)
    requires if watched then r.file == Some(FileMapping(Some(|watches|)))
             && (forall i {:trigger r.pages[i]} :: 0 <= i < |r.pages| ==> r.pages[i].file)
             else r.file.None? || r.file == Some(FileMapping(None))
    ensures WatchesOk(regions + [r], if watched then watches + [LIVE + INTACT] else watches)
  {
    var after, now := regions + [r], if watched then watches + [LIVE + INTACT] else watches;
    forall j, w: nat | 0 <= j < |after| && Tracks(after[j], w)
      ensures w < |now| && now[w] in {LIVE, LIVE + INTACT}
              && (now[w] == LIVE + INTACT ==> forall i {:trigger after[j].pages[i]} :: 0 <= i < |after[j].pages| ==>
                   after[j].pages[i].file)
    {
      if j < |regions| { assert Tracks(regions[j], w) && after[j] == regions[j]; }
    }
    forall i, j, w: nat | 0 <= i < j < |after| ensures !(Tracks(after[i], w) && Tracks(after[j], w)) {
      assert Tracks(after[i], w) ==> Tracks(regions[i], w);
      assert j < |regions| && Tracks(after[j], w) ==> Tracks(regions[j], w);
    }
    forall w: nat | w < |now| && now[w] != 0 ensures exists j :: 0 <= j < |after| && Tracks(after[j], w) {
      if w < |watches| {
        assert watches[w] != 0;
        var j :| 0 <= j < |regions| && Tracks(regions[j], w);
        assert Tracks(after[j], w);
      } else {
        assert Tracks(after[|regions|], w);
      }
    }
  }

  // ---- one region's pages change ----

  /** What an operation may do to a page. */
  ghost predicate Sound(f: Page -> Page) {
    forall p {:trigger f(p)} :: PageOk(p) ==> PageOk(f(p)) && (f(p).file ==> p.file)
  }

  function Repaged(r: Region, first: nat, count: nat, f: Page -> Page): Region
    requires first + count <= |r.pages|
  {
    var pages := Changed(r.pages, first, count, f);
    Trimmed(r.(pages := pages, live := Mapped(pages)))
  }

  lemma RepagedOk(page: nat, r: Region, first: nat, count: nat, f: Page -> Page)
    requires page > 0 && RegionOk(page, r) && first + count <= |r.pages| && Sound(f)
    requires first >= r.guardBytes / page || f(EMPTY) == EMPTY
    ensures RegionOk(page, Repaged(r, first, count, f))
    ensures var r' := Repaged(r, first, count, f);
            r'.base == r.base && r'.length == r.length && r'.owned == r.owned && |r'.pages| == |r.pages|
  {
    var r' := Repaged(r, first, count, f);
    forall i | 0 <= i < |r'.pages| ensures PageOk(r'.pages[i]) && (r'.pages[i].file ==> r'.file.Some?) {
      assert PageOk(r.pages[i]);
    }
  }

  /** One region's pages from `address` on become `f` of what they were; nothing else changes. */
  ghost predicate Steps(page: nat, regions: seq<Region>, regions': seq<Region>, address: nat, size: nat,
      f: Page -> Page)
    requires page > 0
  {
    forall a: nat {:trigger View(page, regions', a)} ::
      View(page, regions', a) == if InRange(a, address, size) then f(View(page, regions, a)) else View(page, regions, a)
  }

  /** A range of whole pages inside one region. */
  ghost predicate Inside(page: nat, r: Region, address: nat, size: nat)
    requires page > 0
  {
    r.base <= address && address + size <= r.base + r.length && (address - r.base) % page == 0 && size % page == 0
  }

  lemma ReplaceSteps(page: nat, regions: seq<Region>, k: nat, address: nat, size: nat, f: Page -> Page)
    requires page > 0 && RegionsOk(page, regions) && k < |regions| && (regions[k].owned || regions[k].protectable)
    requires Inside(page, regions[k], address, size) && Sound(f)
    requires (address - regions[k].base) / page >= regions[k].guardBytes / page || f(EMPTY) == EMPTY
    ensures var first, count := (address - regions[k].base) / page, size / page;
            && first + count <= |regions[k].pages|
            && RegionsOk(page, regions[k := Repaged(regions[k], first, count, f)])
            && Steps(page, regions, regions[k := Repaged(regions[k], first, count, f)], address, size, f)
            && Owned(regions[k := Repaged(regions[k], first, count, f)]) == Owned(regions)
  {
    var r := regions[k];
    assert |r.pages| * page == r.length && Disjoint(regions);
    RangeFits(page, r, address, size);
    var first, count := (address - r.base) / page, size / page;
    var r' := Repaged(r, first, count, f);
    RepagedOk(page, r, first, count, f);
    OwnedUpdate(regions, k, r');
    ViewUpdate(page, regions, k, r', 0);
    hide Sound, Repaged, Inside, View, RegionOk, Owned, Disjoint;
    assert RegionsOk(page, regions[k := r']);
    hide RegionsOk;
    forall a: nat
      ensures View(page, regions[k := r'], a) == if InRange(a, address, size) then f(View(page, regions, a))
              else View(page, regions, a)
    {
      ReplaceAt(page, regions, k, address, size, f, a);
    }
  }

  lemma ReplaceAt(page: nat, regions: seq<Region>, k: nat, address: nat, size: nat, f: Page -> Page, a: nat)
    requires page > 0 && Disjoint(regions) && k < |regions| && Inside(page, regions[k], address, size)
             && |regions[k].pages| * page == regions[k].length
    requires (address - regions[k].base) / page + size / page <= |regions[k].pages|
    ensures var r' := Repaged(regions[k], (address - regions[k].base) / page, size / page, f);
            View(page, regions[k := r'], a) == if InRange(a, address, size) then f(View(page, regions, a))
                else View(page, regions, a)
  {
    var r := regions[k];
    var first, count := (address - r.base) / page, size / page;
    var changed := r.(pages := Changed(r.pages, first, count, f), live := Mapped(Changed(r.pages, first, count, f)));
    var r' := Repaged(r, first, count, f);
    assert r' == Trimmed(changed);
    hide Disjoint, View, Changed, Mapped;
    ViewUpdate(page, regions, k, r', a);
    if Contains(r, a) {
      ViewIn(page, regions, k, a);
      ChangedView(page, r, address, size, f, a);
      TrimmedPage(page, changed, a);
      SamePages(page, changed, r.(pages := changed.pages), a);
    }
  }

  lemma SamePages(page: nat, r: Region, s: Region, a: nat)
    requires page > 0 && r.base == s.base && r.length == s.length && r.pages == s.pages
    ensures PageIn(page, r, a) == PageIn(page, s, a)
  {
  }

  lemma TrimmedPage(page: nat, r: Region, a: nat)
    requires page > 0
    ensures PageIn(page, Trimmed(r), a) == PageIn(page, r, a)
  {
  }

  // ---- argument checks ----

  function RoundUp(page: nat, length: nat): (size: nat)
    requires page > 0
    ensures size % page == 0 && length <= size < length + page
  {
    Multiple(page, (length + page - 1) / page);
    DivideMeans(length + page - 1, page, (length + page - 1) / page);
    DivideMeans(length + page - 1, page, (length + page - 1) / page + 1);
    assert ((length + page - 1) / page + 1) * page == (length + page - 1) / page * page + page;
    (length + page - 1) / page * page
  }

  /** Zero for lengths that cannot be rounded. */
  function Rounded(page: nat, length: nat): (size: nat)
    requires page > 0
    ensures size % page == 0
    ensures 0 < length <= U64_LIMIT - page ==> length <= size < length + page
    ensures size == 0 <==> length == 0 || length > U64_LIMIT - page
  {
    if length == 0 || length > U64_LIMIT - page then 0 else RoundUp(page, length)
  }

  predicate Ranged(page: nat, address: nat, size: nat)
    requires page > 0
  {
    address % page == 0 && address < U64_LIMIT && size <= U64_LIMIT - 1 - address
  }

  /** Execution is refused; writable pages are readable too. */
  function Protection(prot: nat): (p: int)
    ensures p >= 0 ==> p in {0, 1, 3}
  {
    if prot > 7 then -22 else if prot / 4 == 1 then -1 else if prot == 2 then 3 else prot
  }

  /** The whole range is inside the region. */
  predicate Holds(r: Region, address: nat, size: nat): (b: bool)
    ensures b <==> r.base <= address && address + size <= r.base + r.length
  {
    address >= r.base && address - r.base <= r.length && size <= r.length - (address - r.base)
  }

  /** The first region that holds the whole range, or the number of regions. */
  function Containing(regions: seq<Region>, address: nat, size: nat, i: nat := 0): (k: nat)
    requires i <= |regions|
    ensures i <= k <= |regions| && (k < |regions| ==> Holds(regions[k], address, size))
    ensures forall j :: i <= j < k ==> !Holds(regions[j], address, size)
    decreases |regions| - i
  {
    if i == |regions| || Holds(regions[i], address, size) then i else Containing(regions, address, size, i + 1)
  }

  lemma InsideRegion(page: nat, regions: seq<Region>, k: nat, address: nat, size: nat)
    requires page > 0 && RegionsOk(page, regions) && k < |regions| && Holds(regions[k], address, size)
             && address % page == 0 && size % page == 0
    requires regions[k].owned || regions[k].protectable
    ensures Inside(page, regions[k], address, size)
  {
    var r := regions[k];
    assert r.base % page == 0;
    AlignedDifference(page, address, r.base);
  }

  lemma AlignedDifference(page: nat, a: nat, b: nat)
    requires page > 0 && a % page == 0 && b % page == 0 && b <= a
    ensures (a - b) % page == 0
  {
    WholePages(page, a);
    WholePages(page, b);
    var x, y := a / page, b / page;
    DivideMeans(a, page, y);
    assert x * page - y * page == (x - y) * page;
    Multiple(page, x - y);
  }

  // ---- what the operations do to a page ----

  function Fill(perm: nat): Page -> Page {
    (p: Page) => Page(true, perm, false, false)
  }

  function Clear(): Page -> Page {
    (p: Page) => EMPTY
  }

  /** Protection applies to mapped pages that allow it. */
  function Protect(perm: nat): Page -> Page {
    (p: Page) => if p.isMapped && !(p.denyWrite && perm >= 2) then p.(prot := perm) else p
  }

  /** What mprotect needs of a page. */
  function Permitting(writing: bool): Page -> bool {
    (p: Page) => p.isMapped && !(p.denyWrite && writing)
  }

  /** What a program asks for: the read bit or the write bit asks for reading, the write bit for writing. */
  predicate AsksRead(prot: nat) {
    prot % 2 == 1 || prot / 2 % 2 == 1
  }

  predicate AsksWrite(prot: nat) {
    prot / 2 % 2 == 1
  }

  /** The page lets a program do exactly what it asked for. */
  function Granted(prot: nat): Page -> bool {
    (p: Page) => p.isMapped && (p.prot % 2 == 1 <==> AsksRead(prot)) && (p.prot / 2 % 2 == 1 <==> AsksWrite(prot))
  }

  /** Requests without unknown bits and without execution are admitted, and turned into what they ask for. */
  lemma ProtectionGrants(prot: nat)
    ensures Protection(prot) >= 0 <==> prot < 8 && prot / 4 == 0
    ensures Protection(prot) >= 0 ==>
              var perm := Protection(prot);
              && perm in {0, 1, 3} && (perm % 2 == 1 <==> AsksRead(prot)) && (perm / 2 % 2 == 1 <==> AsksWrite(prot))
              && (perm >= 2 <==> AsksWrite(prot)) && (perm != 0 <==> prot != 0)
  {
  }

  /** Private memory of its own, which lets a program do exactly what it asked for. */
  function Anonymous(prot: nat): Page -> bool {
    (p: Page) => Granted(prot)(p) && !p.file && !p.denyWrite
  }

  /** An operation whose pages are as asked leaves the whole range as asked. */
  lemma StepGrants(page: nat, before: seq<Region>, after: seq<Region>, address: nat, size: nat, f: Page -> Page,
      ok: Page -> bool)
    requires page > 0 && Steps(page, before, after, address, size, f) && forall p {:trigger f(p)} :: ok(f(p))
    ensures BytesAre(page, after, address, size, ok)
  {
    hide View;
  }

  lemma SoundOperations(perm: nat)
    requires perm in {0, 1, 3}
    ensures Sound(Fill(perm)) && Sound(Clear()) && Sound(Protect(perm))
  {
  }

  /** The loop every operation runs over its pages. */
  method Rewrite(pages: seq<Page>, first: nat, count: nat, f: Page -> Page) returns (r: seq<Page>, live: nat)
    requires first + count <= |pages|
    ensures r == Changed(pages, first, count, f) && live == Mapped(r)
  {
    hide Changed, Mapped;
    ChangedNone(pages, first, f);
    r, live := pages, CountMapped(pages);
    for n := 0 to count
      invariant r == Changed(pages, first, n, f) && live == Mapped(r)
    {
      ChangedNext(pages, first, n, f);
      var p := f(r[first + n]);
      ChangedUntouched(pages, first, n, f);
      MappedUpdate(r, first + n, p);
      if r[first + n].isMapped && !p.isMapped { live := live - 1; }
      if !r[first + n].isMapped && p.isMapped { live := live + 1; }
      r := r[first + n := p];
    }
  }

  lemma ChangedNone(pages: seq<Page>, first: nat, f: Page -> Page)
    requires first <= |pages|
    ensures Changed(pages, first, 0, f) == pages
  {
  }

  lemma ChangedUntouched(pages: seq<Page>, first: nat, n: nat, f: Page -> Page)
    requires first + n < |pages|
    ensures Changed(pages, first, n, f)[first + n] == pages[first + n]
  {
  }

  function CountMapped(pages: seq<Page>): (n: nat)
    ensures n == Mapped(pages)
  {
    Mapped(pages)
  }

  predicate HasBits(prot: nat, required: nat) {
    (required % 2 == 1 ==> prot % 2 == 1) && (required / 2 % 2 == 1 ==> prot / 2 % 2 == 1)
  }

  predicate Allows(p: Page, required: nat) {
    p.isMapped && HasBits(p.prot, required)
  }

  /** A range of bytes touches exactly the pages from its first byte's to its last byte's. */
  lemma TouchedPages(page: nat, r: Region, address: nat, length: nat, n: nat) returns (a: nat)
    requires page > 0 && length > 0 && Holds(r, address, length)
             && (address - r.base) / page <= n <= (address - r.base + length - 1) / page
    ensures InRange(a, address, length) && (a - r.base) / page == n
  {
    var d, e := address - r.base, address - r.base + length - 1;
    a := if d / page == n then address else r.base + n * page;
    Multiple(page, n);
    DivideMeans(e, page, n);
    DivideMeans(d, page, n);
  }

  lemma PageBetween(page: nat, d: nat, e: nat, f: nat)
    requires page > 0 && d <= e <= f
    ensures d / page <= e / page <= f / page
  {
    DivideMeans(e, page, d / page);
    DivideMeans(d, page, d / page);
    DivideMeans(f, page, e / page);
    DivideMeans(e, page, e / page);
  }

  function PageOfByte(page: nat, r: Region, a: nat): nat
    requires page > 0 && a >= r.base
  {
    (a - r.base) / page
  }

  lemma ByteView(page: nat, regions: seq<Region>, k: nat, address: nat, length: nat, a: nat)
    requires page > 0 && RegionsOk(page, regions) && k < |regions| && Holds(regions[k], address, length)
             && InRange(a, address, length)
    ensures var r := regions[k];
            && PageOfByte(page, r, address) <= PageOfByte(page, r, a) <= PageOfByte(page, r, address + length - 1)
               < |r.pages|
            && View(page, regions, a) == r.pages[PageOfByte(page, r, a)]
  {
    var r := regions[k];
    assert RegionOk(page, r);
    assert |r.pages| * page >= r.length;
    hide RegionOk;
    PageBetween(page, address - r.base, a - r.base, address - r.base + length - 1);
    PageIndex(page, address - r.base + length - 1, 0, |r.pages|);
    ViewIn(page, regions, k, a);
  }

  /** Every page from `first` to `last` is as asked. */
  ghost predicate PagesAre(r: Region, first: nat, last: nat, ok: Page -> bool) {
    last < |r.pages| && forall n {:trigger r.pages[n]} :: first <= n <= last ==> ok(r.pages[n])
  }

  /** Every byte of the range is as asked. */
  ghost predicate BytesAre(page: nat, regions: seq<Region>, address: nat, length: nat, ok: Page -> bool)
    requires page > 0
  {
    forall a: nat {:trigger View(page, regions, a)} :: InRange(a, address, length) ==> ok(View(page, regions, a))
  }

  /** What a caller needs of the pages it accesses: bit 0 needs reading, bit 1 writing. */
  function Granting(required: nat): Page -> bool {
    (p: Page) =>
      && p.isMapped && (required % 2 == 1 ==> p.prot % 2 == 1)
      && (required / 2 % 2 == 1 ==> p.prot / 2 % 2 == 1)
  }

  /** Page by page and byte by byte, the two ways to say that a range is as asked. */
  lemma BytesMean(page: nat, regions: seq<Region>, k: nat, address: nat, length: nat, ok: Page -> bool)
    requires page > 0 && RegionsOk(page, regions) && k < |regions| && length > 0 && Holds(regions[k], address, length)
    ensures PageOfByte(page, regions[k], address + length - 1) < |regions[k].pages|
    ensures PagesAre(regions[k], PageOfByte(page, regions[k], address),
            PageOfByte(page, regions[k], address + length - 1), ok)
            <==> BytesAre(page, regions, address, length, ok)
  {
    var r := regions[k];
    var first, last := PageOfByte(page, r, address), PageOfByte(page, r, address + length - 1);
    ByteView(page, regions, k, address, length, address);
    hide RegionsOk, View;
    if PagesAre(r, first, last, ok) {
      forall a: nat | InRange(a, address, length) ensures ok(View(page, regions, a)) {
        hide PageOfByte;
        ByteView(page, regions, k, address, length, a);
      }
    }
    if BytesAre(page, regions, address, length, ok) {
      forall n | first <= n <= last ensures ok(r.pages[n]) {
        var a := TouchedPages(page, r, address, length, n);
        assert PageOfByte(page, r, a) == n;
        hide PageOfByte;
        ByteView(page, regions, k, address, length, a);
      }
    }
  }
}
