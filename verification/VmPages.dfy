/** Regions of guest memory and the page map they stand for. */
module VmPages {
  import opened Base

  /** `prot` holds the read (1) and write (2) bits. */
  datatype Page = Page(isMapped: bool, prot: nat, file: bool, denyWrite: bool)

  const EMPTY := Page(false, 0, false, false)

  /** The watch that follows a file mapping, if it was asked for. */
  datatype FileMapping = FileMapping(watch: Option<nat>)

  datatype Region = Region(base: nat, length: nat, live: nat, guardBytes: nat, owned: bool, protectable: bool,
                           pages: seq<Page>, file: Option<FileMapping>)

  // ---- page arithmetic ----

  /** Byte `d` of a region lies in the pages `first` to `first + count` exactly when it lies in their bytes. */
  lemma PageIndex(page: nat, d: nat, first: nat, count: nat)
    requires page > 0
    ensures first <= d / page < first + count <==> first * page <= d < (first + count) * page
  {
    DivideMeans(d, page, first);
    DivideMeans(d, page, first + count);
  }

  lemma WholePages(page: nat, n: nat)
    requires page > 0 && n % page == 0
    ensures n == (n / page) * page
  {
  }

  lemma Multiple(page: nat, k: nat)
    requires page > 0
    ensures (k * page) % page == 0 && (k * page) / page == k
  {
    DivideMeans(k * page, page, k);
    DivideMeans(k * page, page, k + 1);
    assert (k + 1) * page == k * page + page;
    assert (k * page) == ((k * page) / page) * page + (k * page) % page;
  }

  // ---- counting mapped pages ----

  function Mapped(pages: seq<Page>): (n: nat)
    ensures n <= |pages|
  {
    if pages == [] then 0 else Mapped(pages[..|pages| - 1]) + if pages[|pages| - 1].isMapped then 1 else 0
  }

  lemma {:induction false} MappedUpdate(pages: seq<Page>, i: nat, p: Page)
    requires i < |pages|
    ensures Mapped(pages[i := p]) == Mapped(pages) - (if pages[i].isMapped then 1 else 0)
            + (if p.isMapped then 1 else 0)
  {
    var n := |pages| - 1;
    if i < n {
      MappedUpdate(pages[..n], i, p);
      assert pages[i := p][..n] == pages[..n][i := p];
    } else {
      assert pages[i := p][..n] == pages[..n];
    }
  }

  /** Mapped pages among `count` from `first`. */
  function MappedIn(pages: seq<Page>, first: nat, count: nat): (n: nat)
    requires first + count <= |pages|
  {
    if count == 0 then 0 else MappedIn(pages, first, count - 1) + if pages[first + count - 1].isMapped then 1 else 0
  }

  /** `pages` with `count` of them from `first` replaced by `f` of what they were. */
  function Changed(pages: seq<Page>, first: nat, count: nat, f: Page -> Page): (r: seq<Page>)
    requires first + count <= |pages|
    ensures |r| == |pages|
    ensures forall i {:trigger r[i]} :: 0 <= i < |pages| ==>
              r[i] == if first <= i < first + count then f(pages[i]) else pages[i]
  {
    seq(|pages|, i requires 0 <= i < |pages| => if first <= i < first + count then f(pages[i]) else pages[i])
  }

  lemma ChangedNext(pages: seq<Page>, first: nat, count: nat, f: Page -> Page)
    requires first + count < |pages|
    ensures Changed(pages, first, count + 1, f) == Changed(pages, first, count,
            f)[first + count := f(pages[first + count])]
  {
  }

  lemma {:induction false} ChangedCount(pages: seq<Page>, first: nat, count: nat, f: Page -> Page, to: bool)
    requires first + count <= |pages| && forall p {:trigger f(p)} :: f(p).isMapped == to
    ensures Mapped(Changed(pages, first, count, f)) == Mapped(pages) - MappedIn(pages, first, count)
            + (if to then count else 0)
  {
    if count == 0 {
      assert Changed(pages, first, 0, f) == pages;
    } else {
      var m := count - 1;
      ChangedCount(pages, first, m, f, to);
      ChangedNext(pages, first, m, f);
      MappedUpdate(Changed(pages, first, m, f), first + m, f(pages[first + m]));
      hide Changed, Mapped;
    }
  }

  lemma {:induction false} ChangedKeepsCount(pages: seq<Page>, first: nat, count: nat, f: Page -> Page)
    requires first + count <= |pages| && forall p {:trigger f(p)} :: f(p).isMapped == p.isMapped
    ensures Mapped(Changed(pages, first, count, f)) == Mapped(pages)
  {
    if count == 0 {
      assert Changed(pages, first, 0, f) == pages;
    } else {
      ChangedKeepsCount(pages, first, count - 1, f);
      ChangedNext(pages, first, count - 1, f);
      MappedUpdate(Changed(pages, first, count - 1, f), first + count - 1, f(pages[first + count - 1]));
    }
  }

  lemma {:induction false} NoneMapped(pages: seq<Page>, i: nat)
    requires Mapped(pages) == 0 && i < |pages|
    ensures !pages[i].isMapped
  {
    if i < |pages| - 1 { NoneMapped(pages[..|pages| - 1], i); }
  }

  /** When all mapped pages are in a range, the pages outside it are not mapped. */
  lemma AllInRange(pages: seq<Page>, first: nat, count: nat, i: nat)
    requires first + count <= |pages| && MappedIn(pages, first, count) == Mapped(pages) && i < |pages|
             && !(first <= i < first + count)
    ensures !pages[i].isMapped
  {
    var f := (p: Page) => EMPTY;
    ChangedCount(pages, first, count, f, false);
    NoneMapped(Changed(pages, first, count, f), i);
  }

  // ---- regions and the page map ----

  predicate Contains(r: Region, a: nat) {
    r.base <= a < r.base + r.length
  }

  /** The first region that contains the byte, or the number of regions. */
  function RegionOf(regions: seq<Region>, a: nat, i: nat := 0): (k: nat)
    requires i <= |regions|
    ensures i <= k <= |regions|
    ensures k < |regions| ==> Contains(regions[k], a)
    ensures forall j :: i <= j < k ==> !Contains(regions[j], a)
    decreases |regions| - i
  {
    if i == |regions| || Contains(regions[i], a) then i else RegionOf(regions, a, i + 1)
  }

  /** The page of a byte inside a region. */
  function PageIn(page: nat, r: Region, a: nat): Page
    requires page > 0
  {
    if Contains(r, a) && (a - r.base) / page < |r.pages| then r.pages[(a - r.base) / page] else EMPTY
  }

  /** The page map: what the region list says about one byte of the address space. */
  function View(page: nat, regions: seq<Region>, a: nat): Page
    requires page > 0
  {
    var k := RegionOf(regions, a);
    if k == |regions| then EMPTY else PageIn(page, regions[k], a)
  }

  predicate Overlaps(a: nat, an: nat, b: nat, bn: nat) {
    a < b + bn && b < a + an
  }

  ghost predicate Disjoint(regions: seq<Region>) {
    forall i, j {:trigger regions[i], regions[j]} :: 0 <= i < j < |regions| ==>
      !Overlaps(regions[i].base, regions[i].length, regions[j].base, regions[j].length)
  }

  lemma ViewIn(page: nat, regions: seq<Region>, k: nat, a: nat)
    requires page > 0 && Disjoint(regions) && k < |regions| && Contains(regions[k], a)
    ensures RegionOf(regions, a) == k && View(page, regions, a) == PageIn(page, regions[k], a)
  {
    var j := RegionOf(regions, a);
    assert j <= k;
  }

  /** Changing one region in place changes the map inside it only. */
  lemma ViewUpdate(page: nat, regions: seq<Region>, k: nat, r: Region, a: nat)
    requires page > 0 && Disjoint(regions) && k < |regions| && r.base == regions[k].base
             && r.length == regions[k].length
    ensures Disjoint(regions[k := r])
    ensures View(page, regions[k := r], a) == if Contains(r, a) then PageIn(page, r, a) else View(page, regions, a)
  {
    var after := regions[k := r];
    forall i, j | 0 <= i < j < |after|
      ensures !Overlaps(after[i].base, after[i].length, after[j].base, after[j].length)
    {
      assert after[i].base == regions[i].base && after[i].length == regions[i].length;
      assert after[j].base == regions[j].base && after[j].length == regions[j].length;
      assert !Overlaps(regions[i].base, regions[i].length, regions[j].base, regions[j].length);
    }
    if Contains(r, a) {
      ViewIn(page, after, k, a);
    } else {
      SameRegionOf(regions, after, a, 0);
      assert RegionOf(regions, a) != k;
    }
  }

  lemma {:induction false} SameRegionOf(regions: seq<Region>, after: seq<Region>, a: nat, i: nat)
    requires |after| == |regions| && i <= |regions|
    requires forall j {:trigger after[j]} :: 0 <= j < |regions| ==> (Contains(after[j], a) <==> Contains(regions[j], a))
    ensures RegionOf(after, a, i) == RegionOf(regions, a, i)
    decreases |regions| - i
  {
    if i < |regions| && !Contains(regions[i], a) {
      assert after[i] == after[i];
      SameRegionOf(regions, after, a, i + 1);
    }
  }

  /** Removing a region that has nothing to say at `a`. */
  lemma ViewRemove(page: nat, regions: seq<Region>, k: nat, a: nat)
    requires page > 0 && Disjoint(regions) && k < |regions|
    ensures Disjoint(RemoveAt(regions, k))
    ensures View(page, RemoveAt(regions, k), a) == if Contains(regions[k], a) then EMPTY else View(page, regions, a)
  {
    var after := RemoveAt(regions, k);
    forall i, j | 0 <= i < j < |after|
      ensures !Overlaps(after[i].base, after[i].length, after[j].base, after[j].length)
    {
      var x, y := if i < k then i else i + 1, if j < k then j else j + 1;
      assert !Overlaps(regions[x].base, regions[x].length, regions[y].base, regions[y].length);
    }
    var j := RegionOf(after, a);
    assert forall x {:trigger regions[x]} :: 0 <= x < |regions| && x != k ==>
             after[if x < k then x else x - 1] == regions[x];
    if j < |after| {
      var x := if j < k then j else j + 1;
      assert regions[x] == after[j] && Contains(regions[x], a) && x != k;
      ViewIn(page, regions, x, a);
    }
  }

  /** A new region, disjoint from the rest. */
  lemma ViewAppend(page: nat, regions: seq<Region>, r: Region, a: nat)
    requires page > 0 && Disjoint(regions)
    requires forall j {:trigger regions[j]} :: 0 <= j < |regions| ==>
               !Overlaps(regions[j].base, regions[j].length, r.base, r.length)
    ensures Disjoint(regions + [r])
    ensures View(page, regions + [r], a) == if Contains(r, a) then PageIn(page, r, a) else View(page, regions, a)
  {
    var after := regions + [r];
    forall i, j | 0 <= i < j < |after|
      ensures !Overlaps(after[i].base, after[i].length, after[j].base, after[j].length)
    {
      assert i < |regions| && after[i] == regions[i];
      assert j < |regions| ==> after[j] == regions[j];
    }
    var j, i := RegionOf(after, a), RegionOf(regions, a);
    if Contains(r, a) {
      assert after[|regions|] == r;
      ViewIn(page, after, |regions|, a);
    } else if i < |regions| {
      assert after[i] == regions[i];
      ViewIn(page, after, i, a);
    }
  }

  // ---- the range an operation works on ----

  predicate InRange(a: nat, address: nat, size: nat) {
    address <= a < address + size
  }

  /** Whole pages of a region changed by `f`: exactly the bytes of the range change. */
  lemma ChangedView(page: nat, r: Region, address: nat, size: nat, f: Page -> Page, a: nat)
    requires page > 0 && r.base <= address && address + size <= r.base + r.length && (address - r.base) % page == 0
             && size % page == 0
    requires |r.pages| * page == r.length && Contains(r, a)
    ensures (address - r.base) / page + size / page <= |r.pages|
    ensures PageIn(page, r.(pages := Changed(r.pages, (address - r.base) / page, size / page, f)), a)
            == if InRange(a, address, size) then f(PageIn(page, r, a)) else PageIn(page, r, a)
  {
    var first, count := (address - r.base) / page, size / page;
    WholePages(page, address - r.base);
    WholePages(page, size);
    RangeFits(page, r, address, size);
    PageIndex(page, a - r.base, first, count);
    assert (first + count) * page == first * page + count * page;
    PageIndex(page, a - r.base, 0, |r.pages|);
  }

  lemma RangeFits(page: nat, r: Region, address: nat, size: nat)
    requires page > 0 && r.base <= address && address + size <= r.base + r.length && (address - r.base) % page == 0
             && size % page == 0
    requires |r.pages| * page == r.length
    ensures (address - r.base) / page + size / page <= |r.pages|
  {
    var first, count := (address - r.base) / page, size / page;
    WholePages(page, address - r.base);
    WholePages(page, size);
    assert (first + count) * page == first * page + count * page;
    Multiple(page, |r.pages|);
    DivideMeans(|r.pages| * page, page, first + count);
  }
}
