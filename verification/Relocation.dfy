/** The relocator: a plan is built and checked against untouched memory, then committed as a whole. */
module Relocation {
  import opened Base

  const RELOCATION_LIMIT: nat := 1024 * 1024

  // ---- memory ----

  datatype Segment = Segment(flags: nat, address: nat, size: nat)

  /** Host bytes `data` to `data + size` back the segment. */
  datatype Region = Region(segment: nat, data: nat, size: nat)

  predicate Overlaps(a: nat, an: nat, b: nat, bn: nat) {
    an != 0 && bn != 0 && if a <= b then b - a < an else a - b < bn
  }

  lemma OverlapsMeans(a: nat, an: nat, b: nat, bn: nat)
    ensures Overlaps(a, an, b, bn) <==> an > 0 && bn > 0 && a < b + bn && b < a + an
  {
  }

  /** One region: a writable, not executable segment it fits exactly, apart from the image's own bytes. */
  predicate RegionOk(segments: seq<Segment>, r: Region, host: nat, imageData: nat, imageSize: nat) {
    && r.segment < |segments| && r.size > 0 && r.data + r.size <= host
    && segments[r.segment].flags % 4 == 2 && segments[r.segment].size == r.size
    && r.size <= U64_LIMIT - 1 - segments[r.segment].address && !Overlaps(r.data, r.size, imageData, imageSize)
  }

  predicate Separate(a: Region, b: Region) {
    a.segment != b.segment && !Overlaps(a.data, a.size, b.data, b.size)
  }

  ghost predicate MemoryOk(segments: seq<Segment>, regions: seq<Region>, n: nat, host: nat, imageData: nat,
      imageSize: nat)
    requires n <= |regions|
  {
    && (forall i {:trigger regions[i]} :: 0 <= i < n ==> RegionOk(segments, regions[i], host, imageData, imageSize))
    && (forall i, j {:trigger regions[i], regions[j]} :: 0 <= j < i < n ==> Separate(regions[i], regions[j]))
  }

  method CheckMemory(segments: seq<Segment>, regions: seq<Region>, host: nat, imageData: nat, imageSize: nat)
        returns (ok: bool)
    ensures ok <==> |regions| <= |segments| && MemoryOk(segments, regions, |regions|, host, imageData, imageSize)
  {
    if |regions| > |segments| { return false; }
    for i := 0 to |regions|
      invariant MemoryOk(segments, regions, i, host, imageData, imageSize)
    {
      if !RegionOk(segments, regions[i], host, imageData, imageSize) { return false; }
      for j := 0 to i
        invariant forall k {:trigger regions[k]} :: 0 <= k < j ==> Separate(regions[i], regions[k])
      {
        if !Separate(regions[i], regions[j]) { return false; }
      }
    }
    ok := true;
  }

  predicate InBytes(x: nat, at: nat, n: nat) {
    at <= x < at + n
  }

  /** No byte is in both ranges. */
  ghost predicate NoneShared(a: nat, an: nat, b: nat, bn: nat) {
    forall x: nat {:trigger InBytes(x, a, an)} :: InBytes(x, a, an) ==> !InBytes(x, b, bn)
  }

  lemma OverlapsShares(a: nat, an: nat, b: nat, bn: nat)
    ensures Overlaps(a, an, b, bn) <==> !NoneShared(a, an, b, bn)
  {
    OverlapsMeans(a, an, b, bn);
    var x := if a < b then b else a;
    if Overlaps(a, an, b, bn) { assert InBytes(x, a, an) && InBytes(x, b, bn); }
  }

  /** In the host, all of a segment that may be written and not executed and does not wrap, and apart from the image. */
  ghost predicate Usable(segments: seq<Segment>, r: Region, host: nat, imageData: nat, imageSize: nat) {
    && r.segment < |segments| && r.size > 0 && r.data + r.size <= host
    && segments[r.segment].flags % 2 == 0 && segments[r.segment].flags / 2 % 2 == 1
    && segments[r.segment].size == r.size && segments[r.segment].address + r.size < U64_LIMIT
    && NoneShared(r.data, r.size, imageData, imageSize)
  }

  lemma UsableIs(segments: seq<Segment>, r: Region, host: nat, imageData: nat, imageSize: nat)
    ensures Usable(segments, r, host, imageData, imageSize) <==> RegionOk(segments, r, host, imageData, imageSize)
  {
    OverlapsShares(r.data, r.size, imageData, imageSize);
    hide Overlaps, NoneShared;
  }

  /** What the memory check accepts, byte by byte: every region is usable and has its segment and its bytes to itself.
      */
  lemma MemoryMeans(segments: seq<Segment>, regions: seq<Region>, host: nat, imageData: nat, imageSize: nat)
    ensures MemoryOk(segments, regions, |regions|, host, imageData, imageSize) <==>
              && (forall i {:trigger regions[i]} :: 0 <= i < |regions| ==>
                    Usable(segments, regions[i], host, imageData, imageSize))
              && (forall i, j {:trigger regions[i], regions[j]} :: 0 <= j < i < |regions| ==>
                    && regions[i].segment != regions[j].segment
                    && NoneShared(regions[i].data, regions[i].size, regions[j].data, regions[j].size))
  {
    forall r ensures Usable(segments, r, host, imageData, imageSize) <==>
                     RegionOk(segments, r, host, imageData, imageSize) {
      UsableIs(segments, r, host, imageData, imageSize);
    }
    forall a: Region, b: Region ensures Separate(a, b) <==>
                                        a.segment != b.segment && NoneShared(a.data, a.size, b.data, b.size) {
      OverlapsShares(a.data, a.size, b.data, b.size);
    }
    hide Overlaps, NoneShared, RegionOk, Usable, Separate;
  }

  predicate Backs(segments: seq<Segment>, r: Region, address: nat, width: nat) {
    r.segment < |segments| && address >= segments[r.segment].address && r.size >= width
    && address - segments[r.segment].address <= r.size - width
  }

  /** The first region that backs the addresses, or the number of regions. */
  function Backing(segments: seq<Segment>, regions: seq<Region>, address: nat, width: nat, i: nat := 0): (k: nat)
    requires i <= |regions|
    ensures i <= k <= |regions| && (k < |regions| ==> Backs(segments, regions[k], address, width))
    ensures forall j :: i <= j < k ==> !Backs(segments, regions[j], address, width)
    decreases |regions| - i
  {
    if i == |regions| || Backs(segments, regions[i], address, width) then i
        else Backing(segments, regions, address, width, i + 1)
  }

  function Target(segments: seq<Segment>, regions: seq<Region>, address: nat, width: nat): Option<nat> {
    if address > U64_LIMIT - 1 - width then None
    else
      var k := Backing(segments, regions, address, width);
      if k == |regions| then None else Some(regions[k].data + (address - segments[regions[k].segment].address))
  }

  // ---- one planned write ----

  datatype Kind = Nothing | Absolute | Relative | TlsDescriptor | Other

  function KindOf(code: nat): Kind {
    if code == 0 then Nothing
    else if code == 257 || code == 1025 || code == 1026 then Absolute
    else if code == 1027 then Relative
    else if code == 1031 then TlsDescriptor
    else Other
  }

  function Width(kind: Kind): nat {
    if kind.TlsDescriptor? then 16 else 8
  }

  datatype Write = Write(target: nat, address: nat, value: nat, argument: nat, kind: Kind, symbol: nat)

  datatype Error = InvalidImage | Unsupported | Missing

  datatype Result<T> = Ok(value: T) | Err(error: Error)

  /** What is fixed while a plan is built. */
  datatype Setting = Setting(segments: seq<Segment>, regions: seq<Region>, symbolCount: nat, bytes: seq<byte>)

  ghost predicate SettingOk(s: Setting) {
    exists imageData: nat, imageSize: nat ::
          MemoryOk(s.segments, s.regions, |s.regions|, |s.bytes|, imageData, imageSize)
  }

  /** Plans at most one write; RELR takes its addend from the memory it will overwrite. */
  function PlanOne(s: Setting, address: nat, code: nat, symbol: nat, addend: Option<nat>): (r: Result<seq<Write>>)
    requires SettingOk(s)
    ensures r.Ok? ==> |r.value| <= 1 && (r.value != [] ==> Planned(s, r.value[0]))
  {
    var kind := KindOf(code);
    if kind.Nothing? then Ok([])
    else if kind.Other? then Err(Unsupported)
    else if symbol >= s.symbolCount || (kind.Relative? && symbol != 0) then Err(InvalidImage)
    else
      var where := Target(s.segments, s.regions, address, Width(kind));
      if where.None? then Err(InvalidImage)
      else
        TargetInHost(s, address, Width(kind));
        Ok([Write(where.value, address, if addend.Some? then addend.value
            else Value(s.bytes[where.value..where.value + 8]), 0, kind, symbol)])
  }

  /** The write lies in one region, at the place its address has there. */
  ghost predicate Planned(s: Setting, w: Write) {
    !w.kind.Nothing? && !w.kind.Other?
    && exists k :: 0 <= k < |s.regions| && Backs(s.segments, s.regions[k], w.address, Width(w.kind))
                   && w.target == s.regions[k].data + (w.address - s.segments[s.regions[k].segment].address)
  }

  lemma TargetInHost(s: Setting, address: nat, width: nat)
    requires SettingOk(s) && Target(s.segments, s.regions, address, width).Some?
    ensures Target(s.segments, s.regions, address, width).value + width <= |s.bytes|
  {
    var imageData: nat, imageSize: nat :| MemoryOk(s.segments, s.regions, |s.regions|, |s.bytes|, imageData, imageSize);
    var k := Backing(s.segments, s.regions, address, width);
    assert RegionOk(s.segments, s.regions[k], |s.bytes|, imageData, imageSize);
  }

  // ---- RELA ----

  datatype Rela = Rela(address: nat, code: nat, symbol: nat, addend: nat)

  function PlanRela(s: Setting, entries: seq<Rela>): (r: Result<seq<Write>>)
    requires SettingOk(s)
    ensures r.Ok? ==> |r.value| <= |entries|
  {
    if entries == [] then Ok([])
    else
      var rest := PlanRela(s, entries[..|entries| - 1]);
      if rest.Err? then rest
      else
        var e := entries[|entries| - 1];
        var one := PlanOne(s, e.address, e.code, e.symbol, Some(e.addend));
        if one.Err? then one else Ok(rest.value + one.value)
  }

  lemma {:induction false} PlanRelaFails(s: Setting, entries: seq<Rela>, i: nat)
    requires SettingOk(s) && i <= |entries| && PlanRela(s, entries[..i]).Err?
    ensures PlanRela(s, entries) == PlanRela(s, entries[..i])
    decreases |entries| - i
  {
    if i == |entries| {
      assert entries[..i] == entries;
    } else {
      assert entries[..i + 1][..i] == entries[..i];
      PlanRelaFails(s, entries, i + 1);
    }
  }

  method PrepareRela(s: Setting, entries: seq<Rela>, plan: seq<Write>) returns (r: Result<seq<Write>>)
    requires SettingOk(s)
    ensures var spec := PlanRela(s, entries); r == if spec.Err? then spec else Ok(plan + spec.value)
  {
    var writes := plan;
    for i := 0 to |entries|
      invariant PlanRela(s, entries[..i]).Ok? && writes == plan + PlanRela(s, entries[..i]).value
    {
      assert entries[..i + 1][..i] == entries[..i];
      var one := PlanOne(s, entries[i].address, entries[i].code, entries[i].symbol, Some(entries[i].addend));
      if one.Err? {
        PlanRelaFails(s, entries, i + 1);
        return one;
      }
      writes := writes + one.value;
    }
    assert entries[..|entries|] == entries;
    r := Ok(writes);
  }

  // ---- RELR ----

  /** The addresses the format denotes, stated by position: an even word is an address; an odd word is a bitmap over the
      63 words that follow what the last address and the bitmaps since then covered. */
  ghost predicate Denotes(words: seq<nat>, a: nat) {
    exists k :: 0 <= k < |words| && DenotedBy(words, k, a)
  }

  ghost predicate DenotedBy(words: seq<nat>, k: nat, a: nat)
    requires k < |words|
  {
    if words[k] % 2 == 0 then a == words[k]
    else exists b: nat :: 1 <= b < 64 && Bit(words[k], b) && a == MapStart(words, k) + 8 * (b - 1)
  }

  /** The index of the last address before `k`, or -1. */
  function LastAddress(words: seq<nat>, k: nat): (j: int)
    requires k <= |words|
    ensures -1 <= j < k
    ensures j >= 0 ==> words[j] % 2 == 0
  {
    if k == 0 then -1 else if words[k - 1] % 2 == 0 then k - 1 else LastAddress(words, k - 1)
  }

  function MapStart(words: seq<nat>, k: nat): nat
    requires k <= |words|
  {
    var j := LastAddress(words, k);
    if j < 0 then 0 else words[j] + 8 + 504 * (k - j - 1)
  }

  /** Well formed: a bitmap follows an address, and no step runs past the address space. */
  predicate WellFormed(words: seq<nat>, n: nat)
    requires n <= |words|
  {
    forall k {:trigger words[k]} :: 0 <= k < n ==>
      if words[k] % 2 == 0 then words[k] <= U64_LIMIT - 9
      else LastAddress(words, k) >= 0 && MapStart(words, k) <= U64_LIMIT - 1 - 504
  }

  /** The bits of one bitmap below `n`, as addresses. */
  function MapAddresses(word: nat, cursor: nat, n: nat): (r: seq<nat>)
    requires 1 <= n <= 64
    ensures |r| <= n - 1
    ensures forall a :: a in r <==> exists b: nat :: 1 <= b < n && Bit(word, b) && a == cursor + 8 * (b - 1)
  {
    if n == 1 then []
    else
      var rest := MapAddresses(word, cursor, n - 1);
      if Bit(word, n - 1) then rest + [cursor + 8 * (n - 2)] else rest
  }

  /** What the decoder emits for the first `k` words. */
  function Decoded(words: seq<nat>, k: nat): (r: seq<nat>)
    requires k <= |words|
    ensures |r| <= 63 * k
  {
    if k == 0 then []
    else if words[k - 1] % 2 == 0 then Decoded(words, k - 1) + [words[k - 1]]
    else Decoded(words, k - 1) + MapAddresses(words[k - 1], MapStart(words, k - 1), 64)
  }

  /** Decoding yields exactly the denoted addresses. */
  lemma {:induction false} DecodedIsDenoted(words: seq<nat>, k: nat, a: nat)
    requires k <= |words|
    ensures a in Decoded(words, k) <==> exists j :: 0 <= j < k && DenotedBy(words, j, a)
  {
    if k > 0 {
      DecodedIsDenoted(words, k - 1, a);
      assert a in Decoded(words, k) <==> a in Decoded(words, k - 1) || DenotedBy(words, k - 1, a);
    }
  }

  /** A relative write at every address. */
  function PlanAll(s: Setting, addresses: seq<nat>): (r: Result<seq<Write>>)
    requires SettingOk(s)
    ensures r.Ok? ==> |r.value| == |addresses|
    ensures r.Err? ==> r.error == InvalidImage
  {
    if addresses == [] then Ok([])
    else
      var rest := PlanAll(s, addresses[..|addresses| - 1]);
      if rest.Err? then rest
      else
        var one := PlanOne(s, addresses[|addresses| - 1], 1027, 0, None);
        if one.Err? then one else Ok(rest.value + one.value)
  }

  lemma PlanAllOne(s: Setting, xs: seq<nat>, x: nat)
    requires SettingOk(s)
    ensures PlanAll(s, xs + [x]) == if PlanAll(s, xs).Err? then PlanAll(s, xs) else
                                    if PlanOne(s, x, 1027, 0, None).Err? then PlanOne(s, x, 1027, 0, None)
                                    else Ok(PlanAll(s, xs).value + PlanOne(s, x, 1027, 0, None).value)
  {
    assert (xs + [x])[..|xs|] == xs;
  }

  lemma PlanAllNone(s: Setting)
    requires SettingOk(s)
    ensures PlanAll(s, []) == Ok([])
  {
  }

  lemma {:induction false} PlanAllPrefix(s: Setting, xs: seq<nat>, ys: seq<nat>)
    requires SettingOk(s) && PlanAll(s, xs).Err?
    ensures PlanAll(s, xs + ys).Err?
    decreases |ys|
  {
    if ys == [] {
      assert xs + ys == xs;
    } else {
      var n := |ys| - 1;
      PlanAllPrefix(s, xs, ys[..n]);
      assert xs + ys == (xs + ys[..n]) + [ys[n]];
      PlanAllOne(s, xs + ys[..n], ys[n]);
    }
  }

  /** Every later decoding extends an earlier one. */
  lemma {:induction false} DecodedExtends(words: seq<nat>, j: nat, k: nat)
    requires j <= k <= |words|
    ensures Decoded(words, j) <= Decoded(words, k)
    decreases k
  {
    if j < k { DecodedExtends(words, j, k - 1); }
  }

  lemma {:induction false} MapExtends(word: nat, cursor: nat, m: nat, n: nat)
    requires 1 <= m <= n <= 64
    ensures MapAddresses(word, cursor, m) <= MapAddresses(word, cursor, n)
    decreases n
  {
    if m < n { MapExtends(word, cursor, m, n - 1); }
  }

  function PlanRelr(s: Setting, words: seq<nat>): Result<seq<Write>>
    requires SettingOk(s)
  {
    if !WellFormed(words, |words|) then Err(InvalidImage) else PlanAll(s, Decoded(words, |words|))
  }

  lemma PlanRelrFails(s: Setting, words: seq<nat>, addresses: seq<nat>)
    requires SettingOk(s) && addresses <= Decoded(words, |words|) && PlanAll(s, addresses).Err?
    ensures PlanRelr(s, words) == Err(InvalidImage)
  {
    var all := Decoded(words, |words|);
    hide PlanAll, Decoded, WellFormed;
    PlanAllPrefix(s, addresses, all[|addresses|..]);
    assert addresses + all[|addresses|..] == all;
  }

  /** What one word adds to the decoding. */
  function Step(words: seq<nat>, k: nat): seq<nat>
    requires k < |words|
  {
    if words[k] % 2 == 0 then [words[k]] else MapAddresses(words[k], MapStart(words, k), 64)
  }

  lemma DecodedNext(words: seq<nat>, k: nat, next: nat)
    requires next == k + 1 && next <= |words|
    ensures Decoded(words, next) == Decoded(words, k) + Step(words, k)
  {
  }

  /** A prefix of what the next word adds already has an address without a slot. */
  lemma StepFails(s: Setting, words: seq<nat>, k: nat, next: nat, some: seq<nat>)
    requires SettingOk(s) && next == k + 1 && next <= |words| && some <= Step(words, k)
    requires PlanAll(s, Decoded(words, k) + some).Err?
    ensures PlanRelr(s, words) == Err(InvalidImage)
  {
    hide *;
    DecodedNext(words, k, next);
    DecodedExtends(words, next, |words|);
    PlanRelrFails(s, words, Decoded(words, k) + some);
  }

  /** The bits of one bitmap, from the lowest. */
  method PrepareMap(s: Setting, word: nat, cursor: nat, before: seq<nat>, plan: seq<Write>)
        returns (r: Result<seq<Write>>)
    requires SettingOk(s) && PlanAll(s, before) == Ok(plan)
    ensures r.Ok? ==> PlanAll(s, before + MapAddresses(word, cursor, 64)) == r
    ensures r.Err? ==>
              r.error == InvalidImage && exists n ::
                1 <= n <= 64 && PlanAll(s, before + MapAddresses(word, cursor, n)).Err?
  {
    hide PlanAll, PlanOne, Bit;
    var writes := plan;
    assert before + [] == before;
    for bit := 1 to 64
      invariant PlanAll(s, before + MapAddresses(word, cursor, bit)) == Ok(writes)
    {
      if Bit(word, bit) {
        var address := cursor + (bit - 1) * 8;
        var so := before + MapAddresses(word, cursor, bit);
        PlanAllOne(s, so, address);
        assert before + MapAddresses(word, cursor, bit + 1) == so + [address];
        var one := PlanOne(s, address, 1027, 0, None);
        if one.Err? { return Err(InvalidImage); }
        writes := writes + one.value;
      }
    }
    r := Ok(writes);
  }

  method PrepareRelr(s: Setting, words: seq<nat>) returns (r: Result<seq<Write>>)
    requires SettingOk(s)
    ensures r == PlanRelr(s, words)
  {
    hide PlanAll, PlanOne, MapAddresses;
    var writes, cursor, hasAddress := [], 0, false;
    PlanAllNone(s);
    for k := 0 to |words|
      invariant WellFormed(words, k) && PlanAll(s, Decoded(words, k)) == Ok(writes)
      invariant hasAddress <==> LastAddress(words, k) >= 0
      invariant hasAddress ==> cursor == MapStart(words, k)
    {
      var entry := words[k];
      if entry % 2 == 0 {
        if entry > U64_LIMIT - 1 - 8 { return Err(InvalidImage); }
        PlanAllOne(s, Decoded(words, k), entry);
        var one := PlanOne(s, entry, 1027, 0, None);
        if one.Err? {
          StepFails(s, words, k, k + 1, [entry]);
          return Err(InvalidImage);
        }
        writes := writes + one.value;
        cursor := entry + 8;
        hasAddress := true;
      } else {
        if !hasAddress || cursor > U64_LIMIT - 1 - 63 * 8 { return Err(InvalidImage); }
        var many := PrepareMap(s, entry, cursor, Decoded(words, k), writes);
        if many.Err? {
          var n :| 1 <= n <= 64 && PlanAll(s, Decoded(words, k) + MapAddresses(entry, cursor, n)).Err?;
          MapExtends(entry, cursor, n, 64);
          StepFails(s, words, k, k + 1, MapAddresses(entry, cursor, n));
          return Err(InvalidImage);
        }
        writes := many.value;
        cursor := cursor + 63 * 8;
      }
    }
    r := Ok(writes);
  }

  // ---- sorting, and what adjacent gaps mean ----

  function Insert(w: Write, ws: seq<Write>): seq<Write> {
    if ws == [] || w.address <= ws[0].address then [w] + ws else [ws[0]] + Insert(w, ws[1..])
  }

  function SortByAddress(ws: seq<Write>): seq<Write> {
    if ws == [] then [] else Insert(ws[0], SortByAddress(ws[1..]))
  }

  ghost predicate Ordered(ws: seq<Write>) {
    forall i, j {:trigger ws[i], ws[j]} :: 0 <= i < j < |ws| ==> ws[i].address <= ws[j].address
  }

  lemma {:induction false} InsertMembers(w: Write, ws: seq<Write>)
    ensures multiset(Insert(w, ws)) == multiset(ws) + multiset{w}
    ensures Insert(w, ws) != []
  {
    if ws == [] || w.address <= ws[0].address {
      assert multiset([w] + ws) == multiset{w} + multiset(ws);
    } else {
      InsertMembers(w, ws[1..]);
      assert ws == [ws[0]] + ws[1..];
    }
  }

  lemma InsertedAbove(w: Write, ws: seq<Write>, low: nat)
    requires low <= w.address && forall x :: x in ws ==> low <= x.address
    ensures forall x :: x in Insert(w, ws) ==> low <= x.address
  {
    InsertMembers(w, ws);
    hide Insert;
    forall x | x in Insert(w, ws) ensures low <= x.address {
      assert x in multiset(Insert(w, ws));
      assert x != w ==> x in multiset(ws);
    }
  }

  lemma {:induction false} InsertOrdered(w: Write, ws: seq<Write>)
    requires Ordered(ws)
    ensures Ordered(Insert(w, ws))
  {
    if ws != [] && w.address > ws[0].address {
      var rest := ws[1..];
      InsertOrdered(w, rest);
      forall x | x in rest ensures ws[0].address <= x.address {
        var k :| 0 <= k < |rest| && rest[k] == x;
        assert ws[k + 1] == x;
      }
      InsertedAbove(w, rest, ws[0].address);
      var r := Insert(w, rest);
      assert Insert(w, ws) == [ws[0]] + r;
      hide Insert;
      OrderedCons(ws[0], r);
    }
  }

  lemma OrderedCons(w: Write, ws: seq<Write>)
    requires Ordered(ws) && forall x :: x in ws ==> w.address <= x.address
    ensures Ordered([w] + ws)
  {
    var r := [w] + ws;
    forall i, j | 0 <= i < j < |r| ensures r[i].address <= r[j].address {
      assert r[j] == ws[j - 1] && ws[j - 1] in ws;
      assert i > 0 ==> r[i] == ws[i - 1];
    }
  }

  lemma {:induction false} SortOrdered(ws: seq<Write>)
    ensures Ordered(SortByAddress(ws)) && multiset(SortByAddress(ws)) == multiset(ws)
  {
    if ws != [] {
      SortOrdered(ws[1..]);
      InsertOrdered(ws[0], SortByAddress(ws[1..]));
      InsertMembers(ws[0], SortByAddress(ws[1..]));
      assert ws == [ws[0]] + ws[1..];
    }
  }

  /** No write begins before its predecessor has ended. */
  predicate GapsOk(ws: seq<Write>) {
    forall i :: 0 < i < |ws| ==> ws[i].address - ws[i - 1].address >= Width(ws[i - 1].kind)
  }

  predicate AddressesApart(a: Write, b: Write) {
    a.address + Width(a.kind) <= b.address || b.address + Width(b.kind) <= a.address
  }

  predicate HostApart(a: Write, b: Write) {
    a.target + Width(a.kind) <= b.target || b.target + Width(b.kind) <= a.target
  }

  lemma {:induction false} GapsApart(ws: seq<Write>, i: nat, j: nat)
    requires GapsOk(ws) && i < j < |ws|
    ensures ws[i].address + Width(ws[i].kind) <= ws[j].address
  {
    if j > i + 1 { GapsApart(ws, i, j - 1); }
  }

  /** Addresses that do not overlap have host bytes that do not, whichever segments they are in. */
  lemma HostFollows(s: Setting, a: Write, b: Write)
    requires SettingOk(s) && Planned(s, a) && Planned(s, b) && AddressesApart(a, b)
    ensures HostApart(a, b)
  {
    var imageData: nat, imageSize: nat :| MemoryOk(s.segments, s.regions, |s.regions|, |s.bytes|, imageData, imageSize);
    var i :| 0 <= i < |s.regions| && Backs(s.segments, s.regions[i], a.address, Width(a.kind))
             && a.target == s.regions[i].data + (a.address - s.segments[s.regions[i].segment].address);
    var j :| 0 <= j < |s.regions| && Backs(s.segments, s.regions[j], b.address, Width(b.kind))
             && b.target == s.regions[j].data + (b.address - s.segments[s.regions[j].segment].address);
    assert i != j ==> Separate(s.regions[i], s.regions[j]) || Separate(s.regions[j], s.regions[i]);
    OverlapsMeans(s.regions[i].data, s.regions[i].size, s.regions[j].data, s.regions[j].size);
    OverlapsMeans(s.regions[j].data, s.regions[j].size, s.regions[i].data, s.regions[i].size);
  }

  ghost predicate AllPlanned(s: Setting, ws: seq<Write>) {
    forall w :: w in ws ==> Planned(s, w)
  }

  ghost predicate AllApart(ws: seq<Write>) {
    forall i, j {:trigger ws[i], ws[j]} :: 0 <= i < j < |ws| ==> HostApart(ws[i], ws[j])
  }

  /** After sorting, adjacent gaps are enough for every pair of host writes to be disjoint. */
  lemma GapsSuffice(s: Setting, ws: seq<Write>)
    requires SettingOk(s) && AllPlanned(s, ws) && GapsOk(ws)
    ensures AllApart(ws)
  {
    forall i, j | 0 <= i < j < |ws| ensures HostApart(ws[i], ws[j]) {
      GapsApart(ws, i, j);
      assert ws[i] in ws && ws[j] in ws;
      hide Planned;
      HostFollows(s, ws[i], ws[j]);
    }
  }

  lemma {:induction false} PlanRelaPlanned(s: Setting, entries: seq<Rela>)
    requires SettingOk(s) && PlanRela(s, entries).Ok?
    ensures AllPlanned(s, PlanRela(s, entries).value)
  {
    hide Planned, PlanOne;
    if entries != [] { PlanRelaPlanned(s, entries[..|entries| - 1]); }
  }

  lemma {:induction false} PlanAllPlanned(s: Setting, addresses: seq<nat>)
    requires SettingOk(s) && PlanAll(s, addresses).Ok?
    ensures AllPlanned(s, PlanAll(s, addresses).value)
  {
    hide Planned, PlanOne;
    if addresses != [] { PlanAllPlanned(s, addresses[..|addresses| - 1]); }
  }

  // ---- final values ----

  /** The load bias, what symbols resolve to, and how TLS descriptors are bound, if they are. */
  datatype Bindings = Bindings(bias: nat, resolve: nat -> Result<nat>, tls: Option<(nat, nat) -> Result<(u64, u64)>>)

  function Bind(b: Bindings, w: Write): Result<Write> {
    match w.kind
    case TlsDescriptor =>
      if b.tls.None? then Err(Unsupported)
      else
        var bound := b.tls.value(w.symbol, w.value);
        if bound.Err? then Err(bound.error)
        else if bound.value.0 == 0 || bound.value.0 % 4 != 0 then Err(InvalidImage)
        else Ok(w.(value := bound.value.0, argument := bound.value.1))
    case Relative => Ok(w.(value := (w.value + b.bias) % U64_LIMIT))
    case _ =>
      var bound := b.resolve(w.symbol);
      if bound.Err? then Err(bound.error) else Ok(w.(value := (w.value + bound.value) % U64_LIMIT))
  }

  function Data(w: Write): (d: seq<byte>)
    ensures |d| == Width(w.kind)
  {
    if Width(w.kind) == 16 then Bytes(w.value, 8) + Bytes(w.argument, 8) else Bytes(w.value, 8)
  }

  ghost predicate InHost(ws: seq<Write>, size: nat) {
    forall w :: w in ws ==> w.target + Width(w.kind) <= size
  }

  function Apply(bytes: seq<byte>, ws: seq<Write>): (r: seq<byte>)
    requires InHost(ws, |bytes|)
    ensures |r| == |bytes|
  {
    if ws == [] then bytes
    else
      var w := ws[|ws| - 1];
      Splice(Apply(bytes, ws[..|ws| - 1]), w.target, Data(w))
  }

  predicate Touches(w: Write, i: nat) {
    w.target <= i < w.target + Width(w.kind)
  }

  /** What committed memory looks like, without saying in which order it was written. */
  ghost predicate Assigned(before: seq<byte>, after: seq<byte>, ws: seq<Write>) {
    && |after| == |before|
    && (forall w, i: nat {:trigger Touches(w, i)} :: w in ws && Touches(w, i) && i < |after| ==>
         after[i] == Data(w)[i - w.target])
    && (forall i: nat {:trigger after[i]} :: i < |after| && (forall w :: w in ws ==> !Touches(w, i)) ==>
         after[i] == before[i])
  }

  /** A byte of an earlier slot is not the last slot's. */
  lemma OnlyOneTouches(ws: seq<Write>, w: Write, i: nat)
    requires ws != [] && AllApart(ws) && w in ws && w != ws[|ws| - 1] && Touches(w, i)
    ensures w in ws[..|ws| - 1] && !Touches(ws[|ws| - 1], i)
  {
    var k :| 0 <= k < |ws| && ws[k] == w;
    assert ws[..|ws| - 1][k] == w;
    assert HostApart(ws[k], ws[|ws| - 1]);
  }

  lemma {:induction false} ApplyAssigns(bytes: seq<byte>, ws: seq<Write>)
    requires InHost(ws, |bytes|) && AllApart(ws)
    ensures Assigned(bytes, Apply(bytes, ws), ws)
  {
    hide Data;
    if ws != [] {
      var n := |ws| - 1;
      var rest := ws[..n];
      ApplyAssigns(bytes, rest);
      var before, after := Apply(bytes, rest), Apply(bytes, ws);
      forall w, i: nat | w in ws && Touches(w, i) && i < |after| ensures after[i] == Data(w)[i - w.target] {
        if w != ws[n] { OnlyOneTouches(ws, w, i); }
      }
      forall i: nat | i < |after| && (forall w :: w in ws ==> !Touches(w, i)) ensures after[i] == bytes[i] {
        assert !Touches(ws[n], i);
        forall w | w in rest ensures !Touches(w, i) { assert w in ws; }
      }
    }
  }

  /** Memory with the same assignments is the same memory. */
  lemma AssignedUnique(before: seq<byte>, a: seq<byte>, b: seq<byte>, ws: seq<Write>, vs: seq<Write>)
    requires Assigned(before, a, ws) && Assigned(before, b, vs) && (forall w :: w in ws <==> w in vs)
    ensures a == b
  {
    forall i: nat | i < |a| ensures a[i] == b[i] {
      if w :| w in ws && Touches(w, i) {
        assert a[i] == Data(w)[i - w.target];
      }
    }
  }

  /** Committing in any order gives the same memory. */
  lemma OrderIrrelevant(bytes: seq<byte>, ws: seq<Write>, vs: seq<Write>)
    requires InHost(ws, |bytes|) && InHost(vs, |bytes|) && AllApart(ws) && AllApart(vs) && multiset(ws) == multiset(vs)
    ensures Apply(bytes, ws) == Apply(bytes, vs)
  {
    ApplyAssigns(bytes, ws);
    ApplyAssigns(bytes, vs);
    forall w ensures w in ws <==> w in vs { assert w in ws <==> w in multiset(ws); }
    AssignedUnique(bytes, Apply(bytes, ws), Apply(bytes, vs), ws, vs);
  }

  // ---- committing ----

  lemma {:induction false} BytesTail(v: nat, n: nat, i: nat, rest: nat)
    requires i < n && Bytes(v, n)[i..] == Bytes(rest, n - i)
    ensures Bytes(v, n)[i] == (rest % 256) as byte && Bytes(v, n)[i + 1..] == Bytes(rest / 256, n - i - 1)
  {
    assert Bytes(v, n)[i] == Bytes(v, n)[i..][0];
    assert Bytes(v, n)[i + 1..] == Bytes(v, n)[i..][1..];
  }

  method Store(heap: array<byte>, at: nat, v: nat)
    requires at + 8 <= heap.Length
    modifies heap
    ensures heap[..] == Splice(old(heap[..]), at, Bytes(v, 8))
  {
    var rest := v;
    for i := 0 to 8
      invariant Bytes(v, 8)[i..] == Bytes(rest, 8 - i)
      invariant forall j :: 0 <= j < heap.Length ==>
                  heap[j] == if at <= j < at + i then Bytes(v, 8)[j - at] else old(heap[j])
    {
      BytesTail(v, 8, i, rest);
      heap[at + i] := (rest % 256) as byte;
      rest := rest / 256;
    }
  }

  lemma SplicePair(bytes: seq<byte>, at: nat, a: seq<byte>, b: seq<byte>)
    requires at + |a| + |b| <= |bytes|
    ensures Splice(Splice(bytes, at, a), at + |a|, b) == Splice(bytes, at, a + b)
  {
  }

  method Commit(heap: array<byte>, ws: seq<Write>)
    requires InHost(ws, heap.Length)
    modifies heap
    ensures heap[..] == Apply(old(heap[..]), ws)
  {
    for i := 0 to |ws|
      invariant heap[..] == Apply(old(heap[..]), ws[..i])
    {
      assert ws[i] in ws && ws[..i + 1][..i] == ws[..i];
      ghost var before := heap[..];
      Store(heap, ws[i].target, ws[i].value);
      if Width(ws[i].kind) == 16 {
        Store(heap, ws[i].target + 8, ws[i].argument);
        SplicePair(before, ws[i].target, Bytes(ws[i].value, 8), Bytes(ws[i].argument, 8));
      }
    }
    assert ws[..|ws|] == ws;
  }

  // ---- the whole relocation ----

  datatype Tables = Tables(relr: seq<nat>, rela: seq<Rela>, plt: seq<Rela>)

  function Plan(s: Setting, t: Tables): (r: Result<seq<Write>>)
    requires SettingOk(s)
  {
    var first := PlanRelr(s, t.relr);
    if first.Err? then first
    else
      var second := PlanRela(s, t.rela);
      if second.Err? then second
      else
        var third := PlanRela(s, t.plt);
        if third.Err? then third else Ok(first.value + second.value + third.value)
  }

  function Capacity(t: Tables): nat {
    |t.rela| + |t.plt| + 63 * |t.relr|
  }

  predicate WithinLimits(t: Tables) {
    |t.rela| + |t.plt| <= RELOCATION_LIMIT && |t.relr| <= RELOCATION_LIMIT / 63 && Capacity(t) <= RELOCATION_LIMIT
  }

  /** The plan never outgrows the room reserved for it, and each of its writes has its place in a region. */
  lemma PlanFits(s: Setting, t: Tables)
    requires SettingOk(s) && Plan(s, t).Ok?
    ensures |Plan(s, t).value| <= Capacity(t) && AllPlanned(s, Plan(s, t).value) && InHost(Plan(s, t).value, |s.bytes|)
  {
    PlanAllPlanned(s, Decoded(t.relr, |t.relr|));
    PlanRelaPlanned(s, t.rela);
    PlanRelaPlanned(s, t.plt);
    hide PlanAll, PlanRela, WellFormed, Decoded;
    var ws := Plan(s, t).value;
    forall w | w in ws ensures Planned(s, w) && w.target + Width(w.kind) <= |s.bytes| {
      assert Planned(s, w);
      PlannedInHost(s, w);
    }
  }

  lemma PlannedInHost(s: Setting, w: Write)
    requires SettingOk(s) && Planned(s, w)
    ensures w.target + Width(w.kind) <= |s.bytes|
  {
    var imageData: nat, imageSize: nat :| MemoryOk(s.segments, s.regions, |s.regions|, |s.bytes|, imageData, imageSize);
    var k :| 0 <= k < |s.regions| && Backs(s.segments, s.regions[k], w.address, Width(w.kind))
             && w.target == s.regions[k].data + (w.address - s.segments[s.regions[k].segment].address);
    assert RegionOk(s.segments, s.regions[k], |s.bytes|, imageData, imageSize);
  }

  ghost predicate AllBind(b: Bindings, ws: seq<Write>) {
    forall i {:trigger ws[i]} :: 0 <= i < |ws| ==> Bind(b, ws[i]).Ok?
  }

  ghost function Bound(b: Bindings, ws: seq<Write>): (r: seq<Write>)
    requires AllBind(b, ws)
    ensures |r| == |ws|
    ensures forall i {:trigger r[i]} :: 0 <= i < |r| ==> r[i] == Bind(b, ws[i]).value
  {
    seq(|ws|, i requires 0 <= i < |ws| => Bind(b, ws[i]).value)
  }

  method BindValues(b: Bindings, ws: seq<Write>) returns (r: Result<seq<Write>>)
    ensures r.Ok? <==> AllBind(b, ws)
    ensures r.Ok? ==> r.value == Bound(b, ws)
  {
    var bound := [];
    for i := 0 to |ws|
      invariant |bound| == i && AllBind(b, ws[..i])
      invariant forall j {:trigger bound[j]} :: 0 <= j < i ==> bound[j] == Bind(b, ws[j]).value
    {
      var one := Bind(b, ws[i]);
      if one.Err? { return Err(one.error); }
      bound := bound + [one.value];
      var done := ws[..i + 1];
      forall j | 0 <= j < |done| ensures Bind(b, done[j]).Ok? { assert j < i ==> ws[..i][j] == done[j]; }
    }
    assert ws[..|ws|] == ws;
    r := Ok(bound);
  }

  /** Binding changes what is written, not where. */
  lemma BindPlace(b: Bindings, w: Write)
    requires Bind(b, w).Ok?
    ensures Bind(b, w).value.target == w.target && Bind(b, w).value.kind == w.kind
            && Bind(b, w).value.address == w.address
  {
  }

  lemma BoundPlaces(b: Bindings, ws: seq<Write>, size: nat)
    requires AllBind(b, ws) && AllApart(ws) && InHost(ws, size)
    ensures AllApart(Bound(b, ws)) && InHost(Bound(b, ws), size)
  {
    hide Bind;
    var r := Bound(b, ws);
    forall i | 0 <= i < |r|
      ensures r[i].target == ws[i].target && r[i].kind == ws[i].kind && ws[i] in ws
    {
      BindPlace(b, ws[i]);
    }
    forall w | w in r ensures w.target + Width(w.kind) <= size {
      var i :| 0 <= i < |r| && r[i] == w;
      assert ws[i].target + Width(ws[i].kind) <= size;
    }
    forall i, j | 0 <= i < j < |r| ensures HostApart(r[i], r[j]) { assert HostApart(ws[i], ws[j]); }
  }

  // ---- what relocation means ----

  predicate Inside(segments: seq<Segment>, r: Region, address: nat, width: nat) {
    && r.segment < |segments|
    && segments[r.segment].address <= address && address + width <= segments[r.segment].address + r.size
  }

  /** Where the bytes at an address are in the host: the first region they lie in says so. */
  ghost predicate Place(segments: seq<Segment>, regions: seq<Region>, address: nat, width: nat, at: nat) {
    && address + width < U64_LIMIT
    && exists k :: 0 <= k < |regions| && Inside(segments, regions[k], address, width)
                   && at == regions[k].data + (address - segments[regions[k].segment].address)
                   && forall j :: 0 <= j < k ==> !Inside(segments, regions[j], address, width)
  }

  ghost predicate HasPlace(segments: seq<Segment>, regions: seq<Region>, address: nat, width: nat) {
    exists at :: Place(segments, regions, address, width, at)
  }

  function Word(bytes: seq<byte>, at: nat): nat
    requires at + 8 <= |bytes|
  {
    Value(bytes[at..at + 8])
  }

  predicate Clear(a: nat, an: nat, b: nat, bn: nat) {
    a + an <= b || b + bn <= a
  }

  /** The bytes an entry overwrites: a TLS descriptor has two words. */
  function EntryWidth(e: Rela): nat {
    if e.code == 1031 then 16 else 8
  }

  /** An entry of a known kind, for a symbol there is, with a slot in writable memory and a value to put there. */
  ghost predicate EntryFits(segments: seq<Segment>, regions: seq<Region>, symbolCount: nat, b: Bindings, e: Rela) {
    e.code != 0 ==>
      && e.symbol < symbolCount && HasPlace(segments, regions, e.address, EntryWidth(e))
      && (|| (e.code == 1027 && e.symbol == 0)
          || (e.code in {257, 1025, 1026} && b.resolve(e.symbol).Ok?)
          || (&& e.code == 1031 && b.tls.Some? && b.tls.value(e.symbol, e.addend).Ok?
              && b.tls.value(e.symbol, e.addend).value.0 != 0 && b.tls.value(e.symbol, e.addend).value.0 % 4 == 0))
  }

  ghost predicate EntriesClear(entries: seq<Rela>) {
    forall i, j {:trigger entries[i], entries[j]} ::
          0 <= i < j < |entries| && entries[i].code != 0 && entries[j].code != 0 ==>
      Clear(entries[i].address, EntryWidth(entries[i]), entries[j].address, EntryWidth(entries[j]))
  }

  /** No two words of the table denote overlapping slots. */
  ghost predicate RelrClear(words: seq<nat>, n: nat)
    requires n <= |words|
  {
    forall i, j, a, c {:trigger DenotedBy(words, i, a), DenotedBy(words, j, c)} ::
      0 <= i < j < n && DenotedBy(words, i, a) && DenotedBy(words, j, c) ==> Clear(a, 8, c, 8)
  }

  ghost predicate CrossClear(words: seq<nat>, entries: seq<Rela>) {
    forall a, e {:trigger Denotes(words, a), e in entries} ::
      Denotes(words, a) && e in entries && e.code != 0 ==> Clear(a, 8, e.address, EntryWidth(e))
  }

  /** Exactly when relocation succeeds. */
  ghost predicate Acceptable(segments: seq<Segment>, regions: seq<Region>, host: nat, imageData: nat, imageSize: nat,
      symbolCount: nat, t: Tables, b: Bindings) {
    && symbolCount > 0 && |regions| <= |segments|
    && MemoryOk(segments, regions, |regions|, host, imageData, imageSize)
    && |t.rela| + |t.plt| + 63 * |t.relr| <= RELOCATION_LIMIT
    && WellFormed(t.relr, |t.relr|) && (forall a :: Denotes(t.relr, a) ==> HasPlace(segments, regions, a, 8))
    && (forall e :: e in t.rela + t.plt ==> EntryFits(segments, regions, symbolCount, b, e))
    && RelrClear(t.relr, |t.relr|) && EntriesClear(t.rela + t.plt) && CrossClear(t.relr, t.rela + t.plt)
  }

  /** A RELR slot gets the load bias on top of what it held. */
  ghost predicate Rebased(segments: seq<Segment>, regions: seq<Region>, bias: nat, a: nat, before: seq<byte>,
      after: seq<byte>) {
    exists at: nat :: Place(segments, regions, a, 8, at) && at + 8 <= |before| && at + 8 <= |after|
                 && Word(after, at) == (Word(before, at) + bias) % U64_LIMIT
  }

  /** An entry's slot gets addend plus bias, addend plus what the symbol resolves to, or what the descriptor is bound
      to. */
  ghost predicate EntryDone(segments: seq<Segment>, regions: seq<Region>, b: Bindings, e: Rela, after: seq<byte>) {
    exists at: nat :: Place(segments, regions, e.address, EntryWidth(e), at) && at + EntryWidth(e) <= |after|
                 && (e.code == 1027 ==> Word(after, at) == (e.addend + b.bias) % U64_LIMIT)
                 && (e.code in {257, 1025, 1026} ==>
                      && b.resolve(e.symbol).Ok?
                      && Word(after, at) == (e.addend + b.resolve(e.symbol).value) % U64_LIMIT)
                 && (e.code == 1031 ==>
                      && b.tls.Some? && b.tls.value(e.symbol, e.addend).Ok?
                      && (Word(after, at), Word(after, at + 8)) == b.tls.value(e.symbol, e.addend).value)
  }

  /** Byte `i` of the host belongs to the slot of some entry or RELR address. */
  ghost predicate InSlot(segments: seq<Segment>, regions: seq<Region>, t: Tables, i: nat) {
    || (exists a: nat, at: nat :: Denotes(t.relr, a) && Place(segments, regions, a, 8, at) && at <= i < at + 8)
    || (exists e, at: nat ::
         e in t.rela + t.plt && e.code != 0 && Place(segments, regions, e.address, EntryWidth(e), at)
                        && at <= i < at + EntryWidth(e))
  }

  /** `after` is `before` with every slot computed from `before`, and nothing else changed. */
  ghost predicate RelocatedTo(segments: seq<Segment>, regions: seq<Region>, t: Tables, b: Bindings, before: seq<byte>,
      after: seq<byte>) {
    && |after| == |before|
    && (forall a :: Denotes(t.relr, a) ==> Rebased(segments, regions, b.bias, a, before, after))
    && (forall e :: e in t.rela + t.plt && e.code != 0 ==> EntryDone(segments, regions, b, e, after))
    && (forall i: nat {:trigger after[i]} :: i < |after| && !InSlot(segments, regions, t, i) ==> after[i] == before[i])
  }

  // ---- places ----

  lemma PlaceIsTarget(segments: seq<Segment>, regions: seq<Region>, address: nat, width: nat, at: nat)
    ensures Place(segments, regions, address, width, at) <==> Target(segments, regions, address, width) == Some(at)
  {
    hide Backs, Inside, Backing;
    forall r ensures Inside(segments, r, address, width) <==> Backs(segments, r, address, width) {
      BacksInside(segments, r, address, width);
    }
    BackingIsFirst(segments, regions, address, width);
  }

  lemma BacksInside(segments: seq<Segment>, r: Region, address: nat, width: nat)
    ensures Inside(segments, r, address, width) <==> Backs(segments, r, address, width)
  {
  }

  lemma BackingIsFirst(segments: seq<Segment>, regions: seq<Region>, address: nat, width: nat)
    ensures var k := Backing(segments, regions, address, width);
            && k <= |regions| && (k < |regions| ==> Backs(segments, regions[k], address, width))
            && forall j :: 0 <= j < k ==> !Backs(segments, regions[j], address, width)
  {
  }

  lemma HasPlaceIsTarget(segments: seq<Segment>, regions: seq<Region>, address: nat, width: nat)
    ensures HasPlace(segments, regions, address, width) <==> Target(segments, regions, address, width).Some?
  {
    hide Target, Place;
    if Target(segments, regions, address, width).Some? {
      PlaceIsTarget(segments, regions, address, width, Target(segments, regions, address, width).value);
    }
    forall at | Place(segments, regions, address, width, at) ensures Target(segments, regions, address, width).Some? {
      PlaceIsTarget(segments, regions, address, width, at);
    }
  }

  // ---- the plan, slot by slot ----

  /** The write an entry asks for; a RELR slot's addend is what it holds. */
  ghost predicate Wanted(s: Setting, address: nat, code: nat, symbol: nat, addend: Option<nat>, w: Write) {
    && w.address == address && w.kind == KindOf(code) && w.symbol == symbol && w.argument == 0
    && Place(s.segments, s.regions, address, if code == 1031 then 16 else 8, w.target)
    && w.target + 8 <= |s.bytes| && w.value == if addend.Some? then addend.value else Word(s.bytes, w.target)
  }

  lemma PlanOneIs(s: Setting, address: nat, code: nat, symbol: nat, addend: Option<nat>)
    requires SettingOk(s)
    ensures var r := PlanOne(s, address, code, symbol, addend);
            && (code == 0 ==> r == Ok([]))
            && (code != 0 ==>
                 (r.Ok? <==>
                   && code in {257, 1025, 1026, 1027, 1031} && symbol < s.symbolCount && (code == 1027 ==> symbol == 0)
                   && HasPlace(s.segments, s.regions, address, if code == 1031 then 16 else 8)))
            && (code != 0 && r.Ok? ==> |r.value| == 1 && Wanted(s, address, code, symbol, addend, r.value[0]))
  {
    var width := if code == 1031 then 16 else 8;
    HasPlaceIsTarget(s.segments, s.regions, address, width);
    var where := Target(s.segments, s.regions, address, width);
    if where.Some? { PlaceIsTarget(s.segments, s.regions, address, width, where.value); }
    if where.Some? { TargetInHost(s, address, width); }
    hide Target, Place, HasPlace, SettingOk, Planned;
  }

  /** Every pair of writes is to addresses that do not overlap. */
  ghost predicate Spread(ws: seq<Write>) {
    forall i, j {:trigger ws[i], ws[j]} :: 0 <= i < j < |ws| ==> AddressesApart(ws[i], ws[j])
  }

  ghost predicate AllClear(ws: seq<Write>, vs: seq<Write>) {
    forall w, v :: w in ws && v in vs ==> AddressesApart(w, v)
  }

  lemma SpreadConcat(ws: seq<Write>, vs: seq<Write>)
    ensures Spread(ws + vs) <==> Spread(ws) && Spread(vs) && AllClear(ws, vs)
  {
    hide AddressesApart;
    var all := ws + vs;
    if Spread(all) {
      forall i, j | 0 <= i < j < |ws|
        ensures AddressesApart(ws[i], ws[j])
      {
        assert all[i] == ws[i] && all[j] == ws[j];
      }
      forall i, j | 0 <= i < j < |vs| ensures AddressesApart(vs[i], vs[j]) {
        assert all[|ws| + i] == vs[i] && all[|ws| + j] == vs[j];
      }
      forall w, v | w in ws && v in vs ensures AddressesApart(w, v) {
        var i :| 0 <= i < |ws| && ws[i] == w;
        var j :| 0 <= j < |vs| && vs[j] == v;
        assert all[i] == w && all[|ws| + j] == v;
      }
    }
    if Spread(ws) && Spread(vs) && AllClear(ws, vs) {
      forall i, j | 0 <= i < j < |all| ensures AddressesApart(all[i], all[j]) {
        if j < |ws| {
          assert all[i] == ws[i] && all[j] == ws[j];
        } else if i >= |ws| {
          assert all[i] == vs[i - |ws|] && all[j] == vs[j - |ws|];
        } else {
          assert all[i] == ws[i] && all[j] == vs[j - |ws|] && ws[i] in ws && vs[j - |ws|] in vs;
        }
      }
    }
  }

  lemma {:induction false} InsertSpread(w: Write, ws: seq<Write>)
    ensures Spread(Insert(w, ws)) <==> Spread([w] + ws)
  {
    if ws != [] && w.address > ws[0].address {
      var head, rest := [ws[0]], ws[1..];
      InsertSpread(w, rest);
      InsertMembers(w, rest);
      var r := Insert(w, rest);
      assert Insert(w, ws) == head + r && ws == head + rest;
      hide Insert;
      forall x ensures x in r <==> x == w || x in rest {
        assert x in r <==> x in multiset(r);
        assert x in rest <==> x in multiset(rest);
      }
      hide Spread;
      SpreadConcat(head, r);
      SpreadConcat([w], rest);
      SpreadConcat(head, rest);
      SpreadConcat([w], ws);
      SpreadOne(ws[0]);
      SpreadOne(w);
      assert AllClear(head, r) <==> AddressesApart(ws[0], w) && AllClear(head, rest);
      assert AllClear([w], ws) <==> AddressesApart(w, ws[0]) && AllClear([w], rest) by {
        assert forall x :: x in ws <==> x == ws[0] || x in rest;
      }
    }
  }

  lemma SpreadOne(w: Write)
    ensures Spread([w])
  {
  }

  lemma {:induction false} SortSpread(ws: seq<Write>)
    ensures Spread(SortByAddress(ws)) <==> Spread(ws)
  {
    if ws != [] {
      var head, rest := ws[0], ws[1..];
      var r := SortByAddress(rest);
      SortSpread(rest);
      SortOrdered(rest);
      InsertSpread(head, r);
      assert ws == [head] + rest;
      forall x ensures x in r <==> x in rest {
        assert x in r <==> x in multiset(r);
        assert x in rest <==> x in multiset(rest);
      }
      hide Insert, Spread;
      SpreadConcat([head], r);
      SpreadConcat([head], rest);
    }
  }

  /** Adjacent gaps in a sorted plan are exactly that no two writes overlap. */
  lemma GapsAreSpread(ws: seq<Write>)
    requires Ordered(ws)
    ensures GapsOk(ws) <==> Spread(ws)
  {
    if GapsOk(ws) {
      forall i, j | 0 <= i < j < |ws| ensures AddressesApart(ws[i], ws[j]) { GapsApart(ws, i, j); }
    }
    if Spread(ws) {
      forall i | 0 < i < |ws| ensures ws[i].address - ws[i - 1].address >= Width(ws[i - 1].kind) {
        assert AddressesApart(ws[i - 1], ws[i]);
      }
    }
  }

  /** The plan an entry asks for. */
  function PlanEntry(s: Setting, e: Rela): Result<seq<Write>>
    requires SettingOk(s)
  {
    PlanOne(s, e.address, e.code, e.symbol, Some(e.addend))
  }

  ghost predicate Yields(s: Setting, entries: seq<Rela>, w: Write)
    requires SettingOk(s)
  {
    exists e :: e in entries && PlanEntry(s, e) == Ok([w])
  }

  lemma EntryYields(s: Setting, e: Rela, w: Write)
    requires SettingOk(s) && PlanEntry(s, e) == Ok([w])
    ensures e.code != 0 && w.address == e.address && Width(w.kind) == EntryWidth(e)
            && Wanted(s, e.address, e.code, e.symbol, Some(e.addend), w)
  {
    PlanOneIs(s, e.address, e.code, e.symbol, Some(e.addend));
    hide PlanOne, Place, SettingOk;
  }

  lemma EntryPlans(s: Setting, e: Rela)
    requires SettingOk(s) && PlanEntry(s, e).Ok?
    ensures if e.code == 0 then PlanEntry(s, e).value == [] else PlanEntry(s, e) == Ok([PlanEntry(s, e).value[0]])
  {
    PlanOneIs(s, e.address, e.code, e.symbol, Some(e.addend));
    hide PlanOne, Place, SettingOk;
  }

  lemma {:induction false} PlanRelaIs(s: Setting, entries: seq<Rela>)
    requires SettingOk(s)
    ensures PlanRela(s, entries).Ok? <==> forall e :: e in entries ==> PlanEntry(s, e).Ok?
    ensures PlanRela(s, entries).Ok? ==>
              && (forall w {:trigger w in PlanRela(s, entries).value} ::
                   w in PlanRela(s, entries).value <==> Yields(s, entries, w))
              && (Spread(PlanRela(s, entries).value) <==> EntriesClear(entries))
  {
    if entries != [] {
      var rest, e := entries[..|entries| - 1], entries[|entries| - 1];
      PlanRelaIs(s, rest);
      assert entries == rest + [e];
      assert PlanRela(s, entries) == if PlanRela(s, rest).Err? then PlanRela(s, rest)
                                     else if PlanEntry(s, e).Err? then PlanEntry(s, e)
                                     else Ok(PlanRela(s, rest).value + PlanEntry(s, e).value);
      hide PlanRela, PlanEntry, Spread, EntriesClear, SettingOk;
      if PlanRela(s, rest).Ok? && PlanEntry(s, e).Ok? {
        EntryPlans(s, e);
        var ws, one := PlanRela(s, rest).value, PlanEntry(s, e).value;
        forall w ensures w in ws + one <==> Yields(s, entries, w) {
          assert w in one ==> one == [w];
          assert Yields(s, entries, w) <==> Yields(s, rest, w) || PlanEntry(s, e) == Ok([w]);
        }
        SpreadConcat(ws, one);
        EntriesSpread(s, rest, e, ws, one);
      }
    }
  }

  lemma EntriesSpread(s: Setting, rest: seq<Rela>, e: Rela, ws: seq<Write>, one: seq<Write>)
    requires SettingOk(s) && PlanEntry(s, e) == Ok(one)
    requires forall x :: x in rest ==> PlanEntry(s, x).Ok?
    requires forall w :: w in ws <==> Yields(s, rest, w)
    ensures Spread(one) && (EntriesClear(rest + [e]) <==> EntriesClear(rest) && AllClear(ws, one))
  {
    hide PlanEntry, SettingOk;
    EntryPlans(s, e);
    var all := rest + [e];
    if e.code != 0 { EntryYields(s, e, one[0]); }
    hide Wanted;
    if EntriesClear(all) {
      forall i, j | 0 <= i < j < |rest| && rest[i].code != 0 && rest[j].code != 0
        ensures Clear(rest[i].address, EntryWidth(rest[i]), rest[j].address, EntryWidth(rest[j])) {
        assert all[i] == rest[i] && all[j] == rest[j];
      }
      forall w, v | w in ws && v in one ensures AddressesApart(w, v) {
        var x :| x in rest && PlanEntry(s, x) == Ok([w]);
        EntryYields(s, x, w);
        var i :| 0 <= i < |rest| && rest[i] == x;
        assert all[i] == x && all[|rest|] == e;
      }
    }
    if EntriesClear(rest) && AllClear(ws, one) {
      forall i, j | 0 <= i < j < |all| && all[i].code != 0 && all[j].code != 0
        ensures Clear(all[i].address, EntryWidth(all[i]), all[j].address, EntryWidth(all[j])) {
        var x := all[i];
        if j == |rest| {
          assert x == rest[i] && x in rest;
          EntryPlans(s, x);
          var w := PlanEntry(s, x).value[0];
          assert PlanEntry(s, x) == Ok([w]);
          EntryYields(s, x, w);
          assert w in ws && one[0] in one;
          assert AddressesApart(w, one[0]);
        } else {
          assert x == rest[i] && all[j] == rest[j];
        }
      }
    }
  }

  lemma PlanRelaOne(s: Setting, xs: seq<Rela>, x: Rela)
    requires SettingOk(s)
    ensures PlanRela(s, xs + [x]) == if PlanRela(s, xs).Err? then PlanRela(s, xs)
                                     else if PlanEntry(s, x).Err? then PlanEntry(s, x)
                                     else Ok(PlanRela(s, xs).value + PlanEntry(s, x).value)
  {
    assert (xs + [x])[..|xs|] == xs;
  }

  /** Two tables, one after the other, are one table. */
  lemma {:induction false} PlanRelaConcat(s: Setting, xs: seq<Rela>, ys: seq<Rela>)
    requires SettingOk(s)
    ensures PlanRela(s, xs + ys) == if PlanRela(s, xs).Err? then PlanRela(s, xs)
                                    else if PlanRela(s, ys).Err? then PlanRela(s, ys)
                                    else Ok(PlanRela(s, xs).value + PlanRela(s, ys).value)
    decreases |ys|
  {
    hide PlanOne;
    if ys == [] {
      assert xs + ys == xs;
      if PlanRela(s, xs).Ok? { assert PlanRela(s, xs).value + [] == PlanRela(s, xs).value; }
    } else {
      var n := |ys| - 1;
      var some, last := ys[..n], ys[n];
      hide *;
      assert ys == some + [last] && xs + ys == (xs + some) + [last];
      PlanRelaConcat(s, xs, some);
      PlanRelaOne(s, xs + some, last);
      PlanRelaOne(s, some, last);
      if PlanRela(s, xs).Ok? && PlanRela(s, ys).Ok? {
        var a, c, d := PlanRela(s, xs).value, PlanRela(s, some).value, PlanEntry(s, last).value;
        assert (a + c) + d == a + (c + d);
      }
    }
  }

  ghost predicate AddressesClear(addresses: seq<nat>) {
    forall i, j {:trigger addresses[i], addresses[j]} :: 0 <= i < j < |addresses| ==>
      Clear(addresses[i], 8, addresses[j], 8)
  }

  ghost predicate BothClear(xs: seq<nat>, ys: seq<nat>) {
    forall x, y :: x in xs && y in ys ==> Clear(x, 8, y, 8)
  }

  lemma AddressesConcat(xs: seq<nat>, ys: seq<nat>)
    ensures AddressesClear(xs + ys) <==> AddressesClear(xs) && AddressesClear(ys) && BothClear(xs, ys)
  {
    hide Clear;
    var all := xs + ys;
    if AddressesClear(all) {
      forall i, j | 0 <= i < j < |xs| ensures Clear(xs[i], 8, xs[j], 8) { assert all[i] == xs[i] && all[j] == xs[j]; }
      forall i, j | 0 <= i < j < |ys| ensures Clear(ys[i], 8, ys[j], 8) {
        assert all[|xs| + i] == ys[i] && all[|xs| + j] == ys[j];
      }
      forall x, y | x in xs && y in ys ensures Clear(x, 8, y, 8) {
        var i :| 0 <= i < |xs| && xs[i] == x;
        var j :| 0 <= j < |ys| && ys[j] == y;
        assert all[i] == x && all[|xs| + j] == y;
      }
    }
    if AddressesClear(xs) && AddressesClear(ys) && BothClear(xs, ys) {
      forall i, j | 0 <= i < j < |all| ensures Clear(all[i], 8, all[j], 8) {
        if j < |xs| {
          assert all[i] == xs[i] && all[j] == xs[j];
        } else if i >= |xs| {
          assert all[i] == ys[i - |xs|] && all[j] == ys[j - |xs|];
        } else {
          assert all[i] == xs[i] && all[j] == ys[j - |xs|] && xs[i] in xs && ys[j - |xs|] in ys;
        }
      }
    }
  }

  /** The slots of one bitmap never overlap. */
  lemma {:induction false} MapClear(word: nat, cursor: nat, n: nat)
    requires 1 <= n <= 64
    ensures AddressesClear(MapAddresses(word, cursor, n))
  {
    if n > 1 {
      MapClear(word, cursor, n - 1);
      var rest := MapAddresses(word, cursor, n - 1);
      AddressesConcat(rest, [cursor + 8 * (n - 2)]);
      hide AddressesClear;
      forall x | x in rest ensures Clear(x, 8, cursor + 8 * (n - 2), 8) {
        var b: nat :| 1 <= b < n - 1 && Bit(word, b) && x == cursor + 8 * (b - 1);
      }
      assert AddressesClear([cursor + 8 * (n - 2)]) by { ClearOne(cursor + 8 * (n - 2)); }
    }
  }

  lemma ClearOne(a: nat)
    ensures AddressesClear([a])
  {
  }

  lemma StepIs(words: seq<nat>, k: nat)
    requires k < |words|
    ensures AddressesClear(Step(words, k))
    ensures forall a: nat {:trigger a in Step(words, k)} :: a in Step(words, k) <==> DenotedBy(words, k, a)
  {
    if words[k] % 2 != 0 { MapClear(words[k], MapStart(words, k), 64); }
  }

  /** The decoded addresses are slots that do not overlap exactly when no two words denote overlapping ones. */
  lemma {:induction false} DecodedClear(words: seq<nat>, k: nat)
    requires k <= |words|
    ensures AddressesClear(Decoded(words, k)) <==> RelrClear(words, k)
  {
    if k > 0 {
      var n := k - 1;
      DecodedClear(words, n);
      StepIs(words, n);
      DecodedNext(words, n, k);
      AddressesConcat(Decoded(words, n), Step(words, n));
      forall a: nat ensures a in Decoded(words, n) <==> exists j :: 0 <= j < n && DenotedBy(words, j, a) {
        DecodedIsDenoted(words, n, a);
      }
      hide Decoded, Step, AddressesClear, DenotedBy, Clear;
      assert RelrClear(words, k) <==> RelrClear(words, n) && BothClear(Decoded(words, n), Step(words, n));
    }
  }

  ghost predicate RelrYields(s: Setting, addresses: seq<nat>, w: Write)
    requires SettingOk(s)
  {
    exists a :: a in addresses && PlanOne(s, a, 1027, 0, None) == Ok([w])
  }

  lemma RelrOne(s: Setting, a: nat)
    requires SettingOk(s) && s.symbolCount > 0
    ensures var r := PlanOne(s, a, 1027, 0, None);
            && (r.Ok? <==> HasPlace(s.segments, s.regions, a, 8))
            && (r.Ok? ==> r == Ok([r.value[0]]) && Wanted(s, a, 1027, 0, None, r.value[0]))
  {
    PlanOneIs(s, a, 1027, 0, None);
    hide PlanOne, Place, SettingOk, Wanted;
  }

  lemma {:induction false} PlanAllIs(s: Setting, addresses: seq<nat>)
    requires SettingOk(s) && s.symbolCount > 0
    ensures PlanAll(s, addresses).Ok? <==> forall a :: a in addresses ==> HasPlace(s.segments, s.regions, a, 8)
    ensures PlanAll(s, addresses).Ok? ==>
              && (forall w {:trigger w in PlanAll(s, addresses).value} ::
                   w in PlanAll(s, addresses).value <==> RelrYields(s, addresses, w))
              && (Spread(PlanAll(s, addresses).value) <==> AddressesClear(addresses))
  {
    if addresses == [] {
      PlanAllNone(s);
    } else {
      var rest, a := addresses[..|addresses| - 1], addresses[|addresses| - 1];
      PlanAllIs(s, rest);
      assert addresses == rest + [a];
      PlanAllOne(s, rest, a);
      RelrOne(s, a);
      hide PlanAll, PlanOne, Spread, AddressesClear, SettingOk, HasPlace;
      if PlanAll(s, rest).Ok? && PlanOne(s, a, 1027, 0, None).Ok? {
        var ws, one := PlanAll(s, rest).value, PlanOne(s, a, 1027, 0, None).value;
        forall w ensures w in ws + one <==> RelrYields(s, addresses, w) {
          assert w in one ==> one == [w];
          assert RelrYields(s, addresses, w) <==> RelrYields(s, rest, w) || PlanOne(s, a, 1027, 0, None) == Ok([w]);
        }
        SpreadConcat(ws, one);
        AddressesConcat(rest, [a]);
        RelrSpread(s, rest, a, ws, one);
      }
    }
  }

  lemma RelrSpread(s: Setting, rest: seq<nat>, a: nat, ws: seq<Write>, one: seq<Write>)
    requires SettingOk(s) && s.symbolCount > 0 && PlanOne(s, a, 1027, 0, None) == Ok(one)
    requires forall x :: x in rest ==> HasPlace(s.segments, s.regions, x, 8)
    requires forall w :: w in ws <==> RelrYields(s, rest, w)
    ensures Spread(one) && AddressesClear([a]) && (BothClear(rest, [a]) <==> AllClear(ws, one))
  {
    RelrOne(s, a);
    SpreadOne(one[0]);
    ClearOne(a);
    hide PlanOne, SettingOk, HasPlace, Place, Spread, AddressesClear;
    assert one == [one[0]];
    if BothClear(rest, [a]) {
      forall w, v | w in ws && v in one ensures AddressesApart(w, v) {
        var x :| x in rest && PlanOne(s, x, 1027, 0, None) == Ok([w]);
        RelrOne(s, x);
        assert Clear(x, 8, a, 8);
      }
    }
    if AllClear(ws, one) {
      forall x, y | x in rest && y in [a] ensures Clear(x, 8, y, 8) {
        RelrOne(s, x);
        var w := PlanOne(s, x, 1027, 0, None).value[0];
        assert PlanOne(s, x, 1027, 0, None) == Ok([w]);
        assert w in ws && one[0] in one;
        assert AddressesApart(w, one[0]);
      }
    }
  }

  /** The whole plan, slot by slot. */
  lemma PlanIs(s: Setting, t: Tables)
    requires SettingOk(s) && s.symbolCount > 0
    ensures Plan(s, t).Ok? <==>
              && WellFormed(t.relr, |t.relr|)
              && (forall a :: Denotes(t.relr, a) ==> HasPlace(s.segments, s.regions, a, 8))
              && (forall e :: e in t.rela + t.plt ==> PlanEntry(s, e).Ok?)
    ensures Plan(s, t).Ok? ==>
              && (forall w {:trigger w in Plan(s, t).value} ::
                   w in Plan(s, t).value <==> DenotedYields(s, t.relr, w) || Yields(s, t.rela + t.plt, w))
              && (Spread(Plan(s, t).value) <==>
                   RelrClear(t.relr, |t.relr|) && EntriesClear(t.rela + t.plt) && CrossClear(t.relr, t.rela + t.plt))
  {
    var entries, decoded := t.rela + t.plt, Decoded(t.relr, |t.relr|);
    forall a: nat ensures a in decoded <==> Denotes(t.relr, a) { DecodedIsDenoted(t.relr, |t.relr|, a); }
    DecodedClear(t.relr, |t.relr|);
    PlanAllIs(s, decoded);
    PlanRelaConcat(s, t.rela, t.plt);
    PlanRelaIs(s, entries);
    hide PlanAll, PlanRela, PlanEntry, PlanOne, WellFormed, Decoded, Denotes, RelrClear, EntriesClear, CrossClear,
        Spread,
        AddressesClear, SettingOk, HasPlace;
    if Plan(s, t).Ok? {
      var ws, vs := PlanAll(s, decoded).value, PlanRela(s, entries).value;
      assert Plan(s, t).value == ws + vs;
      forall w ensures RelrYields(s, decoded, w) <==> DenotedYields(s, t.relr, w) {}
      SpreadConcat(ws, vs);
      CrossIs(s, t.relr, entries, ws, vs);
    }
  }

  ghost predicate DenotedYields(s: Setting, words: seq<nat>, w: Write)
    requires SettingOk(s)
  {
    exists a: nat :: Denotes(words, a) && PlanOne(s, a, 1027, 0, None) == Ok([w])
  }

  lemma CrossIs(s: Setting, words: seq<nat>, entries: seq<Rela>, ws: seq<Write>, vs: seq<Write>)
    requires SettingOk(s) && s.symbolCount > 0
    requires forall a :: Denotes(words, a) ==> HasPlace(s.segments, s.regions, a, 8)
    requires forall e :: e in entries ==> PlanEntry(s, e).Ok?
    requires forall w :: w in ws <==> DenotedYields(s, words, w)
    requires forall w :: w in vs <==> Yields(s, entries, w)
    ensures AllClear(ws, vs) <==> CrossClear(words, entries)
  {
    hide PlanOne, PlanEntry, SettingOk, HasPlace, Place, Denotes;
    if AllClear(ws, vs) {
      forall a: nat, e | Denotes(words, a) && e in entries && e.code != 0
        ensures Clear(a, 8, e.address, EntryWidth(e)) {
        RelrOne(s, a);
        EntryPlans(s, e);
        var w, v := PlanOne(s, a, 1027, 0, None).value[0], PlanEntry(s, e).value[0];
        EntryYields(s, e, v);
        assert PlanOne(s, a, 1027, 0, None) == Ok([w]) && PlanEntry(s, e) == Ok([v]);
        assert w in ws && v in vs;
        assert AddressesApart(w, v);
      }
    }
    if CrossClear(words, entries) {
      forall w, v | w in ws && v in vs ensures AddressesApart(w, v) {
        var a: nat :| Denotes(words, a) && PlanOne(s, a, 1027, 0, None) == Ok([w]);
        var e :| e in entries && PlanEntry(s, e) == Ok([v]);
        RelrOne(s, a);
        EntryYields(s, e, v);
        assert Clear(a, 8, e.address, EntryWidth(e));
      }
    }
  }

  lemma EntryFitsIs(s: Setting, b: Bindings, e: Rela)
    requires SettingOk(s)
    ensures EntryFits(s.segments, s.regions, s.symbolCount, b, e) <==>
              PlanEntry(s, e).Ok? && (e.code != 0 ==> Bind(b, PlanEntry(s, e).value[0]).Ok?)
  {
    PlanOneIs(s, e.address, e.code, e.symbol, Some(e.addend));
    hide PlanOne, Place, HasPlace, SettingOk;
  }

  ghost predicate Binds(b: Bindings, ws: seq<Write>) {
    forall w :: w in ws ==> Bind(b, w).Ok?
  }

  lemma BindsAll(b: Bindings, ws: seq<Write>)
    ensures AllBind(b, ws) <==> Binds(b, ws)
  {
    hide Bind;
    if AllBind(b, ws) {
      forall w | w in ws ensures Bind(b, w).Ok? {
        var i :| 0 <= i < |ws| && ws[i] == w;
        assert Bind(b, ws[i]).Ok?;
      }
    }
  }

  /** Every write of the plan can be bound exactly when every entry has a value. */
  lemma BindsIs(s: Setting, t: Tables, b: Bindings)
    requires SettingOk(s) && s.symbolCount > 0 && Plan(s, t).Ok?
    ensures Binds(b, Plan(s, t).value) <==>
              forall e :: e in t.rela + t.plt ==> EntryFits(s.segments, s.regions, s.symbolCount, b, e)
  {
    PlanIs(s, t);
    var ws, entries := Plan(s, t).value, t.rela + t.plt;
    hide Plan, Bind, PlanEntry, PlanOne, EntryFits, SettingOk, HasPlace, Spread, RelrClear, EntriesClear, CrossClear;
    forall e | e in entries
      ensures EntryFits(s.segments, s.regions, s.symbolCount, b, e) <==>
                (e.code != 0 ==> Bind(b, PlanEntry(s, e).value[0]).Ok?)
      ensures e.code != 0 ==> PlanEntry(s, e).value[0] in ws
    {
      EntryFitsIs(s, b, e);
      EntryPlans(s, e);
      if e.code != 0 { assert Yields(s, entries, PlanEntry(s, e).value[0]); }
    }
    forall w | w in ws && !Bind(b, w).Ok?
      ensures exists e :: e in entries && !EntryFits(s.segments, s.regions, s.symbolCount, b, e)
    {
      if DenotedYields(s, t.relr, w) {
        var a: nat :| Denotes(t.relr, a) && PlanOne(s, a, 1027, 0, None) == Ok([w]);
        RelrBinds(s, b, a, w);
      } else {
        var e :| e in entries && PlanEntry(s, e) == Ok([w]);
        EntryYields(s, e, w);
      }
    }
  }

  lemma RelrBinds(s: Setting, b: Bindings, a: nat, w: Write)
    requires SettingOk(s) && s.symbolCount > 0 && PlanOne(s, a, 1027, 0, None) == Ok([w])
    ensures Bind(b, w) == Ok(w.(value := (w.value + b.bias) % U64_LIMIT)) && Wanted(s, a, 1027, 0, None, w)
  {
    RelrOne(s, a);
    hide PlanOne, SettingOk, Place;
  }

  /** Acceptable memory and tables are exactly those for which a plan is made, passes the overlap check and is bound. */
  lemma AcceptableIs(s: Setting, imageData: nat, imageSize: nat, t: Tables, b: Bindings)
    requires s.symbolCount > 0 && |s.regions| <= |s.segments| && SettingOk(s) && WithinLimits(t)
    requires MemoryOk(s.segments, s.regions, |s.regions|, |s.bytes|, imageData, imageSize)
    ensures Acceptable(s.segments, s.regions, |s.bytes|, imageData, imageSize, s.symbolCount, t, b) <==>
              && Plan(s, t).Ok? && GapsOk(SortByAddress(Plan(s, t).value))
              && AllBind(b, SortByAddress(Plan(s, t).value))
  {
    PlanIs(s, t);
    if Plan(s, t).Ok? {
      var ws := Plan(s, t).value;
      BindsIs(s, t, b);
      SortOrdered(ws);
      SortSpread(ws);
      GapsAreSpread(SortByAddress(ws));
      BindsAll(b, SortByAddress(ws));
      forall w ensures w in SortByAddress(ws) <==> w in ws {
        assert w in SortByAddress(ws) <==> w in multiset(SortByAddress(ws));
        assert w in ws <==> w in multiset(ws);
      }
    }
    forall e | e in t.rela + t.plt && EntryFits(s.segments, s.regions, s.symbolCount, b, e)
      ensures PlanEntry(s, e).Ok?
    {
      EntryFitsIs(s, b, e);
    }
    hide Plan, Bind, PlanEntry, EntryFits, SettingOk, HasPlace, Spread, RelrClear, EntriesClear, CrossClear, GapsOk,
        AllBind,
        SortByAddress, MemoryOk, WellFormed, Denotes, Ordered;
  }

  lemma WordOf(bytes: seq<byte>, at: nat, v: nat)
    requires at + 8 <= |bytes| && v < U64_LIMIT && bytes[at..at + 8] == Bytes(v, 8)
    ensures Word(bytes, at) == v
  {
    Power4And8();
    BytesRoundTrip(v, 8);
  }

  lemma WrittenData(before: seq<byte>, after: seq<byte>, ws: seq<Write>, w: Write, end: nat)
    requires Assigned(before, after, ws) && w in ws && end == w.target + Width(w.kind) && end <= |after|
    ensures after[w.target..end] == Data(w)
  {
    hide Data;
    var part := after[w.target..end];
    forall i: nat | i < |part| ensures part[i] == Data(w)[i] {
      var k: nat := w.target + i;
      assert part[i] == after[k] && Touches(w, k);
    }
  }

  /** The words a committed write leaves. */
  lemma WrittenWord(before: seq<byte>, after: seq<byte>, ws: seq<Write>, w: Write)
    requires Assigned(before, after, ws) && w in ws && w.target + Width(w.kind) <= |after| && w.value < U64_LIMIT
    ensures Word(after, w.target) == w.value
    ensures w.kind.TlsDescriptor? && w.argument < U64_LIMIT ==> Word(after, w.target + 8) == w.argument
  {
    hide Bytes, Word, Assigned;
    var at, end := w.target, w.target + Width(w.kind);
    WrittenData(before, after, ws, w, end);
    assert after[at..at + 8] == after[at..end][..8] == Bytes(w.value, 8);
    WordOf(after, at, w.value);
    if w.kind.TlsDescriptor? && w.argument < U64_LIMIT {
      assert after[at + 8..at + 8 + 8] == after[at..end][8..] == Bytes(w.argument, 8);
      WordOf(after, at + 8, w.argument);
    }
  }

  /** A bound write of the plan is among those committed. */
  lemma BoundIn(b: Bindings, ws: seq<Write>, w: Write)
    requires AllBind(b, ws) && w in ws
    ensures Bind(b, w).Ok? && Bind(b, w).value in Bound(b, ws)
  {
    hide Bind;
    var i :| 0 <= i < |ws| && ws[i] == w;
    assert Bind(b, ws[i]).Ok?;
    assert Bound(b, ws)[i] == Bind(b, ws[i]).value;
  }

  lemma EntryCode(s: Setting, e: Rela)
    requires SettingOk(s) && PlanEntry(s, e).Ok? && e.code != 0
    ensures e.code in {257, 1025, 1026, 1027, 1031}
  {
    PlanOneIs(s, e.address, e.code, e.symbol, Some(e.addend));
    hide PlanOne, Place, SettingOk, HasPlace;
  }

  /** What binding makes of the write an entry asks for. */
  lemma EntryValue(b: Bindings, e: Rela, w: Write)
    requires w.kind == KindOf(e.code) && w.symbol == e.symbol && w.value == e.addend
    requires e.code in {257, 1025, 1026, 1027, 1031} && Bind(b, w).Ok?
    ensures var v := Bind(b, w).value;
            && v.target == w.target && v.kind == w.kind && v.value < U64_LIMIT
            && (e.code == 1027 ==> v.value == (e.addend + b.bias) % U64_LIMIT)
            && (e.code in {257, 1025, 1026} ==>
                 b.resolve(e.symbol).Ok? && v.value == (e.addend + b.resolve(e.symbol).value) % U64_LIMIT)
            && (e.code == 1031 ==>
                 && b.tls.Some? && b.tls.value(e.symbol, e.addend).Ok? && v.argument < U64_LIMIT
                 && (v.value, v.argument) == b.tls.value(e.symbol, e.addend).value)
  {
  }

  lemma EntryIsDone(s: Setting, b: Bindings, e: Rela, plan: seq<Write>, after: seq<byte>)
    requires SettingOk(s) && AllBind(b, plan) && Assigned(s.bytes, after, Bound(b, plan))
    requires InHost(Bound(b, plan), |s.bytes|)
    requires e.code != 0 && PlanEntry(s, e).Ok? && PlanEntry(s, e).value[0] in plan
    ensures EntryDone(s.segments, s.regions, b, e, after)
  {
    EntryPlans(s, e);
    var w := PlanEntry(s, e).value[0];
    EntryYields(s, e, w);
    EntryCode(s, e);
    hide PlanOne, PlanEntry, Place, SettingOk, HasPlace, Assigned, Bound, AllBind, Word;
    BoundIn(b, plan, w);
    var v := Bind(b, w).value;
    EntryValue(b, e, w);
    WrittenWord(s.bytes, after, Bound(b, plan), v);
  }

  lemma RelrIsDone(s: Setting, b: Bindings, a: nat, w: Write, plan: seq<Write>, after: seq<byte>)
    requires SettingOk(s) && s.symbolCount > 0 && AllBind(b, plan) && Assigned(s.bytes, after, Bound(b, plan))
    requires InHost(Bound(b, plan), |s.bytes|) && PlanOne(s, a, 1027, 0, None) == Ok([w]) && w in plan
    ensures Rebased(s.segments, s.regions, b.bias, a, s.bytes, after)
  {
    RelrBinds(s, b, a, w);
    BoundIn(b, plan, w);
    WrittenWord(s.bytes, after, Bound(b, plan), Bind(b, w).value);
    hide PlanOne, Place, SettingOk;
  }

  /** A byte that a committed write touches is in the slot of an entry or of a RELR address. */
  lemma TouchedInSlot(s: Setting, t: Tables, b: Bindings, plan: seq<Write>, v: Write, i: nat)
    requires SettingOk(s) && s.symbolCount > 0 && AllBind(b, plan) && v in Bound(b, plan) && Touches(v, i)
    requires forall w :: w in plan ==> DenotedYields(s, t.relr, w) || Yields(s, t.rela + t.plt, w)
    ensures InSlot(s.segments, s.regions, t, i)
  {
    var k :| 0 <= k < |plan| && Bound(b, plan)[k] == v;
    var w := plan[k];
    assert Bind(b, plan[k]).Ok?;
    BindPlace(b, w);
    hide Bind, PlanOne, PlanEntry, SettingOk, Place, Bound;
    if DenotedYields(s, t.relr, w) {
      var a: nat :| Denotes(t.relr, a) && PlanOne(s, a, 1027, 0, None) == Ok([w]);
      RelrBinds(s, b, a, w);
    } else {
      var e :| e in t.rela + t.plt && PlanEntry(s, e) == Ok([w]);
      EntryYields(s, e, w);
    }
  }

  /** Committing the bound plan is what relocation means. */
  lemma CommittedIs(s: Setting, t: Tables, b: Bindings, plan: seq<Write>, after: seq<byte>)
    requires SettingOk(s) && s.symbolCount > 0 && Plan(s, t).Ok? && multiset(plan) == multiset(Plan(s, t).value)
    requires AllBind(b, plan) && InHost(Bound(b, plan), |s.bytes|) && Assigned(s.bytes, after, Bound(b, plan))
    ensures RelocatedTo(s.segments, s.regions, t, b, s.bytes, after)
  {
    PlanIs(s, t);
    var ws, entries := Plan(s, t).value, t.rela + t.plt;
    hide Plan, Bind, PlanEntry, PlanOne, SettingOk, HasPlace, Spread, RelrClear, EntriesClear, CrossClear, AllBind,
        Bound,
        InHost, EntryDone, Rebased, InSlot, Denotes, WellFormed;
    forall w ensures w in plan <==> DenotedYields(s, t.relr, w) || Yields(s, entries, w) {
      assert w in plan <==> w in multiset(plan);
      assert w in ws <==> w in multiset(ws);
    }
    forall e | e in entries && e.code != 0 ensures EntryDone(s.segments, s.regions, b, e, after) {
      EntryPlans(s, e);
      assert Yields(s, entries, PlanEntry(s, e).value[0]);
      EntryIsDone(s, b, e, plan, after);
    }
    forall a: nat | Denotes(t.relr, a) ensures Rebased(s.segments, s.regions, b.bias, a, s.bytes, after) {
      RelrOne(s, a);
      var w := PlanOne(s, a, 1027, 0, None).value[0];
      assert PlanOne(s, a, 1027, 0, None) == Ok([w]);
      RelrIsDone(s, b, a, w, plan, after);
    }
    forall i: nat | i < |after| && !InSlot(s.segments, s.regions, t, i) ensures after[i] == s.bytes[i] {
      forall v | v in Bound(b, plan) ensures !Touches(v, i) {
        if Touches(v, i) { TouchedInSlot(s, t, b, plan, v, i); }
      }
    }
  }

  method BuildPlan(s: Setting, t: Tables) returns (r: Result<seq<Write>>)
    requires SettingOk(s)
    ensures r == Plan(s, t)
  {
    hide PlanRelr, PlanRela;
    var first := PrepareRelr(s, t.relr);
    if first.Err? { return first; }
    var second := PrepareRela(s, t.rela, first.value);
    if second.Err? { return second; }
    r := PrepareRela(s, t.plt, second.value);
  }

  /** All or nothing, and as if every slot were computed from the original memory at once. */
  method Relocate(heap: array<byte>, segments: seq<Segment>, regions: seq<Region>, imageData: nat, imageSize: nat,
                  symbolCount: nat, t: Tables, b: Bindings) returns (r: Result<nat>)
    modifies heap
    ensures r.Ok? <==> Acceptable(segments, regions, heap.Length, imageData, imageSize, symbolCount, t, b)
    ensures r.Err? ==> heap[..] == old(heap[..])
    ensures r.Ok? ==> RelocatedTo(segments, regions, t, b, old(heap[..]), heap[..])
  {
    ghost var s := Setting(segments, regions, symbolCount, heap[..]);
    hide Plan, GapsOk, AllBind, Bound, MemoryOk, SettingOk, SortByAddress, Apply, Assigned, AllApart, AllPlanned,
        InHost, RelocatedTo, Acceptable;
    if Acceptable(segments, regions, heap.Length, imageData, imageSize, symbolCount, t, b) {
      AcceptableNeeds(s, imageData, imageSize, t, b);
    }
    if symbolCount == 0 { return Err(InvalidImage); }
    var ok := CheckMemory(segments, regions, heap.Length, imageData, imageSize);
    if !ok { return Err(InvalidImage); }
    if !WithinLimits(t) { return Err(Unsupported); }
    var now := Setting(segments, regions, symbolCount, heap[..]);
    SettingIs(now, imageData, imageSize);
    AcceptableIs(now, imageData, imageSize, t, b);
    var planned := BuildPlan(now, t);
    if planned.Err? { return Err(planned.error); }
    PlanFits(now, t);
    var plan := SortByAddress(planned.value);
    SortKeeps(now, planned.value);
    if !GapsOk(plan) { return Err(Unsupported); }
    GapsSuffice(now, plan);
    var bound := BindValues(b, plan);
    if bound.Err? { return Err(bound.error); }
    BoundPlaces(b, plan, heap.Length);
    ApplyAssigns(heap[..], bound.value);
    Commit(heap, bound.value);
    CommittedIs(now, t, b, plan, heap[..]);
    r := Ok(|plan|);
  }

  lemma AcceptableNeeds(s: Setting, imageData: nat, imageSize: nat, t: Tables, b: Bindings)
    requires Acceptable(s.segments, s.regions, |s.bytes|, imageData, imageSize, s.symbolCount, t, b)
    ensures s.symbolCount > 0 && |s.regions| <= |s.segments| && WithinLimits(t)
    ensures MemoryOk(s.segments, s.regions, |s.regions|, |s.bytes|, imageData, imageSize)
  {
  }

  lemma SettingIs(s: Setting, imageData: nat, imageSize: nat)
    requires MemoryOk(s.segments, s.regions, |s.regions|, |s.bytes|, imageData, imageSize)
    ensures SettingOk(s)
  {
  }

  lemma SortKeeps(s: Setting, ws: seq<Write>)
    requires AllPlanned(s, ws) && InHost(ws, |s.bytes|)
    ensures var sorted := SortByAddress(ws);
            AllPlanned(s, sorted) && InHost(sorted, |s.bytes|) && multiset(sorted) == multiset(ws) && |sorted| == |ws|
  {
    SortOrdered(ws);
    hide Planned, SortByAddress;
    var sorted := SortByAddress(ws);
    assert |multiset(sorted)| == |sorted| && |multiset(ws)| == |ws|;
    forall w | w in sorted ensures w in ws { assert w in multiset(sorted); }
  }
}
