/** The GNU hash index of a dynamic image: what validation establishes and what a lookup then finds. */
module GnuHash {
  import opened Base

  type Name = seq<byte>

  datatype Symbol = Symbol(name: Name, binding: nat, visibility: nat, section: nat, value: nat, size: nat)

  /** The index and the tables it indexes; `symbols` has no value where an entry cannot be decoded. */
  datatype Index = Index(offset: nat, count: nat, shift: nat, bloom: seq<nat>, buckets: seq<nat>, chains: seq<nat>,
                         symbols: seq<Option<Symbol>>, versym: Option<seq<nat>>)

  /** What the shape of the tables guarantees before their contents are looked at. */
  ghost predicate Shaped(t: Index) {
    && 0 < t.offset <= t.count && |t.bloom| > 0 && |t.buckets| > 0 && |t.symbols| == t.count
    && |t.chains| >= t.count - t.offset
    && (t.versym.Some? ==> |t.versym.value| == t.count)
  }

  // ---- hashing ----

  function Hash(name: Name): (h: nat)
    ensures h < U32_LIMIT
  {
    if name == [] then 5381 else (Hash(name[..|name| - 1]) * 33 + name[|name| - 1] as nat) % U32_LIMIT
  }

  method ComputeHash(name: Name) returns (h: nat)
    ensures h == Hash(name)
  {
    h := 5381;
    for i := 0 to |name|
      invariant h == Hash(name[..i])
    {
      assert name[..i + 1][..i] == name[..i];
      h := (h * 33 + name[i] as nat) % U32_LIMIT;
    }
    assert name[..|name|] == name;
  }

  function Power33(n: nat): nat {
    if n == 0 then 1 else 33 * Power33(n - 1)
  }

  /** Each byte, weighted by how many bytes follow it. */
  ghost function Weighted(name: Name): nat {
    if name == [] then 0 else name[0] as nat * Power33(|name| - 1) + Weighted(name[1..])
  }

  lemma {:induction false} WeightedNext(name: Name, c: byte)
    ensures Weighted(name + [c]) == 33 * Weighted(name) + c as nat
  {
    if name == [] {
      assert (name + [c])[1..] == [];
    } else {
      WeightedNext(name[1..], c);
      assert (name + [c])[1..] == name[1..] + [c];
      var a, p := name[0] as nat, Power33(|name| - 1);
      assert a * (33 * p) == 33 * (a * p);
    }
  }

  /** The hash is a polynomial in 33 over the bytes, started with 5381, modulo 2^32. */
  lemma {:induction false} HashIsPolynomial(name: Name)
    ensures Hash(name) == (5381 * Power33(|name|) + Weighted(name)) % U32_LIMIT
  {
    if name != [] {
      var rest, c := name[..|name| - 1], name[|name| - 1];
      HashIsPolynomial(rest);
      assert name == rest + [c];
      WeightedNext(rest, c);
      var sum := 5381 * Power33(|rest|) + Weighted(rest);
      ModuloStep(sum, c as nat);
    }
  }

  lemma ModuloStep(sum: nat, c: nat)
    ensures (sum % U32_LIMIT * 33 + c) % U32_LIMIT == (33 * sum + c) % U32_LIMIT
  {
    var q, r := sum / U32_LIMIT, sum % U32_LIMIT;
    assert 33 * sum + c == (33 * q) * U32_LIMIT + (33 * r + c);
    Shift(33 * r + c, 33 * q);
  }

  lemma {:induction false} Shift(x: nat, k: nat)
    ensures (k * U32_LIMIT + x) % U32_LIMIT == x % U32_LIMIT
  {
    if k > 0 {
      Shift(x, k - 1);
      var y := (k - 1) * U32_LIMIT + x;
      assert k * U32_LIMIT + x == y + U32_LIMIT;
    }
  }

  /** Both bits of a hash are present in its filter word. */
  predicate Blooms(t: Index, hash: nat)
    requires |t.bloom| > 0
  {
    var word := t.bloom[hash / 64 % |t.bloom|];
    Bit(word, hash % 64) && Bit(word, hash / PowerOfTwo(t.shift) % 64)
  }

  // ---- the shape of the tables ----

  const SYMBOL_LIMIT: nat := 1024 * 1024

  predicate IsPowerOfTwo(x: nat) {
    x == 1 || (x > 0 && x % 2 == 0 && IsPowerOfTwo(x / 2))
  }

  datatype Shape = BadShape | TooLarge | Counted(count: nat)

  /** The symbol count is one past the end of the chain that starts highest, or the offset when every bucket is empty.
      */
  ghost predicate CountsTo(offset: nat, buckets: seq<nat>, chains: seq<nat>, count: nat) {
    && (forall b {:trigger buckets[b]} :: 0 <= b < |buckets| ==> buckets[b] == 0 || offset <= buckets[b] < count)
    && if forall b {:trigger buckets[b]} :: 0 <= b < |buckets| ==> buckets[b] == 0 then count == offset
       else exists b ::
             0 <= b < |buckets| && EndsChain(offset, chains, buckets[b], count) && forall c {:trigger buckets[c]} ::
               0 <= c < |buckets| ==> buckets[c] <= buckets[b]
  }

  ghost predicate EndsChain(offset: nat, chains: seq<nat>, start: nat, count: nat) {
    && offset <= start < count <= SYMBOL_LIMIT && count - offset <= |chains| && chains[count - 1 - offset] % 2 == 1
    && forall i {:trigger chains[i]} :: start - offset <= i < count - 1 - offset ==> chains[i] % 2 == 0
  }

  predicate HeaderOk(offset: nat, shift: nat, bloomCount: nat, buckets: nat) {
    buckets > 0 && offset > 0 && shift < 32 && IsPowerOfTwo(bloomCount)
  }

  predicate WithinLimits(offset: nat, bloomCount: nat, buckets: nat) {
    buckets <= SYMBOL_LIMIT && offset <= SYMBOL_LIMIT && bloomCount <= SYMBOL_LIMIT
  }

  /** No count fits when the chain that starts highest does not end in time. */
  lemma NoCount(offset: nat, buckets: seq<nat>, chains: seq<nat>, highest: nat, symbol: nat)
    requires 0 < offset <= highest <= symbol && (symbol >= SYMBOL_LIMIT || symbol - offset >= |chains|)
    requires exists b :: 0 <= b < |buckets| && buckets[b] == highest
    requires forall b {:trigger buckets[b]} :: 0 <= b < |buckets| ==> buckets[b] <= highest
    requires forall i {:trigger chains[i]} :: highest - offset <= i < symbol - offset && i < |chains| ==>
               chains[i] % 2 == 0
    ensures forall count: nat {:trigger CountsTo(offset, buckets, chains, count)} ::
              !CountsTo(offset, buckets, chains, count)
  {
    var top :| 0 <= top < |buckets| && buckets[top] == highest;
    forall count: nat ensures !CountsTo(offset, buckets, chains, count) {
      assert !EndsChain(offset, chains, highest, count);
      assert buckets[top] != 0;
    }
  }

  /** `chains` is everything after the buckets up to the end of the segment. */
  method ReadShape(offset: nat, shift: nat, bloomCount: nat, buckets: seq<nat>, chains: seq<nat>) returns (r: Shape)
    ensures r.TooLarge? <==>
              HeaderOk(offset, shift, bloomCount, |buckets|) && !WithinLimits(offset, bloomCount, |buckets|)
    ensures r.Counted? <==>
              && HeaderOk(offset, shift, bloomCount, |buckets|) && WithinLimits(offset, bloomCount, |buckets|)
                            && exists count: nat :: CountsTo(offset, buckets, chains, count)
    ensures r.Counted? ==>
              0 < offset <= r.count && r.count - offset <= |chains| && CountsTo(offset, buckets, chains, r.count)
  {
    if |buckets| == 0 || offset == 0 || bloomCount == 0 || shift >= 32 || !IsPowerOfTwo(bloomCount) { return BadShape; }
    if |buckets| > SYMBOL_LIMIT || offset > SYMBOL_LIMIT || bloomCount > SYMBOL_LIMIT { return TooLarge; }
    var highest := 0;
    for i := 0 to |buckets|
      invariant forall b {:trigger buckets[b]} :: 0 <= b < i ==>
                  buckets[b] <= highest && (buckets[b] == 0 || offset <= buckets[b])
      invariant highest == 0 || exists b :: 0 <= b < i && buckets[b] == highest
    {
      if buckets[i] != 0 && buckets[i] < offset { return BadShape; }
      if buckets[i] > highest { highest := buckets[i]; }
    }
    if highest == 0 {
      assert CountsTo(offset, buckets, chains, offset);
      return Counted(offset);
    }
    var symbol := highest;
    while true
      invariant highest <= symbol
      invariant forall i {:trigger chains[i]} :: highest - offset <= i < symbol - offset && i < |chains| ==>
                  chains[i] % 2 == 0
      decreases SYMBOL_LIMIT - symbol
    {
      if symbol >= SYMBOL_LIMIT || symbol - offset >= |chains| {
        NoCount(offset, buckets, chains, highest, symbol);
        return BadShape;
      }
      var hash := chains[symbol - offset];
      symbol := symbol + 1;
      if hash % 2 == 1 { break; }
    }
    assert EndsChain(offset, chains, highest, symbol);
    assert CountsTo(offset, buckets, chains, symbol);
    r := Counted(symbol);
  }

  // ---- chains ----

  predicate Last(t: Index, index: nat)
    requires t.offset <= index < t.count && |t.chains| >= t.count - t.offset
  {
    t.chains[index - t.offset] % 2 == 1
  }

  /** One past the last index of the chain that passes through `index`, or the symbol count if it has no end. */
  function End(t: Index, index: nat): (e: nat)
    requires Shaped(t) && t.offset <= index <= t.count
    ensures index <= e <= t.count
    ensures forall i :: index <= i < e - 1 ==> !Last(t, i)
    ensures index < t.count ==> index < e
    decreases t.count - index
  {
    if index == t.count then t.count else if Last(t, index) then index + 1 else End(t, index + 1)
  }

  /** An entry of bucket `b`'s chain agrees with its symbol's name. */
  predicate Entry(t: Index, b: nat, index: nat)
    requires Shaped(t)
  {
    && t.offset <= index < t.count && t.symbols[index].Some?
    && var hash := Hash(t.symbols[index].value.name);
    hash / 2 == t.chains[index - t.offset] / 2 && hash % |t.buckets| == b && Blooms(t, hash)
  }

  /** Bucket `b` is empty, or all of its chain agrees and the chain has an end. */
  ghost predicate BucketOk(t: Index, b: nat)
    requires Shaped(t) && b < |t.buckets|
  {
    var start := t.buckets[b];
    start != 0 ==>
          t.offset <= start < t.count && (forall i :: start <= i < End(t, start) ==> Entry(t, b, i))
          && Last(t, End(t, start) - 1)
  }

  ghost predicate BucketsOk(t: Index, n: nat)
    requires Shaped(t) && n <= |t.buckets|
  {
    forall b: nat {:trigger BucketOk(t, b)} :: b < n ==> BucketOk(t, b)
  }

  function ChainLength(t: Index, b: nat): nat
    requires Shaped(t) && b < |t.buckets|
  {
    var start := t.buckets[b];
    if start == 0 || !(t.offset <= start <= t.count) then 0 else End(t, start) - start
  }

  function Covered(t: Index, n: nat): nat
    requires Shaped(t) && n <= |t.buckets|
  {
    if n == 0 then 0 else Covered(t, n - 1) + ChainLength(t, n - 1)
  }

  /** What a successful validation has checked. */
  ghost predicate Validated(t: Index)
    requires Shaped(t)
  {
    && (forall i {:trigger t.symbols[i]} :: 0 <= i < t.count ==> t.symbols[i].Some?)
    && BucketsOk(t, |t.buckets|)
    && Covered(t, |t.buckets|) == t.count - t.offset
  }

  method Validate(t: Index) returns (ok: bool)
    requires Shaped(t)
    ensures ok <==> Validated(t)
  {
    hide Hash, Blooms;
    for i := 0 to t.count
      invariant forall j {:trigger t.symbols[j]} :: 0 <= j < i ==> t.symbols[j].Some?
    {
      if t.symbols[i].None? { return false; }
    }
    var covered := 0;
    for b := 0 to |t.buckets|
      invariant BucketsOk(t, b)
      invariant covered == Covered(t, b)
    {
      var fine, length := WalkBucket(t, b);
      if !fine { return false; }
      covered := covered + length;
    }
    ok := covered == t.count - t.offset;
  }

  /** The inner loop over one chain. */
  method WalkBucket(t: Index, b: nat) returns (ok: bool, length: nat)
    requires Shaped(t) && b < |t.buckets|
    ensures ok <==> BucketOk(t, b)
    ensures ok ==> length == ChainLength(t, b)
  {
    hide Hash, Blooms, Entry;
    var start := t.buckets[b];
    if start == 0 { return true, 0; }
    if start < t.offset || start >= t.count { return false, 0; }
    var index := start;
    while true
      invariant start <= index < t.count && End(t, start) == End(t, index)
      invariant forall i :: start <= i < index ==> Entry(t, b, i)
      decreases t.count - index
    {
      if !Entry(t, b, index) { return false, 0; }
      if Last(t, index) { return true, index + 1 - start; }
      index := index + 1;
      if index == t.count {
        assert End(t, start) == t.count;
        return false, 0;
      }
    }
  }

  // ---- coverage: a pigeonhole argument ----

  /** The indices on the chains of the first `n` buckets. */
  ghost function OnChains(t: Index, n: nat): set<nat>
    requires Shaped(t) && n <= |t.buckets|
  {
    if n == 0 then {} else OnChains(t, n - 1) + OnChain(t, n - 1)
  }

  ghost function OnChain(t: Index, b: nat): set<nat>
    requires Shaped(t) && b < |t.buckets|
  {
    Between(t.buckets[b], t.buckets[b] + ChainLength(t, b))
  }

  lemma ChainWithin(t: Index, b: nat, i: nat)
    requires Shaped(t) && b < |t.buckets| && BucketOk(t, b) && i in OnChain(t, b)
    ensures Entry(t, b, i)
  {
  }

  lemma {:induction false} ChainsWithin(t: Index, n: nat, i: nat)
    requires Shaped(t) && n <= |t.buckets| && BucketsOk(t, |t.buckets|)
    requires i in OnChains(t, n)
    ensures exists b: nat :: b < n && Entry(t, b, i) && i in OnChain(t, b)
  {
    hide Entry, BucketOk, OnChain;
    if i in OnChain(t, n - 1) {
      assert BucketOk(t, n - 1);
      ChainWithin(t, n - 1, i);
    } else {
      ChainsWithin(t, n - 1, i);
    }
  }

  lemma OneBucket(t: Index, a: nat, b: nat, i: nat)
    requires Shaped(t) && Entry(t, a, i) && Entry(t, b, i)
    ensures a == b
  {
  }

  lemma ChainApart(t: Index, n: nat, i: nat)
    requires Shaped(t) && n < |t.buckets| && BucketsOk(t, |t.buckets|) && i in OnChain(t, n)
    ensures i !in OnChains(t, n) && t.offset <= i < t.count
  {
    assert BucketOk(t, n);
    hide Entry, BucketOk, OnChain, OnChains, BucketsOk;
    ChainWithin(t, n, i);
    EntryRange(t, n, i);
    forall b: nat | b < n ensures !(Entry(t, b, i) && i in OnChain(t, b)) {
      if Entry(t, b, i) { OneBucket(t, n, b, i); }
    }
    if i in OnChains(t, n) { ChainsWithin(t, n, i); }
  }

  lemma ChainSize(t: Index, n: nat)
    requires Shaped(t) && n < |t.buckets|
    ensures |OnChain(t, n)| == ChainLength(t, n) && OnChains(t, n + 1) == OnChains(t, n) + OnChain(t, n)
  {
    hide ChainLength;
  }

  lemma UnionSize(a: set<nat>, b: set<nat>)
    requires a !! b
    ensures |a + b| == |a| + |b|
  {
    assert a * b == {};
  }

  lemma ChainsDisjoint(t: Index, n: nat)
    requires Shaped(t) && n < |t.buckets| && BucketsOk(t, |t.buckets|)
    ensures OnChains(t, n) !! OnChain(t, n)
  {
    hide *;
    forall i | i in OnChain(t, n) ensures i !in OnChains(t, n) { ChainApart(t, n, i); }
  }

  lemma WholeSize(whole: set<nat>, a: set<nat>, b: set<nat>)
    requires whole == a + b && a !! b
    ensures |whole| == |a| + |b|
  {
    UnionSize(a, b);
  }

  lemma ChainsSizeStep(t: Index, n: nat)
    requires Shaped(t) && n < |t.buckets| && BucketsOk(t, |t.buckets|)
    ensures |OnChains(t, n + 1)| == |OnChains(t, n)| + ChainLength(t, n)
  {
    hide *;
    ChainSize(t, n);
    ChainsDisjoint(t, n);
    WholeSize(OnChains(t, n + 1), OnChains(t, n), OnChain(t, n));
  }

  lemma ChainsNone(t: Index)
    requires Shaped(t)
    ensures |OnChains(t, 0)| == Covered(t, 0)
  {
  }

  lemma CoveredStep(t: Index, n: nat)
    requires Shaped(t) && n < |t.buckets|
    ensures Covered(t, n + 1) == Covered(t, n) + ChainLength(t, n)
  {
    hide ChainLength;
  }

  /** Chains of different buckets share no index, so their lengths add up to the size of their union. */
  lemma {:induction false} ChainsSize(t: Index, n: nat)
    requires Shaped(t) && n <= |t.buckets| && BucketsOk(t, |t.buckets|)
    ensures |OnChains(t, n)| == Covered(t, n)
  {
    hide *;
    if n == 0 {
      ChainsNone(t);
    } else {
      ChainsSize(t, n - 1);
      ChainsSizeStep(t, n - 1);
      CoveredStep(t, n - 1);
    }
  }

  lemma ChainsInRange(t: Index, n: nat)
    requires Shaped(t) && n <= |t.buckets| && BucketsOk(t, |t.buckets|)
    ensures OnChains(t, n) <= Between(t.offset, t.count)
  {
    hide BucketsOk, OnChain, OnChains, Entry;
    forall i | i in OnChains(t, n) ensures i in Between(t.offset, t.count) {
      ChainsWithin(t, n, i);
      var b: nat :| b < n && Entry(t, b, i) && i in OnChain(t, b);
      EntryRange(t, b, i);
    }
  }

  lemma EntryRange(t: Index, b: nat, i: nat)
    requires Shaped(t) && Entry(t, b, i)
    ensures t.offset <= i < t.count
  {
  }

  /** Every symbol at or above the offset is on exactly one chain: that of its own hash's bucket. */
  lemma EverySymbolIndexed(t: Index, i: nat)
    requires Shaped(t) && Validated(t) && t.offset <= i < t.count
    ensures var b := Hash(t.symbols[i].value.name) % |t.buckets|;
            && t.offset <= t.buckets[b] <= i < End(t, t.buckets[b]) && Entry(t, b, i)
            && forall c: nat :: c < |t.buckets| && i in OnChain(t, c) ==> c == b
  {
    ChainsSize(t, |t.buckets|);
    ChainsInRange(t, |t.buckets|);
    FullSubset(OnChains(t, |t.buckets|), Between(t.offset, t.count));
    assert i in Between(t.offset, t.count);
    ChainsWithin(t, |t.buckets|, i);
    var b: nat :| b < |t.buckets| && Entry(t, b, i) && i in OnChain(t, b);
    assert BucketOk(t, b);
    forall c: nat | c < |t.buckets| && i in OnChain(t, c) ensures c == b {
      assert BucketOk(t, c);
      ChainWithin(t, c, i);
      OneBucket(t, b, c, i);
    }
  }

  // ---- lookup ----

  predicate Exported(s: Symbol) {
    s.section != 0 && (s.binding == 1 || s.binding == 2 || s.binding == 10) && (s.visibility == 0 || s.visibility == 3)
  }

  /** With a version, the index it names; without one, any version that is not hidden. */
  predicate VersionMatches(t: Index, wanted: Option<nat>, index: nat)
    requires Shaped(t) && index < t.count
  {
    t.versym.None? || (if wanted.Some? then wanted.value == t.versym.value[index] % 0x8000
        else t.versym.value[index] / 0x8000 % 2 == 0)
  }

  predicate Matches(t: Index, name: Name, wanted: Option<nat>, index: nat)
    requires Shaped(t) && index < t.count
  {
    VersionMatches(t, wanted, index) && t.symbols[index].Some? && Exported(t.symbols[index].value)
        && t.symbols[index].value.name == name
  }

  predicate Weak(t: Index, index: nat)
    requires Shaped(t) && index < t.count
  {
    t.symbols[index].Some? && t.symbols[index].value.binding == 2
  }

  datatype Answer = Invalid | NotFound | Found(index: nat)

  /** What a scan of every indexed symbol would choose: the lowest match that is not weak, else the highest weak one. */
  ghost predicate IsBest(t: Index, name: Name, wanted: Option<nat>, lo: nat, hi: nat, r: Answer)
    requires Shaped(t) && lo <= hi <= t.count
  {
    match r
    case Invalid => false
    case NotFound => forall i: nat {:trigger Matches(t, name, wanted, i)} :: lo <= i < hi ==>
          !Matches(t, name, wanted, i)
    case Found(k) =>
      && lo <= k < hi && Matches(t, name, wanted, k)
      && if Weak(t, k) then forall i: nat {:trigger Matches(t, name, wanted, i)} ::
           lo <= i < hi && Matches(t, name, wanted, i) ==> Weak(t, i) && i <= k
         else forall i: nat {:trigger Matches(t, name, wanted, i)} :: lo <= i < k && Matches(t, name, wanted, i) ==>
               Weak(t, i)
  }

  /** The versions a symbol table defines or needs; `file` marks needed ones. */
  datatype Version = Version(file: bool, name: Name, index: nat)

  /** The index of the last defined version of that name, or 1. */
  ghost predicate IsWanted(versions: seq<Version>, version: Name, w: nat) {
    || (w == 1 && forall i {:trigger versions[i]} :: 0 <= i < |versions| ==>
         versions[i].file || versions[i].name != version)
    || (exists k :: 0 <= k < |versions| && !versions[k].file && versions[k].name == version && versions[k].index == w
                    && forall i {:trigger versions[i]} :: k < i < |versions| ==>
                         versions[i].file || versions[i].name != version)
  }

  method WantedVersion(versions: seq<Version>, version: Name) returns (w: nat)
    ensures IsWanted(versions, version, w)
  {
    hide IsWanted;
    WantedNone(version);
    w := 1;
    for i := 0 to |versions|
      invariant IsWanted(versions[..i], version, w)
    {
      assert versions[..i + 1] == versions[..i] + [versions[i]];
      WantedNext(versions[..i], version, w, versions[i]);
      if !versions[i].file && versions[i].name == version { w := versions[i].index; }
    }
    assert versions[..|versions|] == versions;
  }

  lemma WantedNone(version: Name)
    ensures IsWanted([], version, 1)
  {
  }

  lemma WantedNext(before: seq<Version>, version: Name, w: nat, v: Version)
    requires IsWanted(before, version, w)
    ensures IsWanted(before + [v], version, if !v.file && v.name == version then v.index else w)
  {
    var after := before + [v];
    assert after[|before|] == v && forall j {:trigger after[j]} :: 0 <= j < |before| ==> after[j] == before[j];
    if v.file || v.name != version {
      if k :| 0 <= k < |before| && !before[k].file && before[k].name == version && before[k].index == w
              && forall j {:trigger before[j]} :: k < j < |before| ==> before[j].file || before[j].name != version
      {
        assert after[k] == before[k];
      }
    } else {
      assert after[|before|].index == v.index;
    }
  }

  /** Outside the chain of its hash's bucket no symbol has the name. */
  lemma NoMatchElsewhere(t: Index, name: Name, wanted: Option<nat>, i: nat)
    requires Shaped(t) && Validated(t) && t.offset <= i < t.count && Matches(t, name, wanted, i)
    ensures var b := Hash(name) % |t.buckets|;
            && Blooms(t, Hash(name)) && t.offset <= t.buckets[b] <= i < End(t, t.buckets[b])
            && t.chains[i - t.offset] / 2 == Hash(name) / 2
  {
    hide Validated, Hash, Blooms, End, OnChain;
    EverySymbolIndexed(t, i);
  }

  lemma EmptyBucket(t: Index, b: nat)
    requires Shaped(t) && Validated(t) && b < |t.buckets|
    ensures t.buckets[b] == 0 || (t.offset <= t.buckets[b] < t.count && Last(t, End(t, t.buckets[b]) - 1))
  {
    assert BucketOk(t, b);
  }

  /** A bloom miss or an empty bucket means there is no match at all. */
  lemma NoneAtAll(t: Index, name: Name, wanted: Option<nat>)
    requires Shaped(t) && Validated(t) && (!Blooms(t, Hash(name)) || t.buckets[Hash(name) % |t.buckets|] == 0)
    ensures IsBest(t, name, wanted, t.offset, t.count, NotFound)
  {
    hide Validated, Hash, Blooms, Matches, End;
    forall i: nat | t.offset <= i < t.count ensures !Matches(t, name, wanted, i) {
      if Matches(t, name, wanted, i) { NoMatchElsewhere(t, name, wanted, i); assert false; }
    }
  }

  lemma SameChainValue(t: Index, name: Name, wanted: Option<nat>, i: nat)
    requires Shaped(t) && Validated(t) && t.offset <= i < t.count
    ensures Matches(t, name, wanted, i) ==> t.chains[i - t.offset] / 2 == Hash(name) / 2
  {
    hide Validated, Hash, Blooms, Matches, End;
    if Matches(t, name, wanted, i) { NoMatchElsewhere(t, name, wanted, i); }
  }

  ghost predicate IsChain(t: Index, name: Name, start: nat, end: nat)
    requires Shaped(t)
  {
    t.offset <= start < end <= t.count && start == t.buckets[Hash(name) % |t.buckets|] && end == End(t, start)
  }

  lemma OnlyThere(t: Index, name: Name, wanted: Option<nat>, start: nat, end: nat, i: nat)
    requires Shaped(t) && Validated(t) && IsChain(t, name, start, end) && t.offset <= i < t.count
             && Matches(t, name, wanted, i)
    ensures start <= i < end
  {
    hide Validated, Hash, Blooms, Matches, End;
    NoMatchElsewhere(t, name, wanted, i);
  }

  predicate WeakAnswer(t: Index, r: Answer)
    requires Shaped(t)
  {
    r.Found? ==> r.index < t.count && t.symbols[r.index].Some? && Weak(t, r.index)
  }

  lemma NothingBest(t: Index, name: Name, wanted: Option<nat>, start: nat)
    requires Shaped(t) && start <= t.count
    ensures IsBest(t, name, wanted, start, start, NotFound)
  {
  }

  /** While only weak matches were seen, the last of them is the best so far. */
  lemma BestNext(t: Index, name: Name, wanted: Option<nat>, start: nat, index: nat, weak: Answer)
    requires Shaped(t) && start <= index < t.count && IsBest(t, name, wanted, start, index, weak) && WeakAnswer(t, weak)
    requires Matches(t, name, wanted, index) ==> Weak(t, index)
    ensures IsBest(t, name, wanted, start, index + 1, if Matches(t, name, wanted, index) then Found(index) else weak)
  {
    hide Matches;
  }

  lemma BestOverall(t: Index, name: Name, wanted: Option<nat>, start: nat, end: nat, k: nat, weak: Answer)
    requires Shaped(t) && Validated(t) && IsChain(t, name, start, end) && start <= k < end
             && Matches(t, name, wanted, k) && !Weak(t, k)
    requires IsBest(t, name, wanted, start, k, weak) && WeakAnswer(t, weak)
    ensures IsBest(t, name, wanted, t.offset, t.count, Found(k))
  {
    hide Validated, Matches, Weak;
    forall i: nat | t.offset <= i < k && Matches(t, name, wanted, i)
      ensures Weak(t, i)
    {
      OnlyThere(t, name, wanted, start, end, i);
    }
  }

  lemma WholeChain(t: Index, name: Name, wanted: Option<nat>, start: nat, end: nat, r: Answer)
    requires Shaped(t) && Validated(t) && IsChain(t, name, start, end) && IsBest(t, name, wanted, start, end, r)
             && WeakAnswer(t, r)
    ensures IsBest(t, name, wanted, t.offset, t.count, r)
  {
    hide Validated, Matches, Weak;
    forall i: nat | t.offset <= i < t.count && Matches(t, name, wanted, i)
      ensures start <= i < end
    {
      OnlyThere(t, name, wanted, start, end, i);
    }
  }

  /** After validation a lookup through the index finds exactly what a linear scan of the indexed symbols would. */
  /** Symbol `i` is defined, has the name and the version, one of the bindings, and is visible from outside. */
  ghost predicate Offers(t: Index, name: Name, wanted: Option<nat>, bindings: set<nat>, i: nat)
    requires Shaped(t) && i < t.count
  {
    && t.symbols[i].Some? && t.symbols[i].value.name == name && t.symbols[i].value.section != 0
    && t.symbols[i].value.binding in bindings && t.symbols[i].value.visibility in {0, 3}
    && (t.versym.Some? && wanted.Some? ==> t.versym.value[i] % 0x8000 == wanted.value)
    && (t.versym.Some? && wanted.None? ==> t.versym.value[i] / 0x8000 % 2 == 0)
  }

  /** The lowest global or unique symbol of that name and version, else the highest weak one, else none. */
  ghost predicate IsChosen(t: Index, name: Name, wanted: Option<nat>, r: Answer)
    requires Shaped(t)
  {
    match r
    case Invalid => false
    case NotFound => forall i: nat {:trigger t.symbols[i]} :: t.offset <= i < t.count ==>
          !Offers(t, name, wanted, {1, 2, 10}, i)
    case Found(k) =>
      && t.offset <= k < t.count
      && if Offers(t, name, wanted, {1, 10}, k)
         then forall i: nat {:trigger t.symbols[i]} :: t.offset <= i < k ==> !Offers(t, name, wanted, {1, 10}, i)
         else Offers(t, name, wanted, {2}, k) && forall i: nat {:trigger t.symbols[i]} :: t.offset <= i < t.count ==>
               !Offers(t, name, wanted, {1, 10}, i) && (Offers(t, name, wanted, {2}, i) ==> i <= k)
  }

  lemma MatchOffers(t: Index, name: Name, wanted: Option<nat>, i: nat)
    requires Shaped(t) && i < t.count
    ensures Matches(t, name, wanted, i) <==> Offers(t, name, wanted, {1, 2, 10}, i)
    ensures Matches(t, name, wanted, i) && Weak(t, i) <==> Offers(t, name, wanted, {2}, i)
    ensures Matches(t, name, wanted, i) && !Weak(t, i) <==> Offers(t, name, wanted, {1, 10}, i)
  {
  }

  lemma BestIsChosen(t: Index, name: Name, wanted: Option<nat>, r: Answer)
    requires Shaped(t) && t.offset <= t.count && IsBest(t, name, wanted, t.offset, t.count, r)
    ensures IsChosen(t, name, wanted, r)
  {
    hide Matches, Weak, Offers, Shaped;
    forall i: nat | i < t.count
      ensures Matches(t, name, wanted, i) <==> Offers(t, name, wanted, {1, 2, 10}, i)
      ensures Matches(t, name, wanted, i) && Weak(t, i) <==> Offers(t, name, wanted, {2}, i)
      ensures Matches(t, name, wanted, i) && !Weak(t, i) <==> Offers(t, name, wanted, {1, 10}, i)
    {
      MatchOffers(t, name, wanted, i);
    }
  }

  method Lookup(t: Index, name: Name, wanted: Option<nat>) returns (r: Answer)
    requires Shaped(t) && Validated(t)
    ensures IsChosen(t, name, wanted, r)
  {
    r := Scan(t, name, wanted);
    BestIsChosen(t, name, wanted, r);
  }

  method Scan(t: Index, name: Name, wanted: Option<nat>) returns (r: Answer)
    requires Shaped(t) && Validated(t)
    ensures IsBest(t, name, wanted, t.offset, t.count, r)
  {
    hide Validated, Hash, Blooms, Entry, Matches, IsBest;
    var hash := ComputeHash(name);
    if !Blooms(t, hash) {
      NoneAtAll(t, name, wanted);
      return NotFound;
    }
    var b := hash % |t.buckets|;
    var index := t.buckets[b];
    EmptyBucket(t, b);
    if index == 0 {
      NoneAtAll(t, name, wanted);
      return NotFound;
    }
    var start, steps, weak := index, 0, NotFound;
    ghost var end := End(t, start);
    NothingBest(t, name, wanted, start);
    while true
      invariant start <= index < end <= t.count && steps == index - start && end == End(t, index)
      invariant IsBest(t, name, wanted, start, index, weak) && WeakAnswer(t, weak)
      decreases t.count - index
    {
      steps := steps + 1;
      if steps >= t.count || index >= t.count || index < t.offset {
        assert false;
        return Invalid;
      }
      var chain := t.chains[index - t.offset];
      if chain / 2 == hash / 2 && Matches(t, name, wanted, index) {
        if !Weak(t, index) {
          BestOverall(t, name, wanted, start, end, index, weak);
          return Found(index);
        }
        BestNext(t, name, wanted, start, index, weak);
        weak := Found(index);
      } else {
        SameChainValue(t, name, wanted, index);
        BestNext(t, name, wanted, start, index, weak);
      }
      if chain % 2 == 1 { break; }
      index := index + 1;
    }
    WholeChain(t, name, wanted, start, end, weak);
    r := weak;
  }
}
