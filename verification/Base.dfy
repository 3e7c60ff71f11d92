/** Small definitions shared by every component: bytes, options and integer widths. */
module Base {

  newtype byte = x: int | 0 <= x < 256

  const U32_LIMIT: nat := 0x1_0000_0000
  const U64_LIMIT: nat := 0x1_0000_0000_0000_0000
  const I64_MAX: nat := 0x7fff_ffff_ffff_ffff

  type u32 = x: nat | x < U32_LIMIT
  type u64 = x: nat | x < U64_LIMIT

  datatype Option<+T> = None | Some(value: T)

  /** Replaces `data.size` bytes of `bytes` starting at `at`. */
  function Splice<T>(bytes: seq<T>, at: nat, data: seq<T>): (r: seq<T>)
    requires at + |data| <= |bytes|
    ensures |r| == |bytes|
    ensures forall i {:trigger r[i]} :: 0 <= i < |bytes| ==>
              r[i] == if at <= i < at + |data| then data[i - at] else bytes[i]
  {
    bytes[..at] + data + bytes[at + |data|..]
  }

  function RemoveAt<T>(s: seq<T>, k: nat): (r: seq<T>)
    requires k < |s|
    ensures |r| == |s| - 1
    ensures forall i {:trigger r[i]} :: 0 <= i < |r| ==> r[i] == if i < k then s[i] else s[i + 1]
  {
    s[..k] + s[k + 1..]
  }

  function InsertAt<T>(s: seq<T>, k: nat, x: T): (r: seq<T>)
    requires k <= |s|
    ensures |r| == |s| + 1
    ensures forall i {:trigger r[i]} :: 0 <= i < |r| ==> r[i] == if i < k then s[i] else if i == k then x else s[i - 1]
  {
    s[..k] + [x] + s[k..]
  }

  // ---- counting indices ----

  ghost function Between(lo: nat, hi: nat): (r: set<nat>)
    ensures forall i: nat {:trigger i in r} :: i in r <==> lo <= i < hi
    ensures |r| == if lo < hi then hi - lo else 0
  {
    if lo >= hi then {} else Between(lo, hi - 1) + {hi - 1}
  }

  lemma FullSubset(a: set<nat>, b: set<nat>)
    requires a <= b && |a| == |b|
    ensures a == b
  {
    if a != b {
      var x :| x in b && x !in a;
      SubsetSize(a, b - {x});
    }
  }

  lemma {:induction false} SubsetSize(a: set<nat>, b: set<nat>)
    requires a <= b
    ensures |a| <= |b|
    decreases a
  {
    if a != {} {
      var x :| x in a;
      SubsetSize(a - {x}, b - {x});
    }
  }

  ghost predicate NoRepeats<T>(s: seq<T>) {
    forall i, j {:trigger s[i], s[j]} :: 0 <= i < j < |s| ==> s[i] != s[j]
  }

  lemma {:induction false} DistinctSize(s: seq<nat>, members: set<nat>)
    requires NoRepeats(s) && members == set x | x in s
    ensures |members| == |s|
  {
    if s != [] {
      var rest := s[..|s| - 1];
      var others := set x | x in rest;
      DistinctSize(rest, others);
      assert members == others + {s[|s| - 1]};
    }
  }

  /** Distinct indices below `n`, with `d` missing, leave room for it. */
  lemma RoomFor(s: seq<nat>, d: nat, n: nat)
    requires NoRepeats(s) && (forall x :: x in s ==> x < n) && d < n && d !in s
    ensures |s| < n
  {
    var members := set x | x in s;
    DistinctSize(s, members);
    SubsetSize(members + {d}, Between(0, n));
  }

  // ---- division and bits ----

  lemma DivideMeans(a: nat, b: nat, k: nat)
    requires b > 0
    ensures k <= a / b <==> k * b <= a
  {
    var q, r := a / b, a % b;
    assert a == q * b + r;
    if k <= q { assert k * b <= q * b; } else { assert k * b >= (q + 1) * b; }
  }

  function PowerOfTwo(n: nat): (p: nat)
    ensures p > 0
  {
    if n == 0 then 1 else 2 * PowerOfTwo(n - 1)
  }

  predicate Bit(word: nat, bit: nat) {
    word / PowerOfTwo(bit) % 2 == 1
  }

  // ---- little-endian words ----

  function Bytes(v: nat, n: nat): (b: seq<byte>)
    ensures |b| == n
    decreases n
  {
    if n == 0 then [] else [(v % 256) as byte] + Bytes(v / 256, n - 1)
  }

  function Value(b: seq<byte>): nat {
    if b == [] then 0 else b[0] as nat + 256 * Value(b[1..])
  }

  function Power(n: nat): (p: nat)
    ensures p > 0
  {
    if n == 0 then 1 else 256 * Power(n - 1)
  }

  /** A stored word reads back. */
  lemma {:induction false} BytesRoundTrip(v: nat, n: nat)
    requires v < Power(n)
    ensures Value(Bytes(v, n)) == v
    decreases n
  {
    if n > 0 {
      BytesRoundTrip(v / 256, n - 1);
      assert Bytes(v, n)[1..] == Bytes(v / 256, n - 1);
    }
  }

  lemma Power4And8()
    ensures Power(4) == U32_LIMIT && Power(8) == U64_LIMIT
  {
    assert Power(4) == 256 * (256 * (256 * 256));
  }
}
