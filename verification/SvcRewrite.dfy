/** The packager: which text it accepts, the veneer it emits, and the payload it builds. */
module SvcRewrite {
  import opened Base
  import opened SvcMachine

  const SVC: nat := 0xd400_0001

  // ---- inspection ----

  predicate Free(r: nat) {
    r != 18 && r != 27 && r != 28
  }

  /** One word at `pc` of a text of `textSize` bytes inside an image of `size` bytes. */
  predicate Admits(w: nat, pc: nat, size: nat, textSize: nat) {
    match Decode(w)
    case None => false
    case Some(i) =>
      match i
      case Svc => true
      case Nop => true
      case MovImm(_, rd, _, _) => Free(rd)
      case MovReg(rd, rm) => Free(rd) && Free(rm)
      case CmpImm(rn, _) => Free(rn)
      case CmpReg(rn, rm) => Free(rn) && Free(rm)
      case Adr(rd, offset) => Free(rd) && 0 <= pc + offset < size
      case B(offset) => 0 <= pc + offset < textSize
      case BCond(_, offset) => 0 <= pc + offset < textSize
      case CompareBranch(_, _, rt, offset) => Free(rt) && 0 <= pc + offset < textSize
      case Ldr(rt, rn, _) => Free(rt) && Free(rn)
      case Str(rt, rn, _) => Free(rt) && Free(rn)
      case _ => false
  }

  /** The general registers an instruction names. */
  function Names(i: Inst): set<nat> {
    match i
    case MovImm(_, rd, _, _) => {rd}
    case MovReg(rd, rm) => {rd, rm}
    case CmpImm(rn, _) => {rn}
    case CmpReg(rn, rm) => {rn, rm}
    case Adr(rd, _) => {rd}
    case CompareBranch(_, _, rt, _) => {rt}
    case Ldr(rt, rn, _) => {rt, rn}
    case Str(rt, rn, _) => {rt, rn}
    case _ => {}
  }

  /** What is audited: a plain instruction that names none of the registers kept for the bridge, an address inside the
      image, or a branch inside the text. */
  lemma AdmitsExactly(w: nat, pc: nat, size: nat, textSize: nat)
    ensures Admits(w, pc, size, textSize) <==>
              && Decode(w).Some? && Names(Decode(w).value) !! {18, 27, 28}
              && match Decode(w).value
                 case Svc | Nop | MovImm(_, _, _, _) | MovReg(_, _) | CmpImm(_, _) | CmpReg(_, _) | Ldr(_, _, _)
                   | Str(_, _, _) => true
                 case Adr(_, offset) => 0 <= pc + offset < size
                 case B(_) | BCond(_, _) | CompareBranch(_, _, _, _) => 0 <= pc + Decode(w).value.offset < textSize
                 case _ => false
  {
    hide Decode;
    if Decode(w).Some? {
      var names := Names(Decode(w).value);
      assert names !! {18, 27, 28} <==> forall r :: r in names ==> Free(r);
    }
  }

  /** Instruction `k` of an image. */
  function Text(image: seq<byte>, k: nat): (w: nat)
    requires 4 * k + 4 <= |image|
    ensures w < U32_LIMIT
  {
    Word(image, 4 * k)
  }

  /** The offsets of the SVC instructions among the first `n`, in order. */
  function Sites(image: seq<byte>, n: nat): seq<nat>
    requires 4 * n <= |image|
  {
    if n == 0 then []
    else Sites(image, n - 1) + if Text(image, n - 1) == SVC then [4 * (n - 1)] else []
  }

  predicate IsSite(image: seq<byte>, n: nat, at: nat)
    requires 4 * n <= |image|
  {
    at % 4 == 0 && at / 4 < n && Text(image, at / 4) == SVC
  }

  lemma SiteGrows(image: seq<byte>, n: nat, at: nat)
    requires n > 0 && 4 * n <= |image|
    ensures IsSite(image, n - 1, at) ==> IsSite(image, n, at) && at < 4 * (n - 1)
    ensures Text(image, n - 1) == SVC ==> IsSite(image, n, 4 * (n - 1))
  {
    hide Text;
  }

  lemma {:induction false} SitesAre(image: seq<byte>, n: nat)
    requires 4 * n <= |image|
    ensures |Sites(image, n)| <= n && (forall at :: at in Sites(image, n) ==> IsSite(image, n, at))
    ensures forall i, j {:trigger Sites(image, n)[i], Sites(image, n)[j]} :: 0 <= i < j < |Sites(image, n)| ==>
              Sites(image, n)[i] < Sites(image, n)[j]
    ensures forall k: nat {:trigger Text(image, k)} :: k < n && Text(image, k) == SVC ==> 4 * k in Sites(image, n)
  {
    hide Text, IsSite;
    if n > 0 {
      SitesAre(image, n - 1);
      forall at: nat
        ensures IsSite(image, n - 1, at) ==> IsSite(image, n, at) && at < 4 * (n - 1)
      {
        SiteGrows(image, n, at);
      }
      SiteGrows(image, n, 0);
      var r, r' := Sites(image, n), Sites(image, n - 1);
      forall i, j | 0 <= i < j < |r| ensures r[i] < r[j] {
        assert r[i] == r'[i] && r'[i] in r' && IsSite(image, n - 1, r'[i]);
        if j < |r'| { assert r[j] == r'[j]; } else { SiteGrows(image, n, r'[i]); }
      }
    }
  }

  lemma SiteIn(image: seq<byte>, n: nat, at: nat)
    requires 4 * n <= |image| && IsSite(image, n, at)
    ensures at % 4 == 0 && at + 4 <= 4 * n && Word(image, at) == SVC
  {
    assert at == 4 * (at / 4);
  }

  lemma AllSitesIn(image: seq<byte>, n: nat)
    requires 4 * n <= |image|
    ensures SitesIn(Sites(image, n), 4 * n)
  {
    SitesAre(image, n);
    hide IsSite, Sites;
    forall i | 0 <= i < |Sites(image, n)| ensures Sites(image, n)[i] + 4 <= 4 * n {
      assert Sites(image, n)[i] in Sites(image, n);
      SiteIn(image, n, Sites(image, n)[i]);
    }
  }

  ghost predicate TextOk(image: seq<byte>, textSize: nat) {
    textSize > 0 && textSize % 4 == 0 && textSize <= |image|
  }

  /** No fall-through into constants, only audited instructions, and something to rewrite. */
  ghost predicate Accepted(image: seq<byte>, textSize: nat)
    requires TextOk(image, textSize)
  {
    var n := textSize / 4;
    && Text(image, n - 1) / 0x400_0000 == 5
    && (forall k: nat {:trigger Text(image, k)} :: k < n ==> Admits(Text(image, k), 4 * k, |image|, textSize))
    && Sites(image, n) != []
  }

  method InspectText(image: seq<byte>, textSize: nat) returns (r: Option<seq<nat>>)
    requires TextOk(image, textSize)
    ensures r.Some? <==> Accepted(image, textSize)
    ensures r.Some? ==> r.value == Sites(image, textSize / 4)
  {
    hide Decode, Word, Admits, Text;
    if Text(image, textSize / 4 - 1) / 0x400_0000 != 5 { return None; }
    var sites: seq<nat> := [];
    for k := 0 to textSize / 4
      invariant sites == Sites(image, k)
      invariant forall j: nat {:trigger Text(image, j)} :: j < k ==> Admits(Text(image, j), 4 * j, |image|, textSize)
    {
      var word := Text(image, k);
      if !Admits(word, 4 * k, |image|, textSize) { return None; }
      if word == SVC { sites := sites + [4 * k]; }
    }
    if sites == [] { return None; }
    return Some(sites);
  }

  // ---- branches and veneers ----

  predicate InRange(distance: int) {
    distance % 4 == 0 && -0x800_0000 <= distance < 0x800_0000
  }

  /** An unconditional branch, when the distance can be encoded. */
  function Branch(source: nat, target: nat): (w: Option<nat>)
    ensures w.Some? <==> InRange(target - source)
    ensures w.Some? ==> w.value < U32_LIMIT && Decode(w.value) == Some(B(target - source))
  {
    var distance := target - source;
    if !InRange(distance) then None
    else
      BranchDecodes(distance);
      Some(0x1400_0000 + distance / 4 % 0x400_0000)
  }

  lemma BranchDecodes(distance: int)
    requires InRange(distance)
    ensures var w := 0x1400_0000 + distance / 4 % 0x400_0000;
            w < U32_LIMIT && Decode(w) == Some(B(distance))
  {
    var field := distance / 4 % 0x400_0000;
    var w := 0x1400_0000 + field;
    assert w / 0x400_0000 == 5 && w % 0x400_0000 == field;
    assert Signed(field, 0x400_0000) == distance / 4;
    assert w / 0x80_0000 == 40 + field / 0x80_0000;
    assert w / 0x20_0000 == 160 + field / 0x20_0000;
    assert w / 0x40_0000 == 80 + field / 0x40_0000;
    assert w / 0x100_0000 % 32 == 20 + field / 0x100_0000;
  }

  /** The register pairs a veneer saves: x1 to x16, then x17 with the link register. */
  function First(index: nat): nat {
    if index < 8 then 2 * index + 1 else 17
  }

  function Second(index: nat): nat {
    if index < 8 then 2 * index + 2 else 30
  }

  function PairWord(opcode: nat, immediate: nat, second: nat, first: nat): nat {
    opcode + immediate * 0x8000 + second * 0x400 + 31 * 0x20 + first
  }

  function SaveWord(index: nat): nat {
    if index == 0 then PairWord(0xa980_0000, -160 / 8 % 128, Second(0), First(0))
    else PairWord(0xa900_0000, index * 2, Second(index), First(index))
  }

  function RestoreWord(index: nat): nat {
    PairWord(0xa940_0000, index * 2, Second(index), First(index))
  }

  /** The call's arguments: x7 to x2 from x5 to x0, x1 the number, x0 the bridge context. */
  function MoveSource(index: nat): nat {
    if index < 6 then 5 - index else if index == 6 then 8 else 27
  }

  function MoveWord(index: nat): nat
    requires index < 8
  {
    0xaa00_03e0 + MoveSource(index) * 0x1_0000 + (7 - index)
  }

  const RETURN: nat := PairWord(0xa8c0_0000, 20, 2, 1)

  /** The thirty-one words before the branch back. */
  function VeneerBody(): (r: seq<nat>)
    ensures |r| == 31
  {
    seq(9, i requires 0 <= i < 9 => SaveWord(i)) + [0xd53b_4209, 0xf900_4be9]
    + seq(8, i requires 0 <= i < 8 => MoveWord(i)) + [0xd63f_0380, 0xf940_4be9, 0xd51b_4209]
    + seq(8, i requires 0 <= i < 8 => RestoreWord(i + 1)) + [RETURN]
  }

  function Veneer(address: nat, resume: nat): (r: Option<seq<nat>>)
    ensures r.Some? <==> InRange(resume - (address + 124))
    ensures r.Some? ==>
              |r.value| == 32 && r.value[..31] == VeneerBody()
              && Decode(r.value[31]) == Some(B(resume - (address + 124)))
  {
    var back := Branch(address + 124, resume);
    if back.None? then None else Some(VeneerBody() + [back.value])
  }

  /** The tool's own loops build the same words. */
  method BuildVeneer(address: nat, resume: nat) returns (r: Option<seq<nat>>)
    ensures r == Veneer(address, resume)
  {
    var words := [];
    for index := 0 to 9
      invariant words == seq(index, i requires 0 <= i < index => SaveWord(i))
    {
      words := words + [SaveWord(index)];
    }
    words := words + [0xd53b_4209, 0xf900_4be9];
    ghost var saved := words;
    for index := 0 to 8
      invariant words == saved + seq(index, i requires 0 <= i < index => MoveWord(i))
    {
      words := words + [MoveWord(index)];
    }
    words := words + [0xd63f_0380, 0xf940_4be9, 0xd51b_4209];
    ghost var called := words;
    for index := 1 to 9
      invariant words == called + seq(index - 1, i requires 0 <= i < index - 1 => RestoreWord(i + 1))
    {
      words := words + [RestoreWord(index)];
    }
    words := words + [RETURN];
    assert words == VeneerBody();
    var back := Branch(address + |words| * 4, resume);
    r := if back.None? then None else Some(words + [back.value]);
  }

  /** What each word of a veneer does. */
  function VeneerInst(j: nat): Inst
    requires j < 31
  {
    if j == 0 then StpPre(1, 2, 31, -160)
    else if j < 9 then Stp(First(j), Second(j), 31, 16 * j)
    else if j == 9 then MrsFlags(9)
    else if j == 10 then Str(9, 31, 144)
    else if j < 19 then MovReg(18 - j, MoveSource(j - 11))
    else if j == 19 then Blr(28)
    else if j == 20 then Ldr(9, 31, 144)
    else if j == 21 then MsrFlags(9)
    else if j < 30 then Ldp(First(j - 21), Second(j - 21), 31, 16 * (j - 21))
    else LdpPost(1, 2, 31, 160)
  }

  lemma PairDecodes(index: nat)
    requires index < 9
    ensures SaveWord(index) < U32_LIMIT && Decode(SaveWord(index)) == Some(VeneerInst(index))
    ensures index > 0 ==>
              RestoreWord(index) < U32_LIMIT && Decode(RestoreWord(index))
              == Some(Ldp(First(index), Second(index), 31, 16 * index))
  {
    hide Decode;
    PairFields(if index == 0 then 0x2a6 else 0x2a4, if index == 0 then 108 else 2 * index, Second(index), First(index));
    if index > 0 { PairFields(0x2a5, 2 * index, Second(index), First(index)); }
  }

  /** Which of the decoder's tests a pair instruction passes. */
  lemma PairOnly(w: nat, op: nat)
    requires 0x2a3 <= op <= 0x2a6 && w / 0x40_0000 == op
    ensures Decode(w) == Some(if op == 0x2a6 then StpPre(Pair(w).0, Pair(w).1, Pair(w).2, Pair(w).3)
                              else if op == 0x2a4 then Stp(Pair(w).0, Pair(w).1, Pair(w).2, Pair(w).3)
                              else if op == 0x2a5 then Ldp(Pair(w).0, Pair(w).1, Pair(w).2, Pair(w).3)
                              else LdpPost(Pair(w).0, Pair(w).1, Pair(w).2, Pair(w).3))
  {
    hide Pair;
    var rest := w % 0x40_0000;
    assert w == op * 0x40_0000 + rest;
    assert w / 0x80_0000 == op / 2;
    assert w / 0x20_0000 == op * 2 + rest / 0x20_0000;
    assert w / 0x8000_0000 == 1;
    assert w / 0x100_0000 == op / 4;
    assert w / 0x200_0000 == op / 8;
    assert w / 0x400_0000 == op / 16;
  }

  lemma PairParts(op: nat, immediate: nat, second: nat, first: nat)
    requires 0x2a3 <= op <= 0x2a6 && immediate < 128 && second < 32 && first < 32
    ensures var w := PairWord(op * 0x40_0000, immediate, second, first);
            w < U32_LIMIT && w / 0x40_0000 == op && Pair(w) == (first, second, 31, Signed(immediate, 128) * 8)
  {
    var w := PairWord(op * 0x40_0000, immediate, second, first);
    hide Signed;
    var upper := op * 128 + immediate;
    assert w == upper * 0x8000 + second * 0x400 + 31 * 0x20 + first;
    assert w % 32 == first && w / 0x20 == upper * 0x400 + second * 0x20 + 31;
    assert w / 0x400 == upper * 0x20 + second;
    assert w / 0x8000 == upper && w / 0x40_0000 == op;
  }

  lemma PairFields(op: nat, immediate: nat, second: nat, first: nat)
    requires 0x2a3 <= op <= 0x2a6 && immediate < 128 && second < 32 && first < 32
    ensures var w := PairWord(op * 0x40_0000, immediate, second, first);
            && w < U32_LIMIT
            && Decode(w) == Some(if op == 0x2a6 then StpPre(first, second, 31, Signed(immediate, 128) * 8)
                                 else if op == 0x2a4 then Stp(first, second, 31, Signed(immediate, 128) * 8)
                                 else if op == 0x2a5 then Ldp(first, second, 31, Signed(immediate, 128) * 8)
                                 else LdpPost(first, second, 31, Signed(immediate, 128) * 8))
  {
    var w := PairWord(op * 0x40_0000, immediate, second, first);
    hide Decode, Signed;
    PairParts(op, immediate, second, first);
    PairOnly(w, op);
  }

  lemma MoveDecodes(index: nat)
    requires index < 8
    ensures MoveWord(index) < U32_LIMIT && Decode(MoveWord(index)) == Some(MovReg(7 - index, MoveSource(index)))
  {
    var w := MoveWord(index);
    assert w / 0x20_0000 == 0x550 && w % 32 == 7 - index;
    assert w / 0x20 % 0x800 == 31;
    assert w / 0x1_0000 % 32 == MoveSource(index);
  }

  lemma FixedDecode()
    ensures Decode(0xd53b_4209) == Some(MrsFlags(9)) && Decode(0xf900_4be9) == Some(Str(9, 31, 144))
    ensures Decode(0xd63f_0380) == Some(Blr(28)) && Decode(0xf940_4be9) == Some(Ldr(9, 31, 144))
    ensures Decode(0xd51b_4209) == Some(MsrFlags(9)) && Decode(RETURN) == Some(LdpPost(1, 2, 31, 160))
            && RETURN < U32_LIMIT
  {
    PairFields(0x2a3, 20, 2, 1);
  }

  lemma VeneerDecodes(j: nat)
    requires j < 31
    ensures VeneerBody()[j] < U32_LIMIT && Decode(VeneerBody()[j]) == Some(VeneerInst(j))
  {
    FixedDecode();
    hide Decode;
    if j < 9 { PairDecodes(j); }
    else if 11 <= j < 19 { MoveDecodes(j - 11); }
    else if 22 <= j < 30 { PairDecodes(j - 21); }
  }

  // ---- the payload ----

  /** Words laid out one after another. */
  function PackAll(words: seq<nat>): (b: seq<byte>)
    requires forall i {:trigger words[i]} :: 0 <= i < |words| ==> words[i] < U32_LIMIT
    ensures |b| == 4 * |words|
  {
    if words == [] then [] else PackAll(words[..|words| - 1]) + Pack(words[|words| - 1])
  }

  lemma WordIn(a: seq<byte>, b: seq<byte>, at: nat, from: nat)
    requires at + 4 <= |a| && from + 4 <= |b| && a[at..at + 4] == b[from..from + 4]
    ensures Word(a, at) == Word(b, from)
  {
    assert forall i {:trigger a[at + i]} {:trigger b[from + i]} :: 0 <= i < 4 ==>
             a[at + i] == a[at..at + 4][i] == b[from..from + 4][i] == b[from + i];
    assert a[at + 0] == b[from + 0] && a[at + 1] == b[from + 1] && a[at + 2] == b[from + 2] && a[at + 3] == b[from + 3];
  }

  lemma {:induction false} PackAllWord(words: seq<nat>, j: nat)
    requires j < |words| && forall i {:trigger words[i]} :: 0 <= i < |words| ==> words[i] < U32_LIMIT
    ensures Word(PackAll(words), 4 * j) == words[j]
  {
    hide Word, Pack;
    var n := |words| - 1;
    var b, c := PackAll(words), PackAll(words[..n]);
    if j < n {
      PackAllWord(words[..n], j);
      assert b[4 * j..4 * j + 4] == c[4 * j..4 * j + 4];
      WordIn(b, c, 4 * j, 4 * j);
    } else {
      var last := Pack(words[n]);
      assert b[4 * n..4 * n + 4] == last[0..4];
      WordIn(b, last, 4 * n, 0);
    }
  }

  /** The image, padded to whole words. */
  function Padded(image: seq<byte>): (r: seq<byte>)
    ensures |r| % 4 == 0 && |image| <= |r| < |image| + 4 && r[..|image|] == image
  {
    image + seq(-|image| % 4, _ => 0)
  }

  function VeneerBytes(address: nat, resume: nat): (r: Option<seq<byte>>)
    ensures r.Some? ==> |r.value| == 128
  {
    var v := Veneer(address, resume);
    if v.None? then None
    else
      VeneerWords(address, resume);
      Some(PackAll(v.value))
  }

  lemma VeneerWords(address: nat, resume: nat)
    requires Veneer(address, resume).Some?
    ensures forall i {:trigger Veneer(address, resume).value[i]} :: 0 <= i < 32 ==>
              Veneer(address, resume).value[i] < U32_LIMIT
  {
    var v := Veneer(address, resume).value;
    hide Decode, VeneerBody;
    forall i | 0 <= i < 32 ensures v[i] < U32_LIMIT {
      if i < 31 {
        VeneerDecodes(i);
        assert v[i] == v[..31][i];
      }
    }
  }

  /** One site: append its veneer, then branch to it. */
  function RewriteOne(payload: seq<byte>, site: nat): (r: Option<seq<byte>>)
    requires site + 4 <= |payload|
    ensures r.Some? ==> |r.value| == |payload| + 128
  {
    var code := VeneerBytes(|payload|, site + 4);
    var jump := Branch(site, |payload|);
    if code.None? || jump.None? then None else Some(Splice(payload + code.value, site, Pack(jump.value)))
  }

  ghost predicate SitesIn(sites: seq<nat>, size: nat) {
    forall i {:trigger sites[i]} :: 0 <= i < |sites| ==> sites[i] + 4 <= size
  }

  /** The payload once the first `k` sites branch to veneers appended in order. */
  function Rewritten(image: seq<byte>, sites: seq<nat>, k: nat): (r: Option<seq<byte>>)
    requires k <= |sites| && SitesIn(sites, |image|)
    ensures r.Some? ==> |r.value| == |Padded(image)| + 128 * k
  {
    if k == 0 then Some(Padded(image))
    else
      var before := Rewritten(image, sites, k - 1);
      if before.None? then None else RewriteOne(before.value, sites[k - 1])
  }

  function Payload(image: seq<byte>, textSize: nat): Option<seq<byte>>
    requires TextOk(image, textSize)
  {
    var sites := Sites(image, textSize / 4);
    AllSitesIn(image, textSize / 4);
    Rewritten(image, sites, |sites|)
  }

  /** The tool's loop; it fails on unacceptable text and on branches out of range only. */
  method Transform(image: seq<byte>, textSize: nat) returns (r: Option<seq<byte>>)
    requires TextOk(image, textSize)
    ensures r == if Accepted(image, textSize) then Payload(image, textSize) else None
  {
    hide Accepted, Sites, RewriteOne, Text;
    var inspected := InspectText(image, textSize);
    if inspected.None? { return None; }
    var sites := inspected.value;
    AllSitesIn(image, textSize / 4);
    var payload := Padded(image);
    for k := 0 to |sites|
      invariant Rewritten(image, sites, k) == Some(payload)
    {
      var patched := Patch(payload, sites[k]);
      if patched.None? {
        RewrittenFails(image, sites, k + 1);
        return None;
      }
      payload := patched.value;
    }
    return Some(payload);
  }

  method Patch(payload: seq<byte>, site: nat) returns (r: Option<seq<byte>>)
    requires site + 4 <= |payload|
    ensures r == RewriteOne(payload, site)
  {
    hide Veneer, Pack, PackAll;
    var words := BuildVeneer(|payload|, site + 4);
    var jump := Branch(site, |payload|);
    if words.None? || jump.None? { return None; }
    VeneerWords(|payload|, site + 4);
    var longer := payload + PackAll(words.value);
    return Some(Splice(longer, site, Pack(jump.value)));
  }

  lemma {:induction false} RewrittenFails(image: seq<byte>, sites: seq<nat>, k: nat)
    requires k <= |sites| && SitesIn(sites, |image|) && Rewritten(image, sites, k).None?
    ensures Rewritten(image, sites, |sites|).None?
    decreases |sites| - k
  {
    if k < |sites| { RewrittenFails(image, sites, k + 1); }
  }

  // ---- what the payload holds ----

  /** Rewriting a site changes that word and appends; every other word stays. */
  lemma RewriteOneKeeps(payload: seq<byte>, site: nat, at: nat)
    requires site + 4 <= |payload| && RewriteOne(payload, site).Some? && at + 4 <= |payload|
             && (at + 4 <= site || site + 4 <= at)
    ensures Word(RewriteOne(payload, site).value, at) == Word(payload, at)
  {
    hide Word, VeneerBytes, Branch, Pack;
    var after := RewriteOne(payload, site).value;
    assert after[at..at + 4] == payload[at..at + 4];
    WordIn(after, payload, at, at);
  }

  lemma RewriteOneJumps(payload: seq<byte>, site: nat)
    requires site + 4 <= |payload| && RewriteOne(payload, site).Some?
    ensures Branch(site, |payload|).Some? && Word(RewriteOne(payload, site).value, site)
            == Branch(site, |payload|).value
  {
    hide VeneerBytes, Branch, Word;
    var after := RewriteOne(payload, site).value;
    var jump := Pack(Branch(site, |payload|).value);
    assert after[site..site + 4] == jump[0..4];
    WordIn(after, jump, site, 0);
  }

  lemma RewriteOneAppends(payload: seq<byte>, site: nat, j: nat)
    requires site + 4 <= |payload| && RewriteOne(payload, site).Some? && j < 32
    ensures Veneer(|payload|, site + 4).Some?
    ensures Word(RewriteOne(payload, site).value, |payload| + 4 * j) == Veneer(|payload|, site + 4).value[j]
  {
    hide Branch, Word, Pack, PackAll, Veneer;
    VeneerWords(|payload|, site + 4);
    var after := RewriteOne(payload, site).value;
    var code := VeneerBytes(|payload|, site + 4).value;
    assert after[|payload| + 4 * j..|payload| + 4 * j + 4] == code[4 * j..4 * j + 4];
    WordIn(after, code, |payload| + 4 * j, 4 * j);
    PackAllWord(Veneer(|payload|, site + 4).value, j);
  }

  /** Where the veneer of site number `m` starts. */
  function VeneerAt(image: seq<byte>, m: nat): nat {
    |Padded(image)| + 128 * m
  }

  ghost predicate SiteDone(image: seq<byte>, payload: seq<byte>, site: nat, m: nat) {
    var at := VeneerAt(image, m);
    && site + 4 <= at && at + 128 <= |payload|
    && Branch(site, at).Some? && Word(payload, site) == Branch(site, at).value
    && Veneer(at, site + 4).Some? && forall j {:trigger Veneer(at, site + 4).value[j]} :: 0 <= j < 32 ==>
         Word(payload, at + 4 * j) == Veneer(at, site + 4).value[j]
  }

  ghost predicate Increasing(sites: seq<nat>) {
    && (forall i {:trigger sites[i]} :: 0 <= i < |sites| ==> sites[i] % 4 == 0)
    && (forall i, j {:trigger sites[i], sites[j]} :: 0 <= i < j < |sites| ==> sites[i] < sites[j])
  }

  lemma WordsApart(a: nat, b: nat)
    requires a % 4 == 0 && b % 4 == 0 && a != b
    ensures a + 4 <= b || b + 4 <= a
  {
  }

  lemma Apart(sites: seq<nat>, i: nat, j: nat)
    requires Increasing(sites) && i < |sites| && j < |sites| && i != j
    ensures sites[i] + 4 <= sites[j] || sites[j] + 4 <= sites[i]
  {
    WordsApart(sites[i], sites[j]);
  }

  lemma SiteDoneKept(image: seq<byte>, sites: seq<nat>, k: nat, m: nat, payload: seq<byte>)
    requires SitesIn(sites, |image|) && Increasing(sites) && m < k < |sites| && |payload| == VeneerAt(image, k)
    requires SiteDone(image, payload, sites[m], m) && RewriteOne(payload, sites[k]).Some?
    ensures SiteDone(image, RewriteOne(payload, sites[k]).value, sites[m], m)
  {
    var after := RewriteOne(payload, sites[k]).value;
    var at := VeneerAt(image, m);
    hide RewriteOne, Veneer, Branch, Word;
    Apart(sites, m, k);
    RewriteOneKeeps(payload, sites[k], sites[m]);
    forall j | 0 <= j < 32 ensures Word(after, at + 4 * j) == Veneer(at, sites[m] + 4).value[j] {
      RewriteOneKeeps(payload, sites[k], at + 4 * j);
    }
  }

  lemma RewrittenIs(image: seq<byte>, sites: seq<nat>, k: nat)
    requires SitesIn(sites, |image|) && 0 < k <= |sites|
    ensures var before := Rewritten(image, sites, k - 1);
            && (Rewritten(image, sites, k).Some? ==> before.Some?)
            && (before.Some? ==>
                 |before.value| == VeneerAt(image, k - 1) && |before.value| % 4 == 0
                 && sites[k - 1] + 4 <= |before.value|
                                 && Rewritten(image, sites, k) == RewriteOne(before.value, sites[k - 1]))
  {
    hide RewriteOne;
    PaddedSize(image, k - 1);
  }

  lemma PaddedSize(image: seq<byte>, k: nat)
    ensures VeneerAt(image, k) % 4 == 0 && |image| + 128 * k <= VeneerAt(image, k) < |image| + 4 + 128 * k
  {
  }

  lemma PaddedWord(image: seq<byte>, at: nat)
    requires at + 4 <= |image|
    ensures Word(Padded(image), at) == Word(image, at)
  {
    hide Word;
    assert Padded(image)[at..at + 4] == image[at..at + 4];
    WordIn(Padded(image), image, at, at);
  }

  lemma NewSiteDone(image: seq<byte>, before: seq<byte>, site: nat, m: nat)
    requires |before| == VeneerAt(image, m) && site + 4 <= |before| && RewriteOne(before, site).Some?
    ensures SiteDone(image, RewriteOne(before, site).value, site, m)
  {
    hide RewriteOne, Veneer, Branch, Word;
    RewriteOneJumps(before, site);
    RewriteOneAppends(before, site, 0);
    forall j | 0 <= j < 32
      ensures Word(RewriteOne(before, site).value, |before| + 4 * j) == Veneer(|before|, site + 4).value[j]
    {
      RewriteOneAppends(before, site, j);
    }
  }

  lemma {:induction false} RewrittenSites(image: seq<byte>, sites: seq<nat>, k: nat, m: nat)
    requires SitesIn(sites, |image|) && Increasing(sites) && m < k <= |sites| && Rewritten(image, sites, k).Some?
    ensures SiteDone(image, Rewritten(image, sites, k).value, sites[m], m)
  {
    hide *;
    RewrittenIs(image, sites, k);
    var before := Rewritten(image, sites, k - 1).value;
    if m < k - 1 {
      RewrittenSites(image, sites, k - 1, m);
      SiteDoneKept(image, sites, k - 1, m, before);
    } else {
      NewSiteDone(image, before, sites[m], m);
    }
  }

  /** Words of the image outside the rewritten sites are the original's. */
  lemma {:induction false} RewrittenElsewhere(image: seq<byte>, sites: seq<nat>, k: nat, at: nat)
    requires SitesIn(sites, |image|) && Increasing(sites) && k <= |sites| && Rewritten(image, sites, k).Some?
    requires at % 4 == 0 && at + 4 <= |image| && at !in sites
    ensures at + 4 <= |Rewritten(image, sites, k).value|
            && Word(Rewritten(image, sites, k).value, at) == Word(image, at)
  {
    hide *;
    if k == 0 {
      RewrittenStart(image, sites, at);
    } else {
      OtherWord(sites, k - 1, at);
      RewrittenIs(image, sites, k);
      RewrittenElsewhere(image, sites, k - 1, at);
      RewriteOneKeeps(Rewritten(image, sites, k - 1).value, sites[k - 1], at);
    }
  }

  lemma RewrittenStart(image: seq<byte>, sites: seq<nat>, at: nat)
    requires SitesIn(sites, |image|) && at + 4 <= |image|
    ensures Rewritten(image, sites, 0) == Some(Padded(image)) && Word(Padded(image), at) == Word(image, at)
  {
    PaddedWord(image, at);
  }

  lemma OtherWord(sites: seq<nat>, i: nat, at: nat)
    requires Increasing(sites) && i < |sites| && at % 4 == 0 && at !in sites
    ensures at + 4 <= sites[i] || sites[i] + 4 <= at
  {
    assert sites[i] in sites && sites[i] % 4 == 0;
    WordsApart(at, sites[i]);
  }

  /** Not a byte of a rewritten word. */
  ghost predicate Outside(sites: seq<nat>, b: nat) {
    forall i {:trigger sites[i]} :: 0 <= i < |sites| ==> b < sites[i] || sites[i] + 4 <= b
  }

  lemma OutsideAt(sites: seq<nat>, b: nat, i: nat)
    requires Outside(sites, b) && i < |sites|
    ensures b < sites[i] || sites[i] + 4 <= b
  {
  }

  lemma PaddedByte(image: seq<byte>, sites: seq<nat>, b: nat)
    requires SitesIn(sites, |image|) && b < |image|
    ensures Rewritten(image, sites, 0) == Some(Padded(image)) && b < |Padded(image)| && Padded(image)[b] == image[b]
  {
    assert Padded(image)[..|image|][b] == Padded(image)[b];
  }

  /** Constants and every other byte outside rewritten words stay in place. */
  lemma {:induction false} RewrittenBytes(image: seq<byte>, sites: seq<nat>, k: nat, b: nat)
    requires SitesIn(sites, |image|) && k <= |sites| && Rewritten(image, sites, k).Some? && b < |image|
             && Outside(sites, b)
    ensures b < |Rewritten(image, sites, k).value| && Rewritten(image, sites, k).value[b] == image[b]
  {
    hide *;
    if k == 0 {
      PaddedByte(image, sites, b);
    } else {
      OutsideAt(sites, b, k - 1);
      RewrittenIs(image, sites, k);
      RewrittenBytes(image, sites, k - 1, b);
      RewriteOneByte(Rewritten(image, sites, k - 1).value, sites[k - 1], b);
    }
  }

  lemma RewriteOneByte(payload: seq<byte>, site: nat, b: nat)
    requires site + 4 <= |payload| && RewriteOne(payload, site).Some? && b < |payload| && (b < site || site + 4 <= b)
    ensures RewriteOne(payload, site).value[b] == payload[b]
  {
    hide VeneerBytes, Branch, Pack;
  }

  lemma SitesIncrease(image: seq<byte>, n: nat)
    requires 4 * n <= |image|
    ensures Increasing(Sites(image, n)) && SitesIn(Sites(image, n), |image|)
  {
    SitesAre(image, n);
    AllSitesIn(image, n);
    hide Sites, IsSite;
    forall i | 0 <= i < |Sites(image, n)| ensures Sites(image, n)[i] % 4 == 0 {
      assert Sites(image, n)[i] in Sites(image, n);
      SiteIn(image, n, Sites(image, n)[i]);
    }
  }

  /** Images the packager reads are at most 1 MiB, so no veneer is ever out of branch range. */
  lemma {:induction false} AlwaysInRange(image: seq<byte>, sites: seq<nat>, k: nat)
    requires SitesIn(sites, |image|) && Increasing(sites) && k <= |sites| && |image| <= 0x10_0000
             && 4 * |sites| <= |image|
    ensures Rewritten(image, sites, k).Some?
  {
    if k > 0 {
      var m := k - 1;
      assert sites[m] % 4 == 0 && sites[m] + 4 <= |image|;
      hide *;
      AlwaysInRange(image, sites, m);
      RewrittenIs(image, sites, k);
      PaddedSize(image, m);
      var before := Rewritten(image, sites, m).value;
      assert |before| <= 0x400_0000;
      Reaches(before, sites[m]);
    }
  }

  lemma Reaches(payload: seq<byte>, site: nat)
    requires site % 4 == 0 && |payload| % 4 == 0 && site + 4 <= |payload| <= 0x400_0000
    ensures RewriteOne(payload, site).Some?
  {
    assert InRange(|payload| - site) && InRange(site + 4 - (|payload| + 124));
    hide Pack, PackAll, VeneerBody, Decode, InRange;
  }

  /** Packaging fails only on text the inspection rejects. */
  lemma PayloadExists(image: seq<byte>, textSize: nat)
    requires TextOk(image, textSize) && |image| <= 0x10_0000
    ensures Payload(image, textSize).Some?
  {
    var n := textSize / 4;
    SitesAre(image, n);
    SitesIncrease(image, n);
    hide Sites, Rewritten;
    AlwaysInRange(image, Sites(image, n), |Sites(image, n)|);
  }
}
