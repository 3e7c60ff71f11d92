/** Sending objects: what a parcel claims for its receiver, and what a refused parcel leaves behind. */
module BinderParcels {
  import opened Base
  import opened BinderArena
  import opened BinderWire
  import opened BinderState
  import opened BinderCommands
  import opened BinderLifetime

  /** A reference counted at least as often, or a new one of `target`. */
  ghost predicate RefGrown(r: Reference, r': Reference, target: nat) {
    if r.endpoint != 0 then r' == r.(temporary := r'.temporary) && r'.temporary >= r.temporary
    else r' == r || (r'.endpoint == target && r'.strong == 0 && r'.weak == 0 && r'.death == 0)
  }

  /** `refs'` has everything in `refs`, perhaps counted more, and perhaps new references of `target`. */
  ghost predicate RefsGrown(refs: seq<Reference>, refs': seq<Reference>, target: nat) {
    && |refs'| == |refs|
    && forall i {:trigger refs'[i]} :: 0 <= i < |refs| ==>
         RefGrown(refs[i], refs'[i], target)
  }

  ghost predicate ClaimsGrown(claims: seq<Claim>, claims': seq<Claim>, target: nat, buffer: nat) {
    && |claims'| == |claims|
    && forall i {:trigger claims'[i]} :: 0 <= i < |claims| ==>
         claims'[i] == claims[i] || (claims[i] == NO_CLAIM && claims'[i].endpoint == target
             && claims'[i].buffer == buffer)
  }

  ghost predicate NewNode(n: Node, nextNode: nat) {
    n.id >= nextNode && !n.manager && !n.dead && !n.hasStrong && !n.hasWeak && !n.pendingStrong && !n.pendingWeak
        && n.asyncBuffer == 0
  }

  ghost predicate NodesGrown(nodes: seq<Node>, nodes': seq<Node>, nextNode: nat) {
    && |nodes'| == |nodes|
    && forall i {:trigger nodes'[i]} :: 0 <= i < |nodes| ==>
         nodes'[i] == nodes[i] || (nodes[i] == NO_NODE && NewNode(nodes'[i], nextNode))
  }

  ghost predicate Grown(d: Device, d': Device, target: nat, buffer: nat) {
    && RefsGrown(d.references, d'.references, target) && ClaimsGrown(d.claims, d'.claims, target, buffer)
    && NodesGrown(d.nodes, d'.nodes, d.nextNode) && d.nextNode <= d'.nextNode
  }

  ghost predicate LifeOk(d: Device, tokens: set<nat>) {
    && d.nextNode > 0 && NodesOk(d.nodes, d.nextNode, tokens) && Linked(d.references, d.claims, d.nodes, 0)
  }

  // ---- claiming one object ----

  lemma EnsureLinked(refs: seq<Reference>, claims: seq<Claim>, nodes: seq<Node>, e: nat, k: nat, managerNode: nat)
    requires Linked(refs, claims, nodes, 0) && e != 0 && k < |nodes| && nodes[k].id != 0
    ensures var (refs', i) := EnsureReference(refs, e, nodes[k], managerNode);
            i < |refs| ==>
              && refs'[i].endpoint == e && refs'[i].node == nodes[k].id
              && Unique(refs') && Counted(refs', claims)
              && HasNode(nodes, refs'[i].node, refs'[i].owner)
              && (refs' == refs || (refs[i].endpoint == 0 && refs' == refs[i := refs'[i]] && refs'[i].temporary == 0
                                    && refs'[i].strong == 0 && refs'[i].weak == 0 && refs'[i].death == 0))
  {
    var (refs', i) := EnsureReference(refs, e, nodes[k], managerNode);
    if i < |refs| && FindImport(refs, e, nodes[k].id) == |refs| {
      CountZero(claims, e, nodes[k].id);
      forall c | 0 <= c < |claims| ensures !RemoteClaim(claims[c], e, nodes[k].id) {
        assert ClaimOk(claims[c], refs, nodes, 0);
      }
    } else if i < |refs| {
      assert RefOk(refs[i], nodes);
    }
  }

  lemma AddClaimLinked(refs: seq<Reference>, claims: seq<Claim>, nodes: seq<Node>, target: nat, buffer: nat, k: nat,
                       remote: bool, managerNode: nat)
    requires Linked(refs, claims, nodes, 0) && target != 0 && k < |nodes| && nodes[k].id != 0
    requires !remote ==> nodes[k].owner == target
    requires AddClaim(refs, claims, target, buffer, nodes[k], remote, managerNode).Claimed?
    ensures var r := AddClaim(refs, claims, target, buffer, nodes[k], remote, managerNode);
            var c := FreeClaim(claims);
            && Linked(r.references, r.claims, nodes, 0)
            && RefsGrown(refs, r.references, target) && ClaimsGrown(claims, r.claims, target, buffer)
            && c < |claims| && r.claims == claims[c := Claim(target, buffer, nodes[k].id, r.handle, remote)]
            && claims[c].endpoint == 0
            && (remote ==> HasImport(r.references, target, nodes[k].id, r.handle))
  {
    var c := FreeClaim(claims);
    assert claims[c] == NO_CLAIM by { FreeClaimIsEmpty(refs, claims, nodes, c); }
    hide Linked, HasNode, HasImport, RefsGrown;
    if remote {
      AddRemote(refs, claims, nodes, target, buffer, k, managerNode);
    } else {
      assert RefsGrown(refs, refs, target) by { RefsGrownReflexive(refs, target); }
      assert HasNode(nodes, nodes[k].id, target) by { KnownNode(nodes, k); }
      AddLocalLinked(refs, claims, nodes, claims[c := Claim(target, buffer, nodes[k].id, 0, false)], c);
    }
  }

  lemma FreeClaimIsEmpty(refs: seq<Reference>, claims: seq<Claim>, nodes: seq<Node>, c: nat)
    requires Linked(refs, claims, nodes, 0) && c < |claims| && claims[c].endpoint == 0
    ensures claims[c] == NO_CLAIM
  {
    assert ClaimOk(claims[c], refs, nodes, 0);
  }

  lemma RefsGrownReflexive(refs: seq<Reference>, target: nat)
    ensures RefsGrown(refs, refs, target)
  {
  }

  lemma KnownNode(nodes: seq<Node>, k: nat)
    requires k < |nodes|
    ensures HasNode(nodes, nodes[k].id, nodes[k].owner)
  {
  }

  lemma AddRemote(refs: seq<Reference>, claims: seq<Claim>, nodes: seq<Node>, target: nat, buffer: nat, k: nat,
      managerNode: nat)
    requires Linked(refs, claims, nodes, 0) && target != 0 && k < |nodes| && nodes[k].id != 0
    requires AddClaim(refs, claims, target, buffer, nodes[k], true, managerNode).Claimed?
    ensures var r := AddClaim(refs, claims, target, buffer, nodes[k], true, managerNode);
            && Linked(r.references, r.claims, nodes, 0) && RefsGrown(refs, r.references, target)
            && HasImport(r.references, target, nodes[k].id, r.handle)
  {
    var Claimed(refs'', claims', handle) := AddClaim(refs, claims, target, buffer, nodes[k], true, managerNode);
    var c := FreeClaim(claims);
    FreeClaimIsEmpty(refs, claims, nodes, c);
    hide Linked, Unique, Counted, HasNode, HasImport;
    var (refs', i) := EnsureReference(refs, target, nodes[k], managerNode);
    EnsureLinked(refs, claims, nodes, target, k, managerNode);
    hide EnsureReference;
    AddRemoteLinked(refs, refs', claims, nodes, refs'', claims', i, c);
  }

  lemma AddRemoteLinked(refs: seq<Reference>, refs': seq<Reference>, claims: seq<Claim>, nodes: seq<Node>,
                        refs'': seq<Reference>, claims': seq<Claim>, i: nat, c: nat)
    requires Linked(refs, claims, nodes, 0) && c < |claims| && claims[c] == NO_CLAIM
    requires i < |refs| == |refs'| && refs'[i].endpoint != 0 && refs'[i].node != 0 && Unique(refs')
             && Counted(refs', claims)
    requires HasNode(nodes, refs'[i].node, refs'[i].owner)
    requires refs' == refs || (refs[i].endpoint == 0 && refs' == refs[i := refs'[i]])
    requires refs'' == refs'[i := refs'[i].(temporary := refs'[i].temporary + 1)]
    requires |claims'| == |claims| && claims' == claims[c := claims'[c]] && claims'[c].handle == refs'[i].handle
             && RemoteClaim(claims'[c], refs'[i].endpoint, refs'[i].node)
    ensures Linked(refs'', claims', nodes, 0)
    ensures HasImport(refs'', refs'[i].endpoint, refs'[i].node, refs'[i].handle)
  {
    assert refs''[i].handle == refs'[i].handle;
    forall j | 0 <= j < |refs''| && refs''[j].endpoint != 0
      ensures refs''[j].temporary == CountRemote(claims', refs''[j].endpoint, refs''[j].node)
    {
      CountUpdate(claims, c, claims'[c], refs'[j].endpoint, refs'[j].node);
      assert j != i ==> refs''[j] == refs'[j];
    }
    forall j | 0 <= j < |refs''| ensures RefOk(refs''[j], nodes) {
      assert RefOk(refs[j], nodes);
    }
    forall j | 0 <= j < |claims'| ensures ClaimOk(claims'[j], refs'', nodes, 0) {
      assert ClaimOk(claims[j], refs, nodes, 0);
      if j != c && claims[j].endpoint != 0 && claims[j].remote {
        var x :| 0 <= x < |refs| && refs[x].endpoint == claims[j].endpoint && refs[x].node == claims[j].node
            && refs[x].handle == claims[j].handle;
        assert refs''[x].endpoint == claims[j].endpoint && refs''[x].node == claims[j].node
               && refs''[x].handle == claims[j].handle;
      }
    }
  }

  lemma AddLocalLinked(refs: seq<Reference>, claims: seq<Claim>, nodes: seq<Node>, claims': seq<Claim>, c: nat)
    requires Linked(refs, claims, nodes, 0) && c < |claims| && claims[c] == NO_CLAIM
    requires |claims'| == |claims| && claims' == claims[c := claims'[c]] && !claims'[c].remote
             && claims'[c].endpoint != 0 && claims'[c].node != 0
    requires HasNode(nodes, claims'[c].node, claims'[c].endpoint)
    ensures Linked(refs, claims', nodes, 0)
  {
    forall j | 0 <= j < |refs| && refs[j].endpoint != 0
      ensures refs[j].temporary == CountRemote(claims', refs[j].endpoint, refs[j].node)
    {
      CountUpdate(claims, c, claims'[c], refs[j].endpoint, refs[j].node);
    }
    forall j | 0 <= j < |claims'| ensures ClaimOk(claims'[j], refs, nodes, 0) {
      assert ClaimOk(claims[j], refs, nodes, 0);
    }
  }

  // ---- resolving one object ----

  lemma ResolveLife(d: Device, tokens: set<nat>, e: nat, tid: nat, item: Flat)
    requires LifeOk(d, tokens) && e in tokens && e != 0
    ensures var r := Resolve(d, e, tid, item);
            r.Found? ==> NodesOk(r.nodes, r.nextNode, tokens) && Linked(d.references, d.claims, r.nodes, 0)
                         && NodesGrown(d.nodes, r.nodes, d.nextNode) && d.nextNode <= r.nextNode
                         && r.nodes[r.index].id != 0
                         && (r.nodes == d.nodes || r.nodes == d.nodes[r.index := r.nodes[r.index]])
  {
    var r := Resolve(d, e, tid, item);
    if r.Found? && item.Binder? && OwnedNode(d.nodes, e, item.pointer) == |d.nodes| {
      var k := r.index;
      assert NodeOk(d.nodes[k], d.nextNode, tokens);
      AddNodeLinked(d.references, d.claims, d.nodes, r.nodes, k);
      AddNodeOk(d.nodes, d.nextNode, tokens, k, r.nodes[k]);
    }
  }

  lemma AddNodeOk(nodes: seq<Node>, nextNode: nat, tokens: set<nat>, k: nat, n: Node)
    requires NodesOk(nodes, nextNode, tokens) && k < |nodes| && nodes[k].id == 0
    requires n.id == nextNode && nextNode > 0 && n.owner in tokens && n.owner != 0 && !n.dead
             && (n.manager ==> n.hasStrong)
    requires OwnedNode(nodes, n.owner, n.pointer) == |nodes|
    ensures NodesOk(nodes[k := n], nextNode + 1, tokens)
  {
    var after := nodes[k := n];
    forall i | 0 <= i < |after| ensures NodeOk(after[i], nextNode + 1, tokens) {
      assert NodeOk(nodes[i], nextNode, tokens);
    }
    forall i, j | 0 <= i < |after| && 0 <= j < |after| && i != j && after[i].id != 0
      ensures after[i].id != after[j].id && !(Owns(after[i], after[i].owner, after[i].pointer)
              && Owns(after[j], after[i].owner, after[i].pointer))
    {
      assert NodeOk(nodes[i], nextNode, tokens) && NodeOk(nodes[j], nextNode, tokens);
    }
  }

  lemma AddNodeLinked(refs: seq<Reference>, claims: seq<Claim>, nodes: seq<Node>, nodes': seq<Node>, k: nat)
    requires Linked(refs, claims, nodes, 0) && k < |nodes| && nodes[k].id == 0 && |nodes'| == |nodes|
             && nodes' == nodes[k := nodes'[k]]
    ensures Linked(refs, claims, nodes', 0)
  {
    forall i | 0 <= i < |refs| ensures RefOk(refs[i], nodes') {
      assert RefOk(refs[i], nodes);
      if refs[i].endpoint != 0 {
        var x :| 0 <= x < |nodes| && nodes[x].id == refs[i].node && nodes[x].owner == refs[i].owner;
        assert nodes'[x] == nodes[x];
      }
    }
    forall i | 0 <= i < |claims| ensures ClaimOk(claims[i], refs, nodes', 0) {
      assert ClaimOk(claims[i], refs, nodes, 0);
      if claims[i].endpoint != 0 && !claims[i].remote {
        var x :| 0 <= x < |nodes| && nodes[x].id == claims[i].node && nodes[x].owner == claims[i].endpoint;
        assert nodes'[x] == nodes[x];
      }
    }
  }

  // ---- translating a whole parcel ----

  lemma GrownTransitive(a: Device, b: Device, c: Device, target: nat, buffer: nat)
    requires Grown(a, b, target, buffer) && Grown(b, c, target, buffer) && target != 0
    ensures Grown(a, c, target, buffer)
  {
    forall i | 0 <= i < |a.references|
      ensures RefGrown(a.references[i], c.references[i], target)
    {
      assert b.references[i] == b.references[i] && c.references[i] == c.references[i];
    }
    forall i | 0 <= i < |a.claims|
      ensures c.claims[i] == a.claims[i] || (a.claims[i] == NO_CLAIM && c.claims[i].endpoint == target
              && c.claims[i].buffer == buffer)
    {
      assert b.claims[i] == b.claims[i] && c.claims[i] == c.claims[i];
    }
    forall i | 0 <= i < |a.nodes|
      ensures c.nodes[i] == a.nodes[i] || (a.nodes[i] == NO_NODE && NewNode(c.nodes[i], a.nextNode))
    {
      assert b.nodes[i] == b.nodes[i] && c.nodes[i] == c.nodes[i];
    }
  }

  /** Every handle among `objects` is held by a claim of its buffer. */
  ghost predicate Covered(objects: seq<Flat>, claims: seq<Claim>, e: nat, buffer: nat) {
    forall i {:trigger objects[i]} :: 0 <= i < |objects| && objects[i].Handle? ==>
      exists c :: 0 <= c < |claims| && claims[c].endpoint == e && claims[c].buffer == buffer && claims[c].remote
          && claims[c].handle == objects[i].handle
  }

  lemma CoveredGrown(objects: seq<Flat>, claims: seq<Claim>, claims': seq<Claim>, e: nat, b: nat, target: nat,
      buffer: nat)
    requires Covered(objects, claims, e, b) && ClaimsGrown(claims, claims', target, buffer) && e != 0
    ensures Covered(objects, claims', e, b)
  {
    forall i | 0 <= i < |objects| && objects[i].Handle?
      ensures exists c ::
                0 <= c < |claims'| && claims'[c].endpoint == e && claims'[c].buffer == b && claims'[c].remote
                && claims'[c].handle == objects[i].handle
    {
      var c :| 0 <= c < |claims| && claims[c].endpoint == e && claims[c].buffer == b && claims[c].remote
          && claims[c].handle == objects[i].handle;
      assert claims'[c] == claims[c];
    }
  }

  lemma UseGrown(refs: seq<Reference>, claims: seq<Claim>, refs': seq<Reference>, claims': seq<Claim>, target: nat,
      buffer: nat, n: Node)
    requires RefsGrown(refs, refs', target) && ClaimsGrown(claims, claims', target, buffer) && n.id != 0
    ensures StrongUse(refs, claims, n) ==> StrongUse(refs', claims', n)
    ensures WeakUse(refs, claims, n) ==> WeakUse(refs', claims', n)
  {
    if i :| 0 <= i < |refs| && StrongImport(refs[i], n.id) {
      assert StrongImport(refs'[i], n.id);
    }
    if i :| 0 <= i < |refs| && AnyImport(refs[i], n.id) {
      assert AnyImport(refs'[i], n.id);
    }
    if i :| 0 <= i < |claims| && LocalClaim(claims[i], n.id) {
      assert LocalClaim(claims'[i], n.id);
    }
  }

  lemma TranslateOneLife(d: Device, tokens: set<nat>, e: nat, tid: nat, target: nat, buffer: nat, item: Flat)
    requires LifeOk(d, tokens) && e in tokens && e != 0 && target != 0
    ensures var r := TranslateOne(d, e, tid, target, buffer, item);
            LifeOk(r.d, tokens) && Grown(d, r.d, target, buffer)
            && (r.Translated? ==> |r.objects| == 1 && Covered(r.objects, r.d.claims, target, buffer))
  {
    hide Linked, NodesOk;
    ResolveLife(d, tokens, e, tid, item);
    var found := Resolve(d, e, tid, item);
    if found.Found? {
      var node := found.nodes[found.index];
      var remote := node.owner != target;
      var claimed := AddClaim(d.references, d.claims, target, buffer, node, remote, d.managerNode);
      if claimed.Claimed? {
        AddClaimLinked(d.references, d.claims, found.nodes, target, buffer, found.index, remote, d.managerNode);
        var c := FreeClaim(d.claims);
        assert claimed.claims[c] == Claim(target, buffer, node.id, claimed.handle, remote);
      }
    }
  }

  lemma TranslateOneNoGarbage(d: Device, tokens: set<nat>, e: nat, tid: nat, target: nat, buffer: nat, item: Flat)
    requires LifeOk(d, tokens) && e in tokens && e != 0 && target != 0 && NoGarbage(d.nodes, d.references, d.claims)
    requires TranslateOne(d, e, tid, target, buffer, item).Translated?
    ensures var r := TranslateOne(d, e, tid, target, buffer, item).d; NoGarbage(r.nodes, r.references, r.claims)
  {
    var r := TranslateOne(d, e, tid, target, buffer, item).d;
    TranslateOneLife(d, tokens, e, tid, target, buffer, item);
    ResolveLife(d, tokens, e, tid, item);
    var found := Resolve(d, e, tid, item);
    var node := found.nodes[found.index];
    AddClaimLinked(d.references, d.claims, found.nodes, target, buffer, found.index, node.owner != target,
        d.managerNode);
    forall i | 0 <= i < |r.nodes| ensures !Garbage(r.references, r.claims, r.nodes[i]) {
      if i == found.index {
        var c := FreeClaim(d.claims);
        assert r.claims[c].node == node.id && r.claims[c].endpoint == target;
        if node.owner != target {
          var k :| 0 <= k < |r.references| && r.references[k].endpoint == target && r.references[k].node == node.id
              && r.references[k].handle == r.claims[c].handle;
          assert AnyImport(r.references[k], node.id);
        } else {
          assert LocalClaim(r.claims[c], node.id);
        }
      } else if r.nodes[i].id != 0 {
        assert r.nodes[i] == d.nodes[i];
        UseGrown(d.references, d.claims, r.references, r.claims, target, buffer, d.nodes[i]);
      }
    }
  }

  lemma {:induction false} TranslateLife(d: Device, tokens: set<nat>, e: nat, tid: nat, target: nat, buffer: nat,
      objects: seq<Flat>)
    requires LifeOk(d, tokens) && e in tokens && e != 0 && target != 0
    ensures var r := Translate(d, e, tid, target, buffer, objects);
            LifeOk(r.d, tokens) && Grown(d, r.d, target, buffer)
            && (r.Translated? ==> Covered(r.objects, r.d.claims, target, buffer))
            && (r.Translated? && NoGarbage(d.nodes, d.references, d.claims) ==>
                 NoGarbage(r.d.nodes, r.d.references, r.d.claims))
  {
    hide LifeOk, NoGarbage;
    if objects != [] {
      var n := |objects| - 1;
      TranslateLife(d, tokens, e, tid, target, buffer, objects[..n]);
      var rest := Translate(d, e, tid, target, buffer, objects[..n]);
      if rest.Translated? {
        TranslateOneLife(rest.d, tokens, e, tid, target, buffer, objects[n]);
        var one := TranslateOne(rest.d, e, tid, target, buffer, objects[n]);
        GrownTransitive(d, rest.d, one.d, target, buffer);
        if one.Translated? {
          CoveredGrown(rest.objects, rest.d.claims, one.d.claims, target, buffer, target, buffer);
          if NoGarbage(d.nodes, d.references, d.claims) {
            TranslateOneNoGarbage(rest.d, tokens, e, tid, target, buffer, objects[n]);
          }
        }
      }
    }
  }

  // ---- the receiver's objects mean what the sender's did ----

  /** The node an object stands for in the hands of `e`, or zero. */
  ghost function Denotes(d: Device, e: nat, item: Flat): nat {
    match item
    case Binder(_, pointer, _) => (var k := OwnedNode(d.nodes, e, pointer); if k < |d.nodes| then d.nodes[k].id else 0)
    case Handle(_, handle) => (var k := FindReference(d.references, e, handle); if k < |d.references|
        then d.references[k].node else 0)
  }

  lemma GrownDenotes(d: Device, d': Device, tokens: set<nat>, target: nat, buffer: nat, e: nat, item: Flat)
    requires LifeOk(d, tokens) && LifeOk(d', tokens) && Grown(d, d', target, buffer) && e != 0
    ensures Denotes(d, e, item) != 0 ==> Denotes(d', e, item) == Denotes(d, e, item)
  {
    match item
    case Binder(_, pointer, _) =>
      var k := OwnedNode(d.nodes, e, pointer);
      if k < |d.nodes| { assert d'.nodes[k] == d.nodes[k]; }
    case Handle(_, handle) =>
      var k := FindReference(d.references, e, handle);
      if k < |d.references| { assert d'.references[k].handle == handle; }
  }

  lemma ImportDenotes(d: Device, nodes: seq<Node>, target: nat, flags: u32, node: nat, handle: u32)
    requires Linked(d.references, d.claims, nodes, 0) && target != 0 && HasImport(d.references, target, node, handle)
    ensures Denotes(d, target, Handle(flags, handle)) == node
  {
    var k :| 0 <= k < |d.references| && d.references[k].endpoint == target && d.references[k].node == node
        && d.references[k].handle == handle;
    assert FindReference(d.references, target, handle) == k;
  }

  lemma OwnedDenotes(d: Device, tokens: set<nat>, k: nat, flags: u32)
    requires NodesOk(d.nodes, d.nextNode, tokens) && k < |d.nodes| && d.nodes[k].id != 0 && d.nodes[k].owner in tokens
    ensures Denotes(d, d.nodes[k].owner, Binder(flags, d.nodes[k].pointer, d.nodes[k].cookie)) == d.nodes[k].id
  {
    assert NodeOk(d.nodes[k], d.nextNode, tokens);
    assert OwnedNode(d.nodes, d.nodes[k].owner, d.nodes[k].pointer) == k;
  }

  lemma ResolvedDenotes(d: Device, tokens: set<nat>, e: nat, tid: nat, item: Flat)
    requires LifeOk(d, tokens) && e in tokens && e != 0
    ensures var r := Resolve(d, e, tid, item);
            r.Found? ==> Denotes(d.(nodes := r.nodes, nextNode := r.nextNode), e, item) == r.nodes[r.index].id != 0
  {
    ResolveLife(d, tokens, e, tid, item);
    var r := Resolve(d, e, tid, item);
    if r.Found? && item.Binder? {
      assert Owns(r.nodes[r.index], e, item.pointer);
      assert OwnedNode(r.nodes, e, item.pointer) == r.index;
    }
  }

  lemma TranslateOneMeaning(d: Device, tokens: set<nat>, e: nat, tid: nat, target: nat, buffer: nat, item: Flat)
    requires LifeOk(d, tokens) && e in tokens && e != 0 && target in tokens && target != 0
    requires TranslateOne(d, e, tid, target, buffer, item).Translated?
    ensures var r := TranslateOne(d, e, tid, target, buffer, item);
            |r.objects| == 1 && Denotes(r.d, target, r.objects[0]) == Denotes(r.d, e, item) != 0
  {
    var Translated(d', out) := TranslateOne(d, e, tid, target, buffer, item);
    var found := Resolve(d, e, tid, item);
    var node := found.nodes[found.index];
    var d1 := d.(nodes := found.nodes, nextNode := found.nextNode);
    TranslateOneLife(d, tokens, e, tid, target, buffer, item);
    ResolveLife(d, tokens, e, tid, item);
    ResolvedDenotes(d, tokens, e, tid, item);
    AddClaimLinked(d.references, d.claims, found.nodes, target, buffer, found.index, node.owner != target,
        d.managerNode);
    hide Linked, NodesOk, Denotes, Resolve, AddClaim, HasImport;
    assert Grown(d1, d', target, buffer);
    GrownDenotes(d1, d', tokens, target, buffer, e, item);
    if node.owner != target {
      ImportDenotes(d', d'.nodes, target, item.flags, node.id, out[0].handle);
    } else {
      OwnedDenotes(d', tokens, found.index, item.flags);
    }
  }

  /** Every object in an accepted parcel stands for the same node in the receiver's hands as in the sender's. */
  lemma {:induction false} TranslationPreservesMeaning(d: Device, tokens: set<nat>, e: nat, tid: nat, target: nat,
      buffer: nat, objects: seq<Flat>)
    requires LifeOk(d, tokens) && e in tokens && e != 0 && target in tokens && target != 0
    requires Translate(d, e, tid, target, buffer, objects).Translated?
    ensures var r := Translate(d, e, tid, target, buffer, objects);
            |r.objects| == |objects| && forall i :: 0 <= i < |objects| ==>
              Denotes(r.d, target, r.objects[i]) == Denotes(r.d, e, objects[i]) != 0
  {
    hide LifeOk, Grown, Denotes, TranslateOne;
    if objects != [] {
      var n := |objects| - 1;
      var rest := Translate(d, e, tid, target, buffer, objects[..n]);
      TranslationPreservesMeaning(d, tokens, e, tid, target, buffer, objects[..n]);
      TranslateLife(d, tokens, e, tid, target, buffer, objects[..n]);
      var one := TranslateOne(rest.d, e, tid, target, buffer, objects[n]);
      TranslateOneLife(rest.d, tokens, e, tid, target, buffer, objects[n]);
      TranslateOneMeaning(rest.d, tokens, e, tid, target, buffer, objects[n]);
      forall i | 0 <= i < n ensures Denotes(one.d, target, rest.objects[i]) == Denotes(one.d, e, objects[i]) != 0 {
        assert objects[..n][i] == objects[i];
        GrownDenotes(rest.d, one.d, tokens, target, buffer, target, rest.objects[i]);
        GrownDenotes(rest.d, one.d, tokens, target, buffer, e, objects[i]);
      }
    }
  }

  // ---- a refused parcel is undone exactly ----

  lemma UnclaimClaims(claims: seq<Claim>, t: Tables, target: nat, buffer: nat)
    requires ClaimsGrown(claims, t.claims, target, buffer) && target != 0 && buffer != 0
    requires forall c {:trigger claims[c]} :: 0 <= c < |claims| && claims[c].endpoint == target ==>
               claims[c].buffer != buffer
    ensures ReleaseClaims(t, target, buffer).claims == claims
  {
    ReleaseClaimsEffect(t, target, buffer, 0);
    var after := ReleaseClaims(t, target, buffer).claims;
    forall j | 0 <= j < |claims| ensures after[j] == claims[j] {
      assert t.claims[j] == t.claims[j];
    }
  }

  lemma UnclaimOldReference(refs: seq<Reference>, claims: seq<Claim>, nodes: seq<Node>, refs': seq<Reference>,
      nodes': seq<Node>,
                            refs'': seq<Reference>, target: nat, i: nat)
    requires Linked(refs, claims, nodes, 0) && Unique(refs') && Linked(refs'', claims, nodes', 0)
    requires RefsGrown(refs, refs', target) && Loosened(refs', refs'', target) && target != 0
    requires i < |refs| && refs[i].endpoint != 0
    ensures refs''[i] == refs[i]
  {
    var r := refs[i];
    assert RefOk(r, nodes);
    assert refs'[i] == r.(temporary := refs'[i].temporary);
    CountZero(claims, r.endpoint, r.node);
    if r.strong == 0 && r.weak == 0 {
      var c :| 0 <= c < |claims| && RemoteClaim(claims[c], r.endpoint, r.node);
      assert ClaimOk(claims[c], refs'', nodes', 0);
      var x :| 0 <= x < |refs''| && refs''[x].endpoint == claims[c].endpoint && refs''[x].node == claims[c].node
          && refs''[x].handle == claims[c].handle;
      assert refs'[x].endpoint == r.endpoint && refs'[x].node == r.node;
      assert x == i;
    }
    assert refs''[i].endpoint != 0;
  }

  lemma UnclaimNewReference(refs: seq<Reference>, claims: seq<Claim>, nodes: seq<Node>, refs': seq<Reference>,
      nodes': seq<Node>,
                            refs'': seq<Reference>, target: nat, i: nat)
    requires Linked(refs, claims, nodes, 0) && Unique(refs') && Linked(refs'', claims, nodes', 0)
    requires RefsGrown(refs, refs', target) && Loosened(refs', refs'', target) && target != 0
    requires i < |refs| && refs[i].endpoint == 0
    ensures refs''[i] == refs[i]
  {
    assert RefOk(refs[i], nodes) && RefOk(refs''[i], nodes');
    assert refs'[i] == refs[i] || refs'[i].endpoint == target;
    forall x | 0 <= x < |refs| && refs[x].endpoint != 0
      ensures !(refs[x].endpoint == refs'[i].endpoint && refs[x].node == refs'[i].node)
    {
      assert refs'[x].endpoint == refs[x].endpoint && refs'[x].node == refs[x].node;
    }
    forall c | 0 <= c < |claims| && refs'[i].endpoint != 0
      ensures !RemoteClaim(claims[c], refs'[i].endpoint, refs'[i].node)
    {
      assert ClaimOk(claims[c], refs, nodes, 0);
    }
    CountZero(claims, refs'[i].endpoint, refs'[i].node);
  }

  lemma UnclaimReferences(refs: seq<Reference>, claims: seq<Claim>, nodes: seq<Node>, nodes': seq<Node>, t: Tables,
                          target: nat, buffer: nat)
    requires Linked(refs, claims, nodes, 0) && Linked(t.references, t.claims, nodes', 0)
    requires RefsGrown(refs, t.references, target) && ClaimsGrown(claims, t.claims, target, buffer) && target != 0
             && buffer != 0
    requires forall c {:trigger claims[c]} :: 0 <= c < |claims| && claims[c].endpoint == target ==>
               claims[c].buffer != buffer
    ensures ReleaseClaims(t, target, buffer) == Tables(refs, t.deaths, claims)
  {
    var r := ReleaseClaims(t, target, buffer);
    UnclaimClaims(claims, t, target, buffer);
    ReleaseClaimsLinked(t, nodes', 0, target, buffer, 0);
    ReleaseClaimsEffect(t, target, buffer, 0);
    assert Unique(t.references);
    forall i | 0 <= i < |refs| ensures r.references[i] == refs[i] {
      if refs[i].endpoint == 0 {
        UnclaimNewReference(refs, claims, nodes, t.references, nodes', r.references, target, i);
      } else {
        UnclaimOldReference(refs, claims, nodes, t.references, nodes', r.references, target, i);
      }
    }
    assert r.references == refs;
    forall k | 0 <= k < |t.deaths| ensures r.deaths[k] == t.deaths[k] {
      assert forall i :: 0 <= i < |refs| ==> !WipedWith(t.references[i], r.references[i], k);
    }
    assert r.deaths == t.deaths;
  }

  lemma UncollectedNodes(d: Device, d': Device, tokens: set<nat>, target: nat, buffer: nat)
    requires LifeOk(d, tokens) && NodesGrown(d.nodes, d'.nodes, d.nextNode)
             && NoGarbage(d.nodes, d.references, d.claims)
    ensures Collect(d'.nodes, d.references, d.claims) == d.nodes
  {
    forall k | 0 <= k < |d.nodes|
      ensures Collect(d'.nodes, d.references, d.claims)[k] == d.nodes[k]
    {
      if d'.nodes[k] != d.nodes[k] {
        var n := d'.nodes[k];
        forall i | 0 <= i < |d.references| ensures !AnyImport(d.references[i], n.id) {
          KnownIdentity(d, tokens, i);
        }
        forall i | 0 <= i < |d.claims| ensures !LocalClaim(d.claims[i], n.id) {
          KnownClaimIdentity(d, tokens, i);
        }
        assert Garbage(d.references, d.claims, n);
      }
    }
  }

  lemma KnownIdentity(d: Device, tokens: set<nat>, i: nat)
    requires LifeOk(d, tokens) && i < |d.references|
    ensures d.references[i].endpoint != 0 ==> d.references[i].node < d.nextNode
  {
    assert RefOk(d.references[i], d.nodes);
    if d.references[i].endpoint != 0 {
      var k :| 0 <= k < |d.nodes| && d.nodes[k].id == d.references[i].node && d.nodes[k].owner == d.references[i].owner;
      assert NodeOk(d.nodes[k], d.nextNode, tokens);
    }
  }

  lemma KnownClaimIdentity(d: Device, tokens: set<nat>, i: nat)
    requires LifeOk(d, tokens) && i < |d.claims|
    ensures d.claims[i].endpoint != 0 && !d.claims[i].remote ==> d.claims[i].node < d.nextNode
  {
    assert ClaimOk(d.claims[i], d.references, d.nodes, 0);
    if d.claims[i].endpoint != 0 && !d.claims[i].remote {
      var k :| 0 <= k < |d.nodes| && d.nodes[k].id == d.claims[i].node && d.nodes[k].owner == d.claims[i].endpoint;
      assert NodeOk(d.nodes[k], d.nextNode, tokens);
    }
  }

  ghost predicate Unclaimed(claims: seq<Claim>, target: nat, buffer: nat) {
    forall c {:trigger claims[c]} :: 0 <= c < |claims| && claims[c].endpoint == target ==> claims[c].buffer != buffer
  }

  /** Releasing the claims of a half-built parcel restores every table it touched. */
  lemma UnclaimUndoes(d: Device, d': Device, tokens: set<nat>, target: nat, buffer: nat)
    requires LifeOk(d, tokens) && LifeOk(d', tokens) && NoGarbage(d.nodes, d.references, d.claims)
    requires Grown(d, d', target, buffer) && target != 0 && buffer != 0 && Unclaimed(d.claims, target, buffer)
    ensures Unclaim(d', target, buffer) == d'.(references := d.references, claims := d.claims, nodes := d.nodes)
  {
    UnclaimReferences(d.references, d.claims, d.nodes, d'.nodes, TablesOf(d'), target, buffer);
    UncollectedNodes(d, d', tokens, target, buffer);
  }

  lemma PrepareLife(d: Device, tokens: set<nat>, target: nat, slot: Slot, slots: seq<Slot>, nodeIndex: nat)
    requires LifeOk(d, tokens) && target in d.endpoints && target != 0
    requires nodeIndex < |d.nodes| ==> d.nodes[nodeIndex].id != 0 && d.nodes[nodeIndex].owner == target
    ensures var r := Prepare(d, target, slot, slots, nodeIndex);
            LifeOk(r.d, tokens) && Grown(d, r.d, target, slot.address) && r.d.deaths == d.deaths
                && r.d.parcels == d.parcels
            && r.d.nextNode == d.nextNode && r.d.nodes == d.nodes
            && r.d.endpoints == d.endpoints[target := d.endpoints[target].(slots := slots)]
            && (r.Translated? && nodeIndex < |d.nodes| && !d.nodes[nodeIndex].manager ==>
                  exists c :: 0 <= c < |r.d.claims|
                      && r.d.claims[c] == Claim(target, slot.address, d.nodes[nodeIndex].id, 0, false))
  {
    hide Linked, NodesOk;
    if nodeIndex < |d.nodes| && !d.nodes[nodeIndex].manager {
      var held := AddClaim(d.references, d.claims, target, slot.address, d.nodes[nodeIndex], false, d.managerNode);
      if held.Claimed? {
        AddClaimLinked(d.references, d.claims, d.nodes, target, slot.address, nodeIndex, false, d.managerNode);
        var c := FreeClaim(d.claims);
        assert held.claims[c] == Claim(target, slot.address, d.nodes[nodeIndex].id, 0, false);
      }
    }
  }

  /** What the checks before a reservation know about the tables they are about to change. */
  ghost predicate Depositable(d: Device, tokens: set<nat>, e: nat, target: nat, slots: seq<Slot>, k: nat,
      nodeIndex: nat) {
    && LifeOk(d, tokens) && NoGarbage(d.nodes, d.references, d.claims)
    && e in tokens && e != 0 && target in d.endpoints && target in tokens && target != 0
    && k < |slots| && RemoveAt(slots, k) == d.endpoints[target].slots && Distinct(slots)
    && slots[k].address != 0 && !slots[k].delivered
    && Unclaimed(d.claims, target, slots[k].address) && (target, slots[k].address) !in d.parcels
    && (nodeIndex < |d.nodes| ==> d.nodes[nodeIndex].id != 0 && d.nodes[nodeIndex].owner == target)
  }

  lemma RollbackUndoes(d: Device, d': Device, tokens: set<nat>, e: nat, target: nat, slots: seq<Slot>, k: nat,
      nodeIndex: nat)
    requires Depositable(d, tokens, e, target, slots, k, nodeIndex)
    requires LifeOk(d', tokens) && Grown(d, d', target, slots[k].address) && SameCalls(d, d')
    requires d'.deaths == d.deaths && d'.parcels == d.parcels
    requires d'.endpoints == d.endpoints[target := d.endpoints[target].(slots := slots)]
    ensures Rollback(d', target, slots[k].address) == d.(nextNode := d'.nextNode)
  {
    var b := slots[k].address;
    UnclaimUndoes(d, d', tokens, target, b);
    assert FindSlot(slots, b) == k;
    var u := Unclaim(d', target, b);
    hide Unclaim;
    assert Remove(slots, b, false) == (d.endpoints[target].slots, 0);
    assert u.parcels - {(target, b)} == d.parcels;
    assert u.endpoints[target := u.endpoints[target].(slots := d.endpoints[target].slots)] == d.endpoints;
  }

  /** A parcel that is refused after its buffer was reserved leaves every table as it was; only the
      node counter, which is never reused, may have moved. */
  lemma RefusedDepositRollsBack(d: Device, tokens: set<nat>, e: nat, tid: nat, target: nat, slots: seq<Slot>, k: nat,
      nodeIndex: nat, objects: seq<Flat>)
    requires Depositable(d, tokens, e, target, slots, k, nodeIndex)
    requires Deposit(d, e, tid, target, slots, slots[k], nodeIndex, objects).Refused?
    ensures var r := Deposit(d, e, tid, target, slots, slots[k], nodeIndex, objects);
            r.d == d.(nextNode := r.d.nextNode) && d.nextNode <= r.d.nextNode
  {
    var slot := slots[k];
    var ready := Prepare(d, target, slot, slots, nodeIndex);
    PrepareLife(d, tokens, target, slot, slots, nodeIndex);
    PrepareKeeps(d, target, slot, slots, nodeIndex);
    if ready.Stuck? {
      hide Prepare, Rollback;
      RollbackUndoes(d, ready.d, tokens, e, target, slots, k, nodeIndex);
    } else {
      var sent := Translate(ready.d, e, tid, target, slot.address, objects);
      TranslateLife(ready.d, tokens, e, tid, target, slot.address, objects);
      TranslateKeeps(ready.d, e, tid, target, slot.address, objects);
      hide Prepare, Translate, Rollback, LifeOk;
      GrownTransitive(d, ready.d, sent.d, target, slot.address);
      SameCallsTransitive(d, ready.d, sent.d);
      hide Grown, SameCalls;
      RollbackUndoes(d, sent.d, tokens, e, target, slots, k, nodeIndex);
    }
  }
}
