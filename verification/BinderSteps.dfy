/** Every command, delivery and request keeps the device invariant, and none reports broken tables. */
module BinderSteps {
  import opened Base
  import opened BinderArena
  import opened BinderWire
  import opened BinderState
  import opened BinderCommands
  import opened BinderLifetime
  import opened BinderParcels
  import opened BinderBuffers
  import opened BinderCalls
  import opened BinderOneWay
  import opened BinderDeaths
  import opened BinderInvariant
  import opened BinderLifecycle

  // ---- reference counts ----

  /** One reference's command counts change; it goes with its death slot when nothing is left. */
  lemma AdjustKeepsLinked(refs: seq<Reference>, claims: seq<Claim>, nodes: seq<Node>, i: nat, r: Reference)
    requires i < |refs| && Unique(refs) && Counted(refs, claims) && ClaimsOk(claims, refs, nodes, 0)
    requires forall j {:trigger refs[j]} :: 0 <= j < |refs| && j != i ==> RefOk(refs[j], nodes)
    requires refs[i].endpoint != 0 && refs[i].node != 0 && HasNode(nodes, refs[i].node, refs[i].owner)
    requires r == refs[i].(strong := r.strong, weak := r.weak)
    ensures Linked(refs[i := if Uncounted(r) then NO_REFERENCE else r], claims, nodes, 0)
  {
    var drop := Uncounted(r);
    var refs' := refs[i := if drop then NO_REFERENCE else r];
    if drop { CountZero(claims, r.endpoint, r.node); }
    forall c | 0 <= c < |claims| ensures ClaimOk(claims[c], refs', nodes, 0) {
      assert ClaimOk(claims[c], refs, nodes, 0);
      if claims[c].endpoint != 0 && claims[c].remote {
        var k :| 0 <= k < |refs| && refs[k].endpoint == claims[c].endpoint && refs[k].node == claims[c].node
            && refs[k].handle == claims[c].handle;
        assert drop ==> !RemoteClaim(claims[c], r.endpoint, r.node);
        assert refs'[k].endpoint == claims[c].endpoint && refs'[k].node == claims[c].node
               && refs'[k].handle == claims[c].handle;
      }
    }
  }

  /** New reference, death and node tables, then a collection. */
  lemma RecollectInv(d: Device, refs: seq<Reference>, deaths: seq<Death>, nodes: seq<Node>)
    requires Inv(d)
    requires Linked(refs, d.claims, nodes, 0) && NodesOk(nodes, d.nextNode, d.endpoints.Keys)
             && RefsHome(refs, d.endpoints.Keys)
    requires SlotsOk(refs, deaths) && DeathsOk(deaths, d.endpoints.Keys, d.nextSerial)
    requires ManagerOk(nodes, d.manager, d.managerNode, d.endpoints.Keys)
             && AsyncOk(nodes, d.work, d.claims, d.endpoints, 0)
    requires OwnersKnown(nodes, deaths, d.nextToken)
    ensures Inv(d.(references := refs, deaths := deaths, nodes := Collect(nodes, refs, d.claims)))
  {
    WorkEndpoints(d.endpoints, d.nextToken, d.work);
    assert OwnersKnown(Collect(nodes, refs, d.claims), deaths, d.nextToken) by { hide Garbage; }
    hide Linked, NodesOk, SlotsOk, DeathsOk, BuffersOk, CallsOk, OwnersKnown;
    CollectLinked(nodes, refs, d.claims, 0);
    CollectNodesOk(nodes, refs, d.claims, d.nextNode, d.endpoints.Keys);
    CollectKeepsManager(nodes, refs, d.claims, d.manager, d.managerNode, d.endpoints.Keys);
    hide QueueOk, CurrentsOk, ManagerOk;
    CollectKeepsQueue(nodes, d.work, d.claims, refs, 0);
    CollectKeepsCurrents(nodes, refs, d.claims, d.work, d.endpoints, 0);
  }

  lemma AdjustReferenceInv(d: Device, refs: seq<Reference>, i: nat, increment: bool, strong: bool)
    requires Inv(d) && i < |refs| == |d.references|
    requires refs == d.references || (increment && d.references[i].endpoint == 0 && refs == d.references[i := refs[i]]
             && refs[i].death == 0
                                      && refs[i].strong == 0 && refs[i].weak == 0)
    requires Unique(refs) && Counted(refs, d.claims) && ClaimsOk(d.claims, refs, d.nodes, 0)
    requires refs[i].endpoint in d.endpoints && refs[i].endpoint != 0 && refs[i].node != 0
             && HasNode(d.nodes, refs[i].node, refs[i].owner)
    ensures Inv(AdjustReference(d.(references := refs), i, increment, strong).0)
    ensures !AdjustReference(d.(references := refs), i, increment, strong).1.Broken?
  {
    LinkParts(d);
    FreeReferencesEmpty(d.references, d.claims, d.nodes, 0);
    LinkedReferences(d.references, d.claims, d.nodes);
    hide Inv, Linked, Unique, Counted, ClaimsOk, HasNode, Collect, RefOk, ManagerOk;
    if increment && (if strong then refs[i].strong else refs[i].weak) == U32_LIMIT - 1 {
      assert d.(references := refs) == d;
    } else {
      var r := AdjustReference(d.(references := refs), i, increment, strong).0;
      var ref := Adjusted(refs[i], increment, strong);
      hide Adjusted;
      AdjustKeepsLinked(refs, d.claims, d.nodes, i, ref);
      DropFollows(d.references, refs, r.references, d.deaths, r.deaths, i);
      AdjustKeepsRest(d, refs, r.references, r.deaths, i);
    }
  }

  lemma LinkedReferences(refs: seq<Reference>, claims: seq<Claim>, nodes: seq<Node>)
    requires Linked(refs, claims, nodes, 0)
    ensures forall j {:trigger refs[j]} :: 0 <= j < |refs| ==> RefOk(refs[j], nodes)
  {
  }

  lemma AdjustKeepsRest(d: Device, refs: seq<Reference>, refs': seq<Reference>, deaths': seq<Death>, i: nat)
    requires Inv(d) && i < |refs| == |d.references| == |refs'|
    requires refs == d.references || (d.references[i].endpoint == 0 && refs == d.references[i := refs[i]]
             && refs[i].death == 0)
    requires forall j {:trigger d.references[j]} :: 0 <= j < |d.references| && d.references[j].endpoint == 0 ==>
               d.references[j] == NO_REFERENCE
    requires refs' == refs[i := refs'[i]] && (refs'[i] == NO_REFERENCE
             || refs'[i] == refs[i].(strong := refs'[i].strong, weak := refs'[i].weak))
    requires refs[i].endpoint in d.endpoints
    requires Linked(refs', d.claims, d.nodes, 0) && DeathsFollow(d.references, refs', d.deaths, deaths')
    ensures Inv(d.(references := refs', deaths := deaths', nodes := Collect(d.nodes, refs', d.claims)))
  {
    hide Linked;
    DropKeepsDeaths(d.references, refs', d.deaths, deaths', d.endpoints.Keys, d.nextSerial);
    assert OwnersKnown(d.nodes, deaths', d.nextToken) by { hide SlotsOk, DeathsOk; }
    RecollectInv(d, refs', deaths', d.nodes);
  }

  lemma LinkParts(d: Device)
    requires Inv(d)
    ensures Linked(d.references, d.claims, d.nodes, 0) && ManagerOk(d.nodes, d.manager, d.managerNode, d.endpoints.Keys)
    ensures Unique(d.references) && Counted(d.references, d.claims) && ClaimsOk(d.claims, d.references, d.nodes, 0)
  {
  }

  lemma ManagerFound(nodes: seq<Node>, manager: nat, managerNode: nat, tokens: set<nat>)
    requires ManagerOk(nodes, manager, managerNode, tokens) && manager != 0
    ensures NodeFor(nodes, managerNode) < |nodes|
  {
  }

  lemma ManagerKnown(d: Device)
    requires Inv(d)
    ensures d.manager != 0 ==> NodeFor(d.nodes, d.managerNode) < |d.nodes|
  {
    LinkParts(d);
    hide Inv, Linked, ManagerOk, Unique, Counted, ClaimsOk;
    if d.manager != 0 { ManagerFound(d.nodes, d.manager, d.managerNode, d.endpoints.Keys); }
  }

  lemma ManagerReferenceInv(d: Device, e: nat, k: nat, strong: bool)
    requires Inv(d) && e in d.endpoints && e != 0 && k < |d.nodes| && d.nodes[k].id != 0
    ensures var (refs, i) := EnsureReference(d.references, e, d.nodes[k], d.managerNode);
            i < |refs| ==> var a := AdjustReference(d.(references := refs), i, true, strong); Inv(a.0) && !a.1.Broken?
  {
    LinkParts(d);
    hide Inv, Linked, ManagerOk, Unique, Counted, ClaimsOk, HasNode, AdjustReference;
    var (refs, i) := EnsureReference(d.references, e, d.nodes[k], d.managerNode);
    EnsureLinked(d.references, d.claims, d.nodes, e, k, d.managerNode);
    hide EnsureReference;
    if i < |refs| {
      GrownClaims(d.references, refs, d.claims, d.nodes, i);
      AdjustReferenceInv(d, refs, i, true, strong);
    }
  }

  lemma HeldReferenceInv(d: Device, e: nat, i: nat, increment: bool, strong: bool)
    requires Inv(d) && e in d.endpoints && e != 0 && i < |d.references| && d.references[i].endpoint == e
    ensures var a := AdjustReference(d, i, increment, strong); Inv(a.0) && !a.1.Broken?
  {
    LinkParts(d);
    hide Inv, Linked, ManagerOk, Unique, Counted, ClaimsOk, HasNode, AdjustReference;
    NamedNode(d.references, d.claims, d.nodes, i);
    AdjustReferenceInv(d, d.references, i, increment, strong);
    assert d.(references := d.references) == d;
  }

  lemma ReferenceCommandIs(d: Device, e: nat, increment: bool, strong: bool, handle: u32)
    requires d.manager != 0 ==> NodeFor(d.nodes, d.managerNode) < |d.nodes|
    ensures var k, i, r := NodeFor(d.nodes, d.managerNode), FindReference(d.references, e, handle),
            ReferenceCommand(d, e, increment, strong, handle);
            || (r.0 == d && !r.1.Broken?)
            || (d.manager != 0
                && var made := EnsureReference(d.references, e, d.nodes[k], d.managerNode);
                made.1 < |made.0| && r == AdjustReference(d.(references := made.0), made.1, true, strong))
            || (i < |d.references| && r == AdjustReference(d, i, increment, strong))
  {
    hide EnsureReference, AdjustReference, FindReference, NodeFor;
  }

  lemma ReferenceCommandInv(d: Device, e: nat, increment: bool, strong: bool, handle: u32)
    requires Inv(d) && e in d.endpoints && e != 0
    ensures var r := ReferenceCommand(d, e, increment, strong, handle); Inv(r.0) && !r.1.Broken?
  {
    hide *;
    ManagerKnown(d);
    ReferenceCommandIs(d, e, increment, strong, handle);
    var k := NodeFor(d.nodes, d.managerNode);
    if d.manager != 0 { ManagerReferenceInv(d, e, k, strong); }
    var i := FindReference(d.references, e, handle);
    if i < |d.references| { HeldReferenceInv(d, e, i, increment, strong); }
  }

  lemma NamedNode(refs: seq<Reference>, claims: seq<Claim>, nodes: seq<Node>, i: nat)
    requires Linked(refs, claims, nodes, 0) && i < |refs| && refs[i].endpoint != 0
    ensures refs[i].node != 0 && HasNode(nodes, refs[i].node, refs[i].owner)
  {
    assert RefOk(refs[i], nodes);
  }

  lemma GrownClaims(refs: seq<Reference>, refs': seq<Reference>, claims: seq<Claim>, nodes: seq<Node>, i: nat)
    requires ClaimsOk(claims, refs, nodes, 0) && i < |refs| == |refs'|
    requires refs' == refs || (refs[i].endpoint == 0 && refs' == refs[i := refs'[i]])
    ensures ClaimsOk(claims, refs', nodes, 0)
  {
    forall c | 0 <= c < |claims| ensures ClaimOk(claims[c], refs', nodes, 0) {
      assert ClaimOk(claims[c], refs, nodes, 0);
      if claims[c].endpoint != 0 && claims[c].remote {
        var k :| 0 <= k < |refs| && refs[k].endpoint == claims[c].endpoint && refs[k].node == claims[c].node
            && refs[k].handle == claims[c].handle;
        assert refs'[k] == refs[k];
      }
    }
  }

  lemma DropFollows(refs: seq<Reference>, mid: seq<Reference>, refs': seq<Reference>, deaths: seq<Death>,
      deaths': seq<Death>, i: nat)
    requires i < |refs| == |mid| == |refs'| && (mid == refs || (refs[i] == NO_REFERENCE && mid == refs[i := mid[i]]))
    requires refs' == mid[i := refs'[i]]
    requires if refs'[i] == NO_REFERENCE && mid[i] != NO_REFERENCE then deaths' == DropDeath(deaths, mid[i].death)
             else deaths' == deaths
    requires mid != refs ==> refs'[i] != NO_REFERENCE
    ensures DeathsFollow(refs, refs', deaths, deaths')
  {
    forall k | 0 <= k < |deaths|
      ensures deaths'[k] == if exists x ::
                0 <= x < |refs| && WipedWith(refs[x], refs'[x], k) then NO_DEATH else deaths[k]
    {
      assert forall x :: 0 <= x < |refs| && WipedWith(refs[x], refs'[x], k) ==> x == i;
      assert WipedWith(refs[i], refs'[i], k) <==>
               refs[i].death == k + 1 && refs[i] != NO_REFERENCE && refs'[i] == NO_REFERENCE;
    }
  }

  // ---- owner callbacks and their acknowledgements ----

  /** One node's flags or notification thread change. */
  lemma NodeChangeInv(d: Device, k: nat, n: Node)
    requires Inv(d) && k < |d.nodes| && d.nodes[k].id != 0
    requires n == d.nodes[k].(tid := n.tid, hasStrong := n.hasStrong, hasWeak := n.hasWeak,
             pendingStrong := n.pendingStrong, pendingWeak := n.pendingWeak)
    requires d.nodes[k].manager ==> n.hasStrong == d.nodes[k].hasStrong
    ensures Inv(d.(nodes := Collect(d.nodes[k := n], d.references, d.claims)))
  {
    var nodes := d.nodes[k := n];
    InvSplit(d);
    DeathParts(d);
    LinkParts(d);
    hide Inv, BuffersOk, CallsOk, ErrorsOk, SlotsOk, DeathsOk, AsyncOk;
    NodeChangeNodes(d, k, n);
    hide ObjectsOk, OwnersKnown, Linked, NodesOk, ManagerOk, RefsHome;
    TidKeepsLinked(d.references, d.claims, d.nodes, nodes, 0);
    FlagsKeepAsync(d.nodes, nodes, d.work, d.claims, d.endpoints, 0);
    RecollectInv(d, d.references, d.deaths, nodes);
  }

  lemma NodeChangeNodes(d: Device, k: nat, n: Node)
    requires ObjectsOk(d, d.endpoints.Keys) && k < |d.nodes|
    requires n == d.nodes[k].(tid := n.tid, hasStrong := n.hasStrong, hasWeak := n.hasWeak,
             pendingStrong := n.pendingStrong, pendingWeak := n.pendingWeak)
    requires d.nodes[k].manager ==> n.hasStrong == d.nodes[k].hasStrong
    requires d.nodes[k].id != 0
    ensures var nodes := d.nodes[k := n];
            && NodesOk(nodes, d.nextNode, d.endpoints.Keys)
            && ManagerOk(nodes, d.manager, d.managerNode, d.endpoints.Keys)
            && OwnersKnown(nodes, d.deaths, d.nextToken) && RefsHome(d.references, d.endpoints.Keys)
  {
    var nodes := d.nodes[k := n];
    hide Linked, SlotsOk, DeathsOk, NoGarbage;
    forall i | 0 <= i < |nodes|
      ensures NodeOk(nodes[i], d.nextNode, d.endpoints.Keys)
    {
      assert NodeOk(d.nodes[i], d.nextNode, d.endpoints.Keys);
    }
    if d.manager != 0 {
      var x :| 0 <= x < |d.nodes| && d.nodes[x].id == d.managerNode && d.nodes[x].owner == d.manager
          && d.nodes[x].manager && d.nodes[x].hasStrong;
      assert nodes[x].id == d.managerNode && nodes[x].hasStrong;
    }
  }

  lemma NodeDoneInv(d: Device, e: nat, strong: bool, pointer: u64, cookie: u64)
    requires Inv(d)
    ensures Inv(NodeDoneCommand(d, e, strong, pointer, cookie).0)
  {
    var k := OwnedNode(d.nodes, e, pointer);
    if k < |d.nodes| && d.nodes[k].cookie == cookie {
      hide Inv, StrongUse, WeakUse;
      NodeChangeInv(d, k, AcknowledgedNode(d, d.nodes[k], strong));
    }
  }

  lemma DeliverNodeInv(d: Device, k: nat)
    requires Inv(d) && k < |d.nodes| && d.nodes[k].id != 0 && !d.nodes[k].manager
    ensures Inv(DeliverNode(d, k).d)
  {
    hide Inv, NodeCommand;
    NodeChangeInv(d, k, CalledNode(d.nodes[k], NodeCommand(d.references, d.claims, d.nodes[k])));
  }

  // ---- deaths ----

  lemma DeathParts(d: Device)
    requires Inv(d)
    ensures SlotsOk(d.references, d.deaths) && DeathsOk(d.deaths, d.endpoints.Keys, d.nextSerial)
    ensures OwnersKnown(d.nodes, d.deaths, d.nextToken)
    ensures forall i {:trigger d.references[i]} :: 0 <= i < |d.references| && d.references[i].endpoint != 0 ==>
              d.references[i].owner < d.nextToken
  {
    forall i | 0 <= i < |d.references| && d.references[i].endpoint != 0 ensures d.references[i].owner < d.nextToken {
      assert RefOk(d.references[i], d.nodes);
    }
  }

  lemma OwnersUpdate(nodes: seq<Node>, deaths: seq<Death>, next: nat, i: nat, death: Death)
    requires OwnersKnown(nodes, deaths, next) && i < |deaths| && death.owner < next
    ensures OwnersKnown(nodes, deaths[i := death], next)
  {
  }

  lemma KnownOwner(nodes: seq<Node>, deaths: seq<Death>, next: nat, i: nat)
    requires OwnersKnown(nodes, deaths, next) && i < |deaths|
    ensures deaths[i].owner < next
  {
  }

  lemma DeathsInv(d: Device, deaths: seq<Death>, serial: nat)
    requires Inv(d) && SlotsOk(d.references, deaths) && DeathsOk(deaths, d.endpoints.Keys, serial)
             && OwnersKnown(d.nodes, deaths, d.nextToken)
    ensures Inv(d.(deaths := deaths, nextSerial := serial))
  {
    hide NodesOk, Linked, NoGarbage, BuffersOk, CallsOk, AsyncOk, ManagerOk;
  }

  /** The death field of a reference matters to deaths only. */
  lemma DeathFieldInv(d: Device, r: nat, death: nat, deaths: seq<Death>, serial: nat)
    requires Inv(d) && r < |d.references| && d.references[r].endpoint != 0
    requires var refs := d.references[r := d.references[r].(death := death)];
             SlotsOk(refs, deaths) && DeathsOk(deaths, d.endpoints.Keys, serial)
    requires OwnersKnown(d.nodes, deaths, d.nextToken)
    ensures Inv(d.(references := d.references[r := d.references[r].(death := death)], deaths := deaths,
            nextSerial := serial))
  {
    var refs := d.references[r := d.references[r].(death := death)];
    DeathFieldLinked(d.references, d.claims, d.nodes, r, death);
    DeathFieldUse(d.references, refs, d.claims, d.nodes);
    assert RefsHome(refs, d.endpoints.Keys);
    hide SlotsOk, DeathsOk, BuffersOk, CallsOk, AsyncOk, ManagerOk, NodesOk, Linked, NoGarbage, RefsHome, OwnersKnown;
  }

  lemma DeathFieldLinked(refs: seq<Reference>, claims: seq<Claim>, nodes: seq<Node>, r: nat, death: nat)
    requires Linked(refs, claims, nodes, 0) && r < |refs| && refs[r].endpoint != 0
    ensures Linked(refs[r := refs[r].(death := death)], claims, nodes, 0)
  {
    var refs' := refs[r := refs[r].(death := death)];
    forall i | 0 <= i < |refs'| ensures RefOk(refs'[i], nodes) { assert RefOk(refs[i], nodes); }
    forall c | 0 <= c < |claims| ensures ClaimOk(claims[c], refs', nodes, 0) {
      assert ClaimOk(claims[c], refs, nodes, 0);
      if claims[c].endpoint != 0 && claims[c].remote {
        var k :| 0 <= k < |refs| && refs[k].endpoint == claims[c].endpoint && refs[k].node == claims[c].node
            && refs[k].handle == claims[c].handle;
        assert refs'[k].endpoint == claims[c].endpoint && refs'[k].node == claims[c].node
               && refs'[k].handle == claims[c].handle;
      }
    }
  }

  lemma DeathFieldUse(refs: seq<Reference>, refs': seq<Reference>, claims: seq<Claim>, nodes: seq<Node>)
    requires NoGarbage(nodes, refs, claims)
    requires |refs'| == |refs| && forall i {:trigger refs'[i]} :: 0 <= i < |refs| ==>
               refs'[i] == refs[i].(death := refs'[i].death)
    ensures NoGarbage(nodes, refs', claims)
  {
    forall i | 0 <= i < |nodes| ensures !Garbage(refs', claims, nodes[i]) {
      assert !Garbage(refs, claims, nodes[i]);
      SameUse(refs, refs', claims, nodes[i]);
    }
  }

  lemma SameUse(refs: seq<Reference>, refs': seq<Reference>, claims: seq<Claim>, n: Node)
    requires |refs'| == |refs| && forall i {:trigger refs'[i]} :: 0 <= i < |refs| ==>
               refs'[i] == refs[i].(death := refs'[i].death)
    ensures WeakUse(refs', claims, n) <==> WeakUse(refs, claims, n)
  {
    if i :| 0 <= i < |refs| && AnyImport(refs[i], n.id) { assert AnyImport(refs'[i], n.id); }
    if i :| 0 <= i < |refs| && StrongImport(refs[i], n.id) { assert StrongImport(refs'[i], n.id); }
  }

  lemma DeathDoneInv(d: Device, e: nat, tid: nat, cookie: u64)
    requires Inv(d) && (e, tid) in d.threads && e != 0
    ensures Inv(DeathDoneCommand(d, e, tid, cookie).0)
  {
    var i := DeliveredDeath(d.deaths, e, cookie);
    if i < |d.deaths| {
      assert DeathOk(d.deaths[i], d.endpoints.Keys, d.nextSerial);
      var death := if d.deaths[i].clearing then QueueClear(d.deaths[i], d.threads[(e, tid)], tid)
          else d.deaths[i].(state := DeathAcknowledged);
      AdvanceKeepsDeaths(d.references, d.deaths, d.endpoints.Keys, d.nextSerial, i, death);
      hide Inv;
      DeathsInv(d, d.deaths[i := death], d.nextSerial);
    }
  }

  lemma OwnerPositive(d: Device, r: nat)
    requires Inv(d) && r < |d.references| && d.references[r].endpoint != 0
    ensures d.references[r].owner != 0
  {
    hide CallsOk, AsyncOk, BuffersOk, NoGarbage, SlotsOk, DeathsOk;
    assert RefOk(d.references[r], d.nodes);
    var k :| 0 <= k < |d.nodes| && d.nodes[k].id == d.references[r].node && d.nodes[k].owner == d.references[r].owner;
    assert NodeOk(d.nodes[k], d.nextNode, d.endpoints.Keys);
  }

  lemma RequestDeathInv(d: Device, e: nat, handle: u32, cookie: u64)
    requires Inv(d) && e in d.endpoints && e != 0
    ensures Inv(RequestDeathCommand(d, e, handle, cookie).0)
  {
    DeathParts(d);
    hide Inv, SlotsOk, DeathsOk, OwnersKnown;
    var r := FindReference(d.references, e, handle);
    if r < |d.references| && d.references[r].death == 0 {
      var i := FreeDeath(d.deaths);
      if i < |d.deaths| {
        var owner := d.references[r].owner;
        OwnerPositive(d, r);
        var death := Death(e, owner, cookie, 0, if owner in d.endpoints then Armed else DeathQueued, false,
            d.nextSerial);
        RequestKeepsDeaths(d.references, d.deaths, d.endpoints.Keys, d.nextSerial, r, i, death);
        OwnersUpdate(d.nodes, d.deaths, d.nextToken, i, death);
        DeathFieldInv(d, r, i + 1, d.deaths[i := death], d.nextSerial + 1);
      }
    }
  }

  lemma ClearDeathInv(d: Device, e: nat, tid: nat, handle: u32, cookie: u64)
    requires Inv(d) && (e, tid) in d.threads && e != 0
    ensures Inv(ClearDeathCommand(d, e, tid, handle, cookie).0)
  {
    hide *;
    var found, r, i, after := ClearDeathIs(d, e, tid, handle, cookie);
    if found { ClearedInv(d, r, i, after); }
  }

  /** What clearing a subscription changes, if it finds one with that cookie. */
  lemma ClearDeathIs(d: Device, e: nat, tid: nat, handle: u32, cookie: u64)
      returns (found: bool, r: nat, i: nat, after: Death)
    requires (e, tid) in d.threads
    ensures !found ==> ClearDeathCommand(d, e, tid, handle, cookie).0 == d
    ensures found ==> r < |d.references| && i < |d.deaths| && d.references[r].endpoint == e && ClearsTo(d, r, i, after)
    ensures found ==> ClearDeathCommand(d, e, tid, handle, cookie).0 == ClearedAt(d, r, i, after)
  {
    r := FindReference(d.references, e, handle);
    found, i, after := false, 0, NO_DEATH;
    hide FindReference;
    if r < |d.references| && 0 < d.references[r].death <= |d.deaths| {
      i := d.references[r].death - 1;
      found := d.deaths[i].cookie == cookie;
      var death := d.deaths[i].(clearing := true);
      after := if death.state.Armed? || death.state.DeathAcknowledged? then QueueClear(death, d.threads[(e, tid)], tid)
               else death;
    }
  }

  ghost function ClearedAt(d: Device, r: nat, i: nat, after: Death): Device
    requires r < |d.references| && i < |d.deaths|
  {
    d.(references := d.references[r := d.references[r].(death := 0)], deaths := d.deaths[i := after])
  }

  ghost predicate ClearsTo(d: Device, r: nat, i: nat, after: Death)
    requires r < |d.references| && i < |d.deaths|
  {
    var was := d.deaths[i];
    && d.references[r].death == i + 1 && after == was.(state := after.state, tid := after.tid, clearing := true)
    && if was.state.Armed? || was.state.DeathAcknowledged? then after.state.ClearQueued?
       else after.state == was.state && after.tid == was.tid
  }

  lemma ClearedInv(d: Device, r: nat, i: nat, after: Death)
    requires Inv(d) && r < |d.references| && i < |d.deaths| && d.references[r].endpoint != 0 && ClearsTo(d, r, i, after)
    ensures Inv(ClearedAt(d, r, i, after))
  {
    assert d.references[r].death - 1 == i;
    DeathParts(d);
    hide Inv, SlotsOk, DeathsOk, OwnersKnown;
    ClearKeepsDeaths(d.references, d.deaths, d.endpoints.Keys, d.nextSerial, r, after);
    KnownOwner(d.nodes, d.deaths, d.nextToken, i);
    OwnersUpdate(d.nodes, d.deaths, d.nextToken, i, after);
    DeathFieldInv(d, r, 0, d.deaths[i := after], d.nextSerial);
  }

  lemma DeliverDeathInv(d: Device, i: nat)
    requires Inv(d) && i < |d.deaths| && d.deaths[i].endpoint != 0
             && (d.deaths[i].state.DeathQueued? || d.deaths[i].state.ClearQueued?)
    ensures Inv(DeliverDeath(d, i).d)
  {
    var death := d.deaths[i];
    assert DeathOk(death, d.endpoints.Keys, d.nextSerial);
    var after := if death.state.ClearQueued? then NO_DEATH else death.(state := DeathDelivered);
    AdvanceKeepsDeaths(d.references, d.deaths, d.endpoints.Keys, d.nextSerial, i, after);
    hide Inv;
    DeathsInv(d, d.deaths[i := after], d.nextSerial);
  }

  // ---- threads and endpoints ----

  /** Thread fields other than the call linkage. */
  lemma ThreadFieldInv(d: Device, k: (nat, nat), th: Thread)
    requires Inv(d) && k in d.threads && th.incoming == d.threads[k].incoming && th.outgoing == d.threads[k].outgoing
    requires th.error in {0, BR_DEAD_REPLY, BR_FAILED_REPLY}
    ensures Inv(d.(threads := d.threads[k := th]))
  {
    hide ObjectsOk, BuffersOk, AsyncOk, RequestsOk, Queued, CalledBy, ServedBy;
    var threads := d.threads[k := th];
    forall i | 0 <= i < |d.transactions| && d.transactions[i].id != 0
      ensures TransactionOk(d.transactions[i], threads, d.work, d.endpoints.Keys)
    {
      assert TransactionOk(d.transactions[i], d.threads, d.work, d.endpoints.Keys);
    }
    assert ObjectsOk(d.(threads := threads), d.endpoints.Keys) by {
      SameObjects(d, d.(threads := threads), d.endpoints.Keys);
    }
  }

  lemma AdmitInv(d: Device, e: nat, tid: nat)
    requires Inv(d) && e in d.endpoints && tid > 0 && (e, tid) !in d.threads
    ensures Inv(d.(threads := d.threads[(e, tid) := NEW_THREAD]))
  {
    hide ObjectsOk, BuffersOk, AsyncOk, RequestsOk, Queued, CalledBy, ServedBy;
    var threads := d.threads[(e, tid) := NEW_THREAD];
    forall i | 0 <= i < |d.transactions| && d.transactions[i].id != 0
      ensures TransactionOk(d.transactions[i], threads, d.work, d.endpoints.Keys)
    {
      assert TransactionOk(d.transactions[i], d.threads, d.work, d.endpoints.Keys);
    }
    assert ObjectsOk(d.(threads := threads), d.endpoints.Keys) by {
      SameObjects(d, d.(threads := threads), d.endpoints.Keys);
    }
  }

  /** An endpoint's own fields change while its buffers stay. */
  lemma EndpointFieldInv(d: Device, e: nat, ep: Endpoint)
    requires Inv(d) && e in d.endpoints && ep.slots == d.endpoints[e].slots && EndpointOk(ep)
             && (!ep.mappedOnce ==> ep.slots == [] && ep.watch == 0)
    ensures Inv(d.(endpoints := d.endpoints[e := ep]))
  {
    var eps := d.endpoints[e := ep];
    assert eps.Keys == d.endpoints.Keys;
    assert forall x, a, v {:trigger Holds(eps, x, a, v)} :: Holds(eps, x, a, v) <==> Holds(d.endpoints, x, a, v);
    hide Holds;
    assert BuffersOk(eps, d.nextToken, d.work, d.claims, d.parcels);
    hide BuffersOk, CallsOk, ObjectsOk, NextAsync, HasTarget;
    assert AsyncOk(d.nodes, d.work, d.claims, eps, 0) by {
      forall k | 0 <= k < |d.nodes| && Busy(d.nodes[k], eps, 0) ensures CurrentOk(d.nodes[k], d.work, eps) {
        assert CurrentOk(d.nodes[k], d.work, d.endpoints);
      }
    }
    assert ObjectsOk(d.(endpoints := eps), d.endpoints.Keys) by {
      SameObjects(d, d.(endpoints := eps), d.endpoints.Keys);
    }
  }

  // ---- freeing and delivering buffers ----

  lemma FreedHeld(d: Device, e: nat, b: nat)
    requires Inv(d) && e in d.endpoints && Remove(d.endpoints[e].slots, b, true).1 == 0
    ensures Holds(d.endpoints, e, b, true) && !Holds(d.endpoints, e, b, false) && b != 0 && e != 0
  {
    var ep := d.endpoints[e];
    hide ObjectsOk, CallsOk, AsyncOk;
    assert ep.slots != [];
    assert EndpointOk(ep);
    RemoveHolds(ep.slots, ep.base, ep.size, b, true);
    HeldOnce(ep.slots, ep.base, ep.size, b);
    HeldLaid(d.endpoints, d.nextToken, e, b, true);
  }

  lemma AdvanceIsRouting(nodes: seq<Node>, work: seq<Work>, e: nat, b: nat)
    requires forall i {:trigger nodes[i]} :: 0 <= i < |nodes| && nodes[i].id == 0 ==> nodes[i] == NO_NODE
    requires e != 0
    ensures OnlyRouting(nodes, AdvanceAsync(nodes, work, e, b))
  {
  }

  lemma NodeParts(d: Device)
    requires Inv(d)
    ensures forall i {:trigger d.nodes[i]} :: 0 <= i < |d.nodes| ==>
              (d.nodes[i].id == 0 ==> d.nodes[i] == NO_NODE) && d.nodes[i].id < d.nextNode
                  && (d.nodes[i].id != 0 ==> d.nodes[i].owner != 0)
    ensures forall i, k {:trigger d.nodes[i], d.nodes[k]} ::
              0 <= i < |d.nodes| && 0 <= k < |d.nodes| && i != k && d.nodes[i].id != 0 ==>
                d.nodes[i].id != d.nodes[k].id
    ensures d.nextNode > 0
  {
    forall i | 0 <= i < |d.nodes| ensures NodeOk(d.nodes[i], d.nextNode, d.endpoints.Keys) {}
  }

  lemma FreeInv(d: Device, e: nat, b: nat)
    requires Inv(d) && e in d.endpoints
    ensures Inv(FreeCommand(d, e, b).0)
  {
    var (slots, code) := Remove(d.endpoints[e].slots, b, true);
    if code == 0 {
      var eps := d.endpoints[e := d.endpoints[e].(slots := slots)];
      var nodes := AdvanceAsync(d.nodes, d.work, e, b);
      assert FreeCommand(d, e, b).0 == Unclaim(d.(nodes := nodes, endpoints := eps, parcels := d.parcels - {(e, b)}), e,
             b);
      hide FreeCommand, Inv, Remove, AdvanceAsync, Unclaim;
      FreedHeld(d, e, b);
      InvSplit(d);
      BuffersSplit(d.endpoints, d.nextToken, d.work, d.claims, d.parcels);
      hide BuffersOk, CallsOk, AsyncOk, ObjectsOk, EndpointsOk, WorkHeld, ParcelsHeld, ErrorsOk;
      TakeBuffer(d.endpoints, d.nextToken, e, b, true);
      FreeNodes(d, e, b, eps, nodes);
      var u := Unclaim(d.(nodes := nodes), e, b);
      UnclaimKeepsObjects(d.(nodes := nodes), d.endpoints.Keys, e, b);
      UnclaimEffect(d.(nodes := nodes), e, b);
      NotQueued(d.endpoints, d.work, e, b);
      hide Taken, Collect, Matches, Holds;
      TakeKeepsBuffers(d.endpoints, d.nextToken, d.work, d.claims, d.parcels, eps, d.work, u.claims, e, b);
      TakenKeys(d.endpoints, eps, e, b);
      FreeFinish(d, e, b, eps, nodes, u);
    }
  }

  lemma TakenKeys(eps: Endpoints, eps': Endpoints, e: nat, b: nat)
    requires Taken(eps, eps', e, b)
    ensures eps'.Keys == eps.Keys
  {
    hide Holds;
  }

  /** A delivered buffer is not queued. */
  lemma NotQueued(eps: Endpoints, work: seq<Work>, e: nat, b: nat)
    requires WorkHeld(eps, work) && !Holds(eps, e, b, false)
    ensures forall j {:trigger work[j]} :: 0 <= j < |work| ==> !(work[j].endpoint == e && work[j].value.dataBuffer == b)
  {
    hide Holds;
  }

  lemma FreeNodes(d: Device, e: nat, b: nat, eps: Endpoints, nodes: seq<Node>)
    requires Inv(d) && e != 0 && b != 0 && Taken(d.endpoints, eps, e, b) && nodes == AdvanceAsync(d.nodes, d.work, e, b)
    requires Holds(d.endpoints, e, b, true) && !Holds(d.endpoints, e, b, false)
    ensures AsyncOk(nodes, d.work, d.claims, eps, 0) && ObjectsOk(d.(nodes := nodes), d.endpoints.Keys)
  {
    NodeParts(d);
    InvSplit(d);
    hide Inv, CallsOk, ErrorsOk;
    BuffersSplit(d.endpoints, d.nextToken, d.work, d.claims, d.parcels);
    WorkEndpoints(d.endpoints, d.nextToken, d.work);
    hide BuffersOk, EndpointsOk, ParcelsHeld, ObjectsOk, AsyncOk, Taken;
    FreeKeepsAsync(d.nodes, d.work, d.claims, d.endpoints, eps, e, b);
    AdvanceIsRouting(d.nodes, d.work, e, b);
    hide AdvanceAsync, OnlyRouting;
    RoutingKeepsObjects(d, nodes, d.endpoints.Keys);
  }

  lemma FreeFinish(d: Device, e: nat, b: nat, eps: Endpoints, nodes: seq<Node>, u: Device)
    requires Inv(d) && e != 0 && b != 0 && e in d.endpoints && eps.Keys == d.endpoints.Keys
    requires AsyncOk(nodes, d.work, d.claims, eps, 0)
    requires u == Unclaim(d.(nodes := nodes), e, b) && ObjectsOk(u, d.endpoints.Keys)
    requires |u.claims| == |d.claims| && forall c {:trigger u.claims[c]} :: 0 <= c < |d.claims| ==>
               u.claims[c] == if Matches(d.claims[c], e, b) then NO_CLAIM else d.claims[c]
    requires u.nodes == Collect(nodes, u.references, u.claims)
    requires forall j {:trigger d.work[j]} :: 0 <= j < |d.work| ==>
               !(d.work[j].endpoint == e && d.work[j].value.dataBuffer == b)
    requires BuffersOk(eps, d.nextToken, d.work, u.claims, d.parcels - {(e, b)})
    ensures Inv(Unclaim(d.(nodes := nodes, endpoints := eps, parcels := d.parcels - {(e, b)}), e, b))
  {
    WorkEndpoints(d.endpoints, d.nextToken, d.work);
    hide BuffersOk, Collect, ObjectsOk;
    ReleaseKeepsQueue(nodes, d.work, d.claims, u.references, u.claims, 0, e, b);
    CollectKeepsCurrents(nodes, u.references, u.claims, d.work, eps, 0);
    var r := Unclaim(d.(nodes := nodes, endpoints := eps, parcels := d.parcels - {(e, b)}), e, b);
    assert r == u.(endpoints := eps, parcels := d.parcels - {(e, b)});
    assert ObjectsOk(r, d.endpoints.Keys) by { SameObjects(u, r, d.endpoints.Keys); }
    hide Unclaim, QueueOk, CurrentsOk, CallsOk;
  }

  /** What a reader is handed was queued in an undelivered buffer, and a request finds its transaction. */
  lemma DeliverWorkInv(d: Device, e: nat, tid: nat, j: nat)
    requires Inv(d) && e in d.endpoints && (e, tid) in d.threads && j < |d.work|
    requires Deliverable(d, d.work[j], e, tid, d.threads[(e, tid)])
    ensures Inv(DeliverWork(d, e, tid, j).d) && DeliverWork(d, e, tid, j).status.Done?
  {
    var w := d.work[j];
    var eps := d.endpoints[e := d.endpoints[e].(slots := Publish(d.endpoints[e].slots, w.value.dataBuffer).0)];
    InvSplit(d);
    hide Inv, Publish, CallsOk, ErrorsOk, AsyncOk, ObjectsOk;
    BuffersSplit(d.endpoints, d.nextToken, d.work, d.claims, d.parcels);
    assert Holds(d.endpoints, e, w.value.dataBuffer, false);
    hide BuffersOk, WorkHeld, EndpointsOk, ParcelsHeld, Holds, Shown, Deliverable;
    ShowBuffer(d.endpoints, d.nextToken, e, w.value.dataBuffer);
    ShowKeepsBuffers(d.endpoints, d.nextToken, d.work, d.claims, d.parcels, eps, j);
    DeliverKeepsAsync(d, e, tid, j, eps);
    DeliverKeepsCalls(d, e, tid, j);
    DeliverFields(d, e, tid, j, eps);
    hide DeliverWork;
    var r := DeliverWork(d, e, tid, j).d;
    SameObjects(d, r, d.endpoints.Keys);
    InvJoin(r);
  }

  lemma DeliverFields(d: Device, e: nat, tid: nat, j: nat, eps: Endpoints)
    requires e in d.endpoints && (e, tid) in d.threads && j < |d.work| && DeliverWork(d, e, tid, j).status.Done?
    requires var (slots, code) := Publish(d.endpoints[e].slots, d.work[j].value.dataBuffer);
             code == 0 && eps == d.endpoints[e := d.endpoints[e].(slots := slots)]
    ensures var r := DeliverWork(d, e, tid, j).d;
            && r.endpoints == eps && r.endpoints.Keys == d.endpoints.Keys && r.nodes == d.nodes && r.claims == d.claims
            && r.parcels == d.parcels
            && r.references == d.references && r.deaths == d.deaths && r.nextNode == d.nextNode
            && r.nextSerial == d.nextSerial
            && r.manager == d.manager && r.managerNode == d.managerNode && r.nextToken == d.nextToken
  {
    hide Publish, FindTransaction;
  }

  lemma DeliverKeepsAsync(d: Device, e: nat, tid: nat, j: nat, eps: Endpoints)
    requires Inv(d) && e in d.endpoints && (e, tid) in d.threads && j < |d.work|
             && Deliverable(d, d.work[j], e, tid, d.threads[(e, tid)])
    requires Shown(d.endpoints, eps, e, d.work[j].value.dataBuffer)
    ensures AsyncOk(d.nodes, RemoveAt(d.work, j), d.claims, eps, 0)
  {
    WorkEndpoints(d.endpoints, d.nextToken, d.work);
    NodeParts(d);
    hide Shown;
    ServeKeepsAsync(d.nodes, d.work, d.claims, d.endpoints, eps, j);
  }

  lemma DeliverKeepsCalls(d: Device, e: nat, tid: nat, j: nat)
    requires Inv(d) && e in d.endpoints && (e, tid) in d.threads && j < |d.work|
             && Deliverable(d, d.work[j], e, tid, d.threads[(e, tid)])
    requires Publish(d.endpoints[e].slots, d.work[j].value.dataBuffer).1 == 0
    ensures var r := DeliverWork(d, e, tid, j);
            && r.status.Done? && ErrorsOk(r.d.threads)
            && CallsOk(r.d.threads, r.d.transactions, RemoveAt(d.work, j), d.endpoints.Keys, r.d.nextTransaction, 0)
            && r.d.work == RemoveAt(d.work, j)
  {
    var w := d.work[j];
    hide Publish, ObjectsOk, BuffersOk, AsyncOk;
    assert RequestOk(w, d.transactions, d.endpoints.Keys) && tid > 0;
    if w.transaction == 0 {
      hide ErrorsOk;
      RemoveKeepsCalls(d.threads, d.transactions, d.work, d.endpoints.Keys, d.nextTransaction, 0, j);
    } else {
      var slot := FindTransaction(d.transactions, w.transaction);
      assert slot < |d.transactions|;
      ServeKeepsCalls(d.threads, d.transactions, d.work, d.endpoints.Keys, d.nextTransaction, (e, tid), j, slot,
          d.threads[(e, tid)].(incoming := w.transaction));
    }
    hide CallsOk;
  }
}
