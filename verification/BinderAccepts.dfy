/** Exactly when a call, a reply or an object is accepted, and what a refused call is told. */
module BinderAccepts {
  import opened Base
  import opened BinderArena
  import opened BinderWire
  import opened BinderState
  import opened BinderCommands
  import opened BinderLifetime
  import opened BinderParcels
  import opened BinderBuffers
  import opened BinderCalls
  import opened BinderOneWay
  import opened BinderDeaths
  import opened BinderInvariant
  import opened BinderSteps
  import opened BinderTransfer
  import opened BinderRuns
  import opened BinderEffects

  // ---- which node a call reaches ----

  /** The node the call names is alive, and its owner is another process that is still there. */
  ghost predicate Reaches(d: Device, e: nat, input: Packet, k: nat)
    requires e in d.endpoints
  {
    && k < |d.nodes| && d.nodes[k].id != 0 && Addresses(d, e, input, d.nodes[k]) && !d.nodes[k].dead
    && d.nodes[k].owner in d.endpoints && d.nodes[k].owner != e
    && (input.target % U32_LIMIT == 0 ==> d.endpoints[d.nodes[k].owner].pid != d.endpoints[e].pid)
  }

  /** A two-way call needs a caller that is in no call, a transaction identity and a transaction slot. */
  ghost predicate CanWait(d: Device, th: Thread) {
    && th.incoming == 0 && th.outgoing == 0 && d.nextTransaction != U64_LIMIT
    && exists i :: 0 <= i < |d.transactions| && d.transactions[i].id == 0
  }

  /** Where the search for the named node ends. */
  function Named(d: Device, e: nat, input: Packet): (k: nat)
    ensures k <= |d.nodes|
  {
    var handle := input.target % U32_LIMIT;
    var r := FindReference(d.references, e, handle);
    if handle == 0 then NodeFor(d.nodes, d.managerNode)
    else if r < |d.references| && (d.references[r].strong != 0 || d.references[r].temporary != 0)
    then NodeFor(d.nodes, d.references[r].node) else |d.nodes|
  }

  lemma NamedNode(d: Device, e: nat, input: Packet)
    requires Inv(d) && e in d.endpoints
    ensures var k := Named(d, e, input);
            && (k < |d.nodes| ==> d.nodes[k].id != 0 && Addresses(d, e, input, d.nodes[k]))
            && forall m {:trigger d.nodes[m]} ::
                 0 <= m < |d.nodes| && d.nodes[m].id != 0 && Addresses(d, e, input, d.nodes[m]) ==> m == k
  {
    NodeParts(d);
    OneHandle(d);
    hide Inv;
    var handle := input.target % U32_LIMIT;
    var r := FindReference(d.references, e, handle);
    forall m | 0 <= m < |d.nodes| && d.nodes[m].id != 0 && Addresses(d, e, input, d.nodes[m]) && handle != 0
      ensures r < |d.references| && d.references[r].node == d.nodes[m].id
              && (d.references[r].strong != 0 || d.references[r].temporary != 0)
    {
      var x :| 0 <= x < |d.references| && d.references[x].endpoint == e && d.references[x].handle == handle
          && d.references[x].node == d.nodes[m].id
               && (d.references[x].strong != 0 || d.references[x].temporary != 0);
      assert r < |d.references| ==> d.references[r].endpoint == e && d.references[r].handle == handle;
    }
  }

  lemma OneHandle(d: Device)
    requires Inv(d)
    ensures forall i, j {:trigger d.references[i], d.references[j]} ::
              0 <= i < |d.references| && 0 <= j < |d.references| && d.references[i].endpoint != 0
              && d.references[i].endpoint == d.references[j].endpoint
              && d.references[i].handle == d.references[j].handle
              ==> i == j
    ensures 0 !in d.endpoints
  {
    hide NodesOk, NoGarbage, SlotsOk, DeathsOk, ManagerOk, CallsOk, AsyncOk, Counted;
  }

  ghost predicate Reachable(d: Device, e: nat, input: Packet, k: nat)
    requires e in d.endpoints && k < |d.nodes|
  {
    && !d.nodes[k].dead && d.nodes[k].owner in d.endpoints && d.nodes[k].owner != e
    && (input.target % U32_LIMIT == 0 ==> d.endpoints[d.nodes[k].owner].pid != d.endpoints[e].pid)
  }

  lemma RouteShape(d: Device, e: nat, tid: nat, input: Packet)
    requires e in d.endpoints && (e, tid) in d.threads
    ensures var r, k, th := RouteCall(d, e, tid, input), Named(d, e, input), d.threads[(e, tid)];
            && (r.To? <==> (input.flags % 2 == 1 || CanWait(d, th)) && k < |d.nodes| && Reachable(d, e, input, k))
            && (r.To? ==> r.nodeIndex == k < |d.nodes| && r.target == d.nodes[k].owner)
            && ((input.flags % 2 == 1 || (th.incoming == 0 && th.outgoing == 0))
                && !(k < |d.nodes| && Reachable(d, e, input, k)) ==>
                  r == Halt(SetError(d, e, tid, if (k == |d.nodes| && input.target % U32_LIMIT == 0)
                      || (k < |d.nodes| && (d.nodes[k].dead || d.nodes[k].owner !in d.endpoints))
                      then BR_DEAD_REPLY else BR_FAILED_REPLY), Done))
  {
    CanWaitIs(d, d.threads[(e, tid)]);
    hide FindReference, NodeFor, FindTransaction, SetError, CanWait;
  }

  lemma CanWaitIs(d: Device, th: Thread)
    ensures CanWait(d, th) <==> th.incoming == 0 && th.outgoing == 0 && d.nextTransaction != U64_LIMIT
                                && FindTransaction(d.transactions, 0) < |d.transactions|
  {
    var slot := FindTransaction(d.transactions, 0);
    assert slot < |d.transactions| ==> d.transactions[slot].id == 0;
    hide FindTransaction;
  }

  lemma ReachesIs(d: Device, e: nat, input: Packet)
    requires Inv(d) && e in d.endpoints
    ensures var k := Named(d, e, input);
            && (k < |d.nodes| && Reachable(d, e, input, k) ==> Reaches(d, e, input, k))
            && forall m: nat :: Reaches(d, e, input, m) ==> m == k < |d.nodes| && Reachable(d, e, input, k)
  {
    NamedNode(d, e, input);
    hide Inv, Addresses, Named;
  }

  /** A call goes somewhere exactly when its caller may wait, if it has to, and the node it names can be reached. */
  lemma RouteIs(d: Device, e: nat, tid: nat, input: Packet)
    requires Inv(d) && e in d.endpoints && (e, tid) in d.threads
    ensures var r := RouteCall(d, e, tid, input);
            && (r.To? <==> (input.flags % 2 == 1 || CanWait(d, d.threads[(e, tid)]))
                           && exists k: nat :: Reaches(d, e, input, k))
            && (r.To? ==> Reaches(d, e, input, r.nodeIndex) && r.target == d.nodes[r.nodeIndex].owner)
            && (forall k: nat {:trigger Reaches(d, e, input, k)} :: r.To? && Reaches(d, e, input, k) ==>
                 k == r.nodeIndex)
  {
    hide *;
    ReachesIs(d, e, input);
    RouteShape(d, e, tid, input);
  }

  /** The node the call names is gone, or the call is to the manager and there is none. */
  ghost predicate NamesDead(d: Device, e: nat, input: Packet) {
    || (exists k :: 0 <= k < |d.nodes| && d.nodes[k].id != 0 && Addresses(d, e, input, d.nodes[k])
                    && (d.nodes[k].dead || d.nodes[k].owner !in d.endpoints))
    || (input.target % U32_LIMIT == 0 && forall k {:trigger d.nodes[k]} ::
          0 <= k < |d.nodes| && d.nodes[k].id != 0 ==> !Addresses(d, e, input, d.nodes[k]))
  }

  /** What a caller that may call is told when the node cannot be reached: that it is dead, or that the call failed. */
  lemma UnreachableIs(d: Device, e: nat, tid: nat, input: Packet)
    requires Inv(d) && e in d.endpoints && (e, tid) in d.threads
    requires input.flags % 2 == 1 || (d.threads[(e, tid)].incoming == 0 && d.threads[(e, tid)].outgoing == 0)
    requires forall k: nat :: !Reaches(d, e, input, k)
    ensures var r, th := RouteCall(d, e, tid, input), d.threads[(e, tid)];
            && r.Halt? && r.status.Done?
            && r.d == d.(threads := d.threads[(e, tid) :=
                 th.(error := if NamesDead(d, e, input) then BR_DEAD_REPLY else BR_FAILED_REPLY)])
  {
    NamedNode(d, e, input);
    RouteShape(d, e, tid, input);
    hide Inv, Addresses, RouteCall, Named, FindTransaction;
    var k := Named(d, e, input);
    assert k < |d.nodes| ==> !Reaches(d, e, input, k);
  }

  // ---- which objects can be sent ----

  /** There is room to hold the node for the receiver: its own, one it holds already, or a slot and a handle for it. */
  ghost predicate CanImport(d: Device, target: nat, node: Node) {
    || node.owner == target
    || (exists r :: 0 <= r < |d.references| && d.references[r].endpoint == target && d.references[r].node == node.id
                    && d.references[r].temporary != U32_LIMIT - 1)
    || (&& (forall r {:trigger d.references[r]} :: 0 <= r < |d.references| ==>
              !(d.references[r].endpoint == target && d.references[r].node == node.id))
        && (exists r :: 0 <= r < |d.references| && d.references[r].endpoint == 0)
        && exists h: u32 :: (if node.id == d.managerNode then 0 else 1) <= h && FreeHandleFor(d.references, target, h))
  }

  ghost predicate FreeHandleFor(refs: seq<Reference>, target: nat, h: nat) {
    forall r {:trigger refs[r]} :: 0 <= r < |refs| ==> !(refs[r].endpoint == target && refs[r].handle == h)
  }

  lemma {:induction false} FreeHandleIs(refs: seq<Reference>, e: nat, handle: nat)
    requires handle < U32_LIMIT
    ensures FreeHandle(refs, e, handle) < U32_LIMIT <==> exists h: u32 :: handle <= h && FreeHandleFor(refs, e, h)
    decreases U32_LIMIT - handle
  {
    assert FindReference(refs, e, handle) == |refs| <==> FreeHandleFor(refs, e, handle) by {
      var k := FindReference(refs, e, handle);
      assert k < |refs| ==> refs[k].endpoint == e && refs[k].handle == handle;
    }
    hide FindReference, FreeHandleFor;
    if FindReference(refs, e, handle) == |refs| {
      var h: u32 := handle;
      assert handle <= h && FreeHandleFor(refs, e, h);
    } else if handle == U32_LIMIT - 1 {
      forall h: u32 | handle <= h ensures !FreeHandleFor(refs, e, h) { assert h == handle; }
    } else {
      var next: nat := handle + 1;
      FreeHandleIs(refs, e, next);
      forall h: u32 | handle <= h && FreeHandleFor(refs, e, h) ensures next <= h { assert h != handle; }
    }
  }

  lemma EnsureIs(refs: seq<Reference>, target: nat, node: Node, managerNode: nat)
    ensures var r, k, free := EnsureReference(refs, target, node, managerNode), FindImport(refs, target, node.id),
              FreeReference(refs);
            var first: u32 := if node.id == managerNode then 0 else 1;
            && (k < |refs| ==> r == (refs, k))
            && (k == |refs| ==> (r.1 < |refs| <==> free < |refs| && FreeHandle(refs, target, first) < U32_LIMIT))
            && (k == |refs| && r.1 < |refs| ==> |r.0| == |refs| && r.0[r.1].temporary == 0)
  {
    hide FindImport, FreeReference, FreeHandle;
  }

  lemma ImportIs(d: Device, target: nat, node: Node)
    requires Unique(d.references) && target != 0 && node.owner != target
    ensures var (refs, k) := EnsureReference(d.references, target, node, d.managerNode);
            CanImport(d, target, node) <==> k < |refs| && refs[k].temporary != U32_LIMIT - 1
  {
    var refs, first: u32 := d.references, if node.id == d.managerNode then 0 else 1;
    EnsureIs(refs, target, node, d.managerNode);
    var k := FindImport(refs, target, node.id);
    if k < |refs| {
      HeldIs(d, target, node, k);
      hide CanImport, EnsureReference, FindImport, FreeReference, FreeHandle;
    } else {
      FreeReferenceIs(refs, 0);
      FreeHandleIs(refs, target, first);
      FreshIs(d, target, node, first);
      hide CanImport, EnsureReference, FindImport, FreeReference, FreeHandle, FreeHandleFor;
    }
  }

  /** The receiver has the node already. */
  lemma HeldIs(d: Device, target: nat, node: Node, k: nat)
    requires Unique(d.references) && target != 0 && node.owner != target
    requires k < |d.references| && d.references[k].endpoint == target && d.references[k].node == node.id
    ensures CanImport(d, target, node) <==> d.references[k].temporary != U32_LIMIT - 1
  {
    hide FreeHandleFor;
  }

  /** It does not. */
  lemma FreshIs(d: Device, target: nat, node: Node, first: u32)
    requires node.owner != target && FindImport(d.references, target, node.id) == |d.references|
    requires first == if node.id == d.managerNode then 0 else 1
    ensures CanImport(d, target, node) <==>
              && (exists r :: 0 <= r < |d.references| && d.references[r].endpoint == 0)
              && exists h: u32 :: first <= h && FreeHandleFor(d.references, target, h)
  {
    hide FreeHandleFor;
  }

  lemma ClaimIs(d: Device, target: nat, buffer: nat, node: Node)
    requires Unique(d.references) && target != 0
    ensures AddClaim(d.references, d.claims, target, buffer, node, node.owner != target, d.managerNode).Claimed? <==>
              && (exists c :: 0 <= c < |d.claims| && d.claims[c].endpoint == 0) && CanImport(d, target, node)
  {
    FreeClaimIs(d.claims, 0);
    if node.owner != target { ImportIs(d, target, node); }
    hide EnsureReference, FreeClaim, Unique;
    if node.owner == target { assert CanImport(d, target, node); } else { hide CanImport; }
  }

  lemma {:induction false} FreeClaimIs(claims: seq<Claim>, i: nat)
    requires i <= |claims|
    ensures FreeClaim(claims, i) < |claims| <==> exists c :: i <= c < |claims| && claims[c].endpoint == 0
    decreases |claims| - i
  {
    if i < |claims| && claims[i].endpoint != 0 { FreeClaimIs(claims, i + 1); }
  }

  lemma {:induction false} FreeReferenceIs(refs: seq<Reference>, i: nat)
    requires i <= |refs|
    ensures FreeReference(refs, i) < |refs| <==> exists r :: i <= r < |refs| && refs[r].endpoint == 0
    decreases |refs| - i
  {
    if i < |refs| && refs[i].endpoint != 0 { FreeReferenceIs(refs, i + 1); }
  }

  /** The node an object of `e` stands for, or the one made for an object it first mentions. */
  ghost predicate StandsFor(d: Device, e: nat, tid: nat, item: Flat, node: Node) {
    match item
    case Binder(flags, pointer, cookie) =>
      || (node.id != 0 && !node.dead && (node.owner, node.pointer, node.cookie) == (e, pointer, cookie)
          && exists k :: 0 <= k < |d.nodes| && d.nodes[k] == node)
      || (&& (forall k {:trigger d.nodes[k]} :: 0 <= k < |d.nodes| && d.nodes[k].id != 0 && !d.nodes[k].dead ==>
                !(d.nodes[k].owner == e && d.nodes[k].pointer == pointer))
          && (exists k :: 0 <= k < |d.nodes| && d.nodes[k].id == 0) && d.nextNode != U64_LIMIT
          && node == Node(d.nextNode, e, pointer, cookie, flags, tid, false, false, false, false, false, false, 0))
    case Handle(flags, handle) =>
      && node.id != 0 && (exists k :: 0 <= k < |d.nodes| && d.nodes[k] == node)
      && exists r :: 0 <= r < |d.references| && d.references[r].endpoint == e && d.references[r].handle == handle
                     && d.references[r].node == node.id
                     && (d.references[r].strong != 0 || d.references[r].temporary != 0)
  }

  /** An object can be sent exactly when it stands for a node, old or new, and the receiver can hold that node. */
  ghost predicate CanSend(d: Device, e: nat, tid: nat, target: nat, item: Flat) {
    && (exists c :: 0 <= c < |d.claims| && d.claims[c].endpoint == 0)
    && exists node :: StandsFor(d, e, tid, item, node) && CanImport(d, target, node)
  }

  lemma ResolveIs(d: Device, tokens: set<nat>, e: nat, tid: nat, item: Flat)
    requires LifeOk(d, tokens) && e != 0
    ensures var r := Resolve(d, e, tid, item);
            && (r.Found? ==> StandsFor(d, e, tid, item, r.nodes[r.index]))
            && (forall node :: StandsFor(d, e, tid, item, node) ==> r.Found? && node == r.nodes[r.index])
  {
  }

  lemma TranslateOneIs(d: Device, tokens: set<nat>, e: nat, tid: nat, target: nat, buffer: nat, item: Flat)
    requires LifeOk(d, tokens) && e != 0 && target != 0
    ensures TranslateOne(d, e, tid, target, buffer, item).Translated? <==> CanSend(d, e, tid, target, item)
  {
    ResolveIs(d, tokens, e, tid, item);
    UniqueHandles(d, tokens);
    hide LifeOk, StandsFor, CanImport, Unique;
    var found := Resolve(d, e, tid, item);
    if found.Found? {
      var node := found.nodes[found.index];
      var d1 := d.(nodes := found.nodes, nextNode := found.nextNode);
      ClaimIs(d1, target, buffer, node);
      SameImport(d, d1, target, node);
    }
    hide Resolve, AddClaim;
  }

  lemma UniqueHandles(d: Device, tokens: set<nat>)
    requires LifeOk(d, tokens)
    ensures Unique(d.references)
  {
    hide NodesOk, Counted, ClaimsOk;
  }

  lemma SameImport(d: Device, d': Device, target: nat, node: Node)
    requires d'.references == d.references && d'.managerNode == d.managerNode
    ensures CanImport(d', target, node) <==> CanImport(d, target, node)
  {
    hide FreeHandleFor;
  }

  /** A parcel's objects can all be sent when each can once those before it have been. */
  ghost predicate AllSent(d: Device, e: nat, tid: nat, target: nat, buffer: nat, objects: seq<Flat>) {
    forall i {:trigger objects[i]} :: 0 <= i < |objects| ==>
      CanSend(Translate(d, e, tid, target, buffer, objects[..i]).d, e, tid, target, objects[i])
  }

  lemma AllSentStep(d: Device, e: nat, tid: nat, target: nat, buffer: nat, some: seq<Flat>, item: Flat)
    ensures AllSent(d, e, tid, target, buffer, some + [item]) <==>
              && AllSent(d, e, tid, target, buffer, some)
              && CanSend(Translate(d, e, tid, target, buffer, some).d, e, tid, target, item)
  {
    hide CanSend, Translate;
    var all, n := some + [item], |some|;
    forall i | 0 <= i < n ensures all[..i] == some[..i] && all[i] == some[i] {}
    assert all[..n] == some && all[n] == item;
    if AllSent(d, e, tid, target, buffer, all) {
      forall i | 0 <= i < n
        ensures CanSend(Translate(d, e, tid, target, buffer, some[..i]).d, e, tid, target, some[i])
      {
        assert all[i] == some[i];
      }
      assert CanSend(Translate(d, e, tid, target, buffer, all[..n]).d, e, tid, target, all[n]);
    }
  }

  lemma TranslateStep(d: Device, e: nat, tid: nat, target: nat, buffer: nat, some: seq<Flat>, item: Flat)
    ensures var rest := Translate(d, e, tid, target, buffer, some);
            Translate(d, e, tid, target, buffer, some + [item]).Translated? <==>
              rest.Translated? && TranslateOne(rest.d, e, tid, target, buffer, item).Translated?
  {
    assert (some + [item])[..|some|] == some;
    hide TranslateOne;
  }

  lemma {:induction false} TranslateIs(d: Device, tokens: set<nat>, e: nat, tid: nat, target: nat, buffer: nat,
      objects: seq<Flat>)
    requires LifeOk(d, tokens) && e in tokens && e != 0 && target != 0
    ensures Translate(d, e, tid, target, buffer, objects).Translated? <==> AllSent(d, e, tid, target, buffer, objects)
    decreases |objects|
  {
    if objects != [] {
      var n := |objects| - 1;
      var some, item := objects[..n], objects[n];
      assert objects == some + [item];
      hide *;
      TranslateIs(d, tokens, e, tid, target, buffer, some);
      TranslateLife(d, tokens, e, tid, target, buffer, some);
      TranslateOneIs(Translate(d, e, tid, target, buffer, some).d, tokens, e, tid, target, buffer, item);
      AllSentStep(d, e, tid, target, buffer, some, item);
      TranslateStep(d, e, tid, target, buffer, some, item);
    }
  }

  // ---- which parcels land ----

  /** The device while a parcel's objects are being sent: its buffer is placed and the node it is for is claimed. */
  function Placing(d: Device, target: nat, place: Placement, nodeIndex: nat): Device
    requires target in d.endpoints && place.Placed? && place.index < |place.slots|
  {
    Prepare(d, target, place.slots[place.index], place.slots, nodeIndex).d
  }

  /** The receiver's mapping is intact, sizes are in bounds, the parcel is well formed, some gap of the arena is large
      enough, and there is room to claim the node it is for and each object. */
  ghost predicate Lands(d: Device, e: nat, tid: nat, target: nat, input: Packet, payload: Payload, nodeIndex: nat)
    requires target in d.endpoints && ArenasLaid(d.endpoints)
  {
    var ep := d.endpoints[target];
    && ep.watch == 3 && input.dataSize <= ep.size && input.offsetsSize <= ep.size && input.offsetsSize % 8 == 0
    && input.offsetsSize <= 8 * OBJECT_LIMIT && payload.Objects?
    && |ep.slots| != PACKET_LIMIT && RoundUp8(input.dataSize) + input.offsetsSize <= ep.size
    && (exists j: nat :: j <= |ep.slots|
          && Gap(ep.slots, ep.base, ep.size, j) >= Extent(input.dataSize, input.offsetsSize, 0))
    && (nodeIndex < |d.nodes| && !d.nodes[nodeIndex].manager ==>
          exists c :: 0 <= c < |d.claims| && d.claims[c].endpoint == 0)
    && var place := Reserve(ep.slots, ep.base, ep.size, PACKET_LIMIT, input.dataSize, input.offsetsSize, 0, false);
    && place.Placed? && place.index < |place.slots|
    && AllSent(Placing(d, target, place, nodeIndex), e, tid, target, place.slots[place.index].address, payload.objects)
  }

  lemma PlacedIs(ep: Endpoint, dataSize: nat, offsetsSize: nat)
    requires Laid(ep.slots, ep.base, ep.size) && offsetsSize % 8 == 0
    ensures var place := Reserve(ep.slots, ep.base, ep.size, PACKET_LIMIT, dataSize, offsetsSize, 0, false);
            && (dataSize <= ep.size && offsetsSize <= ep.size ==>
                 (place.Placed? <==>
                   && |ep.slots| != PACKET_LIMIT && RoundUp8(dataSize) + offsetsSize <= ep.size
                   && exists j: nat :: j <= |ep.slots|
                        && Gap(ep.slots, ep.base, ep.size, j) >= Extent(dataSize, offsetsSize, 0)))
            && (place.Placed? ==> place.index < |place.slots|)
  {
    ReserveIsBestFit(ep.slots, ep.base, ep.size, PACKET_LIMIT, dataSize, offsetsSize, 0, false);
    hide Laid, Gap, IsBestFit, Extent;
  }

  lemma DepositIs(d: Device, tokens: set<nat>, e: nat, tid: nat, target: nat, slots: seq<Slot>, slot: Slot,
      nodeIndex: nat, objects: seq<Flat>)
    requires LifeOk(d, tokens) && e in tokens && e != 0 && target in d.endpoints && target != 0
    requires nodeIndex < |d.nodes| ==> d.nodes[nodeIndex].id != 0 && d.nodes[nodeIndex].owner == target
    ensures Deposit(d, e, tid, target, slots, slot, nodeIndex, objects).Ready? <==>
              && (nodeIndex < |d.nodes| && !d.nodes[nodeIndex].manager ==>
                    exists c :: 0 <= c < |d.claims| && d.claims[c].endpoint == 0)
              && AllSent(Prepare(d, target, slot, slots, nodeIndex).d, e, tid, target, slot.address, objects)
  {
    FreeClaimIs(d.claims, 0);
    PrepareLife(d, tokens, target, slot, slots, nodeIndex);
    var ready := Prepare(d, target, slot, slots, nodeIndex);
    TranslateIs(ready.d, tokens, e, tid, target, slot.address, objects);
    assert ready.Stuck? <==> nodeIndex < |d.nodes| && !d.nodes[nodeIndex].manager && FreeClaim(d.claims) == |d.claims|;
    hide LifeOk, Translate, Prepare, AllSent, Rollback, FreeClaim;
  }

  /** The checks before anything is reserved. */
  predicate Checked(ep: Endpoint, input: Packet, payload: Payload) {
    ep.watch == 3 && input.dataSize <= ep.size && input.offsetsSize <= ep.size && input.offsetsSize % 8 == 0
    && input.offsetsSize <= 8 * OBJECT_LIMIT && payload.Objects?
  }

  lemma ReserveShape(d: Device, e: nat, tid: nat, target: nat, input: Packet, payload: Payload, nodeIndex: nat)
    requires target in d.endpoints && ArenasLaid(d.endpoints)
    ensures var ep, r := d.endpoints[target], ReservePayload(d, e, tid, target, input, payload, nodeIndex);
            && (!Checked(ep, input, payload) ==> !r.Ready?)
            && (Checked(ep, input, payload) ==>
                 var place := Reserve(ep.slots, ep.base, ep.size, PACKET_LIMIT, input.dataSize, input.offsetsSize, 0,
                     false);
                 && (place.Rejected? ==> !r.Ready?)
                 && (place.Placed? && place.index < |place.slots| ==>
                      r == Deposit(d, e, tid, target, place.slots, place.slots[place.index], nodeIndex,
                          payload.objects)))
  {
    hide Laid, Reserve, Deposit;
  }

  lemma LandsShape(d: Device, e: nat, tid: nat, target: nat, input: Packet, payload: Payload, nodeIndex: nat)
    requires target in d.endpoints && ArenasLaid(d.endpoints) && Checked(d.endpoints[target], input, payload)
    ensures var ep := d.endpoints[target];
            var place := Reserve(ep.slots, ep.base, ep.size, PACKET_LIMIT, input.dataSize, input.offsetsSize, 0, false);
            Lands(d, e, tid, target, input, payload, nodeIndex) <==>
              && |ep.slots| != PACKET_LIMIT && RoundUp8(input.dataSize) + input.offsetsSize <= ep.size
              && (exists j: nat :: j <= |ep.slots|
                    && Gap(ep.slots, ep.base, ep.size, j) >= Extent(input.dataSize, input.offsetsSize, 0))
              && (nodeIndex < |d.nodes| && !d.nodes[nodeIndex].manager ==>
                    exists c :: 0 <= c < |d.claims| && d.claims[c].endpoint == 0)
              && place.Placed? && place.index < |place.slots|
              && AllSent(Prepare(d, target, place.slots[place.index], place.slots, nodeIndex).d, e, tid, target,
                   place.slots[place.index].address, payload.objects)
  {
    hide Laid, Reserve, Prepare, AllSent, Gap, Extent, RoundUp8;
  }

  lemma LandsChecked(d: Device, e: nat, tid: nat, target: nat, input: Packet, payload: Payload, nodeIndex: nat)
    requires target in d.endpoints && ArenasLaid(d.endpoints)
    ensures Lands(d, e, tid, target, input, payload, nodeIndex) ==> Checked(d.endpoints[target], input, payload)
    ensures Checked(d.endpoints[target], input, payload) ==>
              var ep := d.endpoints[target];
              && input.offsetsSize % 8 == 0 && input.dataSize <= ep.size && input.offsetsSize <= ep.size
              && payload.Objects? && Laid(ep.slots, ep.base, ep.size)
  {
    hide Laid, Reserve, Prepare, AllSent, Gap, Extent, RoundUp8;
  }

  /** A parcel is deposited exactly when it lands. */
  lemma LandsIs(d: Device, e: nat, tid: nat, target: nat, input: Packet, payload: Payload, nodeIndex: nat)
    requires Inv(d) && e in d.endpoints && target in d.endpoints && ArenasLaid(d.endpoints)
    requires nodeIndex < |d.nodes| ==> d.nodes[nodeIndex].id != 0 && d.nodes[nodeIndex].owner == target
    ensures Laid(d.endpoints[target].slots, d.endpoints[target].base, d.endpoints[target].size)
            || d.endpoints[target].watch != 3
    ensures ReservePayload(d, e, tid, target, input, payload, nodeIndex).Ready? <==>
              Lands(d, e, tid, target, input, payload, nodeIndex)
  {
    LifeParts(d, e, target);
    var ep := d.endpoints[target];
    assert Laid(ep.slots, ep.base, ep.size) || ep.watch != 3;
    hide *;
    ReserveShape(d, e, tid, target, input, payload, nodeIndex);
    LandsChecked(d, e, tid, target, input, payload, nodeIndex);
    if Checked(ep, input, payload) {
      LandsShape(d, e, tid, target, input, payload, nodeIndex);
      var place := Reserve(ep.slots, ep.base, ep.size, PACKET_LIMIT, input.dataSize, input.offsetsSize, 0, false);
      PlacedIs(ep, input.dataSize, input.offsetsSize);
      if place.Placed? {
        DepositIs(d, d.endpoints.Keys, e, tid, target, place.slots, place.slots[place.index], nodeIndex,
            payload.objects);
      }
    }
  }

  lemma LifeParts(d: Device, e: nat, target: nat)
    requires Inv(d) && e in d.endpoints && target in d.endpoints
    ensures LifeOk(d, d.endpoints.Keys) && e != 0 && target != 0
  {
    TargetKnown(d, e);
    TargetKnown(d, target);
    hide LifeOk, BuffersOk, CallsOk, AsyncOk;
  }

  // ---- which calls and replies are accepted ----

  /** Nothing is pending for the thread, and there is room for a completion and for the parcel. */
  predicate Ready(d: Device, th: Thread) {
    th.error == 0 && th.completions != PACKET_LIMIT && |d.work| != PACKET_LIMIT
  }

  /** A call is queued exactly when it is of a known kind, its caller is ready and may wait if it has to, the node it
      names
      can be reached, and its parcel lands there. */
  lemma CallAccepted(d: Device, e: nat, tid: nat, input: Packet, payload: Payload)
    requires Inv(d) && e in d.endpoints && (e, tid) in d.threads && ArenasLaid(d.endpoints)
    ensures CallCommand(d, e, tid, input, payload).0.work != d.work <==>
              && input.flags in {0, 1, 16, 17} && Ready(d, d.threads[(e, tid)])
              && (input.flags % 2 == 1 || CanWait(d, d.threads[(e, tid)]))
              && exists k: nat :: Reaches(d, e, input, k) && d.nodes[k].owner in d.endpoints
                                  && Lands(d, e, tid, d.nodes[k].owner, input, payload, k)
  {
    hide *;
    RouteIs(d, e, tid, input);
    CallShape(d, e, tid, input, payload);
    var route := RouteCall(d, e, tid, input);
    forall k: nat | Reaches(d, e, input, k) ensures k < |d.nodes| && d.nodes[k].owner in d.endpoints {
      ReachesParts(d, e, input, k);
    }
    if route.To? {
      ReachesParts(d, e, input, route.nodeIndex);
      LandsIs(d, e, tid, route.target, input, payload, route.nodeIndex);
    }
  }

  lemma ReachesParts(d: Device, e: nat, input: Packet, k: nat)
    requires e in d.endpoints && Reaches(d, e, input, k)
    ensures k < |d.nodes| && d.nodes[k].owner in d.endpoints && d.nodes[k].id != 0
  {
    hide Addresses;
  }

  lemma CallShape(d: Device, e: nat, tid: nat, input: Packet, payload: Payload)
    requires e in d.endpoints && (e, tid) in d.threads && ArenasLaid(d.endpoints)
    ensures var route := RouteCall(d, e, tid, input);
            CallCommand(d, e, tid, input, payload).0.work != d.work <==>
              && input.flags in {0, 1, 16, 17} && Ready(d, d.threads[(e, tid)]) && route.To?
              && ReservePayload(d, e, tid, route.target, input, payload, route.nodeIndex).Ready?
  {
    hide Laid, ReservePayload, RouteCall, Addressed;
    var route := RouteCall(d, e, tid, input);
    if route.Halt? {
      HaltKeepsWork(d, e, tid, input);
    } else {
      ReservePayloadKeeps(d, e, tid, route.target, input, payload, route.nodeIndex);
    }
  }

  /** A reply is queued exactly when it is of a known kind, its thread is ready and serves a call that still has its
      caller,
      and its parcel lands with the caller. */
  lemma ReplyAccepted(d: Device, e: nat, tid: nat, input: Packet, payload: Payload)
    requires Inv(d) && e in d.endpoints && (e, tid) in d.threads && ArenasLaid(d.endpoints)
    ensures ReplyCommand(d, e, tid, input, payload).0.work != d.work <==>
              && input.flags in {0, 16} && Ready(d, d.threads[(e, tid)]) && !d.threads[(e, tid)].deadReply
              && exists i :: 0 <= i < |d.transactions| && d.transactions[i].id == d.threads[(e, tid)].incoming != 0
                             && d.transactions[i].source in d.endpoints
                             && Lands(d, e, tid, d.transactions[i].source, input, payload, |d.nodes|)
  {
    var th := d.threads[(e, tid)];
    hide *;
    if th.incoming == 0 {
      IdleReply(d, e, tid, input, payload);
    } else {
      ServedCall(d, e, tid);
      var slot := FindTransaction(d.transactions, th.incoming);
      ReplyShape(d, e, tid, input, payload, slot);
      LandsIs(d, e, tid, d.transactions[slot].source, input, payload, |d.nodes|);
      OneTransaction(d, slot);
    }
  }

  lemma IdleReply(d: Device, e: nat, tid: nat, input: Packet, payload: Payload)
    requires e in d.endpoints && (e, tid) in d.threads && ArenasLaid(d.endpoints) && d.threads[(e, tid)].incoming == 0
    ensures ReplyCommand(d, e, tid, input, payload).0.work == d.work
  {
    hide Laid, ReservePayload;
  }

  lemma OneTransaction(d: Device, slot: nat)
    requires Inv(d) && slot < |d.transactions| && d.transactions[slot].id != 0
    ensures forall i {:trigger d.transactions[i]} ::
              0 <= i < |d.transactions| && d.transactions[i].id == d.transactions[slot].id ==> i == slot
  {
    CallParts(d);
    hide Inv;
  }

  lemma ReplyShape(d: Device, e: nat, tid: nat, input: Packet, payload: Payload, slot: nat)
    requires e in d.endpoints && (e, tid) in d.threads && ArenasLaid(d.endpoints)
    requires var th := d.threads[(e, tid)];
             && th.incoming != 0 && slot == FindTransaction(d.transactions, th.incoming) < |d.transactions|
             && th.outgoing == 0
    requires var t := d.transactions[slot];
             t.source in d.endpoints && (t.source, t.sourceTid) in d.threads
                 && d.threads[(t.source, t.sourceTid)].outgoing == t.id
    ensures d.transactions[slot].id == d.threads[(e, tid)].incoming
    ensures ReplyCommand(d, e, tid, input, payload).0.work != d.work <==>
              && input.flags in {0, 16} && Ready(d, d.threads[(e, tid)]) && !d.threads[(e, tid)].deadReply
              && ReservePayload(d, e, tid, d.transactions[slot].source, input, payload, |d.nodes|).Ready?
  {
    ReservePayloadKeeps(d, e, tid, d.transactions[slot].source, input, payload, |d.nodes|);
    hide Laid, ReservePayload, Addressed, FindTransaction;
  }
}
