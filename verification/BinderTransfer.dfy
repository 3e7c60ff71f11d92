/** Calls, replies and one-way parcels keep the device invariant; refused ones change nothing. */
module BinderTransfer {
  import opened Base
  import opened BinderArena
  import opened BinderWire
  import opened BinderState
  import opened BinderCommands
  import opened BinderLifetime
  import opened BinderParcels
  import opened BinderBuffers
  import opened BinderCalls
  import opened BinderOneWay
  import opened BinderDeaths
  import opened BinderInvariant
  import opened BinderLifecycle
  import opened BinderSteps

  // ---- a parcel placed for its receiver ----

  /** Everything that holds once a parcel has its buffer and claims and before it is queued. */
  ghost predicate Deposited(d: Device, d': Device, target: nat, b: nat, nodeIndex: nat) {
    && SameCalls(d, d') && ObjectsOk(d', d.endpoints.Keys) && d'.deaths == d.deaths
    && b != 0 && Added(d.endpoints, d'.endpoints, target, b) && EndpointsOk(d'.endpoints, d.nextToken)
    && NodesGrown(d.nodes, d'.nodes, d.nextNode) && ClaimsGrown(d.claims, d'.claims, target, b)
    && d.nextNode <= d'.nextNode
    && (target, b) in d'.parcels && d'.parcels == d.parcels[(target, b) := d'.parcels[(target, b)]]
    && Covered(d'.parcels[(target, b)], d'.claims, target, b)
    && (nodeIndex < |d.nodes| && !d.nodes[nodeIndex].manager ==>
          exists c :: 0 <= c < |d'.claims| && d'.claims[c] == Claim(target, b, d.nodes[nodeIndex].id, 0, false))
  }

  lemma GrownKeepsObjects(d: Device, d': Device, tokens: set<nat>, target: nat, b: nat)
    requires ObjectsOk(d, tokens) && Grown(d, d', target, b) && LifeOk(d', tokens)
             && NoGarbage(d'.nodes, d'.references, d'.claims)
    requires forall t :: t in tokens ==> t < d.nextToken
    requires d'.nextToken == d.nextToken
    requires target in tokens && d'.deaths == d.deaths && d'.nextSerial == d.nextSerial && d'.manager == d.manager
             && d'.managerNode == d.managerNode
    ensures ObjectsOk(d', tokens)
  {
    FreeReferencesEmpty(d.references, d.claims, d.nodes, 0);
    GrownOwners(d, d', tokens, target, b);
    hide LifeOk, NoGarbage, OwnersKnown;
    assert RefsHome(d'.references, tokens);
    assert forall i {:trigger d'.references[i]} :: 0 <= i < |d.references| && d.references[i].endpoint != 0 ==>
             d'.references[i].endpoint != 0;
    assert DeathsFollow(d.references, d'.references, d.deaths, d.deaths) by {
      hide SlotsOk, DeathsOk;
      forall k, i {:trigger WipedWith(d.references[i], d'.references[i], k)} | 0 <= k < |d.deaths|
          && 0 <= i < |d.references| ensures !WipedWith(d.references[i], d'.references[i], k) {}
    }
    DropKeepsDeaths(d.references, d'.references, d.deaths, d.deaths, tokens, d.nextSerial);
    if d.manager != 0 {
      var k :| 0 <= k < |d.nodes| && d.nodes[k].id == d.managerNode && d.nodes[k].owner == d.manager
          && d.nodes[k].manager && d.nodes[k].hasStrong;
      assert d'.nodes[k] == d.nodes[k];
    }
  }

  lemma GrownOwners(d: Device, d': Device, tokens: set<nat>, target: nat, b: nat)
    requires OwnersKnown(d.nodes, d.deaths, d.nextToken) && Grown(d, d', target, b) && LifeOk(d', tokens)
             && d'.deaths == d.deaths
    requires forall t :: t in tokens ==> t < d.nextToken
    ensures OwnersKnown(d'.nodes, d'.deaths, d.nextToken)
  {
    hide Linked;
    forall k | 0 <= k < |d'.nodes| ensures d'.nodes[k].owner < d.nextToken {
      assert NodeOk(d'.nodes[k], d'.nextNode, tokens);
      assert d'.nodes[k] == d.nodes[k] || NewNode(d'.nodes[k], d.nextNode);
    }
  }

  lemma PrepareNoGarbage(d: Device, target: nat, slot: Slot, slots: seq<Slot>, nodeIndex: nat)
    requires NoGarbage(d.nodes, d.references, d.claims) && target in d.endpoints
    requires Grown(d, Prepare(d, target, slot, slots, nodeIndex).d, target, slot.address)
    requires Prepare(d, target, slot, slots, nodeIndex).d.nodes == d.nodes
    ensures var r := Prepare(d, target, slot, slots, nodeIndex).d; NoGarbage(r.nodes, r.references, r.claims)
  {
    var r := Prepare(d, target, slot, slots, nodeIndex).d;
    hide Prepare;
    forall i | 0 <= i < |r.nodes| ensures !Garbage(r.references, r.claims, r.nodes[i]) {
      assert !Garbage(d.references, d.claims, d.nodes[i]);
      if d.nodes[i].id != 0 {
        UseGrown(d.references, d.claims, r.references, r.claims, target, slot.address, d.nodes[i]);
      }
    }
  }

  lemma DepositReady(d: Device, e: nat, tid: nat, target: nat, slots: seq<Slot>, k: nat, nodeIndex: nat,
      objects: seq<Flat>)
    requires Depositable(d, d.endpoints.Keys, e, target, slots, k, nodeIndex) && ObjectsOk(d, d.endpoints.Keys)
    requires Added(d.endpoints, d.endpoints[target := d.endpoints[target].(slots := slots)], target, slots[k].address)
    requires EndpointsOk(d.endpoints[target := d.endpoints[target].(slots := slots)], d.nextToken)
    requires forall t :: t in d.endpoints ==> t < d.nextToken
    requires Deposit(d, e, tid, target, slots, slots[k], nodeIndex, objects).Ready?
    ensures var r := Deposit(d, e, tid, target, slots, slots[k], nodeIndex, objects);
            Deposited(d, r.d, target, slots[k].address, nodeIndex) && r.slot == slots[k]
  {
    var slot, tokens := slots[k], d.endpoints.Keys;
    var b := slot.address;
    DepositableParts(d, tokens, e, target, slots, k, nodeIndex);
    hide *;
    DepositIs(d, e, tid, target, slots, slot, nodeIndex, objects);
    var ready := Prepare(d, target, slot, slots, nodeIndex);
    var sent := Translate(ready.d, e, tid, target, b, objects);
    var r := Deposit(d, e, tid, target, slots, slot, nodeIndex, objects).d;
    PrepareLife(d, tokens, target, slot, slots, nodeIndex);
    PrepareNoGarbage(d, target, slot, slots, nodeIndex);
    TranslateLife(ready.d, tokens, e, tid, target, b, objects);
    TranslateKeeps(ready.d, e, tid, target, b, objects);
    DepositKeeps(d, e, tid, target, slots, slot, nodeIndex, objects);
    DepositClaims(d, ready.d, sent.d, target, b, nodeIndex);
    DepositFinish(d, sent.d, r, target, b, sent.objects);
    DepositedJoin(d, r, target, b, nodeIndex);
  }

  lemma DepositableParts(d: Device, tokens: set<nat>, e: nat, target: nat, slots: seq<Slot>, k: nat, nodeIndex: nat)
    requires Depositable(d, tokens, e, target, slots, k, nodeIndex)
    ensures LifeOk(d, tokens) && NoGarbage(d.nodes, d.references, d.claims) && e in tokens && e != 0
    ensures target in d.endpoints && target in tokens && target != 0 && k < |slots| && slots[k].address != 0
    ensures nodeIndex < |d.nodes| ==> d.nodes[nodeIndex].id != 0 && d.nodes[nodeIndex].owner == target
  {
    hide LifeOk, NoGarbage, Distinct, Unclaimed;
  }

  lemma DepositIs(d: Device, e: nat, tid: nat, target: nat, slots: seq<Slot>, slot: Slot, nodeIndex: nat,
      objects: seq<Flat>)
    requires target in d.endpoints && Deposit(d, e, tid, target, slots, slot, nodeIndex, objects).Ready?
    ensures var ready := Prepare(d, target, slot, slots, nodeIndex);
            var sent := Translate(ready.d, e, tid, target, slot.address, objects);
            var r := Deposit(d, e, tid, target, slots, slot, nodeIndex, objects);
            && ready.Translated? && sent.Translated? && r.slot == slot
            && r.d == sent.d.(parcels := sent.d.parcels[(target, slot.address) := sent.objects])
  {
    hide Prepare, Translate, Rollback;
  }

  lemma DepositedJoin(d: Device, d': Device, target: nat, b: nat, nodeIndex: nat)
    requires SameCalls(d, d') && ObjectsOk(d', d.endpoints.Keys) && d'.deaths == d.deaths
    requires b != 0 && Added(d.endpoints, d'.endpoints, target, b) && EndpointsOk(d'.endpoints, d.nextToken)
    requires NodesGrown(d.nodes, d'.nodes, d.nextNode) && ClaimsGrown(d.claims, d'.claims, target, b)
             && d.nextNode <= d'.nextNode
    requires (target, b) in d'.parcels && d'.parcels == d.parcels[(target, b) := d'.parcels[(target, b)]]
    requires Covered(d'.parcels[(target, b)], d'.claims, target, b)
    requires nodeIndex < |d.nodes| && !d.nodes[nodeIndex].manager ==>
               exists c :: 0 <= c < |d'.claims| && d'.claims[c] == Claim(target, b, d.nodes[nodeIndex].id, 0, false)
    ensures Deposited(d, d', target, b, nodeIndex)
  {
    hide SameCalls, ObjectsOk, Added, EndpointsOk, NodesGrown, ClaimsGrown, Covered;
  }

  lemma DepositClaims(d: Device, ready: Device, sent: Device, target: nat, b: nat, nodeIndex: nat)
    requires Grown(d, ready, target, b) && Grown(ready, sent, target, b)
    requires nodeIndex < |d.nodes| && !d.nodes[nodeIndex].manager ==>
               exists c :: 0 <= c < |ready.claims|
                   && ready.claims[c] == Claim(target, b, d.nodes[nodeIndex].id, 0, false)
    requires target != 0
    ensures Grown(d, sent, target, b)
    ensures NodesGrown(d.nodes, sent.nodes, d.nextNode) && ClaimsGrown(d.claims, sent.claims, target, b)
            && d.nextNode <= sent.nextNode
    ensures nodeIndex < |d.nodes| && !d.nodes[nodeIndex].manager ==>
              exists c :: 0 <= c < |sent.claims| && sent.claims[c] == Claim(target, b, d.nodes[nodeIndex].id, 0, false)
  {
    GrownTransitive(d, ready, sent, target, b);
    if nodeIndex < |d.nodes| && !d.nodes[nodeIndex].manager {
      var c :| 0 <= c < |ready.claims| && ready.claims[c] == Claim(target, b, d.nodes[nodeIndex].id, 0, false);
      assert sent.claims[c] == ready.claims[c];
    }
  }

  lemma DepositFinish(d: Device, sent: Device, r: Device, target: nat, b: nat, objects: seq<Flat>)
    requires ObjectsOk(d, d.endpoints.Keys) && Grown(d, sent, target, b) && LifeOk(sent, d.endpoints.Keys)
    requires forall t :: t in d.endpoints ==> t < d.nextToken
    requires NoGarbage(sent.nodes, sent.references, sent.claims) && target in d.endpoints && SameCalls(d, r)
             && sent.deaths == d.deaths
    requires r == sent.(parcels := sent.parcels[(target, b) := objects])
    ensures ObjectsOk(r, d.endpoints.Keys)
  {
    hide Grown, LifeOk, NoGarbage;
    GrownKeepsObjects(d, sent, d.endpoints.Keys, target, b);
    SameObjects(sent, r, d.endpoints.Keys);
  }

  /** `reserve_payload`: an accepted parcel is fully claimed, a refused one leaves every table as it was. */
  lemma ReservePayloadEffect(d: Device, e: nat, tid: nat, target: nat, input: Packet, payload: Payload, nodeIndex: nat)
    requires Inv(d) && e in d.endpoints && target in d.endpoints
    requires Laid(d.endpoints[target].slots, d.endpoints[target].base, d.endpoints[target].size)
             || d.endpoints[target].watch != 3
    requires d.endpoints[target].watch == 3 ==> d.endpoints[target].mappedOnce
    requires nodeIndex < |d.nodes| ==> d.nodes[nodeIndex].id != 0 && d.nodes[nodeIndex].owner == target
    ensures var r := ReservePayload(d, e, tid, target, input, payload, nodeIndex);
            && (r.Refused? ==> r.d == d.(nextNode := r.d.nextNode) && d.nextNode <= r.d.nextNode)
            && (r.Ready? ==> Deposited(d, r.d, target, r.slot.address, nodeIndex))
  {
    var r := ReservePayload(d, e, tid, target, input, payload, nodeIndex);
    if !(r.Refused? && r.d == d) {
      var ep := d.endpoints[target];
      var place := Reserve(ep.slots, ep.base, ep.size, PACKET_LIMIT, input.dataSize, input.offsetsSize, 0, false);
      assert place.Placed? && r == Deposit(d, e, tid, target, place.slots, place.slots[place.index], nodeIndex,
             payload.objects);
      hide ReservePayload, Deposit, Inv, Reserve, Laid;
      PlaceIsDepositable(d, e, target, input.dataSize, input.offsetsSize, nodeIndex);
      hide Depositable, Added, EndpointsOk, ObjectsOk, Deposited;
      if r.Refused? {
        RefusedDepositRollsBack(d, d.endpoints.Keys, e, tid, target, place.slots, place.index, nodeIndex,
            payload.objects);
      } else {
        DepositReady(d, e, tid, target, place.slots, place.index, nodeIndex, payload.objects);
      }
    }
  }

  lemma PlaceIsDepositable(d: Device, e: nat, target: nat, dataSize: nat, offsetsSize: nat, nodeIndex: nat)
    requires Inv(d) && e in d.endpoints && target in d.endpoints && d.endpoints[target].watch == 3
             && d.endpoints[target].mappedOnce
    requires Laid(d.endpoints[target].slots, d.endpoints[target].base, d.endpoints[target].size)
    requires nodeIndex < |d.nodes| ==> d.nodes[nodeIndex].id != 0 && d.nodes[nodeIndex].owner == target
    requires Reserve(d.endpoints[target].slots, d.endpoints[target].base, d.endpoints[target].size, PACKET_LIMIT,
             dataSize, offsetsSize, 0, false).Placed?
    ensures var place := Reserve(d.endpoints[target].slots, d.endpoints[target].base, d.endpoints[target].size,
            PACKET_LIMIT, dataSize, offsetsSize, 0, false);
            && Depositable(d, d.endpoints.Keys, e, target, place.slots, place.index, nodeIndex)
            && ObjectsOk(d, d.endpoints.Keys)
            && Added(d.endpoints, d.endpoints[target := d.endpoints[target].(slots := place.slots)], target,
               place.slots[place.index].address)
            && EndpointsOk(d.endpoints[target := d.endpoints[target].(slots := place.slots)], d.nextToken)
            && (forall t :: t in d.endpoints ==> t < d.nextToken)
  {
    var ep := d.endpoints[target];
    var place := Reserve(ep.slots, ep.base, ep.size, PACKET_LIMIT, dataSize, offsetsSize, 0, false);
    hide Reserve, Laid;
    AddBuffer(d.endpoints, d.nextToken, target, PACKET_LIMIT, dataSize, offsetsSize);
    FreshBuffer(d.endpoints, d.nextToken, d.work, d.claims, d.parcels, target, place.slots[place.index].address);
    hide CallsOk, AsyncOk, WorkHeld, ClaimsHeld, ParcelsHeld, Unclaimed, Distinct, LifeOk, NoGarbage;
  }

  // ---- queueing it ----

  lemma CounterInv(d: Device, next: nat)
    requires Inv(d) && d.nextNode <= next
    ensures Inv(d.(nextNode := next))
  {
    hide BuffersOk, CallsOk, AsyncOk, NoGarbage, SlotsOk, DeathsOk, ManagerOk, Linked;
    forall i | 0 <= i < |d.nodes|
      ensures NodeOk(d.nodes[i], next, d.endpoints.Keys)
    {
      assert NodeOk(d.nodes[i], d.nextNode, d.endpoints.Keys);
    }
  }

  lemma SetErrorInv(d: Device, e: nat, tid: nat, word: nat)
    requires Inv(d) && (e, tid) in d.threads && word in {BR_DEAD_REPLY, BR_FAILED_REPLY}
    ensures Inv(SetError(d, e, tid, word))
  {
    hide Inv;
    ThreadFieldInv(d, (e, tid), d.threads[(e, tid)].(error := word));
  }

  lemma RefuseInv(d: Device, d': Device, e: nat, tid: nat, errno: int)
    requires Inv(d) && d' == d.(nextNode := d'.nextNode) && d.nextNode <= d'.nextNode && (e, tid) in d.threads
    ensures Inv(Refuse(d', e, tid, errno).0) && !Refuse(d', e, tid, errno).1.Broken?
  {
    hide Inv;
    CounterInv(d, d'.nextNode);
    SetErrorInv(d', e, tid, BR_FAILED_REPLY);
  }

  /** The tables of a deposited parcel, with its queue entry and the sender's new thread state. */
  lemma QueueInv(d: Device, d': Device, target: nat, b: nat, nodeIndex: nat, r: Device, w: Work)
    requires Inv(d) && Deposited(d, d', target, b, nodeIndex) && target in d.endpoints
    requires w.endpoint == target && w.value.dataBuffer == b
    requires r == d'.(threads := r.threads, transactions := r.transactions, nextTransaction := r.nextTransaction,
             nodes := r.nodes, work := d.work + [w])
    requires OnlyRouting(d'.nodes, r.nodes)
    requires CallsOk(r.threads, r.transactions, r.work, d.endpoints.Keys, r.nextTransaction, 0) && ErrorsOk(r.threads)
    requires AsyncOk(r.nodes, r.work, r.claims, r.endpoints, 0)
    ensures Inv(r)
  {
    assert r.endpoints.Keys == d.endpoints.Keys;
    AddKeepsBuffers(d.endpoints, d.nextToken, d.work, d.claims, d.parcels, d'.endpoints, d'.claims, target, b,
        d'.parcels[(target, b)], w);
    RoutingKeepsObjects(d', r.nodes, d.endpoints.Keys);
    hide AsyncOk, CallsOk, BuffersOk, ObjectsOk, OnlyRouting, Inv;
    SameObjects(d'.(nodes := r.nodes), r, d.endpoints.Keys);
    assert InvDuring(r, 0, 0);
    RevealInv(r);
  }

  lemma RevealInv(d: Device)
    requires InvDuring(d, 0, 0)
    ensures Inv(d)
  {
  }

  lemma DepositedAsync(d: Device, d': Device, target: nat, b: nat, nodeIndex: nat)
    requires Inv(d) && Deposited(d, d', target, b, nodeIndex)
    ensures AsyncOk(d'.nodes, d.work, d'.claims, d'.endpoints, 0)
    ensures forall j {:trigger d.work[j]} :: 0 <= j < |d.work| ==> d.work[j].endpoint != 0
  {
    NodeParts(d);
    WorkEndpoints(d.endpoints, d.nextToken, d.work);
    GrowKeepsAsync(d.nodes, d'.nodes, d.nextNode, d.work, d.claims, d'.claims, d.endpoints, d'.endpoints, target, b);
  }

  lemma CallParts(d: Device)
    requires Inv(d)
    ensures CallsOk(d.threads, d.transactions, d.work, d.endpoints.Keys, d.nextTransaction, 0) && ErrorsOk(d.threads)
  {
  }

  lemma DepositedCalls(d: Device, d': Device, target: nat, b: nat, nodeIndex: nat)
    requires Deposited(d, d', target, b, nodeIndex)
    ensures d'.threads == d.threads && d'.transactions == d.transactions && d'.work == d.work
            && d'.nextTransaction == d.nextTransaction
    ensures |d'.nodes| == |d.nodes|
    ensures forall i {:trigger d'.nodes[i]} :: 0 <= i < |d.nodes| && d.nodes[i].id != 0 ==> d'.nodes[i] == d.nodes[i]
  {
  }

  lemma AcceptCallFields(d: Device, e: nat, tid: nat, target: nat, slot: nat, value: Packet)
    requires (e, tid) in d.threads && slot < |d.transactions|
    ensures var r := AcceptCall(d, e, tid, target, slot, value);
            var id := d.nextTransaction;
            && r.threads == d.threads[(e, tid) :=
                 d.threads[(e, tid)].(outgoing := id, completions := d.threads[(e, tid)].completions + 1)]
            && r.transactions == d.transactions[slot := Transaction(id, e, target, tid, 0)]
            && r.nextTransaction == id + 1
            && r.work == d.work + [Work(target, 0, BR_TRANSACTION, id, 0, value)]
            && r == d.(threads := r.threads, transactions := r.transactions, nextTransaction := r.nextTransaction,
               nodes := r.nodes, work := r.work)
            && OnlyRouting(d.nodes, r.nodes) && r.nodes == d.nodes
  {
  }

  lemma AcceptOneWayFields(d: Device, e: nat, tid: nat, target: nat, nodeIndex: nat, value: Packet)
    requires (e, tid) in d.threads && nodeIndex < |d.nodes| && d.nodes[nodeIndex].id != 0
    ensures var r := AcceptOneWay(d, e, tid, target, nodeIndex, value);
            var node := d.nodes[nodeIndex];
            && r.threads == Bump(d.threads, (e, tid))
            && r.transactions == d.transactions && r.nextTransaction == d.nextTransaction
            && r.work == d.work + [Work(target, 0, BR_TRANSACTION, 0, node.id, value)]
            && r == d.(threads := r.threads, transactions := r.transactions, nextTransaction := r.nextTransaction,
               nodes := r.nodes, work := r.work)
            && OnlyRouting(d.nodes, r.nodes)
            && r.nodes == d.nodes[nodeIndex := if node.asyncBuffer == 0 then node.(asyncBuffer := value.dataBuffer)
               else node]
  {
  }

  lemma AcceptReplyFields(d: Device, e: nat, tid: nat, slot: nat, value: Packet)
    requires (e, tid) in d.threads && slot < |d.transactions|
    requires (d.transactions[slot].source, d.transactions[slot].sourceTid) in d.threads
    ensures var r := AcceptReply(d, e, tid, slot, value);
            var t := d.transactions[slot];
            && r.threads.Keys == d.threads.Keys
            && (forall q {:trigger r.threads[q]} :: q in d.threads ==>
                  && r.threads[q].incoming == (if q == (e, tid) then 0 else d.threads[q].incoming)
                  && r.threads[q].outgoing == (if q == (t.source, t.sourceTid) then 0 else d.threads[q].outgoing)
                  && r.threads[q].error == d.threads[q].error)
            && r.transactions == d.transactions[slot := t.(id := 0)] && r.nextTransaction == d.nextTransaction
            && r.work == d.work + [Work(t.source, t.sourceTid, BR_REPLY, 0, 0, value)]
            && r == d.(threads := r.threads, transactions := r.transactions, nextTransaction := r.nextTransaction,
               nodes := r.nodes, work := r.work)
            && OnlyRouting(d.nodes, r.nodes) && r.nodes == d.nodes
  {
  }

  lemma AcceptCallInv(d: Device, d': Device, e: nat, tid: nat, target: nat, nodeIndex: nat, slot: nat, value: Packet)
    requires Inv(d) && Deposited(d, d', target, value.dataBuffer, nodeIndex) && target in d.endpoints && target != e
    requires (e, tid) in d.threads && d.threads[(e, tid)].incoming == 0 && d.threads[(e, tid)].outgoing == 0
    requires slot < |d.transactions| && d.transactions[slot].id == 0
    ensures (e, tid) in d'.threads && slot < |d'.transactions| && Inv(AcceptCall(d', e, tid, target, slot, value))
  {
    hide *;
    DepositedCalls(d, d', target, value.dataBuffer, nodeIndex);
    DepositedAsync(d, d', target, value.dataBuffer, nodeIndex);
    AcceptCallFields(d', e, tid, target, slot, value);
    var r := AcceptCall(d', e, tid, target, slot, value);
    var w := Work(target, 0, BR_TRANSACTION, d.nextTransaction, 0, value);
    StartedCalls(d, (e, tid), slot, target, r.threads, r.transactions, r.nextTransaction, w);
    AppendKeepsAsync(d'.nodes, d.work, d'.claims, d'.endpoints, w);
    QueueInv(d, d', target, value.dataBuffer, nodeIndex, r, w);
  }

  lemma StartedCalls(d: Device, k: (nat, nat), slot: nat, target: nat, threads: Threads, ts: seq<Transaction>,
      next: nat, w: Work)
    requires Inv(d) && k in d.threads && d.threads[k].incoming == 0 && d.threads[k].outgoing == 0
             && target in d.endpoints && target != k.0
    requires slot < |d.transactions| && d.transactions[slot].id == 0 && next == d.nextTransaction + 1
    requires w == Work(target, 0, BR_TRANSACTION, d.nextTransaction, 0, w.value)
    requires threads == d.threads[k := d.threads[k].(outgoing := d.nextTransaction,
             completions := d.threads[k].completions + 1)]
    requires ts == d.transactions[slot := Transaction(d.nextTransaction, k.0, target, k.1, 0)]
    ensures CallsOk(threads, ts, d.work + [w], d.endpoints.Keys, next, 0) && ErrorsOk(threads)
  {
    CallParts(d);
    hide Inv;
    var th := threads[k];
    assert ErrorsOk(threads) by { hide CallsOk; }
    hide CallsOk, ErrorsOk;
    StartKeepsCalls(d.threads, d.transactions, d.work, d.endpoints.Keys, d.nextTransaction, k, slot, target, th, w);
  }

  lemma OneWayTarget(d: Device, d': Device, target: nat, nodeIndex: nat, w: Work)
    requires Inv(d) && Deposited(d, d', target, w.value.dataBuffer, nodeIndex) && target in d.endpoints
    requires nodeIndex < |d.nodes| && d.nodes[nodeIndex].id != 0 && d.nodes[nodeIndex].owner == target
             && !d.nodes[nodeIndex].dead
    requires w.endpoint == target && w.asyncNode == d.nodes[nodeIndex].id
    ensures nodeIndex < |d'.nodes| && KeptFor(d'.nodes[nodeIndex], d'.claims, w)
            && Holds(d'.endpoints, target, w.value.dataBuffer, false)
    ensures w.value.dataBuffer != 0 && target != 0 && target in d'.endpoints
  {
    hide CallsOk, AsyncOk, BuffersOk, Linked, Covered;
    assert NodeOk(d.nodes[nodeIndex], d.nextNode, d.endpoints.Keys);
    TargetKnown(d, target);
    assert d'.nodes[nodeIndex] == d.nodes[nodeIndex];
  }

  lemma OneWayAsync(d: Device, d': Device, target: nat, nodeIndex: nat, w: Work, nodes: seq<Node>)
    requires Inv(d) && Deposited(d, d', target, w.value.dataBuffer, nodeIndex) && target in d.endpoints
    requires nodeIndex < |d.nodes| == |d'.nodes| && d.nodes[nodeIndex].id != 0 && d.nodes[nodeIndex].owner == target
             && !d.nodes[nodeIndex].dead
    requires d'.nodes[nodeIndex] == d.nodes[nodeIndex]
    requires w == Work(target, 0, BR_TRANSACTION, 0, d.nodes[nodeIndex].id, w.value)
    requires var node := d'.nodes[nodeIndex];
             nodes == d'.nodes[nodeIndex := if node.asyncBuffer == 0 then node.(asyncBuffer := w.value.dataBuffer)
                 else node]
    ensures AsyncOk(nodes, d.work + [w], d'.claims, d'.endpoints, 0)
  {
    hide *;
    DepositedAsync(d, d', target, w.value.dataBuffer, nodeIndex);
    OneWayTarget(d, d', target, nodeIndex, w);
    NoStaleCurrent(d, d', target, w.value.dataBuffer, nodeIndex);
    UniqueGrown(d, d', target, w.value.dataBuffer, nodeIndex);
    AcceptKeepsAsync(d'.nodes, d.work, d'.claims, d'.endpoints, nodeIndex, w, nodes[nodeIndex]);
  }

  lemma OneWayCalls(d: Device, k: (nat, nat), w: Work)
    requires Inv(d) && k in d.threads && w.transaction == 0 && w.endpoint in d.endpoints
    ensures var threads := Bump(d.threads, k);
            CallsOk(threads, d.transactions, d.work + [w], d.endpoints.Keys, d.nextTransaction, 0) && ErrorsOk(threads)
  {
    CallParts(d);
    var th := d.threads[k].(completions := d.threads[k].completions + 1);
    var threads := Bump(d.threads, k);
    assert threads == d.threads[k := th];
    assert th.error in {0, BR_DEAD_REPLY, BR_FAILED_REPLY};
    hide Inv, CallsOk, Bump, ErrorsOk;
    ThreadFieldInv(d, k, th);
    CallParts(d.(threads := threads));
    AppendKeepsCalls(threads, d.transactions, d.work, d.endpoints.Keys, d.nextTransaction, w);
  }

  lemma AcceptOneWayInv(d: Device, d': Device, e: nat, tid: nat, target: nat, nodeIndex: nat, value: Packet)
    requires Inv(d) && Deposited(d, d', target, value.dataBuffer, nodeIndex) && target in d.endpoints
    requires (e, tid) in d.threads && nodeIndex < |d.nodes| && d.nodes[nodeIndex].id != 0
             && d.nodes[nodeIndex].owner == target && !d.nodes[nodeIndex].dead
    ensures (e, tid) in d'.threads && nodeIndex < |d'.nodes| && Inv(AcceptOneWay(d', e, tid, target, nodeIndex, value))
  {
    DepositedCalls(d, d', target, value.dataBuffer, nodeIndex);
    AcceptOneWayFields(d', e, tid, target, nodeIndex, value);
    hide CallsOk, Inv, AsyncOk, Deposited, AcceptOneWay, OnlyRouting, Bump;
    var r := AcceptOneWay(d', e, tid, target, nodeIndex, value);
    var w := Work(target, 0, BR_TRANSACTION, 0, d.nodes[nodeIndex].id, value);
    assert d'.nodes[nodeIndex] == d.nodes[nodeIndex];
    assert r.work == d.work + [w];
    OneWayAsync(d, d', target, nodeIndex, w, r.nodes);
    OneWayCalls(d, (e, tid), w);
    QueueInv(d, d', target, value.dataBuffer, nodeIndex, r, w);
  }

  lemma UniqueGrown(d: Device, d': Device, target: nat, b: nat, nodeIndex: nat)
    requires Inv(d) && Deposited(d, d', target, b, nodeIndex)
    ensures forall i, k {:trigger d'.nodes[i], d'.nodes[k]} ::
              0 <= i < |d'.nodes| && 0 <= k < |d'.nodes| && i != k && d'.nodes[i].id != 0 ==>
                d'.nodes[i].id != d'.nodes[k].id
  {
    hide Inv, Linked;
    assert NodesOk(d'.nodes, d'.nextNode, d.endpoints.Keys);
  }

  /** No node already counts on a buffer that was free until now. */
  lemma NoStaleCurrent(d: Device, d': Device, target: nat, b: nat, nodeIndex: nat)
    requires Inv(d) && Deposited(d, d', target, b, nodeIndex) && target in d.endpoints
    ensures forall i {:trigger d'.nodes[i]} :: 0 <= i < |d'.nodes| && d'.nodes[i].owner == target ==>
              d'.nodes[i].asyncBuffer != b
  {
    hide CallsOk, BuffersOk, Covered;
    forall i | 0 <= i < |d'.nodes| && d'.nodes[i].owner == target ensures d'.nodes[i].asyncBuffer != b {
      if d'.nodes[i] == d.nodes[i] {
        assert NodeOk(d.nodes[i], d.nextNode, d.endpoints.Keys);
        assert d.nodes[i].asyncBuffer != 0 && d.nodes[i].id != 0 && target != 0 ==>
                 CurrentOk(d.nodes[i], d.work, d.endpoints);
        assert target != 0 by { TargetKnown(d, target); }
      }
    }
  }

  lemma TargetKnown(d: Device, target: nat)
    requires Inv(d) && target in d.endpoints
    ensures target != 0
  {
  }

  lemma AcceptReplyInv(d: Device, d': Device, e: nat, tid: nat, slot: nat, value: Packet)
    requires Inv(d) && (e, tid) in d.threads && d.threads[(e, tid)].incoming != 0
    requires slot < |d.transactions| && d.transactions[slot].id == d.threads[(e, tid)].incoming
    requires (d.transactions[slot].source, d.transactions[slot].sourceTid) in d.threads
             && d.transactions[slot].source in d.endpoints
    requires Deposited(d, d', d.transactions[slot].source, value.dataBuffer, |d.nodes|)
    ensures (e, tid) in d'.threads && slot < |d'.transactions| && d'.transactions == d.transactions
            && d'.threads == d.threads
    ensures Inv(AcceptReply(d', e, tid, slot, value))
  {
    var t := d.transactions[slot];
    DepositedCalls(d, d', t.source, value.dataBuffer, |d.nodes|);
    DepositedAsync(d, d', t.source, value.dataBuffer, |d.nodes|);
    CallParts(d);
    AcceptReplyFields(d', e, tid, slot, value);
    hide CallsOk, Inv, AsyncOk, Deposited, AcceptReply, OnlyRouting;
    var r := AcceptReply(d', e, tid, slot, value);
    var w := Work(t.source, t.sourceTid, BR_REPLY, 0, 0, value);
    assert ErrorsOk(r.threads);
    AnswerKeepsCalls(d.threads, d.transactions, d.work, d.endpoints.Keys, d.nextTransaction, (e, tid), slot, r.threads);
    AppendKeepsCalls(r.threads, r.transactions, d.work, d.endpoints.Keys, d.nextTransaction, w);
    AppendKeepsAsync(d'.nodes, d.work, d'.claims, d'.endpoints, w);
    QueueInv(d, d', t.source, value.dataBuffer, |d.nodes|, r, w);
  }

  // ---- the two transfer commands ----

  lemma ReceiverParts(d: Device, target: nat)
    requires Inv(d) && target in d.endpoints
    ensures ArenasLaid(d.endpoints) && (d.endpoints[target].watch == 3 ==> d.endpoints[target].mappedOnce)
  {
    hide ObjectsOk, CallsOk, AsyncOk, Laid;
    forall e | e in d.endpoints ensures EndpointOk(d.endpoints[e]) {}
  }

  lemma RouteHaltInv(d: Device, e: nat, tid: nat, input: Packet)
    requires Inv(d) && (e, tid) in d.threads && e in d.endpoints
    ensures var r := RouteCall(d, e, tid, input); r.Halt? ==> Inv(r.d) && !r.status.Broken?
  {
    hide Inv;
    SetErrorInv(d, e, tid, BR_FAILED_REPLY);
    SetErrorInv(d, e, tid, BR_DEAD_REPLY);
  }

  /** What carries the caller's words to the receiver. */
  function Forwarded(d: Device, e: nat, input: Packet, nodeIndex: nat, slot: Slot): Packet
    requires e in d.endpoints && nodeIndex < |d.nodes|
  {
    var node, sender := d.nodes[nodeIndex], d.endpoints[e];
    Addressed(input, node.pointer, node.cookie, if input.flags % 2 == 1 then 0 else sender.pid, sender.uid, slot)
  }

  /** A call is refused outright, goes nowhere, or is carried to the node it names. */
  lemma CallCommandIs(d: Device, e: nat, tid: nat, input: Packet, payload: Payload)
    requires (e, tid) in d.threads && e in d.endpoints && ArenasLaid(d.endpoints)
    ensures var route, r := RouteCall(d, e, tid, input), CallCommand(d, e, tid, input, payload);
            || (r.0 == d && !r.1.Broken?)
            || (route.Halt? && r == (route.d, route.status))
            || (route.To?
                && var ready := ReservePayload(d, e, tid, route.target, input, payload, route.nodeIndex);
                && ready.d.threads == d.threads && ready.d.work == d.work && |ready.d.nodes| == |d.nodes|
                && ready.d.transactions == d.transactions
                && if ready.Refused? then r == Refuse(ready.d, e, tid, ready.errno)
                   else
                     var value := Forwarded(d, e, input, route.nodeIndex, ready.slot);
                     r == (if input.flags % 2 == 1
                         then AcceptOneWay(ready.d, e, tid, route.target, route.nodeIndex, value)
                           else AcceptCall(ready.d, e, tid, route.target, route.slot, value), Done))
  {
    hide Laid, RouteCall, Admissible;
    var route := RouteCall(d, e, tid, input);
    if route.To? { ReservePayloadKeeps(d, e, tid, route.target, input, payload, route.nodeIndex); }
    hide ReservePayload, Refuse, AcceptOneWay, AcceptCall, Addressed;
  }

  lemma CallOutcome(d: Device, e: nat, tid: nat, input: Packet, payload: Payload)
    requires Inv(d) && (e, tid) in d.threads && e in d.endpoints && ArenasLaid(d.endpoints)
             && RouteCall(d, e, tid, input).To?
    ensures var route := RouteCall(d, e, tid, input);
            var ready := ReservePayload(d, e, tid, route.target, input, payload, route.nodeIndex);
            && ready.d.threads == d.threads && |ready.d.nodes| == |d.nodes| && ready.d.transactions == d.transactions
            && (ready.Refused? ==>
                 Inv(Refuse(ready.d, e, tid, ready.errno).0) && !Refuse(ready.d, e, tid, ready.errno).1.Broken?)
            && (ready.Ready? ==>
                  var value := Forwarded(d, e, input, route.nodeIndex, ready.slot);
                  if input.flags % 2 == 1 then Inv(AcceptOneWay(ready.d, e, tid, route.target, route.nodeIndex, value))
                  else Inv(AcceptCall(ready.d, e, tid, route.target, route.slot, value)))
  {
    var route := RouteCall(d, e, tid, input);
    hide RouteCall, Inv, Laid;
    ReceiverParts(d, route.target);
    ReservePayloadKeeps(d, e, tid, route.target, input, payload, route.nodeIndex);
    var ready := ReservePayload(d, e, tid, route.target, input, payload, route.nodeIndex);
    ReservePayloadEffect(d, e, tid, route.target, input, payload, route.nodeIndex);
    hide ReservePayload, Deposited, AcceptCall, AcceptOneWay, Refuse;
    if ready.Refused? {
      RefuseInv(d, ready.d, e, tid, ready.errno);
    } else if input.flags % 2 == 1 {
      AcceptOneWayInv(d, ready.d, e, tid, route.target, route.nodeIndex,
          Forwarded(d, e, input, route.nodeIndex, ready.slot));
    } else {
      AcceptCallInv(d, ready.d, e, tid, route.target, route.nodeIndex, route.slot,
          Forwarded(d, e, input, route.nodeIndex, ready.slot));
    }
  }

  /** A call that goes nowhere, or the device with its parcel placed and what is queued for it. */
  datatype Carried =
    | Uncarried
    | OneWay(mid: Device, target: nat, nodeIndex: nat, value: Packet)
    | TwoWay(mid: Device, target: nat, nodeIndex: nat, slot: nat, value: Packet)

  /** Everything a call can do: report an error to its thread, or place a parcel and queue it. */
  lemma CallCases(d: Device, e: nat, tid: nat, input: Packet, payload: Payload) returns (c: Carried)
    requires Inv(d) && (e, tid) in d.threads && e in d.endpoints && ArenasLaid(d.endpoints)
    ensures var r := CallCommand(d, e, tid, input, payload).0;
            && (c.Uncarried? ==> r == d.(threads := r.threads, nextNode := r.nextNode) && d.nextNode <= r.nextNode)
            && (!c.Uncarried? ==>
                  && c.target in d.endpoints && Deposited(d, c.mid, c.target, c.value.dataBuffer, c.nodeIndex)
                  && c.mid.threads == d.threads && c.mid.work == d.work && c.mid.transactions == d.transactions
                  && c.nodeIndex < |d.nodes| == |c.mid.nodes| && c.mid.nodes[c.nodeIndex] == d.nodes[c.nodeIndex]
                  && d.nodes[c.nodeIndex].id != 0 && !d.nodes[c.nodeIndex].dead
                  && d.nodes[c.nodeIndex].owner == c.target)
            && (c.OneWay? ==> r == AcceptOneWay(c.mid, e, tid, c.target, c.nodeIndex, c.value))
            && (c.TwoWay? ==> c.slot < |d.transactions| && r == AcceptCall(c.mid, e, tid, c.target, c.slot, c.value))
  {
    hide *;
    CallCommandIs(d, e, tid, input, payload);
    var route := RouteCall(d, e, tid, input);
    c := Uncarried;
    if route.Halt? {
      HaltFields(d, e, tid, input);
    } else {
      RoutedTo(d, e, tid, input);
      var ready := ReservePayload(d, e, tid, route.target, input, payload, route.nodeIndex);
      if ready.Refused? {
        RefusedFields(d, e, tid, input, payload, route.target, route.nodeIndex);
      } else if CallCommand(d, e, tid, input, payload).0 != d {
        PlacedFields(d, e, tid, input, payload, route.target, route.nodeIndex);
        var value := Forwarded(d, e, input, route.nodeIndex, ready.slot);
        c := if input.flags % 2 == 1 then OneWay(ready.d, route.target, route.nodeIndex, value)
             else TwoWay(ready.d, route.target, route.nodeIndex, route.slot, value);
      }
    }
  }

  lemma HaltFields(d: Device, e: nat, tid: nat, input: Packet)
    requires (e, tid) in d.threads && e in d.endpoints && RouteCall(d, e, tid, input).Halt?
    ensures var r := RouteCall(d, e, tid, input).d;
            r == d.(threads := r.threads, nextNode := r.nextNode) && d.nextNode <= r.nextNode
  {
    hide FindReference, NodeFor, FindTransaction;
  }

  lemma RoutedTo(d: Device, e: nat, tid: nat, input: Packet)
    requires Inv(d) && (e, tid) in d.threads && e in d.endpoints && RouteCall(d, e, tid, input).To?
    ensures var route := RouteCall(d, e, tid, input);
            && (Laid(d.endpoints[route.target].slots, d.endpoints[route.target].base, d.endpoints[route.target].size)
                || d.endpoints[route.target].watch != 3)
            && (d.endpoints[route.target].watch == 3 ==> d.endpoints[route.target].mappedOnce)
  {
    var route := RouteCall(d, e, tid, input);
    hide RouteCall, Inv, Laid;
    ReceiverParts(d, route.target);
  }

  lemma RefusedFields(d: Device, e: nat, tid: nat, input: Packet, payload: Payload, target: nat, nodeIndex: nat)
    requires Inv(d) && (e, tid) in d.threads && e in d.endpoints && target in d.endpoints
    requires Laid(d.endpoints[target].slots, d.endpoints[target].base, d.endpoints[target].size)
             || d.endpoints[target].watch != 3
    requires d.endpoints[target].watch == 3 ==> d.endpoints[target].mappedOnce
    requires nodeIndex < |d.nodes| ==> d.nodes[nodeIndex].id != 0 && d.nodes[nodeIndex].owner == target
    requires ReservePayload(d, e, tid, target, input, payload, nodeIndex).Refused?
    ensures var ready := ReservePayload(d, e, tid, target, input, payload, nodeIndex);
            && (e, tid) in ready.d.threads
            && var r := Refuse(ready.d, e, tid, ready.errno).0;
            r == d.(threads := r.threads, nextNode := r.nextNode) && d.nextNode <= r.nextNode
  {
    ReservePayloadEffect(d, e, tid, target, input, payload, nodeIndex);
    hide Inv, Laid, ReservePayload, Deposited;
  }

  lemma PlacedFields(d: Device, e: nat, tid: nat, input: Packet, payload: Payload, target: nat, nodeIndex: nat)
    requires Inv(d) && (e, tid) in d.threads && e in d.endpoints && target in d.endpoints && nodeIndex < |d.nodes|
    requires Laid(d.endpoints[target].slots, d.endpoints[target].base, d.endpoints[target].size)
             || d.endpoints[target].watch != 3
    requires d.endpoints[target].watch == 3 ==> d.endpoints[target].mappedOnce
    requires d.nodes[nodeIndex].id != 0 && d.nodes[nodeIndex].owner == target
    requires ReservePayload(d, e, tid, target, input, payload, nodeIndex).Ready?
    ensures var ready := ReservePayload(d, e, tid, target, input, payload, nodeIndex);
            && Deposited(d, ready.d, target, Forwarded(d, e, input, nodeIndex, ready.slot).dataBuffer, nodeIndex)
            && ready.d.threads == d.threads && ready.d.work == d.work && ready.d.transactions == d.transactions
            && |ready.d.nodes| == |d.nodes| && ready.d.nodes[nodeIndex] == d.nodes[nodeIndex]
  {
    ReservePayloadEffect(d, e, tid, target, input, payload, nodeIndex);
    var ready := ReservePayload(d, e, tid, target, input, payload, nodeIndex);
    hide Inv, Laid, ReservePayload, Deposited;
    DepositedCalls(d, ready.d, target, ready.slot.address, nodeIndex);
  }

  lemma CallCommandInv(d: Device, e: nat, tid: nat, input: Packet, payload: Payload)
    requires Inv(d) && (e, tid) in d.threads && e in d.endpoints && ArenasLaid(d.endpoints)
    ensures Inv(CallCommand(d, e, tid, input, payload).0) && !CallCommand(d, e, tid, input, payload).1.Broken?
  {
    hide *;
    CallCommandIs(d, e, tid, input, payload);
    var route := RouteCall(d, e, tid, input);
    if route.Halt? {
      RouteHaltInv(d, e, tid, input);
    } else {
      CallOutcome(d, e, tid, input, payload);
    }
  }

  /** A thread serving a call finds its transaction, and the caller still waits for exactly that one. */
  lemma ServedCall(d: Device, e: nat, tid: nat)
    requires Inv(d) && (e, tid) in d.threads && d.threads[(e, tid)].incoming != 0
    ensures var th := d.threads[(e, tid)];
            var slot := FindTransaction(d.transactions, th.incoming);
            && th.outgoing == 0 && slot < |d.transactions|
            && var t := d.transactions[slot];
            var caller := (t.source, t.sourceTid);
            caller in d.threads && t.source in d.endpoints && d.threads[caller].outgoing == t.id && t.target == e
                && t.targetTid == tid
  {
    hide ObjectsOk, AsyncOk, BuffersOk;
    var k := (e, tid);
    assert ThreadOk(d.threads[k], k, d.transactions, 0);
    var slot := FindTransaction(d.transactions, d.threads[k].incoming);
    assert slot < |d.transactions|;
    CallIdentity(d.transactions, d.nextTransaction, d.threads, d.work, d.endpoints.Keys, 0, slot, k);
    assert TransactionOk(d.transactions[slot], d.threads, d.work, d.endpoints.Keys);
  }

  lemma ReplyOutcome(d: Device, e: nat, tid: nat, input: Packet, payload: Payload, slot: nat)
    requires Inv(d) && (e, tid) in d.threads && e in d.endpoints && ArenasLaid(d.endpoints)
             && d.threads[(e, tid)].incoming != 0
    requires slot == FindTransaction(d.transactions, d.threads[(e, tid)].incoming) < |d.transactions|
    requires var t := d.transactions[slot]; t.source in d.endpoints && (t.source, t.sourceTid) in d.threads
    ensures var r := ReservePayload(d, e, tid, d.transactions[slot].source, input, payload, |d.nodes|);
            && r.d.threads == d.threads && r.d.transactions == d.transactions
            && (r.Refused? ==> Inv(Refuse(r.d, e, tid, r.errno).0) && !Refuse(r.d, e, tid, r.errno).1.Broken?)
            && (r.Ready? ==> Inv(AcceptReply(r.d, e, tid, slot, Addressed(input, 0, 0, 0, d.endpoints[e].uid, r.slot))))
  {
    hide Inv, Laid, FindTransaction;
    var t := d.transactions[slot];
    ReceiverParts(d, t.source);
    var ready := ReservePayload(d, e, tid, t.source, input, payload, |d.nodes|);
    ReservePayloadEffect(d, e, tid, t.source, input, payload, |d.nodes|);
    hide ReservePayload;
    if ready.Refused? {
      RefuseInv(d, ready.d, e, tid, ready.errno);
    } else {
      hide Deposited, AcceptReply;
      AcceptReplyInv(d, ready.d, e, tid, slot, Addressed(input, 0, 0, 0, d.endpoints[e].uid, ready.slot));
    }
  }

  /** What a reply does when its caller still waits. */
  lemma ReplyCommandIs(d: Device, e: nat, tid: nat, input: Packet, payload: Payload, slot: nat)
    requires (e, tid) in d.threads && e in d.endpoints && ArenasLaid(d.endpoints)
    requires d.threads[(e, tid)].incoming != 0 ==>
               && slot == FindTransaction(d.transactions, d.threads[(e, tid)].incoming) < |d.transactions|
               && d.threads[(e, tid)].outgoing == 0
               && var t := d.transactions[slot];
               t.source in d.endpoints && (t.source, t.sourceTid) in d.threads
                   && d.threads[(t.source, t.sourceTid)].outgoing == t.id
    ensures var th, r := d.threads[(e, tid)], ReplyCommand(d, e, tid, input, payload);
            || (r.0 == d && !r.1.Broken?)
            || (th.deadReply && r == (d.(threads :=
                 d.threads[(e, tid) := th.(deadReply := false, error := BR_DEAD_REPLY)]), Done))
            || (th.incoming != 0
                && var ready := ReservePayload(d, e, tid, d.transactions[slot].source, input, payload, |d.nodes|);
                ready.d.threads == d.threads && ready.d.transactions == d.transactions
                && if ready.Refused? then r == Refuse(ready.d, e, tid, ready.errno)
                   else r == (AcceptReply(ready.d, e, tid, slot,
                       Addressed(input, 0, 0, 0, d.endpoints[e].uid, ready.slot)), Done))
  {
    var th := d.threads[(e, tid)];
    hide Laid, FindTransaction, Admissible;
    if th.incoming != 0 {
      ReservePayloadKeeps(d, e, tid, d.transactions[slot].source, input, payload, |d.nodes|);
    }
    hide ReservePayload, Refuse, AcceptReply, Addressed;
  }

  lemma ReplyCommandInv(d: Device, e: nat, tid: nat, input: Packet, payload: Payload)
    requires Inv(d) && (e, tid) in d.threads && e in d.endpoints && ArenasLaid(d.endpoints)
    ensures Inv(ReplyCommand(d, e, tid, input, payload).0) && !ReplyCommand(d, e, tid, input, payload).1.Broken?
  {
    var th := d.threads[(e, tid)];
    var slot := if th.incoming != 0 then FindTransaction(d.transactions, th.incoming) else 0;
    hide *;
    if th.incoming != 0 {
      ServedCall(d, e, tid);
      ReplyOutcome(d, e, tid, input, payload, slot);
    }
    ThreadFieldInv(d, (e, tid), th.(deadReply := false, error := BR_DEAD_REPLY));
    ReplyCommandIs(d, e, tid, input, payload, slot);
  }
}
