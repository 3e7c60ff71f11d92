/** What single commands achieve, said without repeating how: who receives a call, who receives a reply, what a free
    frees. */
module BinderEffects {
  import opened Base
  import opened BinderArena
  import opened BinderWire
  import opened BinderState
  import opened BinderCommands
  import opened BinderLifetime
  import opened BinderParcels
  import opened BinderBuffers
  import opened BinderCalls
  import opened BinderOneWay
  import opened BinderInvariant
  import opened BinderSteps
  import opened BinderTransfer
  import opened BinderRuns

  // ---- calls ----

  /** The node a call is addressed to: the manager's for handle zero, else the one the caller's strong handle denotes.
      */
  ghost predicate Addresses(d: Device, e: nat, input: Packet, node: Node) {
    var handle := input.target % U32_LIMIT;
    if handle == 0 then node.id == d.managerNode
    else exists r ::
          0 <= r < |d.references| && d.references[r].endpoint == e && d.references[r].handle == handle
          && d.references[r].node == node.id
                     && (d.references[r].strong != 0 || d.references[r].temporary != 0)
  }

  /** The queued request: the right receiver and object, the caller's identity, and the caller's own words. */
  ghost predicate Carries(w: Work, input: Packet, node: Node, sender: Endpoint, oneway: bool) {
    && w.endpoint == node.owner && w.tid == 0 && w.command == BR_TRANSACTION
    && w.value.target == node.pointer && w.value.cookie == node.cookie
    && w.value.senderEuid == sender.uid && w.value.senderPid == (if oneway then 0 else sender.pid)
    && w.value.code == input.code && w.value.flags == input.flags
    && w.value.dataSize == input.dataSize && w.value.offsetsSize == input.offsetsSize
  }

  /** Who the caller now waits for, or that it does not wait. */
  ghost predicate Awaits(d: Device, d': Device, e: nat, tid: nat, w: Work, oneway: bool)
    requires (e, tid) in d.threads && (e, tid) in d'.threads
  {
    var th, th' := d.threads[(e, tid)], d'.threads[(e, tid)];
    && th'.completions == th.completions + 1
    && if oneway then th'.outgoing == th.outgoing && w.transaction == 0 && w.asyncNode != 0
    && d'.transactions == d.transactions
       else th'.outgoing == w.transaction == d.nextTransaction && w.asyncNode == 0
            && exists i ::
                 0 <= i < |d'.transactions| && d'.transactions[i] == Transaction(w.transaction, e, w.endpoint, tid, 0)
  }

  lemma AcceptedOneWay(d: Device, d': Device, e: nat, tid: nat, target: nat, k: nat, value: Packet)
    requires (e, tid) in d.threads && d'.threads == d.threads && d'.transactions == d.transactions && d'.work == d.work
             && k < |d'.nodes| && d'.nodes[k].id != 0
    ensures var r := AcceptOneWay(d', e, tid, target, k, value);
            && r.work == d.work + [Work(target, 0, BR_TRANSACTION, 0, d'.nodes[k].id, value)] && (e, tid) in r.threads
            && Awaits(d, r, e, tid, r.work[|d.work|], true)
  {
  }

  lemma AcceptedCall(d: Device, d': Device, e: nat, tid: nat, target: nat, slot: nat, value: Packet)
    requires (e, tid) in d.threads && d'.threads == d.threads && d'.transactions == d.transactions && d'.work == d.work
    requires d'.nextTransaction == d.nextTransaction && slot < |d.transactions|
    ensures var r := AcceptCall(d', e, tid, target, slot, value);
            && r.work == d.work + [Work(target, 0, BR_TRANSACTION, d.nextTransaction, 0, value)]
            && (e, tid) in r.threads
            && Awaits(d, r, e, tid, r.work[|d.work|], false)
  {
    var r := AcceptCall(d', e, tid, target, slot, value);
    assert r.transactions[slot] == Transaction(d.nextTransaction, e, target, tid, 0);
  }

  lemma RoutedNode(d: Device, e: nat, tid: nat, input: Packet)
    requires (e, tid) in d.threads && e in d.endpoints && RouteCall(d, e, tid, input).To?
    ensures var route := RouteCall(d, e, tid, input); Addresses(d, e, input, d.nodes[route.nodeIndex])
  {
    var handle := input.target % U32_LIMIT;
    var r := FindReference(d.references, e, handle);
    assert r < |d.references| ==> d.references[r].endpoint == e;
    hide FindReference, FindTransaction;
  }

  lemma HaltKeepsWork(d: Device, e: nat, tid: nat, input: Packet)
    requires (e, tid) in d.threads && e in d.endpoints && RouteCall(d, e, tid, input).Halt?
    ensures RouteCall(d, e, tid, input).d.work == d.work
  {
    hide FindReference, NodeFor, FindTransaction;
  }

  /** Every call that is accepted reaches the owner of the object it names, says who sent it, and is what its caller
      waits for. */
  lemma CallReachesOwner(d: Device, e: nat, tid: nat, input: Packet, payload: Payload)
    requires Inv(d) && (e, tid) in d.threads && e in d.endpoints && ArenasLaid(d.endpoints)
    requires CallCommand(d, e, tid, input, payload).0.work != d.work
    ensures var d' := CallCommand(d, e, tid, input, payload).0;
            && |d'.work| == |d.work| + 1 && d'.work[..|d.work|] == d.work && (e, tid) in d'.threads
            && Awaits(d, d', e, tid, d'.work[|d.work|], input.flags % 2 == 1)
            && exists k :: 0 <= k < |d.nodes| && Addresses(d, e, input, d.nodes[k]) && !d.nodes[k].dead
                           && Carries(d'.work[|d.work|], input, d.nodes[k], d.endpoints[e], input.flags % 2 == 1)
  {
    hide RouteCall, Inv, Laid, ReservePayload, Awaits;
    var route := RouteCall(d, e, tid, input);
    if route.Halt? {
      HaltKeepsWork(d, e, tid, input);
    } else {
      RoutedNode(d, e, tid, input);
      ReceiverParts(d, route.target);
      var ready := ReservePayload(d, e, tid, route.target, input, payload, route.nodeIndex);
      ReservePayloadEffect(d, e, tid, route.target, input, payload, route.nodeIndex);
      if ready.Ready? {
        DepositedCalls(d, ready.d, route.target, ready.slot.address, route.nodeIndex);
        var oneway := input.flags % 2 == 1;
        var node, sender := d.nodes[route.nodeIndex], d.endpoints[e];
        var value := Addressed(input, node.pointer, node.cookie, if oneway then 0 else sender.pid, sender.uid,
            ready.slot);
        hide Deposited, AcceptCall, AcceptOneWay, Addresses;
        if oneway {
          AcceptedOneWay(d, ready.d, e, tid, route.target, route.nodeIndex, value);
        } else {
          AcceptedCall(d, ready.d, e, tid, route.target, route.slot, value);
        }
        assert Carries(CallCommand(d, e, tid, input, payload).0.work[|d.work|], input, node, sender, oneway);
      }
    }
  }

  // ---- where a parcel lies ----

  /** The parcel lies in one undelivered buffer of the receiver's arena, which no other parcel has; its data comes first
      and its offsets on the next multiple of eight. */
  ghost predicate Stored(before: Endpoint, after: Endpoint, value: Packet, input: Packet) {
    && (forall v :: !IsHeld(before.slots, value.dataBuffer, v))
    && exists i :: 0 <= i < |after.slots| && after.slots[i].address == value.dataBuffer
                   && after.slots[i].offsetsAddress == value.offsetsBuffer
                   && Spans(after.slots[i], before.base, before.size, input.dataSize, input.offsetsSize)
  }

  lemma ReadyStored(d: Device, e: nat, tid: nat, target: nat, input: Packet, payload: Payload, nodeIndex: nat)
    requires Inv(d) && target in d.endpoints && ArenasLaid(d.endpoints)
    requires ReservePayload(d, e, tid, target, input, payload, nodeIndex).Ready?
    ensures var r := ReservePayload(d, e, tid, target, input, payload, nodeIndex);
            && target in r.d.endpoints
            && forall p, q, pid: u32, uid: u32 ::
                 Stored(d.endpoints[target], r.d.endpoints[target], Addressed(input, p, q, pid, uid, r.slot), input)
  {
    var ep := d.endpoints[target];
    var place := Reserve(ep.slots, ep.base, ep.size, PACKET_LIMIT, input.dataSize, input.offsetsSize, 0, false);
    assert place.Placed?;
    var slot := place.slots[place.index];
    var ready := Prepare(d, target, slot, place.slots, nodeIndex);
    TranslateKeeps(ready.d, e, tid, target, slot.address, payload.objects);
    ReserveSpans(ep.slots, ep.base, ep.size, PACKET_LIMIT, input.dataSize, input.offsetsSize);
    ReserveHolds(ep.slots, ep.base, ep.size, PACKET_LIMIT, input.dataSize, input.offsetsSize, 0, false);
    hide Reserve, Translate, Laid, IsHeld, Spans, Inv, Rollback;
  }

  lemma AcceptedQueues(d: Device, e: nat, tid: nat, target: nat, k: nat, slot: nat, value: Packet)
    requires (e, tid) in d.threads
    ensures k < |d.nodes| ==>
              && AcceptOneWay(d, e, tid, target, k, value).endpoints == d.endpoints
              && var work := AcceptOneWay(d, e, tid, target, k, value).work;
              |work| == |d.work| + 1 && work[|d.work|].endpoint == target && work[|d.work|].value == value
    ensures slot < |d.transactions| ==>
              && AcceptCall(d, e, tid, target, slot, value).endpoints == d.endpoints
              && var work := AcceptCall(d, e, tid, target, slot, value).work;
              |work| == |d.work| + 1 && work[|d.work|].endpoint == target && work[|d.work|].value == value
  {
  }

  lemma AnsweredQueues(d: Device, e: nat, tid: nat, slot: nat, value: Packet)
    requires (e, tid) in d.threads && slot < |d.transactions|
             && (d.transactions[slot].source, d.transactions[slot].sourceTid) in d.threads
    ensures var r := AcceptReply(d, e, tid, slot, value);
            && r.endpoints == d.endpoints && |r.work| == |d.work| + 1
            && r.work[|d.work|].endpoint == d.transactions[slot].source && r.work[|d.work|].value == value
  {
  }

  lemma RefusedKeepsWork(d: Device, e: nat, tid: nat, errno: int)
    requires (e, tid) in d.threads
    ensures Refuse(d, e, tid, errno).0.work == d.work
  {
  }

  /** Where a queued call lies in its receiver's memory. */
  lemma CallIsStored(d: Device, e: nat, tid: nat, input: Packet, payload: Payload)
    requires Inv(d) && (e, tid) in d.threads && e in d.endpoints && ArenasLaid(d.endpoints)
    requires CallCommand(d, e, tid, input, payload).0.work != d.work
    ensures var d' := CallCommand(d, e, tid, input, payload).0;
            && |d'.work| == |d.work| + 1
            && var w := d'.work[|d.work|];
            w.endpoint in d.endpoints && w.endpoint in d'.endpoints
                && Stored(d.endpoints[w.endpoint], d'.endpoints[w.endpoint], w.value, input)
  {
    CallCommandIs(d, e, tid, input, payload);
    hide RouteCall, Inv, Laid, ReservePayload, Stored, CallCommand, Addressed, FindTransaction, AcceptCall,
        AcceptOneWay,
        Refuse;
    var route := RouteCall(d, e, tid, input);
    if route.Halt? {
      HaltKeepsWork(d, e, tid, input);
    } else {
      var ready := ReservePayload(d, e, tid, route.target, input, payload, route.nodeIndex);
      if ready.Refused? {
        RefusedKeepsWork(ready.d, e, tid, ready.errno);
      } else {
        ReadyStored(d, e, tid, route.target, input, payload, route.nodeIndex);
        AcceptedQueues(ready.d, e, tid, route.target, route.nodeIndex, route.slot,
            Forwarded(d, e, input, route.nodeIndex, ready.slot));
      }
    }
  }

  lemma ReservePayloadWork(d: Device, e: nat, tid: nat, target: nat, input: Packet, payload: Payload)
    requires target in d.endpoints && ArenasLaid(d.endpoints)
    ensures Laid(d.endpoints[target].slots, d.endpoints[target].base, d.endpoints[target].size)
            || d.endpoints[target].watch != 3
    ensures var r := ReservePayload(d, e, tid, target, input, payload, |d.nodes|);
            r.d.work == d.work && r.d.threads == d.threads && r.d.transactions == d.transactions
  {
    hide Laid, ReservePayload;
    ReservePayloadKeeps(d, e, tid, target, input, payload, |d.nodes|);
  }

  /** Where a queued reply lies in the caller's memory. */
  lemma ReplyIsStored(d: Device, e: nat, tid: nat, input: Packet, payload: Payload)
    requires Inv(d) && (e, tid) in d.threads && e in d.endpoints && ArenasLaid(d.endpoints)
    requires ReplyCommand(d, e, tid, input, payload).0.work != d.work
    ensures var d' := ReplyCommand(d, e, tid, input, payload).0;
            && |d'.work| == |d.work| + 1
            && var w := d'.work[|d.work|];
            w.endpoint in d.endpoints && w.endpoint in d'.endpoints
                && Stored(d.endpoints[w.endpoint], d'.endpoints[w.endpoint], w.value, input)
  {
    hide *;
    ReplyReachesCaller(d, e, tid, input, payload);
    var slot := FindTransaction(d.transactions, d.threads[(e, tid)].incoming);
    ServedCall(d, e, tid);
    ReplyCommandIs(d, e, tid, input, payload, slot);
    var t := d.transactions[slot];
    ReservePayloadWork(d, e, tid, t.source, input, payload);
    var ready := ReservePayload(d, e, tid, t.source, input, payload, |d.nodes|);
    if ready.Refused? {
      RefusedKeepsWork(ready.d, e, tid, ready.errno);
    } else {
      ReadyStored(d, e, tid, t.source, input, payload, |d.nodes|);
      AnsweredQueues(ready.d, e, tid, slot, Addressed(input, 0, 0, 0, d.endpoints[e].uid, ready.slot));
    }
  }

  // ---- replies ----

  lemma AcceptedReply(d: Device, d': Device, e: nat, tid: nat, slot: nat, value: Packet)
    requires (e, tid) in d.threads && d'.threads == d.threads && d'.transactions == d.transactions && d'.work == d.work
             && slot < |d.transactions|
    requires var t := d.transactions[slot];
             (t.source, t.sourceTid) in d.threads && t.source != e && d.threads[(e, tid)].outgoing == 0
    ensures var r := AcceptReply(d', e, tid, slot, value);
            var t := d.transactions[slot];
            && r.work == d.work + [Work(t.source, t.sourceTid, BR_REPLY, 0, 0, value)] && (e, tid) in r.threads
            && (t.source, t.sourceTid) in r.threads
            && r.threads[(e, tid)].incoming == 0 && r.threads[(t.source, t.sourceTid)].outgoing == 0
            && r.transactions == d.transactions[slot := t.(id := 0)]
  {
  }

  /** The reply to transaction number `slot` is on its way: to the calling thread, from the serving one, both released.
      */
  ghost predicate Answers(d: Device, d': Device, e: nat, tid: nat, input: Packet, slot: nat)
    requires slot < |d.transactions|
  {
    var t := d.transactions[slot];
    var caller := (t.source, t.sourceTid);
    && (t.target, t.targetTid) == (e, tid) && e in d.endpoints && caller in d.threads
    && d.threads[caller].outgoing == t.id
    && (e, tid) in d'.threads && caller in d'.threads && d'.threads[(e, tid)].incoming == 0
    && d'.threads[caller].outgoing == 0
    && d'.transactions == d.transactions[slot := t.(id := 0)]
    && |d'.work| == |d.work| + 1 && d'.work[..|d.work|] == d.work
    && Returns(d'.work[|d.work|], t, input, d.endpoints[e].uid)
  }

  ghost predicate Returns(w: Work, t: Transaction, input: Packet, uid: nat) {
    && w.endpoint == t.source && w.tid == t.sourceTid && w.command == BR_REPLY && w.value.senderEuid == uid
    && w.value.code == input.code && w.value.dataSize == input.dataSize && w.value.offsetsSize == input.offsetsSize
  }

  lemma AcceptedAnswers(d: Device, d': Device, e: nat, tid: nat, input: Packet, slot: nat, place: Slot)
    requires (e, tid) in d.threads && d'.threads == d.threads && d'.transactions == d.transactions && d'.work == d.work
             && slot < |d.transactions| && e in d.endpoints
    requires var t := d.transactions[slot];
             (t.source, t.sourceTid) in d.threads && t.source != e && d.threads[(e, tid)].outgoing == 0
             && (t.target, t.targetTid) == (e, tid) && d.threads[(t.source, t.sourceTid)].outgoing == t.id
    ensures (d'.transactions[slot].source, d'.transactions[slot].sourceTid) in d'.threads
    ensures Answers(d, AcceptReply(d', e, tid, slot, Addressed(input, 0, 0, 0, d.endpoints[e].uid, place)), e, tid,
            input, slot)
  {
    hide AcceptReply;
    AcceptedReply(d, d', e, tid, slot, Addressed(input, 0, 0, 0, d.endpoints[e].uid, place));
  }

  lemma AnsweredReaches(d: Device, e: nat, tid: nat, input: Packet, payload: Payload, slot: nat)
    requires Inv(d) && (e, tid) in d.threads && e in d.endpoints && ArenasLaid(d.endpoints)
             && d.threads[(e, tid)].outgoing == 0
    requires slot < |d.transactions| && d.transactions[slot].id != 0
    requires var t := d.transactions[slot];
             && t.source in d.endpoints && (t.source, t.sourceTid) in d.threads
             && d.threads[(t.source, t.sourceTid)].outgoing == t.id
             && (t.target, t.targetTid) == (e, tid)
    ensures var r := ReservePayload(d, e, tid, d.transactions[slot].source, input, payload, |d.nodes|);
            && r.d.threads == d.threads && r.d.transactions == d.transactions
            && (r.Refused? ==> Refuse(r.d, e, tid, r.errno).0.work == d.work)
            && (r.Ready? ==>
                 Answers(d, AcceptReply(r.d, e, tid, slot, Addressed(input, 0, 0, 0, d.endpoints[e].uid, r.slot)), e,
                 tid, input, slot))
  {
    var t := d.transactions[slot];
    hide Inv, Laid, Answers;
    DifferentSides(d, slot);
    ReceiverParts(d, t.source);
    ReservePayloadKeeps(d, e, tid, t.source, input, payload, |d.nodes|);
    var ready := ReservePayload(d, e, tid, t.source, input, payload, |d.nodes|);
    hide ReservePayload;
    if ready.Ready? { AcceptedAnswers(d, ready.d, e, tid, input, slot, ready.slot); }
  }

  /** Every reply that is accepted goes to the thread that made the call, ends the transaction for both sides, and says
      who sent it. */
  lemma ReplyReachesCaller(d: Device, e: nat, tid: nat, input: Packet, payload: Payload)
    requires Inv(d) && (e, tid) in d.threads && e in d.endpoints && ArenasLaid(d.endpoints)
    requires ReplyCommand(d, e, tid, input, payload).0.work != d.work
    ensures d.threads[(e, tid)].incoming != 0
    ensures exists slot ::
              0 <= slot < |d.transactions| && Answers(d, ReplyCommand(d, e, tid, input, payload).0, e, tid, input, slot)
  {
    var th := d.threads[(e, tid)];
    var slot := if th.incoming != 0 then FindTransaction(d.transactions, th.incoming) else 0;
    hide *;
    if th.incoming != 0 {
      ServedCall(d, e, tid);
      AnsweredReaches(d, e, tid, input, payload, slot);
    }
    ReplyCommandIs(d, e, tid, input, payload, slot);
  }

  lemma DifferentSides(d: Device, slot: nat)
    requires Inv(d) && slot < |d.transactions| && d.transactions[slot].id != 0
    ensures d.transactions[slot].target != d.transactions[slot].source
  {
    CallParts(d);
    hide Inv;
    assert TransactionOk(d.transactions[slot], d.threads, d.work, d.endpoints.Keys);
  }

  // ---- freeing ----

  /** A freed buffer is gone with every claim it held, and a second free of it is refused. */
  lemma FreedIsGone(d: Device, e: nat, buffer: u64)
    requires Inv(d) && e in d.endpoints && FreeCommand(d, e, buffer).1.Done?
    ensures var d' := FreeCommand(d, e, buffer).0;
            && Holds(d.endpoints, e, buffer, true) && !Holds(d'.endpoints, e, buffer, true)
            && !Holds(d'.endpoints, e, buffer, false)
            && (e, buffer) !in d'.parcels
            && (forall c {:trigger d'.claims[c]} :: 0 <= c < |d'.claims| ==>
                 d'.claims[c].endpoint != e || d'.claims[c].buffer != buffer)
            && e in d'.endpoints && FreeCommand(d', e, buffer) == (d', Fail(-95))
  {
    TargetKnown(d, e);
    ReceiverLaid(d, e);
    var ep := d.endpoints[e];
    var (slots, code) := Remove(ep.slots, buffer, true);
    if ep.slots != [] { RemoveHolds(ep.slots, ep.base, ep.size, buffer, true); }
    HeldOnceIn(d, e, buffer);
    hide Inv, Laid, IsHeld;
    var d1 := d.(endpoints := d.endpoints[e := ep.(slots := slots)], parcels := d.parcels - {(e, buffer)},
                 nodes := AdvanceAsync(d.nodes, d.work, e, buffer));
    var d' := FreeCommand(d, e, buffer).0;
    assert d' == Unclaim(d1, e, buffer);
    UnclaimEffect(d1, e, buffer);
    hide Unclaim, FreeCommand, Remove, AdvanceAsync;
    BufferPositive(d, e, buffer);
    assert !Holds(d'.endpoints, e, buffer, true) && !Holds(d'.endpoints, e, buffer, false);
    SecondFree(d', e, buffer);
  }

  lemma SecondFree(d: Device, e: nat, buffer: u64)
    requires e in d.endpoints && !IsHeld(d.endpoints[e].slots, buffer, true)
    ensures FreeCommand(d, e, buffer) == (d, Fail(-95))
  {
    var slots := d.endpoints[e].slots;
    var k := FindSlot(slots, buffer);
    assert k < |slots| ==> slots[k].address == buffer;
    hide Unclaim;
  }

  lemma ReceiverLaid(d: Device, e: nat)
    requires Inv(d) && e in d.endpoints
    ensures d.endpoints[e].slots != [] ==> Laid(d.endpoints[e].slots, d.endpoints[e].base, d.endpoints[e].size)
  {
    EndpointParts(d, e);
    hide Inv, Laid;
  }

  lemma HeldOnceIn(d: Device, e: nat, b: nat)
    requires Inv(d) && e in d.endpoints
    ensures !(IsHeld(d.endpoints[e].slots, b, true) && IsHeld(d.endpoints[e].slots, b, false))
  {
    ReceiverLaid(d, e);
    hide Inv, Laid;
    if d.endpoints[e].slots != [] { HeldOnce(d.endpoints[e].slots, d.endpoints[e].base, d.endpoints[e].size, b); }
  }

  lemma BufferPositive(d: Device, e: nat, b: nat)
    requires Inv(d) && e in d.endpoints && Holds(d.endpoints, e, b, true)
    ensures b != 0
  {
    ReceiverLaid(d, e);
    hide Inv;
    var slots := d.endpoints[e].slots;
    var k :| 0 <= k < |slots| && slots[k].address == b && slots[k].delivered;
    LaidAddress(slots, d.endpoints[e].base, d.endpoints[e].size, k);
  }

  // ---- counts ----

  /** Taking a count and giving it back leaves the device as it was. */
  lemma CountRoundTrip(d: Device, i: nat, strong: bool)
    requires Inv(d) && i < |d.references| && d.references[i].endpoint != 0
    requires (if strong then d.references[i].strong else d.references[i].weak) != U32_LIMIT - 1
    ensures var up := AdjustReference(d, i, true, strong);
            && up.1.Done? && i < |up.0.references|
            && up.0.references[i].strong == d.references[i].strong + (if strong then 1 else 0)
            && up.0.references[i].weak == d.references[i].weak + (if strong then 0 else 1)
            && AdjustReference(up.0, i, false, strong) == (d, Done)
  {
    var r := d.references[i];
    var up := AdjustReference(d, i, true, strong).0;
    LiveCounts(d, i);
    NothingToCollect(d, d.references);
    assert up.references == d.references[i := Adjusted(r, true, strong)];
    assert Adjusted(Adjusted(r, true, strong), false, strong) == r;
    UseMoreKeeps(d, i, Adjusted(r, true, strong));
    NothingToCollect(d, up.references);
    assert up.references[i := r] == d.references;
    hide Collect, Inv;
  }

  lemma LiveCounts(d: Device, i: nat)
    requires Inv(d) && i < |d.references| && d.references[i].endpoint != 0
    ensures !Uncounted(d.references[i]) && NoGarbage(d.nodes, d.references, d.claims)
  {
    hide BuffersOk, CallsOk, AsyncOk, NodesOk;
    assert RefOk(d.references[i], d.nodes);
    hide NoGarbage;
  }

  lemma UseMoreKeeps(d: Device, i: nat, r: Reference)
    requires NoGarbage(d.nodes, d.references, d.claims) && i < |d.references| && d.references[i].endpoint != 0
    requires r.endpoint == d.references[i].endpoint && r.node == d.references[i].node
             && r.temporary == d.references[i].temporary
    requires r.strong >= d.references[i].strong
    ensures NoGarbage(d.nodes, d.references[i := r], d.claims)
  {
    var refs := d.references[i := r];
    forall k | 0 <= k < |d.nodes| ensures !Garbage(refs, d.claims, d.nodes[k]) {
      var n := d.nodes[k];
      assert !Garbage(d.references, d.claims, n);
      forall x | 0 <= x < |refs| ensures AnyImport(d.references[x], n.id) <==> AnyImport(refs[x], n.id) {}
      forall x | 0 <= x < |refs| ensures StrongImport(d.references[x], n.id) ==> StrongImport(refs[x], n.id) {}
    }
  }

  lemma NothingToCollect(d: Device, refs: seq<Reference>)
    requires NoGarbage(d.nodes, refs, d.claims)
    ensures Collect(d.nodes, refs, d.claims) == d.nodes
  {
    hide Garbage;
    var after := Collect(d.nodes, refs, d.claims);
    assert forall k :: 0 <= k < |after| ==> after[k] == d.nodes[k];
  }

  // ---- death notifications ----

  /** The slot a subscription gets: armed while the owner lives, otherwise its notice is queued at once. */
  ghost predicate Subscribed(d: Device, d': Device, i: nat, e: nat, cookie: u64)
    requires i < |d.references| == |d'.references|
  {
    var slot := d'.references[i].death - 1;
    && |d'.deaths| == |d.deaths| && 0 <= slot < |d.deaths| && d.deaths[slot].endpoint == 0
    && d'.deaths[slot] == Death(e, d.references[i].owner, cookie, 0,
                                if d.references[i].owner in d.endpoints then Armed
                                    else DeathQueued, false, d.nextSerial)
    && (forall k {:trigger d'.deaths[k]} :: 0 <= k < |d.deaths| && k != slot ==> d'.deaths[k] == d.deaths[k])
    && d'.references == d.references[i := d.references[i].(death := slot + 1)]
  }

  /** The slot that answers a cleared subscription; the reference is as it was before it subscribed. */
  ghost predicate Cleared(d: Device, d': Device, d'': Device, i: nat)
    requires i < |d.references| == |d'.references|
  {
    var slot := d'.references[i].death - 1;
    && d''.references == d.references && |d''.deaths| == |d'.deaths| && 0 <= slot < |d'.deaths|
    && d''.deaths[slot].clearing && d''.deaths[slot].state
       == (if d'.deaths[slot].state.Armed? then ClearQueued else d'.deaths[slot].state)
    && d''.deaths[slot].serial == d'.deaths[slot].serial && d''.deaths[slot].endpoint == d'.deaths[slot].endpoint
    && (forall k {:trigger d''.deaths[k]} :: 0 <= k < |d''.deaths| && k != slot ==> d''.deaths[k] == d'.deaths[k])
  }

  /** A subscription takes one free slot and nothing else; asking again, or clearing with another cookie, does nothing;
      clearing gives the reference back and leaves exactly that slot to answer. */
  lemma SubscribeThenClear(d: Device, e: nat, tid: nat, handle: u32, cookie: u64, other: u64)
    requires (e, tid) in d.threads && FindReference(d.references, e, handle) < |d.references|
             && FreeDeath(d.deaths) < |d.deaths|
    requires d.references[FindReference(d.references, e, handle)].death == 0 && other != cookie
    ensures var i, d' := FindReference(d.references, e, handle), RequestDeathCommand(d, e, handle, cookie).0;
            && RequestDeathCommand(d, e, handle, cookie).1.Done? && |d'.references| == |d.references|
            && Subscribed(d, d', i, e, cookie)
            && (e, tid) in d'.threads
            && RequestDeathCommand(d', e, handle, other) == (d', Done)
            && ClearDeathCommand(d', e, tid, handle, other) == (d', Done)
            && ClearDeathCommand(d', e, tid, handle, cookie).1.Done?
            && Cleared(d, d', ClearDeathCommand(d', e, tid, handle, cookie).0, i)
  {
    var i := FindReference(d.references, e, handle);
    var d' := RequestDeathCommand(d, e, handle, cookie).0;
    SameFind(d.references, d'.references, e, handle);
    hide FindReference, FreeDeath;
    var d'' := ClearDeathCommand(d', e, tid, handle, cookie).0;
    assert d''.references == d.references;
  }

  lemma {:induction false} SameFind(refs: seq<Reference>, refs': seq<Reference>, e: nat, handle: u32, i: nat := 0)
    requires i <= |refs| == |refs'|
    requires forall k {:trigger refs'[k]} :: 0 <= k < |refs| ==>
               refs'[k].endpoint == refs[k].endpoint && refs'[k].handle == refs[k].handle
    ensures FindReference(refs', e, handle, i) == FindReference(refs, e, handle, i)
    decreases |refs| - i
  {
    if i < |refs| {
      assert refs'[i].endpoint == refs[i].endpoint;
      SameFind(refs, refs', e, handle, i + 1);
    }
  }

  /** A delivered notice is settled by one acknowledgement: it is then acknowledged, or its clearing is answered, no
      other
      slot changes, and no acknowledgement settles it again. */
  lemma SettledOnce(d: Device, e: nat, tid: nat, cookie: u64)
    requires (e, tid) in d.threads && DeliveredDeath(d.deaths, e, cookie) < |d.deaths|
    ensures var i, d' := DeliveredDeath(d.deaths, e, cookie), DeathDoneCommand(d, e, tid, cookie).0;
            && |d'.deaths| == |d.deaths| && d.deaths[i].state.DeathDelivered?
            && d'.deaths[i].state == (if d.deaths[i].clearing then ClearQueued else DeathAcknowledged)
            && (forall k {:trigger d'.deaths[k]} :: 0 <= k < |d.deaths| && k != i ==> d'.deaths[k] == d.deaths[k])
            && (e, tid) in d'.threads && DeathDoneCommand(d', e, tid, cookie).0.deaths[i] == d'.deaths[i]
  {
    var i, d' := DeliveredDeath(d.deaths, e, cookie), DeathDoneCommand(d, e, tid, cookie).0;
    var j := DeliveredDeath(d'.deaths, e, cookie);
    assert j != i;
    hide DeliveredDeath;
  }
}
