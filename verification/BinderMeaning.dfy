/** What a received object stands for does not change while its buffer is unfreed, whatever else happens to the device.
    */
module BinderMeaning {
  import opened Base
  import opened BinderArena
  import opened BinderWire
  import opened BinderState
  import opened BinderCommands
  import opened BinderLifetime
  import opened BinderParcels
  import opened BinderBuffers
  import opened BinderCalls
  import opened BinderOneWay
  import opened BinderDeaths
  import opened BinderInvariant
  import opened BinderLifecycle
  import opened BinderSteps
  import opened BinderTransfer
  import opened BinderRuns

  type Buffer = (nat, nat)

  function BufferOf(c: Claim): Buffer {
    (c.endpoint, c.buffer)
  }

  /** Buffers that are there before and after have the same objects and the same claims. */
  ghost predicate Kept(d: Device, d': Device) {
    && |d'.claims| == |d.claims|
    && (forall k {:trigger d'.parcels[k]} :: k in d.parcels && k in d'.parcels ==> d'.parcels[k] == d.parcels[k])
    && (forall c {:trigger d'.claims[c]} ::
         0 <= c < |d.claims| && BufferOf(d.claims[c]) in d.parcels && BufferOf(d.claims[c]) in d'.parcels ==>
          d'.claims[c] == d.claims[c])
  }

  /** Some buffers are gone, with their claims; the others are as they were. */
  ghost predicate Shrunk(d: Device, d': Device) {
    && |d'.claims| == |d.claims|
    && (forall k {:trigger k in d'.parcels} :: k in d'.parcels ==> k in d.parcels && d'.parcels[k] == d.parcels[k])
    && (forall c {:trigger d'.claims[c]} :: 0 <= c < |d.claims| && BufferOf(d.claims[c]) in d'.parcels ==>
         d'.claims[c] == d.claims[c])
  }

  lemma ShrunkKept(d: Device, d': Device)
    requires Shrunk(d, d')
    ensures Kept(d, d')
  {
  }

  lemma ShrunkTransitive(a: Device, b: Device, c: Device)
    requires Shrunk(a, b) && Shrunk(b, c)
    ensures Shrunk(a, c)
  {
    forall i | 0 <= i < |a.claims| && BufferOf(a.claims[i]) in c.parcels ensures c.claims[i] == a.claims[i] {
      assert BufferOf(a.claims[i]) in b.parcels;
      assert b.claims[i] == a.claims[i];
    }
  }

  predicate SameParcels(d: Device, d': Device) {
    d'.parcels == d.parcels && d'.claims == d.claims
  }

  lemma SameShrunk(d: Device, d': Device)
    requires SameParcels(d, d')
    ensures Shrunk(d, d')
  {
  }

  // ---- buffers that go ----

  lemma ReleasedShrunk(d: Device, d': Device, e: nat, b: nat)
    requires b != 0 && d'.parcels == d.parcels - {(e, b)} && |d'.claims| == |d.claims|
    requires forall c {:trigger d'.claims[c]} :: 0 <= c < |d.claims| ==>
               d'.claims[c] == if Matches(d.claims[c], e, b) then NO_CLAIM else d.claims[c]
    ensures Shrunk(d, d')
  {
  }

  lemma DropWorkShrunk(d: Device, gone: nat, x: nat, j: nat)
    requires InvDuring(d, gone, x) && j < |d.work|
    ensures Shrunk(d, DropWork(d, j))
  {
    var w, r := d.work[j], DropWork(d, j);
    assert EndpointsOk(d.endpoints, d.nextToken) && WorkHeld(d.endpoints, d.work);
    hide InvDuring, EndpointsOk, WorkHeld, Shrunk;
    DropWorkParts(d, j);
    UnclaimEffect(d, w.endpoint, w.value.dataBuffer);
    hide DropWork, Unclaim, Matches, Taken;
    ReleasedShrunk(d, r, w.endpoint, w.value.dataBuffer);
  }

  lemma {:induction false} DropWorkOfShrunk(d: Device, gone: nat, x: nat, j: nat)
    requires InvDuring(d, gone, x) && x != 0 && j <= |d.work|
    ensures Shrunk(d, DropWorkOf(d, x, j))
    decreases |d.work| - j
  {
    if j == |d.work| {
      SameShrunk(d, d);
    } else if d.work[j].transaction == x {
      RequestedWork(d, gone, x, j);
      hide InvDuring, DropWork, Shrunk;
      DropWorkShrunk(d, gone, x, j);
      DropWorkInv(d, gone, x, j);
      DropWorkOfShrunk(DropWork(d, j), gone, x, j);
      ShrunkTransitive(d, DropWork(d, j), DropWorkOf(DropWork(d, j), x, j));
    } else {
      hide InvDuring, Shrunk;
      DropWorkOfShrunk(d, gone, x, j + 1);
    }
  }

  lemma CancelCallShrunk(d: Device, gone: nat, i: nat)
    requires InvDuring(d, gone, 0) && i < |d.transactions| && d.transactions[i].id != 0
    ensures Shrunk(d, CancelCall(d, i))
  {
    var t := d.transactions[i];
    var told := d.(threads := OrphanTarget(FailSource(d.threads, t), t));
    ToldInv(d, gone, i);
    SameShrunk(d, told);
    hide FailSource, OrphanTarget, InvDuring, DropWorkOf, Shrunk;
    DropWorkOfShrunk(told, gone, t.id, 0);
    var dropped := DropWorkOf(told, t.id);
    ShrunkTransitive(d, told, dropped);
    SameShrunk(dropped, CancelCall(d, i));
    ShrunkTransitive(d, dropped, CancelCall(d, i));
  }

  lemma {:induction false} CancelCallsShrunk(d: Device, gone: nat, e: nat, tid: nat, i: nat)
    requires InvDuring(d, gone, 0) && i <= |d.transactions|
    ensures Shrunk(d, CancelCalls(d, e, tid, i))
    decreases |d.transactions| - i
  {
    hide InvDuring, Shrunk;
    if i == |d.transactions| {
      SameShrunk(d, d);
    } else if Involves(d.transactions[i], e, tid) {
      CancelCallShrunk(d, gone, i);
      CancelCallInv(d, gone, i);
      CancelCallsShrunk(CancelCall(d, i), gone, e, tid, i + 1);
      ShrunkTransitive(d, CancelCall(d, i), CancelCalls(CancelCall(d, i), e, tid, i + 1));
    } else {
      CancelCallsShrunk(d, gone, e, tid, i + 1);
    }
  }

  lemma {:induction false} DropWorkForShrunk(d: Device, gone: nat, e: nat, tid: nat, j: nat)
    requires InvDuring(d, gone, 0) && Uninvolved(d.transactions, e, tid) && j <= |d.work| && (tid == 0 ==> gone == e)
    ensures Shrunk(d, DropWorkFor(d, e, tid, j))
    decreases |d.work| - j
  {
    hide InvDuring, Involves, Shrunk, DropWork;
    if j == |d.work| {
      SameShrunk(d, d);
    } else if d.work[j].endpoint == e && (tid == 0 || d.work[j].tid == tid) {
      Droppable(d, gone, e, tid, j);
      DropWorkKeepsCalls(d, j);
      DropWorkShrunk(d, gone, 0, j);
      DropWorkInv(d, gone, 0, j);
      DropWorkForShrunk(DropWork(d, j), gone, e, tid, j);
      ShrunkTransitive(d, DropWork(d, j), DropWorkFor(DropWork(d, j), e, tid, j));
    } else {
      DropWorkForShrunk(d, gone, e, tid, j + 1);
    }
  }

  lemma CancelShrunk(d: Device, e: nat, tid: nat)
    requires Inv(d)
    ensures Shrunk(d, Cancel(d, e, tid))
  {
    var gone := if tid == 0 then e else 0;
    Weaken(d, e, gone);
    hide Inv, InvDuring, Shrunk, CancelCalls, DropWorkFor;
    var r := CancelCalls(d, e, tid);
    CancelCallsInv(d, gone, e, tid, 0);
    CancelCallsShrunk(d, gone, e, tid, 0);
    DropWorkForShrunk(r, gone, e, tid, 0);
    ShrunkTransitive(d, r, DropWorkFor(r, e, tid));
  }

  lemma ThreadExitShrunk(d: Device, e: nat, tid: nat)
    requires Inv(d)
    ensures Shrunk(d, ThreadExit(d, e, tid))
  {
    hide Inv, Cancel, Shrunk;
    CancelShrunk(d, e, tid);
    SameShrunk(Cancel(d, e, tid), ThreadExit(d, e, tid));
    ShrunkTransitive(d, Cancel(d, e, tid), ThreadExit(d, e, tid));
  }

  lemma ReleaseEndpointShrunk(d: Device, token: nat)
    requires Inv(d) && token != 0
    ensures Shrunk(d, ReleaseEndpoint(d, token))
  {
    hide Inv, Cancel, Shrunk, ReleaseReferences, Unclaim, Forget;
    CancelShrunk(d, token, 0);
    var a := Cancel(d, token, 0);
    var b := ReleaseReferences(a, token);
    ReleaseReferencesSame(a, token);
    SameShrunk(a, b);
    ShrunkTransitive(d, a, b);
    UnclaimEffect(b, token, 0);
    ForgetShrunk(b, Unclaim(b, token, 0), token);
    ShrunkTransitive(d, b, ReleaseEndpoint(d, token));
  }

  lemma ReleaseReferencesSame(d: Device, token: nat)
    ensures SameParcels(d, ReleaseReferences(d, token))
  {
    hide Collect, ReleasedDeath, ReleasedNode;
  }

  lemma ForgetShrunk(d: Device, u: Device, token: nat)
    requires u.parcels == d.parcels && |u.claims| == |d.claims|
    requires forall c {:trigger u.claims[c]} :: 0 <= c < |d.claims| ==>
               u.claims[c] == if Matches(d.claims[c], token, 0) then NO_CLAIM else d.claims[c]
    ensures Shrunk(d, Forget(u, token))
  {
  }

  lemma FreeShrunk(d: Device, e: nat, buffer: nat)
    requires Inv(d) && e in d.endpoints
    ensures Shrunk(d, FreeCommand(d, e, buffer).0)
  {
    var (slots, code) := Remove(d.endpoints[e].slots, buffer, true);
    if code != 0 {
      SameShrunk(d, d);
    } else {
      TargetKnown(d, e);
      FreedPositive(d, e, buffer);
      var d1 := d.(endpoints := d.endpoints[e := d.endpoints[e].(slots := slots)], parcels := d.parcels - {(e, buffer)},
                   nodes := AdvanceAsync(d.nodes, d.work, e, buffer));
      assert FreeCommand(d, e, buffer).0 == Unclaim(d1, e, buffer);
      hide Inv, Remove, AdvanceAsync, FreeCommand, Unclaim, Shrunk, Matches;
      UnclaimEffect(d1, e, buffer);
      ReleasedShrunk(d, Unclaim(d1, e, buffer), e, buffer);
    }
  }

  lemma FreedPositive(d: Device, e: nat, buffer: nat)
    requires Inv(d) && e in d.endpoints && Remove(d.endpoints[e].slots, buffer, true).1 == 0
    ensures buffer != 0
  {
    var slots := d.endpoints[e].slots;
    var k := FindSlot(slots, buffer);
    assert slots[k].address == buffer && slots[k].delivered;
    assert Holds(d.endpoints, e, buffer, true);
    assert EndpointsOk(d.endpoints, d.nextToken);
    hide Inv, Holds, EndpointsOk;
    HeldLaid(d.endpoints, d.nextToken, e, buffer, true);
  }

  // ---- buffers that come ----

  lemma DepositedKept(d: Device, d': Device, target: nat, b: nat, nodeIndex: nat, r: Device)
    requires Inv(d) && Deposited(d, d', target, b, nodeIndex) && target in d.endpoints && SameParcels(d', r)
    ensures Kept(d, r)
  {
    DepositedParts(d, d', target, b, nodeIndex);
    InvSplit(d);
    TargetKnown(d, target);
    NoEmptyKey(d);
    hide Inv, BuffersOk, ObjectsOk, CallsOk, AsyncOk, Deposited, Holds;
    FreshBuffer(d.endpoints, d.nextToken, d.work, d.claims, d.parcels, target, b);
    forall c | 0 <= c < |d.claims| && BufferOf(d.claims[c]) in d.parcels ensures d'.claims[c] == d.claims[c] {
      assert BufferOf(NO_CLAIM) == (0, 0);
    }
  }

  lemma DepositedParts(d: Device, d': Device, target: nat, b: nat, nodeIndex: nat)
    requires Deposited(d, d', target, b, nodeIndex)
    ensures ClaimsGrown(d.claims, d'.claims, target, b) && !Holds(d.endpoints, target, b, true)
            && !Holds(d.endpoints, target, b, false)
    ensures (target, b) in d'.parcels && d'.parcels == d.parcels[(target, b) := d'.parcels[(target, b)]]
  {
    hide SameCalls, ObjectsOk, EndpointsOk, NodesGrown, Covered, Holds, ClaimsGrown;
  }

  lemma NoEmptyKey(d: Device)
    requires Inv(d)
    ensures (0, 0) !in d.parcels
  {
    hide ObjectsOk, CallsOk, AsyncOk, EndpointsOk, WorkHeld, Covered, Holds;
    assert (0, 0) in d.parcels ==> (0, 0).0 != 0;
  }

  lemma AcceptSame(d: Device, e: nat, tid: nat, target: nat, index: nat, value: Packet)
    requires (e, tid) in d.threads
    ensures index < |d.transactions| ==> SameParcels(d, AcceptCall(d, e, tid, target, index, value))
    ensures index < |d.nodes| ==> SameParcels(d, AcceptOneWay(d, e, tid, target, index, value))
    ensures index < |d.transactions| && (d.transactions[index].source, d.transactions[index].sourceTid) in d.threads ==>
              SameParcels(d, AcceptReply(d, e, tid, index, value))
  {
  }

  lemma RefuseSame(d: Device, d': Device, e: nat, tid: nat, errno: int)
    requires d' == d.(nextNode := d'.nextNode) && (e, tid) in d'.threads
    ensures SameParcels(d, Refuse(d', e, tid, errno).0)
  {
  }

  lemma SameKept(d: Device, d': Device)
    requires SameParcels(d, d')
    ensures Kept(d, d')
  {
  }

  lemma ErrorSame(d: Device, r: Device)
    requires r == d.(threads := r.threads, nextNode := r.nextNode)
    ensures SameParcels(d, r)
  {
  }

  lemma CallKept(d: Device, e: nat, tid: nat, input: Packet, payload: Payload)
    requires Inv(d) && (e, tid) in d.threads && e in d.endpoints && ArenasLaid(d.endpoints)
    ensures Kept(d, CallCommand(d, e, tid, input, payload).0)
  {
    hide *;
    var c := CallCases(d, e, tid, input, payload);
    var r := CallCommand(d, e, tid, input, payload).0;
    if c.Uncarried? {
      ErrorSame(d, r);
      SameKept(d, r);
    } else {
      if c.OneWay? {
        AcceptSame(c.mid, e, tid, c.target, c.nodeIndex, c.value);
      } else {
        AcceptSame(c.mid, e, tid, c.target, c.slot, c.value);
      }
      DepositedKept(d, c.mid, c.target, c.value.dataBuffer, c.nodeIndex, r);
    }
  }

  lemma SameItself(d: Device)
    ensures Kept(d, d) && SameParcels(d, d)
  {
  }

  lemma AnsweredKept(d: Device, e: nat, tid: nat, input: Packet, payload: Payload, slot: nat)
    requires Inv(d) && (e, tid) in d.threads && e in d.endpoints && ArenasLaid(d.endpoints) && slot < |d.transactions|
    requires var t := d.transactions[slot]; t.source in d.endpoints && (t.source, t.sourceTid) in d.threads
    ensures var r := ReservePayload(d, e, tid, d.transactions[slot].source, input, payload, |d.nodes|);
            && r.d.threads == d.threads && r.d.transactions == d.transactions
            && (r.Refused? ==> Kept(d, Refuse(r.d, e, tid, r.errno).0))
            && (r.Ready? ==>
                 Kept(d, AcceptReply(r.d, e, tid, slot, Addressed(input, 0, 0, 0, d.endpoints[e].uid, r.slot))))
  {
    var t := d.transactions[slot];
    hide Inv, Laid, Kept, SameParcels;
    ReceiverParts(d, t.source);
    ReservePayloadKeeps(d, e, tid, t.source, input, payload, |d.nodes|);
    var ready := ReservePayload(d, e, tid, t.source, input, payload, |d.nodes|);
    ReservePayloadEffect(d, e, tid, t.source, input, payload, |d.nodes|);
    hide ReservePayload;
    if ready.Refused? {
      RefuseSame(d, ready.d, e, tid, ready.errno);
      hide Refuse;
      SameKept(d, Refuse(ready.d, e, tid, ready.errno).0);
    } else {
      hide Deposited, AcceptReply;
      var value := Addressed(input, 0, 0, 0, d.endpoints[e].uid, ready.slot);
      AcceptSame(ready.d, e, tid, t.source, slot, value);
      DepositedKept(d, ready.d, t.source, ready.slot.address, |d.nodes|, AcceptReply(ready.d, e, tid, slot, value));
    }
  }

  lemma ReplyKept(d: Device, e: nat, tid: nat, input: Packet, payload: Payload)
    requires Inv(d) && (e, tid) in d.threads && e in d.endpoints && ArenasLaid(d.endpoints)
    ensures Kept(d, ReplyCommand(d, e, tid, input, payload).0)
  {
    var th := d.threads[(e, tid)];
    var slot := if th.incoming != 0 then FindTransaction(d.transactions, th.incoming) else 0;
    SameItself(d);
    SameKept(d, d.(threads := d.threads[(e, tid) := th.(deadReply := false, error := BR_DEAD_REPLY)]));
    hide *;
    if th.incoming != 0 {
      ServedCall(d, e, tid);
      AnsweredKept(d, e, tid, input, payload, slot);
    }
    ReplyCommandIs(d, e, tid, input, payload, slot);
  }

  // ---- every step ----

  lemma CommandsSame(d: Device, e: nat, tid: nat, c: Command)
    requires e in d.endpoints && (e, tid) in d.threads && ArenasLaid(d.endpoints)
    requires !c.Call? && !c.Reply? && !c.FreeBuffer?
    ensures SameParcels(d, Execute(d, e, tid, c).0)
  {
    hide Collect, FindReference, FreeDeath, DeliveredDeath, EnsureReference, OwnedNode, AcknowledgedNode, ArenasLaid;
  }

  lemma {:induction false} ReadSame(d: Device, e: nat, tid: nat, room: nat, writable: nat)
    requires e in d.endpoints && (e, tid) in d.threads
    ensures SameParcels(d, ReadLoop(d, e, tid, room, writable).d)
    decreases room
  {
    DeliverSame(d, e, tid);
    DeliverNextKeeps(d, e, tid);
    hide DeliverNext, EndsRead;
    var next := DeliverNext(d, e, tid);
    if room >= 4 && next.delivered != [] && Length(next.delivered[0]) <= room && writable > 0 && next.status.Done?
        && !EndsRead(next.delivered[0]) {
      ReadSame(next.d, e, tid, room - Length(next.delivered[0]), writable - 1);
    }
  }

  lemma DeliverSame(d: Device, e: nat, tid: nat)
    requires e in d.endpoints && (e, tid) in d.threads
    ensures SameParcels(d, DeliverNext(d, e, tid).d)
  {
    hide Collect, NodeCommand, NodeEventFor, WorkFor, DeathFor, Publish, FindTransaction;
  }

  lemma FieldsSame(d: Device, s: Step)
    requires Enabled(d, s) && ArenasLaid(d.endpoints) && !s.Read? && !s.Write? && !s.DoReap? && !s.Exit?
    ensures SameParcels(d, Next(d, s).d)
  {
    hide ArenasLaid, CreateNode, OwnedNode;
  }

  lemma ExecuteKept(d: Device, e: nat, tid: nat, c: Command)
    requires Inv(d) && e in d.endpoints && (e, tid) in d.threads && ArenasLaid(d.endpoints)
    ensures Kept(d, Execute(d, e, tid, c).0)
  {
    hide *;
    ExecuteIs(d, e, tid, c);
    if c.Call? { CallKept(d, e, tid, c.input, c.payload); }
    else if c.Reply? { ReplyKept(d, e, tid, c.input, c.payload); }
    else if c.FreeBuffer? {
      FreeShrunk(d, e, c.buffer);
      ShrunkKept(d, FreeCommand(d, e, c.buffer).0);
    } else {
      CommandsSame(d, e, tid, c);
      SameKept(d, Execute(d, e, tid, c).0);
    }
  }

  lemma ReadCommandSame(d: Device, e: nat, tid: nat, size: nat, writable: nat)
    requires e in d.endpoints && (e, tid) in d.threads
    ensures SameParcels(d, ReadCommand(d, e, tid, size, writable).d)
  {
    hide ReadLoop, ReadReady;
    if size >= 4 && writable > 0 { ReadSame(d, e, tid, size - 4, writable - 1); }
  }

  lemma EndingKept(d: Device, s: Step)
    requires Inv(d) && Enabled(d, s) && ArenasLaid(d.endpoints) && (s.DoReap? || s.Exit?)
    ensures Kept(d, Next(d, s).d)
  {
    TargetKnown(d, s.token);
    hide Inv, ArenasLaid, ReleaseEndpoint, ThreadExit, Kept, Shrunk;
    if s.DoReap? { ReleaseEndpointShrunk(d, s.token); } else { ThreadExitShrunk(d, s.token, s.tid); }
    ShrunkKept(d, Next(d, s).d);
  }

  lemma StepKept(d: Device, s: Step)
    requires Inv(d) && Enabled(d, s) && ArenasLaid(d.endpoints)
    ensures Kept(d, Next(d, s).d)
  {
    hide *;
    NextIs(d, s);
    if s.Write? { ExecuteKept(d, s.token, s.tid, s.command); }
    else if s.Read? {
      ReadCommandSame(d, s.token, s.tid, s.size, s.writable);
      SameKept(d, Next(d, s).d);
    } else if s.DoReap? || s.Exit? { EndingKept(d, s); }
    else {
      FieldsSame(d, s);
      SameKept(d, Next(d, s).d);
    }
  }

  // ---- meaning over a run ----

  lemma ParcelFacts(d: Device, k: Buffer)
    requires Inv(d) && k in d.parcels
    ensures k.0 != 0 && Covered(d.parcels[k], d.claims, k.0, k.1) && Linked(d.references, d.claims, d.nodes, 0)
  {
    hide CallsOk, AsyncOk, EndpointsOk, WorkHeld, Covered, Linked, NoGarbage, SlotsOk, DeathsOk, NodesOk;
  }

  /** The node of the claim behind a handle. */
  lemma HandleClaim(d: Device, k: Buffer, x: nat) returns (c: nat)
    requires Inv(d) && k in d.parcels && x < |d.parcels[k]| && d.parcels[k][x].Handle?
    ensures c < |d.claims| && BufferOf(d.claims[c]) == k && d.claims[c].remote
            && d.claims[c].handle == d.parcels[k][x].handle
    ensures Denotes(d, k.0, d.parcels[k][x]) == d.claims[c].node != 0
  {
    ParcelFacts(d, k);
    hide Inv, Denotes;
    var item := d.parcels[k][x];
    c :| 0 <= c < |d.claims| && d.claims[c].endpoint == k.0 && d.claims[c].buffer == k.1 && d.claims[c].remote
        && d.claims[c].handle == item.handle;
    ClaimDenotes(d, c, item.flags);
  }

  /** What a remote claim's handle denotes is what it claims. */
  lemma ClaimDenotes(d: Device, c: nat, flags: u32)
    requires Linked(d.references, d.claims, d.nodes, 0) && c < |d.claims| && d.claims[c].endpoint != 0
             && d.claims[c].remote
    ensures Denotes(d, d.claims[c].endpoint, Handle(flags, d.claims[c].handle)) == d.claims[c].node != 0
  {
    assert ClaimOk(d.claims[c], d.references, d.nodes, 0);
    hide Linked, Denotes, HasImport;
    ImportDenotes(d, d.nodes, d.claims[c].endpoint, flags, d.claims[c].node, d.claims[c].handle);
  }

  lemma KeptDenotes(d: Device, d': Device, k: Buffer, x: nat)
    requires Inv(d) && Inv(d') && Kept(d, d') && k in d.parcels && k in d'.parcels && x < |d.parcels[k]|
             && d.parcels[k][x].Handle?
    ensures d'.parcels[k] == d.parcels[k] && Denotes(d', k.0, d.parcels[k][x]) == Denotes(d, k.0, d.parcels[k][x])
  {
    hide Inv, Denotes;
    var c := HandleClaim(d, k, x);
    assert d'.claims[c] == d.claims[c];
    ParcelFacts(d', k);
    hide Kept;
    ClaimDenotes(d', c, d.parcels[k][x].flags);
  }

  /** From state `i` to state `n` the buffer is never free. */
  ghost predicate Unfreed(states: seq<Device>, i: nat, n: nat, k: Buffer) {
    i <= n < |states| && forall j {:trigger states[j]} :: i <= j <= n ==> k in states[j].parcels
  }

  lemma UnfreedParts(states: seq<Device>, i: nat, n: nat, k: Buffer)
    requires Unfreed(states, i, n, k)
    ensures i <= n < |states| && k in states[i].parcels && k in states[n].parcels
    ensures i < n ==> Unfreed(states, i, n - 1, k) && k in states[n - 1].parcels
  {
  }

  /** While its buffer is unfreed, every handle in it denotes the node it denoted when it was written. */
  lemma {:induction false} HandlesKeepMeaning(states: seq<Device>, steps: seq<Step>, i: nat, n: nat, k: Buffer, x: nat)
    requires IsRun(states, steps) && Unfreed(states, i, n, k) && x < |states[i].parcels[k]|
             && states[i].parcels[k][x].Handle?
    ensures k in states[n].parcels && states[n].parcels[k] == states[i].parcels[k]
    ensures Denotes(states[n], k.0, states[i].parcels[k][x]) == Denotes(states[i], k.0, states[i].parcels[k][x]) != 0
    decreases n
  {
    UnfreedParts(states, i, n, k);
    hide *;
    if n == i {
      RunInv(states, steps, n);
      var c := HandleClaim(states[i], k, x);
    } else {
      var m := n - 1;
      HandlesKeepMeaning(states, steps, i, m, k, x);
      RunShape(states, steps);
      StepKeepsMeaning(states, steps, m, k, x);
    }
  }

  lemma StepKeepsMeaning(states: seq<Device>, steps: seq<Step>, i: nat, k: Buffer, x: nat)
    requires IsRun(states, steps) && i < |steps| && |states| == |steps| + 1 && k in states[i].parcels
             && k in states[i + 1].parcels
    requires x < |states[i].parcels[k]| && states[i].parcels[k][x].Handle?
    ensures states[i + 1].parcels[k] == states[i].parcels[k]
    ensures Denotes(states[i + 1], k.0, states[i].parcels[k][x]) == Denotes(states[i], k.0, states[i].parcels[k][x])
  {
    hide *;
    RunStep(states, steps, i);
    RunInv(states, steps, i);
    RunInv(states, steps, i + 1);
    StepKept(states[i], steps[i]);
    KeptDenotes(states[i], states[i + 1], k, x);
  }

  // ---- what was sent is what is received ----

  /** Every object of the parcel stands, for its receiver, for the node the sender's object stands for. */
  ghost predicate Says(d: Device, k: Buffer, e: nat, objects: seq<Flat>) {
    && k in d.parcels && |d.parcels[k]| == |objects|
    && forall x {:trigger objects[x]} :: 0 <= x < |objects| ==>
         Denotes(d, k.0, d.parcels[k][x]) == Denotes(d, e, objects[x]) != 0
  }

  lemma DepositSays(d: Device, e: nat, tid: nat, target: nat, slots: seq<Slot>, k: nat, nodeIndex: nat,
      objects: seq<Flat>)
    requires Depositable(d, d.endpoints.Keys, e, target, slots, k, nodeIndex)
    requires Deposit(d, e, tid, target, slots, slots[k], nodeIndex, objects).Ready?
    ensures Says(Deposit(d, e, tid, target, slots, slots[k], nodeIndex, objects).d, (target, slots[k].address), e,
            objects)
    ensures Deposit(d, e, tid, target, slots, slots[k], nodeIndex, objects).slot == slots[k]
  {
    var slot, tokens := slots[k], d.endpoints.Keys;
    var ready := Prepare(d, target, slot, slots, nodeIndex);
    PrepareLife(d, tokens, target, slot, slots, nodeIndex);
    var sent := Translate(ready.d, e, tid, target, slot.address, objects);
    TranslationPreservesMeaning(ready.d, tokens, e, tid, target, slot.address, objects);
    var r := Deposit(d, e, tid, target, slots, slot, nodeIndex, objects).d;
    hide Prepare, Translate, LifeOk, Grown, NoGarbage;
    forall x | 0 <= x < |objects| ensures Denotes(r, target, sent.objects[x]) == Denotes(r, e, objects[x]) != 0 {
      SameTablesDenote(sent.d, r, target, sent.objects[x]);
      SameTablesDenote(sent.d, r, e, objects[x]);
    }
  }

  /** Denotation depends on identities, owners and references only. */
  lemma SameTablesDenote(d: Device, d': Device, e: nat, item: Flat)
    requires d'.references == d.references && |d'.nodes| == |d.nodes|
    requires forall k {:trigger d'.nodes[k]} :: 0 <= k < |d.nodes| ==>
               d'.nodes[k].(asyncBuffer := 0) == d.nodes[k].(asyncBuffer := 0)
    ensures Denotes(d', e, item) == Denotes(d, e, item)
  {
    if item.Binder? { SameOwned(d.nodes, d'.nodes, e, item.pointer, 0); }
  }

  lemma {:induction false} SameOwned(nodes: seq<Node>, nodes': seq<Node>, e: nat, pointer: u64, i: nat)
    requires i <= |nodes| == |nodes'|
    requires forall k {:trigger nodes'[k]} :: 0 <= k < |nodes| ==>
               nodes'[k].(asyncBuffer := 0) == nodes[k].(asyncBuffer := 0)
    ensures OwnedNode(nodes', e, pointer, i) == OwnedNode(nodes, e, pointer, i)
    decreases |nodes| - i
  {
    if i < |nodes| {
      assert Owns(nodes'[i], e, pointer) <==> Owns(nodes[i], e, pointer);
      SameOwned(nodes, nodes', e, pointer, i + 1);
    }
  }

  lemma ReserveSays(d: Device, e: nat, tid: nat, target: nat, input: Packet, payload: Payload, nodeIndex: nat)
    requires Inv(d) && e in d.endpoints && target in d.endpoints
    requires Laid(d.endpoints[target].slots, d.endpoints[target].base, d.endpoints[target].size)
             || d.endpoints[target].watch != 3
    requires d.endpoints[target].watch == 3 ==> d.endpoints[target].mappedOnce
    requires nodeIndex < |d.nodes| ==> d.nodes[nodeIndex].id != 0 && d.nodes[nodeIndex].owner == target
    requires ReservePayload(d, e, tid, target, input, payload, nodeIndex).Ready?
    ensures var r := ReservePayload(d, e, tid, target, input, payload, nodeIndex);
            payload.Objects? && Says(r.d, (target, r.slot.address), e, payload.objects)
  {
    var r := ReservePayload(d, e, tid, target, input, payload, nodeIndex);
    var ep := d.endpoints[target];
    var place := Reserve(ep.slots, ep.base, ep.size, PACKET_LIMIT, input.dataSize, input.offsetsSize, 0, false);
    assert place.Placed? && r == Deposit(d, e, tid, target, place.slots, place.slots[place.index], nodeIndex,
           payload.objects);
    hide ReservePayload, Deposit, Inv, Reserve, Laid, Says;
    PlaceIsDepositable(d, e, target, input.dataSize, input.offsetsSize, nodeIndex);
    hide Depositable, Added, EndpointsOk, ObjectsOk;
    DepositSays(d, e, tid, target, place.slots, place.index, nodeIndex, payload.objects);
  }

  lemma QueuedSays(d: Device, r: Device, k: Buffer, e: nat, objects: seq<Flat>)
    requires Says(d, k, e, objects) && SameParcels(d, r) && r.references == d.references && |r.nodes| == |d.nodes|
    requires forall i {:trigger r.nodes[i]} :: 0 <= i < |d.nodes| ==>
               r.nodes[i].(asyncBuffer := 0) == d.nodes[i].(asyncBuffer := 0)
    ensures Says(r, k, e, objects)
  {
    hide Denotes;
    forall x | 0 <= x < |objects| ensures Denotes(r, k.0, r.parcels[k][x]) == Denotes(r, e, objects[x]) != 0 {
      SameTablesDenote(d, r, k.0, d.parcels[k][x]);
      SameTablesDenote(d, r, e, objects[x]);
    }
  }

  lemma AcceptQueues(d: Device, e: nat, tid: nat, target: nat, index: nat, value: Packet, k: Buffer, objects: seq<Flat>)
    requires (e, tid) in d.threads && Says(d, k, e, objects) && k == (target, value.dataBuffer)
    ensures index < |d.transactions| ==> Sent(d, AcceptCall(d, e, tid, target, index, value), e, objects)
    ensures index < |d.nodes| ==> Sent(d, AcceptOneWay(d, e, tid, target, index, value), e, objects)
    ensures index < |d.transactions| && (d.transactions[index].source, d.transactions[index].sourceTid) in d.threads
            && d.transactions[index].source == target ==>
              Sent(d, AcceptReply(d, e, tid, index, value), e, objects)
  {
    hide Says;
    if index < |d.transactions| {
      QueuedSays(d, AcceptCall(d, e, tid, target, index, value), k, e, objects);
      if (d.transactions[index].source, d.transactions[index].sourceTid) in d.threads {
        QueuedSays(d, AcceptReply(d, e, tid, index, value), k, e, objects);
      }
    }
    if index < |d.nodes| { QueuedSays(d, AcceptOneWay(d, e, tid, target, index, value), k, e, objects); }
  }

  /** One more parcel is queued, and it says what its sender said. */
  ghost predicate Sent(d: Device, d': Device, e: nat, objects: seq<Flat>) {
    && |d'.work| == |d.work| + 1
    && Says(d', (d'.work[|d.work|].endpoint, d'.work[|d.work|].value.dataBuffer), e, objects)
  }

  lemma SentFrom(d: Device, d1: Device, d': Device, e: nat, objects: seq<Flat>)
    requires Sent(d1, d', e, objects) && d1.work == d.work
    ensures Sent(d, d', e, objects)
  {
    hide Says;
  }

  lemma CallSays(d: Device, e: nat, tid: nat, input: Packet, payload: Payload)
    requires Inv(d) && (e, tid) in d.threads && e in d.endpoints && ArenasLaid(d.endpoints)
    requires CallCommand(d, e, tid, input, payload).0.work != d.work
    ensures payload.Objects? && Sent(d, CallCommand(d, e, tid, input, payload).0, e, payload.objects)
  {
    hide RouteCall, Inv, Laid, ReservePayload, Says, Sent;
    var route := RouteCall(d, e, tid, input);
    if route.Halt? {
      HaltKeepsQueue(d, e, tid, input);
    } else {
      ReceiverParts(d, route.target);
      var ready := ReservePayload(d, e, tid, route.target, input, payload, route.nodeIndex);
      ReservePayloadEffect(d, e, tid, route.target, input, payload, route.nodeIndex);
      if ready.Ready? {
        ReserveSays(d, e, tid, route.target, input, payload, route.nodeIndex);
        DepositedCalls(d, ready.d, route.target, ready.slot.address, route.nodeIndex);
        var oneway := input.flags % 2 == 1;
        var node, sender := d.nodes[route.nodeIndex], d.endpoints[e];
        var value := Addressed(input, node.pointer, node.cookie, if oneway then 0 else sender.pid, sender.uid,
            ready.slot);
        hide Deposited, AcceptCall, AcceptOneWay;
        AcceptQueues(ready.d, e, tid, route.target, if oneway then route.nodeIndex else route.slot, value,
            (route.target, ready.slot.address), payload.objects);
        SentFrom(d, ready.d, CallCommand(d, e, tid, input, payload).0, e, payload.objects);
      }
    }
  }

  lemma HaltKeepsQueue(d: Device, e: nat, tid: nat, input: Packet)
    requires (e, tid) in d.threads && e in d.endpoints && RouteCall(d, e, tid, input).Halt?
    ensures RouteCall(d, e, tid, input).d.work == d.work
  {
    hide FindReference, NodeFor, FindTransaction;
  }

  lemma ReplySays(d: Device, e: nat, tid: nat, input: Packet, payload: Payload)
    requires Inv(d) && (e, tid) in d.threads && e in d.endpoints && ArenasLaid(d.endpoints)
    requires ReplyCommand(d, e, tid, input, payload).0.work != d.work
    ensures payload.Objects? && Sent(d, ReplyCommand(d, e, tid, input, payload).0, e, payload.objects)
  {
    hide Inv, Laid, FindTransaction, Says, Sent;
    var th := d.threads[(e, tid)];
    if th.incoming != 0 {
      ServedCall(d, e, tid);
      var slot := FindTransaction(d.transactions, th.incoming);
      var t := d.transactions[slot];
      ReceiverParts(d, t.source);
      var ready := ReservePayload(d, e, tid, t.source, input, payload, |d.nodes|);
      ReservePayloadEffect(d, e, tid, t.source, input, payload, |d.nodes|);
      hide ReservePayload;
      if ready.Ready? {
        ReserveSays(d, e, tid, t.source, input, payload, |d.nodes|);
        DepositedCalls(d, ready.d, t.source, ready.slot.address, |d.nodes|);
        hide Deposited, AcceptReply;
        var value := Addressed(input, 0, 0, 0, d.endpoints[e].uid, ready.slot);
        AcceptQueues(ready.d, e, tid, t.source, slot, value, (t.source, ready.slot.address), payload.objects);
        SentFrom(d, ready.d, ReplyCommand(d, e, tid, input, payload).0, e, payload.objects);
      }
    }
  }

  /** The objects of a call or reply command. */
  predicate Sends(s: Step, objects: seq<Flat>) {
    s.Write? && ((s.command.Call? && s.command.payload == Objects(objects))
        || (s.command.Reply? && s.command.payload == Objects(objects)))
  }

  /** Whatever happens after a call or reply was accepted, until its buffer is freed each handle in it denotes for the
      receiver the node that the sender's object denoted when it was sent. */
  lemma SentMeaningLasts(states: seq<Device>, steps: seq<Step>, i: nat, n: nat, objects: seq<Flat>, x: nat)
    requires IsRun(states, steps) && |states| == |steps| + 1 && i < |steps| && i < n && Sends(steps[i], objects)
             && x < |objects|
    requires states[i + 1].work != states[i].work && |states[i].work| < |states[i + 1].work|
    requires var w := states[i + 1].work[|states[i].work|]; Unfreed(states, i + 1, n, (w.endpoint, w.value.dataBuffer))
    ensures var w := states[i + 1].work[|states[i].work|];
            var k := (w.endpoint, w.value.dataBuffer);
            && n < |states| && k in states[n].parcels && |states[n].parcels[k]| == |objects|
            && (states[n].parcels[k][x].Handle? ==>
                  Denotes(states[n], w.endpoint, states[n].parcels[k][x])
                      == Denotes(states[i + 1], steps[i].token, objects[x]) != 0)
  {
    var w := states[i + 1].work[|states[i].work|];
    var k := (w.endpoint, w.value.dataBuffer);
    UnfreedParts(states, i + 1, n, k);
    hide IsRun, Denotes, Unfreed;
    StepSays(states, steps, i, objects);
    assert Says(states[i + 1], k, steps[i].token, objects);
    SameObjectsLater(states, steps, i + 1, n, k);
    if states[i + 1].parcels[k][x].Handle? { HandlesKeepMeaning(states, steps, i + 1, n, k, x); }
  }

  lemma StepSays(states: seq<Device>, steps: seq<Step>, i: nat, objects: seq<Flat>)
    requires IsRun(states, steps) && |states| == |steps| + 1 && i < |steps| && Sends(steps[i], objects)
             && states[i + 1].work != states[i].work
    ensures Sent(states[i], states[i + 1], steps[i].token, objects)
  {
    RunStep(states, steps, i);
    RunInv(states, steps, i);
    var d, s := states[i], steps[i];
    hide IsRun, Inv, Next, Enabled, ArenasLaid, Sent, Execute;
    NextIs(d, s);
    ExecuteIs(d, s.token, s.tid, s.command);
    if s.command.Call? {
      CallSays(d, s.token, s.tid, s.command.input, s.command.payload);
    } else {
      ReplySays(d, s.token, s.tid, s.command.input, s.command.payload);
    }
  }

  lemma {:induction false} SameObjectsLater(states: seq<Device>, steps: seq<Step>, i: nat, n: nat, k: Buffer)
    requires IsRun(states, steps) && |states| == |steps| + 1 && Unfreed(states, i, n, k)
    ensures i <= n < |states| && k in states[i].parcels && k in states[n].parcels
            && states[n].parcels[k] == states[i].parcels[k]
    decreases n
  {
    UnfreedParts(states, i, n, k);
    hide *;
    if i < n {
      SameObjectsLater(states, steps, i, n - 1, k);
      StepKeepsObjects(states, steps, n - 1, k);
    }
  }

  lemma StepKeepsObjects(states: seq<Device>, steps: seq<Step>, i: nat, k: Buffer)
    requires IsRun(states, steps) && i < |steps| && |states| == |steps| + 1 && k in states[i].parcels
             && k in states[i + 1].parcels
    ensures states[i + 1].parcels[k] == states[i].parcels[k]
  {
    hide *;
    RunStep(states, steps, i);
    RunInv(states, steps, i);
    StepKept(states[i], steps[i]);
    KeptObjects(states[i], states[i + 1], k);
  }

  lemma KeptObjects(d: Device, d': Device, k: Buffer)
    requires Kept(d, d') && k in d.parcels && k in d'.parcels
    ensures d'.parcels[k] == d.parcels[k]
  {
  }
}
