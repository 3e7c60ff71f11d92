/** How the device's tables move between deliveries: identities only grow, and nothing changes silently. */
module BinderHistory {
  import opened Base
  import opened BinderArena
  import opened BinderWire
  import opened BinderState
  import opened BinderCommands
  import opened BinderLifetime
  import opened BinderParcels
  import opened BinderBuffers
  import opened BinderCalls
  import opened BinderOneWay
  import opened BinderDeaths
  import opened BinderInvariant
  import opened BinderLifecycle
  import opened BinderTransfer
  import opened BinderRuns

  predicate SameFlags(n: Node, n': Node) {
    n'.hasStrong == n.hasStrong && n'.hasWeak == n.hasWeak && n'.pendingStrong == n.pendingStrong
        && n'.pendingWeak == n.pendingWeak
  }

  predicate NoFlags(n: Node) {
    !n.hasStrong && !n.hasWeak && !n.pendingStrong && !n.pendingWeak
  }

  /** The delivered buffers a step gives back. */
  datatype Freed = Nothing | Buffer(endpoint: nat, address: nat) | Process(endpoint: nat)

  predicate Frees(f: Freed, e: nat, b: nat) {
    match f
    case Nothing => false
    case Buffer(endpoint, address) => e == endpoint && b == address
    case Process(endpoint) => e == endpoint
  }

  ghost predicate HoldsKept(eps: Endpoints, eps': Endpoints, f: Freed) {
    forall e, b {:trigger Holds(eps, e, b, true)} {:trigger Holds(eps', e, b, true)} ::
      Holds(eps, e, b, true) && !Frees(f, e, b) ==> Holds(eps', e, b, true)
  }

  /** Without a callback a node keeps its flags, dies, is collected, or is a new one; it moves on to another
      one-way parcel only from none or from a freed one. */
  predicate NodeMove(n: Node, n': Node, next: nat, next': nat, f: Freed) {
    || n'.id == 0
    || (n'.id == n.id && n'.owner == n.owner && n'.manager == n.manager && (n'.dead || (!n.dead && SameFlags(n, n')))
        && (n'.asyncBuffer == n.asyncBuffer || n.asyncBuffer == 0 || Frees(f, n.owner, n.asyncBuffer)))
    || (next <= n'.id < next' && (n'.manager || n'.dead || NoFlags(n')))
  }

  /** The states a subscription may pass through without a notice being delivered. */
  predicate Silently(s: DeathState, s': DeathState) {
    match s'
    case Armed => s.Armed?
    case DeathQueued => s.Armed? || s.DeathQueued?
    case DeathDelivered => s.DeathDelivered?
    case DeathAcknowledged => s.DeathDelivered? || s.DeathAcknowledged?
    case ClearQueued => true
  }

  predicate DeathMove(a: Death, b: Death, next: nat, next': nat) {
    || b.endpoint == 0
    || (a.endpoint != 0 && b.serial == a.serial && b.owner == a.owner && Silently(a.state, b.state))
    || (next <= b.serial < next' && !b.state.DeathDelivered? && !b.state.DeathAcknowledged?)
  }

  predicate CallMove(t: Transaction, t': Transaction, next: nat, next': nat) {
    t'.id == 0 || (t'.id == t.id && t'.source == t.source && t'.sourceTid == t.sourceTid && t'.target == t.target)
        || next <= t'.id < next'
  }

  ghost predicate NodesMove(nodes: seq<Node>, nodes': seq<Node>, next: nat, next': nat, f: Freed) {
    |nodes'| == |nodes| && next <= next' && forall k {:trigger nodes'[k]} :: 0 <= k < |nodes| ==>
          NodeMove(nodes[k], nodes'[k], next, next', f)
  }

  ghost predicate DeathsMove(deaths: seq<Death>, deaths': seq<Death>, next: nat, next': nat) {
    |deaths'| == |deaths| && next <= next' && forall k {:trigger deaths'[k]} :: 0 <= k < |deaths| ==>
          DeathMove(deaths[k], deaths'[k], next, next')
  }

  ghost predicate CallsMove(ts: seq<Transaction>, ts': seq<Transaction>, next: nat, next': nat) {
    |ts'| == |ts| && next <= next' && forall k {:trigger ts'[k]} :: 0 <= k < |ts| ==>
          CallMove(ts[k], ts'[k], next, next')
  }

  /** Between deliveries, acknowledgements and opens. */
  ghost predicate Quiet(d: Device, d': Device, f: Freed := Nothing) {
    && NodesMove(d.nodes, d'.nodes, d.nextNode, d'.nextNode, f) && HoldsKept(d.endpoints, d'.endpoints, f)
    && DeathsMove(d.deaths, d'.deaths, d.nextSerial, d'.nextSerial)
    && CallsMove(d.transactions, d'.transactions, d.nextTransaction, d'.nextTransaction)
    && d'.nextToken == d.nextToken && d'.endpoints.Keys <= d.endpoints.Keys
  }

  lemma NodesMoveTransitive(a: seq<Node>, b: seq<Node>, c: seq<Node>, x: nat, y: nat, z: nat, f: Freed)
    requires NodesMove(a, b, x, y, f) && NodesMove(b, c, y, z, f)
    ensures NodesMove(a, c, x, z, f)
  {
    forall k | 0 <= k < |a| ensures NodeMove(a[k], c[k], x, z, f) {
      assert NodeMove(a[k], b[k], x, y, f);
    }
  }

  lemma DeathsMoveTransitive(a: seq<Death>, b: seq<Death>, c: seq<Death>, x: nat, y: nat, z: nat)
    requires DeathsMove(a, b, x, y) && DeathsMove(b, c, y, z)
    ensures DeathsMove(a, c, x, z)
  {
    forall k | 0 <= k < |a| ensures DeathMove(a[k], c[k], x, z) {
      assert DeathMove(a[k], b[k], x, y);
    }
  }

  lemma CallsMoveTransitive(a: seq<Transaction>, b: seq<Transaction>, c: seq<Transaction>, x: nat, y: nat, z: nat)
    requires CallsMove(a, b, x, y) && CallsMove(b, c, y, z)
    ensures CallsMove(a, c, x, z)
  {
    forall k | 0 <= k < |a| ensures CallMove(a[k], c[k], x, z) {
      assert CallMove(a[k], b[k], x, y);
    }
  }

  /** Freeing less is also freeing more. */
  lemma QuietWeaken(d: Device, d': Device, f: Freed)
    requires Quiet(d, d')
    ensures Quiet(d, d', f)
  {
    hide DeathsMove, CallsMove, Holds;
    forall k | 0 <= k < |d.nodes| ensures NodeMove(d.nodes[k], d'.nodes[k], d.nextNode, d'.nextNode, f) {
      assert NodeMove(d.nodes[k], d'.nodes[k], d.nextNode, d'.nextNode, Nothing);
    }
  }

  lemma QuietTransitive(a: Device, b: Device, c: Device, f: Freed := Nothing)
    requires Quiet(a, b, f) && Quiet(b, c, f)
    ensures Quiet(a, c, f)
  {
    hide NodesMove, DeathsMove, CallsMove, Holds, Frees;
    NodesMoveTransitive(a.nodes, b.nodes, c.nodes, a.nextNode, b.nextNode, c.nextNode, f);
    DeathsMoveTransitive(a.deaths, b.deaths, c.deaths, a.nextSerial, b.nextSerial, c.nextSerial);
    CallsMoveTransitive(a.transactions, b.transactions, c.transactions, a.nextTransaction, b.nextTransaction,
        c.nextTransaction);
  }

  // ---- claims and queued work ----

  lemma CollectMoves(nodes: seq<Node>, refs: seq<Reference>, claims: seq<Claim>, next: nat)
    ensures NodesMove(nodes, Collect(nodes, refs, claims), next, next, Nothing)
  {
    hide Garbage;
  }

  lemma UnclaimQuiet(d: Device, e: nat, b: nat)
    requires e != 0
    ensures Quiet(d, Unclaim(d, e, b)) && Unclaim(d, e, b).work == d.work
  {
    var t := ReleaseClaims(TablesOf(d), e, b);
    ReleaseClaimsEffect(TablesOf(d), e, b, 0);
    hide ReleaseClaims;
    CollectMoves(d.nodes, t.references, t.claims, d.nextNode);
    hide Collect;
  }

  lemma DropWorkQuiet(d: Device, j: nat)
    requires j < |d.work| && d.work[j].endpoint != 0
    ensures Quiet(d, DropWork(d, j)) && DropWork(d, j).work == RemoveAt(d.work, j)
  {
    var w := d.work[j];
    var c := CancelBuffer(d, w.endpoint, w.value.dataBuffer);
    CancelBufferQuiet(d, w.endpoint, w.value.dataBuffer);
    UnclaimQuiet(c, w.endpoint, w.value.dataBuffer);
    hide Unclaim, CancelBuffer;
    QuietTransitive(d, c, Unclaim(c, w.endpoint, w.value.dataBuffer));
    hide *;
    DropWorkIs(d, j);
    SameTablesQuiet(d, Unclaim(c, w.endpoint, w.value.dataBuffer), DropWork(d, j));
  }

  lemma CancelBufferQuiet(d: Device, e: nat, b: nat)
    ensures Quiet(d, CancelBuffer(d, e, b)) && CancelBuffer(d, e, b).work == d.work
  {
    if e in d.endpoints {
      var eps := d.endpoints[e := d.endpoints[e].(slots := Remove(d.endpoints[e].slots, b, false).0)];
      RemoveKeepsHeld(d.endpoints, eps, e, b, false, Nothing);
    }
    hide Remove, Holds;
  }

  lemma DropWorkIs(d: Device, j: nat)
    requires j < |d.work|
    ensures var w := d.work[j];
            DropWork(d, j) == Unclaim(CancelBuffer(d, w.endpoint, w.value.dataBuffer), w.endpoint,
                w.value.dataBuffer).(work := RemoveAt(d.work, j))
  {
    hide Unclaim, CancelBuffer;
  }

  ghost predicate SameTables(d: Device, d': Device) {
    && d'.nodes == d.nodes && d'.nextNode == d.nextNode && d'.deaths == d.deaths && d'.nextSerial == d.nextSerial
    && d'.transactions == d.transactions && d'.nextTransaction == d.nextTransaction
    && d'.endpoints.Keys == d.endpoints.Keys && d'.nextToken == d.nextToken
    && forall e {:trigger d'.endpoints[e]} :: e in d'.endpoints ==> d'.endpoints[e].slots == d.endpoints[e].slots
  }

  lemma SameTablesQuiet(d: Device, d1: Device, d2: Device)
    requires Quiet(d, d1) && SameTables(d1, d2)
    ensures Quiet(d, d2)
  {
    hide NodesMove, DeathsMove, CallsMove;
  }

  ghost predicate AllPlaced(work: seq<Work>) {
    forall j {:trigger work[j]} :: 0 <= j < |work| ==> work[j].endpoint != 0
  }

  lemma {:induction false} DropWorkOfQuiet(d: Device, x: nat, j: nat)
    requires j <= |d.work| && AllPlaced(d.work)
    ensures Quiet(d, DropWorkOf(d, x, j)) && AllPlaced(DropWorkOf(d, x, j).work)
    decreases |d.work| - j
  {
    if j < |d.work| {
      if d.work[j].transaction == x {
        DropWorkQuiet(d, j);
        assert AllPlaced(DropWork(d, j).work);
        hide Quiet, DropWork;
        DropWorkOfQuiet(DropWork(d, j), x, j);
        QuietTransitive(d, DropWork(d, j), DropWorkOf(d, x, j));
      } else {
        DropWorkOfQuiet(d, x, j + 1);
      }
    }
  }

  lemma {:induction false} DropWorkForQuiet(d: Device, e: nat, tid: nat, j: nat)
    requires j <= |d.work| && AllPlaced(d.work)
    ensures Quiet(d, DropWorkFor(d, e, tid, j))
    decreases |d.work| - j
  {
    if j < |d.work| {
      if d.work[j].endpoint == e && (tid == 0 || d.work[j].tid == tid) {
        DropWorkQuiet(d, j);
        assert AllPlaced(DropWork(d, j).work);
        hide Quiet, DropWork;
        DropWorkForQuiet(DropWork(d, j), e, tid, j);
        QuietTransitive(d, DropWork(d, j), DropWorkFor(d, e, tid, j));
      } else {
        DropWorkForQuiet(d, e, tid, j + 1);
      }
    }
  }

  lemma CancelCallIs(d: Device, i: nat)
    requires i < |d.transactions|
    ensures var t := d.transactions[i];
            var told := d.(threads := OrphanTarget(FailSource(d.threads, t), t));
            var dropped := DropWorkOf(told, t.id);
            dropped.transactions == d.transactions
                && CancelCall(d, i) == dropped.(transactions := d.transactions[i := t.(id := 0)])
  {
    var t := d.transactions[i];
    DropWorkOfKeeps(d.(threads := OrphanTarget(FailSource(d.threads, t), t)), t.id, 0);
    hide DropWorkOf, OrphanTarget, FailSource;
  }

  lemma CancelCallQuiet(d: Device, i: nat)
    requires i < |d.transactions| && AllPlaced(d.work)
    ensures Quiet(d, CancelCall(d, i)) && AllPlaced(CancelCall(d, i).work)
  {
    CancelCallIs(d, i);
    var t := d.transactions[i];
    var told := d.(threads := OrphanTarget(FailSource(d.threads, t), t));
    DropWorkOfQuiet(told, t.id, 0);
    hide DropWorkOf, OrphanTarget, FailSource, CancelCall, NodesMove, DeathsMove;
  }

  lemma {:induction false} CancelCallsQuiet(d: Device, e: nat, tid: nat, i: nat)
    requires i <= |d.transactions| && AllPlaced(d.work)
    ensures Quiet(d, CancelCalls(d, e, tid, i)) && AllPlaced(CancelCalls(d, e, tid, i).work)
    decreases |d.transactions| - i
  {
    if i < |d.transactions| {
      if Involves(d.transactions[i], e, tid) {
        CancelCallQuiet(d, i);
        hide Quiet, CancelCall;
        CancelCallsQuiet(CancelCall(d, i), e, tid, i + 1);
        QuietTransitive(d, CancelCall(d, i), CancelCalls(d, e, tid, i));
      } else {
        CancelCallsQuiet(d, e, tid, i + 1);
      }
    }
  }

  lemma CancelQuiet(d: Device, e: nat, tid: nat)
    requires AllPlaced(d.work)
    ensures Quiet(d, Cancel(d, e, tid))
  {
    CancelCallsQuiet(d, e, tid, 0);
    var d1 := CancelCalls(d, e, tid);
    DropWorkForQuiet(d1, e, tid, 0);
    hide Quiet, CancelCalls, DropWorkFor;
    QuietTransitive(d, d1, Cancel(d, e, tid));
  }

  lemma ThreadExitQuiet(d: Device, e: nat, tid: nat)
    requires AllPlaced(d.work)
    ensures Quiet(d, ThreadExit(d, e, tid))
  {
    CancelQuiet(d, e, tid);
    var d1 := Cancel(d, e, tid);
    hide Cancel;
    assert Quiet(d1, ThreadExit(d, e, tid));
    hide Quiet, ThreadExit;
    QuietTransitive(d, d1, ThreadExit(d, e, tid));
  }

  lemma ReleaseReferencesQuiet(d: Device, token: nat)
    ensures Quiet(d, ReleaseReferences(d, token))
  {
    var r := ReleaseReferences(d, token);
    var nodes := seq(|d.nodes|, k requires 0 <= k < |d.nodes| => ReleasedNode(d.nodes[k], token));
    assert NodesMove(d.nodes, nodes, d.nextNode, d.nextNode, Nothing);
    CollectMoves(nodes, r.references, d.claims, d.nextNode);
    NodesMoveTransitive(d.nodes, nodes, r.nodes, d.nextNode, d.nextNode, d.nextNode, Nothing);
    hide NodesMove, Collect;
  }

  lemma ReleaseEndpointQuiet(d: Device, token: nat)
    requires AllPlaced(d.work) && token != 0
    ensures Quiet(d, ReleaseEndpoint(d, token), Process(token))
  {
    CancelQuiet(d, token, 0);
    var d1 := Cancel(d, token, 0);
    ReleaseReferencesQuiet(d1, token);
    var d2 := ReleaseReferences(d1, token);
    UnclaimQuiet(d2, token, 0);
    var d3 := Unclaim(d2, token, 0);
    hide Cancel, ReleaseReferences, Unclaim;
    assert Quiet(d3, ReleaseEndpoint(d, token), Process(token));
    hide Quiet, ReleaseEndpoint;
    QuietTransitive(d, d1, d2);
    QuietTransitive(d, d2, d3);
    QuietWeaken(d, d3, Process(token));
    QuietTransitive(d, d3, ReleaseEndpoint(d, token), Process(token));
  }

  // ---- commands ----

  lemma AdjustReferenceQuiet(d: Device, i: nat, increment: bool, strong: bool)
    requires i < |d.references|
    ensures Quiet(d, AdjustReference(d, i, increment, strong).0)
  {
    var r := AdjustReference(d, i, increment, strong).0;
    CollectMoves(d.nodes, r.references, d.claims, d.nextNode);
    hide Collect;
  }

  lemma ReferenceCommandQuiet(d: Device, e: nat, increment: bool, strong: bool, handle: u32)
    ensures Quiet(d, ReferenceCommand(d, e, increment, strong, handle).0)
  {
    hide Quiet, AdjustReference;
    assert Quiet(d, d) by { SameQuiet(d, d); }
    forall refs: seq<Reference>, i: nat | i < |refs|
      ensures Quiet(d, AdjustReference(d.(references := refs), i, increment, strong).0)
    {
      AdjustReferenceQuiet(d.(references := refs), i, increment, strong);
      SameQuiet(d, d.(references := refs));
      QuietTransitive(d, d.(references := refs), AdjustReference(d.(references := refs), i, increment, strong).0);
    }
    assert d.(references := d.references) == d;
  }

  lemma SameQuiet(d: Device, d': Device)
    requires SameTables(d, d')
    ensures Quiet(d, d')
  {
  }

  lemma SameQuietSelf(d: Device)
    ensures Quiet(d, d)
  {
    SameQuiet(d, d);
  }

  lemma DeathCommandQuiet(d: Device, e: nat, tid: nat, handle: u32, cookie: u64)
    requires (e, tid) in d.threads && e != 0
    ensures Quiet(d, RequestDeathCommand(d, e, handle, cookie).0)
    ensures Quiet(d, ClearDeathCommand(d, e, tid, handle, cookie).0)
    ensures Quiet(d, DeathDoneCommand(d, e, tid, cookie).0)
  {
    hide FindReference, FreeDeath, DeliveredDeath;
    assert NodesMove(d.nodes, d.nodes, d.nextNode, d.nextNode, Nothing);
    assert CallsMove(d.transactions, d.transactions, d.nextTransaction, d.nextTransaction);
    hide NodesMove, CallsMove;
  }

  lemma FreeQuiet(d: Device, e: nat, buffer: nat)
    requires e in d.endpoints && e != 0
    ensures Quiet(d, FreeCommand(d, e, buffer).0, Buffer(e, buffer)) && FreeCommand(d, e, buffer).0.work == d.work
  {
    var f := Buffer(e, buffer);
    var (slots, code) := Remove(d.endpoints[e].slots, buffer, true);
    if code == 0 {
      var d1 := d.(endpoints := d.endpoints[e := d.endpoints[e].(slots := slots)], parcels := d.parcels - {(e, buffer)},
                   nodes := AdvanceAsync(d.nodes, d.work, e, buffer));
      RemoveKeepsHeld(d.endpoints, d1.endpoints, e, buffer, true, f);
      assert Quiet(d, d1, f) by { hide Remove, Holds; }
      UnclaimQuiet(d1, e, buffer);
      assert FreeCommand(d, e, buffer).0 == Unclaim(d1, e, buffer);
      hide Unclaim, Quiet;
      QuietWeaken(d1, Unclaim(d1, e, buffer), f);
      QuietTransitive(d, d1, Unclaim(d1, e, buffer), f);
    } else {
      SameQuiet(d, d);
      QuietWeaken(d, d, f);
    }
  }

  /** Removing a slot takes at most the one buffer away, and cancelling none that was delivered. */
  lemma RemoveKeepsHeld(eps: Endpoints, eps': Endpoints, e: nat, b: nat, delivered: bool, f: Freed)
    requires e in eps && eps' == eps[e := eps[e].(slots := Remove(eps[e].slots, b, delivered).0)]
             && (delivered ==> f == Buffer(e, b))
    ensures HoldsKept(eps, eps', f)
  {
    forall x, a | Holds(eps, x, a, true) && !Frees(f, x, a) ensures Holds(eps', x, a, true) {
      if x == e {
        var slots := eps[e].slots;
        var i :| 0 <= i < |slots| && slots[i].address == a && slots[i].delivered;
        var k := FindSlot(slots, b);
        var slots' := eps'[e].slots;
        if slots' != slots {
          assert i != k;
          assert slots'[if i < k then i else i - 1] == slots[i];
        }
      }
    }
  }

  /** A parcel sent one way goes to a live node of its receiver. */
  ghost predicate SentTo(nodes: seq<Node>, w: Work) {
    w.asyncNode != 0 ==>
          exists k :: 0 <= k < |nodes| && nodes[k].id == w.asyncNode && !nodes[k].dead && nodes[k].owner == w.endpoint
  }

  ghost predicate Queues(d: Device, work': seq<Work>) {
    work' == d.work || (|work'| == |d.work| + 1 && work'[..|d.work|] == d.work && SentTo(d.nodes, work'[|d.work|]))
  }

  lemma DepositedQuiet(d: Device, d': Device, target: nat, b: nat, nodeIndex: nat)
    requires Deposited(d, d', target, b, nodeIndex)
    ensures Quiet(d, d') && d'.work == d.work && d'.threads == d.threads && d'.transactions == d.transactions
            && |d'.nodes| == |d.nodes|
    ensures d'.nextTransaction == d.nextTransaction
    ensures forall i {:trigger d'.nodes[i]} :: 0 <= i < |d.nodes| && d.nodes[i].id != 0 ==> d'.nodes[i] == d.nodes[i]
  {
    assert forall k {:trigger d'.nodes[k]} :: 0 <= k < |d'.nodes| ==> d'.nodes[k].id < d'.nextNode by {
      hide Linked, NoGarbage, Covered, EndpointsOk, Added;
      forall k | 0 <= k < |d'.nodes|
        ensures d'.nodes[k].id < d'.nextNode
      {
        assert NodeOk(d'.nodes[k], d'.nextNode, d.endpoints.Keys);
      }
    }
    hide ObjectsOk, Covered, EndpointsOk, Holds;
  }

  lemma ErrorQuiet(d: Device, r: Device)
    requires r == d.(threads := r.threads, nextNode := r.nextNode) && d.nextNode <= r.nextNode
    ensures Quiet(d, r) && Queues(d, r.work)
  {
  }

  lemma CallEffect(d: Device, e: nat, tid: nat, input: Packet, payload: Payload)
    requires Inv(d) && (e, tid) in d.threads && e in d.endpoints && ArenasLaid(d.endpoints)
    ensures var r := CallCommand(d, e, tid, input, payload).0; Quiet(d, r) && Queues(d, r.work)
  {
    hide *;
    var c := CallCases(d, e, tid, input, payload);
    var r := CallCommand(d, e, tid, input, payload).0;
    if c.Uncarried? {
      ErrorQuiet(d, r);
    } else {
      DepositedQuiet(d, c.mid, c.target, c.value.dataBuffer, c.nodeIndex);
      if c.OneWay? {
        AcceptOneWayQuiet(d, c.mid, e, tid, c.target, c.nodeIndex, c.value);
      } else {
        AcceptCallQuiet(d, c.mid, e, tid, c.target, c.slot, c.value);
      }
    }
  }

  lemma RefuseQuiet(d: Device, d': Device, e: nat, tid: nat, errno: int)
    requires d' == d.(nextNode := d'.nextNode) && d.nextNode <= d'.nextNode && (e, tid) in d'.threads
    ensures Quiet(d, Refuse(d', e, tid, errno).0) && Refuse(d', e, tid, errno).0.work == d.work
  {
  }

  lemma AcceptOneWayQuiet(d: Device, d': Device, e: nat, tid: nat, target: nat, nodeIndex: nat, value: Packet)
    requires Quiet(d, d') && d'.work == d.work && (e, tid) in d'.threads && nodeIndex < |d.nodes| == |d'.nodes|
             && d'.nodes[nodeIndex] == d.nodes[nodeIndex]
    requires d.nodes[nodeIndex].id != 0 && !d.nodes[nodeIndex].dead && d.nodes[nodeIndex].owner == target
    ensures var r := AcceptOneWay(d', e, tid, target, nodeIndex, value); Quiet(d, r) && Queues(d, r.work)
  {
    var r := AcceptOneWay(d', e, tid, target, nodeIndex, value);
    assert Quiet(d', r);
    assert r.work[..|d.work|] == d.work;
    hide Quiet;
    QuietTransitive(d, d', r);
  }

  lemma AcceptCallQuiet(d: Device, d': Device, e: nat, tid: nat, target: nat, slot: nat, value: Packet)
    requires Quiet(d, d') && d'.work == d.work && (e, tid) in d'.threads && slot < |d'.transactions|
    ensures var r := AcceptCall(d', e, tid, target, slot, value); Quiet(d, r) && Queues(d, r.work)
  {
    var r := AcceptCall(d', e, tid, target, slot, value);
    assert Quiet(d', r);
    assert r.work[..|d.work|] == d.work;
    hide Quiet;
    QuietTransitive(d, d', r);
  }

  lemma AcceptReplyQuiet(d: Device, d': Device, e: nat, tid: nat, slot: nat, value: Packet)
    requires Quiet(d, d') && d'.work == d.work && (e, tid) in d'.threads && slot < |d'.transactions|
    requires (d'.transactions[slot].source, d'.transactions[slot].sourceTid) in d'.threads
    ensures var r := AcceptReply(d', e, tid, slot, value); Quiet(d, r) && Queues(d, r.work)
  {
    var r := AcceptReply(d', e, tid, slot, value);
    assert Quiet(d', r);
    assert r.work[..|d.work|] == d.work;
    hide Quiet;
    QuietTransitive(d, d', r);
  }

  lemma ReplyEffect(d: Device, e: nat, tid: nat, input: Packet, payload: Payload)
    requires Inv(d) && (e, tid) in d.threads && e in d.endpoints && ArenasLaid(d.endpoints)
    ensures var r := ReplyCommand(d, e, tid, input, payload).0; Quiet(d, r) && Queues(d, r.work)
  {
    hide Quiet, Inv, Laid;
    SameQuiet(d, d);
    var th := d.threads[(e, tid)];
    if input.flags in {0, 16} && Admissible(d, th) {
      if th.deadReply {
        SameQuiet(d, d.(threads := d.threads[(e, tid) := th.(deadReply := false, error := BR_DEAD_REPLY)]));
      } else if th.incoming != 0 {
        ServedCall(d, e, tid);
        var slot := FindTransaction(d.transactions, th.incoming);
        var t := d.transactions[slot];
        ReceiverParts(d, t.source);
        var ready := ReservePayload(d, e, tid, t.source, input, payload, |d.nodes|);
        ReservePayloadEffect(d, e, tid, t.source, input, payload, |d.nodes|);
        hide ReservePayload;
        if ready.Refused? {
          RefuseQuiet(d, ready.d, e, tid, ready.errno);
        } else {
          DepositedQuiet(d, ready.d, t.source, ready.slot.address, |d.nodes|);
          hide Deposited, AcceptReply;
          AcceptReplyQuiet(d, ready.d, e, tid, slot, Addressed(input, 0, 0, 0, d.endpoints[e].uid, ready.slot));
        }
      }
    }
  }

  // ---- every step but a delivery or an acknowledgement ----

  lemma PlacedWork(d: Device)
    requires Inv(d)
    ensures AllPlaced(d.work) && (forall e :: e in d.endpoints ==> e > 0)
  {
    hide ObjectsOk, CallsOk, AsyncOk, EndpointOk;
    WorkEndpoints(d.endpoints, d.nextToken, d.work);
  }

  lemma ExecuteQuiet(d: Device, e: nat, tid: nat, c: Command)
    requires Inv(d) && e in d.endpoints && (e, tid) in d.threads && ArenasLaid(d.endpoints) && !c.NodeDone?
    ensures Quiet(d, Execute(d, e, tid, c).0, if c.FreeBuffer? then Buffer(e, c.buffer) else Nothing)
  {
    var any: u32 := 0;
    hide *;
    PlacedWork(d);
    ExecuteIs(d, e, tid, c);
    match c
    case EnterLooper => LooperQuiet(d, e, tid);
    case RegisterLooper => LooperQuiet(d, e, tid);
    case ExitLooper => LooperQuiet(d, e, tid);
    case Call(input, payload) => CallEffect(d, e, tid, input, payload);
    case Reply(input, payload) => ReplyEffect(d, e, tid, input, payload);
    case FreeBuffer(buffer) => FreeQuiet(d, e, buffer);
    case AdjustCount(increment, strong, handle) => ReferenceCommandQuiet(d, e, increment, strong, handle);
    case RequestDeath(handle, cookie) => DeathCommandQuiet(d, e, tid, handle, cookie);
    case ClearDeath(handle, cookie) => DeathCommandQuiet(d, e, tid, handle, cookie);
    case DeathDone(cookie) => DeathCommandQuiet(d, e, tid, any, cookie);
  }

  lemma LooperQuiet(d: Device, e: nat, tid: nat)
    requires (e, tid) in d.threads
    ensures forall looper {:trigger SetLooper(d, e, tid, looper)} :: Quiet(d, SetLooper(d, e, tid, looper))
  {
    hide Quiet;
    forall looper ensures Quiet(d, SetLooper(d, e, tid, looper)) { SameQuiet(d, SetLooper(d, e, tid, looper)); }
  }

  /** A new endpoint gets the next token and changes nothing else. */
  lemma OpenEffect(d: Device, s: Step)
    requires s.DoOpen? && ArenasLaid(d.endpoints)
    ensures var r := Next(d, s).d;
            && r.nodes == d.nodes && r.nextNode == d.nextNode && r.deaths == d.deaths && r.nextSerial == d.nextSerial
            && r.transactions == d.transactions && r.nextTransaction == d.nextTransaction && r.work == d.work
            && ((r.nextToken == d.nextToken && r.endpoints == d.endpoints)
                || (r.nextToken == d.nextToken + 1 && r.endpoints.Keys == d.endpoints.Keys + {d.nextToken}))
  {
    hide ArenasLaid;
  }

  lemma SetManagerQuiet(d: Device, e: nat, pointer: u64, cookie: u64, flags: u32)
    requires e in d.endpoints
    ensures Quiet(d, SetManager(d, e, pointer, cookie, flags).0)
  {
    hide FindNode, OwnedNode;
  }

  lemma LifecycleQuiet(d: Device, s: Step)
    requires Inv(d) && Enabled(d, s) && ArenasLaid(d.endpoints) && !s.Read? && !s.Write? && !s.DoOpen?
    ensures Quiet(d, Next(d, s).d, FreedBy(s))
  {
    PlacedWork(d);
    hide Inv, ArenasLaid, ReleaseEndpoint, ThreadExit, SetManager, Open, Quiet;
    if s.DoReap? { ReleaseEndpointQuiet(d, s.token); }
    else if s.Exit? { ThreadExitQuiet(d, s.token, s.tid); }
    else if s.BecomeManager? { SetManagerQuiet(d, s.token, s.pointer, s.cookie, s.flags); }
    else {
      FieldSteps(d, s);
      SameQuiet(d, Next(d, s).d);
    }
  }

  /** Steps that only set fields of an endpoint or a thread. */
  lemma FieldSteps(d: Device, s: Step)
    requires Enabled(d, s) && ArenasLaid(d.endpoints)
             && (s.DoClose? || s.DoMap? || s.WatchChanged? || s.Admit? || s.Settle?)
    ensures SameTables(d, Next(d, s).d) && Next(d, s).d.work == d.work
  {
    hide ArenasLaid;
  }

  /** What a step frees. */
  function FreedBy(s: Step): Freed {
    match s
    case DoReap(token) => Process(token)
    case Write(token, _, FreeBuffer(buffer)) => Buffer(token, buffer)
    case _ => Nothing
  }

  lemma FreedByIs(s: Step)
    ensures s.DoReap? ==> FreedBy(s) == Process(s.token)
    ensures s.Write? && s.command.FreeBuffer? ==> FreedBy(s) == Buffer(s.token, s.command.buffer)
    ensures !s.DoReap? && !(s.Write? && s.command.FreeBuffer?) ==> FreedBy(s) == Nothing
  {
  }

  predicate Acknowledges(s: Step) {
    s.Write? && s.command.NodeDone?
  }

  lemma StepQuiet(d: Device, s: Step)
    requires Inv(d) && Enabled(d, s) && ArenasLaid(d.endpoints) && !s.Read? && !Acknowledges(s) && !s.DoOpen?
    ensures Quiet(d, Next(d, s).d, FreedBy(s))
  {
    hide *;
    NextIs(d, s);
    AcknowledgesIs(s);
    FreedByIs(s);
    if s.Write? { ExecuteQuiet(d, s.token, s.tid, s.command); } else { LifecycleQuiet(d, s); }
  }

  lemma AcknowledgesIs(s: Step)
    ensures Acknowledges(s) <==> s.Write? && s.command.NodeDone?
  {
  }
}
