/** One-way parcels over a run: accepted, delivered and still queued balance, one at a time per node. */
module BinderQueues {
  import opened Base
  import opened BinderArena
  import opened BinderWire
  import opened BinderState
  import opened BinderCommands
  import opened BinderBuffers
  import opened BinderCalls
  import opened BinderOneWay
  import opened BinderInvariant
  import opened BinderTransfer
  import opened BinderRuns
  import opened BinderHistory
  import BinderCallbacks

  // ---- what steps do to the queue of a node ----

  /** One-way parcels belong to no thread and to no transaction. */
  ghost predicate Plain(work: seq<Work>) {
    forall j {:trigger work[j]} :: 0 <= j < |work| && work[j].asyncNode != 0 ==>
          work[j].tid == 0 && work[j].transaction == 0
  }

  lemma {:induction false} DropWorkOfQueue(d: Device, x: nat, j: nat, n: nat)
    requires j <= |d.work| && Plain(d.work) && x != 0 && n != 0
    ensures Plain(DropWorkOf(d, x, j).work) && Pending(DropWorkOf(d, x, j).work, n) == Pending(d.work, n)
    ensures |DropWorkOf(d, x, j).work| <= |d.work|
    decreases |d.work| - j
  {
    if j < |d.work| {
      if d.work[j].transaction == x {
        DropWorkIs(d, j);
        hide DropWork;
        PendingRemove(d.work, j, n);
        DropWorkOfQueue(DropWork(d, j), x, j, n);
      } else {
        DropWorkOfQueue(d, x, j + 1, n);
      }
    }
  }

  /** Of the work dropped for a thread none is one-way; of the work dropped for a process none may be for `n`. */
  lemma {:induction false} DropWorkForQueue(d: Device, e: nat, tid: nat, j: nat, n: nat)
    requires j <= |d.work| && Plain(d.work) && n != 0
    requires tid == 0 ==> forall i {:trigger d.work[i]} :: 0 <= i < |d.work| && d.work[i].asyncNode == n ==>
               d.work[i].endpoint != e
    ensures Pending(DropWorkFor(d, e, tid, j).work, n) == Pending(d.work, n)
            && |DropWorkFor(d, e, tid, j).work| <= |d.work|
    decreases |d.work| - j
  {
    if j < |d.work| {
      if d.work[j].endpoint == e && (tid == 0 || d.work[j].tid == tid) {
        DropWorkIs(d, j);
        hide DropWork;
        PendingRemove(d.work, j, n);
        DropWorkForQueue(DropWork(d, j), e, tid, j, n);
      } else {
        DropWorkForQueue(d, e, tid, j + 1, n);
      }
    }
  }

  lemma {:induction false} CancelCallsQueue(d: Device, e: nat, tid: nat, i: nat, n: nat)
    requires i <= |d.transactions| && Plain(d.work) && n != 0
    ensures var r := CancelCalls(d, e, tid, i);
            Plain(r.work) && Pending(r.work, n) == Pending(d.work, n) && |r.work| <= |d.work|
    decreases |d.transactions| - i
  {
    if i < |d.transactions| {
      if Involves(d.transactions[i], e, tid) {
        CancelCallIs(d, i);
        var t := d.transactions[i];
        DropWorkOfQueue(d.(threads := OrphanTarget(FailSource(d.threads, t), t)), t.id, 0, n);
        hide DropWorkOf, CancelCall, OrphanTarget, FailSource;
        CancelCallsQueue(CancelCall(d, i), e, tid, i + 1, n);
      } else {
        CancelCallsQueue(d, e, tid, i + 1, n);
      }
    }
  }

  /** The parcels for `n` are all queued at `at`, or all elsewhere. */
  ghost predicate Placed(work: seq<Work>, n: nat, at: nat, there: bool) {
    forall i {:trigger work[i]} :: 0 <= i < |work| && work[i].asyncNode == n ==> (work[i].endpoint == at <==> there)
  }

  lemma {:induction false} DropWorkOfPlaced(d: Device, x: nat, j: nat, n: nat, at: nat, there: bool)
    requires j <= |d.work| && Placed(d.work, n, at, there)
    ensures Placed(DropWorkOf(d, x, j).work, n, at, there)
    decreases |d.work| - j
  {
    if j < |d.work| {
      if d.work[j].transaction == x {
        DropWorkIs(d, j);
        hide DropWork;
        DropWorkOfPlaced(DropWork(d, j), x, j, n, at, there);
      } else {
        DropWorkOfPlaced(d, x, j + 1, n, at, there);
      }
    }
  }

  lemma {:induction false} DropWorkForPlaced(d: Device, e: nat, tid: nat, j: nat, n: nat, at: nat, there: bool)
    requires j <= |d.work| && Placed(d.work, n, at, there)
    ensures Placed(DropWorkFor(d, e, tid, j).work, n, at, there)
    decreases |d.work| - j
  {
    if j < |d.work| {
      if d.work[j].endpoint == e && (tid == 0 || d.work[j].tid == tid) {
        DropWorkIs(d, j);
        hide DropWork;
        DropWorkForPlaced(DropWork(d, j), e, tid, j, n, at, there);
      } else {
        DropWorkForPlaced(d, e, tid, j + 1, n, at, there);
      }
    }
  }

  lemma {:induction false} CancelCallsPlaced(d: Device, e: nat, tid: nat, i: nat, n: nat, at: nat, there: bool)
    requires i <= |d.transactions| && Placed(d.work, n, at, there)
    ensures Placed(CancelCalls(d, e, tid, i).work, n, at, there)
    decreases |d.transactions| - i
  {
    if i < |d.transactions| {
      if Involves(d.transactions[i], e, tid) {
        CancelCallIs(d, i);
        var t := d.transactions[i];
        DropWorkOfPlaced(d.(threads := OrphanTarget(FailSource(d.threads, t), t)), t.id, 0, n, at, there);
        hide DropWorkOf, CancelCall, OrphanTarget, FailSource;
        CancelCallsPlaced(CancelCall(d, i), e, tid, i + 1, n, at, there);
      } else {
        CancelCallsPlaced(d, e, tid, i + 1, n, at, there);
      }
    }
  }

  /** A thread leaving, or a process that does not own the node, loses none of the node's parcels. */
  lemma CancelQueue(d: Device, e: nat, tid: nat, n: nat)
    requires Plain(d.work) && n != 0 && (tid == 0 ==> Placed(d.work, n, e, false))
    ensures Pending(Cancel(d, e, tid).work, n) == Pending(d.work, n) && |Cancel(d, e, tid).work| <= |d.work|
  {
    CancelCallsQueue(d, e, tid, 0, n);
    if tid == 0 { CancelCallsPlaced(d, e, tid, 0, n, e, false); }
    hide CancelCalls;
    DropWorkForQueue(CancelCalls(d, e, tid), e, tid, 0, n);
  }

  /** Releasing the owner drops every parcel of the node. */
  lemma CancelOwnQueue(d: Device, e: nat, n: nat)
    requires Inv(d) && Placed(d.work, n, e, true)
    ensures Pending(Cancel(d, e, 0).work, n) == []
  {
    CancelInv(d, e, 0);
    CancelCallsPlaced(d, e, 0, 0, n, e, true);
    DropWorkForPlaced(CancelCalls(d, e, 0), e, 0, 0, n, e, true);
    hide Inv, CancelCalls, DropWorkFor;
    PendingNone(Cancel(d, e, 0).work, n);
  }

  lemma PlainWork(d: Device)
    requires Inv(d)
    ensures Plain(d.work) && Aligned(d.nodes, d.work)
  {
    hide ObjectsOk, BuffersOk, CallsOk, CurrentsOk, HasTarget;
  }

  /** All parcels for a node are queued at its one owner. */
  lemma OneOwner(d: Device, n: nat, token: nat)
    requires Inv(d) && n != 0
    ensures Placed(d.work, n, token, false) || (Placed(d.work, n, token, true) && n < d.nextNode
              && forall k {:trigger d.nodes[k]} :: 0 <= k < |d.nodes| && d.nodes[k].id == n ==>
                   d.nodes[k].owner == token)
  {
    PlainWork(d);
    BinderCallbacks.DistinctNodes(d);
    if !Placed(d.work, n, token, false) {
      var i :| 0 <= i < |d.work| && d.work[i].asyncNode == n && d.work[i].endpoint == token;
      TargetOf(d, i);
      var k :| 0 <= k < |d.nodes| && d.nodes[k].id == n && d.nodes[k].owner == token;
      hide Inv;
      assert forall j {:trigger d.work[j]} :: 0 <= j < |d.work| && d.work[j].asyncNode == n ==>
               d.work[j].endpoint == token;
    }
  }

  lemma TargetOf(d: Device, i: nat)
    requires Inv(d) && i < |d.work| && d.work[i].asyncNode != 0
    ensures exists k ::
              0 <= k < |d.nodes| && d.nodes[k].id == d.work[i].asyncNode && d.nodes[k].owner == d.work[i].endpoint
  {
    hide ObjectsOk, CallsOk, CurrentsOk;
    WorkEndpoints(d.endpoints, d.nextToken, d.work);
    hide BuffersOk, Aligned;
    assert HasTarget(d.nodes, d.claims, d.work[i]);
  }

  // ---- the books of one node ----

  /** What was accepted, delivered and dropped for a node, and which delivered parcels are unfreed. */
  datatype Books = Books(accepted: seq<Packet>, delivered: seq<Packet>, dropped: seq<Packet>, unfreed: seq<(nat, nat)>)

  const EMPTY := Books([], [], [], [])

  /** The node is dead or collected, and its identity is used up. */
  ghost predicate Gone(nodes: seq<Node>, next: nat, n: nat) {
    n < next && forall k {:trigger nodes[k]} :: 0 <= k < |nodes| && nodes[k].id == n ==> nodes[k].dead
  }

  ghost predicate Balanced(nodes: seq<Node>, next: nat, work: seq<Work>, n: nat, b: Books) {
    && b.accepted == b.delivered + b.dropped + Pending(work, n)
    && (b.dropped != [] ==> Pending(work, n) == [] && Gone(nodes, next, n))
  }

  /** At most one parcel is out, it is the node's current one, and its buffer is still held. */
  ghost predicate OneOut(nodes: seq<Node>, next: nat, eps: Endpoints, n: nat, unfreed: seq<(nat, nat)>) {
    && |unfreed| <= 1 && (n >= next ==> unfreed == [])
    && (unfreed != [] ==>
          && unfreed[0].1 != 0 && Holds(eps, unfreed[0].0, unfreed[0].1, true)
          && forall k {:trigger nodes[k]} :: 0 <= k < |nodes| && nodes[k].id == n ==>
               nodes[k].owner == unfreed[0].0 && nodes[k].asyncBuffer == unfreed[0].1)
  }

  ghost predicate InOrder(d: Device, n: nat, b: Books) {
    Balanced(d.nodes, d.nextNode, d.work, n, b) && OneOut(d.nodes, d.nextNode, d.endpoints, n, b.unfreed)
  }

  function StillOut(unfreed: seq<(nat, nat)>, f: Freed): seq<(nat, nat)> {
    if unfreed == [] then []
    else
      var rest := StillOut(unfreed[1..], f);
      if Frees(f, unfreed[0].0, unfreed[0].1) then rest else [unfreed[0]] + rest
  }

  lemma StillOutNone(unfreed: seq<(nat, nat)>)
    ensures StillOut(unfreed, Nothing) == unfreed
  {
  }

  lemma MoveOneOut(nodes: seq<Node>, nodes': seq<Node>, next: nat, next': nat, eps: Endpoints, eps': Endpoints,
      f: Freed, n: nat, unfreed: seq<(nat, nat)>)
    requires OneOut(nodes, next, eps, n, unfreed) && NodesMove(nodes, nodes', next, next', f) && HoldsKept(eps, eps', f)
             && n != 0
    ensures OneOut(nodes', next', eps', n, StillOut(unfreed, f))
  {
    hide Holds;
    if unfreed != [] {
      assert unfreed[1..] == [];
      if !Frees(f, unfreed[0].0, unfreed[0].1) {
        assert StillOut(unfreed, f) == unfreed;
        forall k | 0 <= k < |nodes'| && nodes'[k].id == n
          ensures nodes'[k].owner == unfreed[0].0 && nodes'[k].asyncBuffer == unfreed[0].1
        {
          assert NodeMove(nodes[k], nodes'[k], next, next', f);
        }
      }
    }
  }

  lemma MoveGone(nodes: seq<Node>, nodes': seq<Node>, next: nat, next': nat, f: Freed, n: nat)
    requires Gone(nodes, next, n) && NodesMove(nodes, nodes', next, next', f) && n != 0
    ensures Gone(nodes', next', n)
  {
    forall k | 0 <= k < |nodes'| && nodes'[k].id == n ensures nodes'[k].dead {
      assert NodeMove(nodes[k], nodes'[k], next, next', f);
    }
  }

  // ---- deliveries ----

  function Received(delivered: seq<Delivery>, n: nat): seq<Work> {
    if delivered == [] then []
    else
      var x := delivered[0];
      (if x.Parcel? && x.work.asyncNode == n then [x.work] else []) + Received(delivered[1..], n)
  }

  lemma {:induction false} ReceivedAppend(a: seq<Delivery>, b: seq<Delivery>, n: nat)
    ensures Received(a + b, n) == Received(a, n) + Received(b, n)
  {
    if a == [] {
      assert a + b == b;
    } else {
      ReceivedAppend(a[1..], b, n);
      assert (a + b)[1..] == a[1..] + b && (a + b)[0] == a[0];
      var first := if a[0].Parcel? && a[0].work.asyncNode == n then [a[0].work] else [];
      assert first + (Received(a[1..], n) + Received(b, n)) == (first + Received(a[1..], n)) + Received(b, n);
    }
  }

  lemma ReceivedNothing(x: seq<Delivery>, n: nat)
    requires |x| <= 1 && (x != [] ==> !x[0].Parcel? || x[0].work.asyncNode != n)
    ensures Received(x, n) == []
  {
    if x != [] { assert x[1..] == []; }
  }

  function Values(work: seq<Work>): seq<Packet> {
    seq(|work|, i requires 0 <= i < |work| => work[i].value)
  }

  function Places(work: seq<Work>): seq<(nat, nat)> {
    seq(|work|, i requires 0 <= i < |work| => (work[i].endpoint, work[i].value.dataBuffer))
  }

  /** The books after some deliveries. */
  function Deliver(b: Books, parcels: seq<Work>): Books {
    b.(delivered := b.delivered + Values(parcels), unfreed := b.unfreed + Places(parcels))
  }

  lemma DeliverAppend(b: Books, x: seq<Work>, y: seq<Work>)
    ensures Deliver(Deliver(b, x), y) == Deliver(b, x + y)
  {
    assert b.delivered + Values(x) + Values(y) == b.delivered + Values(x + y);
    assert b.unfreed + Places(x) + Places(y) == b.unfreed + Places(x + y);
  }

  lemma DeliverNothing(b: Books)
    ensures Deliver(b, []) == b
  {
    assert b.delivered + [] == b.delivered && b.unfreed + [] == b.unfreed;
  }

  lemma DeliverWorkIs(d: Device, e: nat, tid: nat, j: nat)
    requires Inv(d) && e in d.endpoints && (e, tid) in d.threads && j < |d.work| && d.work[j].endpoint == e
    ensures var r := DeliverWork(d, e, tid, j);
            && r.d.nodes == d.nodes && r.d.nextNode == d.nextNode && r.d.work == RemoveAt(d.work, j)
            && Shown(d.endpoints, r.d.endpoints, e, d.work[j].value.dataBuffer) && r.delivered == [Parcel(d.work[j])]
  {
    hide ObjectsOk, CallsOk, AsyncOk, Shown, EndpointsOk;
    assert Holds(d.endpoints, e, d.work[j].value.dataBuffer, false);
    ShowBuffer(d.endpoints, d.nextToken, e, d.work[j].value.dataBuffer);
    hide Publish;
  }

  lemma NotBoth(d: Device, e: nat, b: nat)
    requires Inv(d)
    ensures !(Holds(d.endpoints, e, b, true) && Holds(d.endpoints, e, b, false))
  {
    hide ObjectsOk, CallsOk, AsyncOk, Laid;
    if e in d.endpoints && d.endpoints[e].slots != [] {
      HeldOnce(d.endpoints[e].slots, d.endpoints[e].base, d.endpoints[e].size, b);
    }
  }

  lemma DeliverableParts(d: Device, w: Work, e: nat, tid: nat, th: Thread)
    requires Deliverable(d, w, e, tid, th)
    ensures w.endpoint == e
    ensures w.asyncNode != 0 ==>
              exists k ::
                0 <= k < |d.nodes| && d.nodes[k].id == w.asyncNode && d.nodes[k].asyncBuffer == w.value.dataBuffer
  {
    hide AcceptsProcessWork;
  }

  /** The parcel handed out is the node's first queued one, and no other parcel of the node is out. */
  lemma FirstAndOnly(d: Device, j: nat, n: nat, unfreed: seq<(nat, nat)>)
    requires Inv(d) && j < |d.work| && d.work[j].asyncNode == n && n != 0
    requires exists k ::
               0 <= k < |d.nodes| && d.nodes[k].id == n && d.nodes[k].asyncBuffer == d.work[j].value.dataBuffer
    requires OneOut(d.nodes, d.nextNode, d.endpoints, n, unfreed)
    ensures NextAsync(d.work, n) == j && unfreed == [] && d.work[j].value.dataBuffer != 0 && n < d.nextNode
    ensures forall k {:trigger d.nodes[k]} :: 0 <= k < |d.nodes| && d.nodes[k].id == n ==>
              d.nodes[k].owner == d.work[j].endpoint && d.nodes[k].asyncBuffer == d.work[j].value.dataBuffer
  {
    var w := d.work[j];
    var k :| 0 <= k < |d.nodes| && d.nodes[k].id == n && d.nodes[k].asyncBuffer == w.value.dataBuffer;
    BinderCallbacks.DistinctNodes(d);
    WorkParts(d, j);
    AsyncParts(d);
    NotBoth(d, w.endpoint, w.value.dataBuffer);
    hide Inv, Holds;
    DeliverableIsFirst(d.nodes, d.work, d.claims, d.endpoints, j, k);
  }

  lemma WorkParts(d: Device, j: nat)
    requires Inv(d) && j < |d.work|
    ensures d.work[j].endpoint != 0 && d.work[j].value.dataBuffer != 0
            && Holds(d.endpoints, d.work[j].endpoint, d.work[j].value.dataBuffer, false)
    ensures WorkHeld(d.endpoints, d.work)
  {
    hide ObjectsOk, CallsOk, AsyncOk, EndpointOk;
    WorkEndpoints(d.endpoints, d.nextToken, d.work);
  }

  lemma AsyncParts(d: Device)
    requires Inv(d)
    ensures AsyncOk(d.nodes, d.work, d.claims, d.endpoints, 0)
  {
    hide ObjectsOk, CallsOk, BuffersOk, AsyncOk;
  }

  lemma ParcelInOrder(d: Device, e: nat, tid: nat, j: nat, n: nat, b: Books)
    requires Inv(d) && e in d.endpoints && (e, tid) in d.threads && j < |d.work|
             && Deliverable(d, d.work[j], e, tid, d.threads[(e, tid)])
    requires InOrder(d, n, b) && n != 0
    ensures var r := DeliverWork(d, e, tid, j); InOrder(r.d, n, Deliver(b, Received(r.delivered, n)))
  {
    var w := d.work[j];
    var r := DeliverWork(d, e, tid, j);
    hide *;
    InOrderParts(d, n, b);
    DeliverableParts(d, w, e, tid, d.threads[(e, tid)]);
    DeliverWorkIs(d, e, tid, j);
    if w.asyncNode == n {
      FirstAndOnly(d, j, n, b.unfreed);
      ReceivedOne(w, n);
      HandOut(d, r.d, j, n, b);
    } else {
      ReceivedNothing(r.delivered, n);
      DeliverNothing(b);
      HandOther(d, r.d, j, n, b);
    }
  }

  lemma InOrderParts(d: Device, n: nat, b: Books)
    requires InOrder(d, n, b)
    ensures OneOut(d.nodes, d.nextNode, d.endpoints, n, b.unfreed) && Balanced(d.nodes, d.nextNode, d.work, n, b)
  {
    hide OneOut, Balanced;
  }

  lemma ReceivedOne(w: Work, n: nat)
    requires w.asyncNode == n
    ensures Received([Parcel(w)], n) == [w]
  {
    assert [Parcel(w)][1..] == [];
  }

  lemma HandOut(d: Device, d': Device, j: nat, n: nat, b: Books)
    requires Balanced(d.nodes, d.nextNode, d.work, n, b) && j < |d.work| && d.work[j].asyncNode == n
             && NextAsync(d.work, n) == j
    requires b.unfreed == [] && d.work[j].value.dataBuffer != 0 && n < d.nextNode
    requires forall k {:trigger d.nodes[k]} :: 0 <= k < |d.nodes| && d.nodes[k].id == n ==>
               d.nodes[k].owner == d.work[j].endpoint && d.nodes[k].asyncBuffer == d.work[j].value.dataBuffer
    requires d'.nodes == d.nodes && d'.nextNode == d.nextNode && d'.work == RemoveAt(d.work, j)
    requires Shown(d.endpoints, d'.endpoints, d.work[j].endpoint, d.work[j].value.dataBuffer)
    ensures InOrder(d', n, Deliver(b, [d.work[j]]))
  {
    var w := d.work[j];
    PendingFirst(d.work, j, n);
    assert Values([w]) == [w.value] && Places([w]) == [(w.endpoint, w.value.dataBuffer)];
    hide Pending, Holds, NextAsync, RemoveAt;
    assert b.dropped == [];
  }

  lemma HandOther(d: Device, d': Device, j: nat, n: nat, b: Books)
    requires InOrder(d, n, b) && j < |d.work| && d.work[j].asyncNode != n
    requires d'.nodes == d.nodes && d'.nextNode == d.nextNode && d'.work == RemoveAt(d.work, j)
    requires Shown(d.endpoints, d'.endpoints, d.work[j].endpoint, d.work[j].value.dataBuffer)
    ensures InOrder(d', n, b)
  {
    PendingRemove(d.work, j, n);
    hide Pending, Holds, RemoveAt;
  }

  /** A change of callback flags and collection concern no queue. */
  lemma FlagsInOrder(d: Device, k: nat, node: Node, d': Device, n: nat, b: Books)
    requires InOrder(d, n, b) && k < |d.nodes|
    requires node.id == d.nodes[k].id && node.owner == d.nodes[k].owner && node.dead == d.nodes[k].dead
             && node.asyncBuffer == d.nodes[k].asyncBuffer
    requires d'.nodes == Collect(d.nodes[k := node], d.references, d.claims)
    requires d'.nextNode == d.nextNode && d'.work == d.work && d'.endpoints == d.endpoints && n != 0
    ensures InOrder(d', n, b)
  {
    hide Garbage, Holds, Pending;
  }

  lemma DeliverNodeKeeps(d: Device, k: nat)
    requires k < |d.nodes|
    ensures var word := NodeCommand(d.references, d.claims, d.nodes[k]);
            var node := CalledNode(d.nodes[k], word);
            && node.id == d.nodes[k].id && node.owner == d.nodes[k].owner && node.dead == d.nodes[k].dead
            && node.asyncBuffer == d.nodes[k].asyncBuffer
  {
    hide NodeCommand;
  }

  /** A delivery is a parcel, a callback, or leaves queues, nodes and arenas alone. */
  lemma ParcelOrNot(d: Device, e: nat, tid: nat)
    requires e in d.endpoints && (e, tid) in d.threads
    ensures var th := d.threads[(e, tid)];
            var r := DeliverNext(d, e, tid);
            var j, k := WorkFor(d, e, tid, th), NodeEventFor(d, e, tid, th);
            || (j < |d.work| && Deliverable(d, d.work[j], e, tid, th) && r == DeliverWork(d, e, tid, j))
            || (k < |d.nodes| && r == DeliverNode(d, k))
            || (r.d.nodes == d.nodes && r.d.nextNode == d.nextNode && r.d.work == d.work && r.d.endpoints == d.endpoints
                && |r.delivered| <= 1 && (r.delivered != [] ==> !r.delivered[0].Parcel?))
  {
    var th := d.threads[(e, tid)];
    hide DeliverNode, DeliverWork, Callable, Deliverable, Notifiable, NodeEventFor, WorkFor, DeathFor;
  }

  lemma DeliveryInOrder(d: Device, e: nat, tid: nat, n: nat, b: Books)
    requires Inv(d) && e in d.endpoints && (e, tid) in d.threads && InOrder(d, n, b) && n != 0
    ensures var r := DeliverNext(d, e, tid); InOrder(r.d, n, Deliver(b, Received(r.delivered, n)))
  {
    hide *;
    ParcelOrNot(d, e, tid);
    var th := d.threads[(e, tid)];
    var r := DeliverNext(d, e, tid);
    var j, k := WorkFor(d, e, tid, th), NodeEventFor(d, e, tid, th);
    if j < |d.work| && Deliverable(d, d.work[j], e, tid, th) && r == DeliverWork(d, e, tid, j) {
      ParcelInOrder(d, e, tid, j, n, b);
    } else if k < |d.nodes| && r == DeliverNode(d, k) {
      BinderCallbacks.DeliverNodeIs(d, k);
      DeliverNodeKeeps(d, k);
      ReceivedNothing(r.delivered, n);
      DeliverNothing(b);
      FlagsInOrder(d, k, CalledNode(d.nodes[k], NodeCommand(d.references, d.claims, d.nodes[k])), r.d, n, b);
    } else {
      ReceivedNothing(r.delivered, n);
      DeliverNothing(b);
      SameInOrder(d, r.d, n, b);
    }
  }

  lemma SameInOrder(d: Device, d': Device, n: nat, b: Books)
    requires InOrder(d, n, b) && d'.nodes == d.nodes && d'.nextNode == d.nextNode && d'.work == d.work
             && d'.endpoints == d.endpoints
    ensures InOrder(d', n, b)
  {
  }

  lemma {:induction false} ReadInOrder(d: Device, e: nat, tid: nat, room: nat, writable: nat, n: nat, b: Books)
    requires Inv(d) && e in d.endpoints && (e, tid) in d.threads && InOrder(d, n, b) && n != 0
    ensures var r := ReadLoop(d, e, tid, room, writable); InOrder(r.d, n, Deliver(b, Received(r.delivered, n)))
    decreases room
  {
    hide Inv, DeliverNext, InOrder, Deliver;
    DeliveryInOrder(d, e, tid, n, b);
    DeliverNextInv(d, e, tid);
    DeliverNextKeeps(d, e, tid);
    DeliverNothing(b);
    var next := DeliverNext(d, e, tid);
    if !(room < 4 || next.delivered == [] || Length(next.delivered[0]) > room || writable == 0
        || EndsRead(next.delivered[0])) {
      var room' := room - Length(next.delivered[0]);
      var rest := ReadLoop(next.d, e, tid, room', writable - 1);
      ReadInOrder(next.d, e, tid, room', writable - 1, n, Deliver(b, Received(next.delivered, n)));
      ReceivedAppend(next.delivered, rest.delivered, n);
      DeliverAppend(b, Received(next.delivered, n), Received(rest.delivered, n));
    }
  }

  lemma ReadCommandInOrder(d: Device, e: nat, tid: nat, size: nat, writable: nat, n: nat, b: Books)
    requires Inv(d) && e in d.endpoints && (e, tid) in d.threads && InOrder(d, n, b) && n != 0
    ensures var r := ReadCommand(d, e, tid, size, writable); InOrder(r.d, n, Deliver(b, Received(r.delivered, n)))
  {
    hide Inv, ReadLoop, ReadReady, InOrder, Deliver;
    DeliverNothing(b);
    if size >= 4 && writable > 0 { ReadInOrder(d, e, tid, size - 4, writable - 1, n, b); }
  }

  // ---- other steps ----

  /** The one-way value a step adds to the queue of `n`. */
  function Accepted(work: seq<Work>, work': seq<Work>, n: nat): seq<Packet> {
    if |work'| == |work| + 1 && work'[|work|].asyncNode == n then [work'[|work|].value] else []
  }

  /** The values queued for `n` at `token`, in order. */
  function PendingAt(work: seq<Work>, n: nat, token: nat): seq<Packet> {
    if work == [] then []
    else
      var last := work[|work| - 1];
      PendingAt(work[..|work| - 1], n, token) + if last.asyncNode == n
          && last.endpoint == token then [last.value] else []
  }

  lemma {:induction false} PendingThere(work: seq<Work>, n: nat, token: nat, there: bool)
    requires Placed(work, n, token, there)
    ensures PendingAt(work, n, token) == if there then Pending(work, n) else []
  {
    if work != [] { PendingThere(work[..|work| - 1], n, token, there); }
  }

  /** What a step other than a read does to the books of `n`: parcels are dropped only with their process. */
  ghost function Record(d: Device, s: Step, n: nat, b: Books): Books
    requires Enabled(d, s) && ArenasLaid(d.endpoints)
  {
    var r := Next(d, s);
    if s.Read? then Deliver(b, Received(r.delivered, n))
    else
      b.(accepted := b.accepted + Accepted(d.work, r.d.work, n),
         dropped := b.dropped + if s.DoReap? then PendingAt(d.work, n, s.token) else [],
         unfreed := StillOut(b.unfreed, if r.status.Done? then FreedBy(s) else Nothing))
  }

  ghost predicate QueueMove(d: Device, d': Device, n: nat, dropped: seq<Packet>) {
    && (|d'.work| == |d.work| + 1 ==> Queues(d, d'.work) && dropped == [])
    && (|d'.work| != |d.work| + 1 ==>
          dropped + Pending(d'.work, n) == Pending(d.work, n)
              && (dropped != [] ==> Pending(d'.work, n) == [] && Gone(d'.nodes, d'.nextNode, n)))
  }

  lemma MoveBalanced(d: Device, d': Device, f: Freed, n: nat, b: Books, dropped: seq<Packet>)
    requires Balanced(d.nodes, d.nextNode, d.work, n, b) && NodesMove(d.nodes, d'.nodes, d.nextNode, d'.nextNode, f)
             && n != 0
    requires QueueMove(d, d', n, dropped)
    ensures Balanced(d'.nodes, d'.nextNode, d'.work, n,
            b.(accepted := b.accepted + Accepted(d.work, d'.work, n), dropped := b.dropped + dropped))
  {
    if b.dropped != [] { MoveGone(d.nodes, d'.nodes, d.nextNode, d'.nextNode, f, n); }
    if |d'.work| == |d.work| + 1 {
      var w := d'.work[|d.work|];
      assert d'.work == d.work + [w];
      PendingAppend(d.work, w, n);
      hide NodesMove, Pending;
    } else {
      hide NodesMove, Pending;
      assert b.dropped == [] || dropped == [];
    }
  }

  lemma ExecuteQueue(d: Device, e: nat, tid: nat, c: Command)
    requires Inv(d) && e in d.endpoints && (e, tid) in d.threads && ArenasLaid(d.endpoints)
    ensures Queues(d, Execute(d, e, tid, c).0.work)
  {
    hide *;
    PlacedWork(d);
    ExecuteIs(d, e, tid, c);
    SameQueues(d);
    if c.Call? { CallEffect(d, e, tid, c.input, c.payload); }
    else if c.Reply? { ReplyEffect(d, e, tid, c.input, c.payload); }
    else if c.FreeBuffer? { FreeQuiet(d, e, c.buffer); }
    else { CommandKeepsWork(d, e, tid, c); }
  }

  lemma SameQueues(d: Device)
    ensures Queues(d, d.work)
  {
  }

  lemma CommandKeepsWork(d: Device, e: nat, tid: nat, c: Command)
    requires e in d.endpoints && (e, tid) in d.threads && ArenasLaid(d.endpoints) && !c.Call? && !c.Reply?
             && !c.FreeBuffer?
    ensures Execute(d, e, tid, c).0.work == d.work
  {
    hide CallCommand, ReplyCommand, FreeCommand, ArenasLaid, FindReference, Collect, AcknowledgedNode, FreeDeath,
        DeliveredDeath, EnsureReference, NodeFor;
  }

  lemma ExitQueue(d: Device, e: nat, tid: nat, n: nat)
    requires Inv(d) && tid > 0 && n != 0
    ensures Pending(ThreadExit(d, e, tid).work, n) == Pending(d.work, n) && |ThreadExit(d, e, tid).work| <= |d.work|
  {
    PlainWork(d);
    hide Inv, Cancel, Pending;
    CancelQueue(d, e, tid, n);
  }

  lemma ReleaseWork(d: Device, token: nat)
    requires token != 0
    ensures ReleaseEndpoint(d, token).work == Cancel(d, token, 0).work
  {
    var d1 := Cancel(d, token, 0);
    hide Cancel;
    UnclaimQuiet(ReleaseReferences(d1, token), token, 0);
    hide Unclaim, Quiet, Collect;
  }

  /** Every node of a released process is dead. */
  lemma ReleasedGone(d: Device, token: nat, n: nat)
    requires Inv(d) && token in d.endpoints && n != 0 && n < d.nextNode
    requires forall k {:trigger d.nodes[k]} :: 0 <= k < |d.nodes| && d.nodes[k].id == n ==> d.nodes[k].owner == token
    ensures var r := ReleaseEndpoint(d, token); Gone(r.nodes, r.nextNode, n)
  {
    var r := ReleaseEndpoint(d, token);
    hide Inv, ReleaseEndpoint, Quiet;
    PlacedWork(d);
    ReleaseEndpointQuiet(d, token);
    BinderCallbacks.QuietNodes(d, r, Process(token));
    BinderLifecycle.ReleaseEndpointInv(d, token);
    forall k | 0 <= k < |r.nodes| && r.nodes[k].id == n ensures r.nodes[k].dead {
      assert NodeMove(d.nodes[k], r.nodes[k], d.nextNode, r.nextNode, Process(token));
      NodeAlive(r, k);
    }
  }

  lemma NodeAlive(d: Device, k: nat)
    requires Inv(d) && k < |d.nodes| && d.nodes[k].id != 0
    ensures d.nodes[k].dead <==> d.nodes[k].owner !in d.endpoints
  {
    hide BuffersOk, CallsOk, AsyncOk, BinderLifetime.Linked, BinderLifetime.NoGarbage;
    assert BinderLifetime.NodeOk(d.nodes[k], d.nextNode, d.endpoints.Keys);
  }

  lemma ReapQueue(d: Device, token: nat, n: nat)
    requires Inv(d) && token in d.endpoints && n != 0
    ensures QueueMove(d, ReleaseEndpoint(d, token), n, PendingAt(d.work, n, token))
  {
    hide Inv, ReleaseEndpoint, Cancel, Pending, PendingAt, Placed, Gone;
    PlacedWork(d);
    ReleaseWork(d, token);
    PlainWork(d);
    OneOwner(d, n, token);
    if Placed(d.work, n, token, false) {
      CancelQueue(d, token, 0, n);
      PendingThere(d.work, n, token, false);
    } else {
      CancelOwnQueue(d, token, n);
      PendingThere(d.work, n, token, true);
      ReleasedGone(d, token, n);
      CancelShrinks(d, token);
    }
  }

  lemma CancelShrinks(d: Device, token: nat)
    requires Inv(d)
    ensures |Cancel(d, token, 0).work| <= |d.work|
  {
    PlainWork(d);
    hide Inv;
    CancelCallsQueue(d, token, 0, 0, 1);
    hide CancelCalls;
    DropShrinks(CancelCalls(d, token, 0), token, 0);
  }

  lemma DropShrinks(d: Device, token: nat, j: nat)
    requires j <= |d.work|
    ensures |DropWorkFor(d, token, 0, j).work| <= |d.work|
    decreases |d.work| - j
  {
    hide DropWork;
  }

  lemma StepQueue(d: Device, s: Step, n: nat)
    requires Inv(d) && Enabled(d, s) && ArenasLaid(d.endpoints) && !s.Read? && n != 0
    ensures QueueMove(d, Next(d, s).d, n, if s.DoReap? then PendingAt(d.work, n, s.token) else [])
  {
    hide *;
    NextIs(d, s);
    if s.Write? {
      ExecuteQueue(d, s.token, s.tid, s.command);
      QueuesMove(d, Next(d, s).d, n);
    } else if s.Exit? {
      NextThreadIs(d, s);
      ThreadPositive(d, s.token, s.tid);
      ExitQueue(d, s.token, s.tid, n);
      SameQueueMove(d, Next(d, s).d, n);
    } else if s.DoReap? {
      ReapIs(d, s);
      ReapQueue(d, s.token, n);
    } else {
      if s.DoOpen? { OpenEffect(d, s); }
      else if s.BecomeManager? { ManagerKeepsWork(d, s); }
      else { FieldSteps(d, s); }
      SameQueueMove(d, Next(d, s).d, n);
    }
  }

  lemma QueuesMove(d: Device, d': Device, n: nat)
    requires Queues(d, d'.work)
    ensures QueueMove(d, d', n, [])
  {
    hide Pending, SentTo;
    assert [] + Pending(d'.work, n) == Pending(d'.work, n);
  }

  lemma SameQueueMove(d: Device, d': Device, n: nat)
    requires Pending(d'.work, n) == Pending(d.work, n) && |d'.work| <= |d.work|
    ensures QueueMove(d, d', n, [])
  {
    hide Pending;
    assert [] + Pending(d'.work, n) == Pending(d'.work, n);
  }

  lemma ReapIs(d: Device, s: Step)
    requires s.DoReap? && Enabled(d, s) && ArenasLaid(d.endpoints)
    ensures s.token in d.endpoints && Next(d, s) == Outcome(ReleaseEndpoint(d, s.token), Done, [])
  {
    hide ReleaseEndpoint, ArenasLaid;
  }

  lemma ManagerKeepsWork(d: Device, s: Step)
    requires s.BecomeManager? && Enabled(d, s) && ArenasLaid(d.endpoints)
    ensures Next(d, s).d.work == d.work
  {
    hide ArenasLaid, FindNode, OwnedNode;
  }

  // ---- over runs ----

  /** A refused BC_FREE_BUFFER changes nothing, and only it and a release give buffers back. */
  lemma RefusedFree(d: Device, s: Step)
    requires Enabled(d, s) && ArenasLaid(d.endpoints) && !s.Read? && !Next(d, s).status.Done?
    ensures FreedBy(s) == Nothing || Next(d, s).d == d
  {
    FreedByIs(s);
    if s.DoReap? {
      ReapIs(d, s);
    } else if s.Write? && s.command.FreeBuffer? {
      NextIs(d, s);
      ExecuteIs(d, s.token, s.tid, s.command);
      hide Unclaim, AdvanceAsync, Next, Execute;
    }
  }

  lemma QuietHolds(d: Device, d': Device, f: Freed)
    requires Quiet(d, d', f)
    ensures HoldsKept(d.endpoints, d'.endpoints, f) && NodesMove(d.nodes, d'.nodes, d.nextNode, d'.nextNode, f)
  {
    hide HoldsKept, NodesMove, DeathsMove, CallsMove;
  }

  lemma OpenMoves(d: Device, s: Step)
    requires s.DoOpen? && ArenasLaid(d.endpoints) && (forall e :: e in d.endpoints ==> e < d.nextToken)
    ensures HoldsKept(d.endpoints, Next(d, s).d.endpoints, Nothing)
            && NodesMove(d.nodes, Next(d, s).d.nodes, d.nextNode, Next(d, s).d.nextNode, Nothing)
  {
    hide ArenasLaid;
  }

  lemma TokensBelow(d: Device)
    requires Inv(d)
    ensures forall e :: e in d.endpoints ==> e < d.nextToken
  {
    hide ObjectsOk, CallsOk, AsyncOk, EndpointOk;
  }

  /** What a step frees, once its outcome is known. */
  ghost function FreedIn(d: Device, s: Step): Freed
    requires Enabled(d, s) && ArenasLaid(d.endpoints)
  {
    if Next(d, s).status.Done? then FreedBy(s) else Nothing
  }

  lemma StepMoves(d: Device, s: Step)
    requires Inv(d) && Enabled(d, s) && ArenasLaid(d.endpoints) && !s.Read? && !Acknowledges(s)
    ensures HoldsKept(d.endpoints, Next(d, s).d.endpoints, FreedIn(d, s))
    ensures NodesMove(d.nodes, Next(d, s).d.nodes, d.nextNode, Next(d, s).d.nextNode, FreedIn(d, s))
  {
    var f := FreedIn(d, s);
    assert f == if Next(d, s).status.Done? then FreedBy(s) else Nothing;
    hide *;
    FreedByIs(s);
    if s.DoOpen? {
      TokensBelow(d);
      OpenMoves(d, s);
    } else {
      StepQuiet(d, s);
      QuietHolds(d, Next(d, s).d, FreedBy(s));
      if !Next(d, s).status.Done? {
        RefusedFree(d, s);
        if FreedBy(s) != Nothing {
          BinderHistory.SameQuietSelf(d);
          QuietHolds(d, d, Nothing);
        }
      }
    }
  }

  lemma StepInOrder(d: Device, s: Step, n: nat, b: Books)
    requires Inv(d) && Enabled(d, s) && ArenasLaid(d.endpoints) && InOrder(d, n, b) && n != 0
    ensures InOrder(Next(d, s).d, n, Record(d, s, n, b))
  {
    RecordIs(d, s, n, b);
    hide *;
    AcknowledgesIs(s);
    NextIs(d, s);
    if s.Read? {
      ReadCommandInOrder(d, s.token, s.tid, s.size, s.writable, n, b);
    } else {
      InOrderParts(d, n, b);
      StepQueue(d, s, n);
      var d' := Next(d, s).d;
      var dropped := if s.DoReap? then PendingAt(d.work, n, s.token) else [];
      if Acknowledges(s) {
        AckInOrder(d, s, n, b);
      } else {
        var f := FreedIn(d, s);
        StepMoves(d, s);
        MoveBalanced(d, d', f, n, b, dropped);
        MoveOneOut(d.nodes, d'.nodes, d.nextNode, d'.nextNode, d.endpoints, d'.endpoints, f, n, b.unfreed);
        InOrderIs(d', n, b.(accepted := b.accepted + Accepted(d.work, d'.work, n), dropped := b.dropped + dropped),
            StillOut(b.unfreed, f));
      }
    }
  }

  lemma RecordIs(d: Device, s: Step, n: nat, b: Books)
    requires Enabled(d, s) && ArenasLaid(d.endpoints)
    ensures s.Read? ==> Record(d, s, n, b) == Deliver(b, Received(Next(d, s).delivered, n))
    ensures !s.Read? ==> Record(d, s, n, b) == b.(accepted := b.accepted + Accepted(d.work, Next(d, s).d.work, n),
         dropped := b.dropped + if s.DoReap? then PendingAt(d.work, n, s.token) else [],
         unfreed := StillOut(b.unfreed, FreedIn(d, s)))
  {
    hide Next, Enabled, ArenasLaid, Deliver, Accepted, PendingAt, StillOut;
  }

  lemma InOrderIs(d: Device, n: nat, b: Books, unfreed: seq<(nat, nat)>)
    requires Balanced(d.nodes, d.nextNode, d.work, n, b) && OneOut(d.nodes, d.nextNode, d.endpoints, n, unfreed)
    ensures InOrder(d, n, b.(unfreed := unfreed))
  {
    hide Pending, OneOut, Gone;
  }

  lemma AckInOrder(d: Device, s: Step, n: nat, b: Books)
    requires Inv(d) && Enabled(d, s) && ArenasLaid(d.endpoints) && Acknowledges(s) && InOrder(d, n, b) && n != 0
    ensures InOrder(Next(d, s).d, n, Record(d, s, n, b))
  {
    hide *;
    AcknowledgesIs(s);
    NextIs(d, s);
    ExecuteIs(d, s.token, s.tid, s.command);
    DoneInOrder(d, s.token, s.command.strong, s.command.pointer, s.command.cookie, n, b);
    AckRecordsNothing(d, s, n, b);
  }

  lemma DoneInOrder(d: Device, e: nat, strong: bool, pointer: u64, cookie: u64, n: nat, b: Books)
    requires Inv(d) && InOrder(d, n, b) && n != 0
    ensures var r := NodeDoneCommand(d, e, strong, pointer, cookie).0; r.work == d.work && InOrder(r, n, b)
  {
    var k := OwnedNode(d.nodes, e, pointer);
    var r := NodeDoneCommand(d, e, strong, pointer, cookie).0;
    hide Inv, AcknowledgedNode, Collect, InOrder, OwnedNode;
    if k < |d.nodes| && d.nodes[k].cookie == cookie {
      AcknowledgedKeeps(d, d.nodes[k], strong);
      FlagsInOrder(d, k, AcknowledgedNode(d, d.nodes[k], strong), r, n, b);
    } else {
      SameInOrder(d, r, n, b);
    }
  }

  lemma AckRecordsNothing(d: Device, s: Step, n: nat, b: Books)
    requires Enabled(d, s) && ArenasLaid(d.endpoints) && s.Write? && s.command.NodeDone? && Next(d, s).d.work == d.work
    ensures Record(d, s, n, b) == b
  {
    RecordIs(d, s, n, b);
    FreedByIs(s);
    StillOutNone(b.unfreed);
    hide Next, Enabled, ArenasLaid, Record;
    assert b.accepted + [] == b.accepted && b.dropped + [] == b.dropped;
  }

  lemma AcknowledgedKeeps(d: Device, node: Node, strong: bool)
    ensures var r := AcknowledgedNode(d, node, strong);
            r.id == node.id && r.owner == node.owner && r.dead == node.dead && r.asyncBuffer == node.asyncBuffer
  {
    hide StrongUse, WeakUse;
  }

  /** The books of node `n` after the first `i` steps. */
  ghost function BooksAt(states: seq<Device>, steps: seq<Step>, n: nat, i: nat): Books
    requires IsRun(states, steps) && i <= |steps|
  {
    if i == 0 then EMPTY
    else
      assert Takes(states[i - 1], steps[i - 1], states[i]);
      Record(states[i - 1], steps[i - 1], n, BooksAt(states, steps, n, i - 1))
  }

  lemma BooksStep(states: seq<Device>, steps: seq<Step>, n: nat, i: nat)
    requires IsRun(states, steps) && 0 < i <= |steps| && Enabled(states[i - 1], steps[i - 1])
             && ArenasLaid(states[i - 1].endpoints)
    ensures BooksAt(states, steps, n, i) == Record(states[i - 1], steps[i - 1], n, BooksAt(states, steps, n, i - 1))
  {
    hide IsRun, Next, Enabled, ArenasLaid, Record;
  }

  lemma BooksStart(states: seq<Device>, steps: seq<Step>, n: nat)
    requires IsRun(states, steps)
    ensures InOrder(states[0], n, BooksAt(states, steps, n, 0))
  {
    RunShape(states, steps);
    hide IsRun, Holds;
    assert BooksAt(states, steps, n, 0) == EMPTY;
  }

  lemma {:induction false} RunInOrder(states: seq<Device>, steps: seq<Step>, n: nat, i: nat)
    requires IsRun(states, steps) && i <= |steps| && n != 0
    ensures |states| == |steps| + 1 && InOrder(states[i], n, BooksAt(states, steps, n, i))
  {
    hide *;
    RunShape(states, steps);
    if i == 0 {
      BooksStart(states, steps, n);
    } else {
      RunInOrder(states, steps, n, i - 1);
      RunInv(states, steps, i - 1);
      RunStep(states, steps, i - 1);
      BooksStep(states, steps, n, i);
      StepInOrder(states[i - 1], steps[i - 1], n, BooksAt(states, steps, n, i - 1));
    }
  }

  /** In every run, what a node accepted is, in order, what was delivered, then what died with its owner, then what is
      still queued; and at most one of its parcels is delivered and not yet freed. */
  lemma OneWayInOrder(states: seq<Device>, steps: seq<Step>, n: nat, i: nat)
    requires IsRun(states, steps) && i <= |steps| && n != 0 && |states| == |steps| + 1
    ensures var b := BooksAt(states, steps, n, i);
            && b.accepted == b.delivered + b.dropped + Pending(states[i].work, n)
            && (b.dropped != [] ==> Pending(states[i].work, n) == [] && Gone(states[i].nodes, states[i].nextNode, n))
            && |b.unfreed| <= 1
  {
    hide *;
    RunInOrder(states, steps, n, i);
    InOrderMeans(states[i], n, BooksAt(states, steps, n, i));
  }

  lemma InOrderMeans(d: Device, n: nat, b: Books)
    requires InOrder(d, n, b)
    ensures b.accepted == b.delivered + b.dropped + Pending(d.work, n)
    ensures b.dropped != [] ==> Pending(d.work, n) == [] && Gone(d.nodes, d.nextNode, n)
    ensures |b.unfreed| <= 1
  {
    hide Pending, Gone, Holds;
  }
}
