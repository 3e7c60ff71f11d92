/** What the invariant means to callers and receivers in every reachable state. */
module BinderGuarantees {
  import opened Base
  import opened BinderArena
  import opened BinderWire
  import opened BinderState
  import opened BinderCommands
  import opened BinderLifetime
  import opened BinderParcels
  import opened BinderBuffers
  import opened BinderCalls
  import opened BinderOneWay
  import opened BinderDeaths
  import opened BinderInvariant
  import opened BinderSteps
  import opened BinderTransfer
  import opened BinderRuns
  import opened BinderHistory
  import BinderNotices

  // ---- objects ----

  /** Counting, existence and uniqueness of every live reference. */
  ghost predicate ReferenceSound(d: Device, i: nat)
    requires i < |d.references|
  {
    var r := d.references[i];
    && r.temporary == CountRemote(d.claims, r.endpoint, r.node)
    && r.strong + r.weak + r.temporary > 0
    && (exists k :: 0 <= k < |d.nodes| && d.nodes[k].id == r.node && r.node != 0 && d.nodes[k].owner == r.owner)
    && (forall j {:trigger d.references[j]} ::
         0 <= j < |d.references| && j != i && d.references[j].endpoint == r.endpoint ==>
          d.references[j].handle != r.handle && d.references[j].node != r.node)
  }

  lemma ReferencesSound(states: seq<Device>, steps: seq<Step>, i: nat, x: nat)
    requires IsRun(states, steps) && i < |states| && x < |states[i].references| && states[i].references[x].endpoint != 0
    ensures ReferenceSound(states[i], x)
  {
    RunInv(states, steps, i);
    hide IsRun;
    SoundReference(states[i], x);
  }

  lemma SoundReference(d: Device, x: nat)
    requires Inv(d) && x < |d.references| && d.references[x].endpoint != 0
    ensures ReferenceSound(d, x)
  {
    hide BuffersOk, CallsOk, AsyncOk, NoGarbage, SlotsOk, DeathsOk, NodesOk;
    assert RefOk(d.references[x], d.nodes);
  }

  /** The receiver of an unfreed parcel can still send on or call through every handle in it. */
  lemma HandlesResolve(states: seq<Device>, steps: seq<Step>, i: nat, k: (nat, nat), delivered: bool, x: nat, tid: nat)
    requires IsRun(states, steps) && i < |states| && Holds(states[i].endpoints, k.0, k.1, delivered)
    ensures k in states[i].parcels
    ensures x < |states[i].parcels[k]| && states[i].parcels[k][x].Handle? ==>
              HandleWorks(states[i], k.0, states[i].parcels[k][x], tid)
  {
    RunInv(states, steps, i);
    hide IsRun;
    HeldParcel(states[i], k, delivered);
    hide Inv;
    if x < |states[i].parcels[k]| && states[i].parcels[k][x].Handle? { HandleResolves(states[i], k, x, tid); }
  }

  ghost predicate HandleWorks(d: Device, e: nat, item: Flat, tid: nat)
    requires item.Handle?
  {
    var r := FindReference(d.references, e, item.handle);
    r < |d.references| && d.references[r].temporary > 0 && Resolve(d, e, tid, item).Found?
  }

  lemma HeldParcel(d: Device, k: (nat, nat), delivered: bool)
    requires Inv(d) && Holds(d.endpoints, k.0, k.1, delivered)
    ensures k in d.parcels
  {
    hide ObjectsOk, CallsOk, AsyncOk, EndpointsOk, WorkHeld, Covered, Holds;
    assert (k.0, k.1) == k;
  }

  lemma HandleResolves(d: Device, k: (nat, nat), x: nat, tid: nat)
    requires Inv(d) && k in d.parcels && x < |d.parcels[k]| && d.parcels[k][x].Handle?
    ensures HandleWorks(d, k.0, d.parcels[k][x], tid)
  {
    ParcelParts(d, k);
    ObjectParts(d);
    hide Inv;
    CoveredResolves(d, k, x, tid);
  }

  lemma CoveredResolves(d: Device, k: (nat, nat), x: nat, tid: nat)
    requires k in d.parcels && x < |d.parcels[k]| && d.parcels[k][x].Handle? && k.0 != 0
    requires Covered(d.parcels[k], d.claims, k.0, k.1) && Linked(d.references, d.claims, d.nodes, 0)
    ensures HandleWorks(d, k.0, d.parcels[k][x], tid)
  {
    hide NodesOk;
    var handle := d.parcels[k][x].handle;
    var c :| 0 <= c < |d.claims| && d.claims[c].endpoint == k.0 && d.claims[c].buffer == k.1 && d.claims[c].remote
        && d.claims[c].handle == handle;
    assert ClaimOk(d.claims[c], d.references, d.nodes, 0);
    var j :| 0 <= j < |d.references| && d.references[j].endpoint == k.0 && d.references[j].node == d.claims[c].node
        && d.references[j].handle == handle;
    var r := FindReference(d.references, k.0, handle);
    assert r == j;
    assert RefOk(d.references[r], d.nodes);
    CountPositive(d.claims, k.0, d.claims[c].node, c);
  }

  lemma {:induction false} CountPositive(claims: seq<Claim>, e: nat, node: nat, c: nat)
    requires c < |claims| && RemoteClaim(claims[c], e, node)
    ensures CountRemote(claims, e, node) > 0
  {
    if c < |claims| - 1 { CountPositive(claims[..|claims| - 1], e, node, c); }
  }

  lemma ParcelParts(d: Device, k: (nat, nat))
    requires Inv(d) && k in d.parcels
    ensures k.0 != 0 && Covered(d.parcels[k], d.claims, k.0, k.1)
  {
    hide ObjectsOk, CallsOk, AsyncOk, EndpointsOk, WorkHeld, Covered;
  }

  lemma ObjectParts(d: Device)
    requires Inv(d)
    ensures Linked(d.references, d.claims, d.nodes, 0)
  {
    hide BuffersOk, CallsOk, AsyncOk, NoGarbage, SlotsOk, DeathsOk, NodesOk, Linked;
  }

  /** No death slot dangles or is shared, and an armed subscription's owner is still registered. */
  lemma DeathSlotsSound(states: seq<Device>, steps: seq<Step>, i: nat)
    requires IsRun(states, steps) && i < |states|
    ensures SlotsOk(states[i].references, states[i].deaths)
    ensures forall k {:trigger states[i].deaths[k]} ::
              0 <= k < |states[i].deaths| && states[i].deaths[k].endpoint != 0 && states[i].deaths[k].state.Armed? ==>
              states[i].deaths[k].owner in states[i].endpoints
  {
    RunInv(states, steps, i);
    hide IsRun;
    DeathParts(states[i]);
    hide Inv, SlotsOk;
    forall k | 0 <= k < |states[i].deaths| ensures DeathOk(states[i].deaths[k], states[i].endpoints.Keys,
        states[i].nextSerial) {}
  }

  // ---- callers ----

  ghost predicate InQueueOnce(work: seq<Work>, id: nat, target: nat) {
    exists j :: 0 <= j < |work| && work[j].transaction == id && work[j].endpoint == target && work[j].tid == 0
                && forall i {:trigger work[i]} :: 0 <= i < |work| && i != j ==> work[i].transaction != id
  }

  ghost predicate Serves(threads: Threads, k: (nat, nat), id: nat) {
    k in threads && threads[k].incoming == id
  }

  /** The one live transaction a waiting caller is in, queued once or served by one thread. */
  ghost predicate Waiting(d: Device, caller: (nat, nat), i: nat)
    requires caller in d.threads && i < |d.transactions|
  {
    var id := d.threads[caller].outgoing;
    var t := d.transactions[i];
    && t.id == id && (t.source, t.sourceTid) == caller && d.threads[caller].incoming == 0
    && (forall j {:trigger d.transactions[j]} :: 0 <= j < |d.transactions| && j != i ==> d.transactions[j].id != id)
    && if t.targetTid == 0 then InQueueOnce(d.work, id, t.target) && forall k {:trigger Serves(d.threads, k, id)} ::
         !Serves(d.threads, k, id)
       else (forall j {:trigger d.work[j]} :: 0 <= j < |d.work| ==> d.work[j].transaction != id)
            && forall k {:trigger Serves(d.threads, k, id)} :: Serves(d.threads, k, id) <==>
                 k == (t.target, t.targetTid)
  }

  /** No caller is ever stranded. */
  lemma CallersNotStranded(states: seq<Device>, steps: seq<Step>, i: nat, caller: (nat, nat))
    requires IsRun(states, steps) && i < |states| && caller in states[i].threads
             && states[i].threads[caller].outgoing != 0
    ensures exists x :: 0 <= x < |states[i].transactions| && Waiting(states[i], caller, x)
  {
    RunInv(states, steps, i);
    hide IsRun;
    NotStranded(states[i], caller);
  }

  lemma NotStranded(d: Device, caller: (nat, nat))
    requires Inv(d) && caller in d.threads && d.threads[caller].outgoing != 0
    ensures exists x :: 0 <= x < |d.transactions| && Waiting(d, caller, x)
  {
    CallParts(d);
    hide Inv;
    var id := d.threads[caller].outgoing;
    assert ThreadOk(d.threads[caller], caller, d.transactions, 0);
    var x :| 0 <= x < |d.transactions| && d.transactions[x].id == id
        && (d.transactions[x].source, d.transactions[x].sourceTid) == caller;
    hide Waiting, CallsOk;
    ItsTransaction(d, caller, x);
  }

  lemma ItsTransaction(d: Device, caller: (nat, nat), x: nat)
    requires CallsOk(d.threads, d.transactions, d.work, d.endpoints.Keys, d.nextTransaction, 0)
    requires caller in d.threads && d.threads[caller].outgoing != 0 && x < |d.transactions|
             && d.transactions[x].id == d.threads[caller].outgoing
    requires (d.transactions[x].source, d.transactions[x].sourceTid) == caller
    ensures Waiting(d, caller, x)
  {
    var t, id := d.transactions[x], d.threads[caller].outgoing;
    assert TransactionOk(t, d.threads, d.work, d.endpoints.Keys);
    forall k | Serves(d.threads, k, id) ensures k == (t.target, t.targetTid) && k.1 > 0 {
      assert ThreadOk(d.threads[k], k, d.transactions, 0);
    }
    assert ThreadOk(d.threads[caller], caller, d.transactions, 0);
    QueuedOnce(d.work, d.transactions, d.endpoints.Keys, x);
    hide RequestsOk, ThreadsOk, TransactionsOk;
  }

  lemma QueuedOnce(work: seq<Work>, ts: seq<Transaction>, tokens: set<nat>, x: nat)
    requires RequestsOk(work, ts, tokens) && x < |ts| && ts[x].id != 0
    requires forall i, j {:trigger ts[i], ts[j]} :: 0 <= i < |ts| && 0 <= j < |ts| && i != j && ts[i].id != 0 ==>
               ts[i].id != ts[j].id
    ensures ts[x].targetTid == 0 && Queued(work, ts[x].id, ts[x].target) ==> InQueueOnce(work, ts[x].id, ts[x].target)
    ensures ts[x].targetTid != 0 ==> forall j {:trigger work[j]} :: 0 <= j < |work| ==> work[j].transaction != ts[x].id
  {
    var t := ts[x];
    forall j | 0 <= j < |work| && work[j].transaction == t.id ensures t.targetTid == 0 {
      assert RequestOk(work[j], ts, tokens);
    }
    if t.targetTid == 0 && Queued(work, t.id, t.target) {
      var j :| 0 <= j < |work| && work[j].transaction == t.id && work[j].endpoint == t.target && work[j].tid == 0;
      assert InQueueOnce(work, t.id, t.target);
    }
  }

  // ---- identities are never reused ----

  ghost predicate RetiredNode(d: Device, n: nat) {
    0 < n < d.nextNode && forall k {:trigger d.nodes[k]} :: 0 <= k < |d.nodes| ==> d.nodes[k].id != n
  }

  ghost predicate RetiredCall(d: Device, x: nat) {
    0 < x < d.nextTransaction && forall k {:trigger d.transactions[k]} :: 0 <= k < |d.transactions| ==>
          d.transactions[k].id != x
  }

  /** Identities in `d'` come from `d` or were unused there. */
  ghost predicate Ages(d: Device, d': Device) {
    && d.nextNode <= d'.nextNode && d.nextTransaction <= d'.nextTransaction && d.nextToken <= d'.nextToken
    && |d'.nodes| == |d.nodes| && |d'.transactions| == |d.transactions|
    && (forall k {:trigger d'.nodes[k]} :: 0 <= k < |d.nodes| ==>
         d'.nodes[k].id in {0, d.nodes[k].id} || d'.nodes[k].id >= d.nextNode)
    && (forall k {:trigger d'.transactions[k]} :: 0 <= k < |d.transactions| ==>
          d'.transactions[k].id in {0, d.transactions[k].id} || d'.transactions[k].id >= d.nextTransaction)
    && (forall e {:trigger e in d'.endpoints} :: e in d'.endpoints ==> e in d.endpoints || e >= d.nextToken)
  }

  lemma AgesTransitive(a: Device, b: Device, c: Device)
    requires Ages(a, b) && Ages(b, c)
    ensures Ages(a, c)
  {
    forall k | 0 <= k < |a.nodes| ensures c.nodes[k].id in {0, a.nodes[k].id} || c.nodes[k].id >= a.nextNode {
      assert b.nodes[k].id in {0, a.nodes[k].id} || b.nodes[k].id >= a.nextNode;
    }
    forall k | 0 <= k < |a.transactions|
      ensures c.transactions[k].id in {0, a.transactions[k].id} || c.transactions[k].id >= a.nextTransaction
    {
      assert b.transactions[k].id in {0, a.transactions[k].id} || b.transactions[k].id >= a.nextTransaction;
    }
  }

  lemma QuietAges(d: Device, d': Device, f: Freed)
    requires Quiet(d, d', f)
    ensures Ages(d, d')
  {
    hide DeathsMove, HoldsKept;
    forall k | 0 <= k < |d.nodes| ensures d'.nodes[k].id in {0, d.nodes[k].id} || d'.nodes[k].id >= d.nextNode {
      assert NodeMove(d.nodes[k], d'.nodes[k], d.nextNode, d'.nextNode, f);
    }
  }

  lemma DeliveryAges(d: Device, e: nat, tid: nat)
    requires e in d.endpoints && (e, tid) in d.threads
    ensures Ages(d, DeliverNext(d, e, tid).d)
  {
    var th := d.threads[(e, tid)];
    hide NodeEventFor, WorkFor, DeathFor, Callable, Deliverable, Notifiable, Garbage, NodeCommand;
  }

  lemma {:induction false} ReadAges(d: Device, e: nat, tid: nat, room: nat, writable: nat)
    requires e in d.endpoints && (e, tid) in d.threads
    ensures Ages(d, ReadLoop(d, e, tid, room, writable).d)
    decreases room
  {
    DeliveryAges(d, e, tid);
    SelfAges(d);
    hide DeliverNext, Ages;
    DeliverNextKeeps(d, e, tid);
    var next := DeliverNext(d, e, tid);
    if !(room < 4 || next.delivered == [] || Length(next.delivered[0]) > room || writable == 0) {
      ReadAges(next.d, e, tid, room - Length(next.delivered[0]), writable - 1);
      AgesTransitive(d, next.d, ReadLoop(next.d, e, tid, room - Length(next.delivered[0]), writable - 1).d);
    }
  }

  lemma SelfAges(d: Device)
    ensures Ages(d, d)
  {
  }

  lemma ReadCommandAges(d: Device, e: nat, tid: nat, size: nat, writable: nat)
    requires e in d.endpoints && (e, tid) in d.threads
    ensures Ages(d, ReadCommand(d, e, tid, size, writable).d)
  {
    SelfAges(d);
    hide ReadLoop, ReadReady, Ages;
    if size >= 4 && writable > 0 { ReadAges(d, e, tid, size - 4, writable - 1); }
  }

  lemma AckAges(d: Device, e: nat, strong: bool, pointer: u64, cookie: u64)
    ensures Ages(d, NodeDoneCommand(d, e, strong, pointer, cookie).0)
  {
    hide StrongUse, WeakUse, Garbage;
  }

  lemma OpenAges(d: Device, s: Step)
    requires s.DoOpen? && ArenasLaid(d.endpoints)
    ensures Ages(d, Next(d, s).d)
  {
    hide ArenasLaid;
  }

  lemma StepAges(d: Device, s: Step)
    requires Inv(d) && Enabled(d, s) && ArenasLaid(d.endpoints)
    ensures Ages(d, Next(d, s).d)
  {
    hide *;
    NextIs(d, s);
    AcknowledgesIs(s);
    if s.Read? {
      ReadCommandAges(d, s.token, s.tid, s.size, s.writable);
    } else if Acknowledges(s) {
      ExecuteIs(d, s.token, s.tid, s.command);
      AckAges(d, s.token, s.command.strong, s.command.pointer, s.command.cookie);
    } else if s.DoOpen? {
      OpenAges(d, s);
    } else {
      StepQuiet(d, s);
      QuietAges(d, Next(d, s).d, FreedBy(s));
    }
  }

  lemma {:induction false} RunAges(states: seq<Device>, steps: seq<Step>, i: nat, j: nat)
    requires IsRun(states, steps) && i <= j < |states|
    ensures Ages(states[i], states[j])
  {
    hide *;
    RunShape(states, steps);
    SelfAges(states[i]);
    if i < j {
      RunAges(states, steps, i, j - 1);
      RunInv(states, steps, j - 1);
      RunStep(states, steps, j - 1);
      StepAges(states[j - 1], steps[j - 1]);
      AgesTransitive(states[i], states[j - 1], states[j]);
    }
  }

  /** A node, transaction or endpoint identity that is once used up never names anything again. */
  lemma NeverReused(states: seq<Device>, steps: seq<Step>, i: nat, j: nat, x: nat)
    requires IsRun(states, steps) && i <= j < |states|
    ensures RetiredNode(states[i], x) ==> RetiredNode(states[j], x)
    ensures RetiredCall(states[i], x) ==> RetiredCall(states[j], x)
    ensures BinderNotices.Departed(states[i], x) ==> BinderNotices.Departed(states[j], x)
  {
    RunAges(states, steps, i, j);
    hide IsRun;
  }
}
