/** Every reachable device state satisfies the invariant, and what that means for callers and receivers. */
module BinderRuns {
  import opened Base
  import opened BinderArena
  import opened BinderWire
  import opened BinderState
  import opened BinderCommands
  import opened BinderLifetime
  import opened BinderParcels
  import opened BinderBuffers
  import opened BinderCalls
  import opened BinderOneWay
  import opened BinderDeaths
  import opened BinderInvariant
  import opened BinderLifecycle
  import opened BinderSteps
  import opened BinderTransfer

  // ---- reading ----

  /** The delivery is one of four kinds, or nothing. */
  lemma DeliverNextIs(d: Device, e: nat, tid: nat)
    requires e in d.endpoints && (e, tid) in d.threads
    ensures var th := d.threads[(e, tid)];
            var r := DeliverNext(d, e, tid);
            || (r.status.Done? && (r.d == d || r.d == d.(threads := d.threads[(e, tid) := th.(error := 0)])
                                   || (th.completions != 0
                                      && r.d == d.(threads :=
                                        d.threads[(e, tid) := th.(completions := th.completions - 1)]))))
            || (exists k :: 0 <= k < |d.nodes| && Callable(d, d.nodes[k], e, tid, th) && r == DeliverNode(d, k))
            || (exists j ::
                 0 <= j < |d.work| && Deliverable(d, d.work[j], e, tid, th) && r == DeliverWork(d, e, tid, j))
            || (exists i :: 0 <= i < |d.deaths| && Notifiable(d.deaths[i], e, tid, th) && r == DeliverDeath(d, i))
  {
    hide DeliverNode, DeliverWork, DeliverDeath, Callable, Deliverable, Notifiable;
  }

  lemma DeliverNextInv(d: Device, e: nat, tid: nat)
    requires Inv(d) && e in d.endpoints && (e, tid) in d.threads
    ensures Inv(DeliverNext(d, e, tid).d) && DeliverNext(d, e, tid).status.Done?
  {
    hide *;
    TargetKnown(d, e);
    DeliverNextIs(d, e, tid);
    ThreadErrorInv(d, e, tid);
    var th := d.threads[(e, tid)];
    forall k | 0 <= k < |d.nodes| && Callable(d, d.nodes[k], e, tid, th)
      ensures Inv(DeliverNode(d, k).d) && DeliverNode(d, k).status.Done?
    {
      CallableNodeInv(d, k, e, tid);
    }
    forall j | 0 <= j < |d.work| && Deliverable(d, d.work[j], e, tid, th)
      ensures Inv(DeliverWork(d, e, tid, j).d) && DeliverWork(d, e, tid, j).status.Done?
    {
      DeliverWorkInv(d, e, tid, j);
    }
    forall i | 0 <= i < |d.deaths| && Notifiable(d.deaths[i], e, tid, th)
      ensures Inv(DeliverDeath(d, i).d) && DeliverDeath(d, i).status.Done?
    {
      NotifiableDeathInv(d, i, e, tid);
    }
  }

  lemma ThreadErrorInv(d: Device, e: nat, tid: nat)
    requires Inv(d) && (e, tid) in d.threads
    ensures var th := d.threads[(e, tid)];
            && Inv(d.(threads := d.threads[(e, tid) := th.(error := 0)]))
            && (th.completions != 0 ==>
                 Inv(d.(threads := d.threads[(e, tid) := th.(completions := th.completions - 1)])))
  {
    CallParts(d);
    hide Inv, CallsOk;
    var th := d.threads[(e, tid)];
    ThreadFieldInv(d, (e, tid), th.(error := 0));
    if th.completions != 0 { ThreadFieldInv(d, (e, tid), th.(completions := th.completions - 1)); }
  }

  lemma CallableNodeInv(d: Device, k: nat, e: nat, tid: nat)
    requires Inv(d) && (e, tid) in d.threads && k < |d.nodes| && Callable(d, d.nodes[k], e, tid, d.threads[(e, tid)])
    ensures Inv(DeliverNode(d, k).d) && DeliverNode(d, k).status.Done?
  {
    hide Inv, DeliverNode, NodeCommand, AcceptsProcessWork;
    DeliverNodeInv(d, k);
    DeliverNodeDone(d, k);
  }

  lemma NotifiableDeathInv(d: Device, i: nat, e: nat, tid: nat)
    requires Inv(d) && e != 0 && (e, tid) in d.threads && i < |d.deaths|
             && Notifiable(d.deaths[i], e, tid, d.threads[(e, tid)])
    ensures Inv(DeliverDeath(d, i).d) && DeliverDeath(d, i).status.Done?
  {
    hide Inv, DeliverDeath, AcceptsProcessWork;
    DeliverDeathInv(d, i);
    DeliverDeathDone(d, i);
  }

  lemma DeliverNodeDone(d: Device, k: nat)
    requires k < |d.nodes|
    ensures DeliverNode(d, k).status.Done?
  {
  }

  lemma DeliverDeathDone(d: Device, i: nat)
    requires i < |d.deaths|
    ensures DeliverDeath(d, i).status.Done?
  {
  }

  lemma {:induction false} ReadLoopInv(d: Device, e: nat, tid: nat, room: nat, writable: nat)
    requires Inv(d) && e in d.endpoints && (e, tid) in d.threads
    ensures Inv(ReadLoop(d, e, tid, room, writable).d) && !ReadLoop(d, e, tid, room, writable).status.Broken?
    decreases room
  {
    hide Inv, DeliverNext;
    DeliverNextInv(d, e, tid);
    DeliverNextKeeps(d, e, tid);
    var next := DeliverNext(d, e, tid);
    if !(room < 4 || next.delivered == [] || Length(next.delivered[0]) > room || writable == 0
        || EndsRead(next.delivered[0])) {
      ReadLoopInv(next.d, e, tid, room - Length(next.delivered[0]), writable - 1);
    }
  }

  // ---- lifecycle requests ----


  lemma OpenObjects(d: Device)
    requires ObjectsOk(d, d.endpoints.Keys)
    ensures ObjectsOk(d.(nextToken := d.nextToken + 1), d.endpoints.Keys + {d.nextToken})
  {
    var tokens := d.endpoints.Keys + {d.nextToken};
    hide Linked, NoGarbage, SlotsOk, HasManager;
    forall i | 0 <= i < |d.nodes|
      ensures NodeOk(d.nodes[i], d.nextNode, tokens)
    {
      assert NodeOk(d.nodes[i], d.nextNode, d.endpoints.Keys);
    }
    forall k | 0 <= k < |d.deaths|
      ensures DeathOk(d.deaths[k], tokens, d.nextSerial)
    {
      assert DeathOk(d.deaths[k], d.endpoints.Keys, d.nextSerial);
    }
  }

  lemma OpenCalls(d: Device)
    requires CallsOk(d.threads, d.transactions, d.work, d.endpoints.Keys, d.nextTransaction, 0)
    ensures CallsOk(d.threads, d.transactions, d.work, d.endpoints.Keys + {d.nextToken}, d.nextTransaction, 0)
  {
    hide Queued, ServedBy, CalledBy;
    var tokens := d.endpoints.Keys + {d.nextToken};
    forall i | 0 <= i < |d.transactions| && d.transactions[i].id != 0
      ensures TransactionOk(d.transactions[i], d.threads, d.work, tokens)
    {
      assert TransactionOk(d.transactions[i], d.threads, d.work, d.endpoints.Keys);
    }
    forall j | 0 <= j < |d.work| ensures RequestOk(d.work[j], d.transactions, tokens) {
      assert RequestOk(d.work[j], d.transactions, d.endpoints.Keys);
    }
  }

  lemma OpenAsync(d: Device, eps: Endpoints)
    requires AsyncOk(d.nodes, d.work, d.claims, d.endpoints, 0) && OwnersKnown(d.nodes, d.deaths, d.nextToken)
    requires eps.Keys == d.endpoints.Keys + {d.nextToken}
    requires forall x, a, v {:trigger Holds(eps, x, a, v)} :: Holds(eps, x, a, v) <==> Holds(d.endpoints, x, a, v)
    ensures AsyncOk(d.nodes, d.work, d.claims, eps, 0)
  {
    hide Holds, NextAsync, HasTarget;
    forall k | 0 <= k < |d.nodes| && Busy(d.nodes[k], eps, 0) ensures CurrentOk(d.nodes[k], d.work, eps) {
      assert Busy(d.nodes[k], d.endpoints, 0);
      assert CurrentOk(d.nodes[k], d.work, d.endpoints);
    }
    forall i, j | 0 <= i < |d.nodes| && 0 <= j < |d.nodes| && i != j && Busy(d.nodes[i], eps, 0)
        && d.nodes[i].owner == d.nodes[j].owner
      ensures d.nodes[i].asyncBuffer != d.nodes[j].asyncBuffer
    {
      assert Busy(d.nodes[i], d.endpoints, 0);
    }
  }

  lemma OpenBuffers(d: Device, eps: Endpoints, ep: Endpoint, next: nat)
    requires BuffersOk(d.endpoints, d.nextToken, d.work, d.claims, d.parcels) && d.nextToken > 0
    requires eps == d.endpoints[d.nextToken := ep] && ep.slots == [] && ep.watch == 0 && next == d.nextToken + 1
    ensures BuffersOk(eps, next, d.work, d.claims, d.parcels)
    ensures forall x, a, v {:trigger Holds(eps, x, a, v)} :: Holds(eps, x, a, v) <==> Holds(d.endpoints, x, a, v)
  {
    assert d.nextToken !in d.endpoints;
    assert forall x, a, v {:trigger Holds(eps, x, a, v)} :: Holds(eps, x, a, v) <==> Holds(d.endpoints, x, a, v);
    hide Holds, Covered, Laid;
  }

  lemma OpenInv(d: Device, pid: u32, uid: u32)
    requires Inv(d)
    ensures Inv(Open(d, pid, uid).0)
  {
    var r := Open(d, pid, uid).0;
    if d.nextToken != U64_LIMIT && |d.endpoints| < d.endpointLimit {
      var ep := Endpoint(true, pid, uid, false, 0, 0, 0, []);
      assert r == d.(endpoints := d.endpoints[d.nextToken := ep], nextToken := r.nextToken)
             && r.nextToken == d.nextToken + 1;
      assert r.endpoints.Keys == d.endpoints.Keys + {d.nextToken};
      OwnersParts(d);
      InvSplit(d);
      OpenObjects(d);
      OpenCalls(d);
      hide *;
      OpenBuffers(d, r.endpoints, ep, r.nextToken);
      OpenAsync(d, r.endpoints);
      SameObjects(d.(nextToken := r.nextToken), r, r.endpoints.Keys);
      InvJoin(r);
    }
  }

  lemma OwnersParts(d: Device)
    requires Inv(d)
    ensures OwnersKnown(d.nodes, d.deaths, d.nextToken) && d.nextToken > 0
  {
    hide LifeOk, NoGarbage, SlotsOk, DeathsOk, ManagerOk, BuffersOk, CallsOk, AsyncOk;
  }

  lemma SetManagerObjects(d: Device, nodes: seq<Node>, k: nat, e: nat)
    requires ObjectsOk(d, d.endpoints.Keys) && d.manager == 0 && k < |d.nodes| && d.nodes[k].id == 0
    requires e in d.endpoints && 0 < e < d.nextToken
    requires |nodes| == |d.nodes| && nodes == d.nodes[k := nodes[k]]
    requires var n := nodes[k];
             n.id == d.nextNode && n.owner == e && n.manager && n.hasStrong && !n.dead
             && OwnedNode(d.nodes, e, n.pointer) == |d.nodes|
    ensures ObjectsOk(d.(nodes := nodes, nextNode := d.nextNode + 1, manager := e, managerNode := d.nextNode),
            d.endpoints.Keys)
  {
    AddNodeOk(d.nodes, d.nextNode, d.endpoints.Keys, k, nodes[k]);
    AddNodeLinked(d.references, d.claims, d.nodes, nodes, k);
    hide NodesOk, Linked, SlotsOk, DeathsOk;
    assert NoGarbage(nodes, d.references, d.claims) by {
      forall i | 0 <= i < |nodes| ensures !Garbage(d.references, d.claims, nodes[i]) {
        assert i != k ==> nodes[i] == d.nodes[i];
      }
    }
    assert HasManager(nodes, e, d.nextNode) by { assert nodes[k].id == d.nextNode; }
    assert d.nextNode > 0;
  }

  lemma SetManagerInv(d: Device, e: nat, pointer: u64, cookie: u64, flags: u32)
    requires Inv(d) && e in d.endpoints
    ensures Inv(SetManager(d, e, pointer, cookie, flags).0)
  {
    var r := SetManager(d, e, pointer, cookie, flags).0;
    if d.manager == 0 && OwnedNode(d.nodes, e, pointer) == |d.nodes| && r.manager == e {
      TargetKnown(d, e);
      assert e < d.nextToken;
      NodeParts(d);
      var k := FindNode(d.nodes, 0);
      SetManagerObjects(d, r.nodes, k, e);
      assert AsyncOk(r.nodes, d.work, d.claims, d.endpoints, 0) by {
        WorkEndpoints(d.endpoints, d.nextToken, d.work);
        AddNodeKeepsAsync(d.nodes, r.nodes, d.nextNode, d.work, d.claims, d.endpoints, k);
      }
      hide ObjectsOk, CallsOk, BuffersOk, AsyncOk;
      SameObjects(d.(nodes := r.nodes, nextNode := d.nextNode + 1, manager := e, managerNode := d.nextNode), r,
          d.endpoints.Keys);
    }
  }

  lemma AddNodeKeepsAsync(nodes: seq<Node>, nodes': seq<Node>, nextNode: nat, work: seq<Work>, claims: seq<Claim>,
      eps: Endpoints, k: nat)
    requires AsyncOk(nodes, work, claims, eps, 0) && k < |nodes| == |nodes'| && nodes' == nodes[k := nodes'[k]]
             && nodes[k].id == 0
    requires nodes'[k].id == nextNode && nodes'[k].asyncBuffer == 0
    requires forall i {:trigger nodes[i]} :: 0 <= i < |nodes| ==> nodes[i].id < nextNode
    requires forall j {:trigger work[j]} :: 0 <= j < |work| ==> work[j].endpoint != 0
    ensures AsyncOk(nodes', work, claims, eps, 0)
  {
    hide Holds, NextAsync;
    forall j | 0 <= j < |work| && work[j].asyncNode != 0
      ensures HasTarget(nodes', claims, work[j]) && work[j].asyncNode < nextNode
    {
      var x :| 0 <= x < |nodes| && nodes[x].id == work[j].asyncNode && nodes[x].owner == work[j].endpoint
          && nodes[x].asyncBuffer != 0 && KeptFor(nodes[x], claims, work[j]);
      assert nodes'[x] == nodes[x];
    }
    forall x | 0 <= x < |nodes'| && Busy(nodes'[x], eps, 0) ensures CurrentOk(nodes'[x], work, eps) {
      assert nodes'[x] == nodes[x];
      assert CurrentOk(nodes[x], work, eps);
    }
  }

  lemma EndpointParts(d: Device, e: nat)
    requires Inv(d) && e in d.endpoints
    ensures EndpointOk(d.endpoints[e]) && (!d.endpoints[e].mappedOnce ==>
              d.endpoints[e].slots == [] && d.endpoints[e].watch == 0)
  {
    hide ObjectsOk, CallsOk, AsyncOk, Laid;
  }

  lemma PageAligned(x: nat)
    requires x % 4096 == 0
    ensures x % 8 == 0
  {
    var pages := x / 4096;
    var half := 512 * pages;
    assert x == 4096 * pages == 8 * half;
    EightTimes(half);
  }

  lemma EightTimes(k: nat)
    ensures (8 * k) % 8 == 0
  {
  }

  lemma EmptyLaid(base: nat, size: nat)
    requires base > 0 && base % 4096 == 0 && size % 4096 == 0 && base + size < U64_LIMIT
    ensures Laid([], base, size)
  {
    PageAligned(base);
    PageAligned(size);
  }

  lemma MapInv(d: Device, e: nat, base: nat, size: nat)
    requires Inv(d) && e in d.endpoints && !d.endpoints[e].mappedOnce && base > 0 && base % 4096 == 0
             && size % 4096 == 0 && base + size < U64_LIMIT
    ensures Inv(d.(endpoints := d.endpoints[e := d.endpoints[e].(mappedOnce := true, watch := 3, base := base,
            size := size)]))
  {
    EndpointParts(d, e);
    var ep := d.endpoints[e].(mappedOnce := true, watch := 3, base := base, size := size);
    assert EndpointOk(ep) by { hide Inv, Laid; EmptyLaid(base, size); }
    hide *;
    EndpointFieldInv(d, e, ep);
  }

  lemma WatchInv(d: Device, e: nat, isOpen: bool, watch: nat)
    requires Inv(d) && e in d.endpoints && watch <= d.endpoints[e].watch
             && (watch == d.endpoints[e].watch || watch != 3)
    ensures Inv(d.(endpoints := d.endpoints[e := d.endpoints[e].(watch := watch, isOpen := isOpen)]))
  {
    EndpointParts(d, e);
    hide Inv, Laid;
    var ep := d.endpoints[e].(watch := watch, isOpen := isOpen);
    assert EndpointOk(ep) && (!ep.mappedOnce ==> ep.slots == [] && ep.watch == 0);
    hide *;
    EndpointFieldInv(d, e, ep);
  }

  // ---- every step ----

  lemma ExecuteIs(d: Device, e: nat, tid: nat, c: Command)
    requires e in d.endpoints && (e, tid) in d.threads && ArenasLaid(d.endpoints)
    ensures c.Call? ==> Execute(d, e, tid, c) == CallCommand(d, e, tid, c.input, c.payload)
    ensures c.Reply? ==> Execute(d, e, tid, c) == ReplyCommand(d, e, tid, c.input, c.payload)
    ensures c.FreeBuffer? ==> Execute(d, e, tid, c) == FreeCommand(d, e, c.buffer)
    ensures c.AdjustCount? ==> Execute(d, e, tid, c) == ReferenceCommand(d, e, c.increment, c.strong, c.handle)
    ensures c.NodeDone? ==> Execute(d, e, tid, c) == NodeDoneCommand(d, e, c.strong, c.pointer, c.cookie)
    ensures c.RequestDeath? ==> Execute(d, e, tid, c) == RequestDeathCommand(d, e, c.handle, c.cookie)
    ensures c.ClearDeath? ==> Execute(d, e, tid, c) == ClearDeathCommand(d, e, tid, c.handle, c.cookie)
    ensures c.DeathDone? ==> Execute(d, e, tid, c) == DeathDoneCommand(d, e, tid, c.cookie)
    ensures c.EnterLooper? || c.RegisterLooper? || c.ExitLooper? ==>
              Execute(d, e, tid, c) == (SetLooper(d, e, tid, Looped(d.threads[(e, tid)].looper, c)), Done)
  {
    hide CallCommand, ReplyCommand, FreeCommand, ReferenceCommand, NodeDoneCommand, RequestDeathCommand,
        ClearDeathCommand, DeathDoneCommand, SetLooper;
  }

  lemma ExecuteInv(d: Device, e: nat, tid: nat, c: Command)
    requires Inv(d) && e in d.endpoints && (e, tid) in d.threads && ArenasLaid(d.endpoints)
    ensures Inv(Execute(d, e, tid, c).0) && !Execute(d, e, tid, c).1.Broken?
  {
    hide *;
    TargetKnown(d, e);
    ExecuteIs(d, e, tid, c);
    match c
    case EnterLooper => LooperInv(d, e, tid);
    case RegisterLooper => LooperInv(d, e, tid);
    case ExitLooper => LooperInv(d, e, tid);
    case Call(input, payload) => CallCommandInv(d, e, tid, input, payload);
    case Reply(input, payload) => ReplyCommandInv(d, e, tid, input, payload);
    case FreeBuffer(buffer) => FreeInv(d, e, buffer); QuietStatus(d, e, tid, c);
    case AdjustCount(increment, strong, handle) => ReferenceCommandInv(d, e, increment, strong, handle);
    case NodeDone(strong, pointer, cookie) => NodeDoneInv(d, e, strong, pointer, cookie); QuietStatus(d, e, tid, c);
    case RequestDeath(handle, cookie) => RequestDeathInv(d, e, handle, cookie); QuietStatus(d, e, tid, c);
    case ClearDeath(handle, cookie) => ClearDeathInv(d, e, tid, handle, cookie); QuietStatus(d, e, tid, c);
    case DeathDone(cookie) => DeathDoneInv(d, e, tid, cookie); QuietStatus(d, e, tid, c);
  }

  lemma LooperInv(d: Device, e: nat, tid: nat)
    requires Inv(d) && (e, tid) in d.threads
    ensures forall looper {:trigger SetLooper(d, e, tid, looper)} :: Inv(SetLooper(d, e, tid, looper))
  {
    CallParts(d);
    hide Inv;
    forall looper ensures Inv(SetLooper(d, e, tid, looper)) {
      ThreadFieldInv(d, (e, tid), d.threads[(e, tid)].(looper := looper));
    }
  }

  lemma QuietStatus(d: Device, e: nat, tid: nat, c: Command)
    requires e in d.endpoints && (e, tid) in d.threads && ArenasLaid(d.endpoints)
    requires c.FreeBuffer? || c.NodeDone? || c.RequestDeath? || c.ClearDeath? || c.DeathDone?
    ensures !Execute(d, e, tid, c).1.Broken?
  {
    hide CallCommand, ReplyCommand, ReferenceCommand;
  }

  lemma NextEndpointInv(d: Device, s: Step)
    requires Inv(d) && Enabled(d, s) && ArenasLaid(d.endpoints)
    requires s.DoOpen? || s.DoClose? || s.DoMap? || s.WatchChanged? || s.DoReap? || s.BecomeManager?
    ensures Inv(Next(d, s).d) && !Next(d, s).status.Broken?
  {
    hide Inv, ArenasLaid, ReleaseEndpoint, SetManager, Open;
    match s
    case DoOpen(pid, uid) => OpenInv(d, pid, uid); OpenStatus(d, pid, uid);
    case DoClose(token) => WatchInv(d, token, false, d.endpoints[token].watch);
    case DoMap(token, base, size) => MapInv(d, token, base, size);
    case WatchChanged(token, watch) => WatchInv(d, token, d.endpoints[token].isOpen, watch);
    case DoReap(token) => ReleaseEndpointInv(d, token);
    case BecomeManager(token, pointer, cookie, flags) => SetManagerInv(d, token, pointer, cookie, flags);
        ManagerStatus(d, token, pointer, cookie, flags);
  }

  lemma NextThreadInv(d: Device, s: Step)
    requires Inv(d) && Enabled(d, s) && ArenasLaid(d.endpoints) && (s.Admit? || s.Settle? || s.Exit?)
    ensures Inv(Next(d, s).d) && !Next(d, s).status.Broken?
  {
    hide *;
    NextThreadIs(d, s);
    match s
    case Admit(token, tid) => if (token, tid) !in d.threads { AdmitInv(d, token, tid); }
    case Settle(token, tid) => SettleInv(d, token, tid);
    case Exit(token, tid) => ThreadPositive(d, token, tid); ThreadExitInv(d, token, tid);
  }

  lemma NextThreadIs(d: Device, s: Step)
    requires Enabled(d, s) && ArenasLaid(d.endpoints) && (s.Admit? || s.Settle? || s.Exit?)
    ensures s.Admit? ==> s.token in d.endpoints && s.tid > 0 && !Next(d, s).status.Broken?
                         && (Next(d, s).d == d || ((s.token, s.tid) !in d.threads
                            && Next(d, s).d == d.(threads := d.threads[(s.token, s.tid) := NEW_THREAD])))
    ensures s.Settle? ==> (s.token, s.tid) in d.threads && Next(d, s) == Outcome(Settled(d, s.token, s.tid), Done, [])
    ensures s.Exit? ==>
              s.token in d.endpoints && (s.token, s.tid) in d.threads
              && Next(d, s) == Outcome(ThreadExit(d, s.token, s.tid), Done, [])
  {
    hide ThreadExit, ArenasLaid;
  }

  function Settled(d: Device, e: nat, tid: nat): Device
    requires (e, tid) in d.threads
  {
    d.(threads := d.threads[(e, tid) := d.threads[(e, tid)].(initialReturn := false)])
  }

  lemma SettleInv(d: Device, e: nat, tid: nat)
    requires Inv(d) && (e, tid) in d.threads
    ensures Inv(Settled(d, e, tid))
  {
    CallParts(d);
    hide Inv, CallsOk;
    ThreadFieldInv(d, (e, tid), d.threads[(e, tid)].(initialReturn := false));
  }

  lemma ReadCommandInv(d: Device, e: nat, tid: nat, size: nat, writable: nat)
    requires Inv(d) && e in d.endpoints && (e, tid) in d.threads
    ensures Inv(ReadCommand(d, e, tid, size, writable).d) && !ReadCommand(d, e, tid, size, writable).status.Broken?
  {
    hide Inv, ReadLoop, ReadReady;
    if size >= 4 && writable > 0 { ReadLoopInv(d, e, tid, size - 4, writable - 1); }
  }

  lemma NextIs(d: Device, s: Step)
    requires Enabled(d, s) && ArenasLaid(d.endpoints)
    ensures s.Write? ==>
              s.token in d.endpoints && (s.token, s.tid) in d.threads
              && Next(d, s) == Idle(Execute(d, s.token, s.tid, s.command))
    ensures s.Read? ==>
              s.token in d.endpoints && (s.token, s.tid) in d.threads
              && Next(d, s) == ReadCommand(d, s.token, s.tid, s.size, s.writable)
    ensures s.Write? ==>
              Next(d, s).d == Execute(d, s.token, s.tid, s.command).0
              && Next(d, s).status == Execute(d, s.token, s.tid, s.command).1
  {
    hide Execute, ReadCommand, ArenasLaid;
  }

  /** Every step keeps the invariant, and no step ever returns one of the driver's internal errors. */
  lemma NextInv(d: Device, s: Step)
    requires Inv(d) && Enabled(d, s) && ArenasLaid(d.endpoints)
    ensures Inv(Next(d, s).d) && !Next(d, s).status.Broken?
  {
    hide *;
    NextIs(d, s);
    if s.Write? {
      ExecuteInv(d, s.token, s.tid, s.command);
    } else if s.Read? {
      ReadCommandInv(d, s.token, s.tid, s.size, s.writable);
    } else if s.Admit? || s.Settle? || s.Exit? {
      NextThreadInv(d, s);
    } else {
      NextEndpointInv(d, s);
    }
  }

  lemma OpenStatus(d: Device, pid: u32, uid: u32)
    ensures !Open(d, pid, uid).1.Broken?
  {
  }

  lemma ManagerStatus(d: Device, e: nat, pointer: u64, cookie: u64, flags: u32)
    requires e in d.endpoints
    ensures !SetManager(d, e, pointer, cookie, flags).1.Broken?
  {
  }

  lemma ThreadPositive(d: Device, e: nat, tid: nat)
    requires Inv(d) && (e, tid) in d.threads
    ensures tid > 0
  {
  }

  // ---- runs ----

  lemma FreshInv(endpointLimit: nat, threadLimit: nat)
    ensures Inv(Fresh(endpointLimit, threadLimit))
  {
    var d := Fresh(endpointLimit, threadLimit);
    assert LifeOk(d, {});
    assert NoGarbage(d.nodes, d.references, d.claims);
  }

  ghost predicate Takes(d: Device, s: Step, d': Device) {
    Enabled(d, s) && ArenasLaid(d.endpoints) && d' == Next(d, s).d
  }

  /** A run of the device from its creation. */
  ghost predicate IsRun(states: seq<Device>, steps: seq<Step>) {
    && |states| == |steps| + 1
    && (exists endpointLimit: nat, threadLimit: nat :: states[0] == Fresh(endpointLimit, threadLimit))
    && (forall i {:trigger steps[i]} :: 0 <= i < |steps| ==> Takes(states[i], steps[i], states[i + 1]))
  }

  lemma RunShape(states: seq<Device>, steps: seq<Step>)
    requires IsRun(states, steps)
    ensures |states| == |steps| + 1
    ensures exists endpointLimit: nat, threadLimit: nat :: states[0] == Fresh(endpointLimit, threadLimit)
    ensures states[0].nextToken == states[0].nextTransaction == states[0].nextNode == 1 && states[0].nextSerial == 0
    ensures states[0].endpoints == map[] && states[0].work == []
    ensures states[0].nodes == seq(PACKET_LIMIT, _ => NO_NODE) && states[0].deaths == seq(PACKET_LIMIT, _ => NO_DEATH)
    ensures states[0].transactions == seq(PACKET_LIMIT, _ => NO_TRANSACTION)
  {
    hide Takes;
  }

  lemma RunStep(states: seq<Device>, steps: seq<Step>, i: nat)
    requires IsRun(states, steps) && i < |steps|
    ensures |states| == |steps| + 1
    ensures Enabled(states[i], steps[i]) && ArenasLaid(states[i].endpoints)
            && states[i + 1] == Next(states[i], steps[i]).d
  {
    assert Takes(states[i], steps[i], states[i + 1]);
    hide Enabled, ArenasLaid, Next, Fresh;
  }

  lemma {:induction false} RunInv(states: seq<Device>, steps: seq<Step>, i: nat)
    requires IsRun(states, steps) && i < |states|
    ensures Inv(states[i])
  {
    hide *;
    RunShape(states, steps);
    if i == 0 {
      var endpointLimit: nat, threadLimit: nat :| states[0] == Fresh(endpointLimit, threadLimit);
      FreshInv(endpointLimit, threadLimit);
    } else {
      RunInv(states, steps, i - 1);
      RunStep(states, steps, i - 1);
      NextInv(states[i - 1], steps[i - 1]);
    }
  }

  lemma InvLaid(states: seq<Device>, steps: seq<Step>)
    requires IsRun(states, steps)
    ensures |states| == |steps| + 1 && ArenasLaid(states[|steps|].endpoints)
  {
    RunShape(states, steps);
    RunInv(states, steps, |steps|);
    hide IsRun;
    var d := states[|steps|];
    InvSplit(d);
    hide Inv, ObjectsOk, CallsOk, AsyncOk, Laid;
    forall e | e in d.endpoints ensures EndpointOk(d.endpoints[e]) {}
  }

  /** Any enabled step can be taken next: no run gets stuck on a malformed arena. */
  lemma RunContinues(states: seq<Device>, steps: seq<Step>, s: Step)
    requires IsRun(states, steps) && Enabled(states[|steps|], s)
    ensures ArenasLaid(states[|steps|].endpoints) && IsRun(states + [Next(states[|steps|], s).d], steps + [s])
  {
    var d := states[|steps|];
    InvLaid(states, steps);
    hide Next, ArenasLaid, Enabled, Fresh;
    var states', steps' := states + [Next(d, s).d], steps + [s];
    assert states'[0] == states[0];
    forall i | 0 <= i < |steps'| ensures Takes(states'[i], steps'[i], states'[i + 1]) {
      if i < |steps| {
        assert Takes(states[i], steps[i], states[i + 1]);
        assert states'[i] == states[i] && states'[i + 1] == states[i + 1] && steps'[i] == steps[i];
      }
    }
  }

  /** In no run does any step find its tables broken: the driver's internal error returns are unreachable. */
  lemma NeverBroken(states: seq<Device>, steps: seq<Step>, i: nat)
    requires IsRun(states, steps) && i < |steps|
    ensures Enabled(states[i], steps[i]) && ArenasLaid(states[i].endpoints) && !Next(states[i], steps[i]).status.Broken?
  {
    hide *;
    RunStep(states, steps, i);
    RunInv(states, steps, i);
    NextInv(states[i], steps[i]);
  }
}
