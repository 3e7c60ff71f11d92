/** One invariant over all device tables, kept by every step. */
module BinderInvariant {
  import opened Base
  import opened BinderArena
  import opened BinderWire
  import opened BinderState
  import opened BinderCommands
  import opened BinderLifetime
  import opened BinderParcels
  import opened BinderBuffers
  import opened BinderCalls
  import opened BinderOneWay
  import opened BinderDeaths

  ghost predicate RefsHome(refs: seq<Reference>, tokens: set<nat>) {
    forall i {:trigger refs[i]} :: 0 <= i < |refs| && refs[i].endpoint != 0 ==> refs[i].endpoint in tokens
  }

  ghost predicate ManagerOk(nodes: seq<Node>, manager: nat, managerNode: nat, tokens: set<nat>) {
    && (manager == 0 ==> managerNode == 0)
    && (manager != 0 ==> manager in tokens && managerNode != 0 && HasManager(nodes, manager, managerNode))
  }

  ghost predicate HasManager(nodes: seq<Node>, manager: nat, managerNode: nat) {
    exists k :: 0 <= k < |nodes| && nodes[k].id == managerNode && nodes[k].owner == manager && nodes[k].manager
        && nodes[k].hasStrong
  }

  /** Tokens are handed out in order, so every owner the tables remember is an old one. */
  ghost predicate OwnersKnown(nodes: seq<Node>, deaths: seq<Death>, next: nat) {
    && next > 0
    && (forall k {:trigger nodes[k]} :: 0 <= k < |nodes| ==> nodes[k].owner < next)
    && (forall k {:trigger deaths[k]} :: 0 <= k < |deaths| ==> deaths[k].owner < next)
  }

  ghost predicate ErrorsOk(threads: Threads) {
    forall k {:trigger threads[k]} :: k in threads ==> threads[k].error in {0, BR_DEAD_REPLY, BR_FAILED_REPLY}
  }

  /** References, nodes, claims and death slots. */
  ghost predicate ObjectsOk(d: Device, tokens: set<nat>) {
    && LifeOk(d, tokens) && NoGarbage(d.nodes, d.references, d.claims) && RefsHome(d.references, tokens)
    && SlotsOk(d.references, d.deaths) && DeathsOk(d.deaths, tokens, d.nextSerial)
    && ManagerOk(d.nodes, d.manager, d.managerNode, tokens) && OwnersKnown(d.nodes, d.deaths, d.nextToken)
  }

  /** While `gone` is being released and transaction `x` cancelled; zero means neither is. */
  ghost predicate InvDuring(d: Device, gone: nat, x: nat) {
    && ObjectsOk(d, d.endpoints.Keys)
    && BuffersOk(d.endpoints, d.nextToken, d.work, d.claims, d.parcels)
    && CallsOk(d.threads, d.transactions, d.work, d.endpoints.Keys, d.nextTransaction, x) && ErrorsOk(d.threads)
    && AsyncOk(d.nodes, d.work, d.claims, d.endpoints, gone)
  }

  ghost predicate Inv(d: Device) {
    InvDuring(d, 0, 0)
  }

  lemma InvSplit(d: Device)
    requires Inv(d)
    ensures ObjectsOk(d, d.endpoints.Keys) && BuffersOk(d.endpoints, d.nextToken, d.work, d.claims, d.parcels)
    ensures CallsOk(d.threads, d.transactions, d.work, d.endpoints.Keys, d.nextTransaction, 0) && ErrorsOk(d.threads)
    ensures AsyncOk(d.nodes, d.work, d.claims, d.endpoints, 0)
  {
    hide ObjectsOk, BuffersOk, CallsOk, ErrorsOk, AsyncOk;
  }

  lemma InvJoin(d: Device)
    requires ObjectsOk(d, d.endpoints.Keys) && BuffersOk(d.endpoints, d.nextToken, d.work, d.claims, d.parcels)
    requires CallsOk(d.threads, d.transactions, d.work, d.endpoints.Keys, d.nextTransaction, 0) && ErrorsOk(d.threads)
    requires AsyncOk(d.nodes, d.work, d.claims, d.endpoints, 0)
    ensures Inv(d)
  {
    hide ObjectsOk, BuffersOk, CallsOk, ErrorsOk, AsyncOk;
  }

  lemma BuffersSplit(eps: Endpoints, next: nat, work: seq<Work>, claims: seq<Claim>, parcels: map<(nat, nat),
      seq<Flat>>)
    requires BuffersOk(eps, next, work, claims, parcels)
    ensures EndpointsOk(eps, next) && WorkHeld(eps, work) && ParcelsHeld(eps, claims, parcels)
  {
    hide EndpointsOk, WorkHeld, ClaimsHeld, ParcelsHeld;
  }

  // ---- releasing claims ----

  lemma CollectKeepsManager(nodes: seq<Node>, refs: seq<Reference>, claims: seq<Claim>, manager: nat, managerNode: nat,
      tokens: set<nat>)
    requires ManagerOk(nodes, manager, managerNode, tokens)
    ensures ManagerOk(Collect(nodes, refs, claims), manager, managerNode, tokens)
  {
    if manager != 0 {
      var k :| 0 <= k < |nodes| && nodes[k].id == managerNode && nodes[k].owner == manager && nodes[k].manager
          && nodes[k].hasStrong;
      assert Collect(nodes, refs, claims)[k] == nodes[k];
    }
  }

  lemma FreeReferencesEmpty(refs: seq<Reference>, claims: seq<Claim>, nodes: seq<Node>, except: nat)
    requires Linked(refs, claims, nodes, except)
    ensures forall i {:trigger refs[i]} :: 0 <= i < |refs| && refs[i].endpoint == 0 ==> refs[i] == NO_REFERENCE
  {
    forall i | 0 <= i < |refs| && refs[i].endpoint == 0 ensures refs[i] == NO_REFERENCE {
      assert RefOk(refs[i], nodes);
    }
  }

  lemma ReleaseKeepsOwners(nodes: seq<Node>, refs: seq<Reference>, refs': seq<Reference>, claims: seq<Claim>,
      deaths: seq<Death>, deaths': seq<Death>, next: nat)
    requires OwnersKnown(nodes, deaths, next) && DeathsFollow(refs, refs', deaths, deaths')
    ensures OwnersKnown(Collect(nodes, refs', claims), deaths', next)
  {
    hide Garbage;
  }

  /** `release_claims` keeps references, nodes and deaths in order. */
  lemma UnclaimKeepsObjects(d: Device, tokens: set<nat>, e: nat, b: nat)
    requires ObjectsOk(d, tokens) && e != 0
    ensures ObjectsOk(Unclaim(d, e, b), tokens)
  {
    var t := TablesOf(d);
    var r := ReleaseClaims(t, e, b);
    ReleaseClaimsLinked(t, d.nodes, 0, e, b, 0);
    ReleaseClaimsEffect(t, e, b, 0);
    FreeReferencesEmpty(d.references, d.claims, d.nodes, 0);
    ReleaseKeepsOwners(d.nodes, d.references, r.references, r.claims, d.deaths, r.deaths, d.nextToken);
    hide Linked, ReleaseClaims, OwnersKnown;
    CollectLinked(d.nodes, r.references, r.claims, 0);
    CollectNodesOk(d.nodes, r.references, r.claims, d.nextNode, tokens);
    CollectKeepsManager(d.nodes, r.references, r.claims, d.manager, d.managerNode, tokens);
    hide NodesOk, ManagerOk, NoGarbage, Collect;
    DropKeepsDeaths(d.references, r.references, d.deaths, r.deaths, tokens, d.nextSerial);
  }

  lemma UnclaimEffect(d: Device, e: nat, b: nat)
    requires e != 0
    ensures var u := Unclaim(d, e, b);
            && |u.claims| == |d.claims|
            && (forall c {:trigger u.claims[c]} :: 0 <= c < |d.claims| ==>
                 u.claims[c] == if Matches(d.claims[c], e, b) then NO_CLAIM else d.claims[c])
            && u.nodes == Collect(d.nodes, u.references, u.claims)
            && u == d.(references := u.references, deaths := u.deaths, claims := u.claims, nodes := u.nodes)
  {
    ReleaseClaimsEffect(TablesOf(d), e, b, 0);
  }

  // ---- dropping queued work ----

  lemma DropWorkParts(d: Device, j: nat)
    requires j < |d.work| && EndpointsOk(d.endpoints, d.nextToken) && WorkHeld(d.endpoints, d.work)
    ensures var w := d.work[j];
            var r := DropWork(d, j);
            var u := Unclaim(d, w.endpoint, w.value.dataBuffer);
            && w.endpoint != 0 && w.value.dataBuffer != 0
            && Taken(d.endpoints, r.endpoints, w.endpoint, w.value.dataBuffer) && EndpointsOk(r.endpoints, d.nextToken)
            && r.parcels == d.parcels - {(w.endpoint, w.value.dataBuffer)} && r.work == RemoveAt(d.work, j)
            && r.references == u.references && r.deaths == u.deaths && r.claims == u.claims && r.nodes == u.nodes
            && r == d.(endpoints := r.endpoints, parcels := r.parcels, work := r.work, references := r.references,
               deaths := r.deaths, claims := r.claims, nodes := r.nodes)
  {
    var w := d.work[j];
    assert Holds(d.endpoints, w.endpoint, w.value.dataBuffer, false);
    TakeBuffer(d.endpoints, d.nextToken, w.endpoint, w.value.dataBuffer, false);
  }

  lemma DropWorkKeepsAsync(d: Device, gone: nat, x: nat, j: nat)
    requires InvDuring(d, gone, x) && j < |d.work| && (d.work[j].endpoint == gone || d.work[j].asyncNode == 0)
    ensures var r := DropWork(d, j); AsyncOk(r.nodes, r.work, r.claims, r.endpoints, gone)
  {
    var w := d.work[j];
    var r := DropWork(d, j);
    DropWorkParts(d, j);
    UnclaimEffect(d, w.endpoint, w.value.dataBuffer);
    RemoveWorkHeld(d.endpoints, d.work, j);
    assert forall i {:trigger r.work[i]} :: 0 <= i < |r.work| ==> r.work[i].endpoint != 0 by {
      WorkEndpoints(d.endpoints, d.nextToken, r.work);
    }
    RemoveKeepsQueue(d.nodes, d.work, d.claims, gone, j);
    DropKeepsCurrents(d.nodes, d.work, d.endpoints, r.endpoints, gone, j);
    hide InvDuring, DropWork, Unclaim, Collect, QueueOk, CurrentsOk, WorkHeld;
    ReleaseKeepsQueue(d.nodes, r.work, d.claims, r.references, r.claims, gone, w.endpoint, w.value.dataBuffer);
    CollectKeepsCurrents(d.nodes, r.references, r.claims, r.work, r.endpoints, gone);
  }

  lemma WorkEndpoints(eps: Endpoints, next: nat, work: seq<Work>)
    requires EndpointsOk(eps, next) && WorkHeld(eps, work)
    ensures forall i {:trigger work[i]} :: 0 <= i < |work| ==> work[i].endpoint in eps && work[i].endpoint != 0
  {
    forall i | 0 <= i < |work| ensures work[i].endpoint in eps && work[i].endpoint != 0 {
      assert Holds(eps, work[i].endpoint, work[i].value.dataBuffer, false);
    }
  }

  lemma DropWorkInv(d: Device, gone: nat, x: nat, j: nat)
    requires InvDuring(d, gone, x) && j < |d.work|
    requires d.work[j].transaction == 0 || d.work[j].transaction == x
    requires d.work[j].endpoint == gone || d.work[j].asyncNode == 0
    ensures InvDuring(DropWork(d, j), gone, x)
    ensures DropWork(d, j).endpoints.Keys == d.endpoints.Keys
  {
    var w := d.work[j];
    var r := DropWork(d, j);
    DropWorkParts(d, j);
    DropWorkKeepsAsync(d, gone, x, j);
    UnclaimEffect(d, w.endpoint, w.value.dataBuffer);
    UnclaimKeepsObjects(d, d.endpoints.Keys, w.endpoint, w.value.dataBuffer);
    RemoveWorkHeld(d.endpoints, d.work, j);
    hide DropWork, Unclaim, AsyncOk;
    TakeKeepsBuffers(d.endpoints, d.nextToken, d.work, d.claims, d.parcels, r.endpoints, r.work, r.claims, w.endpoint,
        w.value.dataBuffer);
    RemoveKeepsCalls(d.threads, d.transactions, d.work, d.endpoints.Keys, d.nextTransaction, x, j);
    var u := Unclaim(d, w.endpoint, w.value.dataBuffer);
    assert ObjectsOk(r, d.endpoints.Keys) by { SameObjects(u, r, d.endpoints.Keys); }
  }

  lemma SameObjects(a: Device, b: Device, tokens: set<nat>)
    requires ObjectsOk(a, tokens)
    requires b.references == a.references && b.deaths == a.deaths && b.claims == a.claims && b.nodes == a.nodes
    requires b.nextNode == a.nextNode && b.nextSerial == a.nextSerial && b.manager == a.manager
             && b.managerNode == a.managerNode && b.nextToken == a.nextToken
    ensures ObjectsOk(b, tokens)
  {
  }

  // ---- cancelling calls ----

  /** None of the first `n` entries is for the transaction. */
  ghost predicate NoneFor(work: seq<Work>, x: nat, n: nat) {
    forall i {:trigger work[i]} :: 0 <= i < n && i < |work| ==> work[i].transaction != x
  }

  lemma {:induction false} DropWorkOfInv(d: Device, gone: nat, x: nat, j: nat)
    requires InvDuring(d, gone, x) && x != 0 && j <= |d.work| && NoneFor(d.work, x, j)
    ensures var r := DropWorkOf(d, x, j);
            && InvDuring(r, gone, x) && r.endpoints.Keys == d.endpoints.Keys
            && r.transactions == d.transactions && r.threads == d.threads && NoneFor(r.work, x, |r.work|)
    decreases |d.work| - j
  {
    hide *;
    var next := j + 1;
    DropWorkOfIs(d, x, j, next);
    if j < |d.work| {
      if d.work[j].transaction == x {
        RequestedWork(d, gone, x, j);
        DropWorkKeepsCalls(d, j);
        NoneLeft(d.work, DropWork(d, j).work, x, j);
        DropWorkInv(d, gone, x, j);
        DropWorkOfInv(DropWork(d, j), gone, x, j);
      } else {
        NoneNext(d.work, x, j, next);
        DropWorkOfInv(d, gone, x, next);
      }
    }
  }

  lemma NoneNext(work: seq<Work>, x: nat, j: nat, next: nat)
    requires NoneFor(work, x, j) && j < |work| && work[j].transaction != x && next == j + 1
    ensures NoneFor(work, x, next)
  {
  }

  lemma NoneLeft(work: seq<Work>, work': seq<Work>, x: nat, j: nat)
    requires NoneFor(work, x, j) && j < |work| && work' == RemoveAt(work, j)
    ensures NoneFor(work', x, j) && |work'| == |work| - 1
  {
  }

  lemma DropWorkOfIs(d: Device, x: nat, j: nat, next: nat)
    requires j <= |d.work| && next == j + 1
    ensures j == |d.work| ==> DropWorkOf(d, x, j) == d
    ensures j < |d.work| && d.work[j].transaction == x ==> DropWorkOf(d, x, j) == DropWorkOf(DropWork(d, j), x, j)
    ensures j < |d.work| && d.work[j].transaction != x ==> DropWorkOf(d, x, j) == DropWorkOf(d, x, next)
  {
    hide DropWork;
  }

  lemma RequestedWork(d: Device, gone: nat, x: nat, j: nat)
    requires InvDuring(d, gone, x) && x != 0 && j < |d.work| && d.work[j].transaction == x
    ensures d.work[j].asyncNode == 0
  {
    hide ObjectsOk, BuffersOk, AsyncOk;
    assert RequestOk(d.work[j], d.transactions, d.endpoints.Keys);
  }

  lemma CancelCallInv(d: Device, gone: nat, i: nat)
    requires InvDuring(d, gone, 0) && i < |d.transactions| && d.transactions[i].id != 0
    ensures var r := CancelCall(d, i);
            && InvDuring(r, gone, 0) && r.endpoints.Keys == d.endpoints.Keys
            && r.transactions == d.transactions[i := d.transactions[i].(id := 0)] && r.threads.Keys == d.threads.Keys
  {
    var t := d.transactions[i];
    var told := d.(threads := OrphanTarget(FailSource(d.threads, t), t));
    ToldInv(d, gone, i);
    ToldKeys(d.threads, t);
    hide FailSource, OrphanTarget, InvDuring;
    DropWorkOfInv(told, gone, t.id, 0);
    var r := DropWorkOf(told, t.id);
    hide DropWorkOf;
    CancelledInv(r, gone, i);
  }

  lemma ToldKeys(threads: Threads, t: Transaction)
    ensures OrphanTarget(FailSource(threads, t), t).Keys == threads.Keys
  {
  }

  lemma ToldInv(d: Device, gone: nat, i: nat)
    requires InvDuring(d, gone, 0) && i < |d.transactions| && d.transactions[i].id != 0
    ensures InvDuring(d.(threads := OrphanTarget(FailSource(d.threads, d.transactions[i]), d.transactions[i])), gone,
            d.transactions[i].id)
  {
    var t := d.transactions[i];
    TellKeepsCalls(d.threads, d.transactions, d.work, d.endpoints.Keys, d.nextTransaction, i);
    var told := d.(threads := OrphanTarget(FailSource(d.threads, t), t));
    assert ErrorsOk(told.threads);
    hide CallsOk, AsyncOk, BuffersOk, ObjectsOk, OrphanTarget, FailSource, ErrorsOk;
    SameObjects(d, told, d.endpoints.Keys);
  }

  lemma CancelledInv(r: Device, gone: nat, i: nat)
    requires i < |r.transactions| && r.transactions[i].id != 0 && InvDuring(r, gone, r.transactions[i].id)
    requires forall j {:trigger r.work[j]} :: 0 <= j < |r.work| ==> r.work[j].transaction != r.transactions[i].id
    ensures InvDuring(r.(transactions := r.transactions[i := r.transactions[i].(id := 0)]), gone, 0)
  {
    ForgetKeepsCalls(r.threads, r.transactions, r.work, r.endpoints.Keys, r.nextTransaction, i);
    hide CallsOk, AsyncOk, BuffersOk, ObjectsOk, ErrorsOk;
    SameObjects(r, r.(transactions := r.transactions[i := r.transactions[i].(id := 0)]), r.endpoints.Keys);
  }

  lemma {:induction false} CancelCallsInv(d: Device, gone: nat, e: nat, tid: nat, i: nat)
    requires InvDuring(d, gone, 0) && i <= |d.transactions|
    ensures var r := CancelCalls(d, e, tid, i);
            && InvDuring(r, gone, 0) && r.endpoints.Keys == d.endpoints.Keys && |r.transactions| == |d.transactions|
            && r.threads.Keys == d.threads.Keys
            && (forall k {:trigger r.transactions[k]} :: 0 <= k < i ==> r.transactions[k] == d.transactions[k])
            && (forall k {:trigger r.transactions[k]} :: i <= k < |d.transactions| ==>
                 !Involves(r.transactions[k], e, tid))
    decreases |d.transactions| - i
  {
    hide InvDuring;
    if i < |d.transactions| {
      if Involves(d.transactions[i], e, tid) {
        CancelCallInv(d, gone, i);
        CancelCallsInv(CancelCall(d, i), gone, e, tid, i + 1);
      } else {
        CancelCallsInv(d, gone, e, tid, i + 1);
      }
    }
  }

  ghost predicate Uninvolved(ts: seq<Transaction>, e: nat, tid: nat) {
    forall k {:trigger ts[k]} :: 0 <= k < |ts| ==> !Involves(ts[k], e, tid)
  }

  /** What is still queued for a departing thread or process is no live call's request. */
  lemma Droppable(d: Device, gone: nat, e: nat, tid: nat, j: nat)
    requires InvDuring(d, gone, 0) && Uninvolved(d.transactions, e, tid) && j < |d.work|
    requires d.work[j].endpoint == e && (tid == 0 || d.work[j].tid == tid)
    ensures d.work[j].transaction == 0 && (tid != 0 ==> d.work[j].asyncNode == 0)
  {
    assert RequestOk(d.work[j], d.transactions, d.endpoints.Keys);
  }

  lemma DropWorkKeepsCalls(d: Device, j: nat)
    requires j < |d.work|
    ensures DropWork(d, j).transactions == d.transactions && DropWork(d, j).threads == d.threads
    ensures DropWork(d, j).work == RemoveAt(d.work, j)
  {
  }

  lemma {:induction false} DropWorkForInv(d: Device, gone: nat, e: nat, tid: nat, j: nat)
    requires InvDuring(d, gone, 0) && Uninvolved(d.transactions, e, tid) && j <= |d.work| && (tid == 0 ==> gone == e)
    requires forall i {:trigger d.work[i]} :: 0 <= i < j ==>
               !(d.work[i].endpoint == e && (tid == 0 || d.work[i].tid == tid))
    ensures var r := DropWorkFor(d, e, tid, j);
            && InvDuring(r, gone, 0) && r.endpoints.Keys == d.endpoints.Keys && r.transactions == d.transactions
            && r.threads == d.threads
            && forall i {:trigger r.work[i]} :: 0 <= i < |r.work| ==>
                 !(r.work[i].endpoint == e && (tid == 0 || r.work[i].tid == tid))
    decreases |d.work| - j
  {
    hide InvDuring, Involves;
    if j < |d.work| {
      if d.work[j].endpoint == e && (tid == 0 || d.work[j].tid == tid) {
        Droppable(d, gone, e, tid, j);
        DropWorkKeepsCalls(d, j);
        DropWorkInv(d, gone, 0, j);
        DropWorkForInv(DropWork(d, j), gone, e, tid, j);
      } else {
        DropWorkForInv(d, gone, e, tid, j + 1);
      }
    }
  }

  /** `cancel_transactions` leaves nothing that concerns the departing thread or process. */
  lemma CancelInv(d: Device, e: nat, tid: nat)
    requires Inv(d)
    ensures var r := Cancel(d, e, tid);
            && InvDuring(r, if tid == 0 then e else 0, 0) && r.endpoints.Keys == d.endpoints.Keys
            && r.threads.Keys == d.threads.Keys
            && Uninvolved(r.transactions, e, tid)
            && forall i {:trigger r.work[i]} :: 0 <= i < |r.work| ==>
                 !(r.work[i].endpoint == e && (tid == 0 || r.work[i].tid == tid))
  {
    var gone := if tid == 0 then e else 0;
    Weaken(d, e, gone);
    hide Inv, InvDuring, Involves, CancelCalls, DropWorkFor;
    CancelCallsInv(d, gone, e, tid, 0);
    var r := CancelCalls(d, e, tid);
    assert Uninvolved(r.transactions, e, tid);
    hide Uninvolved;
    DropWorkForInv(r, gone, e, tid, 0);
  }

  lemma Weaken(d: Device, e: nat, gone: nat)
    requires Inv(d) && (gone == 0 || gone == e)
    ensures InvDuring(d, gone, 0)
  {
    assert 0 !in d.endpoints;
    WorkEndpoints(d.endpoints, d.nextToken, d.work);
    hide ObjectsOk, BuffersOk, CallsOk, HasTarget, CurrentOk;
  }
}
