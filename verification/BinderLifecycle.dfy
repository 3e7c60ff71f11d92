/** Threads leaving and processes being released keep the device invariant. */
module BinderLifecycle {
  import opened Base
  import opened BinderArena
  import opened BinderWire
  import opened BinderState
  import opened BinderCommands
  import opened BinderLifetime
  import opened BinderParcels
  import opened BinderBuffers
  import opened BinderCalls
  import opened BinderOneWay
  import opened BinderDeaths
  import opened BinderInvariant

  // ---- BINDER_THREAD_EXIT ----

  lemma RemoveThreadKeepsCalls(threads: Threads, ts: seq<Transaction>, work: seq<Work>, tokens: set<nat>, next: nat,
      e: nat, tid: nat)
    requires CallsOk(threads, ts, work, tokens, next, 0) && Uninvolved(ts, e, tid)
    ensures CallsOk(threads - {(e, tid)}, ts, work, tokens, next, 0)
  {
    hide RequestsOk, Queued;
    var threads' := threads - {(e, tid)};
    forall i | 0 <= i < |ts| && ts[i].id != 0 ensures TransactionOk(ts[i], threads', work, tokens) {
      assert TransactionOk(ts[i], threads, work, tokens);
    }
    forall k | k in threads' ensures ThreadOk(threads'[k], k, ts, 0) {
      assert threads'[k] == threads[k];
    }
  }

  lemma TidKeepsLinked(refs: seq<Reference>, claims: seq<Claim>, nodes: seq<Node>, nodes': seq<Node>, except: nat)
    requires Linked(refs, claims, nodes, except) && |nodes'| == |nodes|
    requires forall k {:trigger nodes'[k]} :: 0 <= k < |nodes| ==>
               nodes'[k].id == nodes[k].id && nodes'[k].owner == nodes[k].owner
    ensures Linked(refs, claims, nodes', except)
  {
    forall i | 0 <= i < |refs| ensures RefOk(refs[i], nodes') {
      assert RefOk(refs[i], nodes);
      if refs[i].endpoint != 0 {
        var k :| 0 <= k < |nodes| && nodes[k].id == refs[i].node && nodes[k].owner == refs[i].owner;
        assert nodes'[k].id == refs[i].node;
      }
    }
    forall i | 0 <= i < |claims| ensures ClaimOk(claims[i], refs, nodes', except) {
      var c := claims[i];
      assert ClaimOk(c, refs, nodes, except);
      if c.endpoint != 0 && c.endpoint != except && !c.remote {
        var k :| 0 <= k < |nodes| && nodes[k].id == c.node && nodes[k].owner == c.endpoint;
        assert nodes'[k].id == c.node;
      }
    }
  }

  /** A change of notification threads and current one-way buffers alone. */
  ghost predicate OnlyRouting(nodes: seq<Node>, nodes': seq<Node>) {
    |nodes'| == |nodes| && forall k {:trigger nodes'[k]} :: 0 <= k < |nodes| ==>
      nodes'[k] == nodes[k].(tid := nodes'[k].tid, asyncBuffer := nodes'[k].asyncBuffer)
          && (nodes[k].id == 0 ==> nodes'[k] == nodes[k])
  }

  lemma RoutingKeepsObjects(d: Device, nodes': seq<Node>, tokens: set<nat>)
    requires ObjectsOk(d, tokens) && OnlyRouting(d.nodes, nodes')
    ensures ObjectsOk(d.(nodes := nodes'), tokens)
  {
    TidKeepsLinked(d.references, d.claims, d.nodes, nodes', 0);
    hide Linked;
    assert NodesOk(nodes', d.nextNode, tokens) by {
      forall i | 0 <= i < |nodes'|
        ensures NodeOk(nodes'[i], d.nextNode, tokens)
      {
        assert NodeOk(d.nodes[i], d.nextNode, tokens);
      }
    }
    assert NoGarbage(nodes', d.references, d.claims) by {
      forall i | 0 <= i < |nodes'|
        ensures !Garbage(d.references, d.claims, nodes'[i])
      {
        assert !Garbage(d.references, d.claims, d.nodes[i]);
      }
    }
    if d.manager != 0 {
      var k :| 0 <= k < |d.nodes| && d.nodes[k].id == d.managerNode && d.nodes[k].owner == d.manager
          && d.nodes[k].manager && d.nodes[k].hasStrong;
      assert nodes'[k].id == d.managerNode;
    }
  }

  lemma WipeKeepsDeaths(refs: seq<Reference>, deaths: seq<Death>, deaths': seq<Death>, tokens: set<nat>,
      nextSerial: nat)
    requires SlotsOk(refs, deaths) && DeathsOk(deaths, tokens, nextSerial) && |deaths'| == |deaths|
    requires forall k {:trigger deaths'[k]} :: 0 <= k < |deaths| ==>
               deaths'[k] == deaths[k] || (deaths'[k] == NO_DEATH && deaths[k].tid != 0)
    ensures SlotsOk(refs, deaths') && DeathsOk(deaths', tokens, nextSerial)
  {
    forall i | 0 <= i < |refs| && refs[i].endpoint != 0 && refs[i].death != 0
      ensures refs[i].death <= |deaths'| && Attached(deaths'[refs[i].death - 1], refs[i])
    {
      assert Attached(deaths[refs[i].death - 1], refs[i]);
    }
    forall k | 0 <= k < |deaths'| ensures DeathOk(deaths'[k], tokens, nextSerial) {
      assert DeathOk(deaths[k], tokens, nextSerial);
    }
  }

  lemma ThreadExitInv(d: Device, e: nat, tid: nat)
    requires Inv(d) && tid > 0
    ensures Inv(ThreadExit(d, e, tid)) && ThreadExit(d, e, tid).endpoints.Keys == d.endpoints.Keys
  {
    var d1 := Cancel(d, e, tid);
    var r := ThreadExit(d, e, tid);
    assert r == d1.(threads := d1.threads - {(e, tid)}, nodes := r.nodes, deaths := r.deaths);
    LeftTables(d1, r, e, tid);
    hide Inv, ThreadExit, Cancel;
    CancelInv(d, e, tid);
    DuringIs(d1);
    InvSplit(d1);
    hide *;
    RemoveThreadKeepsCalls(d1.threads, d1.transactions, d1.work, d1.endpoints.Keys, d1.nextTransaction, e, tid);
    LeftObjects(d1, r, tid);
    FlagsKeepAsync(d1.nodes, r.nodes, d1.work, d1.claims, d1.endpoints, 0);
    FewerErrors(d1.threads, r.threads);
    InvJoin(r);
  }

  lemma DuringIs(d: Device)
    requires InvDuring(d, 0, 0)
    ensures Inv(d)
  {
    hide InvDuring;
  }

  lemma FewerErrors(threads: Threads, threads': Threads)
    requires ErrorsOk(threads) && threads'.Keys <= threads.Keys && forall k {:trigger threads'[k]} :: k in threads' ==>
               threads'[k] == threads[k]
    ensures ErrorsOk(threads')
  {
  }

  /** What is left of the tables when a thread has gone. */
  lemma LeftTables(d: Device, r: Device, e: nat, tid: nat)
    requires tid > 0 && |r.nodes| == |d.nodes| && |r.deaths| == |d.deaths|
    requires forall k {:trigger r.nodes[k]} :: 0 <= k < |d.nodes| ==> r.nodes[k] == LeftNode(d.nodes[k], e, tid)
    requires forall k {:trigger r.deaths[k]} :: 0 <= k < |d.deaths| ==> r.deaths[k] == LeftDeath(d.deaths[k], e, tid)
    ensures OnlyRouting(d.nodes, r.nodes)
    ensures forall k {:trigger r.nodes[k]} :: 0 <= k < |d.nodes| ==> r.nodes[k] == d.nodes[k].(tid := r.nodes[k].tid)
    ensures forall k {:trigger r.deaths[k]} :: 0 <= k < |d.deaths| ==>
              r.deaths[k] == d.deaths[k] || (r.deaths[k] == NO_DEATH && d.deaths[k].tid != 0)
  {
  }

  lemma LeftObjects(d: Device, r: Device, tid: nat)
    requires ObjectsOk(d, d.endpoints.Keys) && OnlyRouting(d.nodes, r.nodes) && |r.deaths| == |d.deaths|
    requires forall k {:trigger r.deaths[k]} :: 0 <= k < |d.deaths| ==>
               r.deaths[k] == d.deaths[k] || (r.deaths[k] == NO_DEATH && d.deaths[k].tid != 0)
    requires r == d.(threads := r.threads, nodes := r.nodes, deaths := r.deaths)
    ensures ObjectsOk(r, d.endpoints.Keys)
  {
    WipeKeepsDeaths(d.references, d.deaths, r.deaths, d.endpoints.Keys, d.nextSerial);
    RoutingKeepsObjects(d, r.nodes, d.endpoints.Keys);
    hide LifeOk, NoGarbage, ManagerOk, SlotsOk, DeathsOk, OnlyRouting;
  }

  // ---- release_endpoint ----

  ghost predicate RefsReleased(refs: seq<Reference>, refs': seq<Reference>, token: nat) {
    |refs'| == |refs| && forall i {:trigger refs'[i]} :: 0 <= i < |refs| ==>
          refs'[i] == if refs[i].endpoint == token then NO_REFERENCE else refs[i]
  }

  lemma ReleaseKeepsLinked(refs: seq<Reference>, refs': seq<Reference>, claims: seq<Claim>, nodes: seq<Node>,
      token: nat)
    requires Linked(refs, claims, nodes, 0) && RefsReleased(refs, refs', token) && token != 0
    ensures Linked(refs', claims, nodes, token)
  {
    forall i | 0 <= i < |refs'| ensures RefOk(refs'[i], nodes) {
      assert RefOk(refs[i], nodes);
    }
    forall i | 0 <= i < |claims| ensures ClaimOk(claims[i], refs', nodes, token) {
      var c := claims[i];
      assert ClaimOk(c, refs, nodes, 0);
      if c.endpoint != 0 && c.endpoint != token && c.remote {
        var k :| 0 <= k < |refs| && refs[k].endpoint == c.endpoint && refs[k].node == c.node
            && refs[k].handle == c.handle;
        assert refs'[k] == refs[k];
      }
    }
  }

  lemma ReleaseKeepsDeaths(d: Device, refs': seq<Reference>, deaths': seq<Death>, tokens: set<nat>, token: nat)
    requires SlotsOk(d.references, d.deaths) && DeathsOk(d.deaths, tokens, d.nextSerial) && token != 0
    requires RefsReleased(d.references, refs', token) && |deaths'| == |d.deaths|
    requires forall k {:trigger deaths'[k]} :: 0 <= k < |d.deaths| ==> deaths'[k] == ReleasedDeath(d, token, k)
    ensures SlotsOk(refs', deaths') && DeathsOk(deaths', tokens - {token}, d.nextSerial)
  {
    var refs, deaths := d.references, d.deaths;
    forall i | 0 <= i < |refs'| && refs'[i].endpoint != 0 && refs'[i].death != 0
      ensures refs'[i].death <= |deaths'| && Attached(deaths'[refs'[i].death - 1], refs'[i])
    {
      assert refs'[i] == refs[i];
      assert Attached(deaths[refs[i].death - 1], refs[i]);
    }
    forall k | 0 <= k < |deaths'| ensures DeathOk(deaths'[k], tokens - {token}, d.nextSerial) {
      assert DeathOk(deaths[k], tokens, d.nextSerial);
    }
  }

  lemma ReleasedNodesOk(nodes: seq<Node>, nodes': seq<Node>, nextNode: nat, tokens: set<nat>, token: nat)
    requires NodesOk(nodes, nextNode, tokens) && |nodes'| == |nodes|
    requires forall k {:trigger nodes'[k]} :: 0 <= k < |nodes| ==> nodes'[k] == ReleasedNode(nodes[k], token)
    ensures NodesOk(nodes', nextNode, tokens - {token})
  {
    forall i | 0 <= i < |nodes'| ensures NodeOk(nodes'[i], nextNode, tokens - {token}) {
      assert NodeOk(nodes[i], nextNode, tokens);
    }
  }

  lemma ReleasedKeepsAsync(nodes: seq<Node>, nodes': seq<Node>, work: seq<Work>, claims: seq<Claim>, eps: Endpoints,
      token: nat)
    requires AsyncOk(nodes, work, claims, eps, token) && |nodes'| == |nodes|
    requires forall k {:trigger nodes'[k]} :: 0 <= k < |nodes| ==> nodes'[k] == ReleasedNode(nodes[k], token)
    ensures AsyncOk(nodes', work, claims, eps, token)
  {
    hide Holds, NextAsync;
    forall j | 0 <= j < |work| && work[j].asyncNode != 0 && work[j].endpoint != token
      ensures HasTarget(nodes', claims, work[j])
    {
      var x :| 0 <= x < |nodes| && nodes[x].id == work[j].asyncNode && nodes[x].owner == work[j].endpoint
          && nodes[x].asyncBuffer != 0 && KeptFor(nodes[x], claims, work[j]);
      assert nodes'[x] == nodes[x];
    }
    forall k | 0 <= k < |nodes'| && Busy(nodes'[k], eps, token) ensures CurrentOk(nodes'[k], work, eps) {
      assert CurrentOk(nodes[k], work, eps);
    }
  }

  /** The state after an endpoint's references, claims and queued work are gone, before its slot is. */
  ghost predicate Released(d: Device, token: nat) {
    var rest := d.endpoints.Keys - {token};
    && NodesOk(d.nodes, d.nextNode, rest) && d.nextNode > 0 && Linked(d.references, d.claims, d.nodes, 0)
    && NoGarbage(d.nodes, d.references, d.claims) && RefsHome(d.references, rest)
    && SlotsOk(d.references, d.deaths) && DeathsOk(d.deaths, rest, d.nextSerial)
    && AsyncOk(d.nodes, d.work, d.claims, d.endpoints, token)
    && (d.manager != token ==> ManagerOk(d.nodes, d.manager, d.managerNode, rest))
    && (forall c {:trigger d.claims[c]} :: 0 <= c < |d.claims| ==> d.claims[c].endpoint != token)
    && OwnersKnown(d.nodes, d.deaths, d.nextToken)
  }

  lemma ReleasedOwners(d: Device, token: nat)
    requires OwnersKnown(d.nodes, d.deaths, d.nextToken)
    ensures var r := ReleaseReferences(d, token); OwnersKnown(r.nodes, r.deaths, r.nextToken)
  {
    hide Garbage;
  }

  lemma ReleaseReferencesParts(d: Device, token: nat)
    requires InvDuring(d, token, 0) && token in d.endpoints
    ensures var r := ReleaseReferences(d, token);
            var rest := d.endpoints.Keys - {token};
            && NodesOk(r.nodes, r.nextNode, rest) && Linked(r.references, r.claims, r.nodes, token)
            && RefsHome(r.references, rest) && SlotsOk(r.references, r.deaths) && DeathsOk(r.deaths, rest, r.nextSerial)
            && r == d.(references := r.references, deaths := r.deaths, nodes := r.nodes)
            && (forall i {:trigger r.references[i]} :: 0 <= i < |r.references| ==> r.references[i].endpoint != token)
            && OwnersKnown(r.nodes, r.deaths, r.nextToken)
  {
    var r := ReleaseReferences(d, token);
    ReleasedOwners(d, token);
    var nodes := seq(|d.nodes|, k requires 0 <= k < |d.nodes| => ReleasedNode(d.nodes[k], token));
    assert RefsReleased(d.references, r.references, token);
    ReleaseKeepsLinked(d.references, r.references, d.claims, d.nodes, token);
    TidKeepsLinked(r.references, d.claims, d.nodes, nodes, token);
    CollectLinked(nodes, r.references, d.claims, token);
    ReleasedNodesOk(d.nodes, nodes, d.nextNode, d.endpoints.Keys, token);
    CollectNodesOk(nodes, r.references, d.claims, d.nextNode, d.endpoints.Keys - {token});
    hide Linked, NodesOk, Collect;
    ReleaseKeepsDeaths(d, r.references, r.deaths, d.endpoints.Keys, token);
  }

  lemma ReleaseReferencesQueue(d: Device, token: nat)
    requires InvDuring(d, token, 0) && token in d.endpoints
    requires forall j {:trigger d.work[j]} :: 0 <= j < |d.work| ==> d.work[j].endpoint != token
    ensures var r := ReleaseReferences(d, token);
            && AsyncOk(r.nodes, r.work, r.claims, r.endpoints, token)
            && (d.manager != token ==> ManagerOk(r.nodes, r.manager, r.managerNode, d.endpoints.Keys - {token}))
  {
    var r := ReleaseReferences(d, token);
    var nodes := seq(|d.nodes|, k requires 0 <= k < |d.nodes| => ReleasedNode(d.nodes[k], token));
    ReleasedKeepsAsync(d.nodes, nodes, d.work, d.claims, d.endpoints, token);
    WorkEndpoints(d.endpoints, d.nextToken, d.work);
    assert d.manager != token ==> ManagerOk(nodes, d.manager, d.managerNode, d.endpoints.Keys - {token}) by {
      if d.manager != 0 && d.manager != token {
        var k :| 0 <= k < |d.nodes| && d.nodes[k].id == d.managerNode && d.nodes[k].owner == d.manager
            && d.nodes[k].manager && d.nodes[k].hasStrong;
        assert nodes[k] == d.nodes[k];
      }
    }
    hide InvDuring, QueueOk, CurrentsOk, ManagerOk;
    CollectKeepsQueue(nodes, d.work, d.claims, r.references, token);
    CollectKeepsCurrents(nodes, r.references, d.claims, d.work, d.endpoints, token);
    if d.manager != token {
      CollectKeepsManager(nodes, r.references, d.claims, d.manager, d.managerNode, d.endpoints.Keys - {token});
    }
  }

  lemma CollectKeepsQueue(nodes: seq<Node>, work: seq<Work>, claims: seq<Claim>, refs: seq<Reference>, gone: nat)
    requires QueueOk(nodes, work, claims, gone)
    requires forall j {:trigger work[j]} :: 0 <= j < |work| ==> work[j].endpoint != 0
    ensures QueueOk(Collect(nodes, refs, claims), work, claims, gone)
  {
    var after := Collect(nodes, refs, claims);
    assert Aligned(after, work) by {
      hide Garbage;
      forall j, k | 0 <= j < |work| && 0 <= k < |after| && work[j].asyncNode != 0 && after[k].id == work[j].asyncNode
        ensures after[k].owner == work[j].endpoint
      {
        assert after[k] == nodes[k];
      }
    }
    forall j | 0 <= j < |work| && work[j].asyncNode != 0 && work[j].endpoint != gone
      ensures HasTarget(after, claims, work[j])
    {
      var k :| 0 <= k < |nodes| && nodes[k].id == work[j].asyncNode && nodes[k].owner == work[j].endpoint
          && nodes[k].asyncBuffer != 0 && KeptFor(nodes[k], claims, work[j]);
      KeptUncollected(nodes, refs, claims, k, work[j]);
    }
  }

  lemma ReleasedUnclaim(d: Device, token: nat)
    requires InvDuring(d, token, 0) && token in d.endpoints
    requires forall j {:trigger d.work[j]} :: 0 <= j < |d.work| ==> d.work[j].endpoint != token
    ensures var r := Unclaim(ReleaseReferences(d, token), token, 0); Released(r, token)
    ensures var r := Unclaim(ReleaseReferences(d, token), token, 0);
            r == d.(references := r.references, deaths := r.deaths, claims := r.claims, nodes := r.nodes)
            && |r.claims| == |d.claims| && forall c {:trigger r.claims[c]} :: 0 <= c < |d.claims| ==>
                 r.claims[c] == if Matches(d.claims[c], token, 0) then NO_CLAIM else d.claims[c]
  {
    var m := ReleaseReferences(d, token);
    WorkEndpoints(d.endpoints, d.nextToken, d.work);
    assert d.nextNode > 0 && token != 0;
    hide ReleaseReferences, InvDuring, Linked, NodesOk, DeathsOk, SlotsOk, OwnersKnown, RefsHome, AsyncOk, ManagerOk;
    ReleaseReferencesParts(d, token);
    ReleaseReferencesQueue(d, token);
    var rest := d.endpoints.Keys - {token};
    UnclaimEffect(m, token, 0);
    UnclaimReleased(m, token, rest);
    UnclaimReleasedQueue(m, token, rest);
    hide Unclaim, NoGarbage, Collect;
  }

  lemma UnclaimReleased(m: Device, token: nat, rest: set<nat>)
    requires NodesOk(m.nodes, m.nextNode, rest) && Linked(m.references, m.claims, m.nodes, token) && token != 0
             && RefsHome(m.references, rest)
    requires SlotsOk(m.references, m.deaths) && DeathsOk(m.deaths, rest, m.nextSerial)
             && OwnersKnown(m.nodes, m.deaths, m.nextToken)
    ensures var r := Unclaim(m, token, 0);
            && NodesOk(r.nodes, r.nextNode, rest) && Linked(r.references, r.claims, r.nodes, 0)
            && NoGarbage(r.nodes, r.references, r.claims)
            && RefsHome(r.references, rest) && SlotsOk(r.references, r.deaths) && DeathsOk(r.deaths, rest, r.nextSerial)
            && (forall c {:trigger r.claims[c]} :: 0 <= c < |r.claims| ==> r.claims[c].endpoint != token)
            && OwnersKnown(r.nodes, r.deaths, r.nextToken)
  {
    var t := TablesOf(m);
    var u := ReleaseClaims(t, token, 0);
    var r := Unclaim(m, token, 0);
    ReleaseClaimsLinked(t, m.nodes, token, token, 0, 0);
    ReleaseClaimsEffect(t, token, 0, 0);
    FreeReferencesEmpty(m.references, m.claims, m.nodes, token);
    hide ReleaseClaims, Linked, NodesOk;
    ReleaseKeepsOwners(m.nodes, m.references, u.references, u.claims, m.deaths, u.deaths, m.nextToken);
    hide OwnersKnown, Collect;
    DropKeepsDeaths(m.references, u.references, m.deaths, u.deaths, rest, m.nextSerial);
    CollectLinked(m.nodes, u.references, u.claims, token);
    CollectNodesOk(m.nodes, u.references, u.claims, m.nextNode, rest);
    hide SlotsOk, DeathsOk, NoGarbage, DeathsFollow;
    AllReleased(r.references, r.claims, r.nodes, token);
  }

  lemma UnclaimReleasedQueue(m: Device, token: nat, rest: set<nat>)
    requires AsyncOk(m.nodes, m.work, m.claims, m.endpoints, token) && token != 0
    requires forall j {:trigger m.work[j]} :: 0 <= j < |m.work| ==>
               m.work[j].endpoint != token && m.work[j].endpoint != 0
    requires m.manager != token ==> ManagerOk(m.nodes, m.manager, m.managerNode, rest)
    ensures var r := Unclaim(m, token, 0);
            && AsyncOk(r.nodes, r.work, r.claims, r.endpoints, token)
            && (m.manager != token ==> ManagerOk(r.nodes, r.manager, r.managerNode, rest))
  {
    var t := TablesOf(m);
    var u := ReleaseClaims(t, token, 0);
    ReleaseClaimsEffect(t, token, 0, 0);
    hide ReleaseClaims, Collect, QueueOk, CurrentsOk, ManagerOk, DeathsFollow, Loosened;
    ReleaseKeepsQueue(m.nodes, m.work, m.claims, u.references, u.claims, token, token, 0);
    CollectKeepsCurrents(m.nodes, u.references, u.claims, m.work, m.endpoints, token);
    if m.manager != token {
      CollectKeepsManager(m.nodes, u.references, u.claims, m.manager, m.managerNode, rest);
    }
  }

  lemma AllReleased(refs: seq<Reference>, claims: seq<Claim>, nodes: seq<Node>, token: nat)
    requires Linked(refs, claims, nodes, token)
    requires forall c {:trigger claims[c]} :: 0 <= c < |claims| ==> claims[c].endpoint != token
    ensures Linked(refs, claims, nodes, 0)
  {
    forall i | 0 <= i < |claims| ensures ClaimOk(claims[i], refs, nodes, 0) {
      assert ClaimOk(claims[i], refs, nodes, token);
    }
  }

  lemma ForgetKeepsBuffers(d: Device, claims': seq<Claim>, token: nat)
    requires BuffersOk(d.endpoints, d.nextToken, d.work, d.claims, d.parcels)
    requires forall j {:trigger d.work[j]} :: 0 <= j < |d.work| ==> d.work[j].endpoint != token
    requires |claims'| == |d.claims| && token != 0 && forall c {:trigger claims'[c]} :: 0 <= c < |d.claims| ==>
               claims'[c] == if Matches(d.claims[c], token, 0) then NO_CLAIM else d.claims[c]
    ensures BuffersOk(d.endpoints - {token}, d.nextToken, d.work, claims',
            map k | k in d.parcels && k.0 != token :: d.parcels[k])
  {
    var eps := d.endpoints - {token};
    assert forall e, b, v {:trigger Holds(eps, e, b, v)} :: Holds(eps, e, b, v) <==>
             e != token && Holds(d.endpoints, e, b, v);
    hide Holds;
    forall k | k in d.parcels && k.0 != token ensures Covered(d.parcels[k], claims', k.0, k.1) {
      CoveredAway(d.parcels[k], d.claims, claims', k.0, k.1, token);
    }
  }

  lemma CoveredAway(objects: seq<Flat>, claims: seq<Claim>, claims': seq<Claim>, x: nat, a: nat, token: nat)
    requires Covered(objects, claims, x, a) && x != token
    requires |claims'| == |claims| && forall c {:trigger claims'[c]} :: 0 <= c < |claims| ==>
               claims'[c] == if Matches(claims[c], token, 0) then NO_CLAIM else claims[c]
    ensures Covered(objects, claims', x, a)
  {
    forall i | 0 <= i < |objects| && objects[i].Handle?
      ensures exists c ::
                0 <= c < |claims'| && claims'[c].endpoint == x && claims'[c].buffer == a && claims'[c].remote
                && claims'[c].handle == objects[i].handle
    {
      var c :| 0 <= c < |claims| && claims[c].endpoint == x && claims[c].buffer == a && claims[c].remote
          && claims[c].handle == objects[i].handle;
      assert claims'[c] == claims[c];
    }
  }

  lemma ForgetProcessKeepsCalls(d: Device, token: nat, threads': Threads)
    requires CallsOk(d.threads, d.transactions, d.work, d.endpoints.Keys, d.nextTransaction, 0)
             && Uninvolved(d.transactions, token, 0)
    requires forall j {:trigger d.work[j]} :: 0 <= j < |d.work| ==> d.work[j].endpoint != token
    requires threads' == map k | k in d.threads && k.0 != token :: d.threads[k]
    ensures CallsOk(threads', d.transactions, d.work, d.endpoints.Keys - {token}, d.nextTransaction, 0)
  {
    hide Queued, ServedBy, CalledBy;
    var ts := d.transactions;
    forall i | 0 <= i < |ts| && ts[i].id != 0
      ensures TransactionOk(ts[i], threads', d.work, d.endpoints.Keys - {token})
    {
      assert TransactionOk(ts[i], d.threads, d.work, d.endpoints.Keys);
    }
    forall j | 0 <= j < |d.work| ensures RequestOk(d.work[j], ts, d.endpoints.Keys - {token}) {
      assert RequestOk(d.work[j], ts, d.endpoints.Keys);
    }
  }

  lemma ForgetKeepsAsync(nodes: seq<Node>, work: seq<Work>, claims: seq<Claim>, eps: Endpoints, token: nat)
    requires AsyncOk(nodes, work, claims, eps, token) && 0 !in eps
    requires forall j {:trigger work[j]} :: 0 <= j < |work| ==> work[j].endpoint != token
    ensures AsyncOk(nodes, work, claims, eps - {token}, 0)
  {
    var eps' := eps - {token};
    assert forall e, b, v {:trigger Holds(eps', e, b, v)} :: Holds(eps', e, b, v) <==>
             e != token && Holds(eps, e, b, v);
    hide Holds, NextAsync, HasTarget;
    forall k | 0 <= k < |nodes| && Busy(nodes[k], eps', 0) ensures CurrentOk(nodes[k], work, eps') {
      assert Busy(nodes[k], eps, token);
      assert CurrentOk(nodes[k], work, eps);
    }
    forall i, j | 0 <= i < |nodes| && 0 <= j < |nodes| && i != j && Busy(nodes[i], eps', 0)
        && nodes[i].owner == nodes[j].owner
      ensures nodes[i].asyncBuffer != nodes[j].asyncBuffer
    {
      assert Busy(nodes[i], eps, token);
    }
  }

  /** Releasing a process strands nobody: every table is consistent without it. */
  lemma ReleaseEndpointInv(d: Device, token: nat)
    requires Inv(d) && token in d.endpoints
    ensures Inv(ReleaseEndpoint(d, token))
    ensures ReleaseEndpoint(d, token).endpoints.Keys == d.endpoints.Keys - {token}
  {
    CancelInv(d, token, 0);
    var d1 := Cancel(d, token, 0);
    hide Cancel;
    var d2 := Unclaim(ReleaseReferences(d1, token), token, 0);
    ReleasedUnclaim(d1, token);
    hide Unclaim, ReleaseReferences;
    var r := ReleaseEndpoint(d, token);
    assert token != 0 && 0 !in d1.endpoints;
    ForgetKeepsBuffers(d1, d2.claims, token);
    ForgetProcessKeepsCalls(d1, token, r.threads);
    ForgetKeepsAsync(d2.nodes, d2.work, d2.claims, d2.endpoints, token);
    assert r.endpoints.Keys == d1.endpoints.Keys - {token};
    assert ErrorsOk(r.threads);
    hide Inv, BuffersOk, CallsOk, AsyncOk;
    assert ObjectsOk(r, r.endpoints.Keys) by { ForgetKeepsObjects(d2, token); }
    assert InvDuring(r, 0, 0);
  }

  lemma ForgetKeepsObjects(d: Device, token: nat)
    requires Released(d, token)
    ensures ObjectsOk(Forget(d, token), d.endpoints.Keys - {token})
  {
    hide NodesOk, Linked, NoGarbage, SlotsOk, DeathsOk, HasManager, OwnersKnown;
  }
}
