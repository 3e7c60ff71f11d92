/** One-way parcels: each node has at most one current parcel, and the rest wait behind it in order. */
module BinderOneWay {
  import opened Base
  import opened BinderWire
  import opened BinderState
  import opened BinderCommands
  import opened BinderLifetime
  import opened BinderParcels
  import opened BinderBuffers

  ghost predicate HasTarget(nodes: seq<Node>, claims: seq<Claim>, w: Work) {
    exists k :: 0 <= k < |nodes| && nodes[k].id == w.asyncNode && nodes[k].owner == w.endpoint
        && nodes[k].asyncBuffer != 0
      && KeptFor(nodes[k], claims, w)
  }

  /** The manager's node stays for its owner; any other node is held by a claim of the parcel's buffer. */
  ghost predicate KeptFor(n: Node, claims: seq<Claim>, w: Work) {
    || (n.manager && n.hasStrong)
    || (exists c :: 0 <= c < |claims| && claims[c] == Claim(w.endpoint, w.value.dataBuffer, n.id, 0, false))
  }

  /** Queued one-way parcels, outside an endpoint being released. */
  ghost predicate QueueOk(nodes: seq<Node>, work: seq<Work>, claims: seq<Claim>, gone: nat) {
    && Aligned(nodes, work)
    && forall j {:trigger work[j]} :: 0 <= j < |work| && work[j].asyncNode != 0 ==>
         work[j].tid == 0 && work[j].transaction == 0
             && (work[j].endpoint != gone ==> HasTarget(nodes, claims, work[j]))
  }

  /** A one-way parcel is queued at its node's owner. */
  ghost predicate Aligned(nodes: seq<Node>, work: seq<Work>) {
    forall j, k {:trigger work[j], nodes[k]} ::
          0 <= j < |work| && 0 <= k < |nodes| && work[j].asyncNode != 0 && nodes[k].id == work[j].asyncNode ==>
      nodes[k].owner == work[j].endpoint
  }

  /** A node's current buffer is held by its owner, and while undelivered it is its first queued parcel. */
  ghost predicate CurrentOk(n: Node, work: seq<Work>, eps: Endpoints) {
    && (Holds(eps, n.owner, n.asyncBuffer, true) || Holds(eps, n.owner, n.asyncBuffer, false))
    && (Holds(eps, n.owner, n.asyncBuffer, false) ==>
          var j := NextAsync(work, n.id); j < |work| && work[j].value.dataBuffer == n.asyncBuffer)
  }

  ghost predicate Busy(n: Node, eps: Endpoints, gone: nat) {
    n.id != 0 && n.owner in eps && n.owner != gone && n.asyncBuffer != 0
  }

  ghost predicate CurrentsOk(nodes: seq<Node>, work: seq<Work>, eps: Endpoints, gone: nat) {
    && (forall k {:trigger nodes[k]} :: 0 <= k < |nodes| && Busy(nodes[k], eps, gone) ==>
         CurrentOk(nodes[k], work, eps))
    && (forall i, j {:trigger nodes[i], nodes[j]} ::
         0 <= i < |nodes| && 0 <= j < |nodes| && i != j && Busy(nodes[i], eps, gone)
         && nodes[i].owner == nodes[j].owner ==>
          nodes[i].asyncBuffer != nodes[j].asyncBuffer)
  }

  ghost predicate AsyncOk(nodes: seq<Node>, work: seq<Work>, claims: seq<Claim>, eps: Endpoints, gone: nat) {
    QueueOk(nodes, work, claims, gone) && CurrentsOk(nodes, work, eps, gone)
  }

  // ---- the queue of one node ----

  /** The values of the one-way parcels queued for `node`, in order. */
  function Pending(work: seq<Work>, node: nat): (r: seq<Packet>) {
    if work == [] then []
    else
      var rest := Pending(work[..|work| - 1], node);
      var last := work[|work| - 1];
      if last.asyncNode == node then rest + [last.value] else rest
  }

  lemma {:induction false} PendingRemove(work: seq<Work>, j: nat, node: nat)
    requires j < |work| && work[j].asyncNode != node
    ensures Pending(RemoveAt(work, j), node) == Pending(work, node)
  {
    var n := |work| - 1;
    if j == n {
      assert RemoveAt(work, j) == work[..n];
    } else {
      assert RemoveAt(work, j)[..n - 1] == RemoveAt(work[..n], j);
      assert RemoveAt(work, j)[n - 1] == work[n];
      PendingRemove(work[..n], j, node);
    }
  }

  lemma {:induction false} PendingFirst(work: seq<Work>, j: nat, node: nat)
    requires j < |work| && work[j].asyncNode == node && forall i :: 0 <= i < j ==> work[i].asyncNode != node
    ensures Pending(work, node) == [work[j].value] + Pending(RemoveAt(work, j), node)
  {
    var n := |work| - 1;
    if j == n {
      assert RemoveAt(work, j) == work[..n];
      PendingNone(work[..n], node);
    } else {
      assert RemoveAt(work, j)[..n - 1] == RemoveAt(work[..n], j);
      assert RemoveAt(work, j)[n - 1] == work[n];
      PendingFirst(work[..n], j, node);
    }
  }

  lemma {:induction false} PendingNone(work: seq<Work>, node: nat)
    requires forall i :: 0 <= i < |work| ==> work[i].asyncNode != node
    ensures Pending(work, node) == []
  {
    if work != [] {
      PendingNone(work[..|work| - 1], node);
    }
  }

  lemma PendingAppend(work: seq<Work>, w: Work, node: nat)
    ensures Pending(work + [w], node) == Pending(work, node) + if w.asyncNode == node then [w.value] else []
  {
    assert (work + [w])[..|work|] == work;
  }

  lemma NextAsyncRemove(work: seq<Work>, j: nat, node: nat)
    requires j < |work| && work[j].asyncNode != node && NextAsync(work, node) < |work|
    ensures var work' := RemoveAt(work, j);
            NextAsync(work', node) < |work'| && work'[NextAsync(work', node)] == work[NextAsync(work, node)]
  {
    var work' := RemoveAt(work, j);
    var a := NextAsync(work, node);
    var a' := if a < j then a else a - 1;
    assert work'[a'] == work[a];
    forall i | 0 <= i < a' ensures work'[i].asyncNode != node {
      assert work'[i] == work[if i < j then i else i + 1];
    }
    assert NextAsync(work', node) == a';
  }

  lemma NextAsyncAppend(work: seq<Work>, w: Work, node: nat)
    ensures NextAsync(work, node) < |work| ==> NextAsync(work + [w], node) == NextAsync(work, node)
    ensures NextAsync(work, node) == |work| && w.asyncNode == node ==> NextAsync(work + [w], node) == |work|
  {
    var work' := work + [w];
    var a := NextAsync(work, node);
    forall i | 0 <= i < a ensures work'[i].asyncNode != node {
      assert work'[i] == work[i];
    }
    assert a < |work| ==> work'[a] == work[a];
    assert work'[|work|] == w;
  }

  // ---- keeping the invariant ----

  lemma KeptRelease(n: Node, claims: seq<Claim>, claims': seq<Claim>, w: Work, e: nat, b: nat)
    requires KeptFor(n, claims, w) && !(w.endpoint == e && (b == 0 || w.value.dataBuffer == b))
    requires |claims'| == |claims| && forall c {:trigger claims'[c]} :: 0 <= c < |claims| ==>
               claims'[c] == if Matches(claims[c], e, b) then NO_CLAIM else claims[c]
    ensures KeptFor(n, claims', w)
  {
    if c :| 0 <= c < |claims| && claims[c] == Claim(w.endpoint, w.value.dataBuffer, n.id, 0, false) {
      assert claims'[c] == claims[c];
    }
  }

  lemma KeptUncollected(nodes: seq<Node>, refs: seq<Reference>, claims: seq<Claim>, k: nat, w: Work)
    requires k < |nodes| && KeptFor(nodes[k], claims, w) && w.endpoint != 0
    ensures Collect(nodes, refs, claims)[k] == nodes[k]
  {
    if c :| 0 <= c < |claims| && claims[c] == Claim(w.endpoint, w.value.dataBuffer, nodes[k].id, 0, false) {
      assert LocalClaim(claims[c], nodes[k].id);
    }
  }

  /** Releasing the claims of one buffer, or of a whole endpoint, and collecting. */
  lemma ReleaseKeepsQueue(nodes: seq<Node>, work: seq<Work>, claims: seq<Claim>, refs': seq<Reference>,
      claims': seq<Claim>, gone: nat, e: nat, b: nat)
    requires QueueOk(nodes, work, claims, gone) && e != 0
    requires |claims'| == |claims| && forall c {:trigger claims'[c]} :: 0 <= c < |claims| ==>
               claims'[c] == if Matches(claims[c], e, b) then NO_CLAIM else claims[c]
    requires forall j {:trigger work[j]} :: 0 <= j < |work| ==>
               work[j].endpoint != 0 && !(work[j].endpoint == e && (b == 0 || work[j].value.dataBuffer == b))
    ensures QueueOk(Collect(nodes, refs', claims'), work, claims', gone)
  {
    var after := Collect(nodes, refs', claims');
    assert Aligned(after, work) by {
      hide Garbage;
      forall j, k | 0 <= j < |work| && 0 <= k < |after| && work[j].asyncNode != 0 && after[k].id == work[j].asyncNode
        ensures after[k].owner == work[j].endpoint
      {
        assert after[k] == nodes[k];
      }
    }
    forall j | 0 <= j < |work| && work[j].asyncNode != 0
      ensures work[j].tid == 0 && work[j].transaction == 0
              && (work[j].endpoint != gone ==> HasTarget(after, claims', work[j]))
    {
      if work[j].endpoint != gone {
        var k :| 0 <= k < |nodes| && nodes[k].id == work[j].asyncNode && nodes[k].owner == work[j].endpoint
            && nodes[k].asyncBuffer != 0 && KeptFor(nodes[k], claims, work[j]);
        KeptRelease(nodes[k], claims, claims', work[j], e, b);
        KeptUncollected(nodes, refs', claims', k, work[j]);
      }
    }
  }

  lemma CollectKeepsCurrents(nodes: seq<Node>, refs: seq<Reference>, claims: seq<Claim>, work: seq<Work>,
      eps: Endpoints, gone: nat)
    requires CurrentsOk(nodes, work, eps, gone)
    ensures CurrentsOk(Collect(nodes, refs, claims), work, eps, gone)
  {
    hide Garbage, CurrentOk;
    var after := Collect(nodes, refs, claims);
    forall k | 0 <= k < |after| && Busy(after[k], eps, gone) ensures CurrentOk(after[k], work, eps) {
      assert after[k] == nodes[k];
    }
    forall i, j | 0 <= i < |after| && 0 <= j < |after| && i != j && Busy(after[i], eps, gone)
        && after[i].owner == after[j].owner
      ensures after[i].asyncBuffer != after[j].asyncBuffer
    {
      assert after[i] == nodes[i];
    }
  }

  lemma RemoveKeepsQueue(nodes: seq<Node>, work: seq<Work>, claims: seq<Claim>, gone: nat, j: nat)
    requires QueueOk(nodes, work, claims, gone) && j < |work|
    ensures QueueOk(nodes, RemoveAt(work, j), claims, gone)
  {
    hide HasTarget;
    var after := RemoveAt(work, j);
    forall i, k | 0 <= i < |after| && 0 <= k < |nodes| && after[i].asyncNode != 0 && nodes[k].id == after[i].asyncNode
      ensures nodes[k].owner == after[i].endpoint
    {
      assert after[i] == work[if i < j then i else i + 1];
    }
    forall i | 0 <= i < |after| && after[i].asyncNode != 0
      ensures after[i].tid == 0 && after[i].transaction == 0
              && (after[i].endpoint != gone ==> HasTarget(nodes, claims, after[i]))
    {
      assert after[i] == work[if i < j then i else i + 1];
    }
  }

  /** Dropping a queue entry that no surviving node counts on. */
  lemma DropKeepsCurrents(nodes: seq<Node>, work: seq<Work>, eps: Endpoints, eps': Endpoints, gone: nat, j: nat)
    requires CurrentsOk(nodes, work, eps, gone) && WorkHeld(eps, work) && j < |work|
    requires Taken(eps, eps', work[j].endpoint, work[j].value.dataBuffer)
    requires work[j].endpoint == gone || work[j].asyncNode == 0
    requires Aligned(nodes, work)
    ensures CurrentsOk(nodes, RemoveAt(work, j), eps', gone)
  {
    hide Holds;
    var w := work[j];
    forall k | 0 <= k < |nodes| && Busy(nodes[k], eps', gone) ensures CurrentOk(nodes[k], RemoveAt(work, j), eps') {
      var n := nodes[k];
      assert CurrentOk(n, work, eps);
      assert work[j].asyncNode != n.id;
      var a := NextAsync(work, n.id);
      assert a < |work| ==> work[a].endpoint == n.owner && a != j;
      assert Holds(eps, w.endpoint, w.value.dataBuffer, false);
      if a < |work| && Holds(eps, n.owner, n.asyncBuffer, false) {
        NextAsyncRemove(work, j, n.id);
      }
    }
  }

  // ---- accepting parcels ----

  lemma KeptGrown(n: Node, claims: seq<Claim>, claims': seq<Claim>, w: Work, e: nat, b: nat)
    requires KeptFor(n, claims, w) && ClaimsGrown(claims, claims', e, b) && w.endpoint != 0
    ensures KeptFor(n, claims', w)
  {
    if c :| 0 <= c < |claims| && claims[c] == Claim(w.endpoint, w.value.dataBuffer, n.id, 0, false) {
      assert claims'[c] == claims[c];
    }
  }

  /** Building a parcel for any receiver disturbs no queue. */
  lemma GrowKeepsAsync(nodes: seq<Node>, nodes': seq<Node>, nextNode: nat, work: seq<Work>, claims: seq<Claim>,
      claims': seq<Claim>,
                       eps: Endpoints, eps': Endpoints, e: nat, b: nat)
    requires AsyncOk(nodes, work, claims, eps, 0) && NodesGrown(nodes, nodes', nextNode)
             && ClaimsGrown(claims, claims', e, b) && Added(eps, eps', e, b)
    requires forall k {:trigger nodes[k]} :: 0 <= k < |nodes| ==> nodes[k].id < nextNode
    requires forall j {:trigger work[j]} :: 0 <= j < |work| ==> work[j].endpoint != 0
    ensures AsyncOk(nodes', work, claims', eps', 0)
  {
    hide Holds, NextAsync;
    forall j | 0 <= j < |work| && work[j].asyncNode != 0
      ensures HasTarget(nodes', claims', work[j]) && work[j].asyncNode < nextNode
    {
      var k :| 0 <= k < |nodes| && nodes[k].id == work[j].asyncNode && nodes[k].owner == work[j].endpoint
          && nodes[k].asyncBuffer != 0 && KeptFor(nodes[k], claims, work[j]);
      KeptGrown(nodes[k], claims, claims', work[j], e, b);
      assert nodes'[k] == nodes[k];
    }
    forall j, k | 0 <= j < |work| && 0 <= k < |nodes'| && work[j].asyncNode != 0 && nodes'[k].id == work[j].asyncNode
      ensures nodes'[k].owner == work[j].endpoint
    {
      assert nodes'[k] == nodes[k];
    }
    forall k | 0 <= k < |nodes'| && Busy(nodes'[k], eps', 0) ensures CurrentOk(nodes'[k], work, eps') {
      assert nodes'[k] == nodes[k];
      assert CurrentOk(nodes[k], work, eps);
    }
    forall i, j | 0 <= i < |nodes'| && 0 <= j < |nodes'| && i != j && Busy(nodes'[i], eps', 0)
        && nodes'[i].owner == nodes'[j].owner
      ensures nodes'[i].asyncBuffer != nodes'[j].asyncBuffer
    {
      assert nodes'[i] == nodes[i];
      assert nodes'[j] == nodes[j] || nodes'[j].asyncBuffer == 0;
    }
  }

  /** Queueing a call or a reply. */
  lemma AppendKeepsAsync(nodes: seq<Node>, work: seq<Work>, claims: seq<Claim>, eps: Endpoints, w: Work)
    requires AsyncOk(nodes, work, claims, eps, 0) && w.asyncNode == 0
    requires forall j {:trigger work[j]} :: 0 <= j < |work| ==> work[j].endpoint != 0
    ensures AsyncOk(nodes, work + [w], claims, eps, 0)
  {
    hide Holds, HasTarget;
    var work' := work + [w];
    forall j | 0 <= j < |work'| ensures j < |work| ==> work'[j] == work[j] {}
    forall j | 0 <= j < |work'| && work'[j].asyncNode != 0
      ensures work'[j].tid == 0 && work'[j].transaction == 0 && HasTarget(nodes, claims, work'[j])
    {
      assert work'[j] == work[j];
    }
    forall j, k | 0 <= j < |work'| && 0 <= k < |nodes| && work'[j].asyncNode != 0 && nodes[k].id == work'[j].asyncNode
      ensures nodes[k].owner == work'[j].endpoint
    {
      assert work'[j] == work[j];
    }
    forall k | 0 <= k < |nodes| && Busy(nodes[k], eps, 0) ensures CurrentOk(nodes[k], work', eps) {
      assert CurrentOk(nodes[k], work, eps);
      NextAsyncAppend(work, w, nodes[k].id);
    }
  }

  /** Queueing a one-way parcel: it becomes current exactly when its node had none. */
  lemma AcceptKeepsAsync(nodes: seq<Node>, work: seq<Work>, claims: seq<Claim>, eps: Endpoints, k: nat, w: Work,
      n: Node)
    requires AsyncOk(nodes, work, claims, eps, 0) && k < |nodes| && nodes[k].id != 0 && nodes[k].owner in eps
             && nodes[k].owner != 0
    requires forall i, j {:trigger nodes[i], nodes[j]} ::
               0 <= i < |nodes| && 0 <= j < |nodes| && i != j && nodes[i].id != 0 ==> nodes[i].id != nodes[j].id
    requires w.asyncNode == nodes[k].id && w.endpoint == nodes[k].owner && w.tid == 0 && w.transaction == 0
             && w.value.dataBuffer != 0
    requires Holds(eps, w.endpoint, w.value.dataBuffer, false) && KeptFor(nodes[k], claims, w)
    requires forall i {:trigger nodes[i]} :: 0 <= i < |nodes| && nodes[i].owner == w.endpoint ==>
               nodes[i].asyncBuffer != w.value.dataBuffer
    requires n == if nodes[k].asyncBuffer == 0 then nodes[k].(asyncBuffer := w.value.dataBuffer) else nodes[k]
    requires forall j {:trigger work[j]} :: 0 <= j < |work| ==> work[j].endpoint != 0
    ensures AsyncOk(nodes[k := n], work + [w], claims, eps, 0)
  {
    hide Holds;
    var work', nodes' := work + [w], nodes[k := n];
    forall j | 0 <= j < |work'| && work'[j].asyncNode != 0
      ensures work'[j].tid == 0 && work'[j].transaction == 0 && HasTarget(nodes', claims, work'[j])
    {
      if j == |work| {
        assert nodes'[k] == n && KeptFor(n, claims, w);
      } else {
        assert work'[j] == work[j];
        var x :| 0 <= x < |nodes| && nodes[x].id == work[j].asyncNode && nodes[x].owner == work[j].endpoint
            && nodes[x].asyncBuffer != 0 && KeptFor(nodes[x], claims, work[j]);
        assert nodes'[x] == nodes[x];
      }
    }
    forall j, x | 0 <= j < |work'| && 0 <= x < |nodes'| && work'[j].asyncNode != 0 && nodes'[x].id == work'[j].asyncNode
      ensures nodes'[x].owner == work'[j].endpoint
    {
      assert j < |work| ==> work'[j] == work[j];
    }
    forall x | 0 <= x < |nodes'| && Busy(nodes'[x], eps, 0) ensures CurrentOk(nodes'[x], work', eps) {
      NextAsyncAppend(work, w, nodes[x].id);
      if x == k && nodes[k].asyncBuffer == 0 {
        var a := NextAsync(work, nodes[k].id);
        assert !(a < |work|);
      } else {
        assert CurrentOk(nodes[x], work, eps);
      }
    }
  }

  // ---- delivering and freeing ----

  /** Only a node's first queued parcel is deliverable. */
  lemma DeliverableIsFirst(nodes: seq<Node>, work: seq<Work>, claims: seq<Claim>, eps: Endpoints, j: nat, k: nat)
    requires AsyncOk(nodes, work, claims, eps, 0) && WorkHeld(eps, work) && j < |work| && work[j].asyncNode != 0
             && work[j].endpoint != 0
    requires k < |nodes| && nodes[k].id == work[j].asyncNode && nodes[k].asyncBuffer == work[j].value.dataBuffer
    ensures NextAsync(work, work[j].asyncNode) == j
    ensures nodes[k].owner == work[j].endpoint
  {
    assert Holds(eps, work[j].endpoint, work[j].value.dataBuffer, false);
    assert Busy(nodes[k], eps, 0);
    assert CurrentOk(nodes[k], work, eps);
    var a := NextAsync(work, work[j].asyncNode);
    assert work[a].endpoint == nodes[k].owner;
  }

  lemma ServeKeepsAsync(nodes: seq<Node>, work: seq<Work>, claims: seq<Claim>, eps: Endpoints, eps': Endpoints, j: nat)
    requires AsyncOk(nodes, work, claims, eps, 0) && WorkHeld(eps, work) && j < |work| && work[j].endpoint != 0
    requires Shown(eps, eps', work[j].endpoint, work[j].value.dataBuffer)
    requires work[j].asyncNode != 0 ==>
               exists k ::
                 0 <= k < |nodes| && nodes[k].id == work[j].asyncNode
                 && nodes[k].asyncBuffer == work[j].value.dataBuffer
    requires forall i, k {:trigger nodes[i], nodes[k]} ::
               0 <= i < |nodes| && 0 <= k < |nodes| && i != k && nodes[i].id != 0 ==> nodes[i].id != nodes[k].id
    ensures AsyncOk(nodes, RemoveAt(work, j), claims, eps', 0)
  {
    RemoveKeepsQueue(nodes, work, claims, 0, j);
    var w := work[j];
    forall k | 0 <= k < |nodes| && Busy(nodes[k], eps', 0) ensures CurrentOk(nodes[k], RemoveAt(work, j), eps') {
      var n := nodes[k];
      assert CurrentOk(n, work, eps);
      if w.asyncNode == n.id {
        var y :| 0 <= y < |nodes| && nodes[y].id == work[j].asyncNode
            && nodes[y].asyncBuffer == work[j].value.dataBuffer;
        assert y == k;
        DeliverableIsFirst(nodes, work, claims, eps, j, k);
      } else {
        var a := NextAsync(work, n.id);
        assert a < |work| ==> work[a].endpoint == n.owner && a != j;
        assert Holds(eps, w.endpoint, w.value.dataBuffer, false);
        hide Holds;
        if a < |work| && Holds(eps, n.owner, n.asyncBuffer, false) {
          NextAsyncRemove(work, j, n.id);
        }
      }
    }
  }

  /** Freeing the current parcel moves its node on to the next queued one. */
  lemma FreeKeepsAsync(nodes: seq<Node>, work: seq<Work>, claims: seq<Claim>, eps: Endpoints, eps': Endpoints, e: nat,
      b: nat)
    requires AsyncOk(nodes, work, claims, eps, 0) && WorkHeld(eps, work) && Taken(eps, eps', e, b)
    requires Holds(eps, e, b, true) && !Holds(eps, e, b, false) && e != 0 && b != 0
    requires forall i, k {:trigger nodes[i], nodes[k]} ::
               0 <= i < |nodes| && 0 <= k < |nodes| && i != k && nodes[i].id != 0 ==> nodes[i].id != nodes[k].id
    requires forall i {:trigger nodes[i]} :: 0 <= i < |nodes| && nodes[i].owner != 0 ==> nodes[i].id != 0
    requires forall j {:trigger work[j]} :: 0 <= j < |work| ==> work[j].endpoint != 0
    ensures AsyncOk(AdvanceAsync(nodes, work, e, b), work, claims, eps', 0)
  {
    var nodes' := AdvanceAsync(nodes, work, e, b);
    var h := HeldAsync(nodes, e, b);
    forall j | 0 <= j < |work| && work[j].asyncNode != 0 ensures HasTarget(nodes', claims, work[j]) {
      var x :| 0 <= x < |nodes| && nodes[x].id == work[j].asyncNode && nodes[x].owner == work[j].endpoint
          && nodes[x].asyncBuffer != 0 && KeptFor(nodes[x], claims, work[j]);
      if x == h {
        assert NextAsync(work, nodes[h].id) < |work|;
        assert KeptFor(nodes'[x], claims, work[j]);
      }
      assert nodes'[x].id == work[j].asyncNode && nodes'[x].owner == work[j].endpoint && nodes'[x].asyncBuffer != 0;
    }
    hide HasTarget, AdvanceAsync;
    FreeKeepsCurrents(nodes, work, claims, eps, eps', e, b);
    FreeKeepsAligned(nodes, work, e, b);
  }

  lemma FreeKeepsAligned(nodes: seq<Node>, work: seq<Work>, e: nat, b: nat)
    requires Aligned(nodes, work)
    ensures Aligned(AdvanceAsync(nodes, work, e, b), work)
  {
  }

  lemma FreeKeepsCurrents(nodes: seq<Node>, work: seq<Work>, claims: seq<Claim>, eps: Endpoints, eps': Endpoints,
      e: nat, b: nat)
    requires AsyncOk(nodes, work, claims, eps, 0) && WorkHeld(eps, work) && Taken(eps, eps', e, b)
    requires Holds(eps, e, b, true) && !Holds(eps, e, b, false) && e != 0 && b != 0
    requires forall i, k {:trigger nodes[i], nodes[k]} ::
               0 <= i < |nodes| && 0 <= k < |nodes| && i != k && nodes[i].id != 0 ==> nodes[i].id != nodes[k].id
    requires forall i {:trigger nodes[i]} :: 0 <= i < |nodes| && nodes[i].owner != 0 ==> nodes[i].id != 0
    requires forall j {:trigger work[j]} :: 0 <= j < |work| ==> work[j].endpoint != 0
    ensures CurrentsOk(AdvanceAsync(nodes, work, e, b), work, eps', 0)
  {
    var nodes' := AdvanceAsync(nodes, work, e, b);
    var h := HeldAsync(nodes, e, b);
    assert e in eps;
    if h < |nodes| {
      var a := NextAsync(work, nodes[h].id);
      if a < |work| {
        assert work[a].endpoint == e;
        assert Holds(eps, e, work[a].value.dataBuffer, false);
        forall i | 0 <= i < |nodes| && i != h && nodes[i].owner == e
          ensures nodes[i].asyncBuffer != work[a].value.dataBuffer
        {
          var y := NextAsync(work, nodes[i].id);
          assert y < |work| ==> y != a && work[y].endpoint == e;
          assert nodes[i].asyncBuffer != 0 ==> CurrentOk(nodes[i], work, eps);
        }
      }
    }
    hide Holds;
    forall k | 0 <= k < |nodes'| && Busy(nodes'[k], eps', 0) ensures CurrentOk(nodes'[k], work, eps') {
      if k != h {
        assert nodes'[k] == nodes[k];
        assert CurrentOk(nodes[k], work, eps);
      }
    }
    forall i, j | 0 <= i < |nodes'| && 0 <= j < |nodes'| && i != j && Busy(nodes'[i], eps', 0)
        && nodes'[i].owner == nodes'[j].owner
      ensures nodes'[i].asyncBuffer != nodes'[j].asyncBuffer
    {
      assert i != h ==> nodes'[i] == nodes[i];
      assert j != h ==> nodes'[j] == nodes[j];
    }
  }

  /** Changes of flags and notification threads concern no queue. */
  lemma FlagsKeepAsync(nodes: seq<Node>, nodes': seq<Node>, work: seq<Work>, claims: seq<Claim>, eps: Endpoints,
      gone: nat)
    requires AsyncOk(nodes, work, claims, eps, gone) && |nodes'| == |nodes|
    requires forall k {:trigger nodes'[k]} :: 0 <= k < |nodes| ==>
               nodes'[k].id == nodes[k].id && nodes'[k].owner == nodes[k].owner
                   && nodes'[k].asyncBuffer == nodes[k].asyncBuffer
               && nodes'[k].manager == nodes[k].manager
               && (nodes[k].manager ==> nodes'[k].hasStrong == nodes[k].hasStrong)
    ensures AsyncOk(nodes', work, claims, eps, gone)
  {
    hide Holds, NextAsync;
    forall j | 0 <= j < |work| && work[j].asyncNode != 0 && work[j].endpoint != gone
      ensures HasTarget(nodes', claims, work[j])
    {
      var x :| 0 <= x < |nodes| && nodes[x].id == work[j].asyncNode && nodes[x].owner == work[j].endpoint
          && nodes[x].asyncBuffer != 0 && KeptFor(nodes[x], claims, work[j]);
      assert nodes'[x].id == nodes[x].id;
      assert KeptFor(nodes'[x], claims, work[j]);
    }
    forall k | 0 <= k < |nodes'| && Busy(nodes'[k], eps, gone) ensures CurrentOk(nodes'[k], work, eps) {
      assert CurrentOk(nodes[k], work, eps);
    }
  }
}
