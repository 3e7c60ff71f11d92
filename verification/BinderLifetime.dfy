/** Object lifetime: references, the nodes they keep, and the claims that unfreed buffers hold. */
module BinderLifetime {
  import opened Base
  import opened BinderState

  predicate RemoteClaim(c: Claim, e: nat, node: nat) {
    c.endpoint == e && c.node == node && c.remote
  }

  /** How many claims of `e` hold its reference to `node`. */
  ghost function CountRemote(claims: seq<Claim>, e: nat, node: nat): nat {
    if claims == [] then 0
    else CountRemote(claims[..|claims| - 1], e, node) + if RemoteClaim(claims[|claims| - 1], e, node) then 1 else 0
  }

  ghost predicate HasNode(nodes: seq<Node>, id: nat, owner: nat) {
    exists k :: 0 <= k < |nodes| && nodes[k].id == id && nodes[k].owner == owner
  }

  ghost predicate HasImport(refs: seq<Reference>, e: nat, node: nat, handle: u32) {
    exists k :: 0 <= k < |refs| && refs[k].endpoint == e && refs[k].node == node && refs[k].handle == handle
  }

  ghost predicate NodeOk(n: Node, nextNode: nat, tokens: set<nat>) {
    && (n.id == 0 ==> n == NO_NODE)
    && (n.id != 0 ==> n.id < nextNode && n.owner != 0 && (n.dead <==> n.owner !in tokens)
                      && (n.manager && !n.dead ==> n.hasStrong))
  }

  /** Node identities are unique and below the counter; an owner's live nodes have distinct pointers. */
  ghost predicate NodesOk(nodes: seq<Node>, nextNode: nat, tokens: set<nat>) {
    && (forall i {:trigger nodes[i]} :: 0 <= i < |nodes| ==> NodeOk(nodes[i], nextNode, tokens))
    && (forall i, j {:trigger nodes[i], nodes[j]} ::
         0 <= i < |nodes| && 0 <= j < |nodes| && i != j && nodes[i].id != 0 ==>
          nodes[i].id != nodes[j].id && !(Owns(nodes[i], nodes[i].owner, nodes[i].pointer)
              && Owns(nodes[j], nodes[i].owner, nodes[i].pointer)))
  }

  ghost predicate RefOk(r: Reference, nodes: seq<Node>) {
    && (r.endpoint == 0 ==> r == NO_REFERENCE)
    && (r.endpoint != 0 ==> r.node != 0 && r.strong + r.weak + r.temporary > 0 && HasNode(nodes, r.node, r.owner))
  }

  /** Every live reference is counted and names an uncollected node; handles and nodes are unique per endpoint. */
  ghost predicate RefsOk(refs: seq<Reference>, nodes: seq<Node>) {
    && (forall i {:trigger refs[i]} :: 0 <= i < |refs| ==> RefOk(refs[i], nodes))
    && Unique(refs)
  }

  ghost predicate Unique(refs: seq<Reference>) {
    forall i, j {:trigger refs[i], refs[j]} ::
          0 <= i < |refs| && 0 <= j < |refs| && i != j && refs[i].endpoint != 0
          && refs[i].endpoint == refs[j].endpoint ==>
      refs[i].handle != refs[j].handle && refs[i].node != refs[j].node
  }

  ghost predicate Counted(refs: seq<Reference>, claims: seq<Claim>) {
    forall i {:trigger refs[i]} :: 0 <= i < |refs| && refs[i].endpoint != 0 ==>
      refs[i].temporary == CountRemote(claims, refs[i].endpoint, refs[i].node)
  }

  ghost predicate ClaimOk(c: Claim, refs: seq<Reference>, nodes: seq<Node>, except: nat) {
    && (c.endpoint == 0 ==> c == NO_CLAIM)
    && (c.endpoint != 0 && c.endpoint != except ==>
          c.node != 0 && if c.remote then HasImport(refs, c.endpoint, c.node, c.handle)
              else HasNode(nodes, c.node, c.endpoint))
  }

  /** Claims of every endpoint but `except`, which is in the middle of being released. */
  ghost predicate ClaimsOk(claims: seq<Claim>, refs: seq<Reference>, nodes: seq<Node>, except: nat) {
    forall i {:trigger claims[i]} :: 0 <= i < |claims| ==> ClaimOk(claims[i], refs, nodes, except)
  }

  ghost predicate NoGarbage(nodes: seq<Node>, refs: seq<Reference>, claims: seq<Claim>) {
    forall i {:trigger nodes[i]} :: 0 <= i < |nodes| ==> !Garbage(refs, claims, nodes[i])
  }

  /** The part of the invariant that single table updates keep. */
  ghost predicate Linked(refs: seq<Reference>, claims: seq<Claim>, nodes: seq<Node>, except: nat) {
    && RefsOk(refs, nodes) && Counted(refs, claims) && ClaimsOk(claims, refs, nodes, except)
    && (except != 0 ==> forall i {:trigger refs[i]} :: 0 <= i < |refs| ==> refs[i].endpoint != except)
  }

  // ---- counting ----

  lemma {:induction false} CountUpdate(claims: seq<Claim>, i: nat, c: Claim, e: nat, node: nat)
    requires i < |claims|
    ensures CountRemote(claims[i := c], e, node) + (if RemoteClaim(claims[i], e, node) then 1 else 0)
         == CountRemote(claims, e, node) + (if RemoteClaim(c, e, node) then 1 else 0)
  {
    var n := |claims| - 1;
    if i == n {
      assert claims[i := c][..n] == claims[..n];
    } else {
      assert claims[i := c][..n] == claims[..n][i := c];
      CountUpdate(claims[..n], i, c, e, node);
    }
  }

  lemma {:induction false} CountZero(claims: seq<Claim>, e: nat, node: nat)
    ensures CountRemote(claims, e, node) == 0 <==> forall i :: 0 <= i < |claims| ==> !RemoteClaim(claims[i], e, node)
  {
    if claims != [] {
      var n := |claims| - 1;
      CountZero(claims[..n], e, node);
      assert forall i :: 0 <= i < n ==> claims[..n][i] == claims[i];
    }
  }

  // ---- releasing one claim ----

  /** The reference a remote claim holds is the one its handle finds, and it has a temporary count. */
  lemma ClaimHolds(refs: seq<Reference>, claims: seq<Claim>, nodes: seq<Node>, except: nat, i: nat)
    requires Linked(refs, claims, nodes, except) && i < |claims|
    requires claims[i].endpoint != 0 && claims[i].endpoint != except && claims[i].remote
    ensures var k := FindReference(refs, claims[i].endpoint, claims[i].handle);
            k < |refs| && refs[k].node == claims[i].node && refs[k].temporary > 0
            && refs[k].temporary == CountRemote(claims, claims[i].endpoint, claims[i].node)
  {
    var c := claims[i];
    assert ClaimOk(c, refs, nodes, except);
    var k0 :| 0 <= k0 < |refs| && refs[k0].endpoint == c.endpoint && refs[k0].node == c.node
        && refs[k0].handle == c.handle;
    var k := FindReference(refs, c.endpoint, c.handle);
    assert k == k0;
    CountZero(claims, c.endpoint, c.node);
  }

  lemma ReleaseClaimCounted(refs: seq<Reference>, claims: seq<Claim>, refs': seq<Reference>, i: nat, k: nat)
    requires Counted(refs, claims) && Unique(refs) && i < |claims|
    requires |refs'| == |refs| && (forall j {:trigger refs'[j]} :: 0 <= j < |refs| && j != k ==> refs'[j] == refs[j])
    requires k < |refs| ==> RemoteClaim(claims[i], refs[k].endpoint, refs[k].node) && refs[k].endpoint != 0
    requires k < |refs| ==>
               refs'[k].endpoint == 0 || (refs[k].temporary > 0
               && refs'[k] == refs[k].(temporary := refs[k].temporary - 1))
    requires k >= |refs| ==> forall j :: 0 <= j < |refs| && refs[j].endpoint != 0 ==>
               !RemoteClaim(claims[i], refs[j].endpoint, refs[j].node)
    ensures Counted(refs', claims[i := NO_CLAIM])
  {
    forall j | 0 <= j < |refs'| && refs'[j].endpoint != 0
      ensures refs'[j].temporary == CountRemote(claims[i := NO_CLAIM], refs'[j].endpoint, refs'[j].node)
    {
      CountUpdate(claims, i, NO_CLAIM, refs[j].endpoint, refs[j].node);
    }
  }

  lemma ReleaseClaimLinked(t: Tables, nodes: seq<Node>, except: nat, i: nat)
    requires Linked(t.references, t.claims, nodes, except) && i < |t.claims| && t.claims[i].endpoint != 0
    ensures var r := ReleaseClaim(t, i); Linked(r.references, r.claims, nodes, except)
  {
    var refs, claims, c := t.references, t.claims, t.claims[i];
    var r := ReleaseClaim(t, i);
    var k := FindReference(refs, c.endpoint, c.handle);
    if c.remote && c.endpoint != except {
      ClaimHolds(refs, claims, nodes, except, i);
      ReleaseClaimCounted(refs, claims, r.references, i, k);
      CountUpdate(claims, i, NO_CLAIM, c.endpoint, c.node);
      CountZero(r.claims, c.endpoint, c.node);
      forall j | 0 <= j < |claims| ensures ClaimOk(r.claims[j], r.references, nodes, except) {
        assert ClaimOk(claims[j], refs, nodes, except);
        if j != i && c.endpoint != 0 && claims[j].endpoint != 0 && claims[j].endpoint != except && claims[j].remote {
          var x :| 0 <= x < |refs| && refs[x].endpoint == claims[j].endpoint && refs[x].node == claims[j].node
              && refs[x].handle == claims[j].handle;
          assert x == k ==> RemoteClaim(r.claims[j], c.endpoint, c.node);
          assert r.references[x].endpoint == claims[j].endpoint && r.references[x].node == claims[j].node
                 && r.references[x].handle == claims[j].handle;
        }
      }
    } else {
      assert r.references == refs;
      ReleaseClaimCounted(refs, claims, refs, i, |refs|);
      forall j | 0 <= j < |claims| ensures ClaimOk(r.claims[j], refs, nodes, except) {
        assert ClaimOk(claims[j], refs, nodes, except);
      }
    }
  }

  // ---- releasing many ----

  /** References elsewhere are untouched; here they lose temporary counts or go. */
  ghost predicate Loosened(refs: seq<Reference>, refs': seq<Reference>, e: nat) {
    && |refs'| == |refs|
    && forall k {:trigger refs'[k]} :: 0 <= k < |refs| ==>
         refs'[k] == refs[k] || (refs[k].endpoint == e
             && (Dropped(refs[k], refs'[k]) || refs'[k] == refs[k].(temporary := refs'[k].temporary)))
  }

  ghost predicate Dropped(r: Reference, r': Reference) {
    r' == NO_REFERENCE && r.strong == 0 && r.weak == 0
  }

  lemma {:induction false} ReleaseClaimsLinked(t: Tables, nodes: seq<Node>, except: nat, e: nat, buffer: nat, i: nat)
    requires Linked(t.references, t.claims, nodes, except) && i <= |t.claims| && e != 0
    ensures var r := ReleaseClaims(t, e, buffer, i); Linked(r.references, r.claims, nodes, except)
    decreases |t.claims| - i
  {
    hide Linked;
    if i < |t.claims| {
      if Matches(t.claims[i], e, buffer) {
        ReleaseClaimLinked(t, nodes, except, i);
        ReleaseClaimsLinked(ReleaseClaim(t, i), nodes, except, e, buffer, i + 1);
      } else {
        ReleaseClaimsLinked(t, nodes, except, e, buffer, i + 1);
      }
    }
  }

  lemma {:induction false} ReleaseClaimsEffect(t: Tables, e: nat, buffer: nat, i: nat)
    requires i <= |t.claims| && e != 0
    ensures var r := ReleaseClaims(t, e, buffer, i);
            && Loosened(t.references, r.references, e)
            && (forall j {:trigger r.claims[j]} :: 0 <= j < |t.claims| ==>
                  r.claims[j] == if i <= j && Matches(t.claims[j], e, buffer) then NO_CLAIM else t.claims[j])
            && DeathsFollow(t.references, r.references, t.deaths, r.deaths)
    decreases |t.claims| - i
  {
    if i < |t.claims| {
      if Matches(t.claims[i], e, buffer) {
        var u := ReleaseClaim(t, i);
        ReleaseClaimsEffect(u, e, buffer, i + 1);
        var r := ReleaseClaims(t, e, buffer, i);
        assert Loosened(t.references, u.references, e);
        assert DeathsFollow(t.references, u.references, t.deaths, u.deaths);
        LoosenedTransitive(t.references, u.references, r.references, e);
        DeathsFollowTransitive(t.references, u.references, r.references, t.deaths, u.deaths, r.deaths, e);
      } else {
        ReleaseClaimsEffect(t, e, buffer, i + 1);
      }
    }
  }

  /** A death slot is wiped exactly when the reference holding it is dropped. */
  ghost predicate DeathsFollow(refs: seq<Reference>, refs': seq<Reference>, deaths: seq<Death>, deaths': seq<Death>) {
    && |deaths'| == |deaths| && |refs'| == |refs|
    && forall k {:trigger deaths'[k]} :: 0 <= k < |deaths| ==>
         deaths'[k] == if exists i :: 0 <= i < |refs| && WipedWith(refs[i], refs'[i], k) then NO_DEATH else deaths[k]
  }

  ghost predicate WipedWith(r: Reference, r': Reference, k: nat) {
    r.death == k + 1 && r != NO_REFERENCE && r' == NO_REFERENCE
  }

  lemma DeathsFollowTransitive(a: seq<Reference>, b: seq<Reference>, c: seq<Reference>,
                               x: seq<Death>, y: seq<Death>, z: seq<Death>, e: nat)
    requires DeathsFollow(a, b, x, y) && DeathsFollow(b, c, y, z) && Loosened(a, b, e) && Loosened(b, c, e) && e != 0
    ensures DeathsFollow(a, c, x, z)
  {
    forall k | 0 <= k < |x|
      ensures z[k] == if exists i :: 0 <= i < |a| && WipedWith(a[i], c[i], k) then NO_DEATH else x[k]
    {
      assert y[k] == if exists i :: 0 <= i < |a| && WipedWith(a[i], b[i], k) then NO_DEATH else x[k];
      forall i | 0 <= i < |a|
        ensures WipedWith(a[i], c[i], k) <==> WipedWith(a[i], b[i], k) || WipedWith(b[i], c[i], k)
      {
        assert Loosened(a, b, e) && Loosened(b, c, e);
        assert b[i] == a[i] || (a[i].endpoint == e
               && (Dropped(a[i], b[i]) || b[i] == a[i].(temporary := b[i].temporary)));
        assert c[i] == b[i] || (b[i].endpoint == e
               && (Dropped(b[i], c[i]) || c[i] == b[i].(temporary := c[i].temporary)));
      }
      if i :| 0 <= i < |a| && WipedWith(a[i], c[i], k) {
        assert WipedWith(a[i], b[i], k) || WipedWith(b[i], c[i], k);
      }
      if i :| 0 <= i < |a| && WipedWith(a[i], b[i], k) {
        assert WipedWith(a[i], c[i], k);
      }
      if i :| 0 <= i < |a| && WipedWith(b[i], c[i], k) {
        assert WipedWith(a[i], c[i], k);
      }
    }
  }

  lemma LoosenedTransitive(a: seq<Reference>, b: seq<Reference>, c: seq<Reference>, e: nat)
    requires Loosened(a, b, e) && Loosened(b, c, e) && e != 0
    ensures Loosened(a, c, e)
  {
    forall k | 0 <= k < |a|
      ensures c[k] == a[k] || (a[k].endpoint == e
              && (Dropped(a[k], c[k]) || c[k] == a[k].(temporary := c[k].temporary)))
    {
      assert b[k] == a[k] || (a[k].endpoint == e && (Dropped(a[k], b[k])
             || b[k] == a[k].(temporary := b[k].temporary)));
    }
  }

  // ---- collecting ----

  lemma CollectLinked(nodes: seq<Node>, refs: seq<Reference>, claims: seq<Claim>, except: nat)
    requires Linked(refs, claims, nodes, except)
    ensures Linked(refs, claims, Collect(nodes, refs, claims), except)
  {
    var after := Collect(nodes, refs, claims);
    forall i | 0 <= i < |refs| ensures RefOk(refs[i], after) {
      assert RefOk(refs[i], nodes);
      if refs[i].endpoint != 0 {
        var k :| 0 <= k < |nodes| && nodes[k].id == refs[i].node && nodes[k].owner == refs[i].owner;
        assert AnyImport(refs[i], nodes[k].id);
        assert after[k] == nodes[k];
      }
    }
    forall i | 0 <= i < |claims| ensures ClaimOk(claims[i], refs, after, except) {
      var c := claims[i];
      assert ClaimOk(c, refs, nodes, except);
      if c.endpoint != 0 && c.endpoint != except && !c.remote {
        var k :| 0 <= k < |nodes| && nodes[k].id == c.node && nodes[k].owner == c.endpoint;
        assert LocalClaim(claims[i], nodes[k].id);
        assert after[k] == nodes[k];
      }
    }
  }

  lemma CollectNodesOk(nodes: seq<Node>, refs: seq<Reference>, claims: seq<Claim>, nextNode: nat, tokens: set<nat>)
    requires NodesOk(nodes, nextNode, tokens)
    ensures NodesOk(Collect(nodes, refs, claims), nextNode, tokens)
    ensures NoGarbage(Collect(nodes, refs, claims), refs, claims)
  {
    hide Garbage;
    var after := Collect(nodes, refs, claims);
    assert NodeOk(NO_NODE, nextNode, tokens);
    forall i | 0 <= i < |after| ensures !Garbage(refs, claims, after[i]) {
      NoNodeNotGarbage(refs, claims);
    }
  }

  lemma NoNodeNotGarbage(refs: seq<Reference>, claims: seq<Claim>)
    ensures !Garbage(refs, claims, NO_NODE)
  {
  }
}
