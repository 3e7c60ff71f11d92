/** What the other commands and requests do, whether they succeed or not, in terms of the tables. */
module BinderOutcomes {
  import opened Base
  import opened BinderArena
  import opened BinderWire
  import opened BinderState
  import opened BinderCommands
  import opened BinderLifetime
  import opened BinderParcels
  import opened BinderBuffers
  import opened BinderCalls
  import opened BinderOneWay
  import opened BinderDeaths
  import opened BinderInvariant
  import opened BinderLifecycle
  import opened BinderSteps
  import opened BinderTransfer
  import opened BinderRuns
  import opened BinderAnswers
  import opened BinderProgress
  import opened BinderAccepts

  // ---- buffers ----

  /** A buffer can be freed exactly when it is one of the process's and was delivered; otherwise nothing happens. */
  lemma FreeAccepted(d: Device, e: nat, buffer: u64)
    requires Inv(d) && e in d.endpoints
    ensures var slots, r := d.endpoints[e].slots, FreeCommand(d, e, buffer);
            if exists i :: 0 <= i < |slots| && slots[i].address == buffer && slots[i].delivered then r.1 == Done
            else r == (d, Fail(-95))
  {
    BinderEffects.ReceiverLaid(d, e);
    hide Inv, Laid;
    var ep := d.endpoints[e];
    if ep.slots != [] { RemoveHolds(ep.slots, ep.base, ep.size, buffer, true); }
    hide AdvanceAsync, Unclaim, Remove;
    assert ep.slots == [] ==> Remove(ep.slots, buffer, true).1 != 0 by { NothingToRemove(buffer); }
  }

  lemma NothingToRemove(buffer: nat)
    ensures Remove([], buffer, true).1 != 0
  {
  }

  // ---- counts ----

  /** The reference with one count moved, or gone with its last one. */
  ghost predicate Moved(r: Reference, r': Reference, up: bool, strong: bool) {
    var s: int, w: int := if strong then r.strong + (if up then 1 else -1) else r.strong,
      if strong then r.weak else r.weak + (if up then 1 else -1);
    var s', w' := if s < 0 then 0 else s, if w < 0 then 0 else w;
    r' == if s' == 0 && w' == 0 && r.temporary == 0 then NO_REFERENCE else r.(strong := s', weak := w')
  }

  /** A count command moves one count of the reference its handle names, and nothing when there is none or the count is
      at
      its end. */
  lemma CountMoves(d: Device, e: nat, up: bool, strong: bool, handle: u32)
    requires Inv(d) && e in d.endpoints && !(up && handle == 0 && d.manager != 0)
    ensures var r := ReferenceCommand(d, e, up, strong, handle);
            && ((forall i {:trigger d.references[i]} :: 0 <= i < |d.references| ==>
                   !(d.references[i].endpoint == e && d.references[i].handle == handle)) ==> r == (d, Done))
            && forall i {:trigger d.references[i]} ::
                 0 <= i < |d.references| && d.references[i].endpoint == e && d.references[i].handle == handle ==>
                   if up && (if strong then d.references[i].strong else d.references[i].weak) == U32_LIMIT - 1
                   then r == (d, Fail(-12))
                   else r.1 == Done && |r.0.references| == |d.references|
                        && Moved(d.references[i], r.0.references[i], up, strong)
                        && r.0.references == d.references[i := r.0.references[i]]
  {
    OneHandle(d);
    var k := FindReference(d.references, e, handle);
    assert k < |d.references| ==> d.references[k].endpoint == e && d.references[k].handle == handle;
    hide *;
    CountShape(d, e, up, strong, handle, k);
    if k < |d.references| { AdjustIs(d, k, up, strong); }
  }

  lemma CountShape(d: Device, e: nat, up: bool, strong: bool, handle: u32, k: nat)
    requires !(up && handle == 0 && d.manager != 0) && k == FindReference(d.references, e, handle)
    ensures ReferenceCommand(d, e, up, strong, handle) ==
              if k == |d.references| then (d, Done) else AdjustReference(d, k, up, strong)
  {
    hide FindReference, AdjustReference, EnsureReference, NodeFor;
  }

  lemma AdjustIs(d: Device, i: nat, up: bool, strong: bool)
    requires i < |d.references|
    ensures var r := AdjustReference(d, i, up, strong);
            if up && (if strong then d.references[i].strong else d.references[i].weak) == U32_LIMIT - 1
            then r == (d, Fail(-12))
            else r.1 == Done && |r.0.references| == |d.references|
                 && Moved(d.references[i], r.0.references[i], up, strong)
                 && r.0.references == d.references[i := r.0.references[i]]
  {
    hide Collect;
  }

  lemma UpIs(d: Device, i: nat, strong: bool)
    requires i < |d.references|
    ensures var was, r := d.references[i], AdjustReference(d, i, true, strong);
            if (if strong then was.strong else was.weak) == U32_LIMIT - 1 then r == (d, Fail(-12))
            else r.1 == Done && r.0.references == d.references[i := if strong then was.(strong := was.strong + 1)
                                                                    else was.(weak := was.weak + 1)]
  {
    hide Collect;
  }

  lemma ManagerShape(d: Device, e: nat, strong: bool, k: nat)
    requires d.manager != 0 && k == NodeFor(d.nodes, d.managerNode) < |d.nodes|
    ensures var r := ReferenceCommand(d, e, true, strong, 0);
            var (refs, i) := EnsureReference(d.references, e, d.nodes[k], d.managerNode);
            && (e == d.manager ==> r == (d, Fail(-22)))
            && (e != d.manager ==>
                 if i == |refs| then r == (d, Fail(-12))
                     else r == AdjustReference(d.(references := refs), i, true, strong))
  {
    hide Collect, EnsureReference, NodeFor, AdjustReference;
  }

  ghost predicate SomeAcquired(d: Device, refs: seq<Reference>, e: nat, strong: bool) {
    |refs| == |d.references| && exists i {:trigger refs[i]} ::
      0 <= i < |refs| && refs == d.references[i := refs[i]] && Acquired(d, refs[i], d.references[i], e, strong)
  }

  /** Taking a count of handle zero is taking one of the manager's node, which its own process cannot; the reference is
      made
      if there is none. */
  lemma ManagerCount(d: Device, e: nat, strong: bool)
    requires Inv(d) && e in d.endpoints && d.manager != 0
    ensures var r := ReferenceCommand(d, e, true, strong, 0);
            && (e == d.manager ==> r == (d, Fail(-22)))
            && (e != d.manager ==>
                 if r.1 == Done then SomeAcquired(d, r.0.references, e, strong) else r == (d, Fail(-12)))
  {
    assert U32_LIMIT - 1 != 0;
    hide *;
    ManagerThere(d);
    TargetKnown(d, e);
    var k := NodeFor(d.nodes, d.managerNode);
    ManagerShape(d, e, strong, k);
    EnsureShape(d.references, e, d.nodes[k], d.managerNode);
    var (refs, i) := EnsureReference(d.references, e, d.nodes[k], d.managerNode);
    if e != d.manager && i < |refs| {
      UpIs(d.(references := refs), i, strong);
      var r := ReferenceCommand(d, e, true, strong, 0);
      if r.1 == Done { AcquiredIs(d, refs, r.0.references, i, e, strong); }
    }
  }

  lemma AcquiredIs(d: Device, refs: seq<Reference>, refs': seq<Reference>, i: nat, e: nat, strong: bool)
    requires i < |refs| == |d.references| && refs == d.references[i := refs[i]] && d.managerNode == refs[i].node
    requires refs[i].endpoint == e
    requires refs == d.references || (d.references[i].endpoint == 0
             && refs[i].strong == refs[i].weak == refs[i].temporary == 0)
    requires e != 0
    requires refs' == refs[i := if strong then refs[i].(strong := refs[i].strong + 1)
             else refs[i].(weak := refs[i].weak + 1)]
    ensures SomeAcquired(d, refs', e, strong)
  {
    assert refs' == d.references[i := refs'[i]];
    assert Acquired(d, refs'[i], d.references[i], e, strong);
  }

  /** A reference of `e` to the manager's node with one more count than it had, or with its first. */
  ghost predicate Acquired(d: Device, r': Reference, r: Reference, e: nat, strong: bool) {
    && r'.endpoint == e && r'.node == d.managerNode
    && if r.endpoint == e && r.node == d.managerNode
       then r' == (if strong then r.(strong := r.strong + 1) else r.(weak := r.weak + 1))
       else r.endpoint == 0 && (r'.strong, r'.weak, r'.temporary) == (if strong then (1, 0, 0) else (0, 1, 0))
  }

  lemma ManagerThere(d: Device)
    requires Inv(d) && d.manager != 0
    ensures var k := NodeFor(d.nodes, d.managerNode); k < |d.nodes| && d.nodes[k].id == d.managerNode
  {
    hide LifeOk, NoGarbage, SlotsOk, DeathsOk, BuffersOk, CallsOk, AsyncOk;
    var x :| 0 <= x < |d.nodes| && d.nodes[x].id == d.managerNode && d.nodes[x].owner == d.manager && d.nodes[x].manager
        && d.nodes[x].hasStrong;
  }

  lemma EnsureShape(refs: seq<Reference>, e: nat, node: Node, managerNode: nat)
    requires node.id == managerNode
    ensures var (refs', i) := EnsureReference(refs, e, node, managerNode);
            && (i == |refs'| ==> refs' == refs)
            && (i < |refs'| ==>
                 || (refs' == refs && refs[i].endpoint == e && refs[i].node == node.id)
                 || (refs[i].endpoint == 0 && refs' == refs[i := refs'[i]] && refs'[i].endpoint == e
                     && refs'[i].node == node.id && refs'[i].strong == refs'[i].weak == refs'[i].temporary == 0))
  {
    hide FindImport, FreeReference, FreeHandle;
  }

  // ---- acknowledgements ----

  /** Acknowledging a callback clears exactly that mark of exactly the node the pointer and cookie name, which may then
      go if
      nothing holds it; with no such node nothing happens. */
  lemma Acknowledges(d: Device, e: nat, strong: bool, pointer: u64, cookie: u64)
    requires Inv(d) && e in d.endpoints
    ensures var r := NodeDoneCommand(d, e, strong, pointer, cookie);
            && r.1 == Done && r.0 == d.(nodes := r.0.nodes) && |r.0.nodes| == |d.nodes|
            && (forall k {:trigger r.0.nodes[k]} :: 0 <= k < |d.nodes| ==>
                 var n, n' := d.nodes[k], r.0.nodes[k];
                 if n.id != 0 && !n.dead && (n.owner, n.pointer, n.cookie) == (e, pointer, cookie)
                 then n' == NO_NODE || (n'.tid in {0, n.tid} &&
                                        n' == if strong then n.(pendingStrong := false, tid := n'.tid)
                                              else n.(pendingWeak := false, tid := n'.tid))
                 else n' == n)
  {
    NodesUsed(d);
    OneOwned(d);
    hide Inv, Garbage, WeakUse, StrongUse;
    var k := OwnedNode(d.nodes, e, pointer);
    assert k < |d.nodes| ==> Owns(d.nodes[k], e, pointer);
    hide OwnedNode;
  }

  lemma OneOwned(d: Device)
    requires Inv(d)
    ensures forall i, j {:trigger d.nodes[i], d.nodes[j]} ::
              0 <= i < |d.nodes| && 0 <= j < |d.nodes| && i != j && d.nodes[i].id != 0 && !d.nodes[i].dead
              && d.nodes[j].id != 0 && !d.nodes[j].dead && d.nodes[i].owner == d.nodes[j].owner ==>
                d.nodes[i].pointer != d.nodes[j].pointer
  {
    hide Linked, NoGarbage, SlotsOk, DeathsOk, ManagerOk, BuffersOk, CallsOk, AsyncOk;
    assert NodesOk(d.nodes, d.nextNode, d.endpoints.Keys);
  }

  // ---- death notifications ----

  /** A subscription is taken exactly when its handle names a reference that has none and a slot is free; otherwise
      nothing
      changes. */
  lemma SubscribesWhen(d: Device, e: nat, handle: u32, cookie: u64)
    requires Inv(d) && e in d.endpoints
    ensures var r := RequestDeathCommand(d, e, handle, cookie);
            var named := exists i :: 0 <= i < |d.references| && d.references[i].endpoint == e
                           && d.references[i].handle == handle && d.references[i].death == 0;
            var free := exists s :: 0 <= s < |d.deaths| && d.deaths[s].endpoint == 0;
            && (!named ==> r == (d, Done)) && (named && !free ==> r == (d, Fail(-12)))
            && (named && free ==> r.1 == Done && r.0.references != d.references)
  {
    OneHandle(d);
    FreeDeathIs(d.deaths, 0);
    hide Inv, FreeDeath;
    var k := FindReference(d.references, e, handle);
    assert k < |d.references| ==> d.references[k].endpoint == e && d.references[k].handle == handle;
    hide FindReference;
    var r := RequestDeathCommand(d, e, handle, cookie).0;
    assert k < |d.references| && r != d ==> r.references[k].death != 0;
  }

  lemma {:induction false} FreeDeathIs(deaths: seq<Death>, i: nat)
    requires i <= |deaths|
    ensures FreeDeath(deaths, i) < |deaths| <==> exists s :: i <= s < |deaths| && deaths[s].endpoint == 0
    decreases |deaths| - i
  {
    if i < |deaths| && deaths[i].endpoint != 0 { FreeDeathIs(deaths, i + 1); }
  }

  /** Clearing a subscription with its cookie leaves the reference without one and its slot to be answered: at once if
      no
      notice is on its way, to the clearing thread if that is a looper and to any otherwise. */
  lemma ClearsWhen(d: Device, e: nat, tid: nat, handle: u32, cookie: u64, i: nat)
    requires Inv(d) && e in d.endpoints && (e, tid) in d.threads && i < |d.references|
    requires d.references[i].endpoint == e && d.references[i].handle == handle
    ensures var r, s, looper := ClearDeathCommand(d, e, tid, handle, cookie), d.references[i].death,
              d.threads[(e, tid)].looper;
            if 0 < s <= |d.deaths| && d.deaths[s - 1].cookie == cookie
            then
              var x := d.deaths[s - 1];
              && r.1 == Done && r.0.references == d.references[i := d.references[i].(death := 0)]
              && r.0.deaths == d.deaths[s - 1 :=
                   if x.state == Armed || x.state == DeathAcknowledged
                   then x.(clearing := true, state := ClearQueued,
                           tid := if looper.entered || looper.registered then tid else 0)
                   else x.(clearing := true)]
            else r == (d, Done)
  {
    OneHandle(d);
    hide Inv;
    var k := FindReference(d.references, e, handle);
    assert k < |d.references| ==> d.references[k].endpoint == e && d.references[k].handle == handle;
    hide FindReference;
  }

  predicate Outstanding(x: Death, e: nat, cookie: u64) {
    x.endpoint == e && x.cookie == cookie && x.state == DeathDelivered
  }

  /** An acknowledged notice, or the answer to its clearing, which waits for the acknowledging thread if that is a
      looper and
      for any otherwise. */
  function Settled(x: Death, tid: nat, looper: Looper): Death {
    if !x.clearing then x.(state := DeathAcknowledged)
    else x.(state := ClearQueued, tid := if looper.entered || looper.registered then tid else 0)
  }

  /** Acknowledging a notice settles one that was delivered with that cookie, if there is one. */
  lemma SettlesWhen(d: Device, e: nat, tid: nat, cookie: u64)
    requires (e, tid) in d.threads
    ensures var r := DeathDoneCommand(d, e, tid, cookie);
            && ((forall x {:trigger d.deaths[x]} :: 0 <= x < |d.deaths| ==> !Outstanding(d.deaths[x], e, cookie)) ==>
                 r == (d, Done))
            && ((exists x :: 0 <= x < |d.deaths| && Outstanding(d.deaths[x], e, cookie)) ==>
                 exists i :: 0 <= i < |d.deaths| && Outstanding(d.deaths[i], e, cookie) && r ==
                   (d.(deaths := d.deaths[i := Settled(d.deaths[i], tid, d.threads[(e, tid)].looper)]), Done))
  {
    OutstandingFound(d.deaths, e, cookie, 0);
    var i := DeliveredDeath(d.deaths, e, cookie);
    assert i < |d.deaths| ==> Outstanding(d.deaths[i], e, cookie);
    hide DeliveredDeath;
  }

  lemma {:induction false} OutstandingFound(deaths: seq<Death>, e: nat, cookie: u64, i: nat)
    requires i <= |deaths|
    ensures DeliveredDeath(deaths, e, cookie, i) < |deaths| <==>
              exists x :: i <= x < |deaths| && Outstanding(deaths[x], e, cookie)
    decreases |deaths| - i
  {
    if i < |deaths| && !Outstanding(deaths[i], e, cookie) { OutstandingFound(deaths, e, cookie, i + 1); }
  }

  // ---- loopers ----

  /** A thread in no call takes its process's work once it has entered its looper, unless it also registers, which is
      never
      asked for, or until it leaves. */
  lemma LooperTakesWork(d: Device, e: nat, tid: nat, c: Command)
    requires e in d.endpoints && (e, tid) in d.threads && ArenasLaid(d.endpoints)
             && (c.EnterLooper? || c.RegisterLooper? || c.ExitLooper?)
    ensures var r, th := Execute(d, e, tid, c), d.threads[(e, tid)];
            && r.1 == Done && (e, tid) in r.0.threads
            && r.0 == d.(threads := d.threads[(e, tid) := th.(looper := r.0.threads[(e, tid)].looper)])
            && var th' := r.0.threads[(e, tid)];
            && (c.EnterLooper? ==> th'.looper.registered == th.looper.registered)
            && (c.EnterLooper? && !th.looper.registered && !th.looper.invalid && !th.looper.exited ==>
                 (IsIdle(th') <==> th.incoming == 0 && th.outgoing == 0 && !th.deadReply))
            && (c.EnterLooper? && (th.looper.registered || th.looper.invalid || th.looper.exited) ==> !IsIdle(th'))
            && (c.RegisterLooper? ==> !IsIdle(th') && th'.looper.registered && th'.looper.invalid)
            && (c.ExitLooper? ==> !IsIdle(th') && th'.looper.exited)
            && (th.looper.invalid ==> th'.looper.invalid) && (th.looper.exited ==> th'.looper.exited)
  {
    hide ArenasLaid;
  }

  // ---- opening, and the context manager ----

  /** An open succeeds while there is a token and room for a process; it gets the next token and nothing else changes.
      */
  lemma OpensWhen(d: Device, pid: u32, uid: u32)
    requires Inv(d)
    ensures var r := Open(d, pid, uid);
            if d.nextToken == U64_LIMIT || |d.endpoints| >= d.endpointLimit then r == (d, Fail(-24))
            else r.1 == Done && d.nextToken !in d.endpoints && r.0.endpoints.Keys == d.endpoints.Keys + {d.nextToken}
                 && (forall x {:trigger r.0.endpoints[x]} :: x in d.endpoints ==> r.0.endpoints[x] == d.endpoints[x])
                 && var ep := r.0.endpoints[d.nextToken];
                 ep.isOpen && (ep.pid, ep.uid) == (pid, uid) && !ep.mappedOnce && ep.watch == 0 && ep.slots == []
                     && r.0.nextToken == d.nextToken + 1
                     && r.0 == d.(endpoints := r.0.endpoints, nextToken := r.0.nextToken)
  {
    TokenNew(d);
    hide Inv;
  }

  /** A thread is admitted once, as one that has done nothing yet, while its process has room for it. */
  lemma AdmitsWhen(d: Device, token: nat, tid: nat)
    requires Enabled(d, Admit(token, tid)) && ArenasLaid(d.endpoints)
    ensures var r, k := Next(d, Admit(token, tid)), (token, tid);
            if k in d.threads then r == Outcome(d, Done, [])
            else if |set q | q in d.threads && q.0 == token| >= d.threadLimit then r == Outcome(d, Fail(-12), [])
            else
              && r.status == Done && r.delivered == [] && k in r.d.threads
              && r.d == d.(threads := d.threads[k := r.d.threads[k]])
              && var th := r.d.threads[k];
              && th.incoming == 0 && th.outgoing == 0 && th.error == 0 && th.completions == 0 && !th.deadReply
              && th.initialReturn && th.looper == Looper(false, false, false, false)
  {
    hide ArenasLaid;
  }

  lemma TokenNew(d: Device)
    requires Inv(d)
    ensures d.nextToken !in d.endpoints
  {
    hide ObjectsOk, CallsOk, AsyncOk, Laid;
    assert forall x :: x in d.endpoints ==> x < d.nextToken;
  }

  /** A process becomes the manager exactly when there is none, nobody of another user ever was, it does not own that
      node
      already, and a node can be made; handle zero then names that node. */
  lemma ManagesWhen(d: Device, e: nat, pointer: u64, cookie: u64, flags: u32)
    requires Inv(d) && e in d.endpoints
    ensures var r := SetManager(d, e, pointer, cookie, flags);
            var owned := exists k ::
                  0 <= k < |d.nodes| && d.nodes[k].id != 0 && !d.nodes[k].dead && d.nodes[k].owner == e
                                     && d.nodes[k].pointer == pointer;
            var room := d.nextNode != U64_LIMIT && exists k :: 0 <= k < |d.nodes| && d.nodes[k].id == 0;
            if d.manager == 0 && (d.managerUid.None? || d.managerUid.value == d.endpoints[e].uid) && !owned && room
            then
              && r.1 == Done && r.0.manager == e && r.0.managerNode == d.nextNode && r.0.nextNode == d.nextNode + 1
              && r.0.managerUid == Some(d.endpoints[e].uid) && |r.0.nodes| == |d.nodes|
              && exists k :: 0 <= k < |d.nodes| && d.nodes[k].id == 0 && r.0.nodes == d.nodes[k :=
                   Node(d.nextNode, e, pointer, cookie, flags, 0, true, false, true, true, false, false, 0)]
            else r == (d, Fail(if d.manager != 0 then -16
                               else if d.managerUid.Some? && d.managerUid.value != d.endpoints[e].uid then -1
                               else if owned then -95 else -12))
  {
    hide Inv;
    var k := OwnedNode(d.nodes, e, pointer);
    assert k < |d.nodes| ==> Owns(d.nodes[k], e, pointer);
    var f := FindNode(d.nodes, 0);
    assert f < |d.nodes| ==> d.nodes[f].id == 0;
    hide OwnedNode, FindNode;
  }

  // ---- leaving ----

  /** After a thread's exit nothing is addressed to it: its queued parcels and notices are gone, and nodes that it was
      to be
      told about are for any thread. */
  lemma ExitClears(d: Device, e: nat, tid: nat)
    requires Inv(d) && (e, tid) in d.threads
    ensures var r := ThreadExit(d, e, tid);
            && r.threads.Keys == d.threads.Keys - {(e, tid)}
            && (forall j {:trigger r.work[j]} :: 0 <= j < |r.work| ==>
                 !(r.work[j].endpoint == e && r.work[j].tid == tid))
            && (forall k {:trigger r.nodes[k]} :: 0 <= k < |r.nodes| && r.nodes[k].id != 0 ==>
                 !(r.nodes[k].owner == e && r.nodes[k].tid == tid))
            && (forall k {:trigger r.deaths[k]} :: 0 <= k < |r.deaths| && r.deaths[k].endpoint != 0 ==>
                 !(r.deaths[k].endpoint == e && r.deaths[k].tid == tid))
  {
    hide *;
    ThreadPositive(d, e, tid);
    CancelInv(d, e, tid);
    ExitShape(d, e, tid);
  }

  lemma ExitShape(d: Device, e: nat, tid: nat)
    requires tid > 0
    ensures var a, r := Cancel(d, e, tid), ThreadExit(d, e, tid);
            && r.threads.Keys == a.threads.Keys - {(e, tid)} && r.work == a.work
            && (forall k {:trigger r.nodes[k]} :: 0 <= k < |r.nodes| && r.nodes[k].id != 0 ==>
                 !(r.nodes[k].owner == e && r.nodes[k].tid == tid))
            && (forall k {:trigger r.deaths[k]} :: 0 <= k < |r.deaths| && r.deaths[k].endpoint != 0 ==>
                 !(r.deaths[k].endpoint == e && r.deaths[k].tid == tid))
  {
    hide Cancel;
  }

  /** After a process is released nothing of it is left: no thread, reference, claim, subscription or queued parcel; its
      nodes are dead and owe no callback. */
  lemma ReleaseClears(d: Device, token: nat)
    requires Inv(d) && token in d.endpoints
    ensures var r := ReleaseEndpoint(d, token);
            && r.endpoints.Keys == d.endpoints.Keys - {token} && r.manager != token
            && (forall k {:trigger k in r.threads} :: k in r.threads ==> k.0 != token)
            && (forall k {:trigger k in r.parcels} :: k in r.parcels ==> k.0 != token)
            && (forall j {:trigger r.work[j]} :: 0 <= j < |r.work| ==> r.work[j].endpoint != token)
            && (forall i {:trigger r.references[i]} :: 0 <= i < |r.references| ==> r.references[i].endpoint != token)
            && (forall c {:trigger r.claims[c]} :: 0 <= c < |r.claims| ==> r.claims[c].endpoint != token)
            && (forall k {:trigger r.nodes[k]} ::
                 0 <= k < |r.nodes| && r.nodes[k].id != 0 && r.nodes[k].owner == token ==>
                 r.nodes[k].dead)
            && (forall k {:trigger r.deaths[k]} :: 0 <= k < |r.deaths| && r.deaths[k].endpoint != 0 ==>
                 r.deaths[k].endpoint != token && (r.deaths[k].owner == token ==> r.deaths[k].state != Armed))
  {
    ReleaseEndpointInv(d, token);
    TargetKnown(d, token);
    hide Inv, ReleaseEndpoint;
    NothingOf(ReleaseEndpoint(d, token), token);
  }

  /** Of a process that is not there nothing is there. */
  lemma NothingOf(r: Device, token: nat)
    requires Inv(r) && token != 0 && token !in r.endpoints
    ensures r.manager != token
    ensures forall k {:trigger k in r.threads} :: k in r.threads ==> k.0 != token
    ensures forall k {:trigger k in r.parcels} :: k in r.parcels ==> k.0 != token
    ensures forall j {:trigger r.work[j]} :: 0 <= j < |r.work| ==> r.work[j].endpoint != token
    ensures forall i {:trigger r.references[i]} :: 0 <= i < |r.references| ==> r.references[i].endpoint != token
    ensures forall c {:trigger r.claims[c]} :: 0 <= c < |r.claims| ==> r.claims[c].endpoint != token
    ensures forall k {:trigger r.nodes[k]} :: 0 <= k < |r.nodes| && r.nodes[k].id != 0 && r.nodes[k].owner == token ==>
              r.nodes[k].dead
    ensures forall k {:trigger r.deaths[k]} :: 0 <= k < |r.deaths| && r.deaths[k].endpoint != 0 ==>
              r.deaths[k].endpoint != token && (r.deaths[k].owner == token ==> r.deaths[k].state != Armed)
  {
    InvSplit(r);
    hide Inv, AsyncOk;
    NoObjectsOf(r, token);
    NoBuffersOf(r, token);
    hide ObjectsOk, BuffersOk, TransactionsOk, RequestsOk;
  }

  lemma NoObjectsOf(r: Device, token: nat)
    requires ObjectsOk(r, r.endpoints.Keys) && token != 0 && token !in r.endpoints
    ensures r.manager != token
    ensures forall i {:trigger r.references[i]} :: 0 <= i < |r.references| ==> r.references[i].endpoint != token
    ensures forall k {:trigger r.nodes[k]} :: 0 <= k < |r.nodes| && r.nodes[k].id != 0 && r.nodes[k].owner == token ==>
              r.nodes[k].dead
    ensures forall k {:trigger r.deaths[k]} :: 0 <= k < |r.deaths| && r.deaths[k].endpoint != 0 ==>
              r.deaths[k].endpoint != token && (r.deaths[k].owner == token ==> r.deaths[k].state != Armed)
  {
    hide Linked, NoGarbage, SlotsOk;
    forall k | 0 <= k < |r.nodes| && r.nodes[k].id != 0 && r.nodes[k].owner == token ensures r.nodes[k].dead {
      assert NodeOk(r.nodes[k], r.nextNode, r.endpoints.Keys);
    }
    forall k | 0 <= k < |r.deaths| && r.deaths[k].endpoint != 0
      ensures r.deaths[k].endpoint != token && (r.deaths[k].owner == token ==> r.deaths[k].state != Armed)
    {
      assert DeathOk(r.deaths[k], r.endpoints.Keys, r.nextSerial);
    }
  }

  lemma NoBuffersOf(r: Device, token: nat)
    requires BuffersOk(r.endpoints, r.nextToken, r.work, r.claims, r.parcels) && token != 0 && token !in r.endpoints
    ensures forall k {:trigger k in r.parcels} :: k in r.parcels ==> k.0 != token
    ensures forall j {:trigger r.work[j]} :: 0 <= j < |r.work| ==> r.work[j].endpoint != token
    ensures forall c {:trigger r.claims[c]} :: 0 <= c < |r.claims| ==> r.claims[c].endpoint != token
  {
    WorkEndpoints(r.endpoints, r.nextToken, r.work);
    hide EndpointsOk, WorkHeld, Covered;
  }
}
