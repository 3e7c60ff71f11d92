/** Everything queued is handed out: what a read delivers first, and that each delivery shortens what is ahead of the
    rest. */
module BinderProgress {
  import opened Base
  import opened BinderArena
  import opened BinderWire
  import opened BinderState
  import opened BinderCommands
  import opened BinderLifetime
  import opened BinderParcels
  import opened BinderBuffers
  import opened BinderCalls
  import opened BinderOneWay
  import opened BinderInvariant
  import opened BinderSteps
  import opened BinderTransfer
  import opened BinderRuns
  import opened BinderAnswers

  // ---- who may be handed what ----

  /** In its looper, in no call and not about to be told of a dead one. */
  predicate IsIdle(th: Thread) {
    && th.looper.entered && !th.looper.exited && !th.looper.invalid
    && th.incoming == 0 && th.outgoing == 0 && !th.deadReply
  }

  /** Addressed to the thread itself, or to its process while it is idle. */
  predicate For(tid: nat, k: Key, th: Thread) {
    tid == k.1 || (tid == 0 && IsIdle(th))
  }

  /** A one-way parcel goes out only while it is its node's current one. */
  ghost predicate MayTake(d: Device, w: Work, k: Key)
    requires k in d.threads
  {
    && w.endpoint == k.0 && For(w.tid, k, d.threads[k])
    && (w.asyncNode != 0 ==> exists n :: 0 <= n < |d.nodes| && d.nodes[n].id == w.asyncNode
                                         && d.nodes[n].asyncBuffer == w.value.dataBuffer)
  }

  /** A DEAD_BINDER or CLEAR_DEATH_NOTIFICATION_DONE waiting to be told. */
  ghost predicate MayHear(d: Device, x: Death, k: Key)
    requires k in d.threads
  {
    x.endpoint == k.0 && (x.state == DeathQueued || x.state == ClearQueued) && For(x.tid, k, d.threads[k])
  }

  /** How many callbacks would bring what the owner was told in line with how the node is used. */
  ghost function Debt(d: Device, node: Node): nat {
    if node.id == 0 || node.dead || node.manager then 0
    else
      (if WeakUse(d.references, d.claims, node) != node.hasWeak then 1 else 0)
      + (if StrongUse(d.references, d.claims, node) != node.hasStrong then 1 else 0)
  }

  ghost predicate MayCall(d: Device, node: Node, k: Key)
    requires k in d.threads
  {
    node.owner == k.0 && For(node.tid, k, d.threads[k]) && Debt(d, node) > 0
  }

  lemma IdleIs(th: Thread)
    ensures IsIdle(th) <==> AcceptsProcessWork(th)
  {
  }

  lemma MayTakeIs(d: Device, w: Work, k: Key)
    requires Inv(d) && k in d.threads
    ensures MayTake(d, w, k) <==> Deliverable(d, w, k.0, k.1, d.threads[k])
  {
    NodeParts(d);
    IdleIs(d.threads[k]);
    hide Inv, IsIdle, AcceptsProcessWork;
    if w.asyncNode != 0 {
      var m := NodeFor(d.nodes, w.asyncNode);
      forall n | 0 <= n < |d.nodes| && d.nodes[n].id == w.asyncNode ensures n == m {
        assert m < |d.nodes| ==> d.nodes[m].id == w.asyncNode;
      }
    }
  }

  lemma MayHearIs(d: Device, x: Death, k: Key)
    requires k in d.threads
    ensures MayHear(d, x, k) <==> Notifiable(x, k.0, k.1, d.threads[k])
  {
    IdleIs(d.threads[k]);
  }

  lemma MayCallIs(d: Device, node: Node, k: Key)
    requires k in d.threads
    ensures MayCall(d, node, k) <==> Callable(d, node, k.0, k.1, d.threads[k])
  {
    IdleIs(d.threads[k]);
    hide WeakUse, StrongUse, IsIdle, AcceptsProcessWork;
  }

  // ---- what comes first ----

  ghost predicate FirstWork(d: Device, k: Key, j: nat)
    requires k in d.threads
  {
    j < |d.work| && MayTake(d, d.work[j], k) && forall i :: 0 <= i < j ==> !MayTake(d, d.work[i], k)
  }

  ghost predicate FirstNotice(d: Device, k: Key, j: nat)
    requires k in d.threads
  {
    j < |d.deaths| && MayHear(d, d.deaths[j], k) && forall i :: 0 <= i < j ==> !MayHear(d, d.deaths[i], k)
  }

  ghost predicate FirstCall(d: Device, k: Key, j: nat)
    requires k in d.threads
  {
    j < |d.nodes| && MayCall(d, d.nodes[j], k) && forall i :: 0 <= i < j ==> !MayCall(d, d.nodes[i], k)
  }

  /** What thread `k` is to be handed next: its error, else the first callback owed, else a completion, else the first
      parcel, else the first notice. */
  ghost predicate ComesFirst(d: Device, k: Key, x: Delivery)
    requires k in d.threads
  {
    var th := d.threads[k];
    if th.error != 0 then x == ErrorWord(th.error)
    else if exists n: nat :: FirstCall(d, k, n) then exists n: nat ::
          FirstCall(d, k, n) && x.Callback? && x.node == d.nodes[n]
    else if th.completions != 0 then x == Complete
    else if exists j: nat :: FirstWork(d, k, j) then exists j: nat :: FirstWork(d, k, j) && x == Parcel(d.work[j])
    else exists i: nat :: FirstNotice(d, k, i) && x == Notice(d.deaths[i])
  }

  lemma FirstCallIs(d: Device, k: Key)
    requires k in d.threads
    ensures var n := NodeEventFor(d, k.0, k.1, d.threads[k]);
            (n < |d.nodes| ==> FirstCall(d, k, n)) && forall m: nat :: FirstCall(d, k, m) ==> m == n
  {
    forall node ensures MayCall(d, node, k) <==> Callable(d, node, k.0, k.1, d.threads[k]) { MayCallIs(d, node, k); }
    hide MayCall, Callable;
    var n := NodeEventFor(d, k.0, k.1, d.threads[k]);
    forall m: nat | FirstCall(d, k, m) ensures m == n {
      assert Callable(d, d.nodes[m], k.0, k.1, d.threads[k]);
    }
  }

  lemma FirstWorkIs(d: Device, k: Key)
    requires Inv(d) && k in d.threads
    ensures var j := WorkFor(d, k.0, k.1, d.threads[k]);
            (j < |d.work| ==> FirstWork(d, k, j)) && forall m: nat :: FirstWork(d, k, m) ==> m == j
  {
    forall w ensures MayTake(d, w, k) <==> Deliverable(d, w, k.0, k.1, d.threads[k]) { MayTakeIs(d, w, k); }
    hide Inv, MayTake, Deliverable;
    var j := WorkFor(d, k.0, k.1, d.threads[k]);
    forall m: nat | FirstWork(d, k, m) ensures m == j {
      assert Deliverable(d, d.work[m], k.0, k.1, d.threads[k]);
    }
  }

  lemma FirstNoticeIs(d: Device, k: Key)
    requires k in d.threads
    ensures var i := DeathFor(d.deaths, k.0, k.1, d.threads[k]);
            (i < |d.deaths| ==> FirstNotice(d, k, i)) && forall m: nat :: FirstNotice(d, k, m) ==> m == i
  {
    forall x ensures MayHear(d, x, k) <==> Notifiable(x, k.0, k.1, d.threads[k]) { MayHearIs(d, x, k); }
    hide MayHear, Notifiable;
    var i := DeathFor(d.deaths, k.0, k.1, d.threads[k]);
    forall m: nat | FirstNotice(d, k, m) ensures m == i {
      assert Notifiable(d.deaths[m], k.0, k.1, d.threads[k]);
    }
  }

  /** The choice the driver makes, by the indices it finds. */
  lemma NextChoice(d: Device, k: Key)
    requires k.0 in d.endpoints && k in d.threads
    ensures var r, th := DeliverNext(d, k.0, k.1), d.threads[k];
            var n, j, i := NodeEventFor(d, k.0, k.1, th), WorkFor(d, k.0, k.1, th), DeathFor(d.deaths, k.0, k.1, th);
            if th.error != 0
            then r == Outcome(d.(threads := d.threads[k := th.(error := 0)]), Done, [ErrorWord(th.error)])
            else if n < |d.nodes| then r == DeliverNode(d, n) && |r.delivered| == 1 && r.delivered[0].Callback?
                                       && r.delivered[0].node == d.nodes[n]
            else if th.completions != 0
            then r == Outcome(d.(threads := d.threads[k := th.(completions := th.completions - 1)]), Done, [Complete])
            else if j < |d.work| then r == DeliverWork(d, k.0, k.1, j) && r.delivered == [Parcel(d.work[j])]
            else if i < |d.deaths| then r == DeliverDeath(d, i) && r.delivered == [Notice(d.deaths[i])]
            else r == Outcome(d, Done, [])
  {
    hide NodeEventFor, WorkFor, DeathFor, Publish, FindTransaction, Collect, NodeCommand;
  }

  /** The next delivery is what comes first, and there is none only when nothing is owed. */
  lemma NextIsFirst(d: Device, k: Key)
    requires Inv(d) && k.0 in d.endpoints && k in d.threads
    ensures var r := DeliverNext(d, k.0, k.1);
            && (r.delivered == [] ==> forall x :: !ComesFirst(d, k, x))
            && (r.delivered != [] ==> |r.delivered| == 1 && ComesFirst(d, k, r.delivered[0]))
  {
    hide *;
    NextChoice(d, k);
    FirstCallIs(d, k);
    FirstWorkIs(d, k);
    FirstNoticeIs(d, k);
    var r, th := DeliverNext(d, k.0, k.1), d.threads[k];
    var n, j, i := NodeEventFor(d, k.0, k.1, th), WorkFor(d, k.0, k.1, th), DeathFor(d.deaths, k.0, k.1, th);
    ChoiceIsFirst(d, k, n, j, i, r);
  }

  lemma ChoiceIsFirst(d: Device, k: Key, n: nat, j: nat, i: nat, r: Outcome)
    requires k in d.threads && n <= |d.nodes| && j <= |d.work| && i <= |d.deaths|
    requires (n < |d.nodes| ==> FirstCall(d, k, n)) && forall m: nat :: FirstCall(d, k, m) ==> m == n
    requires (j < |d.work| ==> FirstWork(d, k, j)) && forall m: nat :: FirstWork(d, k, m) ==> m == j
    requires (i < |d.deaths| ==> FirstNotice(d, k, i)) && forall m: nat :: FirstNotice(d, k, m) ==> m == i
    requires var th := d.threads[k];
             if th.error != 0 then r.delivered == [ErrorWord(th.error)]
             else if n < |d.nodes| then |r.delivered| == 1 && r.delivered[0].Callback?
                 && r.delivered[0].node == d.nodes[n]
             else if th.completions != 0 then r.delivered == [Complete]
             else if j < |d.work| then r.delivered == [Parcel(d.work[j])]
             else if i < |d.deaths| then r.delivered == [Notice(d.deaths[i])]
             else r.delivered == []
    ensures r.delivered == [] ==> forall x :: !ComesFirst(d, k, x)
    ensures r.delivered != [] ==> |r.delivered| == 1 && ComesFirst(d, k, r.delivered[0])
  {
    hide MayCall, MayTake, MayHear;
  }

  // ---- what is ahead ----

  /** The callbacks owed to the thread or its process for the first `n` nodes. */
  ghost function Debts(d: Device, k: Key, n: nat): nat
    requires n <= |d.nodes|
  {
    if n == 0 then 0
    else
      var node := d.nodes[n - 1];
      Debts(d, k, n - 1) + if node.owner == k.0 && (node.tid == k.1 || node.tid == 0) then Debt(d, node) else 0
  }

  /** The notices of a process among its first `n` death slots. */
  ghost function Notices(deaths: seq<Death>, e: nat, n: nat): nat
    requires n <= |deaths|
  {
    if n == 0 then 0
    else
      var x := deaths[n - 1];
      Notices(deaths, e, n - 1) + if x.endpoint == e && (x.state == DeathQueued || x.state == ClearQueued) then 1 else 0
  }

  /** What a thread is handed before any parcel. */
  ghost function Before(d: Device, k: Key): nat
    requires k in d.threads
  {
    (if d.threads[k].error != 0 then 1 else 0) + Debts(d, k, |d.nodes|) + d.threads[k].completions
  }

  datatype Item = Queued(w: Work) | Told(slot: nat, death: Death)

  /** The item waits for the thread with at most `n` deliveries ahead of it. */
  ghost predicate Waits(d: Device, k: Key, x: Item, n: nat)
    requires k in d.threads
  {
    match x
    case Queued(w) => MayTake(d, w, k) && exists j :: 0 <= j < |d.work| && d.work[j] == w && n == Before(d, k) + j
    case Told(slot, death) =>
      slot < |d.deaths| && d.deaths[slot] == death && MayHear(d, death, k)
      && n == Before(d, k) + |d.work| + Notices(d.deaths, k.0, slot)
  }

  predicate Brings(delivered: seq<Delivery>, x: Item) {
    match x
    case Queued(w) => Parcel(w) in delivered
    case Told(_, death) => Notice(death) in delivered
  }

  /** For any idle thread of its process. */
  predicate Strangers(x: Item) {
    match x
    case Queued(w) => w.tid == 0
    case Told(_, death) => death.tid == 0
  }

  /** The item was for any idle thread of the process, and this one has been handed a call. */
  ghost predicate TookCall(d: Device, k: Key, x: Item)
    requires k in d.threads
  {
    Strangers(x) && d.threads[k].incoming != 0
  }

  /** The item came, or the thread took a call instead, or every delivery was one that had been ahead of it. */
  ghost predicate Progress(d: Device, r: Outcome, k: Key, x: Item, n: nat) {
    && k in r.d.threads
    && (|| Brings(r.delivered, x) || TookCall(r.d, k, x)
        || exists m: nat :: m + |r.delivered| <= n && Waits(r.d, k, x, m))
  }

  // ---- one delivery ----

  /** The same but for one thread, whose part in calls stays. */
  lemma {:induction false} SameDebts(d: Device, d': Device, k: Key, n: nat)
    requires n <= |d.nodes| && d'.nodes == d.nodes && d'.references == d.references && d'.claims == d.claims
    ensures Debts(d', k, n) == Debts(d, k, n)
  {
    if n > 0 { SameDebts(d, d', k, n - 1); }
  }

  lemma ThreadWaits(d: Device, k: Key, th: Thread, x: Item, n: nat, less: nat)
    requires k in d.threads && Waits(d, k, x, n) && IsIdle(th) == IsIdle(d.threads[k])
    requires (if th.error != 0 then 1 else 0) + th.completions + less ==
             (if d.threads[k].error != 0 then 1 else 0) + d.threads[k].completions
    ensures less <= n && Waits(d.(threads := d.threads[k := th]), k, x, n - less)
  {
    var d' := d.(threads := d.threads[k := th]);
    SameDebts(d, d', k, |d.nodes|);
    hide Debts, IsIdle;
    assert Before(d', k) + less == Before(d, k);
    if x.Queued? {
      assert MayTake(d', x.w, k);
      var j :| 0 <= j < |d.work| && d.work[j] == x.w && n == Before(d, k) + j;
      assert d'.work[j] == x.w && n - less == Before(d', k) + j;
    }
  }

  /** Handing out the callback pays one debt of its node and makes none. */
  lemma CallbackPays(d: Device, node: Node, word: nat)
    requires node.id != 0 && !node.dead && !node.manager && word == NodeCommand(d.references, d.claims, node) != 0
    ensures Debt(d, CalledNode(node, word)) + 1 == Debt(d, node)
  {
  }

  lemma CalledSame(node: Node, word: nat)
    ensures var n := CalledNode(node, word);
            n.id == node.id && n.owner == node.owner && n.tid == node.tid && n.dead == node.dead
                && n.manager == node.manager
            && n.asyncBuffer == node.asyncBuffer
  {
  }

  /** Only the called node changes, or goes when nothing holds it any more. */
  lemma DeliveredNodes(d: Device, i: nat)
    requires Inv(d) && i < |d.nodes| && Debt(d, d.nodes[i]) > 0
    ensures var r := DeliverNode(d, i).d;
            && r == d.(nodes := r.nodes) && |r.nodes| == |d.nodes|
            && (forall m {:trigger r.nodes[m]} :: 0 <= m < |d.nodes| && m != i ==> r.nodes[m] == d.nodes[m])
            && Debt(r, r.nodes[i]) + 1 <= Debt(d, d.nodes[i])
            && (r.nodes[i] == NO_NODE || (r.nodes[i].id == d.nodes[i].id && r.nodes[i].owner == d.nodes[i].owner
                && r.nodes[i].tid == d.nodes[i].tid && r.nodes[i].asyncBuffer == d.nodes[i].asyncBuffer))
  {
    var word := NodeCommand(d.references, d.claims, d.nodes[i]);
    NodesUsed(d);
    assert word != 0;
    CallbackPays(d, d.nodes[i], word);
    CalledSame(d.nodes[i], word);
    hide Inv, NodeCommand, CalledNode, Garbage, WeakUse, StrongUse;
    var r := DeliverNode(d, i).d;
    assert Debt(r, r.nodes[i]) == Debt(d, r.nodes[i]) by { DebtSame(d, r, r.nodes[i]); }
  }

  lemma DebtSame(d: Device, d': Device, node: Node)
    requires d'.references == d.references && d'.claims == d.claims
    ensures Debt(d', node) == Debt(d, node)
  {
  }

  lemma NodesUsed(d: Device)
    requires Inv(d)
    ensures forall i {:trigger d.nodes[i]} :: 0 <= i < |d.nodes| ==> !Garbage(d.references, d.claims, d.nodes[i])
  {
    hide LifeOk;
  }

  /** One node owes less and the others the same. */
  lemma {:induction false} FewerDebts(d: Device, d': Device, k: Key, i: nat, n: nat)
    requires n <= |d.nodes| == |d'.nodes| && i < |d.nodes| && d'.references == d.references && d'.claims == d.claims
    requires forall m {:trigger d'.nodes[m]} :: 0 <= m < |d.nodes| && m != i ==> d'.nodes[m] == d.nodes[m]
    requires d.nodes[i].owner == k.0 && (d.nodes[i].tid == k.1 || d.nodes[i].tid == 0)
    requires Debt(d', d'.nodes[i]) + 1 <= Debt(d, d.nodes[i])
    ensures Debts(d', k, n) + (if i < n then 1 else 0) <= Debts(d, k, n)
  {
    hide Debt;
    if n > 0 {
      FewerDebts(d, d', k, i, n - 1);
      DebtSame(d, d', d'.nodes[n - 1]);
    }
  }

  lemma ThreadProgress(d: Device, k: Key, th: Thread, word: Delivery, x: Item, n: nat)
    requires k in d.threads && Waits(d, k, x, n) && IsIdle(th) == IsIdle(d.threads[k])
    requires (if th.error != 0 then 1 else 0) + th.completions + 1 ==
             (if d.threads[k].error != 0 then 1 else 0) + d.threads[k].completions
    ensures Progress(d, Outcome(d.(threads := d.threads[k := th]), Done, [word]), k, x, n)
  {
    hide *;
    ThreadWaits(d, k, th, x, n, 1);
    ProgressIs(d, Outcome(d.(threads := d.threads[k := th]), Done, [word]), k, x, n, n - 1);
  }

  lemma ProgressIs(d: Device, r: Outcome, k: Key, x: Item, n: nat, m: nat)
    requires k in r.d.threads && m + |r.delivered| <= n && Waits(r.d, k, x, m)
    ensures Progress(d, r, k, x, n)
  {
    hide Waits;
  }

  /** A parcel that may be taken may still be after a callback: what it is for is held by the parcel itself. */
  lemma StillTaken(d: Device, r: Device, i: nat, j: nat, k: Key)
    requires Inv(r) && k in d.threads && j < |d.work| && MayTake(d, d.work[j], k) && i < |d.nodes|
    requires r == d.(nodes := r.nodes) && |r.nodes| == |d.nodes|
    requires forall m {:trigger r.nodes[m]} :: 0 <= m < |d.nodes| && m != i ==> r.nodes[m] == d.nodes[m]
    requires r.nodes[i] == NO_NODE || (r.nodes[i].id == d.nodes[i].id && r.nodes[i].owner == d.nodes[i].owner
        && r.nodes[i].tid == d.nodes[i].tid && r.nodes[i].asyncBuffer == d.nodes[i].asyncBuffer)
    requires forall a, b {:trigger d.nodes[a], d.nodes[b]} ::
               0 <= a < |d.nodes| && 0 <= b < |d.nodes| && a != b && d.nodes[a].id != 0 ==>
                     d.nodes[a].id != d.nodes[b].id
    ensures MayTake(r, d.work[j], k)
  {
    var w := d.work[j];
    if w.asyncNode != 0 {
      TargetThere(r, j);
      hide Inv, For;
      var a :| 0 <= a < |d.nodes| && d.nodes[a].id == w.asyncNode && d.nodes[a].asyncBuffer == w.value.dataBuffer;
      var b :| 0 <= b < |r.nodes| && r.nodes[b].id == w.asyncNode;
      assert d.nodes[b].id == w.asyncNode && a == b;
      assert r.nodes[a].id == w.asyncNode && r.nodes[a].asyncBuffer == w.value.dataBuffer;
    }
  }

  lemma TargetThere(d: Device, j: nat)
    requires Inv(d) && j < |d.work| && d.work[j].asyncNode != 0
    ensures exists b :: 0 <= b < |d.nodes| && d.nodes[b].id == d.work[j].asyncNode
  {
    WorkEndpoints(d.endpoints, d.nextToken, d.work);
    assert HasTarget(d.nodes, d.claims, d.work[j]);
  }

  lemma NodeProgress(d: Device, k: Key, i: nat, x: Item, n: nat)
    requires Inv(d) && k in d.threads && i < |d.nodes| && MayCall(d, d.nodes[i], k) && Waits(d, k, x, n)
    ensures Progress(d, DeliverNode(d, i), k, x, n)
  {
    hide *;
    var r := DeliverNode(d, i);
    MayCallIs(d, d.nodes[i], k);
    CallableNodeInv(d, i, k.0, k.1);
    CalledIs(d, d.nodes[i], k);
    DeliveredNodes(d, i);
    NodeParts(d);
    FewerDebts(d, r.d, k, i, |d.nodes|);
    WaitsIs(d, k, x, n);
    DeliveredOne(d, i);
    if x.Queued? {
      var j :| 0 <= j < |d.work| && d.work[j] == x.w && n == Before(d, k) + j;
      StillTaken(d, r.d, i, j, k);
      NodeQueued(d, r.d, k, x, n, j, Before(r.d, k) + j);
      ProgressIs(d, r, k, x, n, Before(r.d, k) + j);
    } else {
      NodeTold(d, r.d, k, x, n, Before(r.d, k) + |d.work| + Notices(d.deaths, k.0, x.slot));
      ProgressIs(d, r, k, x, n, Before(r.d, k) + |d.work| + Notices(d.deaths, k.0, x.slot));
    }
  }

  lemma DeliveredOne(d: Device, i: nat)
    requires i < |d.nodes|
    ensures |DeliverNode(d, i).delivered| == 1
  {
  }

  lemma CalledIs(d: Device, node: Node, k: Key)
    requires k in d.threads && MayCall(d, node, k)
    ensures Debt(d, node) > 0 && node.owner == k.0 && (node.tid == k.1 || node.tid == 0)
  {
    hide Debt;
  }

  lemma WaitsIs(d: Device, k: Key, x: Item, n: nat)
    requires k in d.threads && Waits(d, k, x, n)
    ensures x.Queued? ==>
              MayTake(d, x.w, k) && exists j :: 0 <= j < |d.work| && d.work[j] == x.w && n == Before(d, k) + j
    ensures x.Told? ==> x.slot < |d.deaths| && d.deaths[x.slot] == x.death && MayHear(d, x.death, k)
                        && n == Before(d, k) + |d.work| + Notices(d.deaths, k.0, x.slot)
  {
    hide MayTake, MayHear, Before, Notices;
  }

  lemma NodeQueued(d: Device, r: Device, k: Key, x: Item, n: nat, j: nat, m: nat)
    requires x.Queued? && k in d.threads && j < |d.work| && d.work[j] == x.w && n == Before(d, k) + j
    requires r == d.(nodes := r.nodes) && MayTake(r, x.w, k) && |r.nodes| == |d.nodes|
             && Debts(r, k, |d.nodes|) + 1 <= Debts(d, k, |d.nodes|)
    requires m == Before(r, k) + j
    ensures m + 1 <= n && Waits(r, k, x, m)
  {
    hide MayTake, Debts;
  }

  lemma NodeTold(d: Device, r: Device, k: Key, x: Item, n: nat, m: nat)
    requires x.Told? && k in d.threads && Waits(d, k, x, n)
    requires r == d.(nodes := r.nodes) && |r.nodes| == |d.nodes| && Debts(r, k, |d.nodes|) + 1 <= Debts(d, k, |d.nodes|)
    requires m == Before(r, k) + |d.work| + Notices(d.deaths, k.0, x.slot)
    ensures m + 1 <= n && Waits(r, k, x, m)
  {
    hide Debts, Notices;
  }

  // ---- a parcel handed out ----

  lemma WorkProgress(d: Device, k: Key, j: nat, x: Item, n: nat)
    requires Inv(d) && k.0 in d.endpoints && k in d.threads && FirstWork(d, k, j) && Waits(d, k, x, n)
    ensures Progress(d, DeliverWork(d, k.0, k.1, j), k, x, n)
  {
    hide *;
    FirstIs(d, k, j);
    MayTakeIs(d, d.work[j], k);
    DeliverWorkInv(d, k.0, k.1, j);
    DeliveredWork(d, k.0, k.1, j);
    var r := DeliverWork(d, k.0, k.1, j);
    if x == Queued(d.work[j]) {
      BroughtWork(r, x);
      BringsProgress(d, r, k, x, n);
    } else if d.work[j].transaction != 0 && Strangers(x) {
      TookIs(r.d, k, x);
      TookProgress(d, r, k, x, n);
    } else {
      ShorterQueue(d, r.d, k, j, x, n);
      ProgressIs(d, r, k, x, n, n - 1);
    }
  }

  lemma FirstIs(d: Device, k: Key, j: nat)
    requires k in d.threads && FirstWork(d, k, j)
    ensures j < |d.work| && MayTake(d, d.work[j], k) && forall i :: 0 <= i < j ==> !MayTake(d, d.work[i], k)
  {
    hide MayTake;
  }

  lemma BroughtWork(r: Outcome, x: Item)
    requires x.Queued? && r.delivered == [Parcel(x.w)]
    ensures Brings(r.delivered, x)
  {
  }

  lemma BringsProgress(d: Device, r: Outcome, k: Key, x: Item, n: nat)
    requires k in r.d.threads && Brings(r.delivered, x)
    ensures Progress(d, r, k, x, n)
  {
    hide Brings;
  }

  lemma TookIs(d: Device, k: Key, x: Item)
    requires k in d.threads && Strangers(x) && d.threads[k].incoming != 0
    ensures TookCall(d, k, x)
  {
  }

  lemma TookProgress(d: Device, r: Outcome, k: Key, x: Item, n: nat)
    requires k in r.d.threads && TookCall(r.d, k, x)
    ensures Progress(d, r, k, x, n)
  {
    hide TookCall;
  }

  lemma DeliveredWork(d: Device, e: nat, tid: nat, j: nat)
    requires e in d.endpoints && (e, tid) in d.threads && j < |d.work| && DeliverWork(d, e, tid, j).status.Done?
    ensures var r, th, w := DeliverWork(d, e, tid, j), d.threads[(e, tid)], d.work[j];
            && r.delivered == [Parcel(w)] && r.d.work == RemoveAt(d.work, j) && r.d.nodes == d.nodes
            && r.d.references == d.references && r.d.claims == d.claims && r.d.deaths == d.deaths
            && r.d.threads == (if w.transaction == 0 then d.threads
                               else d.threads[(e, tid) := th.(incoming := w.transaction)])
  {
    hide Publish, FindTransaction;
  }

  /** One parcel fewer ahead, unless it was a call and the item is for any idle thread. */
  lemma ShorterQueue(d: Device, r: Device, k: Key, j: nat, x: Item, n: nat)
    requires k in d.threads && Waits(d, k, x, n) && j < |d.work| && x != Queued(d.work[j])
    requires forall i :: 0 <= i < j ==> !MayTake(d, d.work[i], k)
    requires r.work == RemoveAt(d.work, j) && r.nodes == d.nodes && r.references == d.references && r.claims == d.claims
             && r.deaths == d.deaths
    requires r.threads == (if d.work[j].transaction == 0 then d.threads
                           else d.threads[k := d.threads[k].(incoming := d.work[j].transaction)])
    requires d.work[j].transaction == 0 || !Strangers(x)
    ensures n > 0 && k in r.threads && Waits(r, k, x, n - 1)
  {
    SameDebts(d, r, k, |d.nodes|);
    hide Debts, Notices;
    assert Before(r, k) == Before(d, k);
    match x
    case Queued(w) =>
      assert MayTake(r, w, k);
      var i :| 0 <= i < |d.work| && d.work[i] == w && n == Before(d, k) + i;
      hide MayTake, Before;
      assert i > j;
      assert r.work[i - 1] == w;
    case Told(slot, death) =>
  }

  // ---- a notice handed out ----

  lemma {:induction false} FewerNotices(deaths: seq<Death>, deaths': seq<Death>, e: nat, i: nat, n: nat)
    requires i < |deaths| == |deaths'| && n <= |deaths| && deaths' == deaths[i := deaths'[i]]
    requires deaths[i].endpoint == e && (deaths[i].state == DeathQueued || deaths[i].state == ClearQueued)
    requires !(deaths'[i].endpoint == e && (deaths'[i].state == DeathQueued || deaths'[i].state == ClearQueued))
    ensures Notices(deaths', e, n) + (if i < n then 1 else 0) == Notices(deaths, e, n)
  {
    if n > 0 { FewerNotices(deaths, deaths', e, i, n - 1); }
  }

  lemma NoticeProgress(d: Device, k: Key, i: nat, x: Item, n: nat)
    requires k in d.threads && k.0 != 0 && FirstNotice(d, k, i) && Waits(d, k, x, n) && x.Told?
    ensures Progress(d, DeliverDeath(d, i), k, x, n)
  {
    var r := DeliverDeath(d, i);
    if i == x.slot {
      assert Notice(x.death) in r.delivered;
    } else {
      assert i < x.slot by { hide MayHear; }
      FewerNotices(d.deaths, r.d.deaths, k.0, i, x.slot);
      SameDebts(d, r.d, k, |d.nodes|);
      hide Debts, Notices;
      assert Waits(r.d, k, x, n - 1);
    }
  }

  // ---- any delivery ----

  /** A waiting item is never passed over: a read hands out something, and it is the item or was ahead of it. */
  lemma DeliveryProgress(d: Device, k: Key, x: Item, n: nat)
    requires Inv(d) && k.0 in d.endpoints && k in d.threads && Waits(d, k, x, n)
    ensures |DeliverNext(d, k.0, k.1).delivered| == 1 && Progress(d, DeliverNext(d, k.0, k.1), k, x, n)
  {
    hide *;
    NextChoice(d, k);
    FirstCallIs(d, k);
    FirstWorkIs(d, k);
    FirstNoticeIs(d, k);
    var r, th := DeliverNext(d, k.0, k.1), d.threads[k];
    var m, j, i := NodeEventFor(d, k.0, k.1, th), WorkFor(d, k.0, k.1, th), DeathFor(d.deaths, k.0, k.1, th);
    if th.error != 0 {
      SameIdle(th, th.(error := 0));
      ThreadProgress(d, k, th.(error := 0), ErrorWord(th.error), x, n);
    } else if m < |d.nodes| {
      FirstCalled(d, k, m);
      NodeProgress(d, k, m, x, n);
    } else if th.completions != 0 {
      SameIdle(th, th.(completions := th.completions - 1));
      ThreadProgress(d, k, th.(completions := th.completions - 1), Complete, x, n);
    } else if j < |d.work| {
      WorkProgress(d, k, j, x, n);
    } else {
      SomethingWaits(d, k, j, i, x, n);
      TargetKnown(d, k.0);
      NoticeProgress(d, k, i, x, n);
    }
  }

  lemma SameIdle(th: Thread, th': Thread)
    requires th' == th.(error := th'.error, completions := th'.completions)
    ensures IsIdle(th') == IsIdle(th)
  {
  }

  lemma FirstCalled(d: Device, k: Key, m: nat)
    requires k in d.threads && FirstCall(d, k, m)
    ensures m < |d.nodes| && MayCall(d, d.nodes[m], k)
  {
    hide MayCall;
  }

  lemma SomethingWaits(d: Device, k: Key, j: nat, i: nat, x: Item, n: nat)
    requires Inv(d) && k in d.threads && Waits(d, k, x, n)
    requires j == WorkFor(d, k.0, k.1, d.threads[k]) == |d.work| && i == DeathFor(d.deaths, k.0, k.1, d.threads[k])
    ensures x.Told? && i < |d.deaths|
  {
    WaitsIs(d, k, x, n);
    if x.Queued? { MayTakeIs(d, x.w, k); } else { MayHearIs(d, x.death, k); }
    hide Inv, MayTake, MayHear, Deliverable, Notifiable, Waits, Before, Notices;
  }

  // ---- a whole read ----

  /** A thread that serves goes on serving while it reads. */
  lemma NextServes(d: Device, k: Key)
    requires Inv(d) && k.0 in d.endpoints && k in d.threads && d.threads[k].incoming != 0
    ensures var r := DeliverNext(d, k.0, k.1); k in r.d.threads && r.d.threads[k].incoming != 0
  {
    hide *;
    DeliverKept(d, k.0, k.1, k);
    NextChoice(d, k);
    var r, th := DeliverNext(d, k.0, k.1), d.threads[k];
    var m, j, i := NodeEventFor(d, k.0, k.1, th), WorkFor(d, k.0, k.1, th), DeathFor(d.deaths, k.0, k.1, th);
    if th.error == 0 && m < |d.nodes| {
      NodeRead(d, m);
    } else if th.error == 0 && th.completions == 0 {
      if j < |d.work| {
        ServesOn(d, k, j);
      } else if i < |d.deaths| {
        NodeRead(d, i);
      }
    }
  }

  lemma ServesOn(d: Device, k: Key, j: nat)
    requires Inv(d) && k.0 in d.endpoints && k in d.threads && d.threads[k].incoming != 0 && j < |d.work|
    requires j == WorkFor(d, k.0, k.1, d.threads[k])
    ensures k in DeliverWork(d, k.0, k.1, j).d.threads && DeliverWork(d, k.0, k.1, j).d.threads[k].incoming != 0
  {
    assert Deliverable(d, d.work[j], k.0, k.1, d.threads[k]);
    hide Inv, Deliverable, WorkFor, DeliverWork;
    DeliverWorkInv(d, k.0, k.1, j);
    DeliveredWork(d, k.0, k.1, j);
  }

  lemma {:induction false} LoopServes(d: Device, k: Key, room: nat, writable: nat)
    requires Inv(d) && k.0 in d.endpoints && k in d.threads && d.threads[k].incoming != 0
    ensures var r := ReadLoop(d, k.0, k.1, room, writable); k in r.d.threads && r.d.threads[k].incoming != 0
    decreases room
  {
    hide Inv, DeliverNext;
    NextServes(d, k);
    DeliverNextInv(d, k.0, k.1);
    DeliverNextKeeps(d, k.0, k.1);
    var next := DeliverNext(d, k.0, k.1);
    if !(room < 4 || next.delivered == [] || Length(next.delivered[0]) > room || writable == 0
        || EndsRead(next.delivered[0])) {
      LoopServes(next.d, k, room - Length(next.delivered[0]), writable - 1);
    }
  }

  /** What the loop does: stop, stop after this delivery, or go on. */
  lemma LoopIs(d: Device, k: Key, room: nat, writable: nat)
    requires Inv(d) && k.0 in d.endpoints && k in d.threads && |DeliverNext(d, k.0, k.1).delivered| == 1
    ensures var r, next := ReadLoop(d, k.0, k.1, room, writable), DeliverNext(d, k.0, k.1);
            var length := Length(next.delivered[0]);
            && k.0 in next.d.endpoints && k in next.d.threads && 4 <= length <= 68
            && (room < length || writable == 0 ==> r.d == d && r.delivered == [])
            && (room >= length && writable > 0 && EndsRead(next.delivered[0]) ==> r == next)
            && (room >= length && writable > 0 && !EndsRead(next.delivered[0]) ==>
                 var rest := ReadLoop(next.d, k.0, k.1, room - length, writable - 1);
                 r == Outcome(rest.d, rest.status, next.delivered + rest.delivered))
  {
    hide Inv, DeliverNext, EndsRead;
    DeliverNextInv(d, k.0, k.1);
    DeliverNextKeeps(d, k.0, k.1);
  }

  lemma NothingYet(d: Device, r: Outcome, k: Key, x: Item, n: nat)
    requires k in d.threads && r.d == d && r.delivered == [] && Waits(d, k, x, n)
    ensures Progress(d, r, k, x, n)
  {
    ProgressIs(d, r, k, x, n, n);
  }

  lemma ProgressThen(d: Device, a: Outcome, b: Outcome, k: Key, x: Item, n: nat, m: nat)
    requires |a.delivered| + m <= n && Progress(a.d, b, k, x, m)
    ensures Progress(d, Outcome(b.d, b.status, a.delivered + b.delivered), k, x, n)
  {
    hide Waits, TookCall;
  }

  lemma BroughtFirst(a: seq<Delivery>, b: seq<Delivery>, x: Item)
    requires Brings(a, x)
    ensures Brings(a + b, x)
  {
  }

  lemma ProgressParts(d: Device, r: Outcome, k: Key, x: Item, n: nat)
    requires Progress(d, r, k, x, n)
    ensures k in r.d.threads
    ensures || Brings(r.delivered, x) || TookCall(r.d, k, x)
            || exists m: nat :: m + |r.delivered| <= n && Waits(r.d, k, x, m)
  {
    hide Waits, TookCall, Brings;
  }

  /** Room and frames enough bring the item; a parcel's turn comes before any notice ends the read. */
  predicate Enough(x: Item, n: nat, room: nat, writable: nat) {
    x.Queued? && room >= 68 * (n + 1) && writable >= n + 1
  }

  lemma EnoughLess(x: Item, n: nat, room: nat, writable: nat, length: nat, m: nat)
    requires Enough(x, n, room, writable) && length <= 68 && m + 1 <= n
    ensures room >= length && Enough(x, m, room - length, writable - 1)
  {
  }

  lemma EnoughSome(x: Item, n: nat, room: nat, writable: nat)
    requires Enough(x, n, room, writable)
    ensures room >= 68 && writable > 0
  {
  }

  /** A parcel waits, so what comes first is no notice. */
  lemma NoNoticeYet(d: Device, k: Key, x: Item, n: nat)
    requires Inv(d) && k.0 in d.endpoints && k in d.threads && Waits(d, k, x, n) && x.Queued?
    ensures |DeliverNext(d, k.0, k.1).delivered| == 1 && !EndsRead(DeliverNext(d, k.0, k.1).delivered[0])
  {
    DeliveryProgress(d, k, x, n);
    NextChoice(d, k);
    WaitsIs(d, k, x, n);
    MayTakeIs(d, x.w, k);
    hide Inv, MayTake, Deliverable, Waits, Before, DeliverNext, Progress, NodeEventFor, DeathFor, DeliverWork,
        DeliverNode,
        DeliverDeath;
  }

  lemma {:induction false} LoopProgress(d: Device, k: Key, room: nat, writable: nat, x: Item, n: nat)
    requires Inv(d) && k.0 in d.endpoints && k in d.threads && Waits(d, k, x, n)
    ensures var r := ReadLoop(d, k.0, k.1, room, writable);
            && Progress(d, r, k, x, n)
            && (room >= 68 && writable > 0 ==> r.delivered != [])
            && (Enough(x, n, room, writable) ==> Brings(r.delivered, x) || (k in r.d.threads && TookCall(r.d, k, x)))
    decreases room
  {
    hide *;
    DeliveryProgress(d, k, x, n);
    DeliverNextInv(d, k.0, k.1);
    LoopIs(d, k, room, writable);
    if x.Queued? { NoNoticeYet(d, k, x, n); }
    if Enough(x, n, room, writable) { EnoughSome(x, n, room, writable); }
    var r, next := ReadLoop(d, k.0, k.1, room, writable), DeliverNext(d, k.0, k.1);
    var length := Length(next.delivered[0]);
    if room < length || writable == 0 {
      NothingYet(d, r, k, x, n);
    } else if EndsRead(next.delivered[0]) {
      EnoughQueued(x, n, room, writable);
    } else {
      LoopRest(d, k, room, writable, x, n, next, length);
    }
  }

  lemma EnoughQueued(x: Item, n: nat, room: nat, writable: nat)
    ensures Enough(x, n, room, writable) ==> x.Queued?
  {
  }

  lemma {:induction false} LoopRest(d: Device, k: Key, room: nat, writable: nat, x: Item, n: nat, next: Outcome,
      length: nat)
    requires k.0 in d.endpoints && k in d.threads && next == DeliverNext(d, k.0, k.1) && |next.delivered| == 1
    requires Inv(next.d) && k.0 in next.d.endpoints && k in next.d.threads && Progress(d, next, k, x, n)
    requires 4 <= length <= 68 && length <= room && writable > 0 && length == Length(next.delivered[0])
    requires var r, rest := ReadLoop(d, k.0, k.1, room, writable),
             ReadLoop(next.d, k.0, k.1, room - length, writable - 1);
             r == Outcome(rest.d, rest.status, next.delivered + rest.delivered)
    ensures var r := ReadLoop(d, k.0, k.1, room, writable);
            && Progress(d, r, k, x, n) && r.delivered != []
            && (Enough(x, n, room, writable) ==> Brings(r.delivered, x) || (k in r.d.threads && TookCall(r.d, k, x)))
    decreases room, 0
  {
    hide *;
    var r, rest := ReadLoop(d, k.0, k.1, room, writable), ReadLoop(next.d, k.0, k.1, room - length, writable - 1);
    ProgressParts(d, next, k, x, n);
    assert r.delivered[0] == next.delivered[0];
    LoopThreads(next.d, k, room - length, writable - 1);
    if Brings(next.delivered, x) {
      BroughtFirst(next.delivered, rest.delivered, x);
      BringsProgress(d, r, k, x, n);
    } else if TookCall(next.d, k, x) {
      TookParts(next.d, k, x);
      LoopServes(next.d, k, room - length, writable - 1);
      TookIs(r.d, k, x);
      TookProgress(d, r, k, x, n);
    } else {
      var m: nat :| m + |next.delivered| <= n && Waits(next.d, k, x, m);
      LoopProgress(next.d, k, room - length, writable - 1, x, m);
      ProgressThen(d, next, rest, k, x, n, m);
      if Enough(x, n, room, writable) {
        EnoughLess(x, n, room, writable, length, m);
        BroughtLater(next.delivered, rest.delivered, x);
      }
    }
  }

  lemma BroughtLater(a: seq<Delivery>, b: seq<Delivery>, x: Item)
    ensures Brings(b, x) ==> Brings(a + b, x)
  {
  }

  lemma TookParts(d: Device, k: Key, x: Item)
    requires k in d.threads && TookCall(d, k, x)
    ensures Strangers(x) && d.threads[k].incoming != 0
  {
  }

  lemma LoopThreads(d: Device, k: Key, room: nat, writable: nat)
    requires Inv(d) && k.0 in d.endpoints && k in d.threads
    ensures k in ReadLoop(d, k.0, k.1, room, writable).d.threads
  {
    hide *;
    LoopKept(d, k.0, k.1, room, writable, k);
    ReadThreads(d, ReadLoop(d, k.0, k.1, room, writable), k);
  }

  lemma ReadThreads(d: Device, r: Outcome, k: Key)
    requires k in d.threads && ReadKept(d, r, k, k)
    ensures k in r.d.threads
  {
    hide Answered, ServerKept;
  }

  /** A read with room for one delivery of any kind; the first word it writes is its no-op. */
  predicate Roomy(size: nat, writable: nat) {
    72 <= size <= 65536 && writable >= 2
  }

  /** The first thing a read hands over is what comes first for its thread; it hands over nothing only when nothing is
      owed. */
  lemma ReadOrder(d: Device, k: Key, size: nat, writable: nat)
    requires Inv(d) && k.0 in d.endpoints && k in d.threads && Roomy(size, writable)
    ensures var r := ReadCommand(d, k.0, k.1, size, writable);
            if r.delivered == [] then r.d == d && forall x :: !ComesFirst(d, k, x) else ComesFirst(d, k, r.delivered[0])
  {
    NextIsFirst(d, k);
    hide Inv, ComesFirst, DeliverNext, ReadLoop;
    var next := DeliverNext(d, k.0, k.1);
    if next.delivered != [] {
      LoopIs(d, k, size - 4, writable - 1);
    } else {
      EmptyLoop(d, k, size - 4, writable - 1);
    }
  }

  lemma EmptyLoop(d: Device, k: Key, room: nat, writable: nat)
    requires k.0 in d.endpoints && k in d.threads && DeliverNext(d, k.0, k.1).delivered == []
    ensures ReadLoop(d, k.0, k.1, room, writable) == Outcome(d, Done, [])
  {
    hide DeliverNext;
  }

  lemma ReadIsLoop(d: Device, k: Key, size: nat, writable: nat)
    requires k.0 in d.endpoints && k in d.threads && Roomy(size, writable)
             && DeliverNext(d, k.0, k.1).delivered != []
    ensures ReadCommand(d, k.0, k.1, size, writable) == ReadLoop(d, k.0, k.1, size - 4, writable - 1)
  {
    hide DeliverNext, ReadLoop;
  }

  /** A read always hands over something to a thread for which something waits, and never passes over what waits: it
      brings it, or hands over only what was ahead of it. A read long enough brings a parcel at once. */
  lemma ReadProgress(d: Device, k: Key, size: nat, writable: nat, x: Item, n: nat)
    requires Inv(d) && k.0 in d.endpoints && k in d.threads && Waits(d, k, x, n) && Roomy(size, writable)
    ensures var r := ReadCommand(d, k.0, k.1, size, writable);
            && r.delivered != [] && Progress(d, r, k, x, n)
            && (x.Queued? && size >= 4 + 68 * (n + 1) && writable >= n + 2 ==>
                 Brings(r.delivered, x) || TookCall(r.d, k, x))
  {
    hide *;
    DeliveryProgress(d, k, x, n);
    ReadIsLoop(d, k, size, writable);
    RoomyIs(x, n, size, writable, size - 4, writable - 1);
    LoopProgress(d, k, size - 4, writable - 1, x, n);
    LoopThreads(d, k, size - 4, writable - 1);
  }

  lemma RoomyIs(x: Item, n: nat, size: nat, writable: nat, room: int, frames: int)
    requires Roomy(size, writable) && room == size - 4 && frames == writable - 1
    ensures room >= 68 && frames > 0
    ensures x.Queued? && size >= 4 + 68 * (n + 1) && writable >= n + 2 ==> Enough(x, n, room, frames)
  {
  }

  // ---- reading on ----

  /** Steps `i` to `n` are reads by the thread. */
  ghost predicate ReadsOn(steps: seq<Step>, i: nat, n: nat, k: Key) {
    i <= n <= |steps| && forall m {:trigger steps[m]} :: i <= m < n ==>
      steps[m].Read? && (steps[m].token, steps[m].tid) == k && Roomy(steps[m].size, steps[m].writable)
  }

  /** Some step from `i` to `n` brought the item, or left the thread with a call it took instead. */
  ghost predicate Arrived(states: seq<Device>, steps: seq<Step>, i: nat, n: nat, k: Key, x: Item) {
    exists m {:trigger steps[m]} ::
      i <= m < n <= |steps| && n < |states| && Enabled(states[m], steps[m]) && ArenasLaid(states[m].endpoints)
      && (Brings(Next(states[m], steps[m]).delivered, x)
         || (k in states[m + 1].threads && TookCall(states[m + 1], k, x)))
  }

  lemma ReadStep(states: seq<Device>, steps: seq<Step>, i: nat, next: nat, n: nat, k: Key)
    requires IsRun(states, steps) && ReadsOn(steps, i, n, k) && i < n && next == i + 1
    ensures n <= |steps| && |states| == |steps| + 1 && k.0 in states[i].endpoints && k in states[i].threads
            && ReadsOn(steps, next, n, k)
    ensures Enabled(states[i], steps[i]) && ArenasLaid(states[i].endpoints) && Inv(states[i])
    ensures steps[i].Read? && (steps[i].token, steps[i].tid) == k && Roomy(steps[i].size, steps[i].writable)
            && Next(states[i], steps[i]) == ReadCommand(states[i], k.0, k.1, steps[i].size, steps[i].writable)
            && states[next] == Next(states[i], steps[i]).d
  {
    RunStep(states, steps, i);
    RunInv(states, steps, i);
    NextIs(states[i], steps[i]);
    hide IsRun, Inv, ArenasLaid, Next, ReadCommand;
  }

  lemma ArrivedNow(states: seq<Device>, steps: seq<Step>, i: nat, next: nat, n: nat, k: Key, x: Item)
    requires i < n <= |steps| && n < |states| && next == i + 1 && Enabled(states[i], steps[i])
             && ArenasLaid(states[i].endpoints)
    requires Brings(Next(states[i], steps[i]).delivered, x)
             || (k in states[next].threads && TookCall(states[next], k, x))
    ensures Arrived(states, steps, i, n, k, x)
  {
    hide Enabled, ArenasLaid, Next, Brings, TookCall;
  }

  lemma ArrivedLater(states: seq<Device>, steps: seq<Step>, i: nat, next: nat, n: nat, k: Key, x: Item)
    requires next == i + 1 && Arrived(states, steps, next, n, k, x)
    ensures Arrived(states, steps, i, n, k, x)
  {
    hide Enabled, ArenasLaid, Next, Brings, TookCall;
  }

  /** A thread that reads on is handed whatever waits for it after at most as many reads as there were deliveries ahead.
      */
  lemma {:induction false} ReadsBring(states: seq<Device>, steps: seq<Step>, i: nat, n: nat, k: Key, x: Item,
      ahead: nat)
    requires IsRun(states, steps) && ReadsOn(steps, i, n, k) && i < |states| && k in states[i].threads
             && Waits(states[i], k, x, ahead)
    requires n - i > ahead
    ensures Arrived(states, steps, i, n, k, x)
    decreases ahead
  {
    hide *;
    var next: nat := i + 1;
    ReadStep(states, steps, i, next, n, k);
    var r := ReadCommand(states[i], k.0, k.1, steps[i].size, steps[i].writable);
    ReadProgress(states[i], k, steps[i].size, steps[i].writable, x, ahead);
    ProgressParts(states[i], r, k, x, ahead);
    if Brings(r.delivered, x) || TookCall(r.d, k, x) {
      ArrivedNow(states, steps, i, next, n, k, x);
    } else {
      var m: nat :| m + |r.delivered| <= ahead && Waits(r.d, k, x, m);
      ReadsBring(states, steps, next, n, k, x, m);
      ArrivedLater(states, steps, i, next, n, k, x);
    }
  }

  /** A reply that is queued, or the error that stands for one, reaches its caller if the caller reads on. */
  lemma AnswerArrives(states: seq<Device>, steps: seq<Step>, i: nat, n: nat, k: Key)
    requires IsRun(states, steps) && ReadsOn(steps, i, n, k) && i < |states| && k in states[i].threads
             && Answered(states[i], k)
    requires n - i > Before(states[i], k) + |states[i].work|
    ensures GotAnswer(states, steps, i, n, k)
  {
    hide *;
    var next: nat := i + 1;
    var d := states[i];
    ReadStep(states, steps, i, next, n, k);
    AnsweredIs(d, k);
    if d.threads[k].error == BR_DEAD_REPLY {
      ErrorComesFirst(d, k, steps[i].size, steps[i].writable);
      GotAnswerNow(states, steps, i, n, k, ErrorWord(BR_DEAD_REPLY));
    } else {
      var j :| 0 <= j < |d.work| && RepliesTo(d.work[j], k);
      var x := Queued(d.work[j]);
      ReplyWaits(d, k, j, x, Before(d, k) + j);
      ReadsBring(states, steps, i, n, k, x, Before(d, k) + j);
      ThreadPositive(d, k.0, k.1);
      BroughtAnswer(states, steps, i, n, k, x);
    }
  }

  lemma AnsweredIs(d: Device, k: Key)
    requires k in d.threads && Answered(d, k)
    ensures d.threads[k].error == BR_DEAD_REPLY || exists j :: 0 <= j < |d.work| && RepliesTo(d.work[j], k)
  {
    hide RepliesTo;
  }

  lemma ErrorComesFirst(d: Device, k: Key, size: nat, writable: nat)
    requires Inv(d) && k.0 in d.endpoints && k in d.threads && Roomy(size, writable)
             && d.threads[k].error == BR_DEAD_REPLY
    ensures ErrorWord(BR_DEAD_REPLY) in ReadCommand(d, k.0, k.1, size, writable).delivered
            && IsAnswer(ErrorWord(BR_DEAD_REPLY), k)
  {
    ReadOrder(d, k, size, writable);
    hide Inv, ReadCommand, FirstCall, FirstWork, FirstNotice;
    assert ComesFirst(d, k, ErrorWord(BR_DEAD_REPLY));
  }

  lemma GotAnswerNow(states: seq<Device>, steps: seq<Step>, i: nat, n: nat, k: Key, x: Delivery)
    requires i < n <= |steps| && n < |states| && Enabled(states[i], steps[i]) && ArenasLaid(states[i].endpoints)
    requires steps[i].Read? && (steps[i].token, steps[i].tid) == k
    requires x in Next(states[i], steps[i]).delivered && IsAnswer(x, k)
    ensures GotAnswer(states, steps, i, n, k)
  {
    hide Enabled, ArenasLaid, Next, IsAnswer;
    assert ReadsAnswer(states[i], steps[i], k);
  }

  lemma ReplyWaits(d: Device, k: Key, j: nat, x: Item, n: nat)
    requires Inv(d) && k in d.threads && j < |d.work| && RepliesTo(d.work[j], k) && x == Queued(d.work[j])
             && n == Before(d, k) + j
    ensures Waits(d, k, x, n)
  {
    ThreadPositive(d, k.0, k.1);
    OneWayThread(d, j);
    hide Inv, Before;
  }

  lemma OneWayThread(d: Device, j: nat)
    requires Inv(d) && j < |d.work|
    ensures d.work[j].asyncNode == 0 || d.work[j].tid == 0
  {
    hide ObjectsOk, BuffersOk, CallsOk, HasTarget;
  }

  lemma BroughtAnswer(states: seq<Device>, steps: seq<Step>, i: nat, n: nat, k: Key, x: Item)
    requires Arrived(states, steps, i, n, k, x) && x.Queued? && RepliesTo(x.w, k) && k.1 > 0 && ReadsOn(steps, i, n, k)
    ensures GotAnswer(states, steps, i, n, k)
  {
    hide Enabled, ArenasLaid, Next, Brings, TookCall;
    var m: nat :| i <= m < n <= |steps| && n < |states| && Enabled(states[m], steps[m])
        && ArenasLaid(states[m].endpoints)
        && (Brings(Next(states[m], steps[m]).delivered, x)
           || (k in states[m + 1].threads && TookCall(states[m + 1], k, x)));
    assert steps[m].Read? && (steps[m].token, steps[m].tid) == k;
    NotForAnyone(states[m + 1], k, x);
    BroughtReply(Next(states[m], steps[m]).delivered, k, x);
    assert ReadsAnswer(states[m], steps[m], k);
  }

  lemma NotForAnyone(d: Device, k: Key, x: Item)
    requires x.Queued? && RepliesTo(x.w, k) && k.1 > 0
    ensures k in d.threads ==> !TookCall(d, k, x)
  {
  }

  lemma BroughtReply(delivered: seq<Delivery>, k: Key, x: Item)
    requires x.Queued? && RepliesTo(x.w, k) && Brings(delivered, x)
    ensures exists y :: y in delivered && IsAnswer(y, k)
  {
    assert IsAnswer(Parcel(x.w), k);
  }
}
