/** A call is always answered: whoever stops waiting has a reply or a dead-reply error coming until a read hands it
    over,
    and whoever stops serving has replied or is told on its next reply that nobody waits. */
module BinderAnswers {
  import opened Base
  import opened BinderArena
  import opened BinderWire
  import opened BinderState
  import opened BinderCommands
  import opened BinderBuffers
  import opened BinderCalls
  import opened BinderOneWay
  import opened BinderInvariant
  import opened BinderLifecycle
  import opened BinderSteps
  import opened BinderTransfer
  import opened BinderRuns
  import BinderEffects

  type Key = (nat, nat)

  predicate RepliesTo(w: Work, k: Key) {
    w.endpoint == k.0 && w.tid == k.1 && w.command == BR_REPLY
  }

  ghost predicate HasReply(work: seq<Work>, k: Key) {
    exists j :: 0 <= j < |work| && RepliesTo(work[j], k)
  }

  /** A reply is queued for the thread, or it is about to be told that its call is dead. */
  ghost predicate Answered(d: Device, k: Key)
    requires k in d.threads
  {
    d.threads[k].error == BR_DEAD_REPLY || HasReply(d.work, k)
  }

  /** A delivery that ends the wait of thread `k`. */
  predicate IsAnswer(x: Delivery, k: Key) {
    x == ErrorWord(BR_DEAD_REPLY) || (x.Parcel? && RepliesTo(x.work, k))
  }

  /** If it stopped waiting it is answered, and an answer it had it still has. */
  ghost predicate CallerKept(d: Device, d': Device, k: Key)
    requires k in d.threads && k in d'.threads
  {
    && (d.threads[k].outgoing == 0 || d'.threads[k].outgoing == d.threads[k].outgoing || Answered(d', k))
    && (Answered(d, k) ==> Answered(d', k))
  }

  /** If it stopped serving it is told that nobody waits, and what it was told still holds. */
  ghost predicate ServerKept(d: Device, d': Device, k: Key)
    requires k in d.threads && k in d'.threads
  {
    && (d.threads[k].incoming == 0 || d'.threads[k].incoming == d.threads[k].incoming || d'.threads[k].deadReply)
    && (d.threads[k].deadReply ==> d'.threads[k].deadReply)
  }

  /** Its part in calls is the same; an error replaces none. */
  predicate Alike(th: Thread, th': Thread) {
    && th'.outgoing == th.outgoing && th'.incoming == th.incoming && th'.deadReply == th.deadReply
    && (th'.error == th.error || th.error == 0)
  }

  lemma AlikeKept(d: Device, d': Device, k: Key)
    requires k in d.threads && k in d'.threads && Alike(d.threads[k], d'.threads[k])
    requires HasReply(d.work, k) ==> HasReply(d'.work, k)
    ensures CallerKept(d, d', k) && ServerKept(d, d', k)
  {
    assert BR_DEAD_REPLY != 0;
    hide HasReply;
  }

  lemma AppendedReplies(work: seq<Work>, w: Work, k: Key)
    ensures HasReply(work, k) ==> HasReply(work + [w], k)
    ensures RepliesTo(w, k) ==> HasReply(work + [w], k)
  {
    var after := work + [w];
    if HasReply(work, k) {
      var j :| 0 <= j < |work| && RepliesTo(work[j], k);
      assert after[j] == work[j];
    }
    assert after[|work|] == w;
  }

  lemma RemovedReplies(work: seq<Work>, j: nat, k: Key)
    requires j < |work| && !RepliesTo(work[j], k)
    ensures HasReply(work, k) ==> HasReply(RemoveAt(work, j), k)
  {
    var after := RemoveAt(work, j);
    if HasReply(work, k) {
      var i :| 0 <= i < |work| && RepliesTo(work[i], k);
      assert after[if i < j then i else i - 1] == work[i];
    }
  }

  // ---- teardown ----

  predicate Leaving(k: Key, e: nat, tid: nat) {
    k.0 == e && (tid == 0 || k.1 == tid)
  }

  /** If it stopped waiting it has the dead-reply error, and neither that error nor a queued reply is taken back. */
  ghost predicate CallerTold(d: Device, d': Device, k: Key)
    requires k in d.threads && k in d'.threads
  {
    var th, th' := d.threads[k], d'.threads[k];
    && (th'.outgoing == th.outgoing || (th'.outgoing == 0 && th'.error == BR_DEAD_REPLY))
    && (th.error == BR_DEAD_REPLY ==> th'.error == BR_DEAD_REPLY) && (HasReply(d.work, k) ==> HasReply(d'.work, k))
  }

  /** If it stopped serving it is told. */
  ghost predicate ServerTold(d: Device, d': Device, k: Key)
    requires k in d.threads && k in d'.threads
  {
    var th, th' := d.threads[k], d'.threads[k];
    (th'.incoming == th.incoming || (th'.incoming == 0 && th'.deadReply)) && (th.deadReply ==> th'.deadReply)
  }

  /** Every thread that does not leave keeps its part in calls or is told. */
  ghost predicate Told(d: Device, d': Device, e: nat, tid: nat) {
    forall k {:trigger d'.threads[k]} :: k in d'.threads ==>
      k in d.threads && (k.1 > 0 && !Leaving(k, e, tid) ==> CallerTold(d, d', k) && ServerTold(d, d', k))
  }

  lemma ToldKept(d: Device, d': Device, k: Key)
    requires k in d.threads && k in d'.threads && CallerTold(d, d', k) && ServerTold(d, d', k)
    ensures CallerKept(d, d', k) && ServerKept(d, d', k)
  {
    hide HasReply;
  }

  lemma ToldTransitive(a: Device, b: Device, c: Device, e: nat, tid: nat)
    requires Told(a, b, e, tid) && Told(b, c, e, tid)
    ensures Told(a, c, e, tid)
  {
    hide HasReply;
    forall k | k in c.threads
      ensures k in a.threads && (k.1 > 0 && !Leaving(k, e, tid) ==> CallerTold(a, c, k) && ServerTold(a, c, k))
    {
      assert k in b.threads;
    }
  }

  lemma SameTold(d: Device, d': Device, e: nat, tid: nat)
    requires d'.threads == d.threads && d'.work == d.work
    ensures Told(d, d', e, tid)
  {
  }

  lemma FewerTold(d: Device, d': Device, e: nat, tid: nat)
    requires d'.work == d.work
    requires forall k {:trigger d'.threads[k]} :: k in d'.threads ==> k in d.threads && d'.threads[k] == d.threads[k]
    ensures Told(d, d', e, tid)
  {
    hide HasReply;
  }

  lemma DropWorkTold(d: Device, j: nat, e: nat, tid: nat)
    requires j < |d.work| && (d.work[j].tid == 0 || Leaving((d.work[j].endpoint, d.work[j].tid), e, tid))
    ensures Told(d, DropWork(d, j), e, tid)
  {
    var d' := DropWork(d, j);
    DropWorkKeepsCalls(d, j);
    hide DropWork, HasReply;
    forall k | k in d'.threads && k.1 > 0 && !Leaving(k, e, tid)
      ensures CallerTold(d, d', k) && ServerTold(d, d', k)
    {
      RemovedReplies(d.work, j, k);
    }
  }

  lemma {:induction false} DropWorkOfTold(d: Device, gone: nat, x: nat, j: nat, e: nat, tid: nat)
    requires InvDuring(d, gone, x) && x != 0 && j <= |d.work|
    ensures Told(d, DropWorkOf(d, x, j), e, tid)
    decreases |d.work| - j
  {
    hide *;
    var next := j + 1;
    DropWorkOfIs(d, x, j, next);
    if j == |d.work| {
      SameTold(d, d, e, tid);
    } else if d.work[j].transaction == x {
      RequestedThread(d, gone, x, j);
      DropWorkTold(d, j, e, tid);
      RequestedWork(d, gone, x, j);
      DropWorkInv(d, gone, x, j);
      DropWorkOfTold(DropWork(d, j), gone, x, j, e, tid);
      ToldTransitive(d, DropWork(d, j), DropWorkOf(d, x, j), e, tid);
    } else {
      DropWorkOfTold(d, gone, x, next, e, tid);
    }
  }

  lemma RequestedThread(d: Device, gone: nat, x: nat, j: nat)
    requires InvDuring(d, gone, x) && j < |d.work| && d.work[j].transaction != 0
    ensures d.work[j].tid == 0
  {
    hide ObjectsOk, BuffersOk, AsyncOk;
    assert RequestOk(d.work[j], d.transactions, d.endpoints.Keys);
  }

  lemma BothTold(d: Device, t: Transaction, e: nat, tid: nat)
    ensures Told(d, d.(threads := OrphanTarget(FailSource(d.threads, t), t)), e, tid)
  {
  }

  lemma CancelCallTold(d: Device, gone: nat, i: nat, e: nat, tid: nat)
    requires InvDuring(d, gone, 0) && i < |d.transactions| && d.transactions[i].id != 0
    ensures Told(d, CancelCall(d, i), e, tid)
  {
    var t := d.transactions[i];
    var told := d.(threads := OrphanTarget(FailSource(d.threads, t), t));
    ToldInv(d, gone, i);
    BothTold(d, t, e, tid);
    hide FailSource, OrphanTarget, InvDuring, DropWorkOf, Told;
    DropWorkOfTold(told, gone, t.id, 0, e, tid);
    var dropped := DropWorkOf(told, t.id);
    ToldTransitive(d, told, dropped, e, tid);
    SameTold(dropped, CancelCall(d, i), e, tid);
    ToldTransitive(d, dropped, CancelCall(d, i), e, tid);
  }

  lemma {:induction false} CancelCallsTold(d: Device, gone: nat, e: nat, tid: nat, i: nat)
    requires InvDuring(d, gone, 0) && i <= |d.transactions|
    ensures Told(d, CancelCalls(d, e, tid, i), e, tid)
    decreases |d.transactions| - i
  {
    hide InvDuring, Told, CancelCall;
    if i == |d.transactions| {
      SameTold(d, d, e, tid);
    } else if Involves(d.transactions[i], e, tid) {
      CancelCallTold(d, gone, i, e, tid);
      CancelCallInv(d, gone, i);
      CancelCallsTold(CancelCall(d, i), gone, e, tid, i + 1);
      ToldTransitive(d, CancelCall(d, i), CancelCalls(CancelCall(d, i), e, tid, i + 1), e, tid);
    } else {
      CancelCallsTold(d, gone, e, tid, i + 1);
    }
  }

  lemma {:induction false} DropWorkForTold(d: Device, gone: nat, e: nat, tid: nat, j: nat)
    requires InvDuring(d, gone, 0) && Uninvolved(d.transactions, e, tid) && j <= |d.work| && (tid == 0 ==> gone == e)
    ensures Told(d, DropWorkFor(d, e, tid, j), e, tid)
    decreases |d.work| - j
  {
    hide InvDuring, Involves, Told, DropWork;
    if j == |d.work| {
      SameTold(d, d, e, tid);
    } else if d.work[j].endpoint == e && (tid == 0 || d.work[j].tid == tid) {
      Droppable(d, gone, e, tid, j);
      DropWorkKeepsCalls(d, j);
      DropWorkTold(d, j, e, tid);
      DropWorkInv(d, gone, 0, j);
      DropWorkForTold(DropWork(d, j), gone, e, tid, j);
      ToldTransitive(d, DropWork(d, j), DropWorkFor(DropWork(d, j), e, tid, j), e, tid);
    } else {
      DropWorkForTold(d, gone, e, tid, j + 1);
    }
  }

  lemma CancelTold(d: Device, e: nat, tid: nat)
    requires Inv(d)
    ensures Told(d, Cancel(d, e, tid), e, tid)
  {
    var gone := if tid == 0 then e else 0;
    Weaken(d, e, gone);
    hide Inv, InvDuring, Told, CancelCalls, DropWorkFor;
    var r := CancelCalls(d, e, tid);
    CancelCallsInv(d, gone, e, tid, 0);
    CancelCallsTold(d, gone, e, tid, 0);
    DropWorkForTold(r, gone, e, tid, 0);
    ToldTransitive(d, r, DropWorkFor(r, e, tid), e, tid);
  }

  lemma ThreadExitTold(d: Device, e: nat, tid: nat)
    requires Inv(d)
    ensures Told(d, ThreadExit(d, e, tid), e, tid) && (e, tid) !in ThreadExit(d, e, tid).threads
  {
    hide Inv, Cancel, Told;
    CancelTold(d, e, tid);
    FewerTold(Cancel(d, e, tid), ThreadExit(d, e, tid), e, tid);
    ToldTransitive(d, Cancel(d, e, tid), ThreadExit(d, e, tid), e, tid);
  }

  lemma ReleaseEndpointTold(d: Device, token: nat)
    requires Inv(d)
    ensures Told(d, ReleaseEndpoint(d, token), token, 0)
            && forall k :: k in ReleaseEndpoint(d, token).threads ==> k.0 != token
  {
    var a, r := Cancel(d, token, 0), ReleaseEndpoint(d, token);
    var b := ReleaseReferences(a, token);
    hide Inv, Cancel, Told, ReleaseReferences;
    CancelTold(d, token, 0);
    ReleaseReferencesThreads(a, token);
    UnclaimThreads(b, token, 0);
    hide Unclaim;
    assert r == Forget(Unclaim(b, token, 0), token);
    FewerTold(a, r, token, 0);
    ToldTransitive(d, a, r, token, 0);
  }

  lemma ReleaseReferencesThreads(d: Device, token: nat)
    ensures ReleaseReferences(d, token).threads == d.threads && ReleaseReferences(d, token).work == d.work
  {
  }

  lemma UnclaimThreads(d: Device, e: nat, b: nat)
    ensures Unclaim(d, e, b).threads == d.threads && Unclaim(d, e, b).work == d.work
  {
    hide ReleaseClaims, Collect;
  }

  /** Cancelling ends calls and changes none that it leaves. */
  lemma {:induction false} CancelCallsThin(d: Device, gone: nat, e: nat, tid: nat, i: nat)
    requires InvDuring(d, gone, 0) && i <= |d.transactions|
    ensures var r := CancelCalls(d, e, tid, i);
            |r.transactions| == |d.transactions| && forall y {:trigger r.transactions[y]} ::
                  0 <= y < |d.transactions| ==>
              r.transactions[y] == d.transactions[y] || r.transactions[y].id == 0
    decreases |d.transactions| - i
  {
    hide InvDuring, CancelCall;
    if i < |d.transactions| {
      if Involves(d.transactions[i], e, tid) {
        CancelCallInv(d, gone, i);
        CancelCallsThin(CancelCall(d, i), gone, e, tid, i + 1);
      } else {
        CancelCallsThin(d, gone, e, tid, i + 1);
      }
    }
  }

  lemma CancelThin(d: Device, e: nat, tid: nat)
    requires Inv(d)
    ensures var r := Cancel(d, e, tid);
            |r.transactions| == |d.transactions| && forall y {:trigger r.transactions[y]} ::
                  0 <= y < |d.transactions| ==>
              r.transactions[y] == d.transactions[y] || r.transactions[y].id == 0
  {
    var gone := if tid == 0 then e else 0;
    Weaken(d, e, gone);
    hide Inv, InvDuring, Involves, CancelCalls, DropWorkFor;
    CancelCallsInv(d, gone, e, tid, 0);
    CancelCallsThin(d, gone, e, tid, 0);
    DropWorkForInv(CancelCalls(d, e, tid), gone, e, tid, 0);
  }

  /** No thread is left in a call that involves whoever leaves. */
  lemma NobodyLeft(d: Device, r: Device, gone: nat, i: nat, e: nat, tid: nat, k: Key)
    requires Inv(d) && InvDuring(r, gone, 0) && i < |d.transactions| && Involves(d.transactions[i], e, tid)
    requires Uninvolved(r.transactions, e, tid) && |r.transactions| == |d.transactions|
    requires forall y {:trigger r.transactions[y]} :: 0 <= y < |d.transactions| ==>
               r.transactions[y] == d.transactions[y] || r.transactions[y].id == 0
    requires k in r.threads
    ensures r.threads[k].outgoing != d.transactions[i].id && r.threads[k].incoming != d.transactions[i].id
  {
    CallParts(d);
    assert ThreadOk(r.threads[k], k, r.transactions, 0);
    hide Inv, InvDuring, ThreadsOk, RequestsOk, TransactionOk;
    var id := d.transactions[i].id;
    forall y | 0 <= y < |r.transactions| ensures r.transactions[y].id != id {
      assert !Involves(r.transactions[y], e, tid);
    }
  }

  // ---- commands ----

  /** Only thread `k` changes, neither what it serves nor what it was told; work is at most appended. */
  ghost predicate OwnThread(d: Device, r: Device, k: Key) {
    && k in d.threads && k in r.threads && r.threads == d.threads[k := r.threads[k]]
    && r.threads[k].incoming == d.threads[k].incoming && r.threads[k].deadReply == d.threads[k].deadReply
    && (r.threads[k].outgoing == d.threads[k].outgoing || d.threads[k].outgoing == 0)
    && Appended(d.work, r.work)
  }

  ghost predicate Appended(work: seq<Work>, work': seq<Work>) {
    work' == work || (|work'| == |work| + 1 && work'[..|work|] == work)
  }

  lemma AppendedKeeps(work: seq<Work>, work': seq<Work>, k: Key)
    requires Appended(work, work')
    ensures HasReply(work, k) ==> HasReply(work', k)
  {
    if work' != work {
      AppendedReplies(work, work'[|work|], k);
      assert work' == work + [work'[|work|]];
    }
  }

  lemma ErrorOwn(d: Device, r: Device, k: Key, word: nat)
    requires k in d.threads && r.threads == d.threads[k := d.threads[k].(error := word)] && r.work == d.work
    ensures OwnThread(d, r, k)
  {
  }

  lemma RefuseOwn(d: Device, d': Device, e: nat, tid: nat, errno: int)
    requires (e, tid) in d.threads && d'.threads == d.threads && d'.work == d.work
    ensures OwnThread(d, Refuse(d', e, tid, errno).0, (e, tid))
  {
  }

  lemma HaltOwn(d: Device, e: nat, tid: nat, input: Packet)
    requires (e, tid) in d.threads && e in d.endpoints && RouteCall(d, e, tid, input).Halt?
    ensures OwnThread(d, RouteCall(d, e, tid, input).d, (e, tid))
  {
    hide FindReference, NodeFor, FindTransaction;
  }

  lemma AcceptOwn(d: Device, d': Device, e: nat, tid: nat, target: nat, k: nat, slot: nat, value: Packet)
    requires (e, tid) in d.threads && d'.threads == d.threads && d'.work == d.work
    ensures k < |d'.nodes| ==> OwnThread(d, AcceptOneWay(d', e, tid, target, k, value), (e, tid))
    ensures slot < |d'.transactions| && d.threads[(e, tid)].outgoing == 0 ==>
              OwnThread(d, AcceptCall(d', e, tid, target, slot, value), (e, tid))
  {
  }

  lemma RouteFree(d: Device, e: nat, tid: nat, input: Packet)
    requires (e, tid) in d.threads && e in d.endpoints && RouteCall(d, e, tid, input).To? && input.flags % 2 == 0
    ensures d.threads[(e, tid)].outgoing == 0
  {
    hide FindReference, NodeFor, FindTransaction;
  }

  /** A pending error refuses every call and every reply. */
  lemma PendingRefuses(d: Device, e: nat, tid: nat, input: Packet, payload: Payload)
    requires (e, tid) in d.threads && e in d.endpoints && ArenasLaid(d.endpoints) && d.threads[(e, tid)].error != 0
    ensures CallCommand(d, e, tid, input, payload).0 == d && ReplyCommand(d, e, tid, input, payload).0 == d
  {
    hide Laid, RouteCall, FindTransaction, ReservePayload;
  }

  lemma CallThreads(d: Device, e: nat, tid: nat, input: Packet, payload: Payload)
    requires (e, tid) in d.threads && e in d.endpoints && ArenasLaid(d.endpoints)
    ensures var r := CallCommand(d, e, tid, input, payload).0;
            OwnThread(d, r, (e, tid)) && (r == d || d.threads[(e, tid)].error == 0)
  {
    hide *;
    CallCommandIs(d, e, tid, input, payload);
    if d.threads[(e, tid)].error != 0 { PendingRefuses(d, e, tid, input, payload); }
    var r, route := CallCommand(d, e, tid, input, payload).0, RouteCall(d, e, tid, input);
    if r == d {
      SameOwn(d, (e, tid));
    } else if route.Halt? {
      HaltOwn(d, e, tid, input);
    } else {
      LaidAt(d, route.target);
      var ready := ReservePayload(d, e, tid, route.target, input, payload, route.nodeIndex);
      if ready.Refused? {
        RefuseOwn(d, ready.d, e, tid, ready.errno);
      } else {
        if input.flags % 2 == 0 { RouteFree(d, e, tid, input); }
        AcceptOwn(d, ready.d, e, tid, route.target, route.nodeIndex, route.slot,
            Forwarded(d, e, input, route.nodeIndex, ready.slot));
      }
    }
  }

  lemma LaidAt(d: Device, target: nat)
    requires target in d.endpoints && ArenasLaid(d.endpoints)
    ensures Laid(d.endpoints[target].slots, d.endpoints[target].base, d.endpoints[target].size)
            || d.endpoints[target].watch != 3
  {
    hide Laid;
  }

  lemma SameOwn(d: Device, k: Key)
    requires k in d.threads
    ensures OwnThread(d, d, k)
  {
  }

  /** The reply is queued: the thread serves no more, and whoever stopped waiting has a reply. */
  ghost predicate Sent(d: Device, r: Device, k: Key) {
    && r.threads.Keys == d.threads.Keys && |r.work| == |d.work| + 1 && r.work[..|d.work|] == d.work
    && forall q {:trigger r.threads[q]} :: q in d.threads ==>
         && r.threads[q].deadReply == d.threads[q].deadReply && r.threads[q].error == d.threads[q].error
         && (q != k ==> r.threads[q].incoming == d.threads[q].incoming)
         && (r.threads[q].outgoing == d.threads[q].outgoing || HasReply(r.work, q))
  }

  /** Nobody waits any more: the thread is told by an error, once. */
  ghost predicate Rebuffed(d: Device, r: Device, k: Key) {
    && k in d.threads && d.threads[k].deadReply && d.threads[k].error == 0
    && r == d.(threads := d.threads[k := d.threads[k].(deadReply := false, error := BR_DEAD_REPLY)])
  }

  lemma AcceptReplySent(d: Device, d': Device, e: nat, tid: nat, slot: nat, value: Packet)
    requires (e, tid) in d.threads && d'.threads == d.threads && d'.work == d.work && slot < |d'.transactions|
             && (d'.transactions[slot].source, d'.transactions[slot].sourceTid) in d.threads
    ensures Sent(d, AcceptReply(d', e, tid, slot, value), (e, tid))
  {
    var t := d'.transactions[slot];
    AppendedReplies(d.work, Work(t.source, t.sourceTid, BR_REPLY, 0, 0, value), (t.source, t.sourceTid));
    hide HasReply;
  }

  /** What a reply does to the threads. */
  lemma ReplyThreads(d: Device, e: nat, tid: nat, input: Packet, payload: Payload)
    requires Inv(d) && (e, tid) in d.threads && e in d.endpoints && ArenasLaid(d.endpoints)
    ensures var r := ReplyCommand(d, e, tid, input, payload).0;
            || r == d || Rebuffed(d, r, (e, tid)) || Sent(d, r, (e, tid))
            || (OwnThread(d, r, (e, tid)) && d.threads[(e, tid)].error == 0)
  {
    hide *;
    if d.threads[(e, tid)].error != 0 {
      PendingRefuses(d, e, tid, input, payload);
    } else {
      var slot := if d.threads[(e, tid)].incoming != 0
          then FindTransaction(d.transactions, d.threads[(e, tid)].incoming)
                  else 0;
      if d.threads[(e, tid)].incoming != 0 { ServedCall(d, e, tid); }
      ReplyCommandIs(d, e, tid, input, payload, slot);
      RebuffedIs(d, ReplyCommand(d, e, tid, input, payload).0, e, tid);
      if d.threads[(e, tid)].incoming != 0 {
        var t := d.transactions[slot];
        BinderEffects.ReservePayloadWork(d, e, tid, t.source, input, payload);
        var ready := ReservePayload(d, e, tid, t.source, input, payload, |d.nodes|);
        if ready.Refused? {
          RefuseOwn(d, ready.d, e, tid, ready.errno);
        } else {
          AcceptReplySent(d, ready.d, e, tid, slot, Addressed(input, 0, 0, 0, d.endpoints[e].uid, ready.slot));
        }
      }
    }
  }

  lemma RebuffedIs(d: Device, r: Device, e: nat, tid: nat)
    requires (e, tid) in d.threads && d.threads[(e, tid)].error == 0
    ensures var th := d.threads[(e, tid)];
            th.deadReply && r == d.(threads := d.threads[(e, tid) :=
                  th.(deadReply := false, error := BR_DEAD_REPLY)]) ==>
              Rebuffed(d, r, (e, tid))
  {
  }

  /** Commands that concern objects and buffers touch no thread and drop no work. */
  lemma ObjectThreads(d: Device, e: nat, tid: nat, c: Command)
    requires e in d.endpoints && (e, tid) in d.threads && ArenasLaid(d.endpoints)
    requires !c.Call? && !c.Reply? && !c.EnterLooper? && !c.RegisterLooper? && !c.ExitLooper?
    ensures Execute(d, e, tid, c).0.threads == d.threads && Execute(d, e, tid, c).0.work == d.work
  {
    hide ArenasLaid, Collect, ReleaseClaims, FindReference, OwnedNode, NodeFor, EnsureReference, AdvanceAsync;
  }

  lemma OwnKept(d: Device, r: Device, k: Key, q: Key)
    requires OwnThread(d, r, k) && (r == d || d.threads[k].error == 0) && q in d.threads
    ensures q in r.threads && CallerKept(d, r, q) && ServerKept(d, r, q)
  {
    AppendedKeeps(d.work, r.work, q);
    hide HasReply;
    if q != k { AlikeKept(d, r, q); }
  }

  lemma SentKept(d: Device, r: Device, k: Key, q: Key)
    requires Sent(d, r, k) && q in d.threads
    ensures q in r.threads && CallerKept(d, r, q) && (q != k ==> ServerKept(d, r, q))
  {
    AppendedKeeps(d.work, r.work, q);
    hide HasReply;
  }

  lemma RebuffedKept(d: Device, r: Device, k: Key, q: Key)
    requires Rebuffed(d, r, k) && q in d.threads
    ensures q in r.threads && CallerKept(d, r, q) && (q != k ==> ServerKept(d, r, q))
  {
    hide HasReply;
  }

  lemma SameCallsKept(d: Device, r: Device, q: Key)
    requires q in d.threads && r.threads == d.threads && r.work == d.work
    ensures CallerKept(d, r, q) && ServerKept(d, r, q)
  {
    hide HasReply;
  }

  lemma LooperKept(d: Device, e: nat, tid: nat, looper: Looper, q: Key)
    requires (e, tid) in d.threads && q in d.threads
    ensures var r := SetLooper(d, e, tid, looper); q in r.threads && CallerKept(d, r, q) && ServerKept(d, r, q)
  {
    hide HasReply;
  }

  /** No command ends a wait without an answer or takes an answer back, and only its own reply ends a service. */
  lemma ExecuteKept(d: Device, e: nat, tid: nat, c: Command, q: Key)
    requires Inv(d) && e in d.endpoints && (e, tid) in d.threads && ArenasLaid(d.endpoints) && q in d.threads
    ensures var r := Execute(d, e, tid, c).0;
            q in r.threads && CallerKept(d, r, q) && ((c.Reply? && q == (e, tid)) || ServerKept(d, r, q))
  {
    hide *;
    ExecuteIs(d, e, tid, c);
    if c.Call? {
      CallThreads(d, e, tid, c.input, c.payload);
      OwnKept(d, CallCommand(d, e, tid, c.input, c.payload).0, (e, tid), q);
    } else if c.Reply? {
      var r := ReplyCommand(d, e, tid, c.input, c.payload).0;
      ReplyThreads(d, e, tid, c.input, c.payload);
      if r == d {
        SameCallsKept(d, d, q);
      } else if Rebuffed(d, r, (e, tid)) {
        RebuffedKept(d, r, (e, tid), q);
      } else if Sent(d, r, (e, tid)) {
        SentKept(d, r, (e, tid), q);
      } else {
        OwnKept(d, r, (e, tid), q);
      }
    } else if c.EnterLooper? || c.RegisterLooper? || c.ExitLooper? {
      LooperKept(d, e, tid, Looped(d.threads[(e, tid)].looper, c), q);
    } else {
      ObjectThreads(d, e, tid, c);
      SameCallsKept(d, Execute(d, e, tid, c).0, q);
    }
  }

  // ---- reads ----

  /** What a read can hand out next, and what it hands over. */
  lemma DeliverNextCases(d: Device, e: nat, tid: nat)
    requires e in d.endpoints && (e, tid) in d.threads
    ensures var th, r := d.threads[(e, tid)], DeliverNext(d, e, tid);
            || (th.error != 0
                && r == Outcome(d.(threads := d.threads[(e, tid) := th.(error := 0)]), Done, [ErrorWord(th.error)]))
            || (th.error == 0 && th.completions != 0 && r ==
                  Outcome(d.(threads := d.threads[(e, tid) := th.(completions := th.completions - 1)]), Done,
                      [Complete]))
            || r == Outcome(d, Done, [])
            || (exists k :: 0 <= k < |d.nodes| && r == DeliverNode(d, k))
            || (exists j ::
                 0 <= j < |d.work| && Deliverable(d, d.work[j], e, tid, th) && r == DeliverWork(d, e, tid, j))
            || (exists i :: 0 <= i < |d.deaths| && r == DeliverDeath(d, i))
  {
    hide DeliverNode, DeliverWork, DeliverDeath, Callable, Deliverable, Notifiable;
  }

  /** Handing something to thread `k` keeps every answer but the one it hands over. */
  ghost predicate ReadKept(d: Device, r: Outcome, k: Key, q: Key)
    requires q in d.threads
  {
    && q in r.d.threads && r.d.threads[q].outgoing == d.threads[q].outgoing && ServerKept(d, r.d, q)
    && (Answered(d, q) ==> Answered(r.d, q) || (q == k && exists x :: x in r.delivered && IsAnswer(x, q)))
  }

  lemma ErrorRead(d: Device, e: nat, tid: nat, q: Key)
    requires (e, tid) in d.threads && q in d.threads && d.threads[(e, tid)].error != 0
    ensures var th := d.threads[(e, tid)];
            ReadKept(d, Outcome(d.(threads := d.threads[(e, tid) := th.(error := 0)]), Done, [ErrorWord(th.error)]),
                (e, tid), q)
  {
    hide HasReply;
    var th := d.threads[(e, tid)];
    assert ErrorWord(th.error) in [ErrorWord(th.error)];
  }

  lemma CompleteRead(d: Device, e: nat, tid: nat, q: Key)
    requires (e, tid) in d.threads && q in d.threads && d.threads[(e, tid)].completions != 0
    ensures var th := d.threads[(e, tid)];
            ReadKept(d, Outcome(d.(threads := d.threads[(e, tid) := th.(completions := th.completions - 1)]), Done,
                [Complete]), (e, tid), q)
  {
    hide HasReply;
  }

  lemma QuietRead(d: Device, r: Outcome, k: Key, q: Key)
    requires q in d.threads && r.d.threads == d.threads && r.d.work == d.work
    ensures ReadKept(d, r, k, q)
  {
    hide HasReply;
  }

  /** Handing out a parcel removes it and at most makes an idle thread serve. */
  lemma WorkThreads(d: Device, e: nat, tid: nat, j: nat)
    requires e in d.endpoints && (e, tid) in d.threads && j < |d.work|
    requires Deliverable(d, d.work[j], e, tid, d.threads[(e, tid)])
             && (d.work[j].transaction != 0 ==> d.work[j].tid == 0)
             && tid > 0
    ensures var r, th := DeliverWork(d, e, tid, j), d.threads[(e, tid)];
            && r.delivered == [Parcel(d.work[j])] && (r.d.work == d.work || r.d.work == RemoveAt(d.work, j))
            && (r.d.threads == d.threads
                || (th.incoming == 0 && !th.deadReply
                    && r.d.threads == d.threads[(e, tid) := th.(incoming := d.work[j].transaction)]))
            && d.work[j].endpoint == e && (d.work[j].tid == tid || d.work[j].tid == 0)
  {
    hide Publish, NodeFor, FindTransaction;
  }

  lemma WorkRead(d: Device, e: nat, tid: nat, j: nat, q: Key)
    requires Inv(d) && e in d.endpoints && (e, tid) in d.threads && q in d.threads && j < |d.work|
    requires Deliverable(d, d.work[j], e, tid, d.threads[(e, tid)])
    ensures ReadKept(d, DeliverWork(d, e, tid, j), (e, tid), q)
  {
    hide Inv, Deliverable, DeliverWork, ArenasLaid;
    var w := d.work[j];
    if w.transaction != 0 { UnansweredThread(d, j); }
    ThreadPositive(d, e, tid);
    ThreadPositive(d, q.0, q.1);
    WorkThreads(d, e, tid, j);
    var r := DeliverWork(d, e, tid, j);
    if RepliesTo(w, q) {
      assert Parcel(w) in r.delivered && q == (e, tid);
    } else {
      RemovedReplies(d.work, j, q);
    }
    hide HasReply, RepliesTo;
  }

  lemma UnansweredThread(d: Device, j: nat)
    requires Inv(d) && j < |d.work| && d.work[j].transaction != 0
    ensures d.work[j].tid == 0
  {
    hide InvDuring;
    RequestedThread(d, 0, 0, j);
  }

  lemma DeliverKept(d: Device, e: nat, tid: nat, q: Key)
    requires Inv(d) && e in d.endpoints && (e, tid) in d.threads && q in d.threads
    ensures ReadKept(d, DeliverNext(d, e, tid), (e, tid), q)
  {
    hide *;
    DeliverNextCases(d, e, tid);
    var th, r := d.threads[(e, tid)], DeliverNext(d, e, tid);
    if th.error != 0 && r == Outcome(d.(threads := d.threads[(e, tid) := th.(error := 0)]), Done,
        [ErrorWord(th.error)]) {
      ErrorRead(d, e, tid, q);
    } else if th.completions != 0 && r ==
        Outcome(d.(threads := d.threads[(e, tid) := th.(completions := th.completions - 1)]), Done, [Complete]) {
      CompleteRead(d, e, tid, q);
    } else if r == Outcome(d, Done, []) {
      QuietRead(d, r, (e, tid), q);
    } else if k :| 0 <= k < |d.nodes| && r == DeliverNode(d, k) {
      NodeRead(d, k);
      QuietRead(d, r, (e, tid), q);
    } else if j :| 0 <= j < |d.work| && Deliverable(d, d.work[j], e, tid, th) && r == DeliverWork(d, e, tid, j) {
      WorkRead(d, e, tid, j, q);
    } else {
      var i :| 0 <= i < |d.deaths| && r == DeliverDeath(d, i);
      NodeRead(d, i);
      QuietRead(d, r, (e, tid), q);
    }
  }

  lemma NodeRead(d: Device, i: nat)
    ensures i < |d.nodes| ==> DeliverNode(d, i).d.threads == d.threads && DeliverNode(d, i).d.work == d.work
    ensures i < |d.deaths| ==> DeliverDeath(d, i).d.threads == d.threads && DeliverDeath(d, i).d.work == d.work
  {
    hide Collect, NodeCommand;
  }

  lemma ReadThen(d: Device, a: Outcome, b: Outcome, k: Key, q: Key)
    requires q in d.threads && ReadKept(d, a, k, q) && ReadKept(a.d, b, k, q)
    ensures ReadKept(d, Outcome(b.d, b.status, a.delivered + b.delivered), k, q)
  {
    hide Answered, IsAnswer;
    if Answered(d, q) && !Answered(b.d, q) {
      if x :| x in a.delivered && IsAnswer(x, q) {
        assert x in a.delivered + b.delivered;
      } else {
        var y :| y in b.delivered && IsAnswer(y, q);
        assert y in a.delivered + b.delivered;
      }
    }
  }

  lemma {:induction false} LoopKept(d: Device, e: nat, tid: nat, room: nat, writable: nat, q: Key)
    requires Inv(d) && e in d.endpoints && (e, tid) in d.threads && q in d.threads
    ensures ReadKept(d, ReadLoop(d, e, tid, room, writable), (e, tid), q)
    decreases room
  {
    hide Inv, DeliverNext, ReadKept;
    DeliverKept(d, e, tid, q);
    DeliverNextInv(d, e, tid);
    DeliverNextKeeps(d, e, tid);
    QuietRead(d, Outcome(d, Done, []), (e, tid), q);
    QuietRead(d, Outcome(d, Fail(-14), []), (e, tid), q);
    var next := DeliverNext(d, e, tid);
    if !(room < 4 || next.delivered == [] || Length(next.delivered[0]) > room || writable == 0
        || EndsRead(next.delivered[0])) {
      var rest := ReadLoop(next.d, e, tid, room - Length(next.delivered[0]), writable - 1);
      LoopKept(next.d, e, tid, room - Length(next.delivered[0]), writable - 1, q);
      ReadThen(d, next, rest, (e, tid), q);
    }
  }

  lemma ReadCommandKept(d: Device, e: nat, tid: nat, size: nat, writable: nat, q: Key)
    requires Inv(d) && e in d.endpoints && (e, tid) in d.threads && q in d.threads
    ensures ReadKept(d, ReadCommand(d, e, tid, size, writable), (e, tid), q)
  {
    hide Inv, ReadLoop, ReadReady, ReadKept;
    if size >= 4 && writable > 0 { LoopKept(d, e, tid, size - 4, writable - 1, q); }
    forall errno ensures ReadKept(d, Outcome(d, Fail(errno), []), (e, tid), q) {
      QuietRead(d, Outcome(d, Fail(errno), []), (e, tid), q);
    }
  }

  // ---- every step ----

  /** Thread `k` reads its answer. */
  ghost predicate ReadsAnswer(d: Device, s: Step, k: Key)
    requires Enabled(d, s) && ArenasLaid(d.endpoints)
  {
    s.Read? && (s.token, s.tid) == k && exists x :: x in Next(d, s).delivered && IsAnswer(x, k)
  }

  predicate IsReply(s: Step, k: Key) {
    s.Write? && s.command.Reply? && (s.token, s.tid) == k
  }

  lemma TeardownKept(d: Device, s: Step, k: Key)
    requires Inv(d) && Enabled(d, s) && ArenasLaid(d.endpoints) && (s.Exit? || s.DoReap?)
    requires k in Next(d, s).d.threads
    ensures k in d.threads && CallerTold(d, Next(d, s).d, k) && ServerTold(d, Next(d, s).d, k)
  {
    hide Inv, CallerTold, ServerTold, ThreadExit, ReleaseEndpoint, ArenasLaid;
    var d' := Next(d, s).d;
    if s.Exit? {
      ThreadPositive(d, s.token, s.tid);
      ThreadExitTold(d, s.token, s.tid);
    } else {
      ReleaseEndpointTold(d, s.token);
    }
    assert d'.threads[k] == d'.threads[k] && k in d.threads;
    ThreadPositive(d, k.0, k.1);
  }

  /** Every other step that is no command and no read leaves all threads but their first return, and all work. */
  lemma OtherThreads(d: Device, s: Step, k: Key)
    requires Enabled(d, s) && ArenasLaid(d.endpoints) && k in d.threads
    requires !s.Exit? && !s.DoReap? && !s.Write? && !s.Read?
    ensures var d' := Next(d, s).d;
            && k in d'.threads && d'.work == d.work
            && d'.threads[k] == d.threads[k].(initialReturn := d'.threads[k].initialReturn)
  {
    hide ArenasLaid, OwnedNode, CreateNode;
  }

  lemma OtherKept(d: Device, d': Device, k: Key)
    requires k in d.threads && k in d'.threads && d'.work == d.work
    requires d'.threads[k] == d.threads[k].(initialReturn := d'.threads[k].initialReturn)
    ensures CallerKept(d, d', k) && ServerKept(d, d', k)
  {
    hide HasReply;
  }

  /** What any step does for a thread that is there before and after it. */
  lemma StepAnswers(d: Device, s: Step, k: Key)
    requires Inv(d) && Enabled(d, s) && ArenasLaid(d.endpoints) && k in d.threads && k in Next(d, s).d.threads
    ensures var d' := Next(d, s).d;
            && (d.threads[k].outgoing == 0 || d'.threads[k].outgoing == d.threads[k].outgoing || Answered(d', k))
            && (Answered(d, k) ==> Answered(d', k) || ReadsAnswer(d, s, k))
            && (IsReply(s, k) || ServerKept(d, d', k))
  {
    hide *;
    NextIs(d, s);
    var d' := Next(d, s).d;
    if s.Write? {
      ExecuteKept(d, s.token, s.tid, s.command, k);
      KeptMeans(d, d', k);
      ReplyStep(s, k);
    } else if s.Read? {
      ReadCommandKept(d, s.token, s.tid, s.size, s.writable, k);
      ReadMeans(d, s, k);
    } else if s.Exit? || s.DoReap? {
      TeardownKept(d, s, k);
      ToldKept(d, d', k);
      KeptMeans(d, d', k);
    } else {
      OtherThreads(d, s, k);
      OtherKept(d, d', k);
      KeptMeans(d, d', k);
    }
  }

  lemma KeptMeans(d: Device, d': Device, k: Key)
    requires k in d.threads && k in d'.threads && CallerKept(d, d', k)
    ensures d.threads[k].outgoing == 0 || d'.threads[k].outgoing == d.threads[k].outgoing || Answered(d', k)
    ensures Answered(d, k) ==> Answered(d', k)
  {
    hide Answered;
  }

  lemma ReplyStep(s: Step, k: Key)
    ensures IsReply(s, k) <==> s.Write? && s.command.Reply? && k == (s.token, s.tid)
  {
  }

  lemma ReadMeans(d: Device, s: Step, k: Key)
    requires Enabled(d, s) && ArenasLaid(d.endpoints) && s.Read? && k in d.threads && k in Next(d, s).d.threads
    requires ReadKept(d, Next(d, s), (s.token, s.tid), k)
    ensures d.threads[k].outgoing == Next(d, s).d.threads[k].outgoing && ServerKept(d, Next(d, s).d, k)
    ensures Answered(d, k) ==> Answered(Next(d, s).d, k) || ReadsAnswer(d, s, k)
  {
    hide Next, Answered, ServerKept, IsAnswer, ArenasLaid, Enabled;
  }

  // ---- callers ----

  /** Whatever ends a thread's wait leaves it a queued reply or the dead-reply error. */
  lemma WaitEndsAnswered(d: Device, s: Step, k: Key)
    requires Inv(d) && Enabled(d, s) && ArenasLaid(d.endpoints) && k in d.threads && k in Next(d, s).d.threads
    requires d.threads[k].outgoing != 0 && Next(d, s).d.threads[k].outgoing != d.threads[k].outgoing
    ensures var d' := Next(d, s).d;
            || d'.threads[k].error == BR_DEAD_REPLY
            || exists j :: 0 <= j < |d'.work| && d'.work[j].endpoint == k.0 && d'.work[j].tid == k.1
                           && d'.work[j].command == BR_REPLY
  {
    StepAnswers(d, s, k);
    hide Inv, Next, Enabled, ArenasLaid, ServerKept;
  }

  ghost predicate Stays(states: seq<Device>, i: nat, n: nat, k: Key) {
    i <= n < |states| && forall m {:trigger states[m]} :: i <= m <= n ==> k in states[m].threads
  }

  /** Between states `i` and `n` the thread read its answer. */
  ghost predicate GotAnswer(states: seq<Device>, steps: seq<Step>, i: nat, n: nat, k: Key) {
    exists m :: i <= m < n <= |steps| && m < |states| && Enabled(states[m], steps[m]) && ArenasLaid(states[m].endpoints)
                && ReadsAnswer(states[m], steps[m], k)
  }

  lemma StaysParts(states: seq<Device>, i: nat, n: nat, m: nat, k: Key)
    requires Stays(states, i, n, k) && i < n && m == n - 1
    ensures Stays(states, i, m, k) && m < |states| && n < |states| && k in states[m].threads && k in states[n].threads
  {
  }

  lemma GotLater(states: seq<Device>, steps: seq<Step>, i: nat, m: nat, n: nat, k: Key)
    requires GotAnswer(states, steps, i, m, k) && m <= n <= |steps|
    ensures GotAnswer(states, steps, i, n, k)
  {
    hide Enabled, ArenasLaid, ReadsAnswer;
  }

  lemma GotNow(states: seq<Device>, steps: seq<Step>, i: nat, m: nat, n: nat, k: Key)
    requires i <= m < |steps| && m < |states| && n == m + 1 && Enabled(states[m], steps[m])
             && ArenasLaid(states[m].endpoints) && ReadsAnswer(states[m], steps[m], k)
    ensures GotAnswer(states, steps, i, n, k)
  {
    hide Enabled, ArenasLaid, ReadsAnswer;
  }

  /** An answer stays until the thread reads it, for as long as there is the thread. */
  lemma {:induction false} AnswerStays(states: seq<Device>, steps: seq<Step>, i: nat, n: nat, k: Key)
    requires IsRun(states, steps) && Stays(states, i, n, k) && i <= n < |states| && k in states[i].threads
             && k in states[n].threads && Answered(states[i], k)
    ensures Answered(states[n], k) || GotAnswer(states, steps, i, n, k)
    decreases n
  {
    hide *;
    RunShape(states, steps);
    if i < n {
      var m: nat := n - 1;
      StaysParts(states, i, n, m, k);
      AnswerStays(states, steps, i, m, k);
      RunStep(states, steps, m);
      RunInv(states, steps, m);
      if GotAnswer(states, steps, i, m, k) {
        GotLater(states, steps, i, m, n, k);
      } else {
        StepAnswers(states[m], steps[m], k);
        if !Answered(states[n], k) { GotNow(states, steps, i, m, n, k); }
      }
    }
  }

  /** Every call is answered: once its caller no longer waits for it, the caller has an answer coming or has read one.
      */
  lemma {:induction false} CallsAreAnswered(states: seq<Device>, steps: seq<Step>, i: nat, n: nat, k: Key)
    requires IsRun(states, steps) && Stays(states, i, n, k) && i <= n < |states| && k in states[i].threads
             && k in states[n].threads
    requires states[i].threads[k].outgoing != 0
    ensures || states[n].threads[k].outgoing == states[i].threads[k].outgoing || Answered(states[n], k)
            || GotAnswer(states, steps, i, n, k)
    decreases n
  {
    hide *;
    RunShape(states, steps);
    if i < n {
      var m: nat := n - 1;
      StaysParts(states, i, n, m, k);
      CallsAreAnswered(states, steps, i, m, k);
      RunStep(states, steps, m);
      RunInv(states, steps, m);
      StepAnswers(states[m], steps[m], k);
      if GotAnswer(states, steps, i, m, k) {
        GotLater(states, steps, i, m, n, k);
      } else if Answered(states[m], k) && !Answered(states[n], k) {
        GotNow(states, steps, i, m, n, k);
      }
    }
  }

  // ---- servers ----

  /** A thread stops serving a call only by replying to it, which queues the reply, or by being told that nobody waits.
      */
  lemma ServiceEndsTold(d: Device, s: Step, k: Key)
    requires Inv(d) && Enabled(d, s) && ArenasLaid(d.endpoints) && k in d.threads && k in Next(d, s).d.threads
    requires d.threads[k].incoming != 0 && Next(d, s).d.threads[k].incoming != d.threads[k].incoming
    ensures var d' := Next(d, s).d;
            || d'.threads[k].deadReply
            || (s.Write? && s.command.Reply? && (s.token, s.tid) == k
                && |d'.work| == |d.work| + 1 && d'.work[..|d.work|] == d.work)
  {
    hide *;
    StepAnswers(d, s, k);
    if IsReply(s, k) {
      NextIs(d, s);
      ReplyStep(s, k);
      ExecuteIs(d, s.token, s.tid, s.command);
      ReplyThreads(d, s.token, s.tid, s.command.input, s.command.payload);
      ReplyMeans(d, Next(d, s).d, k);
    } else {
      ServerMeans(d, Next(d, s).d, k);
    }
  }

  lemma ServerMeans(d: Device, d': Device, k: Key)
    requires k in d.threads && k in d'.threads && ServerKept(d, d', k)
    ensures d.threads[k].incoming == 0 || d'.threads[k].incoming == d.threads[k].incoming || d'.threads[k].deadReply
    ensures d.threads[k].deadReply ==> d'.threads[k].deadReply
  {
  }

  lemma ReplyMeans(d: Device, r: Device, k: Key)
    requires k in d.threads && k in r.threads
    requires r == d || Rebuffed(d, r, k) || Sent(d, r, k) || OwnThread(d, r, k)
    ensures || r.threads[k].incoming == d.threads[k].incoming
            || (|r.work| == |d.work| + 1 && r.work[..|d.work|] == d.work)
    ensures d.threads[k].deadReply ==> r.threads[k].deadReply || Rebuffed(d, r, k)
  {
    hide HasReply;
  }

  /** Between states `i` and `n` the thread's reply got the dead-reply error. */
  ghost predicate GotRebuffed(states: seq<Device>, steps: seq<Step>, i: nat, n: nat, k: Key) {
    exists m {:trigger steps[m]} :: i <= m < n <= |steps| && n < |states| && IsReply(steps[m], k)
                                    && Rebuffed(states[m], states[m + 1], k)
  }

  lemma RebuffedLater(states: seq<Device>, steps: seq<Step>, i: nat, m: nat, n: nat, k: Key)
    requires m <= n <= |steps| && n < |states|
    ensures GotRebuffed(states, steps, i, m, k) ==> GotRebuffed(states, steps, i, n, k)
    ensures i <= m && n == m + 1 && IsReply(steps[m], k) && Rebuffed(states[m], states[n], k) ==>
              GotRebuffed(states, steps, i, n, k)
  {
    hide Rebuffed, IsReply;
  }

  /** A server that was told stays told until its next accepted reply, which gets the dead-reply error and reaches
      nobody. */
  lemma {:induction false} DeadReplyStays(states: seq<Device>, steps: seq<Step>, i: nat, n: nat, k: Key)
    requires IsRun(states, steps) && Stays(states, i, n, k) && i <= n < |states| && k in states[i].threads
             && k in states[n].threads && states[i].threads[k].deadReply
    ensures states[n].threads[k].deadReply || GotRebuffed(states, steps, i, n, k)
    decreases n
  {
    hide *;
    RunShape(states, steps);
    if i < n {
      var m: nat := n - 1;
      StaysParts(states, i, n, m, k);
      DeadReplyStays(states, steps, i, m, k);
      RebuffedLater(states, steps, i, m, n, k);
      RunStep(states, steps, m);
      RunInv(states, steps, m);
      var d, s := states[m], steps[m];
      StepAnswers(d, s, k);
      if IsReply(s, k) {
        NextIs(d, s);
        ReplyStep(s, k);
        ExecuteIs(d, s.token, s.tid, s.command);
        ReplyThreads(d, s.token, s.tid, s.command.input, s.command.payload);
        ReplyMeans(d, states[n], k);
      } else {
        ServerMeans(d, states[n], k);
      }
    }
  }

  /** The next reply of a server that was told: the error, at once and once. */
  lemma LateReply(d: Device, k: Key, input: Packet, payload: Payload)
    requires Enabled(d, Write(k.0, k.1, Reply(input, payload))) && ArenasLaid(d.endpoints)
    requires input.flags in {0, 16} && d.threads[k].deadReply && d.threads[k].error == 0
             && d.threads[k].completions != PACKET_LIMIT && |d.work| != PACKET_LIMIT
    ensures var r := Next(d, Write(k.0, k.1, Reply(input, payload)));
            && r.status.Done? && r.delivered == []
            && r.d == d.(threads := d.threads[k := d.threads[k].(deadReply := false, error := BR_DEAD_REPLY)])
  {
    NextIs(d, Write(k.0, k.1, Reply(input, payload)));
    hide Laid, Next, FindTransaction, ReservePayload;
  }

  // ---- leaving in the middle of a call ----

  /** The threads that go in this step. */
  predicate Leaves(s: Step, k: Key) {
    (s.Exit? && k == (s.token, s.tid)) || (s.DoReap? && k.0 == s.token)
  }

  lemma CancelLeavesNobody(d: Device, i: nat, e: nat, tid: nat, k: Key)
    requires Inv(d) && i < |d.transactions| && Involves(d.transactions[i], e, tid) && k in d.threads
    ensures var r, id := Cancel(d, e, tid), d.transactions[i].id;
            k in r.threads && r.threads.Keys == d.threads.Keys && r.threads[k].outgoing != id
                && r.threads[k].incoming != id
  {
    hide *;
    CancelInv(d, e, tid);
    CancelThin(d, e, tid);
    NobodyLeft(d, Cancel(d, e, tid), if tid == 0 then e else 0, i, e, tid, k);
  }

  /** A thread in a cancelled call that stays is told. */
  lemma CancelTells(d: Device, i: nat, e: nat, tid: nat, k: Key)
    requires Inv(d) && i < |d.transactions| && Involves(d.transactions[i], e, tid) && k in d.threads && k.1 > 0
             && !Leaving(k, e, tid)
    ensures var r, th, id := Cancel(d, e, tid), d.threads[k], d.transactions[i].id;
            && k in r.threads
            && (th.outgoing == id ==> r.threads[k].outgoing == 0 && r.threads[k].error == BR_DEAD_REPLY)
            && (th.incoming == id ==> r.threads[k].incoming == 0 && r.threads[k].deadReply)
  {
    hide *;
    CancelLeavesNobody(d, i, e, tid, k);
    CancelTold(d, e, tid);
    ToldAt(d, Cancel(d, e, tid), e, tid, k);
  }

  lemma CancelAnswers(d: Device, i: nat, e: nat, tid: nat)
    requires Inv(d) && i < |d.transactions| && Involves(d.transactions[i], e, tid)
    ensures var r, t := Cancel(d, e, tid), d.transactions[i];
            var caller, server := (t.source, t.sourceTid), (t.target, t.targetTid);
            && (!Leaving(caller, e, tid) ==>
                 caller in r.threads && r.threads[caller].outgoing == 0 && r.threads[caller].error == BR_DEAD_REPLY)
            && (!Leaving(server, e, tid) && t.targetTid != 0 ==>
                 server in r.threads && r.threads[server].incoming == 0 && r.threads[server].deadReply)
  {
    var t := d.transactions[i];
    var caller, server := (t.source, t.sourceTid), (t.target, t.targetTid);
    assert t.id != 0;
    hide *;
    Parties(d, i);
    if !Leaving(caller, e, tid) { CancelTells(d, i, e, tid, caller); }
    if !Leaving(server, e, tid) && t.targetTid != 0 { CancelTells(d, i, e, tid, server); }
  }

  lemma Parties(d: Device, i: nat)
    requires Inv(d) && i < |d.transactions| && d.transactions[i].id != 0
    ensures var t := d.transactions[i];
            && (t.source, t.sourceTid) in d.threads && d.threads[(t.source, t.sourceTid)].outgoing == t.id
            && t.sourceTid > 0
            && (t.targetTid != 0 ==>
                 (t.target, t.targetTid) in d.threads && d.threads[(t.target, t.targetTid)].incoming == t.id)
  {
    CallParts(d);
    ThreadPositive(d, d.transactions[i].source, d.transactions[i].sourceTid);
    hide Inv;
    assert TransactionOk(d.transactions[i], d.threads, d.work, d.endpoints.Keys);
  }

  lemma ToldAt(d: Device, r: Device, e: nat, tid: nat, k: Key)
    requires Told(d, r, e, tid) && k in d.threads && r.threads.Keys == d.threads.Keys && k.1 > 0
             && !Leaving(k, e, tid)
    ensures k in r.threads
    ensures var th, th' := d.threads[k], r.threads[k];
            && (th'.outgoing == th.outgoing || (th'.outgoing == 0 && th'.error == BR_DEAD_REPLY))
            && (th'.incoming == th.incoming || (th'.incoming == 0 && th'.deadReply))
  {
    hide HasReply;
    assert k in r.threads;
    assert r.threads[k] == r.threads[k];
  }

  lemma TeardownIs(d: Device, s: Step)
    requires Enabled(d, s) && ArenasLaid(d.endpoints) && (s.Exit? || s.DoReap?)
    ensures forall k {:trigger k in Next(d, s).d.threads} ::
              k in Next(d, s).d.threads <==>
                    !Leaves(s, k) && k in Cancel(d, s.token, if s.Exit? then s.tid else 0).threads
    ensures forall k {:trigger Next(d, s).d.threads[k]} :: k in Next(d, s).d.threads ==>
              Next(d, s).d.threads[k] == Cancel(d, s.token, if s.Exit? then s.tid else 0).threads[k]
  {
    hide Cancel, ArenasLaid, LeftNode, LeftDeath;
    if s.DoReap? {
      var a := Cancel(d, s.token, 0);
      ReleaseReferencesThreads(a, s.token);
      UnclaimThreads(ReleaseReferences(a, s.token), s.token, 0);
      hide Unclaim, ReleaseReferences;
    }
  }

  /** Whoever leaves in the middle of a call, by thread exit or with its process, the other side is told: a caller gets
      the dead-reply error, a server that its reply will be dead. */
  lemma LeavingAnswers(d: Device, s: Step, i: nat)
    requires Inv(d) && Enabled(d, s) && ArenasLaid(d.endpoints) && (s.Exit? || s.DoReap?)
    requires i < |d.transactions| && d.transactions[i].id != 0
    ensures var d', t := Next(d, s).d, d.transactions[i];
            var caller, server := (t.source, t.sourceTid), (t.target, t.targetTid);
            && (Leaves(s, server) && !Leaves(s, caller) ==>
                 caller in d'.threads && d'.threads[caller].outgoing == 0 && d'.threads[caller].error == BR_DEAD_REPLY)
            && (Leaves(s, caller) && !Leaves(s, server) && t.targetTid != 0 ==>
                 server in d'.threads && d'.threads[server].incoming == 0 && d'.threads[server].deadReply)
  {
    var tid := if s.Exit? then s.tid else 0;
    var t := d.transactions[i];
    var caller, server := (t.source, t.sourceTid), (t.target, t.targetTid);
    if s.Exit? { ThreadPositive(d, s.token, s.tid); }
    hide Inv, Next, Cancel, ArenasLaid;
    TeardownIs(d, s);
    if Leaves(s, server) || Leaves(s, caller) { CancelAnswers(d, i, s.token, tid); }
  }
}
