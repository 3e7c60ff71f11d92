/** Synchronous calls: caller, transaction, queued request and serving thread always agree. */
module BinderCalls {
  import opened Base
  import opened BinderWire
  import opened BinderState
  import opened BinderCommands

  type Threads = map<(nat, nat), Thread>

  ghost predicate CalledBy(ts: seq<Transaction>, id: nat, k: (nat, nat)) {
    exists i :: 0 <= i < |ts| && ts[i].id == id && (ts[i].source, ts[i].sourceTid) == k
  }

  ghost predicate ServedBy(ts: seq<Transaction>, id: nat, k: (nat, nat)) {
    exists i :: 0 <= i < |ts| && ts[i].id == id && (ts[i].target, ts[i].targetTid) == k
  }

  ghost predicate Queued(work: seq<Work>, id: nat, target: nat) {
    exists j :: 0 <= j < |work| && work[j].transaction == id && work[j].endpoint == target && work[j].tid == 0
  }

  /** A thread never both waits for a reply and serves a call, and whichever it does has a live transaction. */
  ghost predicate ThreadOk(th: Thread, k: (nat, nat), ts: seq<Transaction>, x: nat) {
    && (th.incoming == 0 || th.outgoing == 0)
    && (th.outgoing != 0 ==> th.outgoing != x && CalledBy(ts, th.outgoing, k))
    && (th.incoming != 0 ==> th.incoming != x && ServedBy(ts, th.incoming, k))
  }

  ghost predicate ThreadsOk(threads: Threads, ts: seq<Transaction>, tokens: set<nat>, x: nat) {
    forall k {:trigger threads[k]} :: k in threads ==> k.0 in tokens && k.1 > 0 && ThreadOk(threads[k], k, ts, x)
  }

  /** The caller of a live transaction waits for it, and its request is queued or held by one serving thread. */
  ghost predicate TransactionOk(t: Transaction, threads: Threads, work: seq<Work>, tokens: set<nat>) {
    && (t.source, t.sourceTid) in threads && threads[(t.source, t.sourceTid)].outgoing == t.id
    && t.target in tokens && t.target != t.source
    && if t.targetTid == 0 then Queued(work, t.id, t.target)
       else
         && (t.target, t.targetTid) in threads && threads[(t.target, t.targetTid)].incoming == t.id
         && !Queued(work, t.id, t.target)
  }

  ghost predicate TransactionsOk(ts: seq<Transaction>, threads: Threads, work: seq<Work>, tokens: set<nat>, next: nat,
      x: nat) {
    && (forall i {:trigger ts[i]} :: 0 <= i < |ts| && ts[i].id != 0 ==>
         ts[i].id < next && (ts[i].id != x ==> TransactionOk(ts[i], threads, work, tokens)))
    && (forall i, j {:trigger ts[i], ts[j]} :: 0 <= i < |ts| && 0 <= j < |ts| && i != j && ts[i].id != 0 ==>
         ts[i].id != ts[j].id)
  }

  ghost predicate RequestOk(w: Work, ts: seq<Transaction>, tokens: set<nat>) {
    && w.endpoint in tokens
    && (w.transaction != 0 ==> w.tid == 0 && w.asyncNode == 0 && ServedBy(ts, w.transaction, (w.endpoint, 0)))
  }

  ghost predicate RequestsOk(work: seq<Work>, ts: seq<Transaction>, tokens: set<nat>) {
    && (forall j {:trigger work[j]} :: 0 <= j < |work| ==> RequestOk(work[j], ts, tokens))
    && (forall i, j {:trigger work[i], work[j]} :: 0 <= i < j < |work| && work[i].transaction != 0 ==>
         work[i].transaction != work[j].transaction)
  }

  /** The whole linkage, while transaction `x` (zero for none) is being cancelled. */
  ghost predicate CallsOk(threads: Threads, ts: seq<Transaction>, work: seq<Work>, tokens: set<nat>, next: nat,
      x: nat) {
    && next > 0 && ThreadsOk(threads, ts, tokens, x) && TransactionsOk(ts, threads, work, tokens, next, x)
    && RequestsOk(work, ts, tokens)
  }

  // ---- removing a queue entry ----

  lemma QueuedRemove(work: seq<Work>, j: nat, id: nat, target: nat)
    requires j < |work| && work[j].transaction != id
    ensures Queued(RemoveAt(work, j), id, target) <==> Queued(work, id, target)
  {
    var after := RemoveAt(work, j);
    if i :| 0 <= i < |work| && work[i].transaction == id && work[i].endpoint == target && work[i].tid == 0 {
      assert after[if i < j then i else i - 1] == work[i];
    }
    if i :| 0 <= i < |after| && after[i].transaction == id && after[i].endpoint == target && after[i].tid == 0 {
      assert work[if i < j then i else i + 1] == after[i];
    }
  }

  lemma RemoveRequests(work: seq<Work>, j: nat, ts: seq<Transaction>, tokens: set<nat>)
    requires RequestsOk(work, ts, tokens) && j < |work|
    ensures RequestsOk(RemoveAt(work, j), ts, tokens)
  {
    hide RequestOk;
    var after := RemoveAt(work, j);
    forall i | 0 <= i < |after| ensures RequestOk(after[i], ts, tokens) {
      assert after[i] == work[if i < j then i else i + 1];
    }
    forall a, b | 0 <= a < b < |after| && after[a].transaction != 0
      ensures after[a].transaction != after[b].transaction
    {
      assert after[a] == work[if a < j then a else a + 1] && after[b] == work[if b < j then b else b + 1];
    }
  }

  /** Dropping a reply, a one-way parcel or the request of the call being cancelled. */
  lemma RemoveKeepsCalls(threads: Threads, ts: seq<Transaction>, work: seq<Work>, tokens: set<nat>, next: nat, x: nat,
      j: nat)
    requires CallsOk(threads, ts, work, tokens, next, x) && j < |work|
    requires work[j].transaction == 0 || work[j].transaction == x
    ensures CallsOk(threads, ts, RemoveAt(work, j), tokens, next, x)
  {
    RemoveRequests(work, j, ts, tokens);
    hide RequestsOk, ThreadsOk;
    forall i | 0 <= i < |ts| && ts[i].id != 0 && ts[i].id != x
      ensures TransactionOk(ts[i], threads, RemoveAt(work, j), tokens)
    {
      QueuedRemove(work, j, ts[i].id, ts[i].target);
    }
  }

  // ---- cancelling one call ----

  lemma CallIdentity(ts: seq<Transaction>, next: nat, threads: Threads, work: seq<Work>, tokens: set<nat>, x: nat,
      i: nat, k: (nat, nat))
    requires TransactionsOk(ts, threads, work, tokens, next, x) && i < |ts| && ts[i].id != 0
    ensures CalledBy(ts, ts[i].id, k) ==> k == (ts[i].source, ts[i].sourceTid)
    ensures ServedBy(ts, ts[i].id, k) ==> k == (ts[i].target, ts[i].targetTid)
  {
  }

  /** Telling both threads leaves the transaction as the only trace of the call. */
  lemma TellKeepsCalls(threads: Threads, ts: seq<Transaction>, work: seq<Work>, tokens: set<nat>, next: nat, i: nat)
    requires CallsOk(threads, ts, work, tokens, next, 0) && i < |ts| && ts[i].id != 0
    ensures CallsOk(OrphanTarget(FailSource(threads, ts[i]), ts[i]), ts, work, tokens, next, ts[i].id)
  {
    var t := ts[i];
    var told := OrphanTarget(FailSource(threads, t), t);
    hide RequestsOk, Queued, OrphanTarget, FailSource;
    forall k | k in told ensures k.0 in tokens && k.1 > 0 && ThreadOk(told[k], k, ts, t.id) {
      TellKeepsThread(threads, ts, work, tokens, next, i, k);
    }
    forall j | 0 <= j < |ts| && ts[j].id != 0 && ts[j].id != t.id ensures TransactionOk(ts[j], told, work, tokens) {
      TellKeepsOther(threads, ts, work, tokens, i, j);
    }
  }

  lemma TellKeepsThread(threads: Threads, ts: seq<Transaction>, work: seq<Work>, tokens: set<nat>, next: nat, i: nat,
      k: (nat, nat))
    requires CallsOk(threads, ts, work, tokens, next, 0) && i < |ts| && ts[i].id != 0
             && k in OrphanTarget(FailSource(threads, ts[i]), ts[i])
    ensures k.0 in tokens && k.1 > 0 && ThreadOk(OrphanTarget(FailSource(threads, ts[i]), ts[i])[k], k, ts, ts[i].id)
  {
    assert TransactionOk(ts[i], threads, work, tokens);
    assert ThreadOk(threads[k], k, ts, 0);
    CallIdentity(ts, next, threads, work, tokens, 0, i, k);
    hide RequestsOk, Queued;
  }

  lemma TellKeepsOther(threads: Threads, ts: seq<Transaction>, work: seq<Work>, tokens: set<nat>, i: nat, j: nat)
    requires i < |ts| && j < |ts| && ts[j].id != ts[i].id && TransactionOk(ts[j], threads, work, tokens)
    ensures TransactionOk(ts[j], OrphanTarget(FailSource(threads, ts[i]), ts[i]), work, tokens)
  {
    hide Queued;
  }

  lemma NotRequested(work: seq<Work>, ts: seq<Transaction>, ts': seq<Transaction>, tokens: set<nat>, i: nat)
    requires RequestsOk(work, ts, tokens) && i < |ts| && ts[i].id != 0 && ts' == ts[i := ts[i].(id := 0)]
    requires forall j {:trigger work[j]} :: 0 <= j < |work| ==> work[j].transaction != ts[i].id
    ensures RequestsOk(work, ts', tokens)
  {
    forall j | 0 <= j < |work| ensures RequestOk(work[j], ts', tokens) {
      assert RequestOk(work[j], ts, tokens);
      if work[j].transaction != 0 {
        var y :| 0 <= y < |ts| && ts[y].id == work[j].transaction
            && (ts[y].target, ts[y].targetTid) == (work[j].endpoint, 0);
        assert ts'[y] == ts[y];
      }
    }
  }

  lemma ForgetKeepsThreads(threads: Threads, ts: seq<Transaction>, ts': seq<Transaction>, tokens: set<nat>, i: nat)
    requires i < |ts| && ThreadsOk(threads, ts, tokens, ts[i].id) && ts' == ts[i := ts[i].(id := 0)]
    ensures ThreadsOk(threads, ts', tokens, 0)
  {
    forall k | k in threads ensures ThreadOk(threads[k], k, ts', 0) {
      var th := threads[k];
      assert ThreadOk(th, k, ts, ts[i].id);
      if th.outgoing != 0 {
        var y :| 0 <= y < |ts| && ts[y].id == th.outgoing && (ts[y].source, ts[y].sourceTid) == k;
        assert ts'[y] == ts[y];
      }
      if th.incoming != 0 {
        var y :| 0 <= y < |ts| && ts[y].id == th.incoming && (ts[y].target, ts[y].targetTid) == k;
        assert ts'[y] == ts[y];
      }
    }
  }

  /** Once its request is gone too, the cancelled transaction's slot is free. */
  lemma ForgetKeepsCalls(threads: Threads, ts: seq<Transaction>, work: seq<Work>, tokens: set<nat>, next: nat, i: nat)
    requires i < |ts| && ts[i].id != 0 && CallsOk(threads, ts, work, tokens, next, ts[i].id)
    requires forall j {:trigger work[j]} :: 0 <= j < |work| ==> work[j].transaction != ts[i].id
    ensures CallsOk(threads, ts[i := ts[i].(id := 0)], work, tokens, next, 0)
  {
    var ts' := ts[i := ts[i].(id := 0)];
    NotRequested(work, ts, ts', tokens, i);
    ForgetKeepsThreads(threads, ts, ts', tokens, i);
    hide RequestsOk, ThreadsOk, TransactionOk;
    forall j | 0 <= j < |ts'| && ts'[j].id != 0
      ensures ts'[j].id < next && TransactionOk(ts'[j], threads, work, tokens)
    {
      assert ts'[j] == ts[j];
    }
  }

  // ---- starting, serving and answering a call ----

  lemma StartKeepsCalls(threads: Threads, ts: seq<Transaction>, work: seq<Work>, tokens: set<nat>, next: nat,
                        k: (nat, nat), slot: nat, target: nat, th: Thread, w: Work)
    requires CallsOk(threads, ts, work, tokens, next, 0)
    requires k in threads && threads[k].incoming == 0 && threads[k].outgoing == 0 && slot < |ts| && ts[slot].id == 0
    requires target in tokens && target != k.0
    requires th.incoming == 0 && th.outgoing == next
    requires w.endpoint == target && w.tid == 0 && w.transaction == next && w.asyncNode == 0
    ensures CallsOk(threads[k := th], ts[slot := Transaction(next, k.0, target, k.1, 0)], work + [w], tokens, next + 1,
            0)
  {
    var ts' := ts[slot := Transaction(next, k.0, target, k.1, 0)];
    var threads', work' := threads[k := th], work + [w];
    assert ts'[slot].id == next;
    assert work'[|work|] == w;
    forall q | q in threads' ensures q.0 in tokens && q.1 > 0 && ThreadOk(threads'[q], q, ts', 0) {
      if q != k {
        KeepThread(threads, ts, ts', tokens, slot, q);
      } else {
        assert threads[k].outgoing == 0;
      }
    }
    forall i | 0 <= i < |ts'| && ts'[i].id != 0
      ensures ts'[i].id < next + 1 && TransactionOk(ts'[i], threads', work', tokens)
    {
      if i != slot {
        assert TransactionOk(ts[i], threads, work, tokens);
        QueuedAppend(work, w, ts[i].id, ts[i].target);
      }
    }
    forall j | 0 <= j < |work'| ensures RequestOk(work'[j], ts', tokens) {
      if j < |work| { KeepRequest(work, ts, ts', tokens, slot, j); }
    }
    forall a, b | 0 <= a < b < |work'| && work'[a].transaction != 0
      ensures work'[a].transaction != work'[b].transaction
    {
      if b == |work| { RequestBelow(threads, ts, work, tokens, next, a); }
    }
  }

  lemma RequestBelow(threads: Threads, ts: seq<Transaction>, work: seq<Work>, tokens: set<nat>, next: nat, j: nat)
    requires CallsOk(threads, ts, work, tokens, next, 0) && j < |work|
    ensures work[j].transaction < next
  {
    assert RequestOk(work[j], ts, tokens);
  }

  lemma KeepThread(threads: Threads, ts: seq<Transaction>, ts': seq<Transaction>, tokens: set<nat>, slot: nat,
      q: (nat, nat))
    requires ThreadsOk(threads, ts, tokens, 0) && q in threads && slot < |ts| == |ts'| && ts' == ts[slot := ts'[slot]]
    requires ts[slot].id == 0
    ensures ThreadOk(threads[q], q, ts', 0)
  {
    var th := threads[q];
    assert ThreadOk(th, q, ts, 0);
    if th.outgoing != 0 {
      var y :| 0 <= y < |ts| && ts[y].id == th.outgoing && (ts[y].source, ts[y].sourceTid) == q;
      assert ts'[y] == ts[y];
    }
    if th.incoming != 0 {
      var y :| 0 <= y < |ts| && ts[y].id == th.incoming && (ts[y].target, ts[y].targetTid) == q;
      assert ts'[y] == ts[y];
    }
  }

  lemma KeepRequest(work: seq<Work>, ts: seq<Transaction>, ts': seq<Transaction>, tokens: set<nat>, slot: nat, j: nat)
    requires RequestsOk(work, ts, tokens) && j < |work| && slot < |ts| == |ts'| && ts' == ts[slot := ts'[slot]]
    requires ts[slot].id == 0
    ensures RequestOk(work[j], ts', tokens)
  {
    assert RequestOk(work[j], ts, tokens);
    if work[j].transaction != 0 {
      var y :| 0 <= y < |ts| && ts[y].id == work[j].transaction
          && (ts[y].target, ts[y].targetTid) == (work[j].endpoint, 0);
      assert ts'[y] == ts[y];
    }
  }

  lemma QueuedAppend(work: seq<Work>, w: Work, id: nat, target: nat)
    requires w.transaction != id
    ensures Queued(work + [w], id, target) <==> Queued(work, id, target)
  {
    var after := work + [w];
    if j :| 0 <= j < |work| && work[j].transaction == id && work[j].endpoint == target && work[j].tid == 0 {
      assert after[j] == work[j];
    }
  }

  /** Queueing a reply or a one-way parcel. */
  lemma AppendKeepsCalls(threads: Threads, ts: seq<Transaction>, work: seq<Work>, tokens: set<nat>, next: nat, w: Work)
    requires CallsOk(threads, ts, work, tokens, next, 0) && w.transaction == 0 && w.endpoint in tokens
    ensures CallsOk(threads, ts, work + [w], tokens, next, 0)
  {
    hide ThreadsOk;
    var work' := work + [w];
    forall i | 0 <= i < |ts| && ts[i].id != 0 ensures TransactionOk(ts[i], threads, work', tokens) {
      QueuedAppend(work, w, ts[i].id, ts[i].target);
    }
    forall j | 0 <= j < |work'| ensures RequestOk(work'[j], ts, tokens) {
      assert j < |work| ==> work'[j] == work[j];
    }
  }

  /** Delivering a request makes the reader its one serving thread. */
  lemma ServeKeepsCalls(threads: Threads, ts: seq<Transaction>, work: seq<Work>, tokens: set<nat>, next: nat,
                        k: (nat, nat), j: nat, slot: nat, th: Thread)
    requires CallsOk(threads, ts, work, tokens, next, 0)
    requires k in threads && threads[k].incoming == 0 && threads[k].outgoing == 0
    requires j < |work| && work[j].transaction != 0 && work[j].endpoint == k.0
    requires slot < |ts| && ts[slot].id == work[j].transaction
    requires th.incoming == work[j].transaction && th.outgoing == 0
    ensures CallsOk(threads[k := th], ts[slot := ts[slot].(targetTid := k.1)], RemoveAt(work, j), tokens, next, 0)
  {
    var ts' := ts[slot := ts[slot].(targetTid := k.1)];
    var threads', work' := threads[k := th], RemoveAt(work, j);
    var id := work[j].transaction;
    assert RequestOk(work[j], ts, tokens);
    CallIdentity(ts, next, threads, work, tokens, 0, slot, (work[j].endpoint, 0));
    assert ts[slot].target == k.0 && ts[slot].targetTid == 0;
    assert TransactionOk(ts[slot], threads, work, tokens);
    assert ts'[slot].id == id;
    forall q | q in threads' ensures q.0 in tokens && q.1 > 0 && ThreadOk(threads'[q], q, ts', 0) {
      ServeKeepsThread(threads, ts, work, tokens, next, k, slot, th, q);
    }
    forall y | 0 <= y < |work'| ensures work'[y].transaction != id {
      assert work'[y] == work[if y < j then y else y + 1];
    }
    forall i | 0 <= i < |ts'| && ts'[i].id != 0
      ensures ts'[i].id < next && TransactionOk(ts'[i], threads', work', tokens)
    {
      if i != slot {
        assert ts[i].id != id;
        assert TransactionOk(ts[i], threads, work, tokens);
        QueuedRemove(work, j, ts[i].id, ts[i].target);
      }
    }
    RemoveRequests(work, j, ts, tokens);
    forall y | 0 <= y < |work'| ensures RequestOk(work'[y], ts', tokens) {
      assert RequestOk(work'[y], ts, tokens);
      if work'[y].transaction != 0 {
        var z :| 0 <= z < |ts| && ts[z].id == work'[y].transaction
            && (ts[z].target, ts[z].targetTid) == (work'[y].endpoint, 0);
        assert ts'[z] == ts[z];
      }
    }
  }

  lemma ServeKeepsThread(threads: Threads, ts: seq<Transaction>, work: seq<Work>, tokens: set<nat>, next: nat,
                         k: (nat, nat), slot: nat, th: Thread, q: (nat, nat))
    requires CallsOk(threads, ts, work, tokens, next, 0) && k in threads && slot < |ts| && ts[slot].id != 0
    requires ts[slot].target == k.0 && ts[slot].targetTid == 0
    requires th.incoming == ts[slot].id && th.outgoing == 0
    requires q in threads[k := th]
    ensures q.0 in tokens && q.1 > 0 && ThreadOk(threads[k := th][q], q, ts[slot := ts[slot].(targetTid := k.1)], 0)
  {
    var ts' := ts[slot := ts[slot].(targetTid := k.1)];
    assert ts'[slot].id == ts[slot].id && (ts'[slot].target, ts'[slot].targetTid) == k;
    if q != k {
      var o := threads[q];
      assert ThreadOk(o, q, ts, 0) && q.1 > 0;
      if o.outgoing != 0 {
        var y :| 0 <= y < |ts| && ts[y].id == o.outgoing && (ts[y].source, ts[y].sourceTid) == q;
        assert ts'[y].id == o.outgoing && (ts'[y].source, ts'[y].sourceTid) == q;
      }
      if o.incoming != 0 {
        var y :| 0 <= y < |ts| && ts[y].id == o.incoming && (ts[y].target, ts[y].targetTid) == q;
        assert ts'[y] == ts[y];
      }
    }
  }

  /** Answering frees the transaction and both threads. */
  lemma AnswerKeepsCalls(threads: Threads, ts: seq<Transaction>, work: seq<Work>, tokens: set<nat>, next: nat,
                         k: (nat, nat), slot: nat, threads': Threads)
    requires CallsOk(threads, ts, work, tokens, next, 0)
    requires k in threads && threads[k].incoming != 0 && slot < |ts| && ts[slot].id == threads[k].incoming
    requires threads'.Keys == threads.Keys
    requires var caller := (ts[slot].source, ts[slot].sourceTid);
             forall q {:trigger threads'[q]} :: q in threads ==>
               && threads'[q].incoming == (if q == k then 0 else threads[q].incoming)
               && threads'[q].outgoing == (if q == caller then 0 else threads[q].outgoing)
    ensures CallsOk(threads', ts[slot := ts[slot].(id := 0)], work, tokens, next, 0)
  {
    var t := ts[slot];
    assert ThreadOk(threads[k], k, ts, 0);
    CallIdentity(ts, next, threads, work, tokens, 0, slot, k);
    assert TransactionOk(t, threads, work, tokens);
    assert t.targetTid != 0;
    forall j | 0 <= j < |work| ensures work[j].transaction != t.id {
      assert RequestOk(work[j], ts, tokens);
      CallIdentity(ts, next, threads, work, tokens, 0, slot, (work[j].endpoint, 0));
    }
    forall q | q in threads' ensures q.0 in tokens && q.1 > 0 && ThreadOk(threads'[q], q, ts, t.id) {
      assert ThreadOk(threads[q], q, ts, 0);
      CallIdentity(ts, next, threads, work, tokens, 0, slot, q);
    }
    forall j | 0 <= j < |ts| && ts[j].id != 0 && ts[j].id != t.id ensures TransactionOk(ts[j], threads', work, tokens) {
      assert TransactionOk(ts[j], threads, work, tokens);
    }
    ForgetKeepsCalls(threads', ts, work, tokens, next, slot);
  }
}
