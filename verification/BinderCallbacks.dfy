/** The callbacks a node's owner receives over a run form one legal sequence per node identity. */
module BinderCallbacks {
  import opened Base
  import opened BinderWire
  import opened BinderState
  import opened BinderCommands
  import opened BinderLifetime
  import opened BinderParcels
  import opened BinderInvariant
  import opened BinderRuns
  import opened BinderHistory
  import opened BinderSteps

  /** A callback delivered to the owner, or the owner's acknowledgement of one. */
  datatype Event = Told(word: nat) | Acked(strong: bool)

  // ---- the protocol ----

  datatype Phase = Phase(weak: bool, strong: bool, pendingWeak: bool, pendingStrong: bool, over: bool)

  const START := Phase(false, false, false, false, false)

  /** INCREFS opens, ACQUIRE and RELEASE alternate inside, DECREFS ends; nothing is undone before it was acknowledged.
      */
  function Advance(p: Phase, ev: Event): Option<Phase> {
    match ev
    case Acked(strong) => Some(if strong then p.(pendingStrong := false) else p.(pendingWeak := false))
    case Told(word) =>
      if word == BR_INCREFS && !p.weak && !p.over then Some(p.(weak := true, pendingWeak := true))
      else if word == BR_ACQUIRE && p.weak && !p.strong then Some(p.(strong := true, pendingStrong := true))
      else if word == BR_RELEASE && p.strong && !p.pendingStrong then Some(p.(strong := false))
      else if word == BR_DECREFS && p.weak && !p.strong && !p.pendingWeak
          && !p.pendingStrong then Some(p.(weak := false, over := true))
      else None
  }

  function Replay(log: seq<Event>): Option<Phase> {
    if log == [] then Some(START)
    else
      var p := Replay(log[..|log| - 1]);
      if p.None? then None else Advance(p.value, log[|log| - 1])
  }

  lemma ReplayAppend(log: seq<Event>, ev: Event)
    ensures Replay(log + [ev]) == if Replay(log).None? then None else Advance(Replay(log).value, ev)
  {
    assert (log + [ev])[..|log|] == log;
  }

  /** The callbacks alone. */
  function Words(log: seq<Event>): seq<nat> {
    if log == [] then []
    else
      var last := log[|log| - 1];
      Words(log[..|log| - 1]) + if last.Told? then [last.word] else []
  }

  /** A prefix of INCREFS (ACQUIRE RELEASE)* DECREFS. */
  ghost predicate LegalWords(w: seq<nat>) {
    forall i {:trigger w[i]} :: 0 <= i < |w| ==>
      if i == 0 then w[i] == BR_INCREFS
      else if i % 2 == 0 then w[i] == BR_RELEASE
      else w[i] == BR_ACQUIRE || (w[i] == BR_DECREFS && i == |w| - 1)
  }

  ghost predicate AckedSince(log: seq<Event>, p: nat, strong: bool)
    requires p <= |log|
  {
    exists q :: 0 <= q < p && log[q] == Acked(strong) && forall x {:trigger log[x]} :: q < x < p ==>
          log[x] != Told(if strong then BR_ACQUIRE else BR_INCREFS)
  }

  /** Every RELEASE follows an ACQUIRE_DONE for the last ACQUIRE, and every DECREFS an INCREFS_DONE. */
  ghost predicate AcksPrecede(log: seq<Event>) {
    forall p {:trigger log[p]} :: 0 <= p < |log| ==>
      (log[p] == Told(BR_RELEASE) ==> AckedSince(log, p, true))
          && (log[p] == Told(BR_DECREFS) ==> AckedSince(log, p, false))
  }

  /** How a phase reflects its log. */
  ghost predicate Reflects(p: Phase, log: seq<Event>, w: seq<nat>) {
    && (p.over <==> w != [] && w[|w| - 1] == BR_DECREFS)
    && (p.strong ==> p.weak) && (p.weak ==> !p.over) && (p.pendingStrong ==> p.strong)
    && (p.weak <==> w != [] && !p.over)
    && (p.weak ==> (p.strong <==> |w| % 2 == 0))
    && (p.strong && !p.pendingStrong ==> AckedSince(log, |log|, true))
    && (p.weak && !p.pendingWeak ==> AckedSince(log, |log|, false))
  }

  lemma AckedAppend(log: seq<Event>, ev: Event, strong: bool)
    ensures ev == Acked(strong) ==> AckedSince(log + [ev], |log| + 1, strong)
    ensures AckedSince(log, |log|, strong) && ev != Told(if strong then BR_ACQUIRE else BR_INCREFS) ==>
              AckedSince(log + [ev], |log| + 1, strong)
  {
    var log' := log + [ev];
    if ev == Acked(strong) {
      assert log'[|log|] == Acked(strong);
    } else if AckedSince(log, |log|, strong) && ev != Told(if strong then BR_ACQUIRE else BR_INCREFS) {
      var q :| 0 <= q < |log| && log[q] == Acked(strong) && forall x {:trigger log[x]} :: q < x < |log| ==>
            log[x] != Told(if strong then BR_ACQUIRE else BR_INCREFS);
      assert log'[q] == Acked(strong);
    }
  }

  lemma AckedPrefix(log: seq<Event>, ev: Event, p: nat, strong: bool)
    requires p <= |log|
    ensures AckedSince(log, p, strong) <==> AckedSince(log + [ev], p, strong)
  {
    var log' := log + [ev];
    assert forall x :: 0 <= x < p ==> log'[x] == log[x];
    if q :| 0 <= q < p && log[q] == Acked(strong) && forall x {:trigger log[x]} :: q < x < p ==>
          log[x] != Told(if strong then BR_ACQUIRE else BR_INCREFS) {
      assert log'[q] == Acked(strong);
    }
    if q :| 0 <= q < p && log'[q] == Acked(strong) && forall x {:trigger log'[x]} :: q < x < p ==>
          log'[x] != Told(if strong then BR_ACQUIRE else BR_INCREFS) {
      assert log[q] == Acked(strong);
      assert forall x {:trigger log[x]} :: q < x < p ==> log'[x] == log[x];
    }
  }

  lemma LegalStep(p: Phase, log: seq<Event>, w: seq<nat>, ev: Event, w': seq<nat>)
    requires Reflects(p, log, w) && LegalWords(w) && Advance(p, ev).Some?
             && w' == w + if ev.Told? then [ev.word] else []
    ensures LegalWords(w') && Reflects(Advance(p, ev).value, log + [ev], w')
  {
    AckedAppend(log, ev, true);
    AckedAppend(log, ev, false);
    hide AckedSince;
    assert forall i {:trigger w'[i]} :: 0 <= i < |w| ==> w'[i] == w[i];
  }

  lemma AcksStep(p: Phase, log: seq<Event>, w: seq<nat>, ev: Event)
    requires Reflects(p, log, w) && AcksPrecede(log) && Advance(p, ev).Some?
    ensures AcksPrecede(log + [ev])
  {
    var log' := log + [ev];
    forall x | 0 <= x < |log'|
      ensures (log'[x] == Told(BR_RELEASE) ==> AckedSince(log', x, true))
              && (log'[x] == Told(BR_DECREFS) ==> AckedSince(log', x, false))
    {
      AckedPrefix(log, ev, x, true);
      AckedPrefix(log, ev, x, false);
      assert x < |log| ==> log'[x] == log[x];
      hide AckedSince;
    }
  }

  /** Whatever the protocol accepts is a legal sequence of callbacks, each undone only after its acknowledgement. */
  lemma {:induction false} AcceptedIsLegal(log: seq<Event>)
    requires Replay(log).Some?
    ensures LegalWords(Words(log)) && AcksPrecede(log) && Reflects(Replay(log).value, log, Words(log))
  {
    if log != [] {
      var n := |log| - 1;
      AcceptedIsLegal(log[..n]);
      assert log == log[..n] + [log[n]];
      hide LegalWords, AcksPrecede, Reflects, Advance;
      LegalStep(Replay(log[..n]).value, log[..n], Words(log[..n]), log[n], Words(log));
      AcksStep(Replay(log[..n]).value, log[..n], Words(log[..n]), log[n]);
    }
  }

  // ---- the device follows it ----

  function PhaseOf(n: Node): Phase {
    if n.manager then START else Phase(n.hasWeak, n.hasStrong, n.pendingWeak, n.pendingStrong, false)
  }

  /** The log of a node is accepted, and while the node lives it is in the phase its flags say. */
  ghost predicate Follows(nodes: seq<Node>, next: nat, n: nat, log: seq<Event>) {
    && Replay(log).Some? && (n >= next ==> log == [])
    && (forall k {:trigger nodes[k]} :: 0 <= k < |nodes| && nodes[k].id == n && !nodes[k].dead ==>
         Replay(log).value == PhaseOf(nodes[k]))
    && (Replay(log).value.over ==> forall k {:trigger nodes[k]} :: 0 <= k < |nodes| ==> nodes[k].id != n)
  }

  lemma MoveFollows(nodes: seq<Node>, nodes': seq<Node>, next: nat, next': nat, f: Freed, n: nat, log: seq<Event>)
    requires Follows(nodes, next, n, log) && NodesMove(nodes, nodes', next, next', f) && n != 0
    ensures Follows(nodes', next', n, log)
  {
    forall k | 0 <= k < |nodes'| && nodes'[k].id == n
      ensures !Replay(log).value.over && (!nodes'[k].dead ==> Replay(log).value == PhaseOf(nodes'[k]))
    {
      assert NodeMove(nodes[k], nodes'[k], next, next', f);
      assert nodes[k].id == n || log == [];
    }
  }

  ghost predicate Distinct(nodes: seq<Node>) {
    forall i, j {:trigger nodes[i], nodes[j]} :: 0 <= i < |nodes| && 0 <= j < |nodes| && i != j && nodes[i].id != 0 ==>
          nodes[i].id != nodes[j].id
  }

  /** One event for one node, followed by collection. */
  lemma EventFollows(nodes: seq<Node>, next: nat, refs: seq<Reference>, claims: seq<Claim>, n: nat, log: seq<Event>,
      k: nat, node: Node, ev: Event)
    requires Follows(nodes, next, n, log) && Distinct(nodes) && n != 0 && k < |nodes| && nodes[k].id == n && n < next
             && !nodes[k].dead
    requires node.id == n && !node.dead && Replay(log).Some? && Advance(PhaseOf(nodes[k]), ev).Some?
    requires var p := Advance(PhaseOf(nodes[k]), ev).value;
             if p.over then Garbage(refs, claims, node) else p == PhaseOf(node)
    ensures Follows(Collect(nodes[k := node], refs, claims), next, n, log + [ev])
  {
    ReplayAppend(log, ev);
    hide Garbage, Advance;
  }

  // ---- callbacks ----

  /** The owed callback is always one the protocol allows next; DECREFS leaves nothing to hold the node. */
  lemma OwedIsAllowed(refs: seq<Reference>, claims: seq<Claim>, node: Node)
    requires node.id != 0 && !node.dead && !node.manager && NodeCommand(refs, claims, node) != 0
             && (node.hasStrong ==> node.hasWeak)
    ensures var word := NodeCommand(refs, claims, node);
            var r := Advance(PhaseOf(node), Told(word));
            && r.Some?
            && if word == BR_DECREFS then r.value.over && Garbage(refs, claims, CalledNode(node, word))
               else r.value == PhaseOf(CalledNode(node, word)) && !r.value.over
  {
    var word := NodeCommand(refs, claims, node);
    if word == BR_DECREFS {
      assert !WeakUse(refs, claims, CalledNode(node, word));
    }
  }

  function Heard(delivered: seq<Delivery>, n: nat): seq<Event> {
    if delivered == [] then []
    else
      var x := delivered[0];
      (if x.Callback? && x.node.id == n then [Told(x.word)] else []) + Heard(delivered[1..], n)
  }

  lemma {:induction false} HeardAppend(a: seq<Delivery>, b: seq<Delivery>, n: nat)
    ensures Heard(a + b, n) == Heard(a, n) + Heard(b, n)
  {
    if a == [] {
      assert a + b == b;
    } else {
      HeardAppend(a[1..], b, n);
      assert (a + b)[1..] == a[1..] + b && (a + b)[0] == a[0];
      var first := if a[0].Callback? && a[0].node.id == n then [Told(a[0].word)] else [];
      assert first + (Heard(a[1..], n) + Heard(b, n)) == (first + Heard(a[1..], n)) + Heard(b, n);
    }
  }

  lemma HeardNothing(x: seq<Delivery>, n: nat)
    requires |x| <= 1 && (x != [] ==> !x[0].Callback? || x[0].node.id != n)
    ensures Heard(x, n) == []
  {
    if x != [] { assert x[1..] == []; }
  }

  lemma DistinctNodes(d: Device)
    requires Inv(d)
    ensures Distinct(d.nodes) && forall k {:trigger d.nodes[k]} :: 0 <= k < |d.nodes| ==> d.nodes[k].id < d.nextNode
  {
    hide BinderBuffers.BuffersOk, BinderCalls.CallsOk, BinderOneWay.AsyncOk, Linked, NoGarbage, BinderDeaths.SlotsOk,
        BinderDeaths.DeathsOk;
    forall k | 0 <= k < |d.nodes|
      ensures d.nodes[k].id < d.nextNode
    {
      assert NodeOk(d.nodes[k], d.nextNode, d.endpoints.Keys);
    }
  }

  lemma DeliverNodeIs(d: Device, k: nat)
    requires k < |d.nodes|
    ensures var word := NodeCommand(d.references, d.claims, d.nodes[k]);
            var r := DeliverNode(d, k);
            && r.d == d.(nodes := Collect(d.nodes[k := CalledNode(d.nodes[k], word)], d.references, d.claims))
            && r.delivered == [Callback(word, d.nodes[k])]
  {
    hide NodeCommand, Collect;
  }

  lemma CallbackFollows(d: Device, k: nat, n: nat, log: seq<Event>)
    requires Distinct(d.nodes) && n != 0 && Follows(d.nodes, d.nextNode, n, log)
    requires k < |d.nodes| && d.nodes[k].id != 0 && d.nodes[k].id < d.nextNode && !d.nodes[k].dead
             && !d.nodes[k].manager
    requires NodeCommand(d.references, d.claims, d.nodes[k]) != 0
    ensures var r := DeliverNode(d, k); Follows(r.d.nodes, r.d.nextNode, n, log + Heard(r.delivered, n))
  {
    var node := d.nodes[k];
    var word := NodeCommand(d.references, d.claims, node);
    var r := DeliverNode(d, k);
    DeliverNodeIs(d, k);
    assert r.delivered[1..] == [];
    hide DeliverNode, NodeCommand, Collect, Garbage, Advance, CalledNode;
    if node.id == n {
      AcceptedIsLegal(log);
      OwedIsAllowed(d.references, d.claims, node);
      assert CalledNode(node, word).id == n && !CalledNode(node, word).dead by { CalledKeeps(node, word); }
      hide Follows, AcksPrecede, LegalWords;
      EventFollows(d.nodes, d.nextNode, d.references, d.claims, n, log, k, CalledNode(node, word), Told(word));
      assert Heard(r.delivered, n) == [Told(word)];
    } else {
      HeardNothing(r.delivered, n);
      CalledKeeps(node, word);
      OtherFollows(d, k, CalledNode(node, word), n, log);
      assert log + Heard(r.delivered, n) == log;
    }
  }

  lemma CalledKeeps(node: Node, word: nat)
    ensures CalledNode(node, word).id == node.id && CalledNode(node, word).dead == node.dead
  {
  }

  /** A change of another node's flags. */
  lemma OtherFollows(d: Device, k: nat, node: Node, n: nat, log: seq<Event>)
    requires Follows(d.nodes, d.nextNode, n, log) && k < |d.nodes| && d.nodes[k].id != n && node.id != n && n != 0
    ensures Follows(Collect(d.nodes[k := node], d.references, d.claims), d.nextNode, n, log)
  {
    hide Garbage;
  }

  lemma DeliverOthersKeepNodes(d: Device, e: nat, tid: nat, i: nat)
    requires e in d.endpoints && (e, tid) in d.threads
    ensures i < |d.work| ==>
              DeliverWork(d, e, tid, i).d.nodes == d.nodes && DeliverWork(d, e, tid, i).d.nextNode == d.nextNode
                             && DeliverWork(d, e, tid, i).delivered == [Parcel(d.work[i])]
    ensures i < |d.deaths| ==> DeliverDeath(d, i).d.nodes == d.nodes && DeliverDeath(d, i).d.nextNode == d.nextNode
                               && DeliverDeath(d, i).delivered == [Notice(d.deaths[i])]
  {
  }

  lemma CallableParts(d: Device, node: Node, e: nat, tid: nat, th: Thread)
    requires Callable(d, node, e, tid, th)
    ensures node.id != 0 && !node.dead && !node.manager && NodeCommand(d.references, d.claims, node) != 0
  {
    hide NodeCommand, AcceptsProcessWork;
  }

  /** A delivery either is a callback or leaves the nodes alone. */
  lemma CallbackOrNot(d: Device, e: nat, tid: nat)
    requires e in d.endpoints && (e, tid) in d.threads
    ensures var th := d.threads[(e, tid)];
            var r := DeliverNext(d, e, tid);
            var k := NodeEventFor(d, e, tid, th);
            || (k < |d.nodes| && Callable(d, d.nodes[k], e, tid, th) && r == DeliverNode(d, k))
            || (r.d.nodes == d.nodes && r.d.nextNode == d.nextNode && |r.delivered| <= 1
               && (r.delivered != [] ==> !r.delivered[0].Callback?))
  {
    var th := d.threads[(e, tid)];
    DeliverOthersKeepNodes(d, e, tid, WorkFor(d, e, tid, th));
    DeliverOthersKeepNodes(d, e, tid, DeathFor(d.deaths, e, tid, th));
    hide DeliverNode, DeliverWork, DeliverDeath, Callable, Deliverable, Notifiable, NodeEventFor, WorkFor, DeathFor;
  }

  lemma DeliveryFollows(d: Device, e: nat, tid: nat, n: nat, log: seq<Event>)
    requires Inv(d) && e in d.endpoints && (e, tid) in d.threads && n != 0 && Follows(d.nodes, d.nextNode, n, log)
    ensures var r := DeliverNext(d, e, tid); Follows(r.d.nodes, r.d.nextNode, n, log + Heard(r.delivered, n))
  {
    hide *;
    CallbackOrNot(d, e, tid);
    var r := DeliverNext(d, e, tid);
    var th := d.threads[(e, tid)];
    var k := NodeEventFor(d, e, tid, th);
    if k < |d.nodes| && Callable(d, d.nodes[k], e, tid, th) && r == DeliverNode(d, k) {
      DistinctNodes(d);
      CallableParts(d, d.nodes[k], e, tid, th);
      CallbackFollows(d, k, n, log);
    } else {
      HeardNothing(r.delivered, n);
      assert log + [] == log;
    }
  }

  lemma {:induction false} ReadFollows(d: Device, e: nat, tid: nat, room: nat, writable: nat, n: nat, log: seq<Event>)
    requires Inv(d) && e in d.endpoints && (e, tid) in d.threads && n != 0 && Follows(d.nodes, d.nextNode, n, log)
    ensures var r := ReadLoop(d, e, tid, room, writable);
            Follows(r.d.nodes, r.d.nextNode, n, log + Heard(r.delivered, n))
    decreases room
  {
    hide Inv, DeliverNext, Follows;
    DeliveryFollows(d, e, tid, n, log);
    DeliverNextInv(d, e, tid);
    DeliverNextKeeps(d, e, tid);
    var next := DeliverNext(d, e, tid);
    assert log + [] == log;
    if !(room < 4 || next.delivered == [] || Length(next.delivered[0]) > room || writable == 0
        || EndsRead(next.delivered[0])) {
      var room' := room - Length(next.delivered[0]);
      var rest := ReadLoop(next.d, e, tid, room', writable - 1);
      ReadFollows(next.d, e, tid, room', writable - 1, n, log + Heard(next.delivered, n));
      HeardAppend(next.delivered, rest.delivered, n);
      assert log + Heard(next.delivered, n) + Heard(rest.delivered, n) == log
             + (Heard(next.delivered, n) + Heard(rest.delivered, n));
    }
  }

  // ---- acknowledgements ----

  /** The node an acknowledgement takes effect on, or zero. */
  function Acknowledged(d: Device, e: nat, pointer: u64, cookie: u64): nat {
    var k := OwnedNode(d.nodes, e, pointer);
    if k == |d.nodes| || d.nodes[k].cookie != cookie then 0 else d.nodes[k].id
  }

  lemma AckFollows(d: Device, e: nat, strong: bool, pointer: u64, cookie: u64, n: nat, log: seq<Event>)
    requires Inv(d) && n != 0 && Follows(d.nodes, d.nextNode, n, log)
    ensures var r := NodeDoneCommand(d, e, strong, pointer, cookie).0;
            Follows(r.nodes, r.nextNode, n, log + if Acknowledged(d, e, pointer, cookie) == n then [Acked(strong)]
                else [])
  {
    DistinctNodes(d);
    var k := OwnedNode(d.nodes, e, pointer);
    assert log + [] == log;
    if k < |d.nodes| && d.nodes[k].cookie == cookie {
      var node := AcknowledgedNode(d, d.nodes[k], strong);
      AcknowledgedIs(d, d.nodes[k], strong);
      assert NodeDoneCommand(d, e, strong, pointer, cookie).0
             == d.(nodes := Collect(d.nodes[k := node], d.references, d.claims));
      hide Inv, NodeDoneCommand, Collect, AcknowledgedNode, Garbage;
      if d.nodes[k].id == n {
        hide Follows;
        EventFollows(d.nodes, d.nextNode, d.references, d.claims, n, log, k, node, Acked(strong));
      } else {
        OtherFollows(d, k, node, n, log);
      }
    }
  }

  lemma AcknowledgedIs(d: Device, node: Node, strong: bool)
    requires !node.dead
    ensures var node' := AcknowledgedNode(d, node, strong);
            && node'.id == node.id && node'.dead == node.dead
            && Advance(PhaseOf(node), Acked(strong)) == Some(PhaseOf(node')) && !PhaseOf(node').over
  {
    hide StrongUse, WeakUse;
  }

  // ---- over runs ----

  /** What a step adds to the log of node `n`. */
  ghost function StepEvents(d: Device, s: Step, n: nat): seq<Event>
    requires Enabled(d, s) && ArenasLaid(d.endpoints)
  {
    if s.Read? then Heard(Next(d, s).delivered, n)
    else if Acknowledges(s) && Acknowledged(d, s.token, s.command.pointer, s.command.cookie) == n
        then [Acked(s.command.strong)]
    else []
  }

  lemma ReadCommandFollows(d: Device, e: nat, tid: nat, size: nat, writable: nat, n: nat, log: seq<Event>)
    requires Inv(d) && e in d.endpoints && (e, tid) in d.threads && n != 0 && Follows(d.nodes, d.nextNode, n, log)
    ensures var r := ReadCommand(d, e, tid, size, writable);
            Follows(r.d.nodes, r.d.nextNode, n, log + Heard(r.delivered, n))
  {
    hide Inv, ReadLoop, ReadReady, Follows;
    assert log + [] == log;
    if size >= 4 && writable > 0 { ReadFollows(d, e, tid, size - 4, writable - 1, n, log); }
  }

  lemma StepEventsIs(d: Device, s: Step, n: nat)
    requires Enabled(d, s) && ArenasLaid(d.endpoints)
    ensures s.Read? ==> StepEvents(d, s, n) == Heard(Next(d, s).delivered, n)
    ensures s.Write? && s.command.NodeDone? ==>
              StepEvents(d, s, n) == if Acknowledged(d, s.token, s.command.pointer, s.command.cookie) == n
                  then [Acked(s.command.strong)] else []
    ensures !s.Read? && !Acknowledges(s) ==> StepEvents(d, s, n) == []
  {
    hide Next, Enabled, ArenasLaid, Heard, Acknowledged;
  }

  lemma StepFollows(d: Device, s: Step, n: nat, log: seq<Event>)
    requires Inv(d) && Enabled(d, s) && ArenasLaid(d.endpoints) && n != 0 && Follows(d.nodes, d.nextNode, n, log)
    ensures Follows(Next(d, s).d.nodes, Next(d, s).d.nextNode, n, log + StepEvents(d, s, n))
  {
    hide *;
    NextIs(d, s);
    AcknowledgesIs(s);
    StepEventsIs(d, s, n);
    assert log + [] == log;
    if s.Read? {
      ReadCommandFollows(d, s.token, s.tid, s.size, s.writable, n, log);
    } else if Acknowledges(s) {
      ExecuteIs(d, s.token, s.tid, s.command);
      AckFollows(d, s.token, s.command.strong, s.command.pointer, s.command.cookie, n, log);
    } else if s.DoOpen? {
      OpenEffect(d, s);
    } else {
      StepQuiet(d, s);
      QuietNodes(d, Next(d, s).d, FreedBy(s));
      MoveFollows(d.nodes, Next(d, s).d.nodes, d.nextNode, Next(d, s).d.nextNode, FreedBy(s), n, log);
    }
  }

  lemma QuietNodes(d: Device, d': Device, f: Freed)
    requires Quiet(d, d', f)
    ensures NodesMove(d.nodes, d'.nodes, d.nextNode, d'.nextNode, f)
  {
  }

  /** Everything the owner of node `n` was told and acknowledged in the first `i` steps. */
  ghost function Log(states: seq<Device>, steps: seq<Step>, n: nat, i: nat): seq<Event>
    requires IsRun(states, steps) && i <= |steps|
  {
    if i == 0 then []
    else
      assert Takes(states[i - 1], steps[i - 1], states[i]);
      Log(states, steps, n, i - 1) + StepEvents(states[i - 1], steps[i - 1], n)
  }

  lemma {:induction false} RunFollows(states: seq<Device>, steps: seq<Step>, n: nat, i: nat)
    requires IsRun(states, steps) && i <= |steps| && n != 0
    ensures |states| == |steps| + 1 && Follows(states[i].nodes, states[i].nextNode, n, Log(states, steps, n, i))
  {
    hide *;
    RunShape(states, steps);
    if i == 0 {
      LogStart(states, steps, n);
    } else {
      RunFollows(states, steps, n, i - 1);
      RunInv(states, steps, i - 1);
      RunStep(states, steps, i - 1);
      LogStep(states, steps, n, i);
      StepFollows(states[i - 1], steps[i - 1], n, Log(states, steps, n, i - 1));
    }
  }

  lemma LogStart(states: seq<Device>, steps: seq<Step>, n: nat)
    requires IsRun(states, steps) && n != 0
    ensures Follows(states[0].nodes, states[0].nextNode, n, Log(states, steps, n, 0))
  {
    RunShape(states, steps);
    hide IsRun;
    assert forall k :: 0 <= k < |states[0].nodes| ==> states[0].nodes[k] == NO_NODE;
    assert Log(states, steps, n, 0) == [];
  }

  lemma LogStep(states: seq<Device>, steps: seq<Step>, n: nat, i: nat)
    requires IsRun(states, steps) && 0 < i <= |steps| && Enabled(states[i - 1], steps[i - 1])
             && ArenasLaid(states[i - 1].endpoints)
    ensures Log(states, steps, n, i) == Log(states, steps, n, i - 1) + StepEvents(states[i - 1], steps[i - 1], n)
  {
    hide IsRun, Next, Enabled, ArenasLaid, StepEvents;
  }

  /** In every run the callbacks for a node are a prefix of INCREFS (ACQUIRE RELEASE)* DECREFS, none is undone before
      it was acknowledged, and DECREFS is the end of the node. */
  lemma CallbacksAreLegal(states: seq<Device>, steps: seq<Step>, n: nat, i: nat)
    requires IsRun(states, steps) && i <= |steps| && n != 0
    ensures var log := Log(states, steps, n, i);
            && LegalWords(Words(log)) && AcksPrecede(log)
            && (BR_DECREFS in Words(log) ==> forall k {:trigger states[i].nodes[k]} :: 0 <= k < |states[i].nodes| ==>
                 states[i].nodes[k].id != n)
  {
    hide *;
    RunFollows(states, steps, n, i);
    FollowsIsLegal(states[i].nodes, states[i].nextNode, n, Log(states, steps, n, i));
  }

  lemma FollowsIsLegal(nodes: seq<Node>, next: nat, n: nat, log: seq<Event>)
    requires Follows(nodes, next, n, log)
    ensures LegalWords(Words(log)) && AcksPrecede(log)
    ensures BR_DECREFS in Words(log) ==> forall k {:trigger nodes[k]} :: 0 <= k < |nodes| ==> nodes[k].id != n
  {
    AcceptedIsLegal(log);
    hide AcksPrecede, AckedSince, Replay, Words;
    if BR_DECREFS in Words(log) {
      var x :| 0 <= x < |Words(log)| && Words(log)[x] == BR_DECREFS;
      assert Replay(log).value.over;
    }
  }
}
