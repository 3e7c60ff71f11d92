/** What each death subscription tells its subscriber over a run. */
module BinderNotices {
  import opened Base
  import opened BinderWire
  import opened BinderState
  import opened BinderCommands
  import opened BinderDeaths
  import opened BinderInvariant
  import opened BinderSteps
  import opened BinderRuns
  import opened BinderHistory

  function NoticeWord(death: Death): nat {
    if death.state.ClearQueued? then BR_CLEAR_DEATH_NOTIFICATION_DONE else BR_DEAD_BINDER
  }

  /** The notices of subscription `serial` among some deliveries. */
  function Notices(delivered: seq<Delivery>, serial: nat): seq<nat> {
    if delivered == [] then []
    else
      var x := delivered[0];
      (if x.Notice? && x.death.serial == serial then [NoticeWord(x.death)] else []) + Notices(delivered[1..], serial)
  }

  lemma {:induction false} NoticesAppend(a: seq<Delivery>, b: seq<Delivery>, serial: nat)
    ensures Notices(a + b, serial) == Notices(a, serial) + Notices(b, serial)
  {
    if a == [] {
      assert a + b == b;
    } else {
      NoticesAppend(a[1..], b, serial);
      assert (a + b)[1..] == a[1..] + b && (a + b)[0] == a[0];
      var first := if a[0].Notice? && a[0].death.serial == serial then [NoticeWord(a[0].death)] else [];
      assert first + (Notices(a[1..], serial) + Notices(b, serial)) == (first + Notices(a[1..], serial))
             + Notices(b, serial);
    }
  }

  lemma NoNotices(x: seq<Delivery>, serial: nat)
    requires |x| <= 1 && (x != [] ==> !x[0].Notice? || x[0].death.serial != serial)
    ensures Notices(x, serial) == []
  {
    if x != [] { assert x[1..] == []; }
  }

  /** At most one DEAD_BINDER, at most one CLEAR_DONE, and the latter comes last. */
  predicate AtMostOnce(log: seq<nat>) {
    log == [] || log == [BR_DEAD_BINDER] || log == [BR_CLEAR_DEATH_NOTIFICATION_DONE]
    || log == [BR_DEAD_BINDER, BR_CLEAR_DEATH_NOTIFICATION_DONE]
  }

  /** What a live subscription in a given state has already said. */
  predicate SaidSoFar(state: DeathState, log: seq<nat>) {
    match state
    case Armed => log == []
    case DeathQueued => log == []
    case DeathDelivered => log == [BR_DEAD_BINDER]
    case DeathAcknowledged => log == [BR_DEAD_BINDER]
    case ClearQueued => log == [] || log == [BR_DEAD_BINDER]
  }

  ghost predicate Tracks(deaths: seq<Death>, next: nat, serial: nat, log: seq<nat>) {
    && AtMostOnce(log) && (serial >= next ==> log == [])
    && forall k {:trigger deaths[k]} :: 0 <= k < |deaths| && deaths[k].endpoint != 0 && deaths[k].serial == serial ==>
         SaidSoFar(deaths[k].state, log)
  }

  lemma MoveTracks(deaths: seq<Death>, deaths': seq<Death>, next: nat, next': nat, serial: nat, log: seq<nat>)
    requires Tracks(deaths, next, serial, log) && DeathsMove(deaths, deaths', next, next')
    ensures Tracks(deaths', next', serial, log)
  {
    forall k | 0 <= k < |deaths'| && deaths'[k].endpoint != 0 && deaths'[k].serial == serial
      ensures SaidSoFar(deaths'[k].state, log)
    {
      assert DeathMove(deaths[k], deaths'[k], next, next');
    }
  }

  lemma DeliverDeathIs(d: Device, i: nat)
    requires i < |d.deaths|
    ensures var death := d.deaths[i];
            var r := DeliverDeath(d, i);
            && r.d == d.(deaths := d.deaths[i := if death.state.ClearQueued? then NO_DEATH
               else death.(state := DeathDelivered)])
            && r.delivered == [Notice(death)]
  {
  }

  lemma NoticeTracks(d: Device, i: nat, serial: nat, log: seq<nat>)
    requires DeathsOk(d.deaths, d.endpoints.Keys, d.nextSerial) && Tracks(d.deaths, d.nextSerial, serial, log)
    requires i < |d.deaths| && d.deaths[i].endpoint != 0
             && (d.deaths[i].state.DeathQueued? || d.deaths[i].state.ClearQueued?)
    ensures var r := DeliverDeath(d, i); Tracks(r.d.deaths, r.d.nextSerial, serial, log + Notices(r.delivered, serial))
  {
    var r := DeliverDeath(d, i);
    DeliverDeathIs(d, i);
    hide DeliverDeath;
    assert DeathOk(d.deaths[i], d.endpoints.Keys, d.nextSerial);
    assert r.delivered[1..] == [];
    if d.deaths[i].serial == serial {
      assert Notices(r.delivered, serial) == [NoticeWord(d.deaths[i])];
      assert SaidSoFar(d.deaths[i].state, log);
    } else {
      NoNotices(r.delivered, serial);
      assert log + [] == log;
    }
  }

  lemma DeliverOthersKeepDeaths(d: Device, e: nat, tid: nat, i: nat)
    requires e in d.endpoints && (e, tid) in d.threads
    ensures i < |d.work| ==>
              DeliverWork(d, e, tid, i).d.deaths == d.deaths && DeliverWork(d, e, tid, i).d.nextSerial == d.nextSerial
                             && DeliverWork(d, e, tid, i).delivered == [Parcel(d.work[i])]
    ensures i < |d.nodes| ==> DeliverNode(d, i).d.deaths == d.deaths && DeliverNode(d, i).d.nextSerial == d.nextSerial
                              && |DeliverNode(d, i).delivered| == 1 && DeliverNode(d, i).delivered[0].Callback?
  {
  }

  /** A delivery either is a notice of a queued subscription or leaves the subscriptions alone. */
  lemma NoticeOrNot(d: Device, e: nat, tid: nat)
    requires e in d.endpoints && (e, tid) in d.threads
    ensures var th := d.threads[(e, tid)];
            var r := DeliverNext(d, e, tid);
            var i := DeathFor(d.deaths, e, tid, th);
            || (i < |d.deaths| && Notifiable(d.deaths[i], e, tid, th) && r == DeliverDeath(d, i))
            || (r.d.deaths == d.deaths && r.d.nextSerial == d.nextSerial && |r.delivered| <= 1
               && (r.delivered != [] ==> !r.delivered[0].Notice?))
  {
    var th := d.threads[(e, tid)];
    DeliverOthersKeepDeaths(d, e, tid, WorkFor(d, e, tid, th));
    DeliverOthersKeepDeaths(d, e, tid, NodeEventFor(d, e, tid, th));
    hide DeliverNode, DeliverWork, DeliverDeath, Callable, Deliverable, Notifiable, NodeEventFor, WorkFor, DeathFor;
  }

  lemma NotifiableParts(death: Death, e: nat, tid: nat, th: Thread)
    requires Notifiable(death, e, tid, th)
    ensures death.endpoint == e && (death.state.DeathQueued? || death.state.ClearQueued?)
  {
  }

  lemma DeliveryTracks(d: Device, e: nat, tid: nat, serial: nat, log: seq<nat>)
    requires Inv(d) && e in d.endpoints && (e, tid) in d.threads && Tracks(d.deaths, d.nextSerial, serial, log)
    ensures var r := DeliverNext(d, e, tid);
            Tracks(r.d.deaths, r.d.nextSerial, serial, log + Notices(r.delivered, serial))
  {
    hide *;
    NoticeOrNot(d, e, tid);
    var r := DeliverNext(d, e, tid);
    var th := d.threads[(e, tid)];
    var i := DeathFor(d.deaths, e, tid, th);
    if i < |d.deaths| && Notifiable(d.deaths[i], e, tid, th) && r == DeliverDeath(d, i) {
      DeathParts(d);
      PlacedWork(d);
      NotifiableParts(d.deaths[i], e, tid, th);
      NoticeTracks(d, i, serial, log);
    } else {
      NoNotices(r.delivered, serial);
      assert log + [] == log;
    }
  }

  lemma {:induction false} ReadTracks(d: Device, e: nat, tid: nat, room: nat, writable: nat, serial: nat, log: seq<nat>)
    requires Inv(d) && e in d.endpoints && (e, tid) in d.threads && Tracks(d.deaths, d.nextSerial, serial, log)
    ensures var r := ReadLoop(d, e, tid, room, writable);
            Tracks(r.d.deaths, r.d.nextSerial, serial, log + Notices(r.delivered, serial))
    decreases room
  {
    hide Inv, DeliverNext, Tracks;
    DeliveryTracks(d, e, tid, serial, log);
    DeliverNextInv(d, e, tid);
    DeliverNextKeeps(d, e, tid);
    var next := DeliverNext(d, e, tid);
    assert log + [] == log;
    if !(room < 4 || next.delivered == [] || Length(next.delivered[0]) > room || writable == 0
        || EndsRead(next.delivered[0])) {
      var room' := room - Length(next.delivered[0]);
      var rest := ReadLoop(next.d, e, tid, room', writable - 1);
      ReadTracks(next.d, e, tid, room', writable - 1, serial, log + Notices(next.delivered, serial));
      NoticesAppend(next.delivered, rest.delivered, serial);
      assert log + Notices(next.delivered, serial) + Notices(rest.delivered, serial) == log
             + (Notices(next.delivered, serial) + Notices(rest.delivered, serial));
    }
  }

  lemma ReadCommandTracks(d: Device, e: nat, tid: nat, size: nat, writable: nat, serial: nat, log: seq<nat>)
    requires Inv(d) && e in d.endpoints && (e, tid) in d.threads && Tracks(d.deaths, d.nextSerial, serial, log)
    ensures var r := ReadCommand(d, e, tid, size, writable);
            Tracks(r.d.deaths, r.d.nextSerial, serial, log + Notices(r.delivered, serial))
  {
    hide Inv, ReadLoop, ReadReady, Tracks;
    assert log + [] == log;
    if size >= 4 && writable > 0 { ReadTracks(d, e, tid, size - 4, writable - 1, serial, log); }
  }

  // ---- over runs ----

  lemma AckKeepsDeaths(d: Device, e: nat, strong: bool, pointer: u64, cookie: u64)
    ensures NodeDoneCommand(d, e, strong, pointer, cookie).0.deaths == d.deaths
    ensures NodeDoneCommand(d, e, strong, pointer, cookie).0.nextSerial == d.nextSerial
  {
    hide AcknowledgedNode, Collect;
  }

  lemma QuietDeaths(d: Device, d': Device, f: Freed)
    requires Quiet(d, d', f)
    ensures DeathsMove(d.deaths, d'.deaths, d.nextSerial, d'.nextSerial)
  {
  }

  /** Only reads deliver anything. */
  lemma OnlyReadsDeliver(d: Device, s: Step)
    requires Enabled(d, s) && ArenasLaid(d.endpoints) && !s.Read?
    ensures Next(d, s).delivered == []
  {
    hide Execute, ThreadExit, ReleaseEndpoint, SetManager, Open, ArenasLaid;
  }

  lemma StepTracks(d: Device, s: Step, serial: nat, log: seq<nat>)
    requires Inv(d) && Enabled(d, s) && ArenasLaid(d.endpoints) && Tracks(d.deaths, d.nextSerial, serial, log)
    ensures Tracks(Next(d, s).d.deaths, Next(d, s).d.nextSerial, serial, log + Notices(Next(d, s).delivered, serial))
  {
    hide *;
    NextIs(d, s);
    AcknowledgesIs(s);
    if s.Read? {
      ReadCommandTracks(d, s.token, s.tid, s.size, s.writable, serial, log);
    } else {
      OnlyReadsDeliver(d, s);
      NoNotices([], serial);
      assert log + [] == log;
      if Acknowledges(s) {
        ExecuteIs(d, s.token, s.tid, s.command);
        AckKeepsDeaths(d, s.token, s.command.strong, s.command.pointer, s.command.cookie);
      } else if s.DoOpen? {
        OpenEffect(d, s);
      } else {
        StepQuiet(d, s);
        QuietDeaths(d, Next(d, s).d, FreedBy(s));
        MoveTracks(d.deaths, Next(d, s).d.deaths, d.nextSerial, Next(d, s).d.nextSerial, serial, log);
      }
    }
  }

  /** Everything subscription `serial` was told in the first `i` steps. */
  ghost function Log(states: seq<Device>, steps: seq<Step>, serial: nat, i: nat): seq<nat>
    requires IsRun(states, steps) && i <= |steps|
  {
    if i == 0 then []
    else
      assert Takes(states[i - 1], steps[i - 1], states[i]);
      Log(states, steps, serial, i - 1) + Notices(Next(states[i - 1], steps[i - 1]).delivered, serial)
  }

  lemma LogStep(states: seq<Device>, steps: seq<Step>, serial: nat, i: nat)
    requires IsRun(states, steps) && 0 < i <= |steps| && Enabled(states[i - 1], steps[i - 1])
             && ArenasLaid(states[i - 1].endpoints)
    ensures Log(states, steps, serial, i) == Log(states, steps, serial, i - 1)
            + Notices(Next(states[i - 1], steps[i - 1]).delivered, serial)
  {
    hide IsRun, Next, Enabled, ArenasLaid;
  }

  lemma LogStart(states: seq<Device>, steps: seq<Step>, serial: nat)
    requires IsRun(states, steps)
    ensures Tracks(states[0].deaths, states[0].nextSerial, serial, Log(states, steps, serial, 0))
  {
    RunShape(states, steps);
    hide IsRun;
    assert forall k :: 0 <= k < |states[0].deaths| ==> states[0].deaths[k] == NO_DEATH;
    assert Log(states, steps, serial, 0) == [];
  }

  lemma {:induction false} RunTracks(states: seq<Device>, steps: seq<Step>, serial: nat, i: nat)
    requires IsRun(states, steps) && i <= |steps|
    ensures |states| == |steps| + 1 && Tracks(states[i].deaths, states[i].nextSerial, serial,
            Log(states, steps, serial, i))
  {
    hide *;
    RunShape(states, steps);
    if i == 0 {
      LogStart(states, steps, serial);
    } else {
      RunTracks(states, steps, serial, i - 1);
      RunInv(states, steps, i - 1);
      RunStep(states, steps, i - 1);
      LogStep(states, steps, serial, i);
      StepTracks(states[i - 1], steps[i - 1], serial, Log(states, steps, serial, i - 1));
    }
  }

  /** Over any run a subscription emits at most one DEAD_BINDER and at most one CLEAR_DONE, which comes last. */
  lemma NoticesAtMostOnce(states: seq<Device>, steps: seq<Step>, serial: nat, i: nat)
    requires IsRun(states, steps) && i <= |steps|
    ensures AtMostOnce(Log(states, steps, serial, i))
  {
    hide *;
    RunTracks(states, steps, serial, i);
    TracksOnce(states[i].deaths, states[i].nextSerial, serial, Log(states, steps, serial, i));
  }

  lemma TracksOnce(deaths: seq<Death>, next: nat, serial: nat, log: seq<nat>)
    requires Tracks(deaths, next, serial, log)
    ensures AtMostOnce(log)
  {
  }

  // ---- a death is announced only after the owner's release ----

  ghost predicate Announces(x: Delivery) {
    x.Notice? && !x.death.state.ClearQueued?
  }

  /** An owner that was once registered and is no longer. */
  ghost predicate Departed(d: Device, owner: nat) {
    0 < owner < d.nextToken && owner !in d.endpoints
  }

  lemma QueuedDeathParts(d: Device, i: nat)
    requires Inv(d) && i < |d.deaths| && d.deaths[i].endpoint != 0
    ensures d.deaths[i].state.DeathQueued? ==> Departed(d, d.deaths[i].owner)
  {
    DeathParts(d);
    hide Inv, SlotsOk;
    assert DeathOk(d.deaths[i], d.endpoints.Keys, d.nextSerial);
  }

  lemma DeliveryAnnounces(d: Device, e: nat, tid: nat)
    requires Inv(d) && e in d.endpoints && (e, tid) in d.threads
    ensures var r := DeliverNext(d, e, tid);
            |r.delivered| <= 1 && (r.delivered != [] && Announces(r.delivered[0]) ==>
                  Departed(d, r.delivered[0].death.owner))
  {
    hide *;
    NoticeOrNot(d, e, tid);
    var th := d.threads[(e, tid)];
    var i := DeathFor(d.deaths, e, tid, th);
    if i < |d.deaths| && Notifiable(d.deaths[i], e, tid, th) {
      PlacedWork(d);
      NotifiableParts(d.deaths[i], e, tid, th);
      QueuedDeathParts(d, i);
      DeliverDeathIs(d, i);
    }
    AnnouncesIs();
  }

  lemma AnnouncesIs()
    ensures forall x {:trigger Announces(x)} :: Announces(x) ==> x.Notice? && !x.death.state.ClearQueued?
  {
  }

  lemma {:induction false} ReadAnnounces(d: Device, e: nat, tid: nat, room: nat, writable: nat)
    requires Inv(d) && e in d.endpoints && (e, tid) in d.threads
    ensures forall x {:trigger Announces(x)} :: x in ReadLoop(d, e, tid, room, writable).delivered && Announces(x) ==>
              Departed(d, x.death.owner)
    decreases room
  {
    hide Inv, DeliverNext, Announces;
    AnnouncesIs();
    DeliveryAnnounces(d, e, tid);
    DeliverNextInv(d, e, tid);
    DeliverNextKeeps(d, e, tid);
    DeliverNextTokens(d, e, tid);
    var next := DeliverNext(d, e, tid);
    if !(room < 4 || next.delivered == [] || Length(next.delivered[0]) > room || writable == 0
        || EndsRead(next.delivered[0])) {
      ReadAnnounces(next.d, e, tid, room - Length(next.delivered[0]), writable - 1);
    }
  }

  lemma DeliverNextTokens(d: Device, e: nat, tid: nat)
    requires e in d.endpoints && (e, tid) in d.threads
    ensures DeliverNext(d, e, tid).d.nextToken == d.nextToken
  {
  }

  lemma ReadCommandAnnounces(d: Device, e: nat, tid: nat, size: nat, writable: nat)
    requires Inv(d) && e in d.endpoints && (e, tid) in d.threads
    ensures forall x {:trigger Announces(x)} ::
              x in ReadCommand(d, e, tid, size, writable).delivered && Announces(x) ==> Departed(d, x.death.owner)
  {
    hide Inv, ReadLoop, ReadReady, Announces;
    AnnouncesIs();
    if size >= 4 && writable > 0 { ReadAnnounces(d, e, tid, size - 4, writable - 1); }
  }

  // ---- tokens leave only by being reaped ----

  lemma ReadTokens(d: Device, e: nat, tid: nat, room: nat, writable: nat)
    requires e in d.endpoints && (e, tid) in d.threads
    ensures var r := ReadLoop(d, e, tid, room, writable).d;
            r.nextToken == d.nextToken && r.endpoints.Keys == d.endpoints.Keys
    decreases room
  {
    hide DeliverNext;
    DeliverNextKeeps(d, e, tid);
    DeliverNextTokens(d, e, tid);
    var next := DeliverNext(d, e, tid);
    if !(room < 4 || next.delivered == [] || Length(next.delivered[0]) > room || writable == 0) {
      ReadTokens(next.d, e, tid, room - Length(next.delivered[0]), writable - 1);
    }
  }

  lemma CallKeys(d: Device, e: nat, tid: nat, input: Packet, payload: Payload)
    requires (e, tid) in d.threads && e in d.endpoints && ArenasLaid(d.endpoints)
    ensures CallCommand(d, e, tid, input, payload).0.endpoints.Keys == d.endpoints.Keys
  {
    hide ReservePayload, RouteCall, BinderArena.Laid;
    if input.flags in {0, 1, 16, 17} && Admissible(d, d.threads[(e, tid)]) {
      var route := RouteCall(d, e, tid, input);
      if route.Halt? {
        HaltKeys(d, e, tid, input);
      } else {
        ReservePayloadKeeps(d, e, tid, route.target, input, payload, route.nodeIndex);
      }
    }
  }

  lemma HaltKeys(d: Device, e: nat, tid: nat, input: Packet)
    requires (e, tid) in d.threads && e in d.endpoints && RouteCall(d, e, tid, input).Halt?
    ensures RouteCall(d, e, tid, input).d.endpoints == d.endpoints
  {
    hide FindReference, NodeFor, FindTransaction;
  }

  lemma ReplyKeys(d: Device, e: nat, tid: nat, input: Packet, payload: Payload)
    requires (e, tid) in d.threads && e in d.endpoints && ArenasLaid(d.endpoints)
    ensures ReplyCommand(d, e, tid, input, payload).0.endpoints.Keys == d.endpoints.Keys
  {
    hide ReservePayload, BinderArena.Laid;
    var th := d.threads[(e, tid)];
    var slot := if th.incoming == 0 then |d.transactions| else FindTransaction(d.transactions, th.incoming);
    if slot < |d.transactions| && d.transactions[slot].source in d.endpoints {
      ReservePayloadKeeps(d, e, tid, d.transactions[slot].source, input, payload, |d.nodes|);
    }
  }

  lemma ReferenceKeys(d: Device, e: nat, increment: bool, strong: bool, handle: u32)
    ensures ReferenceCommand(d, e, increment, strong, handle).0.endpoints == d.endpoints
  {
    hide FindReference, EnsureReference, NodeFor, Collect, DropDeath;
  }

  lemma OtherKeys(d: Device, e: nat, tid: nat, c: Command)
    requires e in d.endpoints && (e, tid) in d.threads && ArenasLaid(d.endpoints) && !c.Call? && !c.Reply?
             && !c.AdjustCount?
    ensures Execute(d, e, tid, c).0.endpoints.Keys == d.endpoints.Keys
  {
    hide CallCommand, ReplyCommand, ReferenceCommand, ArenasLaid, FindReference, Collect, ReleaseClaims,
        AcknowledgedNode, FreeDeath, DeliveredDeath;
  }

  lemma ExecuteKeys(d: Device, e: nat, tid: nat, c: Command)
    requires e in d.endpoints && (e, tid) in d.threads && ArenasLaid(d.endpoints)
    ensures Execute(d, e, tid, c).0.endpoints.Keys == d.endpoints.Keys
  {
    hide *;
    ExecuteIs(d, e, tid, c);
    if c.Call? { CallKeys(d, e, tid, c.input, c.payload); }
    else if c.Reply? { ReplyKeys(d, e, tid, c.input, c.payload); }
    else if c.AdjustCount? { ReferenceKeys(d, e, c.increment, c.strong, c.handle); }
    else { OtherKeys(d, e, tid, c); }
  }

  lemma LifecycleKeys(d: Device, s: Step)
    requires Inv(d) && Enabled(d, s) && ArenasLaid(d.endpoints) && !s.Read? && !s.Write?
    ensures d.endpoints.Keys - (if s.DoReap? then {s.token} else {}) <= Next(d, s).d.endpoints.Keys
  {
    if s.Exit? {
      NextThreadIs(d, s);
      hide *;
      ThreadPositive(d, s.token, s.tid);
      BinderLifecycle.ThreadExitInv(d, s.token, s.tid);
    } else if s.DoReap? {
      hide Inv, ReleaseEndpoint;
      BinderLifecycle.ReleaseEndpointInv(d, s.token);
    } else {
      hide Inv, ThreadExit, ReleaseEndpoint;
    }
  }

  /** A token disappears only when its endpoint is reaped. */
  lemma StepKeys(d: Device, s: Step, token: nat)
    requires Inv(d) && Enabled(d, s) && ArenasLaid(d.endpoints) && token in d.endpoints
    ensures token in Next(d, s).d.endpoints || s == DoReap(token)
  {
    hide *;
    NextIs(d, s);
    if s.Read? {
      ReadCommandTokens(d, s.token, s.tid, s.size, s.writable);
    } else if s.Write? {
      ExecuteKeys(d, s.token, s.tid, s.command);
    } else {
      LifecycleKeys(d, s);
    }
  }

  lemma ReadCommandTokens(d: Device, e: nat, tid: nat, size: nat, writable: nat)
    requires e in d.endpoints && (e, tid) in d.threads
    ensures var r := ReadCommand(d, e, tid, size, writable).d;
            r.nextToken == d.nextToken && r.endpoints.Keys == d.endpoints.Keys
  {
    hide ReadLoop, ReadReady;
    if size >= 4 && writable > 0 { ReadTokens(d, e, tid, size - 4, writable - 1); }
  }

  /** The counter moves only past a token that is handed out. */
  lemma StepTokens(d: Device, s: Step)
    requires Inv(d) && Enabled(d, s) && ArenasLaid(d.endpoints)
    ensures var r := Next(d, s).d;
            r.nextToken == d.nextToken || (r.nextToken == d.nextToken + 1 && d.nextToken in r.endpoints)
  {
    hide *;
    NextIs(d, s);
    AcknowledgesIs(s);
    if s.Read? {
      ReadCommandTokens(d, s.token, s.tid, s.size, s.writable);
    } else if Acknowledges(s) {
      ExecuteIs(d, s.token, s.tid, s.command);
      AckKeepsTokens(d, s.token, s.command.strong, s.command.pointer, s.command.cookie);
    } else if s.DoOpen? {
      OpenEffect(d, s);
    } else {
      StepQuiet(d, s);
      QuietTokens(d, Next(d, s).d, FreedBy(s));
    }
  }

  lemma AckKeepsTokens(d: Device, e: nat, strong: bool, pointer: u64, cookie: u64)
    ensures NodeDoneCommand(d, e, strong, pointer, cookie).0.nextToken == d.nextToken
  {
    hide AcknowledgedNode, Collect;
  }

  lemma QuietTokens(d: Device, d': Device, f: Freed)
    requires Quiet(d, d', f)
    ensures d'.nextToken == d.nextToken
  {
  }

  /** An owner that is gone was released by an earlier step. */
  lemma {:induction false} DepartedWasReaped(states: seq<Device>, steps: seq<Step>, owner: nat, i: nat)
    requires IsRun(states, steps) && i <= |steps| && Departed(states[i], owner)
    ensures exists t :: 0 <= t < i && steps[t] == DoReap(owner)
  {
    hide *;
    RunShape(states, steps);
    if i == 0 {
      NoneDeparted(states[0], owner);
    } else {
      RunInv(states, steps, i - 1);
      RunStep(states, steps, i - 1);
      var d, s := states[i - 1], steps[i - 1];
      StepDeparts(d, s, owner);
      if s != DoReap(owner) { DepartedWasReaped(states, steps, owner, i - 1); }
    }
  }

  lemma NoneDeparted(d: Device, owner: nat)
    requires d.nextToken == 1
    ensures !Departed(d, owner)
  {
  }

  lemma StepDeparts(d: Device, s: Step, owner: nat)
    requires Inv(d) && Enabled(d, s) && ArenasLaid(d.endpoints) && Departed(Next(d, s).d, owner)
    ensures Departed(d, owner) || s == DoReap(owner)
  {
    hide Inv, Enabled, ArenasLaid, Next;
    StepTokens(d, s);
    if owner in d.endpoints { StepKeys(d, s, owner); }
  }

  /** In every run a DEAD_BINDER is delivered only after the owner's endpoint was released. */
  lemma DeathAfterRelease(states: seq<Device>, steps: seq<Step>, i: nat, x: Delivery)
    requires IsRun(states, steps) && i < |steps| && Enabled(states[i], steps[i]) && ArenasLaid(states[i].endpoints)
    requires x in Next(states[i], steps[i]).delivered && x.Notice? && NoticeWord(x.death) == BR_DEAD_BINDER
    ensures x.death.owner !in states[i].endpoints
    ensures exists t :: 0 <= t < i && steps[t] == DoReap(x.death.owner)
  {
    assert Announces(x);
    hide *;
    RunInv(states, steps, i);
    var d, s := states[i], steps[i];
    NextIs(d, s);
    if s.Read? {
      ReadCommandAnnounces(d, s.token, s.tid, s.size, s.writable);
      DepartedIs(d, x.death.owner);
      DepartedWasReaped(states, steps, x.death.owner, i);
    } else {
      OnlyReadsDeliver(d, s);
    }
  }

  lemma DepartedIs(d: Device, owner: nat)
    requires Departed(d, owner)
    ensures owner !in d.endpoints
  {
  }
}
