/** Every write command, read delivery and lifecycle request of the Binder device. */
module BinderCommands {
  import opened Base
  import opened BinderArena
  import opened BinderWire
  import opened BinderState

  // ---- reference, node and death commands ----

  /** One count of a reference goes up, or down if it can. */
  function Adjusted(r: Reference, increment: bool, strong: bool): (r': Reference)
    ensures r' == r.(strong := r'.strong, weak := r'.weak)
    ensures increment ==> r'.strong + r'.weak > 0
  {
    var count := if strong then r.strong else r.weak;
    var now := if increment then count + 1 else if count > 0 then count - 1 else 0;
    if strong then r.(strong := now) else r.(weak := now)
  }

  predicate Uncounted(r: Reference) {
    r.strong == 0 && r.weak == 0 && r.temporary == 0
  }

  /** Adjusts one count, then drops a reference with no counts left. */
  function AdjustReference(d: Device, i: nat, increment: bool, strong: bool): (Device, Status)
    requires i < |d.references|
  {
    var r := d.references[i];
    if increment && (if strong then r.strong else r.weak) == U32_LIMIT - 1 then (d, Fail(-12))
    else
      var r' := Adjusted(r, increment, strong);
      var refs := d.references[i := if Uncounted(r') then NO_REFERENCE else r'];
      (d.(references := refs, deaths := if Uncounted(r') then DropDeath(d.deaths, r.death) else d.deaths,
          nodes := Collect(d.nodes, refs, d.claims)), Done)
  }

  function ReferenceCommand(d: Device, e: nat, increment: bool, strong: bool, handle: u32): (Device, Status) {
    if increment && handle == 0 && d.manager != 0 then
      if d.manager == e then (d, Fail(-22))
      else
        var k := NodeFor(d.nodes, d.managerNode);
        if k == |d.nodes| then (d, Broken(-5))
        else
          var (refs, i) := EnsureReference(d.references, e, d.nodes[k], d.managerNode);
          if i == |refs| then (d, Fail(-12)) else AdjustReference(d.(references := refs), i, true, strong)
    else
      var i := FindReference(d.references, e, handle);
      if i == |d.references| then (d, Done) else AdjustReference(d, i, increment, strong)
  }

  function AcknowledgedNode(d: Device, node: Node, strong: bool): Node {
    var n := if strong then node.(pendingStrong := false) else node.(pendingWeak := false);
    if !n.pendingWeak && !n.pendingStrong
       && !(StrongUse(d.references, d.claims, n) && !n.hasStrong) && !(WeakUse(d.references, d.claims, n) && !n.hasWeak)
    then n.(tid := 0) else n
  }

  function NodeDoneCommand(d: Device, e: nat, strong: bool, pointer: u64, cookie: u64): (Device, Status) {
    var k := OwnedNode(d.nodes, e, pointer);
    if k == |d.nodes| || d.nodes[k].cookie != cookie then (d, Done)
    else
      var nodes := d.nodes[k := AcknowledgedNode(d, d.nodes[k], strong)];
      (d.(nodes := Collect(nodes, d.references, d.claims)), Done)
  }

  function QueueClear(death: Death, th: Thread, tid: nat): Death {
    death.(state := ClearQueued, tid := if th.looper.entered || th.looper.registered then tid else 0)
  }

  function DeliveredDeath(deaths: seq<Death>, e: nat, cookie: u64, i: nat := 0): (k: nat)
    requires i <= |deaths|
    ensures i <= k <= |deaths|
    ensures k < |deaths| ==> deaths[k].endpoint == e && deaths[k].cookie == cookie && deaths[k].state.DeathDelivered?
    decreases |deaths| - i
  {
    if i == |deaths| || (deaths[i].endpoint == e && deaths[i].cookie == cookie && deaths[i].state.DeathDelivered?)
        then i
    else DeliveredDeath(deaths, e, cookie, i + 1)
  }

  function DeathDoneCommand(d: Device, e: nat, tid: nat, cookie: u64): (Device, Status)
    requires (e, tid) in d.threads
  {
    var i := DeliveredDeath(d.deaths, e, cookie);
    if i == |d.deaths| then (d, Done)
    else if d.deaths[i].clearing then (d.(deaths := d.deaths[i := QueueClear(d.deaths[i], d.threads[(e, tid)], tid)]),
        Done)
    else (d.(deaths := d.deaths[i := d.deaths[i].(state := DeathAcknowledged)]), Done)
  }

  function RequestDeathCommand(d: Device, e: nat, handle: u32, cookie: u64): (Device, Status) {
    var r := FindReference(d.references, e, handle);
    if r == |d.references| || d.references[r].death != 0 then (d, Done)
    else
      var i := FreeDeath(d.deaths);
      if i == |d.deaths| then (d, Fail(-12))
      else
        var owner := d.references[r].owner;
        var death := Death(e, owner, cookie, 0, if owner in d.endpoints then Armed else DeathQueued, false,
            d.nextSerial);
        (d.(deaths := d.deaths[i := death], references := d.references[r := d.references[r].(death := i + 1)],
            nextSerial := d.nextSerial + 1), Done)
  }

  function ClearDeathCommand(d: Device, e: nat, tid: nat, handle: u32, cookie: u64): (Device, Status)
    requires (e, tid) in d.threads
  {
    var r := FindReference(d.references, e, handle);
    if r == |d.references| || d.references[r].death == 0 || d.references[r].death > |d.deaths| then (d, Done)
    else
      var i := d.references[r].death - 1;
      if d.deaths[i].cookie != cookie then (d, Done)
      else
        var death := d.deaths[i].(clearing := true);
        (d.(references := d.references[r := d.references[r].(death := 0)],
            deaths := d.deaths[i := if death.state.Armed? || death.state.DeathAcknowledged?
                                    then QueueClear(death, d.threads[(e, tid)], tid) else death]), Done)
  }

  // ---- transactions ----

  /** What reading and structurally validating the sender's parcel gave. */
  datatype Payload = Unreadable | Malformed | Unsupported | Objects(objects: seq<Flat>)

  datatype Lookup = Missing(errno: int) | Found(nodes: seq<Node>, nextNode: nat, index: nat)

  /** The node a sent object stands for, exporting a new one when the sender first mentions it. */
  function Resolve(d: Device, e: nat, tid: nat, item: Flat): (r: Lookup)
    ensures r.Found? ==> r.index < |r.nodes| && |r.nodes| == |d.nodes|
  {
    match item
    case Binder(flags, pointer, cookie) =>
      var k := OwnedNode(d.nodes, e, pointer);
      if k < |d.nodes| then (if d.nodes[k].cookie != cookie then Missing(-22) else Found(d.nodes, d.nextNode, k))
      else
        var c := CreateNode(d.nodes, d.nextNode, e, pointer, cookie, flags, tid, false);
        if c.NoRoom? then Missing(-12) else Found(c.nodes, d.nextNode + 1, c.index)
    case Handle(_, handle) =>
      var r := FindReference(d.references, e, handle);
      if r == |d.references| || (d.references[r].strong == 0 && d.references[r].temporary == 0) then Missing(-22)
      else
        var k := NodeFor(d.nodes, d.references[r].node);
        if k == |d.nodes| then Missing(-22) else Found(d.nodes, d.nextNode, k)
  }

  datatype Translation = Stuck(d: Device, errno: int) | Translated(d: Device, objects: seq<Flat>)

  /** One sent object: resolve, claim, and rewrite it for the receiver. */
  function TranslateOne(d: Device, e: nat, tid: nat, target: nat, buffer: nat, item: Flat): Translation {
    var found := Resolve(d, e, tid, item);
    if found.Missing? then Stuck(d, found.errno)
    else
      var d1 := d.(nodes := found.nodes, nextNode := found.nextNode);
      var node := found.nodes[found.index];
      var remote := node.owner != target;
      var claimed := AddClaim(d1.references, d1.claims, target, buffer, node, remote, d1.managerNode);
      if claimed.Unclaimable? then Stuck(d1, -12)
      else
        Translated(d1.(references := claimed.references, claims := claimed.claims),
                   [if remote then Handle(item.flags, claimed.handle)
                       else Binder(item.flags, node.pointer, node.cookie)])
  }

  function Translate(d: Device, e: nat, tid: nat, target: nat, buffer: nat, objects: seq<Flat>): (r: Translation)
    ensures r.Translated? ==> |r.objects| == |objects|
  {
    if objects == [] then Translated(d, [])
    else
      var rest := Translate(d, e, tid, target, buffer, objects[..|objects| - 1]);
      if rest.Stuck? then rest
      else
        var one := TranslateOne(rest.d, e, tid, target, buffer, objects[|objects| - 1]);
        if one.Stuck? then one else Translated(one.d, rest.objects + one.objects)
  }

  datatype Reserving = Refused(d: Device, errno: int) | Ready(d: Device, slot: Slot)

  /** A reserved buffer together with the claim that holds the target node while it is in use. */
  function Prepare(d: Device, target: nat, slot: Slot, slots: seq<Slot>, nodeIndex: nat): Translation
    requires target in d.endpoints
  {
    var d1 := d.(endpoints := d.endpoints[target := d.endpoints[target].(slots := slots)]);
    if nodeIndex < |d.nodes| && !d.nodes[nodeIndex].manager then
      var held := AddClaim(d1.references, d1.claims, target, slot.address, d.nodes[nodeIndex], false, d1.managerNode);
      if held.Unclaimable? then Stuck(d1, -12) else Translated(d1.(claims := held.claims), [])
    else Translated(d1, [])
  }

  function Rollback(d: Device, target: nat, buffer: nat): Device {
    CancelBuffer(Unclaim(d, target, buffer), target, buffer)
  }

  /** `reserve_payload`; `nodeIndex` is |nodes| for a reply. */
  function ReservePayload(d: Device, e: nat, tid: nat, target: nat, input: Packet, payload: Payload,
      nodeIndex: nat): (r: Reserving)
    requires target in d.endpoints
    requires Laid(d.endpoints[target].slots, d.endpoints[target].base, d.endpoints[target].size)
             || d.endpoints[target].watch != 3
  {
    var ep := d.endpoints[target];
    if ep.watch != 3 then Refused(d, -95)
    else if input.dataSize > ep.size || input.offsetsSize > ep.size then Refused(d, -12)
    else if input.offsetsSize % 8 != 0 then Refused(d, -22)
    else if input.offsetsSize / 8 > OBJECT_LIMIT then Refused(d, -7)
    else if payload.Unreadable? then Refused(d, -14)
    else if payload.Malformed? then Refused(d, -22)
    else if payload.Unsupported? then Refused(d, -95)
    else
      var place := Reserve(ep.slots, ep.base, ep.size, PACKET_LIMIT, input.dataSize, input.offsetsSize, 0, false);
      if place.Rejected? then Refused(d, place.errno)
      else
        Deposit(d, e, tid, target, place.slots, place.slots[place.index], nodeIndex, payload.objects)
  }

  /** Claims the target node, then each object in turn; any failure undoes the claims and the reservation. */
  function Deposit(d: Device, e: nat, tid: nat, target: nat, slots: seq<Slot>, slot: Slot, nodeIndex: nat,
      objects: seq<Flat>): (r: Reserving)
    requires target in d.endpoints
  {
    var ready := Prepare(d, target, slot, slots, nodeIndex);
    if ready.Stuck? then Refused(Rollback(ready.d, target, slot.address), ready.errno)
    else
      var sent := Translate(ready.d, e, tid, target, slot.address, objects);
      if sent.Stuck? then Refused(Rollback(sent.d, target, slot.address), sent.errno)
      else Ready(sent.d.(parcels := sent.d.parcels[(target, slot.address) := sent.objects]), slot)
  }

  function SetError(d: Device, e: nat, tid: nat, word: nat): Device
    requires (e, tid) in d.threads
  {
    d.(threads := d.threads[(e, tid) := d.threads[(e, tid)].(error := word)])
  }

  /** A refused parcel fails the call when the sender's data was at fault, otherwise the command. */
  function Refuse(d: Device, e: nat, tid: nat, errno: int): (Device, Status)
    requires (e, tid) in d.threads
  {
    if errno == -22 || errno == -14 then (SetError(d, e, tid, BR_FAILED_REPLY), Done) else (d, Fail(errno))
  }

  function Bump(threads: map<(nat, nat), Thread>, k: (nat, nat)): map<(nat, nat), Thread>
    requires k in threads
  {
    threads[k := threads[k].(completions := threads[k].completions + 1)]
  }

  function Completed(d: Device, e: nat, tid: nat, work: Work): Device
    requires (e, tid) in d.threads
  {
    d.(threads := Bump(d.threads, (e, tid)), work := d.work + [work])
  }

  ghost predicate ArenasLaid(endpoints: map<nat, Endpoint>) {
    forall e {:trigger endpoints[e]} :: e in endpoints ==>
      endpoints[e].watch == 3 || endpoints[e].slots != [] ==>
            Laid(endpoints[e].slots, endpoints[e].base, endpoints[e].size)
  }

  predicate Admissible(d: Device, th: Thread) {
    th.error == 0 && th.completions != PACKET_LIMIT && |d.work| != PACKET_LIMIT
  }

  function Addressed(input: Packet, pointer: u64, cookie: u64, pid: u32, uid: u32, slot: Slot): Packet {
    input.(target := pointer, cookie := cookie, senderPid := pid, senderEuid := uid,
           dataBuffer := slot.address, offsetsBuffer := slot.offsetsAddress)
  }

  datatype Route = Halt(d: Device, status: Status) | To(target: nat, nodeIndex: nat, slot: nat)

  /** Where a call goes: handle zero names the manager, any other handle needs a strong reference. */
  function RouteCall(d: Device, e: nat, tid: nat, input: Packet): (r: Route)
    requires (e, tid) in d.threads && e in d.endpoints
    ensures r.To? ==> r.target in d.endpoints && r.nodeIndex < |d.nodes| && d.nodes[r.nodeIndex].owner == r.target
                      && d.nodes[r.nodeIndex].id != 0 && !d.nodes[r.nodeIndex].dead && r.target != e
    ensures r.To? && input.flags % 2 == 0 ==>
              r.slot < |d.transactions| && d.transactions[r.slot].id == 0 && d.nextTransaction != U64_LIMIT
              && d.threads[(e, tid)].incoming == 0 && d.threads[(e, tid)].outgoing == 0
  {
    var oneway := input.flags % 2 == 1;
    if !oneway && (d.threads[(e, tid)].incoming != 0 || d.threads[(e, tid)].outgoing != 0) then Halt(d, Fail(-95))
    else
      var handle := input.target % U32_LIMIT;
      var r := FindReference(d.references, e, handle);
      var usable := r < |d.references| && (d.references[r].strong != 0 || d.references[r].temporary != 0);
      var k := if handle == 0 then NodeFor(d.nodes, d.managerNode)
               else if usable then NodeFor(d.nodes, d.references[r].node) else |d.nodes|;
      if handle != 0 && k == |d.nodes| then Halt(SetError(d, e, tid, BR_FAILED_REPLY), Done)
      else if k == |d.nodes| || d.nodes[k].dead || d.nodes[k].owner !in d.endpoints then
        Halt(SetError(d, e, tid, BR_DEAD_REPLY), Done)
      else
        var target := d.nodes[k].owner;
        if target == e || (handle == 0 && d.endpoints[target].pid == d.endpoints[e].pid) then
          Halt(SetError(d, e, tid, BR_FAILED_REPLY), Done)
        else if oneway then To(target, k, |d.transactions|)
        else if d.nextTransaction == U64_LIMIT then Halt(d, Fail(-12))
        else
          var slot := FindTransaction(d.transactions, 0);
          if slot == |d.transactions| then Halt(d, Fail(-12)) else To(target, k, slot)
  }

  /** BC_TRANSACTION. */
  function CallCommand(d: Device, e: nat, tid: nat, input: Packet, payload: Payload): (Device, Status)
    requires (e, tid) in d.threads && e in d.endpoints && ArenasLaid(d.endpoints)
  {
    if input.flags !in {0, 1, 16, 17} then (d, Fail(-95))
    else if !Admissible(d, d.threads[(e, tid)]) then (d, Fail(-12))
    else
      var route := RouteCall(d, e, tid, input);
      if route.Halt? then (route.d, route.status)
      else
        var node := d.nodes[route.nodeIndex];
        var oneway := input.flags % 2 == 1;
        var ready := ReservePayload(d, e, tid, route.target, input, payload, route.nodeIndex);
        ReservePayloadKeeps(d, e, tid, route.target, input, payload, route.nodeIndex);
        if ready.Refused? then Refuse(ready.d, e, tid, ready.errno)
        else
          var sender := d.endpoints[e];
          var value := Addressed(input, node.pointer, node.cookie, if oneway then 0 else sender.pid, sender.uid,
              ready.slot);
          (if oneway then AcceptOneWay(ready.d, e, tid, route.target, route.nodeIndex, value)
           else AcceptCall(ready.d, e, tid, route.target, route.slot, value), Done)
  }

  function AcceptOneWay(d: Device, e: nat, tid: nat, target: nat, nodeIndex: nat, value: Packet): Device
    requires (e, tid) in d.threads && nodeIndex < |d.nodes|
  {
    var node := d.nodes[nodeIndex];
    var node' := if node.asyncBuffer == 0 then node.(asyncBuffer := value.dataBuffer) else node;
    Completed(d.(nodes := d.nodes[nodeIndex := node']), e, tid, Work(target, 0, BR_TRANSACTION, 0, node.id, value))
  }

  function AcceptCall(d: Device, e: nat, tid: nat, target: nat, slot: nat, value: Packet): Device
    requires (e, tid) in d.threads && slot < |d.transactions|
  {
    var id := d.nextTransaction;
    var d1 := d.(transactions := d.transactions[slot := Transaction(id, e, target, tid, 0)], nextTransaction := id + 1,
                 threads := d.threads[(e, tid) := d.threads[(e, tid)].(outgoing := id)]);
    Completed(d1, e, tid, Work(target, 0, BR_TRANSACTION, id, 0, value))
  }

  /** BC_REPLY. */
  function ReplyCommand(d: Device, e: nat, tid: nat, input: Packet, payload: Payload): (Device, Status)
    requires (e, tid) in d.threads && e in d.endpoints && ArenasLaid(d.endpoints)
  {
    var th := d.threads[(e, tid)];
    if input.flags !in {0, 16} then (d, Fail(-95))
    else if !Admissible(d, th) then (d, Fail(-12))
    else if th.deadReply then (d.(threads := d.threads[(e, tid) := th.(deadReply := false, error := BR_DEAD_REPLY)]),
        Done)
    else
      var slot := if th.incoming == 0 then |d.transactions| else FindTransaction(d.transactions, th.incoming);
      if slot == |d.transactions| then (d, if th.incoming == 0 then Fail(-95) else Broken(-95))
      else if th.outgoing != 0 then (d, Broken(-95))
      else
        var t := d.transactions[slot];
        var caller := (t.source, t.sourceTid);
        if t.source !in d.endpoints || caller !in d.threads || d.threads[caller].outgoing != t.id then (d, Broken(-95))
        else
          var ready := ReservePayload(d, e, tid, t.source, input, payload, |d.nodes|);
          ReservePayloadKeeps(d, e, tid, t.source, input, payload, |d.nodes|);
          if ready.Refused? then Refuse(ready.d, e, tid, ready.errno)
          else
            var value := Addressed(input, 0, 0, 0, d.endpoints[e].uid, ready.slot);
            (AcceptReply(ready.d, e, tid, slot, value), Done)
  }

  function AcceptReply(d: Device, e: nat, tid: nat, slot: nat, value: Packet): Device
    requires (e, tid) in d.threads && slot < |d.transactions|
    requires (d.transactions[slot].source, d.transactions[slot].sourceTid) in d.threads
  {
    var t := d.transactions[slot];
    var caller := (t.source, t.sourceTid);
    var answered := d.threads[(e, tid) := d.threads[(e, tid)].(incoming := 0)];
    var d1 := d.(threads := answered[caller := answered[caller].(outgoing := 0)],
                 transactions := d.transactions[slot := t.(id := 0)]);
    Completed(d1, e, tid, Work(t.source, t.sourceTid, BR_REPLY, 0, 0, value))
  }

  // ---- what building a parcel leaves alone ----

  /** Tables that neither claims nor buffers touch. */
  predicate SameCalls(d: Device, d': Device) {
    && d'.threads == d.threads && d'.transactions == d.transactions && d'.work == d.work
    && d'.nextTransaction == d.nextTransaction && d'.nextToken == d.nextToken && d'.nextSerial == d.nextSerial
    && d'.manager == d.manager && d'.managerNode == d.managerNode && d'.managerUid == d.managerUid
    && d'.endpointLimit == d.endpointLimit && d'.threadLimit == d.threadLimit
    && d'.endpoints.Keys == d.endpoints.Keys && |d'.nodes| == |d.nodes|
    && |d'.references| == |d.references| && |d'.deaths| == |d.deaths| && |d'.claims| == |d.claims|
    && (forall e {:trigger d'.endpoints[e]} :: e in d.endpoints ==>
         d'.endpoints[e].(slots := d.endpoints[e].slots) == d.endpoints[e])
  }

  lemma {:induction false} TranslateKeeps(d: Device, e: nat, tid: nat, target: nat, buffer: nat, objects: seq<Flat>)
    ensures SameCalls(d, Translate(d, e, tid, target, buffer, objects).d)
    ensures Translate(d, e, tid, target, buffer, objects).d.endpoints == d.endpoints
    ensures Translate(d, e, tid, target, buffer, objects).d.parcels == d.parcels
    ensures Translate(d, e, tid, target, buffer, objects).d.deaths == d.deaths
  {
    if objects != [] {
      TranslateKeeps(d, e, tid, target, buffer, objects[..|objects| - 1]);
    }
  }

  lemma SameCallsTransitive(a: Device, b: Device, c: Device)
    requires SameCalls(a, b) && SameCalls(b, c)
    ensures SameCalls(a, c)
  {
    forall e | e in a.endpoints ensures c.endpoints[e].(slots := a.endpoints[e].slots) == a.endpoints[e] {
      assert b.endpoints[e].(slots := a.endpoints[e].slots) == a.endpoints[e];
    }
  }

  lemma PrepareKeeps(d: Device, target: nat, slot: Slot, slots: seq<Slot>, nodeIndex: nat)
    requires target in d.endpoints
    ensures SameCalls(d, Prepare(d, target, slot, slots, nodeIndex).d)
  {
  }

  lemma CancelBufferKeeps(d: Device, e: nat, buffer: nat)
    ensures SameCalls(d, CancelBuffer(d, e, buffer))
  {
  }

  lemma RollbackKeeps(d: Device, target: nat, buffer: nat)
    ensures SameCalls(d, Rollback(d, target, buffer))
  {
    CancelBufferKeeps(Unclaim(d, target, buffer), target, buffer);
    SameCallsTransitive(d, Unclaim(d, target, buffer), Rollback(d, target, buffer));
  }

  lemma DepositKeeps(d: Device, e: nat, tid: nat, target: nat, slots: seq<Slot>, slot: Slot, nodeIndex: nat,
      objects: seq<Flat>)
    requires target in d.endpoints
    ensures SameCalls(d, Deposit(d, e, tid, target, slots, slot, nodeIndex, objects).d)
  {
    var ready := Prepare(d, target, slot, slots, nodeIndex).d;
    var sent := Translate(ready, e, tid, target, slot.address, objects).d;
    PrepareKeeps(d, target, slot, slots, nodeIndex);
    TranslateKeeps(ready, e, tid, target, slot.address, objects);
    SameCallsTransitive(d, ready, sent);
    forall x | x == ready || x == sent ensures SameCalls(d, Rollback(x, target, slot.address)) {
      RollbackKeeps(x, target, slot.address);
      SameCallsTransitive(d, x, Rollback(x, target, slot.address));
    }
  }

  lemma ReservePayloadKeeps(d: Device, e: nat, tid: nat, target: nat, input: Packet, payload: Payload, nodeIndex: nat)
    requires target in d.endpoints
    requires Laid(d.endpoints[target].slots, d.endpoints[target].base, d.endpoints[target].size)
             || d.endpoints[target].watch != 3
    ensures SameCalls(d, ReservePayload(d, e, tid, target, input, payload, nodeIndex).d)
  {
    var r := ReservePayload(d, e, tid, target, input, payload, nodeIndex);
    if r.d != d {
      var ep := d.endpoints[target];
      var place := Reserve(ep.slots, ep.base, ep.size, PACKET_LIMIT, input.dataSize, input.offsetsSize, 0, false);
      DepositKeeps(d, e, tid, target, place.slots, place.slots[place.index], nodeIndex, payload.objects);
    }
  }

  // ---- freeing a received buffer ----

  function HeldAsync(nodes: seq<Node>, owner: nat, buffer: nat, i: nat := 0): (k: nat)
    requires i <= |nodes|
    ensures i <= k <= |nodes|
    ensures k < |nodes| ==> nodes[k].owner == owner && nodes[k].asyncBuffer == buffer
    ensures forall j :: i <= j < k ==> !(nodes[j].owner == owner && nodes[j].asyncBuffer == buffer)
    decreases |nodes| - i
  {
    if i == |nodes| || (nodes[i].owner == owner && nodes[i].asyncBuffer == buffer) then i
        else HeldAsync(nodes, owner, buffer, i + 1)
  }

  /** The first queued one-way parcel for a node, or the queue length. */
  function NextAsync(work: seq<Work>, node: nat, i: nat := 0): (k: nat)
    requires i <= |work|
    ensures i <= k <= |work|
    ensures k < |work| ==> work[k].asyncNode == node
    ensures forall j :: i <= j < k ==> work[j].asyncNode != node
    decreases |work| - i
  {
    if i == |work| || work[i].asyncNode == node then i else NextAsync(work, node, i + 1)
  }

  function AdvanceAsync(nodes: seq<Node>, work: seq<Work>, owner: nat, buffer: nat): (r: seq<Node>)
    ensures |r| == |nodes|
  {
    var k := HeldAsync(nodes, owner, buffer);
    if k == |nodes| then nodes
    else
      var j := NextAsync(work, nodes[k].id);
      nodes[k := nodes[k].(asyncBuffer := if j < |work| then work[j].value.dataBuffer else 0)]
  }

  /** BC_FREE_BUFFER. */
  function FreeCommand(d: Device, e: nat, buffer: nat): (Device, Status)
    requires e in d.endpoints
  {
    var (slots, code) := Remove(d.endpoints[e].slots, buffer, true);
    if code != 0 then (d, Fail(-95))
    else
      var d1 := d.(endpoints := d.endpoints[e := d.endpoints[e].(slots := slots)], parcels := d.parcels - {(e, buffer)},
                   nodes := AdvanceAsync(d.nodes, d.work, e, buffer));
      (Unclaim(d1, e, buffer), Done)
  }

  // ---- reading ----

  predicate AcceptsProcessWork(th: Thread) {
    th.incoming == 0 && th.outgoing == 0 && !th.deadReply && th.looper.entered && !th.looper.invalid
        && !th.looper.exited
  }

  /** A one-way parcel is deliverable only while it is its node's current one. */
  predicate Deliverable(d: Device, w: Work, e: nat, tid: nat, th: Thread) {
    && (w.asyncNode != 0 ==>
         var k := NodeFor(d.nodes, w.asyncNode); k < |d.nodes| && d.nodes[k].asyncBuffer == w.value.dataBuffer)
    && w.endpoint == e && (w.tid == tid || (w.tid == 0 && AcceptsProcessWork(th)))
  }

  function WorkFor(d: Device, e: nat, tid: nat, th: Thread, i: nat := 0): (k: nat)
    requires i <= |d.work|
    ensures i <= k <= |d.work|
    ensures k < |d.work| ==> Deliverable(d, d.work[k], e, tid, th)
    ensures forall j :: i <= j < k ==> !Deliverable(d, d.work[j], e, tid, th)
    decreases |d.work| - i
  {
    if i == |d.work| || Deliverable(d, d.work[i], e, tid, th) then i else WorkFor(d, e, tid, th, i + 1)
  }

  predicate Notifiable(death: Death, e: nat, tid: nat, th: Thread) {
    death.endpoint == e && (death.state.DeathQueued? || death.state.ClearQueued?)
    && (death.tid == tid || (death.tid == 0 && AcceptsProcessWork(th)))
  }

  function DeathFor(deaths: seq<Death>, e: nat, tid: nat, th: Thread, i: nat := 0): (k: nat)
    requires i <= |deaths|
    ensures i <= k <= |deaths|
    ensures k < |deaths| ==> Notifiable(deaths[k], e, tid, th)
    ensures forall j :: i <= j < k ==> !Notifiable(deaths[j], e, tid, th)
    decreases |deaths| - i
  {
    if i == |deaths| || Notifiable(deaths[i], e, tid, th) then i else DeathFor(deaths, e, tid, th, i + 1)
  }

  predicate Callable(d: Device, node: Node, e: nat, tid: nat, th: Thread) {
    node.id != 0 && node.owner == e && !node.dead && !node.manager
    && (node.tid == tid || (node.tid == 0 && AcceptsProcessWork(th)))
    && NodeCommand(d.references, d.claims, node) != 0
  }

  function NodeEventFor(d: Device, e: nat, tid: nat, th: Thread, i: nat := 0): (k: nat)
    requires i <= |d.nodes|
    ensures i <= k <= |d.nodes|
    ensures k < |d.nodes| ==> Callable(d, d.nodes[k], e, tid, th)
    ensures forall j :: i <= j < k ==> !Callable(d, d.nodes[j], e, tid, th)
    decreases |d.nodes| - i
  {
    if i == |d.nodes| || Callable(d, d.nodes[i], e, tid, th) then i else NodeEventFor(d, e, tid, th, i + 1)
  }

  /** One return word with its payload, as the reader sees it. */
  datatype Delivery =
    | ErrorWord(word: nat)
    | Callback(word: nat, node: Node)
    | Complete
    | Notice(death: Death)
    | Parcel(work: Work)

  function Length(x: Delivery): nat {
    match x
    case ErrorWord(_) => 4
    case Complete => 4
    case Callback(_, _) => 20
    case Notice(_) => 12
    case Parcel(_) => 68
  }

  datatype Outcome = Outcome(d: Device, status: Status, delivered: seq<Delivery>)

  function CalledNode(node: Node, word: nat): Node {
    if word == BR_INCREFS then node.(hasWeak := true, pendingWeak := true)
    else if word == BR_ACQUIRE then node.(hasStrong := true, pendingStrong := true)
    else if word == BR_RELEASE then node.(hasStrong := false)
    else node.(hasWeak := false)
  }

  function DeliverNode(d: Device, k: nat): Outcome
    requires k < |d.nodes|
  {
    var word := NodeCommand(d.references, d.claims, d.nodes[k]);
    var nodes := d.nodes[k := CalledNode(d.nodes[k], word)];
    Outcome(d.(nodes := Collect(nodes, d.references, d.claims)), Done, [Callback(word, d.nodes[k])])
  }

  function DeliverDeath(d: Device, i: nat): Outcome
    requires i < |d.deaths|
  {
    var death := d.deaths[i];
    var after := if death.state.ClearQueued? then NO_DEATH else death.(state := DeathDelivered);
    Outcome(d.(deaths := d.deaths[i := after]), Done, [Notice(death)])
  }

  function DeliverWork(d: Device, e: nat, tid: nat, j: nat): Outcome
    requires e in d.endpoints && (e, tid) in d.threads && j < |d.work|
  {
    var w := d.work[j];
    var (slots, code) := Publish(d.endpoints[e].slots, w.value.dataBuffer);
    if code != 0 then Outcome(d, Broken(-5), [Parcel(w)])
    else
      var d1 := d.(endpoints := d.endpoints[e := d.endpoints[e].(slots := slots)], work := RemoveAt(d.work, j));
      if w.transaction == 0 then Outcome(d1, Done, [Parcel(w)])
      else
        var slot := FindTransaction(d.transactions, w.transaction);
        if slot == |d.transactions| then Outcome(d1, Broken(-5), [Parcel(w)])
        else
          Outcome(d1.(transactions := d.transactions[slot := d.transactions[slot].(targetTid := tid)],
                      threads := d.threads[(e, tid) := d.threads[(e, tid)].(incoming := w.transaction)]), Done,
                          [Parcel(w)])
  }

  /** The next thing owed to a reader, applied; nothing is delivered when nothing is owed. */
  function DeliverNext(d: Device, e: nat, tid: nat): (r: Outcome)
    requires e in d.endpoints && (e, tid) in d.threads
    ensures |r.delivered| <= 1
    ensures r.delivered == [] ==> r.d == d && r.status.Done?
  {
    var th := d.threads[(e, tid)];
    if th.error != 0 then
      Outcome(d.(threads := d.threads[(e, tid) := th.(error := 0)]), Done, [ErrorWord(th.error)])
    else
      var k := NodeEventFor(d, e, tid, th);
      if k < |d.nodes| then DeliverNode(d, k)
      else if th.completions != 0 then
        Outcome(d.(threads := d.threads[(e, tid) := th.(completions := th.completions - 1)]), Done, [Complete])
      else
        var j := WorkFor(d, e, tid, th);
        var i := DeathFor(d.deaths, e, tid, th);
        if j < |d.work| then DeliverWork(d, e, tid, j)
        else if i < |d.deaths| then DeliverDeath(d, i)
        else Outcome(d, Done, [])
  }

  predicate EndsRead(x: Delivery) {
    x.Notice? && !x.death.state.ClearQueued?
  }

  /** The loop of `read_work`: `room` bytes remain and the reader's memory takes `writable` more frames. */
  function ReadLoop(d: Device, e: nat, tid: nat, room: nat, writable: nat): (r: Outcome)
    requires e in d.endpoints && (e, tid) in d.threads
    decreases room
  {
    var next := DeliverNext(d, e, tid);
    if room < 4 || next.delivered == [] || Length(next.delivered[0]) > room then Outcome(d, Done, [])
    else if writable == 0 then Outcome(d, Fail(-14), [])
    else if !next.status.Done? || EndsRead(next.delivered[0]) then next
    else
      DeliverNextKeeps(d, e, tid);
      var rest := ReadLoop(next.d, e, tid, room - Length(next.delivered[0]), writable - 1);
      Outcome(rest.d, rest.status, next.delivered + rest.delivered)
  }

  lemma DeliverNextKeeps(d: Device, e: nat, tid: nat)
    requires e in d.endpoints && (e, tid) in d.threads
    ensures DeliverNext(d, e, tid).d.threads.Keys == d.threads.Keys
    ensures DeliverNext(d, e, tid).d.endpoints.Keys == d.endpoints.Keys
  {
  }

  predicate ReadReady(d: Device, e: nat, tid: nat)
    requires (e, tid) in d.threads && e in d.endpoints
  {
    d.threads[(e, tid)].initialReturn || DeliverNext(d, e, tid).delivered != []
  }

  /** The read half of BINDER_WRITE_READ, after its leading BR_NOOP. */
  function ReadCommand(d: Device, e: nat, tid: nat, size: nat, writable: nat): Outcome
    requires e in d.endpoints && (e, tid) in d.threads
  {
    if size < 4 then Outcome(d, Fail(-95), [])
    else if size > 65536 then Outcome(d, Fail(-7), [])
    else if writable == 0 then Outcome(d, Fail(-14), [])
    else if !ReadReady(d, e, tid) then Outcome(d, Fail(-11), [])
    else ReadLoop(d, e, tid, size - 4, writable - 1)
  }

  // ---- process and thread lifecycle ----

  function ReleasedDeath(d: Device, token: nat, k: nat): Death
    requires k < |d.deaths|
  {
    var death := d.deaths[k];
    if death.endpoint == token || (exists i ::
          0 <= i < |d.references| && d.references[i].endpoint == token && d.references[i].death == k + 1)
    then NO_DEATH
    else if death.endpoint != 0 && death.owner == token && death.state.Armed? then death.(state := DeathQueued)
    else death
  }

  function ReleasedNode(node: Node, token: nat): Node {
    if node.id != 0 && node.owner == token
    then node.(dead := true, hasStrong := false, hasWeak := false, pendingStrong := false, pendingWeak := false)
    else node
  }

  /** `release_references`. */
  function ReleaseReferences(d: Device, token: nat): Device {
    var refs := seq(|d.references|, i requires 0 <= i < |d.references| =>
                    if d.references[i].endpoint == token then NO_REFERENCE else d.references[i]);
    var deaths := seq(|d.deaths|, k requires 0 <= k < |d.deaths| => ReleasedDeath(d, token, k));
    var nodes := seq(|d.nodes|, k requires 0 <= k < |d.nodes| => ReleasedNode(d.nodes[k], token));
    d.(references := refs, deaths := deaths, nodes := Collect(nodes, refs, d.claims))
  }

  /** The entries of every other process. */
  function Without<V>(entries: map<(nat, nat), V>, token: nat): map<(nat, nat), V> {
    map k | k in entries && k.0 != token :: entries[k]
  }

  function Forget(d: Device, token: nat): Device {
    d.(endpoints := d.endpoints - {token},
       threads := Without(d.threads, token), parcels := Without(d.parcels, token),
       manager := if d.manager == token then 0 else d.manager,
       managerNode := if d.manager == token then 0 else d.managerNode)
  }

  /** `release_endpoint`. */
  function ReleaseEndpoint(d: Device, token: nat): Device {
    Forget(Unclaim(ReleaseReferences(Cancel(d, token, 0), token), token, 0), token)
  }

  /** A node a leaving thread was to be told about goes to any thread. */
  function LeftNode(node: Node, e: nat, tid: nat): Node {
    if node.id != 0 && node.owner == e && node.tid == tid then node.(tid := 0) else node
  }

  /** A notice addressed to a leaving thread goes with it. */
  function LeftDeath(death: Death, e: nat, tid: nat): Death {
    if death.endpoint == e && death.tid == tid then NO_DEATH else death
  }

  /** BINDER_THREAD_EXIT. */
  function ThreadExit(d: Device, e: nat, tid: nat): Device {
    var d1 := Cancel(d, e, tid);
    d1.(nodes := seq(|d1.nodes|, k requires 0 <= k < |d1.nodes| => LeftNode(d1.nodes[k], e, tid)),
        deaths := seq(|d1.deaths|, k requires 0 <= k < |d1.deaths| => LeftDeath(d1.deaths[k], e, tid)),
        threads := d1.threads - {(e, tid)})
  }

  function SetManager(d: Device, e: nat, pointer: u64, cookie: u64, flags: u32): (Device, Status)
    requires e in d.endpoints
  {
    if d.manager != 0 then (d, Fail(-16))
    else if d.managerUid.Some? && d.managerUid.value != d.endpoints[e].uid then (d, Fail(-1))
    else if OwnedNode(d.nodes, e, pointer) < |d.nodes| then (d, Fail(-95))
    else
      var c := CreateNode(d.nodes, d.nextNode, e, pointer, cookie, flags, 0, true);
      if c.NoRoom? then (d, Fail(-12))
      else (d.(nodes := c.nodes, nextNode := d.nextNode + 1, manager := e, managerNode := d.nextNode,
               managerUid := Some(d.endpoints[e].uid)), Done)
  }

  function Open(d: Device, pid: u32, uid: u32): (Device, Status) {
    if d.nextToken == U64_LIMIT || |d.endpoints| >= d.endpointLimit then (d, Fail(-24))
    else (d.(endpoints := d.endpoints[d.nextToken := Endpoint(true, pid, uid, false, 0, 0, 0, [])],
        nextToken := d.nextToken + 1), Done)
  }

  // ---- the device as a state machine ----

  datatype Command =
    | EnterLooper | RegisterLooper | ExitLooper
    | Call(input: Packet, payload: Payload)
    | Reply(input: Packet, payload: Payload)
    | FreeBuffer(buffer: u64)
    | AdjustCount(increment: bool, strong: bool, handle: u32)
    | NodeDone(strong: bool, pointer: u64, cookie: u64)
    | RequestDeath(handle: u32, cookie: u64)
    | ClearDeath(handle: u32, cookie: u64)
    | DeathDone(cookie: u64)

  /** Registering is never asked for, so it makes a looper invalid, before or after it enters. */
  function Looped(looper: Looper, c: Command): Looper {
    if c.EnterLooper? then looper.(entered := true, invalid := looper.invalid || looper.registered)
    else if c.RegisterLooper? then looper.(registered := true, invalid := true)
    else looper.(exited := true)
  }

  function SetLooper(d: Device, e: nat, tid: nat, looper: Looper): Device
    requires (e, tid) in d.threads
  {
    d.(threads := d.threads[(e, tid) := d.threads[(e, tid)].(looper := looper)])
  }

  function Execute(d: Device, e: nat, tid: nat, c: Command): (Device, Status)
    requires e in d.endpoints && (e, tid) in d.threads && ArenasLaid(d.endpoints)
  {
    match c
    case EnterLooper => (SetLooper(d, e, tid, Looped(d.threads[(e, tid)].looper, c)), Done)
    case RegisterLooper => (SetLooper(d, e, tid, Looped(d.threads[(e, tid)].looper, c)), Done)
    case ExitLooper => (SetLooper(d, e, tid, Looped(d.threads[(e, tid)].looper, c)), Done)
    case Call(input, payload) => CallCommand(d, e, tid, input, payload)
    case Reply(input, payload) => ReplyCommand(d, e, tid, input, payload)
    case FreeBuffer(buffer) => FreeCommand(d, e, buffer)
    case AdjustCount(increment, strong, handle) => ReferenceCommand(d, e, increment, strong, handle)
    case NodeDone(strong, pointer, cookie) => NodeDoneCommand(d, e, strong, pointer, cookie)
    case RequestDeath(handle, cookie) => RequestDeathCommand(d, e, handle, cookie)
    case ClearDeath(handle, cookie) => ClearDeathCommand(d, e, tid, handle, cookie)
    case DeathDone(cookie) => DeathDoneCommand(d, e, tid, cookie)
  }

  /** What can happen next: calls into the device, and changes of a mapping the device only observes. */
  datatype Step =
    | DoOpen(pid: u32, uid: u32)
    | DoClose(token: nat)
    | DoMap(token: nat, base: nat, size: nat)
    | WatchChanged(token: nat, watch: nat)
    | DoReap(token: nat)
    | Admit(token: nat, tid: nat)
    | Settle(token: nat, tid: nat)
    | Write(token: nat, tid: nat, command: Command)
    | Read(token: nat, tid: nat, size: nat, writable: nat)
    | Exit(token: nat, tid: nat)
    | BecomeManager(token: nat, pointer: u64, cookie: u64, flags: u32)

  /** The environment's side: a mapping is page aligned and fits, its watch only loses bits, closed endpoints make no
      calls. */
  predicate Enabled(d: Device, s: Step) {
    match s
    case DoOpen(pid, uid) => true
    case DoClose(token) => token in d.endpoints
    case DoMap(token, base, size) =>
      token in d.endpoints && d.endpoints[token].isOpen && !d.endpoints[token].mappedOnce
      && base > 0 && base % 4096 == 0 && size > 0 && size % 4096 == 0 && base + size < U64_LIMIT
    case WatchChanged(token, watch) => token in d.endpoints && watch < d.endpoints[token].watch && watch <= 1
    case DoReap(token) => token in d.endpoints && !d.endpoints[token].isOpen && d.endpoints[token].watch == 0
    case Admit(token, tid) => token in d.endpoints && tid > 0
    case Settle(token, tid) => (token, tid) in d.threads
    case Write(token, tid, c) => token in d.endpoints && d.endpoints[token].isOpen && (token, tid) in d.threads
    case Read(token, tid, size, writable) => token in d.endpoints && d.endpoints[token].isOpen
        && (token, tid) in d.threads
    case Exit(token, tid) => token in d.endpoints && d.endpoints[token].isOpen && (token, tid) in d.threads
    case BecomeManager(token, pointer, cookie, flags) => token in d.endpoints && d.endpoints[token].isOpen
  }

  function Idle(r: (Device, Status)): Outcome {
    Outcome(r.0, r.1, [])
  }

  function Next(d: Device, s: Step): Outcome
    requires Enabled(d, s) && ArenasLaid(d.endpoints)
  {
    match s
    case DoOpen(pid, uid) => Idle(Open(d, pid, uid))
    case DoClose(token) => Outcome(d.(endpoints := d.endpoints[token := d.endpoints[token].(isOpen := false)]), Done,
        [])
    case DoMap(token, base, size) =>
      Outcome(d.(endpoints := d.endpoints[token :=
            d.endpoints[token].(mappedOnce := true, watch := 3, base := base, size := size)]), Done, [])
    case WatchChanged(token, watch) =>
      Outcome(d.(endpoints := d.endpoints[token := d.endpoints[token].(watch := watch)]), Done, [])
    case DoReap(token) => Outcome(ReleaseEndpoint(d, token), Done, [])
    case Admit(token, tid) =>
      if (token, tid) in d.threads then Outcome(d, Done, [])
      else if |set k | k in d.threads && k.0 == token| >= d.threadLimit then Outcome(d, Fail(-12), [])
      else Outcome(d.(threads := d.threads[(token, tid) := NEW_THREAD]), Done, [])
    case Settle(token, tid) =>
      Outcome(d.(threads := d.threads[(token, tid) := d.threads[(token, tid)].(initialReturn := false)]), Done, [])
    case Write(token, tid, c) => Idle(Execute(d, token, tid, c))
    case Read(token, tid, size, writable) => ReadCommand(d, token, tid, size, writable)
    case Exit(token, tid) => Outcome(ThreadExit(d, token, tid), Done, [])
    case BecomeManager(token, pointer, cookie, flags) => Idle(SetManager(d, token, pointer, cookie, flags))
  }

  function Fresh(endpointLimit: nat, threadLimit: nat): Device {
    Device(map[], map[], map[], endpointLimit, threadLimit, 1, 1, 1, 0, 0, None, 0,
           seq(PACKET_LIMIT, _ => NO_TRANSACTION), [], seq(PACKET_LIMIT, _ => NO_REFERENCE),
           seq(PACKET_LIMIT, _ => NO_DEATH), seq(PACKET_LIMIT, _ => NO_NODE), seq(CLAIM_LIMIT, _ => NO_CLAIM))
  }
}
