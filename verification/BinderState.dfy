/** The Binder device's tables and the operations every command is made of. */
module BinderState {
  import opened Base
  import opened BinderArena
  import opened BinderWire

  const PACKET_LIMIT: nat := 1024
  const OBJECT_LIMIT: nat := 64
  const CLAIM_LIMIT: nat := 4096

  datatype Looper = Looper(entered: bool, registered: bool, exited: bool, invalid: bool)
  datatype Thread = Thread(looper: Looper, incoming: nat, outgoing: nat, error: nat, completions: nat,
                           deadReply: bool, initialReturn: bool)
  /** `watch` holds the passive mapping bits: 1 LIVE, 3 LIVE and INTACT, 0 unmapped. */
  datatype Endpoint = Endpoint(isOpen: bool, pid: u32, uid: u32, mappedOnce: bool, watch: nat,
                               base: nat, size: nat, slots: seq<Slot>)
  datatype Transaction = Transaction(id: nat, source: nat, target: nat, sourceTid: nat, targetTid: nat)
  datatype Work = Work(endpoint: nat, tid: nat, command: ParcelWord, transaction: nat, asyncNode: nat, value: Packet)
  datatype Reference = Reference(endpoint: nat, owner: nat, node: nat, handle: u32,
                                 strong: nat, weak: nat, temporary: nat, death: nat)
  datatype Node = Node(id: nat, owner: nat, pointer: u64, cookie: u64, flags: u32, tid: nat, manager: bool, dead: bool,
                       hasStrong: bool, hasWeak: bool, pendingStrong: bool, pendingWeak: bool, asyncBuffer: nat)
  datatype Claim = Claim(endpoint: nat, buffer: nat, node: nat, handle: u32, remote: bool)
  datatype DeathState = Armed | DeathQueued | DeathDelivered | DeathAcknowledged | ClearQueued
  /** `serial` numbers the subscriptions so that a run can tell reuses of a slot apart. */
  datatype Death = Death(endpoint: nat, owner: nat, cookie: u64, tid: nat, state: DeathState, clearing: bool,
      serial: nat)

  /** An object in a parcel, as its 24 bytes read. */
  datatype Flat = Binder(flags: u32, pointer: u64, cookie: u64) | Handle(flags: u32, handle: u32)

  const NO_TRANSACTION := Transaction(0, 0, 0, 0, 0)
  const NO_REFERENCE := Reference(0, 0, 0, 0, 0, 0, 0, 0)
  const NO_NODE := Node(0, 0, 0, 0, 0, 0, false, false, false, false, false, false, 0)
  const NO_CLAIM := Claim(0, 0, 0, 0, false)
  const NO_DEATH := Death(0, 0, 0, 0, Armed, false, 0)
  const NEW_THREAD := Thread(Looper(false, false, false, false), 0, 0, 0, 0, false, true)

  /** Free slots hold the NO_ values. `endpoints` and `threads` are searched by token and by token and TID only.
      `parcels` are the objects the driver has written into each reserved buffer. A counter equal to
      U64_LIMIT stands for the wrapped zero that stops allocation. */
  datatype Device = Device(endpoints: map<nat, Endpoint>, threads: map<(nat, nat), Thread>,
                           parcels: map<(nat, nat), seq<Flat>>,
                           endpointLimit: nat, threadLimit: nat, nextToken: nat, nextTransaction: nat, nextNode: nat,
                           manager: nat, managerNode: nat, managerUid: Option<nat>, nextSerial: nat,
                           transactions: seq<Transaction>, work: seq<Work>, references: seq<Reference>,
                           deaths: seq<Death>, nodes: seq<Node>, claims: seq<Claim>)

  /** `Broken` marks the returns the driver reserves for inconsistent tables. */
  datatype Status = Done | Fail(errno: int) | Broken(errno: int)

  // ---- searches ----

  function FindTransaction(ts: seq<Transaction>, id: nat, i: nat := 0): (k: nat)
    requires i <= |ts|
    ensures i <= k <= |ts|
    ensures k < |ts| ==> ts[k].id == id
    ensures forall j :: i <= j < k ==> ts[j].id != id
    decreases |ts| - i
  {
    if i == |ts| || ts[i].id == id then i else FindTransaction(ts, id, i + 1)
  }

  function FindReference(refs: seq<Reference>, e: nat, handle: u32, i: nat := 0): (k: nat)
    requires i <= |refs|
    ensures i <= k <= |refs|
    ensures k < |refs| ==> refs[k].endpoint == e && refs[k].handle == handle
    ensures forall j :: i <= j < k ==> !(refs[j].endpoint == e && refs[j].handle == handle)
    decreases |refs| - i
  {
    if i == |refs| || (refs[i].endpoint == e && refs[i].handle == handle) then i
        else FindReference(refs, e, handle, i + 1)
  }

  function FindImport(refs: seq<Reference>, e: nat, node: nat, i: nat := 0): (k: nat)
    requires i <= |refs|
    ensures i <= k <= |refs|
    ensures k < |refs| ==> refs[k].endpoint == e && refs[k].node == node
    ensures forall j :: i <= j < k ==> !(refs[j].endpoint == e && refs[j].node == node)
    decreases |refs| - i
  {
    if i == |refs| || (refs[i].endpoint == e && refs[i].node == node) then i else FindImport(refs, e, node, i + 1)
  }

  function FreeReference(refs: seq<Reference>, i: nat := 0): (k: nat)
    requires i <= |refs|
    ensures i <= k <= |refs|
    ensures k < |refs| ==> refs[k].endpoint == 0
    decreases |refs| - i
  {
    if i == |refs| || refs[i].endpoint == 0 then i else FreeReference(refs, i + 1)
  }

  function FreeClaim(claims: seq<Claim>, i: nat := 0): (k: nat)
    requires i <= |claims|
    ensures i <= k <= |claims|
    ensures k < |claims| ==> claims[k].endpoint == 0
    decreases |claims| - i
  {
    if i == |claims| || claims[i].endpoint == 0 then i else FreeClaim(claims, i + 1)
  }

  function FreeDeath(deaths: seq<Death>, i: nat := 0): (k: nat)
    requires i <= |deaths|
    ensures i <= k <= |deaths|
    ensures k < |deaths| ==> deaths[k].endpoint == 0
    decreases |deaths| - i
  {
    if i == |deaths| || deaths[i].endpoint == 0 then i else FreeDeath(deaths, i + 1)
  }

  function FindNode(nodes: seq<Node>, id: nat, i: nat := 0): (k: nat)
    requires i <= |nodes|
    ensures i <= k <= |nodes|
    ensures k < |nodes| ==> nodes[k].id == id
    ensures forall j :: i <= j < k ==> nodes[j].id != id
    decreases |nodes| - i
  {
    if i == |nodes| || nodes[i].id == id then i else FindNode(nodes, id, i + 1)
  }

  /** `node_for`: identity zero finds nothing. */
  function NodeFor(nodes: seq<Node>, id: nat): (k: nat)
    ensures k <= |nodes|
    ensures k < |nodes| ==> id != 0 && nodes[k].id == id
    ensures k == |nodes| ==> id == 0 || forall j :: 0 <= j < |nodes| ==> nodes[j].id != id
  {
    if id == 0 then |nodes| else FindNode(nodes, id)
  }

  predicate Owns(node: Node, owner: nat, pointer: u64) {
    node.id != 0 && !node.dead && node.owner == owner && node.pointer == pointer
  }

  function OwnedNode(nodes: seq<Node>, owner: nat, pointer: u64, i: nat := 0): (k: nat)
    requires i <= |nodes|
    ensures i <= k <= |nodes|
    ensures k < |nodes| ==> Owns(nodes[k], owner, pointer)
    ensures forall j :: i <= j < k ==> !Owns(nodes[j], owner, pointer)
    decreases |nodes| - i
  {
    if i == |nodes| || Owns(nodes[i], owner, pointer) then i else OwnedNode(nodes, owner, pointer, i + 1)
  }

  // ---- nodes ----

  datatype Creation = NoRoom | Created(nodes: seq<Node>, index: nat)

  function CreateNode(nodes: seq<Node>, next: nat, owner: nat, pointer: u64, cookie: u64, flags: u32,
                      tid: nat, manager: bool): Creation
  {
    if next == U64_LIMIT then NoRoom
    else
      var k := FindNode(nodes, 0);
      if k == |nodes| then NoRoom
      else Created(nodes[k := Node(next, owner, pointer, cookie, flags, tid, manager, false, manager, manager, false,
          false, 0)], k)
  }

  predicate StrongImport(r: Reference, id: nat) {
    r.endpoint != 0 && r.node == id && (r.strong != 0 || r.temporary != 0)
  }

  predicate AnyImport(r: Reference, id: nat) {
    r.endpoint != 0 && r.node == id
  }

  predicate LocalClaim(c: Claim, id: nat) {
    c.endpoint != 0 && c.node == id && !c.remote
  }

  predicate StrongUse(refs: seq<Reference>, claims: seq<Claim>, node: Node) {
    || (node.manager && !node.dead)
    || node.pendingStrong
    || (exists i :: 0 <= i < |refs| && StrongImport(refs[i], node.id))
    || (exists i :: 0 <= i < |claims| && LocalClaim(claims[i], node.id))
  }

  predicate WeakUse(refs: seq<Reference>, claims: seq<Claim>, node: Node) {
    || node.pendingWeak
    || (exists i :: 0 <= i < |refs| && AnyImport(refs[i], node.id))
    || StrongUse(refs, claims, node)
  }

  predicate Garbage(refs: seq<Reference>, claims: seq<Claim>, node: Node) {
    node.id != 0 && !node.hasStrong && !node.hasWeak && !WeakUse(refs, claims, node)
  }

  /** `collect_nodes`: whether a node is used depends on no other node. */
  function Collect(nodes: seq<Node>, refs: seq<Reference>, claims: seq<Claim>): (r: seq<Node>)
    ensures |r| == |nodes|
    ensures forall i {:trigger r[i]} :: 0 <= i < |nodes| ==>
              r[i] == if Garbage(refs, claims, nodes[i]) then NO_NODE else nodes[i]
  {
    seq(|nodes|, i requires 0 <= i < |nodes| => if Garbage(refs, claims, nodes[i]) then NO_NODE else nodes[i])
  }

  /** The next callback owed to the owner, or zero. */
  function NodeCommand(refs: seq<Reference>, claims: seq<Claim>, node: Node): nat {
    if WeakUse(refs, claims, node) && !node.hasWeak then BR_INCREFS
    else if StrongUse(refs, claims, node) && !node.hasStrong then BR_ACQUIRE
    else if !StrongUse(refs, claims, node) && node.hasStrong then BR_RELEASE
    else if !WeakUse(refs, claims, node) && node.hasWeak then BR_DECREFS
    else 0
  }

  // ---- references ----

  /** The lowest handle at or above `handle` that `e` does not use; U32_LIMIT when there is none. */
  function FreeHandle(refs: seq<Reference>, e: nat, handle: nat): (h: nat)
    requires handle < U32_LIMIT
    ensures handle <= h <= U32_LIMIT
    ensures h < U32_LIMIT ==> FindReference(refs, e, h) == |refs|
    decreases U32_LIMIT - handle
  {
    if FindReference(refs, e, handle) == |refs| then handle
    else if handle == U32_LIMIT - 1 then U32_LIMIT
    else FreeHandle(refs, e, handle + 1)
  }

  /** The reference of `e` to `node`, created when missing; the index is |refs| when there is no room. */
  function EnsureReference(refs: seq<Reference>, e: nat, node: Node, managerNode: nat): (r: (seq<Reference>, nat))
    ensures |r.0| == |refs| && r.1 <= |refs|
  {
    var k := FindImport(refs, e, node.id);
    if k < |refs| then (refs, k)
    else
      var free := FreeReference(refs);
      if free == |refs| then (refs, |refs|)
      else
        var h := FreeHandle(refs, e, if node.id == managerNode then 0 else 1);
        if h == U32_LIMIT then (refs, |refs|)
        else (refs[free := Reference(e, node.owner, node.id, h, 0, 0, 0, 0)], free)
  }

  /** The death slot of a dropped reference goes with it. */
  function DropDeath(deaths: seq<Death>, death: nat): (r: seq<Death>)
    ensures |r| == |deaths|
  {
    if 0 < death <= |deaths| then deaths[death - 1 := NO_DEATH] else deaths
  }

  // ---- claims ----

  datatype Tables = Tables(references: seq<Reference>, deaths: seq<Death>, claims: seq<Claim>)

  predicate Matches(c: Claim, e: nat, buffer: nat) {
    c.endpoint == e && (buffer == 0 || c.buffer == buffer)
  }

  /** One iteration of `release_claims`. */
  function ReleaseClaim(t: Tables, i: nat): (r: Tables)
    requires i < |t.claims|
    ensures |r.claims| == |t.claims| && |r.references| == |t.references| && |r.deaths| == |t.deaths|
  {
    var c := t.claims[i];
    var cleared := t.claims[i := NO_CLAIM];
    if !c.remote then t.(claims := cleared)
    else
      var k := FindReference(t.references, c.endpoint, c.handle);
      if k == |t.references| || t.references[k].node != c.node then t.(claims := cleared)
      else
        var was := t.references[k];
        var ref := was.(temporary := if was.temporary == 0 then 0 else was.temporary - 1);
        if ref.temporary == 0 && ref.strong == 0 && ref.weak == 0
        then Tables(t.references[k := NO_REFERENCE], DropDeath(t.deaths, ref.death), cleared)
        else Tables(t.references[k := ref], t.deaths, cleared)
  }

  function ReleaseClaims(t: Tables, e: nat, buffer: nat, i: nat := 0): (r: Tables)
    requires i <= |t.claims|
    ensures |r.claims| == |t.claims| && |r.references| == |t.references| && |r.deaths| == |t.deaths|
    decreases |t.claims| - i
  {
    if i == |t.claims| then t
    else if Matches(t.claims[i], e, buffer) then ReleaseClaims(ReleaseClaim(t, i), e, buffer, i + 1)
    else ReleaseClaims(t, e, buffer, i + 1)
  }

  function TablesOf(d: Device): Tables {
    Tables(d.references, d.deaths, d.claims)
  }

  function WithTables(d: Device, t: Tables): Device {
    d.(references := t.references, deaths := t.deaths, claims := t.claims)
  }

  /** `release_claims` followed by its collection. */
  function Unclaim(d: Device, e: nat, buffer: nat): Device {
    var t := ReleaseClaims(TablesOf(d), e, buffer);
    WithTables(d, t).(nodes := Collect(d.nodes, t.references, t.claims))
  }

  datatype Claiming = Unclaimable | Claimed(references: seq<Reference>, claims: seq<Claim>, handle: u32)

  function AddClaim(refs: seq<Reference>, claims: seq<Claim>, target: nat, buffer: nat, node: Node, remote: bool,
                    managerNode: nat): (r: Claiming)
    ensures r.Claimed? ==> |r.references| == |refs| && |r.claims| == |claims|
  {
    var c := FreeClaim(claims);
    if c == |claims| then Unclaimable
    else if !remote then Claimed(refs, claims[c := Claim(target, buffer, node.id, 0, false)], 0)
    else
      var (refs', k) := EnsureReference(refs, target, node, managerNode);
      if k == |refs'| || refs'[k].temporary == U32_LIMIT - 1 then Unclaimable
      else
        Claimed(refs'[k := refs'[k].(temporary := refs'[k].temporary + 1)],
                claims[c := Claim(target, buffer, node.id, refs'[k].handle, true)], refs'[k].handle)
  }

  // ---- queued work ----

  /** `drop_work`: the undelivered buffer and its claims go with the entry. */
  function DropWork(d: Device, j: nat): (r: Device)
    requires j < |d.work|
    ensures |r.work| == |d.work| - 1
  {
    var w := d.work[j];
    var cancelled := CancelBuffer(d, w.endpoint, w.value.dataBuffer);
    Unclaim(cancelled, w.endpoint, w.value.dataBuffer).(work := RemoveAt(d.work, j))
  }

  function CancelBuffer(d: Device, e: nat, buffer: nat): Device {
    if e !in d.endpoints then d
    else
      var (slots, code) := Remove(d.endpoints[e].slots, buffer, false);
      if code != 0 then d
      else d.(endpoints := d.endpoints[e := d.endpoints[e].(slots := slots)], parcels := d.parcels - {(e, buffer)})
  }

  function DropWorkOf(d: Device, transaction: nat, j: nat := 0): Device
    requires j <= |d.work|
    decreases |d.work| - j
  {
    if j == |d.work| then d
    else if d.work[j].transaction == transaction then DropWorkOf(DropWork(d, j), transaction, j)
    else DropWorkOf(d, transaction, j + 1)
  }

  function DropWorkFor(d: Device, e: nat, tid: nat, j: nat := 0): Device
    requires j <= |d.work|
    decreases |d.work| - j
  {
    if j == |d.work| then d
    else if d.work[j].endpoint == e && (tid == 0 || d.work[j].tid == tid) then DropWorkFor(DropWork(d, j), e, tid, j)
    else DropWorkFor(d, e, tid, j + 1)
  }

  // ---- cancelling calls ----

  predicate Involves(t: Transaction, e: nat, tid: nat) {
    t.id != 0 && ((t.source == e && (tid == 0 || t.sourceTid == tid))
        || (t.target == e && (tid == 0 || t.targetTid == tid)))
  }

  function FailSource(threads: map<(nat, nat), Thread>, t: Transaction): map<(nat, nat), Thread> {
    var k := (t.source, t.sourceTid);
    if k in threads && threads[k].outgoing == t.id
    then threads[k := threads[k].(outgoing := 0, error := BR_DEAD_REPLY)] else threads
  }

  function OrphanTarget(threads: map<(nat, nat), Thread>, t: Transaction): map<(nat, nat), Thread> {
    var k := (t.target, t.targetTid);
    if k in threads && threads[k].incoming == t.id
    then threads[k := threads[k].(incoming := 0, deadReply := true)] else threads
  }

  /** One matching iteration of `cancel_transactions`. */
  function CancelCall(d: Device, i: nat): (r: Device)
    requires i < |d.transactions|
    ensures |r.transactions| == |d.transactions|
  {
    var t := d.transactions[i];
    var told := d.(threads := OrphanTarget(FailSource(d.threads, t), t));
    var dropped := DropWorkOf(told, t.id);
    DropWorkOfKeeps(told, t.id, 0);
    dropped.(transactions := dropped.transactions[i := t.(id := 0)])
  }

  lemma DropWorkOfKeeps(d: Device, transaction: nat, j: nat)
    requires j <= |d.work|
    ensures DropWorkOf(d, transaction, j).transactions == d.transactions
    decreases |d.work| - j
  {
  }

  function CancelCalls(d: Device, e: nat, tid: nat, i: nat := 0): (r: Device)
    requires i <= |d.transactions|
    decreases |d.transactions| - i
  {
    if i == |d.transactions| then d
    else if Involves(d.transactions[i], e, tid) then CancelCalls(CancelCall(d, i), e, tid, i + 1)
    else CancelCalls(d, e, tid, i + 1)
  }

  /** `cancel_transactions`; a zero TID stands for the whole process. */
  function Cancel(d: Device, e: nat, tid: nat): Device {
    DropWorkFor(CancelCalls(d, e, tid), e, tid)
  }
}
