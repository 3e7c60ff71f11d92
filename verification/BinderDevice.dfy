/** The device as it runs: tables updated in place, each routine proved to do what the state machine's step does. */
module BinderDevices {
  import opened Base
  import opened BinderArena
  import opened BinderWire
  import opened BinderState
  import opened BinderCommands

  class BinderDevice {
    var endpoints: map<nat, Endpoint>
    var threads: map<(nat, nat), Thread>
    var parcels: map<(nat, nat), seq<Flat>>
    const endpointLimit: nat
    const threadLimit: nat
    var nextToken: nat
    var nextTransaction: nat
    var nextNode: nat
    var manager: nat
    var managerNode: nat
    var managerUid: Option<nat>
    var nextSerial: nat
    var transactions: seq<Transaction>
    var work: seq<Work>
    var references: seq<Reference>
    var deaths: seq<Death>
    var nodes: seq<Node>
    var claims: seq<Claim>

    function View(): Device
      reads this
    {
      Device(endpoints, threads, parcels, endpointLimit, threadLimit, nextToken, nextTransaction, nextNode, manager,
          managerNode,
             managerUid, nextSerial, transactions, work, references, deaths, nodes, claims)
    }

    constructor (endpointLimit: nat, threadLimit: nat)
      ensures View() == Fresh(endpointLimit, threadLimit)
    {
      this.endpointLimit, this.threadLimit := endpointLimit, threadLimit;
      endpoints, threads, parcels := map[], map[], map[];
      nextToken, nextTransaction, nextNode, manager, managerNode, managerUid, nextSerial := 1, 1, 1, 0, 0, None, 0;
      transactions, work := seq(PACKET_LIMIT, _ => NO_TRANSACTION), [];
      references, deaths := seq(PACKET_LIMIT, _ => NO_REFERENCE), seq(PACKET_LIMIT, _ => NO_DEATH);
      nodes, claims := seq(PACKET_LIMIT, _ => NO_NODE), seq(CLAIM_LIMIT, _ => NO_CLAIM);
    }

    // ---- searches ----

    method TransactionFor(id: nat) returns (k: nat)
      ensures k == FindTransaction(transactions, id)
    {
      for i := 0 to |transactions|
        invariant FindTransaction(transactions, id, i) == FindTransaction(transactions, id)
      {
        if transactions[i].id == id { return i; }
      }
      k := |transactions|;
    }

    method ReferenceFor(e: nat, handle: u32) returns (k: nat)
      ensures k == FindReference(references, e, handle)
    {
      for i := 0 to |references|
        invariant FindReference(references, e, handle, i) == FindReference(references, e, handle)
      {
        if references[i].endpoint == e && references[i].handle == handle { return i; }
      }
      k := |references|;
    }

    method NodeById(id: nat) returns (k: nat)
      ensures k == NodeFor(nodes, id)
    {
      if id == 0 { return |nodes|; }
      for i := 0 to |nodes|
        invariant FindNode(nodes, id, i) == FindNode(nodes, id)
      {
        if nodes[i].id == id { return i; }
      }
      k := |nodes|;
    }

    method NodeOwnedBy(owner: nat, pointer: u64) returns (k: nat)
      ensures k == OwnedNode(nodes, owner, pointer)
    {
      for i := 0 to |nodes|
        invariant OwnedNode(nodes, owner, pointer, i) == OwnedNode(nodes, owner, pointer)
      {
        if nodes[i].id != 0 && !nodes[i].dead && nodes[i].owner == owner && nodes[i].pointer == pointer { return i; }
      }
      k := |nodes|;
    }

    // ---- nodes ----

    /** create_node: the first free slot and the next identity, or no slot. */
    method NewNode(owner: nat, pointer: u64, cookie: u64, flags: u32, tid: nat, isManager: bool) returns (k: nat)
      modifies this`nodes, this`nextNode
      ensures var c := CreateNode(old(nodes), old(nextNode), owner, pointer, cookie, flags, tid, isManager);
              if c.NoRoom? then k == |nodes| && nodes == old(nodes) && nextNode == old(nextNode)
              else k == c.index < |nodes| && nodes == c.nodes && nextNode == old(nextNode) + 1
    {
      if nextNode == U64_LIMIT { return |nodes|; }
      for i := 0 to |nodes|
        invariant nodes == old(nodes) && nextNode == old(nextNode) && FindNode(nodes, 0, i) == FindNode(nodes, 0)
      {
        if nodes[i].id == 0 {
          nodes := nodes[i := Node(nextNode, owner, pointer, cookie, flags, tid, isManager, false, isManager, isManager,
              false, false, 0)];
          nextNode := nextNode + 1;
          return i;
        }
      }
      k := |nodes|;
    }

    method StronglyUsed(node: Node) returns (used: bool)
      ensures used <==> StrongUse(references, claims, node)
    {
      if (node.manager && !node.dead) || node.pendingStrong { return true; }
      for i := 0 to |references|
        invariant forall j {:trigger references[j]} :: 0 <= j < i ==> !StrongImport(references[j], node.id)
      {
        if StrongImport(references[i], node.id) { return true; }
      }
      for i := 0 to |claims|
        invariant forall j {:trigger claims[j]} :: 0 <= j < i ==> !LocalClaim(claims[j], node.id)
      {
        if LocalClaim(claims[i], node.id) { return true; }
      }
      used := false;
    }

    method WeaklyUsed(node: Node) returns (used: bool)
      ensures used <==> WeakUse(references, claims, node)
    {
      if node.pendingWeak { return true; }
      for i := 0 to |references|
        invariant forall j {:trigger references[j]} :: 0 <= j < i ==> !AnyImport(references[j], node.id)
      {
        if AnyImport(references[i], node.id) { return true; }
      }
      used := StronglyUsed(node);
    }

    method CollectNodes()
      modifies this`nodes
      ensures nodes == Collect(old(nodes), references, claims)
    {
      hide WeakUse;
      for i := 0 to |nodes|
        invariant |nodes| == |old(nodes)|
        invariant forall j {:trigger nodes[j]} :: 0 <= j < i ==>
                    nodes[j] == if Garbage(references, claims, old(nodes)[j]) then NO_NODE else old(nodes)[j]
        invariant forall j {:trigger nodes[j]} :: i <= j < |nodes| ==> nodes[j] == old(nodes)[j]
      {
        if nodes[i].id != 0 && !nodes[i].hasStrong && !nodes[i].hasWeak {
          var used := WeaklyUsed(nodes[i]);
          if !used { nodes := nodes[i := NO_NODE]; }
        }
      }
    }

    // ---- claims ----

    method DropReference(k: nat)
      requires k < |references|
      modifies this`references, this`deaths
      ensures references == old(references)[k := NO_REFERENCE]
              && deaths == DropDeath(old(deaths), old(references)[k].death)
    {
      var death := references[k].death;
      if 0 < death <= |deaths| { deaths := deaths[death - 1 := NO_DEATH]; }
      references := references[k := NO_REFERENCE];
    }

    method ReleaseOne(i: nat)
      requires i < |claims|
      modifies this`references, this`deaths, this`claims
      ensures Tables(references, deaths, claims) == ReleaseClaim(Tables(old(references), old(deaths), old(claims)), i)
    {
      var c := claims[i];
      claims := claims[i := NO_CLAIM];
      if !c.remote { return; }
      var k := ReferenceFor(c.endpoint, c.handle);
      if k == |references| || references[k].node != c.node { return; }
      if references[k].temporary != 0 {
        references := references[k := references[k].(temporary := references[k].temporary - 1)];
      }
      var r := references[k];
      if r.temporary == 0 && r.strong == 0 && r.weak == 0 {
        ghost var before := old(references);
        DropReference(k);
        assert references == before[k := NO_REFERENCE];
      }
    }

    /** release_claims: every claim of the endpoint's buffer, or of the endpoint when the buffer is zero. */
    method ReleaseClaims(e: nat, buffer: nat)
      modifies this`references, this`deaths, this`claims, this`nodes
      ensures View() == Unclaim(old(View()), e, buffer)
    {
      hide Collect, ReleaseClaim;
      ghost var start := Tables(references, deaths, claims);
      for i := 0 to |claims|
        invariant |claims| == |start.claims| && nodes == old(nodes)
        invariant BinderState.ReleaseClaims(Tables(references, deaths, claims), e, buffer, i)
                  == BinderState.ReleaseClaims(start, e, buffer, 0)
      {
        if Matches(claims[i], e, buffer) { ReleaseOne(i); }
      }
      CollectNodes();
    }

    // ---- queued work and calls ----

    method CancelBufferOf(e: nat, buffer: nat)
      modifies this`endpoints, this`parcels
      ensures View() == CancelBuffer(old(View()), e, buffer)
    {
      if e in endpoints {
        var (slots, code) := Remove(endpoints[e].slots, buffer, false);
        if code == 0 {
          endpoints := endpoints[e := endpoints[e].(slots := slots)];
          parcels := parcels - {(e, buffer)};
        }
      }
    }

    method DropQueued(j: nat)
      requires j < |work|
      modifies this`endpoints, this`parcels, this`references, this`deaths, this`claims, this`nodes, this`work
      ensures View() == DropWork(old(View()), j)
    {
      hide Unclaim, CancelBuffer;
      var w := work[j];
      CancelBufferOf(w.endpoint, w.value.dataBuffer);
      ReleaseClaims(w.endpoint, w.value.dataBuffer);
      UnclaimKeepsWork(View(), w.endpoint, w.value.dataBuffer);
      work := RemoveAt(work, j);
    }

    method CancelOne(i: nat)
      requires i < |transactions|
      modifies this
      ensures View() == CancelCall(old(View()), i)
    {
      hide DropWork;
      var t := transactions[i];
      var source, target := (t.source, t.sourceTid), (t.target, t.targetTid);
      if source in threads && threads[source].outgoing == t.id {
        threads := threads[source := threads[source].(outgoing := 0, error := BR_DEAD_REPLY)];
      }
      if target in threads && threads[target].incoming == t.id {
        threads := threads[target := threads[target].(incoming := 0, deadReply := true)];
      }
      ghost var told := View();
      assert told == old(View()).(threads := OrphanTarget(FailSource(old(threads), t), t));
      var j := 0;
      while j < |work|
        invariant j <= |work| && DropWorkOf(View(), t.id, j) == DropWorkOf(told, t.id, 0)
        decreases |work| - j
      {
        if work[j].transaction == t.id { DropQueued(j); } else { j := j + 1; }
      }
      DropWorkOfKeeps(told, t.id, 0);
      transactions := transactions[i := t.(id := 0)];
    }

    /** cancel_transactions; a zero TID stands for the whole process. */
    method CancelTransactions(e: nat, tid: nat)
      modifies this
      ensures View() == Cancel(old(View()), e, tid)
    {
      hide CancelCall, DropWork;
      ghost var start := View();
      var i := 0;
      while i < |transactions|
        invariant i <= |transactions| && CancelCalls(View(), e, tid, i) == CancelCalls(start, e, tid, 0)
        decreases |transactions| - i
      {
        if Involves(transactions[i], e, tid) { CancelOne(i); }
        i := i + 1;
      }
      ghost var middle := View();
      var j := 0;
      while j < |work|
        invariant j <= |work| && DropWorkFor(View(), e, tid, j) == DropWorkFor(middle, e, tid, 0)
        decreases |work| - j
      {
        if work[j].endpoint == e && (tid == 0 || work[j].tid == tid) { DropQueued(j); } else { j := j + 1; }
      }
    }

    // ---- parcels ----

    /** ensure_reference: one pass looks for the import and remembers the first free slot; then the lowest free handle.
        */
    method Import(e: nat, node: Node) returns (k: nat)
      modifies this`references
      ensures (references, k) == EnsureReference(old(references), e, node, managerNode)
    {
      hide FreeHandle;
      var available := |references|;
      for i := 0 to |references|
        invariant references == old(references) && available <= |references|
        invariant FindImport(references, e, node.id, i) == FindImport(references, e, node.id)
        invariant available < |references| ==> available == FreeReference(references)
        invariant available == |references| ==> FreeReference(references, i) == FreeReference(references)
      {
        if references[i].endpoint == e && references[i].node == node.id { return i; }
        if references[i].endpoint == 0 && available == |references| { available := i; }
      }
      if available == |references| { return |references|; }
      var handle := LowestHandle(e, if node.id == managerNode then 0 else 1);
      if handle == U32_LIMIT { return |references|; }
      references := references[available := Reference(e, node.owner, node.id, handle, 0, 0, 0, 0)];
      k := available;
    }

    method LowestHandle(e: nat, from: u32) returns (handle: nat)
      ensures handle == FreeHandle(references, e, from)
    {
      handle := from;
      var taken := ReferenceFor(e, handle);
      while taken < |references|
        invariant handle < U32_LIMIT && taken == FindReference(references, e, handle)
        invariant FreeHandle(references, e, handle) == FreeHandle(references, e, from)
        decreases U32_LIMIT - handle
      {
        if handle == U32_LIMIT - 1 { return U32_LIMIT; }
        handle := handle + 1;
        taken := ReferenceFor(e, handle);
      }
    }

    /** add_claim for a reference the receiver gets or keeps, or for a node it owns. */
    method ClaimNode(target: nat, buffer: nat, node: Node, remote: bool) returns (handle: Option<u32>)
      modifies this`references, this`claims
      ensures var r := AddClaim(old(references), old(claims), target, buffer, node, remote, managerNode);
              if r.Unclaimable? then handle.None? && references == old(references) && claims == old(claims)
              else handle == Some(r.handle) && references == r.references && claims == r.claims
    {
      var available := |claims|;
      for i := 0 to |claims|
        invariant available == |claims| && FreeClaim(claims, i) == FreeClaim(claims)
      {
        if claims[i].endpoint == 0 {
          available := i;
          break;
        }
      }
      if available == |claims| { return None; }
      handle := Some(0);
      if remote {
        ImportIsNew(references, target, node, managerNode);
        hide EnsureReference;
        var k := Import(target, node);
        if k == |references| || references[k].temporary == U32_LIMIT - 1 { return None; }
        references := references[k := references[k].(temporary := references[k].temporary + 1)];
        handle := Some(references[k].handle);
      }
      claims := claims[available := Claim(target, buffer, node.id, handle.value, remote)];
    }

    /** The node one sent object stands for: the sender's own, exported now if need be, or one it holds strongly. */
    method NodeSent(e: nat, tid: nat, item: Flat) returns (k: nat, errno: int)
      modifies this`nodes, this`nextNode
      ensures var r := Resolve(old(View()), e, tid, item);
              if r.Missing? then errno == r.errno != 0 && View() == old(View())
              else
                && errno == 0 && k == r.index < |nodes|
                && View() == old(View()).(nodes := r.nodes, nextNode := r.nextNode)
    {
      hide CreateNode, OwnedNode, FindReference, FindNode;
      match item
      case Binder(flags, pointer, cookie) =>
        k := NodeOwnedBy(e, pointer);
        if k < |nodes| { return k, if nodes[k].cookie != cookie then -22 else 0; }
        k := NewNode(e, pointer, cookie, flags, tid, false);
        errno := if k == |nodes| then -12 else 0;
      case Handle(_, handle) =>
        var r := ReferenceFor(e, handle);
        if r == |references| || (references[r].strong == 0 && references[r].temporary == 0) { return |nodes|, -22; }
        k := NodeById(references[r].node);
        errno := if k == |nodes| then -22 else 0;
    }

    /** One object of a parcel, resolved for the sender, claimed and rewritten for the receiver. */
    method SendObject(e: nat, tid: nat, target: nat, buffer: nat, item: Flat) returns (sent: Option<Flat>, errno: int)
      modifies this`references, this`claims, this`nodes, this`nextNode
      ensures var r := TranslateOne(old(View()), e, tid, target, buffer, item);
              && View() == r.d
              && if r.Stuck? then sent.None? && errno == r.errno != 0 else sent.Some? && r.objects == [sent.value]
    {
      hide AddClaim, Resolve;
      var k;
      k, errno := NodeSent(e, tid, item);
      if errno != 0 { return None, errno; }
      var node := nodes[k];
      var remote := node.owner != target;
      var handle := ClaimNode(target, buffer, node, remote);
      if handle.None? { return None, -12; }
      sent := Some(if remote then Handle(item.flags, handle.value) else Binder(item.flags, node.pointer, node.cookie));
    }

    /** reserve_payload: a buffer, a claim on the target node, then each object in turn; any failure undoes all of it.
        */
    method DepositParcel(e: nat, tid: nat, target: nat, slots: seq<Slot>, slot: Slot, nodeIndex: nat,
        objects: seq<Flat>) returns (errno: int)
      requires target in endpoints
      modifies this
      ensures var r := Deposit(old(View()), e, tid, target, slots, slot, nodeIndex, objects);
              View() == r.d && (r.Ready? <==> errno == 0) && (r.Refused? ==> errno == r.errno)
    {
      hide AddClaim, Translate, TranslateOne, Rollback, Prepare;
      errno := PrepareParcel(target, slot, slots, nodeIndex);
      if errno != 0 {
        Withdraw(target, slot.address);
        return;
      }
      ghost var ready := View();
      var sent: seq<Flat> := [];
      TranslateNone(ready, e, tid, target, slot.address);
      for n := 0 to |objects|
        invariant Translate(ready, e, tid, target, slot.address, objects[..n]) == Translated(View(), sent)
      {
        TranslateNext(ready, e, tid, target, slot.address, objects, n);
        var one, error := SendObject(e, tid, target, slot.address, objects[n]);
        if one.None? {
          TranslateStuck(ready, e, tid, target, slot.address, objects, n + 1);
          Withdraw(target, slot.address);
          return error;
        }
        sent := sent + [one.value];
      }
      assert objects[..|objects|] == objects;
      parcels := parcels[(target, slot.address) := sent];
      errno := 0;
    }

    method PrepareParcel(target: nat, slot: Slot, slots: seq<Slot>, nodeIndex: nat) returns (errno: int)
      requires target in endpoints
      modifies this`endpoints, this`references, this`claims
      ensures var r := Prepare(old(View()), target, slot, slots, nodeIndex);
              View() == r.d && (r.Stuck? ==> errno == r.errno != 0) && (r.Translated? ==> errno == 0)
    {
      hide AddClaim;
      endpoints := endpoints[target := endpoints[target].(slots := slots)];
      if nodeIndex < |nodes| && !nodes[nodeIndex].manager {
        ghost var refs, held := references, claims;
        LocalClaimKeeps(references, claims, target, slot.address, nodes[nodeIndex], managerNode);
        var handle := ClaimNode(target, slot.address, nodes[nodeIndex], false);
        if handle.None? { return -12; }
      }
      errno := 0;
    }

    method Withdraw(target: nat, buffer: nat)
      modifies this
      ensures View() == Rollback(old(View()), target, buffer)
    {
      hide Unclaim, CancelBuffer;
      ReleaseClaims(target, buffer);
      CancelBufferOf(target, buffer);
    }

    // ---- commands ----

    /** BC_FREE_BUFFER: the buffer and its claims go, and a one-way queue moves on. */
    method FreePacket(e: nat, buffer: nat) returns (status: Status)
      requires e in endpoints
      modifies this
      ensures (View(), status) == FreeCommand(old(View()), e, buffer)
    {
      hide Unclaim;
      var (slots, code) := Remove(endpoints[e].slots, buffer, true);
      if code != 0 { return Fail(-95); }
      endpoints := endpoints[e := endpoints[e].(slots := slots)];
      parcels := parcels - {(e, buffer)};
      MoveOn(e, buffer);
      ReleaseClaims(e, buffer);
      status := Done;
    }

    /** The node whose one-way parcel was freed takes its next queued one, if there is one. */
    method MoveOn(e: nat, buffer: nat)
      modifies this`nodes
      ensures nodes == AdvanceAsync(old(nodes), work, e, buffer)
    {
      for k := 0 to |nodes|
        invariant nodes == old(nodes) && HeldAsync(nodes, e, buffer, k) == HeldAsync(nodes, e, buffer)
      {
        if nodes[k].owner != e || nodes[k].asyncBuffer != buffer { continue; }
        nodes := nodes[k := nodes[k].(asyncBuffer := 0)];
        for j := 0 to |work|
          invariant nodes == old(nodes)[k := old(nodes)[k].(asyncBuffer := 0)]
          invariant NextAsync(work, nodes[k].id, j) == NextAsync(work, nodes[k].id)
        {
          if work[j].asyncNode == nodes[k].id {
            nodes := nodes[k := nodes[k].(asyncBuffer := work[j].value.dataBuffer)];
            return;
          }
        }
        return;
      }
    }

    method AdjustCountAt(i: nat, increment: bool, strong: bool) returns (status: Status)
      requires i < |references|
      modifies this
      ensures (View(), status) == AdjustReference(old(View()), i, increment, strong)
    {
      hide Collect;
      var r := references[i];
      if increment && (if strong then r.strong else r.weak) == U32_LIMIT - 1 { return Fail(-12); }
      var now := Adjusted(r, increment, strong);
      if Uncounted(now) {
        DropReference(i);
      } else {
        references := references[i := now];
      }
      CollectNodes();
      status := Done;
    }

    /** BC_INCREFS, BC_ACQUIRE, BC_RELEASE and BC_DECREFS. */
    method AdjustHandle(e: nat, increment: bool, strong: bool, handle: u32) returns (status: Status)
      modifies this
      ensures (View(), status) == ReferenceCommand(old(View()), e, increment, strong, handle)
    {
      hide AdjustReference, EnsureReference;
      if increment && handle == 0 && manager != 0 {
        if manager == e { return Fail(-22); }
        var k := NodeById(managerNode);
        if k == |nodes| { return Broken(-5); }
        NoImport(references, e, nodes[k], managerNode);
        var i := Import(e, nodes[k]);
        if i == |references| { return Fail(-12); }
        status := AdjustCountAt(i, true, strong);
        return;
      }
      var i := ReferenceFor(e, handle);
      if i == |references| { return Done; }
      status := AdjustCountAt(i, increment, strong);
    }

    /** BC_INCREFS_DONE and BC_ACQUIRE_DONE. */
    method AcknowledgeNode(e: nat, strong: bool, pointer: u64, cookie: u64) returns (status: Status)
      modifies this`nodes
      ensures (View(), status) == NodeDoneCommand(old(View()), e, strong, pointer, cookie)
    {
      hide Collect, AcknowledgedNode, OwnedNode;
      status := Done;
      var k := NodeOwnedBy(e, pointer);
      if k == |nodes| || nodes[k].cookie != cookie { return; }
      var node := Settled(nodes[k], strong);
      nodes := nodes[k := node];
      CollectNodes();
    }

    /** An acknowledged node; once nothing is owed to it any thread may be told of it. */
    method Settled(was: Node, strong: bool) returns (node: Node)
      ensures node == AcknowledgedNode(View(), was, strong)
    {
      hide StrongUse, WeakUse;
      node := if strong then was.(pendingStrong := false) else was.(pendingWeak := false);
      var strongly := StronglyUsed(node);
      var weakly := WeaklyUsed(node);
      if !node.pendingWeak && !node.pendingStrong && !(strongly && !node.hasStrong) && !(weakly && !node.hasWeak) {
        node := node.(tid := 0);
      }
    }

    /** BC_REQUEST_DEATH_NOTIFICATION: the first free slot is armed, or queued at once if the owner has gone. */
    method Subscribe(e: nat, handle: u32, cookie: u64) returns (status: Status)
      modifies this`references, this`deaths, this`nextSerial
      ensures (View(), status) == RequestDeathCommand(old(View()), e, handle, cookie)
    {
      hide FindReference;
      var r := ReferenceFor(e, handle);
      if r == |references| || references[r].death != 0 { return Done; }
      var owner := references[r].owner;
      for i := 0 to |deaths|
        invariant View() == old(View()) && FreeDeath(deaths, i) == FreeDeath(deaths)
      {
        if deaths[i].endpoint != 0 { continue; }
        deaths := deaths[i := Death(e, owner, cookie, 0, if owner in endpoints then Armed else DeathQueued, false,
            nextSerial)];
        references := references[r := references[r].(death := i + 1)];
        nextSerial := nextSerial + 1;
        return Done;
      }
      status := Fail(-12);
    }

    /** BC_CLEAR_DEATH_NOTIFICATION. */
    method Unsubscribe(e: nat, tid: nat, handle: u32, cookie: u64) returns (status: Status)
      requires (e, tid) in threads
      modifies this`references, this`deaths
      ensures (View(), status) == ClearDeathCommand(old(View()), e, tid, handle, cookie)
    {
      hide FindReference;
      status := Done;
      var r := ReferenceFor(e, handle);
      if r == |references| || references[r].death == 0 || references[r].death > |deaths| { return; }
      var i := references[r].death - 1;
      if deaths[i].cookie != cookie { return; }
      references := references[r := references[r].(death := 0)];
      ghost var was := deaths;
      deaths := deaths[i := deaths[i].(clearing := true)];
      if deaths[i].state.Armed? || deaths[i].state.DeathAcknowledged? {
        ClearLater(i, e, tid);
        assert deaths == was[i := deaths[i]];
      }
    }

    /** queue_clear: the answer goes to this thread if it is a looper, otherwise to any. */
    method ClearLater(i: nat, e: nat, tid: nat)
      requires i < |deaths| && (e, tid) in threads
      modifies this`deaths
      ensures deaths == old(deaths)[i := QueueClear(old(deaths)[i], threads[(e, tid)], tid)]
    {
      var looper := threads[(e, tid)].looper;
      deaths := deaths[i := deaths[i].(state := ClearQueued)];
      deaths := deaths[i := deaths[i].(tid := if looper.entered || looper.registered then tid else 0)];
    }

    /** BC_DEAD_BINDER_DONE: the first delivered notice of that cookie is settled, once. */
    method AcknowledgeDeath(e: nat, tid: nat, cookie: u64) returns (status: Status)
      requires (e, tid) in threads
      modifies this`deaths
      ensures (View(), status) == DeathDoneCommand(old(View()), e, tid, cookie)
    {
      hide QueueClear;
      status := Done;
      for i := 0 to |deaths|
        invariant View() == old(View()) && DeliveredDeath(deaths, e, cookie, i) == DeliveredDeath(deaths, e, cookie)
      {
        if deaths[i].endpoint != e || deaths[i].cookie != cookie || !deaths[i].state.DeathDelivered? { continue; }
        if deaths[i].clearing { ClearLater(i, e, tid); } else {
          deaths := deaths[i := deaths[i].(state := DeathAcknowledged)];
        }
        return;
      }
    }

    // ---- leaving ----

    /** release_references: the process's own references with their death slots, its subscriptions, the notices it now
        owes to others, and the nodes it owned. */
    method ForgetReferences(token: nat)
      modifies this`references, this`deaths, this`nodes
      ensures View() == ReleaseReferences(old(View()), token)
    {
      hide Collect, ReleasedDeath, ReleasedNode;
      ghost var before := View();
      DropAll(token);
      EndSubscriptions(token, before);
      BuryNodes(token);
      assert nodes == seq(|before.nodes|, k requires 0 <= k < |before.nodes| => ReleasedNode(before.nodes[k], token));
      CollectNodes();
      ghost var after := ReleaseReferences(before, token);
      assert references == after.references && deaths == after.deaths;
    }

    method DropAll(token: nat)
      modifies this`references, this`deaths
      ensures |references| == |old(references)| && |deaths| == |old(deaths)|
      ensures forall j {:trigger references[j]} :: 0 <= j < |references| ==>
                references[j] == if old(references)[j].endpoint == token then NO_REFERENCE else old(references)[j]
      ensures forall k {:trigger deaths[k]} :: 0 <= k < |deaths| ==>
                deaths[k] == if SlotDropped(old(references), |old(references)|, token, k) then NO_DEATH
                    else old(deaths)[k]
    {
      hide SlotDropped;
      NoSlotDropped(references, token);
      for i := 0 to |references|
        invariant |references| == |old(references)| && |deaths| == |old(deaths)|
        invariant forall j {:trigger references[j]} :: 0 <= j < i ==>
                    references[j] == if old(references)[j].endpoint == token then NO_REFERENCE else old(references)[j]
        invariant forall j {:trigger references[j]} :: i <= j < |references| ==> references[j] == old(references)[j]
        invariant forall k {:trigger deaths[k]} :: 0 <= k < |deaths| ==>
                    deaths[k] == if SlotDropped(old(references), i, token, k) then NO_DEATH else old(deaths)[k]
      {
        ghost var was := deaths;
        if references[i].endpoint == token { DropReference(i); }
        forall k | 0 <= k < |deaths|
          ensures deaths[k] == if SlotDropped(old(references), i + 1, token, k) then NO_DEATH else old(deaths)[k]
        {
          NextSlotDropped(old(references), i, token, k);
          assert was[k] == if SlotDropped(old(references), i, token, k) then NO_DEATH else old(deaths)[k];
        }
      }
    }

    /** The slots the process subscribed with are freed, and armed ones that watched it are queued. */
    method EndSubscriptions(token: nat, ghost before: Device)
      requires |deaths| == |before.deaths|
      requires forall k {:trigger deaths[k]} :: 0 <= k < |deaths| ==>
                 deaths[k] == if SlotDropped(before.references, |before.references|, token, k) then NO_DEATH
                     else before.deaths[k]
      modifies this`deaths
      ensures |deaths| == |before.deaths| && forall k {:trigger deaths[k]} :: 0 <= k < |deaths| ==>
                deaths[k] == ReleasedDeath(before, token, k)
    {
      hide SlotDropped, ReleasedDeath;
      ghost var was := deaths;
      for k := 0 to |deaths|
        invariant |deaths| == |before.deaths|
        invariant forall j {:trigger deaths[j]} :: 0 <= j < k ==> deaths[j] == ReleasedDeath(before, token, j)
        invariant forall j {:trigger deaths[j]} :: k <= j < |deaths| ==> deaths[j] == was[j]
      {
        ReleasedIs(before, token, k, deaths[k]);
        if deaths[k].endpoint == token {
          deaths := deaths[k := NO_DEATH];
        } else if deaths[k].endpoint != 0 && deaths[k].owner == token && deaths[k].state.Armed? {
          deaths := deaths[k := deaths[k].(state := DeathQueued)];
        }
      }
    }

    method BuryNodes(token: nat)
      modifies this`nodes
      ensures |nodes| == |old(nodes)| && forall k {:trigger nodes[k]} :: 0 <= k < |nodes| ==>
                nodes[k] == ReleasedNode(old(nodes)[k], token)
    {
      for k := 0 to |nodes|
        invariant |nodes| == |old(nodes)|
        invariant forall j {:trigger nodes[j]} :: 0 <= j < k ==> nodes[j] == ReleasedNode(old(nodes)[j], token)
        invariant forall j {:trigger nodes[j]} :: k <= j < |nodes| ==> nodes[j] == old(nodes)[j]
      {
        if nodes[k].id != 0 && nodes[k].owner == token {
          nodes := nodes[k := nodes[k].(dead := true)];
          nodes := nodes[k := nodes[k].(hasStrong := false, hasWeak := false, pendingStrong := false,
              pendingWeak := false)];
        }
      }
    }

    /** release_endpoint: calls and work first, then references, claims and the endpoint itself. */
    method ReleaseProcess(token: nat)
      modifies this
      ensures View() == ReleaseEndpoint(old(View()), token)
    {
      hide Cancel, Unclaim, ReleaseReferences;
      CancelTransactions(token, 0);
      ForgetReferences(token);
      ReleaseClaims(token, 0);
      Leave(token);
    }

    method Leave(token: nat)
      modifies this`endpoints, this`threads, this`parcels, this`manager, this`managerNode
      ensures View() == Forget(old(View()), token)
    {
      hide Without;
      if manager == token { manager, managerNode := 0, 0; }
      endpoints := endpoints - {token};
      threads := Without(threads, token);
      parcels := Without(parcels, token);
    }

    /** BINDER_THREAD_EXIT. */
    method ExitThread(e: nat, tid: nat)
      modifies this
      ensures View() == ThreadExit(old(View()), e, tid)
    {
      hide Cancel;
      CancelTransactions(e, tid);
      ghost var before := View();
      for k := 0 to |nodes|
        invariant View() == before.(nodes := nodes) && |nodes| == |before.nodes|
        invariant forall j {:trigger nodes[j]} :: 0 <= j < k ==> nodes[j] == LeftNode(before.nodes[j], e, tid)
        invariant forall j {:trigger nodes[j]} :: k <= j < |nodes| ==> nodes[j] == before.nodes[j]
      {
        if nodes[k].id != 0 && nodes[k].owner == e && nodes[k].tid == tid { nodes := nodes[k := nodes[k].(tid := 0)]; }
      }
      ghost var settled := nodes;
      for k := 0 to |deaths|
        invariant View() == before.(nodes := settled, deaths := deaths) && |deaths| == |before.deaths|
        invariant forall j {:trigger deaths[j]} :: 0 <= j < k ==> deaths[j] == LeftDeath(before.deaths[j], e, tid)
        invariant forall j {:trigger deaths[j]} :: k <= j < |deaths| ==> deaths[j] == before.deaths[j]
      {
        if deaths[k].endpoint == e && deaths[k].tid == tid { deaths := deaths[k := NO_DEATH]; }
      }
      threads := threads - {(e, tid)};
      ghost var after := ThreadExit(old(View()), e, tid);
      assert nodes == after.nodes && deaths == after.deaths;
    }

    // ---- calls ----

    /** reserve_payload with its checks. */
    method ReserveParcel(e: nat, tid: nat, target: nat, input: Packet, payload: Payload, nodeIndex: nat)
          returns (errno: int, slot: Option<Slot>)
      requires target in endpoints
      requires Laid(endpoints[target].slots, endpoints[target].base, endpoints[target].size)
               || endpoints[target].watch != 3
      modifies this
      ensures var r := ReservePayload(old(View()), e, tid, target, input, payload, nodeIndex);
              View() == r.d && (r.Ready? ==> slot == Some(r.slot)) && (r.Refused? ==> slot.None? && errno == r.errno)
    {
      hide Deposit, Laid, BinderArena.Reserve;
      slot := None;
      var ep := endpoints[target];
      if ep.watch != 3 { return -95, None; }
      if input.dataSize > ep.size || input.offsetsSize > ep.size { return -12, None; }
      if input.offsetsSize % 8 != 0 { return -22, None; }
      if input.offsetsSize / 8 > OBJECT_LIMIT { return -7, None; }
      if payload.Unreadable? { return -14, None; }
      if payload.Malformed? { return -22, None; }
      if payload.Unsupported? { return -95, None; }
      var place := Reserve(ep.slots, ep.base, ep.size, PACKET_LIMIT, input.dataSize, input.offsetsSize, 0, false);
      if place.Rejected? { return place.errno, None; }
      ReserveIsBestFit(ep.slots, ep.base, ep.size, PACKET_LIMIT, input.dataSize, input.offsetsSize, 0, false);
      DepositSlot(View(), e, tid, target, place.slots, place.slots[place.index], nodeIndex, payload.objects);
      errno := DepositParcel(e, tid, target, place.slots, place.slots[place.index], nodeIndex, payload.objects);
      slot := if errno == 0 then Some(place.slots[place.index]) else None;
    }

    /** BC_TRANSACTION. */
    method Transact(e: nat, tid: nat, input: Packet, payload: Payload) returns (status: Status)
      requires (e, tid) in threads && e in endpoints && ArenasLaid(endpoints)
      modifies this
      ensures (View(), status) == CallCommand(old(View()), e, tid, input, payload)
    {
      hide ReservePayload, RouteCall, Laid, AcceptOneWay, AcceptCall, Refuse, Admissible;
      if input.flags !in {0, 1, 16, 17} { return Fail(-95); }
      if !Admissible(View(), threads[(e, tid)]) { return Fail(-12); }
      var route := RouteCall(View(), e, tid, input);
      if route.Halt? {
        Halted(View(), e, tid, input);
        threads := route.d.threads;
        return route.status;
      }
      var node, sender, oneway := nodes[route.nodeIndex], endpoints[e], input.flags % 2 == 1;
      ReservePayloadKeeps(View(), e, tid, route.target, input, payload, route.nodeIndex);
      var errno, slot := ReserveParcel(e, tid, route.target, input, payload, route.nodeIndex);
      if slot.None? {
        status := Refused(e, tid, errno);
        return;
      }
      var value := Addressed(input, node.pointer, node.cookie, if oneway then 0 else sender.pid, sender.uid,
          slot.value);
      if oneway { QueueOneWay(e, tid, route.target, route.nodeIndex, value); } else {
        QueueCall(e, tid, route.target, route.slot, value);
      }
      status := Done;
    }

    method QueueOneWay(e: nat, tid: nat, target: nat, nodeIndex: nat, value: Packet)
      requires (e, tid) in threads && nodeIndex < |nodes|
      modifies this`nodes, this`threads, this`work
      ensures View() == AcceptOneWay(old(View()), e, tid, target, nodeIndex, value)
    {
      if nodes[nodeIndex].asyncBuffer == 0 {
        nodes := nodes[nodeIndex := nodes[nodeIndex].(asyncBuffer := value.dataBuffer)];
      }
      work := work + [Work(target, 0, BR_TRANSACTION, 0, nodes[nodeIndex].id, value)];
      threads := threads[(e, tid) := threads[(e, tid)].(completions := threads[(e, tid)].completions + 1)];
    }

    method QueueCall(e: nat, tid: nat, target: nat, slot: nat, value: Packet)
      requires (e, tid) in threads && slot < |transactions|
      modifies this`transactions, this`nextTransaction, this`threads, this`work
      ensures View() == AcceptCall(old(View()), e, tid, target, slot, value)
    {
      hide Bump, Completed;
      var id := nextTransaction;
      transactions := transactions[slot := Transaction(id, e, target, tid, 0)];
      nextTransaction := id + 1;
      threads := threads[(e, tid) := threads[(e, tid)].(outgoing := id)];
      work := work + [Work(target, 0, BR_TRANSACTION, id, 0, value)];
      CompletedIs(View().(work := old(work)), e, tid, work[|old(work)|]);
      threads := threads[(e, tid) := threads[(e, tid)].(completions := threads[(e, tid)].completions + 1)];
    }

    /** BC_REPLY. */
    method Answer(e: nat, tid: nat, input: Packet, payload: Payload) returns (status: Status)
      requires (e, tid) in threads && e in endpoints && ArenasLaid(endpoints)
      modifies this
      ensures (View(), status) == ReplyCommand(old(View()), e, tid, input, payload)
    {
      hide ReservePayload, Laid, AcceptReply, Refuse, Admissible, FindTransaction;
      var th := threads[(e, tid)];
      if input.flags !in {0, 16} { return Fail(-95); }
      if !Admissible(View(), th) { return Fail(-12); }
      if th.deadReply {
        threads := threads[(e, tid) := th.(deadReply := false, error := BR_DEAD_REPLY)];
        return Done;
      }
      var slot := |transactions|;
      if th.incoming != 0 { slot := TransactionFor(th.incoming); }
      if slot == |transactions| { return if th.incoming == 0 then Fail(-95) else Broken(-95); }
      if th.outgoing != 0 { return Broken(-95); }
      var t := transactions[slot];
      var caller := (t.source, t.sourceTid);
      if t.source !in endpoints || caller !in threads || threads[caller].outgoing != t.id { return Broken(-95); }
      ReservePayloadKeeps(View(), e, tid, t.source, input, payload, |nodes|);
      var uid := endpoints[e].uid;
      var errno, place := ReserveParcel(e, tid, t.source, input, payload, |nodes|);
      if place.None? {
        status := Refused(e, tid, errno);
        return;
      }
      QueueReply(e, tid, slot, Addressed(input, 0, 0, 0, uid, place.value));
      status := Done;
    }

    method QueueReply(e: nat, tid: nat, slot: nat, value: Packet)
      requires (e, tid) in threads && slot < |transactions|
               && (transactions[slot].source, transactions[slot].sourceTid) in threads
      modifies this`transactions, this`threads, this`work
      ensures View() == AcceptReply(old(View()), e, tid, slot, value)
    {
      var t := transactions[slot];
      var caller := (t.source, t.sourceTid);
      threads := threads[(e, tid) := threads[(e, tid)].(incoming := 0)];
      threads := threads[caller := threads[caller].(outgoing := 0)];
      transactions := transactions[slot := t.(id := 0)];
      work := work + [Work(t.source, t.sourceTid, BR_REPLY, 0, 0, value)];
      threads := threads[(e, tid) := threads[(e, tid)].(completions := threads[(e, tid)].completions + 1)];
    }

    method Refused(e: nat, tid: nat, errno: int) returns (status: Status)
      requires (e, tid) in threads
      modifies this`threads
      ensures (View(), status) == Refuse(old(View()), e, tid, errno)
    {
      if errno == -22 || errno == -14 {
        threads := threads[(e, tid) := threads[(e, tid)].(error := BR_FAILED_REPLY)];
        return Done;
      }
      status := Fail(errno);
    }

    // ---- reading ----

    method EventFor(e: nat, tid: nat, th: Thread) returns (k: nat)
      ensures k == NodeEventFor(View(), e, tid, th)
    {
      hide Callable;
      for i := 0 to |nodes|
        invariant NodeEventFor(View(), e, tid, th, i) == NodeEventFor(View(), e, tid, th)
      {
        if Callable(View(), nodes[i], e, tid, th) { return i; }
      }
      k := |nodes|;
    }

    method QueuedFor(e: nat, tid: nat, th: Thread) returns (k: nat)
      ensures k == WorkFor(View(), e, tid, th)
    {
      hide Deliverable;
      for i := 0 to |work|
        invariant WorkFor(View(), e, tid, th, i) == WorkFor(View(), e, tid, th)
      {
        if Deliverable(View(), work[i], e, tid, th) { return i; }
      }
      k := |work|;
    }

    method NoticeFor(e: nat, tid: nat, th: Thread) returns (k: nat)
      ensures k == DeathFor(deaths, e, tid, th)
    {
      for i := 0 to |deaths|
        invariant DeathFor(deaths, e, tid, th, i) == DeathFor(deaths, e, tid, th)
      {
        if Notifiable(deaths[i], e, tid, th) { return i; }
      }
      k := |deaths|;
    }

    /** The next thing owed to a reader. */
    method DeliverOne(e: nat, tid: nat) returns (status: Status, delivered: seq<Delivery>)
      requires e in endpoints && (e, tid) in threads
      modifies this`threads, this`nodes, this`work, this`endpoints, this`transactions, this`deaths
      ensures Outcome(View(), status, delivered) == DeliverNext(old(View()), e, tid)
    {
      hide Collect, NodeCommand, NodeEventFor, WorkFor, DeathFor;
      var th := threads[(e, tid)];
      status := Done;
      if th.error != 0 {
        threads := threads[(e, tid) := th.(error := 0)];
        return Done, [ErrorWord(th.error)];
      }
      var k := EventFor(e, tid, th);
      if k < |nodes| {
        var word := NodeCommand(references, claims, nodes[k]);
        delivered := [Callback(word, nodes[k])];
        nodes := nodes[k := CalledNode(nodes[k], word)];
        CollectNodes();
        return;
      }
      if th.completions != 0 {
        threads := threads[(e, tid) := th.(completions := th.completions - 1)];
        return Done, [Complete];
      }
      var j := QueuedFor(e, tid, th);
      var i := NoticeFor(e, tid, th);
      if j < |work| {
        delivered := [Parcel(work[j])];
        status := DeliverParcel(e, tid, j);
      } else if i < |deaths| {
        delivered := [Notice(deaths[i])];
        deaths := deaths[i := if deaths[i].state.ClearQueued? then NO_DEATH else deaths[i].(state := DeathDelivered)];
      } else {
        delivered := [];
      }
    }

    method DeliverParcel(e: nat, tid: nat, j: nat) returns (status: Status)
      requires e in endpoints && (e, tid) in threads && j < |work|
      modifies this`threads, this`work, this`endpoints, this`transactions
      ensures Outcome(View(), status, [Parcel(old(work)[j])]) == DeliverWork(old(View()), e, tid, j)
    {
      var w := work[j];
      var (slots, code) := Publish(endpoints[e].slots, w.value.dataBuffer);
      if code != 0 { return Broken(-5); }
      endpoints := endpoints[e := endpoints[e].(slots := slots)];
      work := RemoveAt(work, j);
      if w.transaction != 0 {
        var slot := TransactionFor(w.transaction);
        if slot == |transactions| { return Broken(-5); }
        transactions := transactions[slot := transactions[slot].(targetTid := tid)];
        threads := threads[(e, tid) := threads[(e, tid)].(incoming := w.transaction)];
      }
      status := Done;
    }

    /** The loop of read_work; what it delivers is what it wrote after the leading NOOP. */
    method ReadWork(e: nat, tid: nat, size: nat, writable: nat) returns (status: Status, delivered: seq<Delivery>)
      requires e in endpoints && (e, tid) in threads && size >= 4 && writable > 0
      modifies this`threads, this`nodes, this`work, this`endpoints, this`transactions, this`deaths
      ensures Joined(ReadLoop(old(View()), e, tid, size - 4, writable - 1), delivered, Outcome(View(), status, []))
    {
      hide ReadLoop, Joined;
      status, delivered := ReadFrames(e, tid, size - 4, writable - 1);
    }

    method ReadFrames(e: nat, tid: nat, capacity: nat, writable: nat) returns (status: Status, delivered: seq<Delivery>)
      requires e in endpoints && (e, tid) in threads
      modifies this`threads, this`nodes, this`work, this`endpoints, this`transactions, this`deaths
      ensures Joined(ReadLoop(old(View()), e, tid, capacity, writable), delivered, Outcome(View(), status, []))
    {
      hide DeliverNext, Length, EndsRead, Joined, ReadLoop;
      delivered, status := [], Done;
      var room: nat, frames: nat := capacity, writable;
      ghost var whole := ReadLoop(View(), e, tid, room, frames);
      JoinStart(whole);
      while true
        invariant e in endpoints && (e, tid) in threads && status.Done?
        invariant Joined(whole, delivered, ReadLoop(View(), e, tid, room, frames))
        decreases room
      {
        var next := DeliverNext(View(), e, tid);
        DeliverNextKeeps(View(), e, tid);
        ReadEnds(View(), e, tid, room, frames);
        if room < 4 || next.delivered == [] || Length(next.delivered[0]) > room { return; }
        if frames == 0 { return Fail(-14), delivered; }
        LengthAtLeast(next.delivered[0]);
        var left: nat, more: nat := room - Length(next.delivered[0]), frames - 1;
        ReadOn(View(), e, tid, room, frames, left, more, whole, delivered);
        var result, shown := DeliverOne(e, tid);
        delivered := delivered + shown;
        if !result.Done? || EndsRead(shown[0]) { return result, delivered; }
        room, frames := left, more;
      }
    }
  }

  lemma CompletedIs(d: Device, e: nat, tid: nat, work: Work)
    requires (e, tid) in d.threads
    ensures var th := d.threads[(e, tid)];
            Completed(d, e, tid, work) == d.(threads := d.threads[(e, tid) := th.(completions := th.completions + 1)],
                work := d.work + [work])
  {
  }

  /** One of the first `n` references belongs to the process and holds death slot `k`. */
  ghost predicate SlotDropped(refs: seq<Reference>, n: nat, token: nat, k: nat)
    requires n <= |refs|
  {
    exists j :: 0 <= j < n && refs[j].endpoint == token && refs[j].death == k + 1
  }

  lemma NoSlotDropped(refs: seq<Reference>, token: nat)
    ensures forall k: nat :: !SlotDropped(refs, 0, token, k)
  {
  }

  lemma NextSlotDropped(refs: seq<Reference>, n: nat, token: nat, k: nat)
    requires n < |refs|
    ensures SlotDropped(refs, n + 1, token, k) <==>
              SlotDropped(refs, n, token, k) || (refs[n].endpoint == token && refs[n].death == k + 1)
  {
  }

  lemma ReleasedIs(d: Device, token: nat, k: nat, death: Death)
    requires k < |d.deaths| && death == if SlotDropped(d.references, |d.references|, token, k) then NO_DEATH
             else d.deaths[k]
    ensures ReleasedDeath(d, token, k)
            == if death.endpoint == token then NO_DEATH
               else if death.endpoint != 0 && death.owner == token
                   && death.state.Armed? then death.(state := DeathQueued) else death
  {
  }

  /** A reference that had to be made has no counts yet. */
  lemma ImportIsNew(refs: seq<Reference>, e: nat, node: Node, managerNode: nat)
    ensures var r := EnsureReference(refs, e, node, managerNode);
            r.1 == |refs| || r.0[r.1].temporary != 0 ==> r.0 == refs
  {
    hide FindImport, FreeReference, FreeHandle;
  }

  lemma NoImport(refs: seq<Reference>, e: nat, node: Node, managerNode: nat)
    ensures var r := EnsureReference(refs, e, node, managerNode); r.1 == |refs| ==> r.0 == refs
  {
    hide FindImport, FreeReference, FreeHandle;
  }

  /** The deliveries so far followed by the rest. */
  ghost predicate Joined(whole: Outcome, delivered: seq<Delivery>, rest: Outcome) {
    whole.d == rest.d && whole.status == rest.status && whole.delivered == delivered + rest.delivered
  }

  lemma JoinStart(whole: Outcome)
    ensures Joined(whole, [], whole)
  {
  }

  /** When the read loop stops without another delivery. */
  lemma ReadEnds(d: Device, e: nat, tid: nat, room: nat, frames: nat)
    requires e in d.endpoints && (e, tid) in d.threads
    ensures var next := DeliverNext(d, e, tid);
            && (room < 4 || next.delivered == [] || Length(next.delivered[0]) > room ==>
                 ReadLoop(d, e, tid, room, frames) == Outcome(d, Done, []))
            && (!(room < 4 || next.delivered == [] || Length(next.delivered[0]) > room) && frames == 0 ==>
                  ReadLoop(d, e, tid, room, frames) == Outcome(d, Fail(-14), []))
  {
    hide DeliverNext, Length, EndsRead;
  }

  /** One turn of the read loop. */
  lemma ReadOn(d: Device, e: nat, tid: nat, room: nat, frames: nat, left: nat, more: nat, whole: Outcome,
      delivered: seq<Delivery>)
    requires e in d.endpoints && (e, tid) in d.threads && Joined(whole, delivered, ReadLoop(d, e, tid, room, frames))
    requires var next := DeliverNext(d, e, tid);
             room >= 4 && next.delivered != [] && left == room - Length(next.delivered[0]) && frames > 0
                 && more == frames - 1
    ensures var next := DeliverNext(d, e, tid);
            if !next.status.Done? || EndsRead(next.delivered[0])
                then Joined(whole, delivered + next.delivered, Outcome(next.d, next.status, []))
            else e in next.d.endpoints && (e, tid) in next.d.threads
                 && Joined(whole, delivered + next.delivered, ReadLoop(next.d, e, tid, left, more))
  {
    DeliverNextKeeps(d, e, tid);
    hide DeliverNext, Length, EndsRead;
    var next := DeliverNext(d, e, tid);
    assert (delivered + next.delivered) + [] == delivered + next.delivered;
    if next.status.Done? && !EndsRead(next.delivered[0]) {
      var rest := ReadLoop(next.d, e, tid, left, more);
      assert delivered + (next.delivered + rest.delivered) == (delivered + next.delivered) + rest.delivered;
    }
  }

  lemma DepositSlot(d: Device, e: nat, tid: nat, target: nat, slots: seq<Slot>, slot: Slot, nodeIndex: nat,
      objects: seq<Flat>)
    requires target in d.endpoints
    ensures var r := Deposit(d, e, tid, target, slots, slot, nodeIndex, objects); r.Ready? ==> r.slot == slot
  {
    hide Translate, Prepare, Rollback;
  }

  lemma LengthAtLeast(x: Delivery)
    ensures Length(x) >= 4
  {
  }

  /** A call that goes nowhere changes at most the caller's error word. */
  lemma Halted(d: Device, e: nat, tid: nat, input: Packet)
    requires (e, tid) in d.threads && e in d.endpoints && RouteCall(d, e, tid, input).Halt?
    ensures var r := RouteCall(d, e, tid, input); r.d == d.(threads := r.d.threads)
  {
    hide FindReference, NodeFor, FindTransaction;
  }

  lemma TranslateNone(d: Device, e: nat, tid: nat, target: nat, buffer: nat)
    ensures Translate(d, e, tid, target, buffer, []) == Translated(d, [])
  {
  }

  lemma TranslateNext(d: Device, e: nat, tid: nat, target: nat, buffer: nat, objects: seq<Flat>, n: nat)
    requires n < |objects| && Translate(d, e, tid, target, buffer, objects[..n]).Translated?
    ensures var rest := Translate(d, e, tid, target, buffer, objects[..n]);
            var one := TranslateOne(rest.d, e, tid, target, buffer, objects[n]);
            Translate(d, e, tid, target, buffer, objects[..n + 1]) == if one.Stuck? then one
                else Translated(one.d, rest.objects + one.objects)
  {
    assert objects[..n + 1][..n] == objects[..n];
    hide TranslateOne;
  }

  lemma {:induction false} TranslateStuck(d: Device, e: nat, tid: nat, target: nat, buffer: nat, objects: seq<Flat>,
      n: nat)
    requires n <= |objects| && Translate(d, e, tid, target, buffer, objects[..n]).Stuck?
    ensures Translate(d, e, tid, target, buffer, objects) == Translate(d, e, tid, target, buffer, objects[..n])
    decreases |objects| - n
  {
    hide TranslateOne;
    if n == |objects| {
      assert objects[..n] == objects;
    } else {
      assert objects[..n + 1][..n] == objects[..n];
      TranslateStuck(d, e, tid, target, buffer, objects, n + 1);
    }
  }

  lemma LocalClaimKeeps(refs: seq<Reference>, claims: seq<Claim>, target: nat, buffer: nat, node: Node,
      managerNode: nat)
    ensures var r := AddClaim(refs, claims, target, buffer, node, false, managerNode);
            r.Claimed? ==> r.references == refs
  {
  }

  lemma UnclaimKeepsWork(d: Device, e: nat, b: nat)
    ensures Unclaim(d, e, b).work == d.work
  {
    hide ReleaseClaims, Collect;
  }
}
