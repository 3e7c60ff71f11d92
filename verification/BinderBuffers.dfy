/** Receive buffers: every queued parcel and every claim names a buffer its endpoint's arena still holds. */
module BinderBuffers {
  import opened Base
  import opened BinderArena
  import opened BinderState
  import opened BinderCommands
  import opened BinderParcels

  type Endpoints = map<nat, Endpoint>

  ghost predicate Holds(eps: Endpoints, e: nat, b: nat, v: bool) {
    e in eps && IsHeld(eps[e].slots, b, v)
  }

  ghost predicate EndpointOk(ep: Endpoint) {
    ep.slots != [] || ep.watch == 3 ==> Laid(ep.slots, ep.base, ep.size)
  }

  ghost predicate EndpointsOk(eps: Endpoints, next: nat) {
    forall e :: e in eps ==>
          0 < e < next && EndpointOk(eps[e]) && (!eps[e].mappedOnce ==> eps[e].slots == [] && eps[e].watch == 0)
  }

  /** Queued parcels sit in distinct undelivered buffers. */
  ghost predicate WorkHeld(eps: Endpoints, work: seq<Work>) {
    && (forall j {:trigger work[j]} :: 0 <= j < |work| ==>
          work[j].value.dataBuffer != 0 && Holds(eps, work[j].endpoint, work[j].value.dataBuffer, false))
    && (forall i, j {:trigger work[i], work[j]} :: 0 <= i < j < |work| ==>
          !(work[i].endpoint == work[j].endpoint && work[i].value.dataBuffer == work[j].value.dataBuffer))
  }

  ghost predicate ClaimsHeld(eps: Endpoints, claims: seq<Claim>) {
    forall c {:trigger claims[c]} :: 0 <= c < |claims| && claims[c].endpoint != 0 ==>
      claims[c].buffer != 0 && (Holds(eps, claims[c].endpoint, claims[c].buffer, true)
          || Holds(eps, claims[c].endpoint, claims[c].buffer, false))
  }

  /** Every buffer in use has its parcel, and every handle the driver wrote into one is still claimed for it. */
  ghost predicate ParcelsHeld(eps: Endpoints, claims: seq<Claim>, parcels: map<(nat, nat), seq<Flat>>) {
    && (forall k :: k in parcels ==>
          k.0 != 0 && (Holds(eps, k.0, k.1, true) || Holds(eps, k.0, k.1, false))
              && Covered(parcels[k], claims, k.0, k.1))
    && (forall e: nat, b: nat, v {:trigger Holds(eps, e, b, v)} :: Holds(eps, e, b, v) ==> (e, b) in parcels)
  }

  ghost predicate BuffersOk(eps: Endpoints, next: nat, work: seq<Work>, claims: seq<Claim>, parcels: map<(nat, nat),
      seq<Flat>>) {
    EndpointsOk(eps, next) && WorkHeld(eps, work) && ClaimsHeld(eps, claims) && ParcelsHeld(eps, claims, parcels)
  }

  // ---- how the arenas change ----

  ghost predicate Taken(eps: Endpoints, eps': Endpoints, e: nat, b: nat) {
    && eps'.Keys == eps.Keys
    && forall x, a, v {:trigger Holds(eps', x, a, v)} :: Holds(eps', x, a, v) <==>
         Holds(eps, x, a, v) && !(x == e && a == b)
  }

  ghost predicate Added(eps: Endpoints, eps': Endpoints, e: nat, b: nat) {
    && eps'.Keys == eps.Keys && !Holds(eps, e, b, true) && !Holds(eps, e, b, false)
    && forall x, a, v {:trigger Holds(eps', x, a, v)} :: Holds(eps', x, a, v) <==>
         Holds(eps, x, a, v) || (x == e && a == b && !v)
  }

  ghost predicate Shown(eps: Endpoints, eps': Endpoints, e: nat, b: nat) {
    && eps'.Keys == eps.Keys
    && forall x, a, v {:trigger Holds(eps', x, a, v)} :: Holds(eps', x, a, v) <==>
         if x == e && a == b then v else Holds(eps, x, a, v)
  }

  lemma HeldLaid(eps: Endpoints, next: nat, e: nat, b: nat, v: bool)
    requires EndpointsOk(eps, next) && Holds(eps, e, b, v)
    ensures Laid(eps[e].slots, eps[e].base, eps[e].size) && b != 0
  {
    assert EndpointOk(eps[e]);
    var i :| 0 <= i < |eps[e].slots| && eps[e].slots[i].address == b && eps[e].slots[i].delivered == v;
    assert SlotFits(eps[e].slots[i], eps[e].base, eps[e].size);
  }

  lemma TakeBuffer(eps: Endpoints, next: nat, e: nat, b: nat, v: bool)
    requires EndpointsOk(eps, next) && Holds(eps, e, b, v)
    ensures var (slots, code) := Remove(eps[e].slots, b, v);
            var eps' := eps[e := eps[e].(slots := slots)];
            code == 0 && Taken(eps, eps', e, b) && EndpointsOk(eps', next)
  {
    HeldLaid(eps, next, e, b, v);
    var ep := eps[e];
    var (slots, code) := Remove(ep.slots, b, v);
    RemoveHolds(ep.slots, ep.base, ep.size, b, v);
    hide Laid, IsHeld, Remove;
    var eps' := eps[e := ep.(slots := slots)];
    assert eps'.Keys == eps.Keys;
    assert ep.mappedOnce by { Nonempty(ep.slots, b, v); }
  }

  lemma Nonempty(slots: seq<Slot>, b: nat, v: bool)
    requires IsHeld(slots, b, v)
    ensures slots != []
  {
  }

  lemma ShowBuffer(eps: Endpoints, next: nat, e: nat, b: nat)
    requires EndpointsOk(eps, next) && Holds(eps, e, b, false)
    ensures var (slots, code) := Publish(eps[e].slots, b);
            var eps' := eps[e := eps[e].(slots := slots)];
            code == 0 && Shown(eps, eps', e, b) && EndpointsOk(eps', next)
  {
    HeldLaid(eps, next, e, b, false);
    var ep := eps[e];
    var (slots, code) := Publish(ep.slots, b);
    PublishHolds(ep.slots, ep.base, ep.size, b);
    hide Laid, IsHeld, Publish;
    assert eps[e := ep.(slots := slots)].Keys == eps.Keys;
    assert ep.mappedOnce by { Nonempty(ep.slots, b, false); }
  }

  lemma AddBuffer(eps: Endpoints, next: nat, e: nat, limit: nat, dataSize: nat, offsetsSize: nat)
    requires EndpointsOk(eps, next) && e in eps && eps[e].watch == 3 && eps[e].mappedOnce
    requires Laid(eps[e].slots, eps[e].base, eps[e].size)
    requires Reserve(eps[e].slots, eps[e].base, eps[e].size, limit, dataSize, offsetsSize, 0, false).Placed?
    ensures var r := Reserve(eps[e].slots, eps[e].base, eps[e].size, limit, dataSize, offsetsSize, 0, false);
            r.index < |r.slots| &&
            var b := r.slots[r.index].address;
            var eps' := eps[e := eps[e].(slots := r.slots)];
            && Added(eps, eps', e, b) && EndpointsOk(eps', next) && b != 0 && !r.slots[r.index].delivered
            && RemoveAt(r.slots, r.index) == eps[e].slots && Distinct(r.slots)
  {
    hide Laid, IsHeld, Reserve, IsBestFit, Distinct, NothingFits, Extent, RoundUp8, GapStart;
    var ep := eps[e];
    var r := Reserve(ep.slots, ep.base, ep.size, limit, dataSize, offsetsSize, 0, false);
    ReserveIsBestFit(ep.slots, ep.base, ep.size, limit, dataSize, offsetsSize, 0, false);
    ReserveLaid(ep.slots, ep.base, ep.size, limit, dataSize, offsetsSize, 0, false);
    ReserveHolds(ep.slots, ep.base, ep.size, limit, dataSize, offsetsSize, 0, false);
    LaidDistinct(r.slots, ep.base, ep.size);
    LaidAddress(r.slots, ep.base, ep.size, r.index);
    var eps' := eps[e := ep.(slots := r.slots)];
    assert eps'.Keys == eps.Keys;
    assert EndpointsOk(eps', next);
  }

  lemma LaidAddress(slots: seq<Slot>, base: nat, capacity: nat, k: nat)
    requires Laid(slots, base, capacity) && k < |slots|
    ensures slots[k].address != 0
  {
    assert SlotFits(slots[k], base, capacity);
  }

  // ---- the invariant follows ----

  lemma TakeKeepsBuffers(eps: Endpoints, next: nat, work: seq<Work>, claims: seq<Claim>, parcels: map<(nat, nat),
      seq<Flat>>,
                         eps': Endpoints, work': seq<Work>, claims': seq<Claim>, e: nat, b: nat)
    requires BuffersOk(eps, next, work, claims, parcels) && Taken(eps, eps', e, b) && EndpointsOk(eps', next) && e != 0
             && b != 0
    requires WorkHeld(eps, work') && forall j {:trigger work'[j]} :: 0 <= j < |work'| ==>
               !(work'[j].endpoint == e && work'[j].value.dataBuffer == b)
    requires |claims'| == |claims| && forall c {:trigger claims'[c]} :: 0 <= c < |claims| ==>
               claims'[c] == if Matches(claims[c], e, b) then NO_CLAIM else claims[c]
    ensures BuffersOk(eps', next, work', claims', parcels - {(e, b)})
  {
    hide Holds, EndpointsOk;
    var parcels' := parcels - {(e, b)};
    forall k | k in parcels' ensures Covered(parcels'[k], claims', k.0, k.1) {
      assert Covered(parcels[k], claims, k.0, k.1);
      CoveredElsewhere(parcels[k], claims, claims', k.0, k.1, e, b);
    }
    forall x: nat, a: nat, v | Holds(eps', x, a, v) ensures (x, a) in parcels' {
      assert Holds(eps, x, a, v) && (x, a) != (e, b);
    }
  }

  lemma CoveredElsewhere(objects: seq<Flat>, claims: seq<Claim>, claims': seq<Claim>, x: nat, a: nat, e: nat, b: nat)
    requires Covered(objects, claims, x, a) && !(x == e && a == b) && b != 0
    requires |claims'| == |claims| && forall c {:trigger claims'[c]} :: 0 <= c < |claims| ==>
               claims'[c] == if Matches(claims[c], e, b) then NO_CLAIM else claims[c]
    ensures Covered(objects, claims', x, a)
  {
    forall i | 0 <= i < |objects| && objects[i].Handle?
      ensures exists c ::
                0 <= c < |claims'| && claims'[c].endpoint == x && claims'[c].buffer == a && claims'[c].remote
                && claims'[c].handle == objects[i].handle
    {
      var c :| 0 <= c < |claims| && claims[c].endpoint == x && claims[c].buffer == a && claims[c].remote
          && claims[c].handle == objects[i].handle;
      assert claims'[c] == claims[c];
    }
  }

  lemma RemoveWorkHeld(eps: Endpoints, work: seq<Work>, j: nat)
    requires WorkHeld(eps, work) && j < |work|
    ensures WorkHeld(eps, RemoveAt(work, j))
    ensures forall i {:trigger RemoveAt(work, j)[i]} :: 0 <= i < |work| - 1 ==>
              !(RemoveAt(work, j)[i].endpoint == work[j].endpoint
                  && RemoveAt(work, j)[i].value.dataBuffer == work[j].value.dataBuffer)
  {
    hide Holds;
    var after := RemoveAt(work, j);
    forall i | 0 <= i < |after| ensures after[i] == work[if i < j then i else i + 1] {}
    forall a, b | 0 <= a < b < |after|
      ensures !(after[a].endpoint == after[b].endpoint && after[a].value.dataBuffer == after[b].value.dataBuffer)
    {
      assert after[a] == work[if a < j then a else a + 1] && after[b] == work[if b < j then b else b + 1];
    }
    forall i | 0 <= i < |after|
      ensures !(after[i].endpoint == work[j].endpoint && after[i].value.dataBuffer == work[j].value.dataBuffer)
    {
      assert after[i] == work[if i < j then i else i + 1];
    }
  }

  /** A parcel placed in a new buffer with its claims, ready to be queued. */
  lemma AddKeepsBuffers(eps: Endpoints, next: nat, work: seq<Work>, claims: seq<Claim>, parcels: map<(nat, nat),
      seq<Flat>>,
                        eps': Endpoints, claims': seq<Claim>, e: nat, b: nat, objects: seq<Flat>, w: Work)
    requires BuffersOk(eps, next, work, claims, parcels) && Added(eps, eps', e, b) && EndpointsOk(eps', next)
             && e in eps && b != 0
    requires ClaimsGrown(claims, claims', e, b) && Covered(objects, claims', e, b)
    requires w.endpoint == e && w.value.dataBuffer == b
    ensures BuffersOk(eps', next, work + [w], claims', parcels[(e, b) := objects])
  {
    assert Holds(eps', e, b, false);
    hide Holds, EndpointsOk;
    var parcels' := parcels[(e, b) := objects];
    var work' := work + [w];
    forall k | k in parcels'
      ensures k.0 != 0 && (Holds(eps', k.0, k.1, true) || Holds(eps', k.0, k.1, false))
              && Covered(parcels'[k], claims', k.0, k.1)
    {
      if k != (e, b) {
        assert Covered(parcels[k], claims, k.0, k.1);
        CoveredGrown(parcels[k], claims, claims', k.0, k.1, e, b);
      }
    }
    forall j | 0 <= j < |work'|
      ensures work'[j].value.dataBuffer != 0 && Holds(eps', work'[j].endpoint, work'[j].value.dataBuffer, false)
    {
      assert j < |work| ==> work'[j] == work[j];
    }
    forall i, j | 0 <= i < j < |work'|
      ensures !(work'[i].endpoint == work'[j].endpoint && work'[i].value.dataBuffer == work'[j].value.dataBuffer)
    {
      assert work'[i] == work[i];
      assert j < |work| ==> work'[j] == work[j];
    }
    forall c | 0 <= c < |claims'| && claims'[c].endpoint != 0
      ensures claims'[c].buffer != 0 && (Holds(eps', claims'[c].endpoint, claims'[c].buffer, true)
              || Holds(eps', claims'[c].endpoint, claims'[c].buffer, false))
    {
      assert claims'[c] == claims[c] || (claims'[c].endpoint == e && claims'[c].buffer == b);
    }
  }

  lemma ShowKeepsBuffers(eps: Endpoints, next: nat, work: seq<Work>, claims: seq<Claim>, parcels: map<(nat, nat),
      seq<Flat>>,
                         eps': Endpoints, j: nat)
    requires BuffersOk(eps, next, work, claims, parcels) && j < |work|
    requires Shown(eps, eps', work[j].endpoint, work[j].value.dataBuffer) && EndpointsOk(eps', next)
    ensures BuffersOk(eps', next, RemoveAt(work, j), claims, parcels)
  {
    RemoveWorkHeld(eps, work, j);
    hide Holds, EndpointsOk, Covered;
  }

  /** A free address has no claims and no parcel. */
  lemma FreshBuffer(eps: Endpoints, next: nat, work: seq<Work>, claims: seq<Claim>, parcels: map<(nat, nat), seq<Flat>>,
      e: nat, b: nat)
    requires BuffersOk(eps, next, work, claims, parcels) && !Holds(eps, e, b, true) && !Holds(eps, e, b, false)
             && e != 0
    ensures Unclaimed(claims, e, b) && (e, b) !in parcels
  {
    hide Holds, Covered;
  }
}
