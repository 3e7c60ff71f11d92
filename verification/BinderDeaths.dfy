/** Death subscriptions: the slots references point at, and what each may still deliver. */
module BinderDeaths {
  import opened Base
  import opened BinderState
  import opened BinderCommands
  import opened BinderLifetime

  /** The slot of a reference's own, uncleared subscription. */
  ghost predicate Attached(death: Death, r: Reference) {
    death.endpoint == r.endpoint && death.owner == r.owner && !death.clearing && death.tid == 0
        && !death.state.ClearQueued?
  }

  /** No reference's death slot dangles, and no two references share one. */
  ghost predicate SlotsOk(refs: seq<Reference>, deaths: seq<Death>) {
    && (forall i {:trigger refs[i]} :: 0 <= i < |refs| && refs[i].endpoint != 0 && refs[i].death != 0 ==>
          refs[i].death <= |deaths| && Attached(deaths[refs[i].death - 1], refs[i]))
    && (forall i, j {:trigger refs[i], refs[j]} ::
          0 <= i < |refs| && 0 <= j < |refs| && i != j && refs[i].endpoint != 0 && refs[j].endpoint != 0
              && refs[i].death != 0 ==>
            refs[i].death != refs[j].death)
  }

  ghost predicate DeathOk(death: Death, tokens: set<nat>, nextSerial: nat) {
    && (death.endpoint == 0 ==> death == NO_DEATH)
    && (death.endpoint != 0 ==>
          && death.endpoint in tokens && death.owner != 0 && death.serial < nextSerial
          && (if death.state.Armed? then death.owner in tokens && !death.clearing
              else death.state.ClearQueued? || death.owner !in tokens)
          && (death.state.ClearQueued? ==> death.clearing)
          && (death.state.DeathAcknowledged? ==> !death.clearing)
          && (death.tid != 0 ==> death.state.ClearQueued?))
  }

  ghost predicate DeathsOk(deaths: seq<Death>, tokens: set<nat>, nextSerial: nat) {
    && (forall k {:trigger deaths[k]} :: 0 <= k < |deaths| ==> DeathOk(deaths[k], tokens, nextSerial))
    && (forall i, j {:trigger deaths[i], deaths[j]} ::
          0 <= i < |deaths| && 0 <= j < |deaths| && i != j && deaths[i].endpoint != 0 && deaths[j].endpoint != 0 ==>
            deaths[i].serial != deaths[j].serial)
  }

  /** Dropping references with their slots. */
  lemma DropKeepsDeaths(refs: seq<Reference>, refs': seq<Reference>, deaths: seq<Death>, deaths': seq<Death>,
      tokens: set<nat>, nextSerial: nat)
    requires SlotsOk(refs, deaths) && DeathsOk(deaths, tokens, nextSerial) && DeathsFollow(refs, refs', deaths, deaths')
    requires forall i {:trigger refs'[i]} :: 0 <= i < |refs| ==>
               refs'[i] == NO_REFERENCE || (refs'[i].endpoint == refs[i].endpoint && refs'[i].owner == refs[i].owner
                   && refs'[i].death == refs[i].death)
               || (refs[i].endpoint == 0 && refs'[i].death == 0)
    requires forall i {:trigger refs[i]} :: 0 <= i < |refs| && refs[i].endpoint == 0 ==> refs[i] == NO_REFERENCE
    ensures SlotsOk(refs', deaths') && DeathsOk(deaths', tokens, nextSerial)
  {
    forall i | 0 <= i < |refs'| && refs'[i].endpoint != 0 && refs'[i].death != 0
      ensures refs'[i].death <= |deaths'| && Attached(deaths'[refs'[i].death - 1], refs'[i])
    {
      var k := refs[i].death - 1;
      assert Attached(deaths[k], refs[i]);
      assert forall x :: 0 <= x < |refs| ==> !WipedWith(refs[x], refs'[x], k);
      assert deaths'[k] == deaths[k];
    }
    forall k | 0 <= k < |deaths'| ensures DeathOk(deaths'[k], tokens, nextSerial) {
      assert DeathOk(deaths[k], tokens, nextSerial);
    }
  }

  /** A new subscription in a free slot. */
  lemma RequestKeepsDeaths(refs: seq<Reference>, deaths: seq<Death>, tokens: set<nat>, nextSerial: nat, r: nat, i: nat,
      death: Death)
    requires SlotsOk(refs, deaths) && DeathsOk(deaths, tokens, nextSerial)
    requires r < |refs| && refs[r].endpoint != 0 && refs[r].endpoint in tokens && refs[r].death == 0 && i < |deaths|
             && deaths[i].endpoint == 0
    requires Attached(death, refs[r]) && death.owner != 0 && death.serial == nextSerial
    requires death.state == if refs[r].owner in tokens then Armed else DeathQueued
    ensures SlotsOk(refs[r := refs[r].(death := i + 1)], deaths[i := death])
    ensures DeathsOk(deaths[i := death], tokens, nextSerial + 1)
  {
    var refs', deaths' := refs[r := refs[r].(death := i + 1)], deaths[i := death];
    forall x | 0 <= x < |refs'| && refs'[x].endpoint != 0 && refs'[x].death != 0
      ensures refs'[x].death <= |deaths'| && Attached(deaths'[refs'[x].death - 1], refs'[x])
    {
      if x != r { assert Attached(deaths[refs[x].death - 1], refs[x]); }
    }
    forall x, y | 0 <= x < |refs'| && 0 <= y < |refs'| && x != y && refs'[x].endpoint != 0 && refs'[y].endpoint != 0
        && refs'[x].death != 0
      ensures refs'[x].death != refs'[y].death
    {
      if x != r && refs[x].death != 0 { assert Attached(deaths[refs[x].death - 1], refs[x]); }
      if y != r && refs[y].death != 0 { assert Attached(deaths[refs[y].death - 1], refs[y]); }
    }
    forall k | 0 <= k < |deaths'| ensures DeathOk(deaths'[k], tokens, nextSerial + 1) {
      assert DeathOk(deaths[k], tokens, nextSerial);
    }
  }

  /** Clearing detaches the subscription from its reference. */
  lemma ClearKeepsDeaths(refs: seq<Reference>, deaths: seq<Death>, tokens: set<nat>, nextSerial: nat, r: nat,
      death: Death)
    requires SlotsOk(refs, deaths) && DeathsOk(deaths, tokens, nextSerial)
    requires r < |refs| && refs[r].endpoint != 0 && 0 < refs[r].death <= |deaths|
    requires var was := deaths[refs[r].death - 1];
             && death == was.(state := death.state, tid := death.tid, clearing := true)
             && (if was.state.Armed? || was.state.DeathAcknowledged? then death.state.ClearQueued?
                else death.state == was.state && death.tid == was.tid)
    ensures var i := refs[r].death - 1;
            SlotsOk(refs[r := refs[r].(death := 0)], deaths[i := death])
                && DeathsOk(deaths[i := death], tokens, nextSerial)
  {
    var i := refs[r].death - 1;
    var refs', deaths' := refs[r := refs[r].(death := 0)], deaths[i := death];
    assert Attached(deaths[i], refs[r]);
    forall x | 0 <= x < |refs'| && refs'[x].endpoint != 0 && refs'[x].death != 0
      ensures refs'[x].death <= |deaths'| && Attached(deaths'[refs'[x].death - 1], refs'[x])
    {
      assert x != r && refs'[x] == refs[x];
      assert Attached(deaths[refs[x].death - 1], refs[x]);
    }
    forall k | 0 <= k < |deaths'| ensures DeathOk(deaths'[k], tokens, nextSerial) {
      assert DeathOk(deaths[k], tokens, nextSerial);
    }
  }

  /** Progress of one subscription that no reference objects to: delivery, acknowledgement, clearing, removal. */
  lemma AdvanceKeepsDeaths(refs: seq<Reference>, deaths: seq<Death>, tokens: set<nat>, nextSerial: nat, i: nat,
      death: Death)
    requires SlotsOk(refs, deaths) && DeathsOk(deaths, tokens, nextSerial) && i < |deaths| && deaths[i].endpoint != 0
    requires DeathOk(death, tokens, nextSerial)
    requires death == NO_DEATH || death == deaths[i].(state := death.state, tid := death.tid)
    requires forall r {:trigger refs[r]} :: 0 <= r < |refs| && refs[r].endpoint != 0 && refs[r].death == i + 1 ==>
               Attached(death, refs[r])
    ensures SlotsOk(refs, deaths[i := death]) && DeathsOk(deaths[i := death], tokens, nextSerial)
  {
    var deaths' := deaths[i := death];
    forall x | 0 <= x < |refs| && refs[x].endpoint != 0 && refs[x].death != 0
      ensures refs[x].death <= |deaths'| && Attached(deaths'[refs[x].death - 1], refs[x])
    {
      assert Attached(deaths[refs[x].death - 1], refs[x]);
    }
  }
}
