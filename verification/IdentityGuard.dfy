/**
 * The identity and access checks around a collection: one process, one account, one
 * build, one trading mode, and no trading without consent.
 */
module IdentityGuard {
  import opened Outcomes
  import opened Contracts
  import opened Normalization

  /** What one look at the terminal finds. */
  datatype Look = Look(
    process: bool,       // the process identity is the requested one
    account: bool,       // account, server and both paths are the requested ones
    connected: bool,
    trading: bool,       // the account may trade
    apiDisabled: bool,   // trading through the API is off
    readOnly: bool,      // the caption shows a read-only session
    build: nat)

  /** The trading mode and the build seen so far. */
  datatype Identity = Identity(mode: Option<bool>, build: Option<nat>)

  const UNSEEN := Identity(None, None)

  datatype Glance = Glance(seen: Identity, failure: Option<Code>)

  /** One check; the mode is kept even when a later condition fails. */
  function Glanced(seen: Identity, look: Look, consented: bool): Glance {
    if !look.process then Glance(seen, Some(TERMINAL_CHANGED))
    else if !look.account then Glance(seen, Some(IDENTITY_DRIFT))
    else if !look.connected then Glance(seen, Some(NETWORK_UNAVAILABLE))
    else if look.trading && !consented then Glance(seen, Some(TRADING_ENABLED))
    else if seen.mode.Some? && seen.mode.value != look.trading then Glance(seen, Some(IDENTITY_DRIFT))
    else
      var moded := seen.(mode := Some(look.trading));
      if !look.apiDisabled then Glance(moded, Some(PYTHON_TRADING_ENABLED))
      else if !look.trading && !consented && !look.readOnly then Glance(moded, Some(INVESTOR_UNVERIFIED))
      else if seen.build.Some? && seen.build.value != look.build then Glance(moded, Some(IDENTITY_DRIFT))
      else Glance(moded.(build := Some(look.build)), None)
  }

  /** While the caption settles, only an unverified investor is looked at again; the last look decides. */
  function Settled(seen: Identity, looks: seq<Look>, consented: bool): Glance
    decreases |looks|
  {
    if looks == [] then Glance(seen, Some(INVESTOR_UNVERIFIED))
    else
      var first := Glanced(seen, looks[0], consented);
      if first.failure == Some(INVESTOR_UNVERIFIED) && |looks| > 1 then Settled(first.seen, looks[1..], consented)
      else first
  }

  /**
   * What surrounds the history of one collection: the positions, the looks until the
   * caption settled, those before and after the pause, after the history and after the
   * positions, whether the account is readable, the consent to a trading password, and
   * what the platform raises for an instant before the epoch or outside the calendar.
   */
  datatype Side = Side(
    positions: Batch, settling: seq<Look>, beforePause: Look, afterPause: Look, afterHistory: Look,
    afterPositions: Look, accountReadable: bool, consented: bool, outside: Option<Code>)
  {
    function Nth(k: nat): Look {
      if k == 0 then beforePause else if k == 1 then afterPause else if k == 2 then afterHistory else afterPositions
    }
  }

  function Verdict(g: Glance): Result<Identity, Code> {
    if g.failure.Some? then Err(g.failure.value) else Ok(g.seen)
  }

  /** The identity after settling and `k` further looks, or the first failure. */
  function Watched(side: Side, k: nat): Result<Identity, Code> {
    if k == 0 then Verdict(Settled(UNSEEN, side.settling, side.consented))
    else var seen :- Watched(side, k - 1); Verdict(Glanced(seen, side.Nth(k - 1), side.consented))
  }

  /** A look that may be built on: the requested process and account, and no trading without consent. */
  predicate Sound(look: Look, consented: bool) {
    && look.process && look.account && look.connected && look.apiDisabled
    && (consented || (!look.trading && look.readOnly))
  }

  predicate FitsIdentity(seen: Identity, look: Look) {
    (seen.mode.Some? ==> seen.mode.value == look.trading) && (seen.build.Some? ==> seen.build.value == look.build)
  }

  lemma GlanceIsExact(seen: Identity, look: Look, consented: bool)
    ensures Glanced(seen, look, consented).failure.None? <==> Sound(look, consented) && FitsIdentity(seen, look)
    ensures Glanced(seen, look, consented).failure.None? ==>
              Glanced(seen, look, consented).seen == Identity(Some(look.trading), Some(look.build))
  {
  }

  /** Which condition a look fails by: the first one in this order; the mode counts as seen once it agrees. */
  lemma FailureIs(seen: Identity, look: Look, consented: bool)
    ensures var g := Glanced(seen, look, consented);
            var found := look.process && look.account && look.connected && (look.trading ==> consented);
            var agrees := found && (seen.mode == None || seen.mode == Some(look.trading));
            && (g.failure == Some(TERMINAL_CHANGED) <==> !look.process)
            && (g.failure == Some(NETWORK_UNAVAILABLE) <==> look.process && look.account && !look.connected)
            && (g.failure == Some(TRADING_ENABLED) <==>
                  look.process && look.account && look.connected && look.trading && !consented)
            && (g.failure == Some(PYTHON_TRADING_ENABLED) <==> agrees && !look.apiDisabled)
            && (g.failure == Some(INVESTOR_UNVERIFIED) <==>
                  agrees && look.apiDisabled && !look.trading && !look.readOnly && !consented)
            && (g.failure == Some(IDENTITY_DRIFT) <==>
                  || (look.process && !look.account)
                  || (found && !agrees)
                  || (agrees && Sound(look, consented) && seen.build != None && seen.build != Some(look.build)))
            && g.seen.mode == (if agrees then Some(look.trading) else seen.mode)
  {
  }

  /** The looks after settling are all sound and of the terminal first seen, exactly when none of them fails. */
  lemma {:induction false} WatchedIsConstant(side: Side, k: nat)
    requires Watched(side, 0).Ok?
    ensures Watched(side, k).Ok? <==>
            forall i: nat :: i < k ==>
              Sound(side.Nth(i), side.consented) && FitsIdentity(Watched(side, 0).value, side.Nth(i))
    ensures Watched(side, 0).value.mode.Some? && Watched(side, 0).value.build.Some?
    ensures Watched(side, k).Ok? ==> Watched(side, k) == Watched(side, 0)
  {
    if k == 0 {
      SettledOnLook(UNSEEN, side.settling, side.consented);
    } else {
      WatchedIsConstant(side, k - 1);
      if Watched(side, k - 1).Ok? {
        GlanceIsExact(Watched(side, k - 1).value, side.Nth(k - 1), side.consented);
      }
    }
  }

  function AroundHistory(side: Side): seq<Look> {
    [side.beforePause, side.afterPause, side.afterHistory, side.afterPositions]
  }

  /** The four looks around the history, as far as they were taken: each is sound and of the terminal first seen. */
  lemma EveryLookCounts(side: Side, k: nat)
    requires k <= 4
    ensures Watched(side, k).Ok? <==>
            && Watched(side, 0).Ok?
            && forall look :: look in AroundHistory(side)[..k] ==>
                 Sound(look, side.consented) && FitsIdentity(Watched(side, 0).value, look)
  {
    var looks := AroundHistory(side);
    if Watched(side, 0).Ok? {
      WatchedIsConstant(side, k);
      assert forall i: nat :: i < k ==> looks[i] == side.Nth(i) && looks[i] in looks[..k];
    } else {
      FirstFailureStays(side, k);
    }
  }

  lemma {:induction false} FirstFailureStays(side: Side, k: nat)
    requires Watched(side, 0).Err?
    ensures Watched(side, k) == Watched(side, 0)
  {
    if k > 0 {
      FirstFailureStays(side, k - 1);
    }
  }

  /**
   * One look decides the settling: each one before it found an unverified investor and
   * nothing else wrong, and it finds something else, nothing, or is the last.
   */
  lemma {:induction false} OneLookDecides(seen: Identity, looks: seq<Look>, consented: bool)
    returns (states: seq<Identity>, k: nat)
    requires looks != []
    ensures k < |looks| && |states| == k + 1 && states[0] == seen
    ensures forall j :: 0 <= j < k ==>
              Glanced(states[j], looks[j], consented) == Glance(states[j + 1], Some(INVESTOR_UNVERIFIED))
    ensures Settled(seen, looks, consented) == Glanced(states[k], looks[k], consented)
    ensures Settled(seen, looks, consented).failure == Some(INVESTOR_UNVERIFIED) ==> k == |looks| - 1
    decreases |looks|
  {
    var first := Glanced(seen, looks[0], consented);
    if first.failure == Some(INVESTOR_UNVERIFIED) && |looks| > 1 {
      var later, m := OneLookDecides(first.seen, looks[1..], consented);
      states, k := [seen] + later, m + 1;
    } else {
      states, k := [seen], 0;
    }
  }

  /** Settling ends well on a sound look, and remembers it. */
  lemma {:induction false} SettledOnLook(seen: Identity, looks: seq<Look>, consented: bool)
    requires Settled(seen, looks, consented).failure.None?
    ensures exists k :: 0 <= k < |looks| && Sound(looks[k], consented) &&
              Settled(seen, looks, consented).seen == Identity(Some(looks[k].trading), Some(looks[k].build))
    decreases |looks|
  {
    var first := Glanced(seen, looks[0], consented);
    GlanceIsExact(seen, looks[0], consented);
    if first.failure == Some(INVESTOR_UNVERIFIED) && |looks| > 1 {
      SettledOnLook(first.seen, looks[1..], consented);
      var k :| 0 <= k < |looks[1..]| && Sound(looks[1..][k], consented) &&
               Settled(first.seen, looks[1..], consented).seen ==
                 Identity(Some(looks[1..][k].trading), Some(looks[1..][k].build));
      assert looks[k + 1] == looks[1..][k];
    }
  }

  class Guard {
    const side: Side
    var tradingMode: Option<bool>
    var verifiedBuild: Option<nat>
    ghost var taken: nat

    constructor (side: Side)
      ensures this.side == side && tradingMode == None && verifiedBuild == None
    {
      this.side := side;
      tradingMode, verifiedBuild := None, None;
      taken := 0;
    }

    function Seen(): Identity
      reads this
    {
      Identity(tradingMode, verifiedBuild)
    }

    /** So far no look has failed. */
    ghost predicate Valid()
      reads this
    {
      Watched(side, taken) == Ok(Seen())
    }

    /** `identity`: conditions in order, with the mode and the build remembered on the way. */
    method Check(look: Look) returns (failure: Option<Code>)
      modifies this`tradingMode, this`verifiedBuild
      ensures Glance(Seen(), failure) == Glanced(old(Seen()), look, side.consented)
    {
      if !look.process {
        return Some(TERMINAL_CHANGED);
      }
      if !look.account {
        return Some(IDENTITY_DRIFT);
      }
      if !look.connected {
        return Some(NETWORK_UNAVAILABLE);
      }
      if look.trading && !side.consented {
        return Some(TRADING_ENABLED);
      }
      if tradingMode.Some? && tradingMode.value != look.trading {
        return Some(IDENTITY_DRIFT);
      }
      tradingMode := Some(look.trading);
      if !look.apiDisabled {
        return Some(PYTHON_TRADING_ENABLED);
      }
      if !look.trading && !side.consented && !look.readOnly {
        return Some(INVESTOR_UNVERIFIED);
      }
      if verifiedBuild.Some? && verifiedBuild.value != look.build {
        return Some(IDENTITY_DRIFT);
      }
      verifiedBuild := Some(look.build);
      return None;
    }

    /** The looks until the caption has settled. */
    method Settle() returns (r: Result<(), Code>)
      requires Seen() == UNSEEN
      modifies this
      ensures r.Ok? ==> Valid() && taken == 0
      ensures r.Err? ==> Watched(side, 0) == Err(r.error)
    {
      taken := 0;
      var failure := Some(INVESTOR_UNVERIFIED);
      ghost var goal := Settled(UNSEEN, side.settling, side.consented);
      for n := 0 to |side.settling|
        invariant taken == 0 && failure == Some(INVESTOR_UNVERIFIED)
        invariant n < |side.settling| ==> goal == Settled(Seen(), side.settling[n..], side.consented)
        invariant n == |side.settling| ==> goal == Glance(Seen(), failure)
      {
        assert side.settling[n..][1..] == side.settling[n + 1..];
        failure := Check(side.settling[n]);
        if failure != Some(INVESTOR_UNVERIFIED) {
          break;
        }
      }
      assert goal == Glance(Seen(), failure);
      r := if failure.None? then Ok(()) else Err(failure.value);
    }

    /** The look number `k`, the next one. */
    method Watch(k: nat) returns (r: Result<(), Code>)
      requires Valid() && k == taken
      modifies this
      ensures r.Ok? ==> Valid() && taken == k + 1
      ensures r.Err? ==> Watched(side, k + 1) == Err(r.error)
    {
      var failure := Check(side.Nth(k));
      taken := k + 1;
      r := if failure.None? then Ok(()) else Err(failure.value);
    }
  }
}
