/** The inventory cache: dialog names are always backed by a reading of the login dialog. */
module InventoryCache {
  import opened Outcomes

  const REFRESH_SECONDS: real := 300.0

  const VERIFIED_BUILDS: set<nat> := {6182, 6190, 6193, 6204, 6230, 6231, 6246}

  type Executable = string

  datatype Failure = TerminalChanged | CatalogueUnreadable | UiFailed(code: string)

  datatype Status = Offline | Faulty(code: string) | Starting

  datatype Snapshot = Snapshot(
    status: Status, identity: Option<nat>, hash: Option<nat>, names: seq<string>, dialog: bool)

  /** The environment's answers during one call, in the order they are asked for. */
  datatype Probe = Probe(
    identity: Option<nat>, build: Option<nat>, hash: Option<nat>, lookupClock: real,
    ui: Result<seq<string>, string>, hashAfter: Option<nat>, identityAfter: Option<nat>, storeClock: real)

  datatype Entry = Entry(identity: nat, hash: nat, build: nat, names: seq<string>, verifiedAt: real)

  /** A dialog reading confirmed by the checks after it: same process, same bytes. */
  datatype Reading = Reading(executable: Executable, entry: Entry)

  class Inventory {
    var cache: map<Executable, Entry>
    ghost var readings: set<Reading>

    constructor ()
      ensures Valid() && readings == {} && cache == map[]
    {
      cache, readings := map[], {};
    }

    /** Every cached entry repeats a confirmed reading, with its original time. */
    ghost predicate Valid()
      reads this
    {
      forall x :: x in cache ==> Reading(x, cache[x]) in readings
    }

    /** A hit needs the same process, bytes and build, verified less than 300 s ago. */
    predicate Reusable(x: Executable, identity: nat, hash: nat, build: nat, now: real): (reusable: bool)
      reads this`cache
      ensures reusable <==>
                && x in cache && cache[x].identity == identity && cache[x].hash == hash && cache[x].build == build
                && cache[x].verifiedAt <= now < cache[x].verifiedAt + 300.0
    {
      x in cache && cache[x].identity == identity && cache[x].hash == hash && cache[x].build == build &&
      0.0 <= now - cache[x].verifiedAt < REFRESH_SECONDS
    }

    /** The process is found, its build supported, its catalogue readable. */
    predicate Inspectable(p: Probe) {
      p.identity.Some? && p.build.Some? && p.build.value in VERIFIED_BUILDS && p.hash.Some?
    }

    /**
     * `collect_inventory`.  Names reported as read from the dialog come from a reading of
     * the same process, build and bytes: one made in this call, or one less than 300 s
     * old, whose age a hit leaves alone.  Any failure or change forces a new reading.
     */
    method Collect(x: Executable, inspectUi: bool, p: Probe) returns (r: Result<Snapshot, Failure>)
      requires Valid()
      modifies this
      ensures Valid() && old(readings) <= readings
      ensures forall y :: y != x ==> (y in cache <==> y in old(cache)) && (y in cache ==> cache[y] == old(cache)[y])
      ensures r.Ok? && r.value.dialog ==>
                && inspectUi && Inspectable(p) && r.value.identity == p.identity && r.value.hash == p.hash
                && p.hashAfter == p.hash && p.identityAfter == p.identity
                && exists at: real ::
                     && Reading(x, Entry(p.identity.value, p.hash.value, p.build.value, r.value.names, at)) in readings
                     && (if old(Reusable(x, p.identity.value, p.hash.value, p.build.value, p.lookupClock))
                         then 0.0 <= p.lookupClock - at < REFRESH_SECONDS &&
                              cache == old(cache) && readings == old(readings)
                         else at == p.storeClock && p.ui == Ok(r.value.names))
      ensures r == Err(TerminalChanged) <==>
                && p.identity != None
                && if p.build == None || p.build.value !in VERIFIED_BUILDS then p.identityAfter != p.identity
                   else && p.hash != None
                        && if inspectUi && p.ui.Err? &&
                              !old(Reusable(x, p.identity.value, p.hash.value, p.build.value, p.lookupClock))
                           then p.identityAfter != p.identity
                           else p.hashAfter != None && (p.hashAfter != p.hash || p.identityAfter != p.identity)
      ensures r.Err? ==> r.error == TerminalChanged || r.error == CatalogueUnreadable
      ensures r.Ok? && r.value.status.Faulty? ==>
                r.value.status.code ==
                  if p.build == None then "TERMINAL_BUILD_UNAVAILABLE"
                  else if p.build.value !in VERIFIED_BUILDS then "TERMINAL_BUILD_UNSUPPORTED"
                  else if p.ui.Err? then p.ui.error else ""
      ensures r.Ok? && r.value.dialog &&
              !old(Reusable(x, p.identity.value, p.hash.value, p.build.value, p.lookupClock)) ==>
                cache == old(cache)[
                  x := Entry(p.identity.value, p.hash.value, p.build.value, r.value.names, p.storeClock)]
      ensures forall e :: e in readings - old(readings) ==>
                && inspectUi && Inspectable(p) && p.ui.Ok? && p.hashAfter == p.hash && p.identityAfter == p.identity
                && e == Reading(x, Entry(p.identity.value, p.hash.value, p.build.value, p.ui.value, p.storeClock))
      ensures r.Ok? && r.value.status == Starting && inspectUi <==> r.Ok? && r.value.dialog
      ensures r.Ok? && r.value.status == Offline <==> p.identity == None
      ensures r.Ok? && r.value.status == Starting <==>
                && p.identity != None && p.build != None && p.build.value in VERIFIED_BUILDS && p.hash != None
                && p.hashAfter == p.hash && p.identityAfter == p.identity
                && (inspectUi ==>
                      || old(Reusable(x, p.identity.value, p.hash.value, p.build.value, p.lookupClock))
                      || p.ui.Ok?)
      ensures r.Ok? && r.value.status.Faulty? ==> r.value.identity == p.identity && r.value.names == []
      ensures inspectUi && Inspectable(p) &&
              !old(Reusable(x, p.identity.value, p.hash.value, p.build.value, p.lookupClock)) && p.ui.Err? ==>
                x !in cache && (r.Ok? ==> r.value.status == Faulty(p.ui.error))
      ensures Inspectable(p) && p.hashAfter.Some? && (p.hashAfter != p.hash || p.identityAfter != p.identity) ==>
                x !in cache && !(r.Ok? && r.value.status == Starting)
    {
      if p.identity.None? {
        return Ok(Snapshot(Offline, None, None, [], false));
      }
      if p.build.None? || p.build.value !in VERIFIED_BUILDS {
        if p.identityAfter != p.identity {
          return Err(TerminalChanged);
        }
        var code := if p.build.Some? then "TERMINAL_BUILD_UNSUPPORTED" else "TERMINAL_BUILD_UNAVAILABLE";
        return Ok(Snapshot(Faulty(code), p.identity, None, [], false));
      }
      if p.hash.None? {
        return Err(CatalogueUnreadable);
      }
      var identity, hash, build := p.identity.value, p.hash.value, p.build.value;
      var reuse := inspectUi && Reusable(x, identity, hash, build, p.lookupClock);
      var names: seq<string> := [];
      if reuse {
        names := cache[x].names;
      } else if inspectUi {
        if p.ui.Err? {
          cache := cache - {x};
          if p.identityAfter != p.identity {
            return Err(TerminalChanged);
          }
          return Ok(Snapshot(Faulty(p.ui.error), p.identity, None, [], false));
        }
        names := p.ui.value;
      }
      if p.hashAfter.None? {
        return Err(CatalogueUnreadable);
      }
      if p.hashAfter != p.hash || p.identityAfter != p.identity {
        cache := cache - {x};
        return Err(TerminalChanged);
      }
      if inspectUi && !reuse {
        var entry := Entry(identity, hash, build, names, p.storeClock);
        cache := cache[x := entry];
        readings := readings + {Reading(x, entry)};
      } else if reuse {
        assert Reading(x, Entry(identity, hash, build, names, cache[x].verifiedAt)) in readings;
      }
      return Ok(Snapshot(Starting, p.identity, p.hash, names, inspectUi));
    }
  }
}
