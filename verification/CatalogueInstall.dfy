/**
 * One cycle of catalogue spreading on the files: the bytes are those whose names were
 * read in the source's login dialog, and the target's `servers.dat` is at every moment
 * either the old file or that very catalogue.
 *
 * A file's content is a number, equal exactly when the hashes are equal.  An install may
 * be cut off while it writes; what was written by then is any content.
 */
module CatalogueInstall {
  import opened Outcomes
  import opened CatalogueSync

  const SIZE_LIMIT: nat := 8_388_608

  type Content = nat

  /** The catalogue, a leftover of an interrupted install, the backups, and the live process of a slot. */
  datatype Files = Files(
    servers: Option<Content>, temporary: Option<Content>, backups: seq<Content>, running: Option<nat>)

  /** Where an install is cut off, and what it had written there; a restart that raises ends it too. */
  datatype Cut =
    | Uncut
    | WhileFreezing(part: Content)
    | WhileBackingUp(part: Content)
    | WhileWriting(part: Content)
    | BeforeReplacing
    | WhileRestarting

  /** What one cycle asks of the environment. */
  datatype World = World(
    build: nat -> nat,          // the build of a slot's executable
    verifiedBuilds: set<nat>,
    size: Content -> nat,
    read: Content,              // what reading the source's file yields
    reread: Option<Content>,    // its fingerprint, and
    stays: bool,                // whether its process is the same, after the read
    accepts: bool,              // the API took the prepare call and the fenced process was stopped
    cut: Cut)

  /** The second look at the target: fresh evidence that loses none of its names. */
  predicate MayReceive(target: Worker, names: set<Name>, now: real) {
    Verified(target, now) && NameSet(target) <= names
  }

  predicate Transferable(w: World, data: Content, build: nat) {
    build in w.verifiedBuilds && 0 < w.size(data) <= SIZE_LIMIT
  }

  /** The target's process and file are those of its evidence. */
  predicate Untouched(f: Files, target: Worker) {
    && target.snapshot.Some?
    && f.running.Some? && f.running == target.snapshot.value.identity
    && f.servers.Some? && f.servers == target.snapshot.value.hash
  }

  /** At every moment: the old catalogue, or the new one with the old one backed up. */
  ghost predicate OldOrNew(before: Files, after: Files, data: Content) {
    && before.backups <= after.backups
    && (after.servers == before.servers ||
        (before.servers.Some? && after.servers == Some(data) &&
         after.backups == before.backups + [before.servers.value] && before.temporary.None?))
  }

  /** What must hold besides the files an interrupted install may have left. */
  predicate Permitted(f: Files, target: Worker, data: Content, names: set<Name>, build: nat, now: real, w: World) {
    && MayReceive(target, names, now) && Transferable(w, data, build)
    && w.build(target.id) == build && Untouched(f, target) && w.accepts
  }

  /** In full: what the second look, the guards and the API must find. */
  lemma PermittedIs(f: Files, target: Worker, data: Content, names: set<Name>, build: nat, now: real, w: World)
    ensures Permitted(f, target, data, names, build, now, w) <==>
            && Verified(target, now) && (forall n :: n in Names(target) ==> n in names)
            && build in w.verifiedBuilds && w.build(target.id) == build
            && 1 <= w.size(data) <= 8 * 1024 * 1024
            && f.running != None && f.running == target.snapshot.value.identity
            && f.servers == target.snapshot.value.hash && w.accepts
  {
  }

  /** What a replacement leaves, wherever it is cut off; the backup comes first, the catalogue last. */
  function After(f: Files, data: Content, cut: Cut): Files
    requires f.servers.Some?
  {
    var was := f.servers.value;
    if cut.WhileBackingUp? then f.(backups := f.backups + [cut.part])
    else if f.temporary.Some? then f.(backups := f.backups + [was])
    else if cut.WhileWriting? then f.(backups := f.backups + [was], temporary := Some(cut.part))
    else if cut.BeforeReplacing? then f.(backups := f.backups + [was], temporary := Some(data))
    else f.(backups := f.backups + [was], servers := Some(data))
  }

  /** The immutable copy is absent or whole, and no temporary file is left over. */
  predicate Unobstructed(f: Files, frozen: map<Content, Content>, data: Content) {
    (data in frozen ==> frozen[data] == data) && f.temporary.None?
  }

  /** The install gets as far as the replacement. */
  predicate Reaches(cut: Cut, frozen: map<Content, Content>, data: Content) {
    cut.Uncut? || cut.WhileRestarting? || (cut.WhileFreezing? && data in frozen)
  }

  /** The install gets as far as the new catalogue. */
  predicate Replaces(
      f: Files, frozen: map<Content, Content>, target: Worker, data: Content, names: set<Name>, build: nat, now: real,
      w: World)
  {
    Permitted(f, target, data, names, build, now, w) && Unobstructed(f, frozen, data) && Reaches(w.cut, frozen, data)
  }

  /** What an install that was cut off while it wrote the temporary file leaves. */
  function Interrupted(f: Files, part: Content): Files
    requires f.servers.Some?
  {
    Files(f.servers, Some(part), f.backups + [f.servers.value], None)
  }

  /** The immutable copy passes. */
  predicate Freezes(frozen: map<Content, Content>, data: Content, cut: Cut) {
    if data in frozen then frozen[data] == data else !cut.WhileFreezing?
  }

  /** The source is as its evidence says, before and after its file was read. */
  ghost predicate Confirmed(f: Files, source: Worker, w: World) {
    && source.snapshot.Some? && source.snapshot.value.hash == Some(w.read)
    && f.running.Some? && f.running == source.snapshot.value.identity && f.servers == Some(w.read)
    && w.reread == Some(w.read) && w.stays
  }

  class Slots {
    var files: map<nat, Files>
    var frozen: map<Content, Content>

    constructor (files: map<nat, Files>)
      ensures this.files == files && frozen == map[]
    {
      this.files, frozen := files, map[];
    }

    /** The immutable copy, filed under its hash; one that was cut off while being written never passes. */
    method Freeze(data: Content, cut: Cut) returns (ok: bool)
      modifies this`frozen
      ensures ok <==> if data in old(frozen) then old(frozen)[data] == data else !cut.WhileFreezing?
      ensures ok ==> data in frozen && frozen[data] == data
      ensures data !in old(frozen) && cut.WhileFreezing? ==> frozen == old(frozen)[data := cut.part]
      ensures forall d :: d in old(frozen) ==> d in frozen && frozen[d] == old(frozen)[d]
    {
      if data !in frozen {
        if cut.WhileFreezing? {
          frozen := frozen[data := cut.part];
          return false;
        }
        frozen := frozen[data := data];
      }
      return frozen[data] == data;
    }

    /** Backup, temporary file, atomic replacement; the slot's terminal is stopped by now. */
    method Replace(id: nat, data: Content, cut: Cut) returns (ok: bool)
      requires id in files && files[id].servers.Some? && files[id].running.None?
      modifies this`files
      ensures files.Keys == old(files).Keys && forall k :: k in files && k != id ==> files[k] == old(files)[k]
      ensures OldOrNew(old(files)[id], files[id], data) && files[id].running.None?
      ensures ok <==> old(files)[id].temporary.None? && (cut.Uncut? || cut.WhileFreezing? || cut.WhileRestarting?)
      ensures ok ==>
                && files[id].servers == Some(data) && files[id].temporary.None?
                && files[id].backups == old(files)[id].backups + [old(files)[id].servers.value]
      ensures !ok ==> files[id].servers == old(files)[id].servers
      ensures files == old(files)[id := After(old(files)[id], data, cut)]
      ensures old(files)[id].temporary.None? && cut.WhileWriting? ==> files[id] == Interrupted(old(files)[id], cut.part)
      ensures old(files)[id].temporary.Some? || (!ok && (cut.WhileWriting? || cut.BeforeReplacing?)) ==>
                files[id].temporary.Some?
    {
      var f := files[id];
      if cut.WhileBackingUp? {
        files := files[id := f.(backups := f.backups + [cut.part])];
        return false;
      }
      f := f.(backups := f.backups + [f.servers.value]);
      files := files[id := f];
      // the temporary file is created exclusively: a leftover raises
      if f.temporary.Some? {
        return false;
      }
      if cut.WhileWriting? || cut.BeforeReplacing? {
        files := files[id := f.(temporary := Some(if cut.WhileWriting? then cut.part else data))];
        return false;
      }
      files := files[id := f.(servers := Some(data))];
      return true;
    }

    /**
     * `install_catalogue`.  It replaces the catalogue exactly when every guard holds,
     * nothing is left over from an interrupted install, and nothing cuts it off before; it
     * succeeds when the restart does not raise either.  However it ends, the catalogue is
     * the old one or the new one.
     */
    method Install(target: Worker, data: Content, names: set<Name>, build: nat, now: real, w: World)
      returns (installed: bool)
      requires target.id in files
      modifies this
      ensures files.Keys == old(files).Keys && forall k :: k in files && k != target.id ==> files[k] == old(files)[k]
      ensures OldOrNew(old(files)[target.id], files[target.id], data)
      ensures var f := old(files)[target.id];
              if Replaces(f, old(frozen), target, data, names, build, now, w)
              then && installed == !w.cut.WhileRestarting?
                   && files[target.id].servers == Some(data)
                   && files[target.id].backups == f.backups + [f.servers.value]
                   && data in frozen && frozen[data] == data
              else !installed && files[target.id].servers == f.servers
      ensures forall d :: d in old(frozen) ==> d in frozen && frozen[d] == old(frozen)[d]
      ensures w.cut.WhileFreezing? && MayReceive(target, names, now) && Transferable(w, data, build) &&
              data !in old(frozen) ==>
                frozen == old(frozen)[data := w.cut.part]
      ensures files[target.id] != old(files)[target.id] ==>
                Permitted(old(files)[target.id], target, data, names, build, now, w) && files[target.id].running.None?
      ensures !w.accepts ==> files == old(files)
      ensures Permitted(old(files)[target.id], target, data, names, build, now, w) &&
              Freezes(old(frozen), data, w.cut) ==>
                files[target.id] == After(old(files)[target.id].(running := None), data, w.cut)
      ensures build !in w.verifiedBuilds || w.size(data) == 0 || w.size(data) > 8 * 1024 * 1024 ==> files == old(files)
      ensures w.build(target.id) != build || !(NameSet(target) <= names) ==> files == old(files)
      ensures target.snapshot == None || target.inspectedAt == 0.0 || now - target.inspectedAt >= 90.0 ==>
                files == old(files)
      ensures target.snapshot != None && target.snapshot.value.hash != old(files)[target.id].servers ==>
                files == old(files)
      ensures target.snapshot != None && target.snapshot.value.identity != old(files)[target.id].running ==>
                files == old(files)
      ensures target.snapshot != None && !(target.snapshot.value.dialog && target.snapshot.value.starting) ==>
                files == old(files)
      ensures old(files)[target.id].temporary.Some? ==> files[target.id].temporary.Some?
      ensures w.cut.WhileWriting? && Permitted(old(files)[target.id], target, data, names, build, now, w) &&
              Unobstructed(old(files)[target.id], old(frozen), data) ==>
                files[target.id] == Interrupted(old(files)[target.id], w.cut.part)
    {
      if !MayReceive(target, names, now) || !Transferable(w, data, build) {
        return false;
      }
      var kept := Freeze(data, w.cut);
      if !kept || w.build(target.id) != build || !Untouched(files[target.id], target) || !w.accepts {
        return false;
      }
      files := files[target.id := files[target.id].(running := None)];
      var replaced := Replace(target.id, data, w.cut);
      installed := replaced && !w.cut.WhileRestarting?;
    }

    /** A terminal comes up again in the slot. */
    method Relaunch(id: nat, identity: nat)
      requires id in files
      modifies this`files
      ensures files == old(files)[id := old(files)[id].(running := Some(identity))]
    {
      files := files[id := files[id].(running := Some(identity))];
    }

    /**
     * `synchronize_once`.  What a cycle puts in place is the catalogue of the source's
     * dialog reading, byte for byte, over the catalogue of the target's own reading, whose
     * names are strictly fewer; the source and every other slot are left alone.
     */
    method Synchronize(workers: seq<Worker>, now: real, later: real, w: World)
      returns (pair: Option<Pair>, installed: bool)
      requires DistinctIds(workers) && NamesListedOnce(workers)
      requires forall v :: v in workers ==> v.id in files
      modifies this
      ensures files.Keys == old(files).Keys
      ensures pair.Some? <==> Comparable(Candidates(workers, now))
      ensures pair.None? ==> files == old(files) && !installed
      ensures pair.Some? ==>
                var s, t := pair.value.source, pair.value.target;
                && BestSource(Candidates(workers, now), s) && BestTarget(Candidates(workers, now), s, t)
                && NameSet(t) < NameSet(s) && s.snapshot.value.hash.Some?
                && (forall k :: k in files && k != t.id ==> files[k] == old(files)[k])
                && OldOrNew(old(files)[t.id], files[t.id], s.snapshot.value.hash.value)
                && (files[t.id] != old(files)[t.id] ==>
                      && Untouched(old(files)[t.id], t) && old(files)[s.id].servers == s.snapshot.value.hash)
                && (installed <==>
                      && Confirmed(old(files)[s.id], s, w) && !w.cut.WhileRestarting?
                      && Replaces(old(files)[t.id], old(frozen), t, s.snapshot.value.hash.value, NameSet(s),
                                  w.build(s.id), later, w))
                && (installed ==> files[t.id].servers == s.snapshot.value.hash)
                && (!Confirmed(old(files)[s.id], s, w) ==> files == old(files))
    {
      installed := false;
      pair := ChoosePair(workers, now);
      if pair.None? {
        return;
      }
      var source, target := pair.value.source, pair.value.target;
      assert Verified(source, now) && source != target && source.id != target.id;
      var evidence := source.snapshot.value;
      if Untouched(files[source.id], source) && w.read == evidence.hash.value && w.reread == evidence.hash && w.stays {
        installed := Install(target, w.read, NameSet(source), w.build(source.id), later, w);
      }
    }
  }

  // ------------------------------------------------------------------ what an interrupted install leaves

  /** The worker after a restart: the same catalogue, read again in another process. */
  function Restarted(target: Worker, identity: nat): Worker
    requires target.snapshot.Some?
  {
    target.(snapshot := Some(target.snapshot.value.(identity := Some(identity))), sessionIdentity := Some(identity))
  }

  /**
   * It happens: an install cut off while writing, a restart, a fresh reading, and an
   * install that every guard permits is refused for the file left over.
   */
  method LeftoverBlocks(f: Files, target: Worker, identity: nat, data: Content, names: set<Name>, build: nat, now: real,
                        w: World, part: Content)
    returns (second: bool, ghost before: Files)
    requires Permitted(f, target, data, names, build, now, w) && f.temporary.None? && w.cut.Uncut?
    ensures !second && before == Files(f.servers, Some(part), f.backups + [f.servers.value], Some(identity))
    ensures Permitted(before, Restarted(target, identity), data, names, build, now, w)
  {
    var slots := new Slots(map[target.id := f]);
    var first := slots.Install(target, data, names, build, now, w.(cut := WhileWriting(part)));
    slots.Relaunch(target.id, identity);
    var again := Restarted(target, identity);
    before := slots.files[target.id];
    second := slots.Install(again, data, names, build, now, w);
  }

  /**
   * It happens: an install cut off while it filed the immutable copy blocks that catalogue
   * for every slot, although nothing was wrong with any of them.
   */
  method FrozenPartBlocks(f: Files, g: Files, one: Worker, other: Worker, data: Content, names: set<Name>, build: nat,
                          now: real, w: World, part: Content)
    returns (second: bool, ghost frozen: map<Content, Content>)
    requires one.id != other.id && part != data && w.cut.Uncut?
    requires Permitted(f, one, data, names, build, now, w) && Permitted(g, other, data, names, build, now, w)
    requires g.temporary.None?
    ensures !second && data in frozen && frozen[data] == part
  {
    var slots := new Slots(map[one.id := f, other.id := g]);
    var first := slots.Install(one, data, names, build, now, w.(cut := WhileFreezing(part)));
    frozen := slots.frozen;
    second := slots.Install(other, data, names, build, now, w);
  }
}
