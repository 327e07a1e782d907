/**
 * Archiving the leftovers of a dead update: nothing is lost at any failure, the updater
 * executable leaves last, and a half-moved package keeps blocking the launch.
 */
module OrphanUpdate {
  import opened Outcomes

  const OBSERVE_SECONDS: real := 60.0
  const STALL_SECONDS: real := 600.0

  type Path = string

  datatype File = File(content: nat, size: nat, modified: real)

  /** Path, size and time of the terminal's own executable and of every file of the package. */
  datatype Fingerprint = Fingerprint(terminal: (nat, real), files: map<Path, (nat, real)>)

  function FingerprintOf(terminal: File, files: map<Path, File>): Fingerprint {
    Fingerprint((terminal.size, terminal.modified), map p | p in files :: (files[p].size, files[p].modified))
  }

  predicate Aged(f: Fingerprint, wall: real) {
    wall - f.terminal.1 >= STALL_SECONDS && forall p | p in f.files :: wall - f.files[p].1 >= STALL_SECONDS
  }

  /** Two sights are one exactly when paths, sizes and times agree; what the files hold plays no part. */
  lemma FingerprintsAgree(s: File, a: map<Path, File>, t: File, b: map<Path, File>)
    ensures FingerprintOf(s, a) == FingerprintOf(t, b) <==>
              && s.size == t.size && s.modified == t.modified && a.Keys == b.Keys
              && forall p :: p in a && p in b ==> a[p].size == b[p].size && a[p].modified == b[p].modified
  {
    var f, g := FingerprintOf(s, a).files, FingerprintOf(t, b).files;
    assert f.Keys == a.Keys && g.Keys == b.Keys;
    assert f == g ==> forall p :: p in a && p in b ==> f[p] == g[p];
    assert f.Keys == g.Keys && (forall p :: p in f ==> f[p] == g[p]) ==> f == g;
  }

  /** What one pass asks of the environment. */
  datatype Pass = Pass(
    live: bool,            // the terminal or the updater is running
    monotonic: real,
    wall: real,
    destination: nat,      // the fresh time stamp that names the archive
    exclusive: bool,       // every file could be opened exclusively
    same: bool,            // with the files held, nothing is running and the fingerprint is the same
    failsAt: nat)          // the rename that fails; beyond the package, none does

  /** A running updater, by process identity, and the files it works on. */
  datatype Running = Running(identity: nat, files: Fingerprint)

  /** What one pass over a running updater asks of the environment. */
  datatype Stall = Stall(
    identity: nat,
    terminalLive: bool,
    visible: bool,         // a window of the updater is visible
    monotonic: real,
    sameProcesses: bool,   // looked at again: no terminal runs, and the updater is the same process
    quiet: bool,           // looked at again: no visible window and the same fingerprint
    destination: nat,
    terminates: bool,      // the verified process could be terminated
    renames: bool)         // the directory could be renamed

  /** May the terminal be launched?  An error is raised; `NeedsAttention` is the one for what blocks it unchanged. */
  datatype Launch = Allowed | Blocked | Raises | NeedsAttention

  /** What one pass came to: an error of its own, a failing rename, or what has long been waiting for an operator. */
  datatype Result = NotYet | Archived | Refused | Broken | Attention

  /** Nothing runs, the same was stored at least 60 s ago, and no file changed within 600 s. */
  ghost predicate Due(o: Option<(Fingerprint, real)>, terminal: File, files: map<Path, File>, p: Pass) {
    && !p.live && o.Some? && o.value.0 == FingerprintOf(terminal, files)
    && p.monotonic - o.value.1 >= OBSERVE_SECONDS
    && p.wall - terminal.modified >= STALL_SECONDS
    && forall q :: q in files ==> p.wall - files[q].modified >= STALL_SECONDS
  }

  lemma DueIsAged(o: Option<(Fingerprint, real)>, terminal: File, files: map<Path, File>, p: Pass)
    ensures var now := FingerprintOf(terminal, files);
            Due(o, terminal, files, p) <==>
            && !p.live && o.Some? && o.value.0 == now
            && p.monotonic - o.value.1 >= OBSERVE_SECONDS && Aged(now, p.wall)
  {
    var now := FingerprintOf(terminal, files);
    assert forall q :: q in files ==> q in now.files && now.files[q].1 == files[q].modified;
  }

  /** The same updater over the same files was stored at least 600 s ago, and a second look agrees. */
  ghost predicate Hung(o: Option<(Running, real)>, terminal: File, files: map<Path, File>, s: Stall) {
    && !s.terminalLive && !s.visible && o.Some?
    && o.value.0.identity == s.identity && o.value.0.files == FingerprintOf(terminal, files)
    && s.monotonic - o.value.1 >= STALL_SECONDS && s.sameProcesses && s.quiet
  }

  /** The blocking leftovers are those first seen at least 600 s ago. */
  ghost predicate Persistent(o: Option<(Fingerprint, real)>, terminal: File, files: map<Path, File>, now: real) {
    o.Some? && o.value.0 == FingerprintOf(terminal, files) && now - o.value.1 >= STALL_SECONDS
  }

  ghost function Sighted(o: Option<(Fingerprint, real)>, now: Fingerprint, at: real): Option<(Fingerprint, real)> {
    if o.Some? && o.value.0 == now then o else Some((now, at))
  }

  /** What passes have seen. */
  datatype Note<T> = Forgot | Saw(what: T, at: real)

  /** The stored observation began with one note and nothing else was seen since. */
  ghost predicate Stored<T>(o: Option<(T, real)>, notes: seq<Note<T>>) {
    o.Some? ==> exists k :: StoredAt(o.value, notes, k)
  }

  ghost predicate StoredAt<T>(o: (T, real), notes: seq<Note<T>>, k: int) {
    && 0 <= k < |notes| && notes[k] == Saw(o.0, o.1)
    && forall m :: k <= m < |notes| ==> notes[m].Saw? && notes[m].what == o.0
  }

  lemma StoredExtends<T>(o: (T, real), notes: seq<Note<T>>, at: real)
    requires Stored(Some(o), notes)
    ensures Stored(Some(o), notes + [Saw(o.0, at)])
  {
    var k :| StoredAt(o, notes, k);
    assert StoredAt(o, notes + [Saw(o.0, at)], k);
  }

  /** The package's files are all still there, each either in place or in one of its archives. */
  ghost predicate Conserved(
      files: map<Path, File>, held: map<(nat, Path), File>, archives: set<nat>, package: map<Path, File>)
  {
    && (forall p :: p in files ==> p in package && files[p] == package[p])
    && (forall p, d :: d in archives && (d, p) in held ==> p in package && held[(d, p)] == package[p] && p !in files)
    && (forall p :: p in package && p !in files ==> exists d :: d in archives && (d, p) in held)
  }

  /** No archive has this name. */
  ghost predicate Free(held: map<(nat, Path), File>, destination: nat) {
    forall p :: (destination, p) !in held
  }

  ghost predicate Kept(before: map<(nat, Path), File>, after: map<(nat, Path), File>) {
    forall k :: k in before ==> k in after && after[k] == before[k]
  }

  /** Between two renames: `moved` files have left, and the package is whole. */
  ghost predicate Underway(
      was: map<Path, File>, before: map<(nat, Path), File>,
      files: map<Path, File>, held: map<(nat, Path), File>, archives: set<nat>, package: map<Path, File>, moved: int)
  {
    && Conserved(files, held, archives, package) && Kept(before, held)
    && files.Keys <= was.Keys && |files| == |was| - moved
    && (moved == 0 ==> files == was)
  }

  lemma StartsWhole(
      files: map<Path, File>, held: map<(nat, Path), File>, archives: set<nat>, package: map<Path, File>,
      destination: nat)
    requires Conserved(files, held, archives, package) && Free(held, destination)
    ensures Underway(files, held, files, held, archives + {destination}, package, 0)
  {
    var all := archives + {destination};
    forall p | p in package && p !in files ensures exists d :: d in all && (d, p) in held {
      var d :| d in archives && (d, p) in held;
      assert d in all;
    }
  }

  lemma MoveKeeps(
      was: map<Path, File>, before: map<(nat, Path), File>,
      files: map<Path, File>, held: map<(nat, Path), File>, archives: set<nat>, package: map<Path, File>, moved: nat,
      p: Path, destination: nat)
    requires Underway(was, before, files, held, archives, package, moved)
    requires p in files && destination in archives
    ensures Underway(
              was, before, files - {p}, held[(destination, p) := files[p]], archives, package, moved + 1)
  {
    var left, after := files - {p}, held[(destination, p) := files[p]];
    assert left.Keys == files.Keys - {p} && |left| == |left.Keys| && |files| == |files.Keys|;
    forall q | q in package && q !in left ensures exists d :: d in archives && (d, q) in after {
      if q == p {
        assert (destination, q) in after;
      } else {
        var d :| d in archives && (d, q) in held;
        assert (d, q) in after;
      }
    }
  }

  function WithArchive(held: map<(nat, Path), File>, files: map<Path, File>, destination: nat): map<(nat, Path), File> {
    held + map p | p in files :: (destination, p) := files[p]
  }

  lemma AllMoved(
      files: map<Path, File>, held: map<(nat, Path), File>, archives: set<nat>, package: map<Path, File>,
      destination: nat)
    requires Conserved(files, held, archives, package) && Free(held, destination)
    ensures Conserved(map[], WithArchive(held, files, destination), archives + {destination}, package)
    ensures Kept(held, WithArchive(held, files, destination))
  {
    var after, all := WithArchive(held, files, destination), archives + {destination};
    forall k | k in held ensures k in after && after[k] == held[k] {
      assert k.0 != destination || (destination, k.1) !in held;
    }
    forall p, d | d in all && (d, p) in after ensures p in package && after[(d, p)] == package[p] {
      if d == destination {
        assert (destination, p) !in held;
      }
    }
    forall q | q in package ensures exists d :: d in all && (d, q) in after {
      if q in files {
        assert destination in all && (destination, q) in after;
      } else {
        var d :| d in archives && (d, q) in held;
        assert d in all && (d, q) in after;
      }
    }
  }

  class Leftovers {
    const updater: Path
    var files: map<Path, File>
    var held: map<(nat, Path), File>
    // first sight of the leftovers as they are now, and of the running updater with them
    var observation: Option<(Fingerprint, real)>
    var stalled: Option<(Running, real)>
    // first sight of what blocks the launch
    var blocked: Option<(Fingerprint, real)>
    // The package as the environment last left it, and the archives made of it since.
    ghost var package: map<Path, File>
    ghost var archives: set<nat>
    ghost var notes: seq<Note<Fingerprint>>
    ghost var stallNotes: seq<Note<Running>>

    constructor (updater: Path, files: map<Path, File>)
      ensures Valid() && this.updater == updater && this.files == files && package == files && held == map[]
    {
      this.updater, this.files, package := updater, files, files;
      held, observation, stalled, blocked := map[], None, None, None;
      archives, notes, stallNotes := {}, [], [];
    }

    ghost predicate Valid()
      reads this
    {
      && Conserved(files, held, archives, package)
      && (updater in package && files != map[] ==> updater in files)
      && Stored(observation, notes) && Stored(stalled, stallNotes)
    }

    /** An updater, or anybody else, replaces the contents of the directory. */
    method Rewritten(replacement: map<Path, File>)
      requires Valid()
      modifies this`files, this`package, this`archives
      ensures Valid() && files == replacement && package == replacement
    {
      files, package, archives := replacement, replacement, {};
    }

    method Move(
        p: Path, destination: nat,
        ghost was: map<Path, File>, ghost before: map<(nat, Path), File>, ghost moved: nat)
      requires Underway(was, before, files, held, archives, package, moved)
      requires p in files && destination in archives
      modifies this`files, this`held
      ensures files == old(files) - {p}
      ensures Underway(was, before, files, held, archives, package, moved + 1)
    {
      MoveKeeps(was, before, files, held, archives, package, moved, p, destination);
      held := held[(destination, p) := files[p]];
      files := files - {p};
    }

    /** Every file but the updater, in any order, as far as the renames succeed. */
    method MoveOthers(
        destination: nat, failsAt: nat,
        ghost was: map<Path, File>, ghost before: map<(nat, Path), File>)
        returns (moved: nat)
      requires Underway(was, before, files, held, archives, package, 0)
      requires destination in archives
      modifies this`files, this`held
      ensures Underway(was, before, files, held, archives, package, moved)
      ensures moved <= failsAt && (files.Keys - {updater} != {} ==> moved == failsAt)
      ensures updater in old(files) <==> updater in files
    {
      var others := files.Keys - {updater};
      moved := 0;
      while others != {} && moved != failsAt
        invariant Underway(was, before, files, held, archives, package, moved)
        invariant others == files.Keys - {updater} && moved <= failsAt
        invariant updater in old(files) <==> updater in files
        decreases others
      {
        var p :| p in others;
        Move(p, destination, was, before, moved);
        others := others - {p};
        moved := moved + 1;
      }
    }

    /**
     * The renames, the updater last; the one with number `failsAt` raises.  After any
     * failure the package is whole, and the updater has left only if every other file has.
     */
    method Archive(destination: nat, failsAt: nat) returns (complete: bool)
      requires Valid() && Free(held, destination)
      modifies this`files, this`held, this`archives
      ensures Valid() && archives == old(archives) + {destination}
      ensures files.Keys <= old(files).Keys && Kept(old(held), held)
      ensures complete <==> files == map[]
      ensures updater in old(files) && updater !in files ==> files == map[]
      ensures complete <==> |old(files)| <= failsAt
      ensures !complete ==> |files| == |old(files)| - failsAt
    {
      ghost var was, before := files, held;
      StartsWhole(files, held, archives, package, destination);
      archives := archives + {destination};
      var moved := MoveOthers(destination, failsAt, was, before);
      if files.Keys - {updater} != {} {
        return false;
      }
      if updater in files {
        if moved == failsAt {
          return false;
        }
        Move(updater, destination, was, before, moved);
      }
      assert files == map[];
      return true;
    }

    /**
     * `recover_orphaned_update`.  Archiving begins only when the fingerprint now seen was
     * stored at least 60 s before and no other one was seen since; every step keeps the
     * package whole.
     */
    method Recover(terminal: File, p: Pass) returns (r: Result)
      requires Valid()
      modifies this`files, this`held, this`observation, this`blocked, this`archives, this`notes
      ensures Valid()
      ensures r == Archived <==>
                && Due(old(observation), terminal, old(files), p) && Free(old(held), p.destination)
                && p.exclusive && p.same && |old(files)| <= p.failsAt
      ensures r == Broken <==>
                && Due(old(observation), terminal, old(files), p) && Free(old(held), p.destination)
                && p.exclusive && p.same && p.failsAt < |old(files)|
      ensures r == Refused <==>
                Due(old(observation), terminal, old(files), p) && !(Free(old(held), p.destination) && p.exclusive)
      ensures r != Attention
      ensures Due(old(observation), terminal, old(files), p) ==>
                exists k :: StoredAt(old(observation).value, old(notes), k)
      ensures r == Archived ==> files == map[]
      ensures r == Broken ==> |files| == |old(files)| - p.failsAt
      ensures r == Refused || r == NotYet ==> files == old(files) && held == old(held)
      ensures files.Keys <= old(files).Keys && (updater in old(files) && updater !in files ==> files == map[])
      ensures Kept(old(held), held)
      ensures observation ==
              if p.live || r == Archived then None
              else if old(observation).Some? && old(observation).value.0 == FingerprintOf(terminal, old(files))
                then old(observation)
              else Some((FingerprintOf(terminal, old(files)), p.monotonic))
      ensures blocked == if r == Archived then None else old(blocked)
      ensures notes ==
              old(notes) + [if p.live then Forgot else Saw(FingerprintOf(terminal, old(files)), p.monotonic)]
    {
      DueIsAged(observation, terminal, files, p);
      if p.live {
        observation := None;
        notes := notes + [Forgot];
        return NotYet;
      }
      var signature := FingerprintOf(terminal, files);
      if observation.None? || observation.value.0 != signature {
        observation := Some((signature, p.monotonic));
        notes := notes + [Saw(signature, p.monotonic)];
        assert StoredAt((signature, p.monotonic), notes, |notes| - 1);
        return NotYet;
      }
      StoredExtends(observation.value, notes, p.monotonic);
      notes := notes + [Saw(signature, p.monotonic)];
      if p.monotonic - observation.value.1 < OBSERVE_SECONDS || !Aged(signature, p.wall) {
        return NotYet;
      }
      if exists k | k in held :: k.0 == p.destination {
        return Refused;
      }
      if !p.exclusive {
        return Refused;
      }
      if !p.same {
        return NotYet;
      }
      var complete := Archive(p.destination, p.failsAt);
      if !complete {
        return Broken;
      }
      observation, blocked := None, None;
      return Archived;
    }

    /** The whole directory is renamed at once. */
    method MoveAll(destination: nat)
      requires Conserved(files, held, archives, package) && Free(held, destination)
      modifies this`files, this`held, this`archives
      ensures Conserved(files, held, archives, package) && files == map[] && archives == old(archives) + {destination}
      ensures held == WithArchive(old(held), old(files), destination)
    {
      AllMoved(files, held, archives, package, destination);
      held := WithArchive(held, files, destination);
      archives := archives + {destination};
      files := map[];
    }

    /**
     * `observe_blocked_update`: what keeps blocking without change is raised after ten
     * minutes, measured from its first sight.
     */
    method ObserveBlocked(now: Fingerprint, monotonic: real) returns (raises: bool)
      modifies this`blocked
      ensures raises <==>
                old(blocked).Some? && old(blocked).value.0 == now && monotonic - old(blocked).value.1 >= STALL_SECONDS
      ensures blocked ==
              if old(blocked).Some? && old(blocked).value.0 == now then old(blocked) else Some((now, monotonic))
    {
      if blocked.None? || blocked.value.0 != now {
        blocked := Some((now, monotonic));
        return false;
      }
      return monotonic - blocked.value.1 >= STALL_SECONDS;
    }

    /** A running updater is seen: for the first time, or as it was stored. */
    method Sight(now: Running, monotonic: real) returns (again: bool)
      requires Stored(stalled, stallNotes)
      modifies this`stalled, this`stallNotes
      ensures Stored(stalled, stallNotes)
      ensures again <==> old(stalled).Some? && old(stalled).value.0 == now
      ensures stalled == if again then old(stalled) else Some((now, monotonic))
      ensures stallNotes == old(stallNotes) + [Saw(now, monotonic)]
    {
      again := stalled.Some? && stalled.value.0 == now;
      if again {
        StoredExtends(stalled.value, stallNotes, monotonic);
      } else {
        stalled := Some((now, monotonic));
      }
      stallNotes := stallNotes + [Saw(now, monotonic)];
      assert !again ==> StoredAt((now, monotonic), stallNotes, |stallNotes| - 1);
    }

    /**
     * `recover_stalled_update`.  A running updater is stopped only when the same process
     * over the same files was stored at least ten minutes before, nothing else was seen
     * since, and no terminal and no window of it show; its package is kept whole.
     */
    method RecoverStalled(terminal: File, s: Stall) returns (r: Result, stopped: bool)
      requires Valid()
      modifies this`files, this`held, this`stalled, this`blocked, this`archives, this`stallNotes
      ensures Valid()
      ensures Kept(old(held), held)
      ensures stopped <==>
                && Hung(old(stalled), terminal, old(files), s)
                && Free(old(held), s.destination) && s.terminates
      ensures r == Refused <==>
                && Hung(old(stalled), terminal, old(files), s)
                && !(Free(old(held), s.destination) && s.terminates)
      ensures Hung(old(stalled), terminal, old(files), s) ==>
                exists k :: StoredAt(old(stalled).value, old(stallNotes), k)
      ensures (r == Archived <==> stopped && s.renames) && (r == Broken <==> stopped && !s.renames)
      ensures r == Attention <==>
                !s.terminalLive && s.visible && Persistent(old(blocked), terminal, old(files), s.monotonic)
      ensures files == if r == Archived then map[] else old(files)
      ensures s.terminalLive || s.visible || r == Archived ==> stalled.None?
      ensures !s.terminalLive && !s.visible && r != Archived ==>
                var now := Running(s.identity, FingerprintOf(terminal, old(files)));
                var same := old(stalled).Some? && old(stalled).value.0 == now;
                stalled == if !same then Some((now, s.monotonic))
                           else if (&& s.monotonic - old(stalled).value.1 >= STALL_SECONDS
                                    && s.sameProcesses && !s.quiet) then None
                           else old(stalled)
      ensures stallNotes ==
              old(stallNotes) +
              if s.terminalLive || s.visible then [Forgot]
              else if old(stalled).Some? && r != Archived && stalled.None?
                then [Saw(Running(s.identity, FingerprintOf(terminal, old(files))), s.monotonic), Forgot]
              else [Saw(Running(s.identity, FingerprintOf(terminal, old(files))), s.monotonic)]
      ensures blocked == if !s.terminalLive && s.visible
                         then Sighted(old(blocked), FingerprintOf(terminal, old(files)), s.monotonic)
                         else old(blocked)
    {
      if s.terminalLive || s.visible {
        stalled, stallNotes := None, stallNotes + [Forgot];
        var raises := false;
        if !s.terminalLive {
          raises := ObserveBlocked(FingerprintOf(terminal, files), s.monotonic);
        }
        return if raises then Attention else NotYet, false;
      }
      var now := Running(s.identity, FingerprintOf(terminal, files));
      var again := Sight(now, s.monotonic);
      if !again {
        return NotYet, false;
      }
      if s.monotonic - stalled.value.1 < STALL_SECONDS || !s.sameProcesses {
        return NotYet, false;
      }
      if !s.quiet {
        stalled, stallNotes := None, stallNotes + [Forgot];
        return NotYet, false;
      }
      if (exists k | k in held :: k.0 == s.destination) || !s.terminates {
        return Refused, false;
      }
      if !s.renames {
        return Broken, true;
      }
      MoveAll(s.destination);
      stalled := None;
      return Archived, true;
    }

    /**
     * The updater part of `update_running`, with no updater process in sight: while its
     * executable is there, a launch is allowed only by the pass that archived the whole package.
     */
    method LaunchBlocked(terminal: File, p: Pass) returns (r: Launch)
      requires Valid()
      modifies this`files, this`held, this`observation, this`blocked, this`archives, this`notes
      ensures Valid()
      ensures r == Allowed <==>
                || updater !in old(files)
                || (&& Due(old(observation), terminal, old(files), p) && Free(old(held), p.destination)
                    && p.exclusive && p.same && |old(files)| <= p.failsAt)
      ensures r == Raises <==>
                && updater in old(files) && Due(old(observation), terminal, old(files), p)
                && !(Free(old(held), p.destination) && p.exclusive)
      ensures r == NeedsAttention <==>
                && updater in old(files) && Persistent(old(blocked), terminal, old(files), p.monotonic)
                && (Due(old(observation), terminal, old(files), p) ==>
                      Free(old(held), p.destination) && p.exclusive && !p.same)
      ensures r == Allowed ==> updater !in files
      ensures r == Allowed && updater in package ==>
                files == map[] && forall q :: q in package ==> exists d :: d in archives && (d, q) in held
    {
      if updater !in files {
        return Allowed;
      }
      var archived := Recover(terminal, p);
      match archived {
        case Archived => return Allowed;
        case Refused => return Raises;
        case NotYet =>
          var raises := ObserveBlocked(FingerprintOf(terminal, files), p.monotonic);
          return if raises then NeedsAttention else Blocked;
        case _ => return Blocked;
      }
    }

    /** The same with a running updater: only an archived package lets the launch go on. */
    method LaunchBlockedByProcess(terminal: File, s: Stall) returns (r: Launch)
      requires Valid()
      modifies this`files, this`held, this`stalled, this`blocked, this`archives, this`stallNotes
      ensures Valid()
      ensures r == Allowed <==>
                && Hung(old(stalled), terminal, old(files), s)
                && Free(old(held), s.destination) && s.terminates && s.renames
      ensures r == Raises <==>
                && Hung(old(stalled), terminal, old(files), s)
                && !(Free(old(held), s.destination) && s.terminates)
      ensures r == NeedsAttention <==>
                !s.terminalLive && s.visible && Persistent(old(blocked), terminal, old(files), s.monotonic)
      ensures r == Allowed ==>
                files == map[] && forall q :: q in package ==> exists d :: d in archives && (d, q) in held
    {
      var result, _ := RecoverStalled(terminal, s);
      match result {
        case Archived => return Allowed;
        case Refused => return Raises;
        case Attention => return NeedsAttention;
        case _ => return Blocked;
      }
    }
  }
}
