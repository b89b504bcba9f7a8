/** Promoting a verified candidate: the directory, the alias and the rollback. */
module Promotion {
  import opened Text

  type Bytes = string

  /** The names in the promotion root. Stage, Temp and Backup are names the system hands out unused. */
  datatype Name = Lock | Current | Release(identity: string) | Stage(n: nat) | Temp(n: nat) | Backup(n: nat) | Other(text: string)

  /** Permission bits, and the bits outside them (setuid, setgid, sticky). */
  datatype Mode = Mode(perm: nat, special: nat)

  datatype Entry = Regular(bytes: Bytes) | Irregular

  datatype Node = File(bytes: Bytes, mode: Mode) | Folder(id: nat, files: map<string, Entry>) | Irreal

  type Root = map<Name, Node>

  /** Which calls of the injected operations fail; each call site runs at most once, so this is any schedule. */
  datatype Faults = Faults(removePlaceholder: bool, moveAside: bool, moveIn: bool,
                           removeTemp: bool, removeBackup: bool, removeLock: bool, restore: bool)

  /** What the manifest verifier answers at its call sites, and whether the stage rename succeeds. */
  datatype Checks = Checks(existing: bool, staged: bool, published: bool, stageRenamed: bool)

  const PRIVATE := Mode(384, 0)
  const LOCK_FILE := File("", PRIVATE)
  const MANIFEST := "candidate-manifest.json"

  function At(root: Root, n: Name): Option<Node> {
    if n in root then Some(root[n]) else None
  }

  lemma SameRoot(a: Root, b: Root)
    requires forall n :: At(a, n) == At(b, n)
    ensures a == b
  {
    forall n ensures n in a <==> n in b {
      assert At(a, n) == At(b, n);
    }
    forall n | n in a ensures a[n] == b[n] {
      assert At(a, n) == At(b, n);
    }
  }

  // ---------------------------------------------------------------- the promised end states

  /** The alias with the bits the direct restore does not write. */
  function Stripped(pre: Root): Root {
    if Current in pre && pre[Current].File? then
      pre[Current := File(pre[Current].bytes, Mode(pre[Current].mode.perm, 0))]
    else pre
  }

  /** The old alias was moved aside. */
  predicate MovedAside(f: Faults) {
    !f.removePlaceholder && !f.moveAside
  }

  /** The rollback has to write the alias anew: the backup is gone already, or renaming it back fails. */
  predicate WritesAnew(f: Faults) {
    MovedAside(f) && (f.restore || (!f.moveIn && !f.removeTemp && !f.removeBackup))
  }

  /** The same node, or regular files with the same bytes and permission bits. */
  ghost predicate SameText(a: Option<Node>, b: Option<Node>) {
    || a == b
    || (&& a.Some? && b.Some? && a.value.File? && b.value.File? && a.value.bytes == b.value.bytes
        && a.value.mode.perm == b.value.mode.perm)
  }

  lemma SameTextAsItself(a: Option<Node>)
    ensures SameText(a, a)
  {
  }

  lemma StrippedIs(pre: Root)
    requires Current in pre && pre[Current].File?
    ensures Stripped(pre) == pre <==> pre[Current].mode.special == 0
  {
    if Stripped(pre) == pre {
      assert Stripped(pre)[Current].mode.special == 0;
    }
  }

  /** What a failed promotion leaves: the prestate, up to special bits of an alias it had to write anew. */
  function RolledBack(pre: Root, reached: bool, f: Faults): Root {
    if reached && Current in pre && WritesAnew(f) then Stripped(pre) else pre
  }

  /** The rolled back root, name by name. */
  lemma RolledBackAt(pre: Root, reached: bool, f: Faults)
    ensures forall n :: n != Current ==> At(RolledBack(pre, reached, f), n) == At(pre, n)
    ensures !reached || !WritesAnew(f) || At(pre, Current) == None ==> RolledBack(pre, reached, f) == pre
    ensures reached && WritesAnew(f) ==>
              match At(pre, Current)
              case Some(File(bytes, mode)) => At(RolledBack(pre, reached, f), Current) == Some(File(bytes, Mode(mode.perm, 0)))
              case _ => RolledBack(pre, reached, f) == pre
  {
  }

  class Promotion {
    var fs: Root
    var aliasExists: bool
    var aliasTouched: bool
    var created: bool
    var bound: bool
    var promoted: bool
    var original: Bytes
    var originalMode: Mode
    var temp: Option<Name>
    var backup: Option<Name>
    const identity: string
    const names: seq<string>
    const source: map<string, Entry>
    const manifest: Bytes
    const current: bool
    const faults: Faults
    const checks: Checks
    const scratch: nat
    const inode: nat
    const digest: Bytes -> Bytes

    constructor (fs: Root, identity: string, names: seq<string>, source: map<string, Entry>, manifest: Bytes,
                 current: bool, faults: Faults, checks: Checks, scratch: nat, inode: nat, digest: Bytes -> Bytes)
      ensures this.fs == fs && this.identity == identity && this.names == names && this.source == source
      ensures this.manifest == manifest && this.current == current && this.faults == faults && this.checks == checks
      ensures this.scratch == scratch && this.inode == inode && this.digest == digest && Fresh()
    {
      this.fs, this.identity, this.names, this.source, this.manifest := fs, identity, names, source, manifest;
      this.current, this.faults, this.checks := current, faults, checks;
      this.scratch, this.inode, this.digest := scratch, inode, digest;
      aliasExists, aliasTouched, created, bound, promoted := false, false, false, false, false;
      original, originalMode, temp, backup := "", PRIVATE, None, None;
    }

    predicate Fresh()
      reads this
    {
      !aliasExists && !aliasTouched && !created && !bound && !promoted && temp == None && backup == None
    }

    /** Every promoted name has regular source bytes; the manifest comes from its own path. */
    predicate Complete() {
      forall i :: 0 <= i < |names| ==> HasSource(names[i])
    }

    predicate HasSource(name: string) {
      name == MANIFEST || (name in source && source[name].Regular?)
    }

    function SourceBytes(name: string): Bytes
      requires HasSource(name)
    {
      if name == MANIFEST then manifest else source[name].bytes
    }

    /** The exact content of the immutable directory. */
    function Expected(): (files: map<string, Entry>)
      requires Complete()
      ensures forall n :: n in files <==> n in names
      ensures forall n :: n in files ==> HasSource(n) && files[n] == Regular(SourceBytes(n))
    {
      map n | n in names :: Regular(SourceBytes(n))
    }

    function ExpectedFolder(): Node
      requires Complete()
    {
      Folder(inode, Expected())
    }

    /** Every check up to the immutable directory in place passes; existing is what stands under its name before. */
    predicate Publishable(existing: Option<Node>) {
      && Complete() && MANIFEST in names
      && match existing
         case Some(node) => checks.existing && node.Folder? && node.files == Expected()
         case None => checks.staged && checks.stageRenamed && checks.published
    }

    /** The run gets as far as the alias switch. */
    predicate Reaches(pre: Root) {
      && Lock !in pre && current && (Current in pre ==> pre[Current].File?)
      && Publishable(At(pre, Release(identity)))
    }

    /** No fault of this schedule strikes a call the run depends on. */
    predicate Spared(pre: Root, f: Faults) {
      && !f.removeLock
      && (current ==> !f.moveIn && !f.removeTemp && (Current in pre ==> MovedAside(f) && !f.removeBackup))
    }

    predicate Succeeds(pre: Root, f: Faults) {
      && Lock !in pre && (current && Current in pre ==> pre[Current].File?)
      && Publishable(At(pre, Release(identity))) && Spared(pre, f)
    }

    function NewAlias(): Node {
      File(identity + "\n", PRIVATE)
    }

    /** What a successful promotion leaves: the directory, reused or new, and the alias naming it. */
    function PromotedRoot(pre: Root): Root
      requires Complete()
    {
      var published := if Release(identity) in pre then pre else pre[Release(identity) := ExpectedFolder()];
      if current then published[Current := NewAlias()] else published
    }

    /** What a run leaves, under any schedule of faults. */
    function Outcome(pre: Root, f: Faults): Root {
      if Succeeds(pre, f) then PromotedRoot(pre) else RolledBack(pre, Reaches(pre), f)
    }

    /** candidateHash of the manifest file in a directory. */
    predicate ManifestMatches(files: map<string, Entry>) {
      MANIFEST in files && files[MANIFEST].Regular? && digest(files[MANIFEST].bytes) == digest(manifest)
    }

    ghost predicate DigestsIdentify() {
      forall x, y :: digest(x) == digest(y) ==> x == y
    }

    /** sameCandidateFiles: as many entries as names, and equal digests name by name. */
    method SameCandidateFiles(files: map<string, Entry>) returns (same: bool)
      requires Distinct(names) && DigestsIdentify()
      ensures same <==> Complete() && files == Expected()
    {
      if |files| != |names| {
        if Complete() {
          KeysCounted(Expected());
        }
        return false;
      }
      var i := 0;
      while i < |names|
        invariant 0 <= i <= |names|
        invariant forall k :: 0 <= k < i ==> HasSource(names[k]) && names[k] in files && files[names[k]] == Regular(SourceBytes(names[k]))
      {
        var name := names[i];
        if !HasSource(name) || name !in files || !files[name].Regular? || digest(SourceBytes(name)) != digest(files[name].bytes) {
          assert Complete() ==> name in Expected();
          return false;
        }
        i := i + 1;
      }
      SameKeys(files);
      return true;
    }

    lemma KeysCounted(files: map<string, Entry>)
      requires Distinct(names) && Complete() && files == Expected()
      ensures |files| == |names|
    {
      DistinctCount(names);
      assert files.Keys == Elements(names);
    }

    lemma SameKeys(files: map<string, Entry>)
      requires Distinct(names) && Complete() && |files| == |names|
      requires forall k :: 0 <= k < |names| ==> names[k] in files && files[names[k]] == Regular(SourceBytes(names[k]))
      ensures files == Expected()
    {
      DistinctCount(names);
      SubsetOfSameSize(Elements(names), files.Keys);
      assert files.Keys == Expected().Keys;
    }

    // -------------------------------------------------------------- preflight

    method Preflight() returns (ok: bool)
      requires Fresh()
      modifies this`aliasExists, this`original, this`originalMode
      ensures ok <==> (current && Current in fs ==> fs[Current].File?)
      ensures aliasExists <==> ok && current && Current in fs
      ensures aliasExists ==> fs[Current] == File(original, originalMode)
    {
      if current && Current in fs {
        if !fs[Current].File? {
          return false;
        }
        aliasExists, originalMode, original := true, fs[Current].mode, fs[Current].bytes;
      }
      return true;
    }

    // -------------------------------------------------------------- the immutable directory

    /** The root while the directory is being staged: only the stage differs from the locked prestate. */
    ghost predicate Staging(locked: Root)
      reads this
    {
      && (forall n :: n != Stage(scratch) && n != Release(identity) ==> At(fs, n) == At(locked, n))
      && (bound <==> promoted || At(fs, Stage(scratch)).Some?)
      && (if promoted then At(fs, Stage(scratch)) == None && Complete() && At(fs, Release(identity)) == Some(ExpectedFolder())
          else At(fs, Release(identity)) == At(locked, Release(identity)))
      && (promoted ==> bound && Release(identity) !in locked)
      && created == promoted
      && (bound && !promoted ==> fs[Stage(scratch)].Folder? && fs[Stage(scratch)].id == inode)
    }

    /** copyCandidateBytes for every name, each file created exclusively. */
    method CopyCandidate(ghost locked: Root) returns (ok: bool)
      requires Distinct(names) && bound && !promoted && Staging(locked) && fs[Stage(scratch)].files == map[]
      modifies this`fs
      ensures Staging(locked) && (ok <==> Complete())
      ensures ok ==> fs[Stage(scratch)] == ExpectedFolder()
    {
      var i := 0;
      while i < |names|
        invariant 0 <= i <= |names| && Staging(locked)
        invariant forall k :: 0 <= k < i ==> HasSource(names[k])
        invariant forall n :: n in fs[Stage(scratch)].files <==> n in names[..i]
        invariant forall k :: 0 <= k < i ==> fs[Stage(scratch)].files[names[k]] == Regular(SourceBytes(names[k]))
      {
        var name := names[i];
        var files := fs[Stage(scratch)].files;
        if !HasSource(name) || name in files {
          return false;
        }
        assert names[..i + 1] == names[..i] + [name];
        fs := fs[Stage(scratch) := Folder(inode, files[name := Regular(SourceBytes(name))])];
        i := i + 1;
      }
      assert names[..i] == names;
      var files := fs[Stage(scratch)].files;
      assert files == Expected() by {
        assert files.Keys == Expected().Keys;
        forall n | n in files ensures files[n] == Expected()[n] {
          var k :| 0 <= k < |names| && names[k] == n;
        }
      }
      return true;
    }

    /** Reuses an identical directory or publishes a new one through a verified stage. */
    method PublishImmutable(ghost locked: Root) returns (ok: bool)
      requires Distinct(names) && DigestsIdentify() && fs == locked && Stage(scratch) !in fs
      requires !bound && !promoted && !created
      modifies this`fs, this`bound, this`promoted, this`created
      ensures Staging(locked) && (ok <==> Publishable(At(locked, Release(identity))))
      ensures ok ==> At(fs, Stage(scratch)) == None && (created <==> Release(identity) !in locked)
    {
      if Release(identity) in fs {
        if !fs[Release(identity)].Folder? {
          return false;
        }
        var files := fs[Release(identity)].files;
        if !ManifestMatches(files) || !checks.existing {
          return false;
        }
        ok := SameCandidateFiles(files);
        return;
      }
      fs := fs[Stage(scratch) := Folder(inode, map[])];
      bound := true;
      ok := CopyCandidate(locked);
      if !ok {
        return;
      }
      var staged := fs[Stage(scratch)].files;
      if !ManifestMatches(staged) || !checks.staged {
        return false;
      }
      ok := SameCandidateFiles(staged);
      if !ok || !checks.stageRenamed {
        return false;
      }
      fs := (fs - {Stage(scratch)})[Release(identity) := fs[Stage(scratch)]];
      promoted, created := true, true;
      if !checks.published {
        return false;
      }
      ok := SameCandidateFiles(fs[Release(identity)].files);
    }

    /** stageRename.cleanup, deferred behind everything but the rollback. */
    method CleanupStage(ghost locked: Root) returns (ok: bool)
      requires bound && !promoted ==> At(fs, Stage(scratch)).Some?
      modifies this`fs
      ensures forall m :: At(fs, m) == if m == Stage(scratch) && bound && !promoted then None else At(old(fs), m)
      ensures ok <==> !bound || At(fs, Stage(scratch)) == None
    {
      if !bound {
        return true;
      }
      if promoted {
        return At(fs, Stage(scratch)) == None;
      }
      Remove(Stage(scratch));
      return true;
    }

    // -------------------------------------------------------------- the alias

    /** The scratch names and the alias hold these nodes; everything else is as in base. */
    ghost predicate Looks(base: Root, alias: Option<Node>, tempNode: Option<Node>, backupNode: Option<Node>,
                          lock: Option<Node>)
      reads this`fs
    {
      && (forall n :: n != Lock && n != Current && n != Temp(scratch) && n != Backup(scratch) ==> At(fs, n) == At(base, n))
      && At(fs, Current) == alias && At(fs, Temp(scratch)) == tempNode
      && At(fs, Backup(scratch)) == backupNode && At(fs, Lock) == lock
    }

    /** Writes a file that was created exclusively. */
    method Write(n: Name, node: Node)
      modifies this`fs
      ensures forall m :: At(fs, m) == if m == n then Some(node) else At(old(fs), m)
    {
      fs := fs[n := node];
    }

    /** os.Remove, tolerating a missing file. */
    method Remove(n: Name)
      modifies this`fs
      ensures forall m :: At(fs, m) == if m == n then None else At(old(fs), m)
    {
      fs := fs - {n};
    }

    /** ops.remove behind the closure that tolerates an empty path and a missing file. */
    method RemoveScratch(path: Option<Name>, fault: bool) returns (ok: bool)
      modifies this`fs
      ensures path.Some? && !fault ==> At(fs, path.value) == None
      ensures forall n :: fault || path != Some(n) ==> At(fs, n) == At(old(fs), n)
      ensures ok <==> path.None? || !fault
    {
      if path.None? {
        return true;
      }
      if fault {
        return false;
      }
      Remove(path.value);
      return true;
    }

    /** ops.rename onto a free name; a failing call has no effect. */
    method RenameTo(from: Name, to: Name, fault: bool) returns (ok: bool)
      requires At(fs, to) == None
      modifies this`fs
      ensures ok <==> !fault && At(old(fs), from).Some?
      ensures forall n :: At(fs, n) == if !ok then At(old(fs), n) else if n == to then At(old(fs), from)
                                       else if n == from then None else At(old(fs), n)
    {
      if fault || from !in fs {
        return false;
      }
      fs := (fs - {from})[to := fs[from]];
      return true;
    }

    /** The alias is as before; leftovers of an unfinished switch are recorded for removal. */
    ghost predicate Untouched(base: Root)
      reads this
    {
      && !aliasTouched
      && Looks(base, At(base, Current), At(fs, Temp(scratch)), At(fs, Backup(scratch)), Some(LOCK_FILE))
      && (At(fs, Temp(scratch)).Some? ==> temp.Some?) && (At(fs, Backup(scratch)).Some? ==> backup.Some?)
    }

    lemma LooksUntouched(base: Root)
      requires !aliasTouched && Looks(base, At(base, Current), None, None, Some(LOCK_FILE))
      ensures Untouched(base)
    {
    }

    /** The old alias is moved aside and the new one is not in place. */
    ghost predicate Aside(base: Root)
      reads this
    {
      && aliasTouched && aliasExists && temp.Some? && backup.Some?
      && Looks(base, None, Some(NewAlias()), At(base, Current), Some(LOCK_FILE))
    }

    /** The new alias is in place. */
    ghost predicate Switched(base: Root)
      reads this
    {
      && aliasTouched && temp.Some? && (backup.Some? <==> aliasExists)
      && Looks(base, Some(NewAlias()), None, if aliasExists then At(base, Current) else None, Some(LOCK_FILE))
    }

    ghost predicate ScratchNames()
      reads this
    {
      (temp.Some? ==> temp.value == Temp(scratch)) && (backup.Some? ==> backup.value == Backup(scratch))
    }

    /** Moves the old alias to a backup name that was created and freed again. */
    method MoveAside(ghost base: Root) returns (ok: bool)
      requires !aliasTouched && aliasExists && Current in base && temp == Some(Temp(scratch)) && backup == None
      requires Looks(base, At(base, Current), Some(NewAlias()), None, Some(LOCK_FILE))
      modifies this`fs, this`backup, this`aliasTouched
      ensures ScratchNames() && backup.Some? && (ok <==> MovedAside(faults))
      ensures if ok then Aside(base) else Untouched(base)
    {
      Write(Backup(scratch), File("", PRIVATE));
      backup := Some(Backup(scratch));
      ok := RemoveScratch(backup, faults.removePlaceholder);
      if !ok {
        return;
      }
      ok := RenameTo(Current, Backup(scratch), faults.moveAside);
      if ok {
        aliasTouched := true;
      }
    }

    method SwitchAlias(ghost base: Root) returns (ok: bool)
      requires !aliasTouched && temp == None && backup == None
      requires Looks(base, At(base, Current), None, None, Some(LOCK_FILE))
      requires aliasExists <==> Current in base
      modifies this`fs, this`temp, this`backup, this`aliasTouched
      ensures ScratchNames()
      ensures At(fs, Stage(scratch)) == At(old(fs), Stage(scratch))
      ensures ok <==> !faults.moveIn && (aliasExists ==> MovedAside(faults))
      ensures if ok then Switched(base) else Untouched(base) || Aside(base)
      ensures !ok && Aside(base) ==> MovedAside(faults) && faults.moveIn
      ensures !ok && Untouched(base) ==> !aliasExists || !MovedAside(faults)
    {
      Write(Temp(scratch), NewAlias());
      temp := Some(Temp(scratch));
      if aliasExists {
        ok := MoveAside(base);
        if !ok {
          return;
        }
      }
      ok := RenameTo(Temp(scratch), Current, faults.moveIn);
      if ok {
        aliasTouched := true;
      }
    }

    // -------------------------------------------------------------- the deferred settlement

    /** rollbackNewCandidate: empties the new directory name by name, then removes it. */
    method RollbackNewCandidate()
      requires Distinct(names) && Complete() && At(fs, Release(identity)) == Some(ExpectedFolder())
      modifies this`fs
      ensures forall m :: At(fs, m) == if m == Release(identity) then None else At(old(fs), m)
    {
      hide Distinct, Complete;
      var files := fs[Release(identity)].files;
      var i := 0;
      while i < |names|
        invariant 0 <= i <= |names| && fs == old(fs)
        invariant forall n :: n in files <==> n in names[i..]
        invariant forall n :: n in files ==> files[n].Regular?
      {
        DistinctRest(names, i);
        assert files[names[i]].Regular?;
        files := files - {names[i]};
        i := i + 1;
      }
      assert files == map[];
      Remove(Release(identity));
    }

    /** The readback of a restored alias: a regular file with the original bytes and permission bits. */
    predicate SameAlias(alias: Option<Node>)
      reads this`original, this`originalMode
    {
      alias.Some? && alias.value.File? && alias.value.bytes == original && alias.value.mode.perm == originalMode.perm
    }

    /** Restores the alias after a switch: by renaming the backup back, or by writing the bytes kept in memory. */
    method RestoreAlias() returns (restored: bool)
      modifies this`fs
      ensures restored <==> if aliasExists then SameAlias(At(fs, Current)) else At(fs, Current) == None
      ensures forall n :: n != Current && n != Backup(scratch) ==> At(fs, n) == At(old(fs), n)
      ensures !aliasExists ==> At(fs, Current) == None && At(fs, Backup(scratch)) == At(old(fs), Backup(scratch))
      ensures aliasExists ==>
                if !faults.restore && At(old(fs), Backup(scratch)).Some?
                then At(fs, Current) == At(old(fs), Backup(scratch)) && At(fs, Backup(scratch)) == None
                else At(fs, Current) == Some(File(original, Mode(originalMode.perm, 0)))
                     && At(fs, Backup(scratch)) == At(old(fs), Backup(scratch))
    {
      Remove(Current);
      if aliasExists {
        var renamed := RenameTo(Backup(scratch), Current, faults.restore);
        if !renamed {
          Write(Current, File(original, Mode(originalMode.perm, 0)));
        }
        restored := SameAlias(At(fs, Current));
      } else {
        restored := At(fs, Current) == None;
      }
    }

    predicate Cleared(n: Name)
      reads this
    {
      n == Lock || (n == Temp(scratch) && temp.Some?) || (n == Backup(scratch) && backup.Some?)
    }

    /** The direct cleanup; an unproved restoration keeps the backup. */
    method ClearScratch(restored: bool)
      requires ScratchNames()
      modifies this`fs
      ensures restored ==> forall n :: At(fs, n) == if Cleared(n) then None else At(old(fs), n)
    {
      if temp.Some? {
        Remove(temp.value);
      }
      if backup.Some? && restored {
        Remove(backup.value);
      }
      Remove(Lock);
    }

    /** The prestate and the root with the immutable directory in place. */
    ghost predicate Prepared(pre: Root, base: Root)
      reads this`aliasExists, this`original, this`originalMode, this`created
    {
      && At(pre, Lock) == At(pre, Stage(scratch)) == At(pre, Temp(scratch)) == At(pre, Backup(scratch)) == None
      && (aliasExists ==> At(pre, Current) == Some(File(original, originalMode)))
      && (forall n :: n != Release(identity) ==> At(base, n) == At(pre, n))
      && (if created then Complete() && At(pre, Release(identity)) == None && At(base, Release(identity)) == Some(ExpectedFolder())
          else At(base, Release(identity)) == At(pre, Release(identity)))
    }

    /** Everything the deferred function may find when it starts. */
    ghost predicate Unsettled(pre: Root, base: Root, ok: bool, reached: bool)
      reads this
    {
      && ScratchNames() && Prepared(pre, base)
      && (reached ==> current && (aliasExists <==> At(pre, Current).Some?))
      && (if ok && current then reached && Switched(base) && !faults.moveIn && (aliasExists ==> MovedAside(faults))
          else if ok then !reached && temp == None && backup == None && Untouched(base)
          else if reached then
            || (Aside(base) && MovedAside(faults) && faults.moveIn)
            || (Untouched(base) && (!aliasExists || !MovedAside(faults)))
          else Untouched(base))
    }

    lemma UnsettledIsPrepared(pre: Root, base: Root, ok: bool, reached: bool)
      requires Unsettled(pre, base, ok, reached)
      ensures Prepared(pre, base)
    {
    }

    /** The state when the rollback starts: the alias untouched, moved aside, or switched. */
    ghost predicate Failing(pre: Root, base: Root, reached: bool)
      reads this
    {
      && ScratchNames()
      && (forall n :: n != Lock && n != Current && n != Temp(scratch) && n != Backup(scratch) ==> At(fs, n) == At(base, n))
      && (At(fs, Temp(scratch)).Some? ==> temp.Some?) && (At(fs, Backup(scratch)).Some? ==> backup.Some?)
      && (!aliasTouched ==>
            At(fs, Current) == At(pre, Current) && (!reached || !WritesAnew(faults) || At(pre, Current) == None))
      && (aliasTouched && aliasExists ==>
            if WritesAnew(faults) then reached && (faults.restore || At(fs, Backup(scratch)) == None)
            else !faults.restore && At(fs, Backup(scratch)) == At(pre, Current))
      && (aliasTouched && !aliasExists ==> At(pre, Current) == None)
    }

    /** The directory this run renamed into place. */
    predicate Owns(node: Option<Node>) {
      node.Some? && node.value.Folder? && node.value.id == inode
    }

    /** The rollback restores the prestate, up to special bits of an alias written anew. */
    method Rollback(ghost pre: Root, ghost base: Root, ghost reached: bool)
      requires Distinct(names) && Prepared(pre, base) && Failing(pre, base, reached)
      modifies this`fs
      ensures fs == RolledBack(pre, reached, faults)
    {
      hide Complete, At, RolledBack;
      var restored := !aliasTouched;
      if aliasTouched {
        restored := RestoreAlias();
      }
      ghost var goal := RolledBack(pre, reached, faults);
      RolledBackAt(pre, reached, faults);
      assert restored && At(fs, Current) == At(goal, Current);
      ClearScratch(restored);
      assert forall n :: n != Release(identity) ==> At(fs, n) == At(goal, n);
      assert At(fs, Release(identity)) == At(base, Release(identity));
      if created {
        if At(fs, Stage(scratch)) == None && Owns(At(fs, Release(identity))) {
          RollbackNewCandidate();
        }
      }
      SameRoot(fs, goal);
    }

    /** A success without its temporary file: the new alias is in place, or none was asked for. */
    ghost predicate Clearing(pre: Root, base: Root, reached: bool)
      reads this
    {
      && ScratchNames() && Prepared(pre, base) && (reached <==> current)
      && (forall n :: n != Lock && n != Current && n != Temp(scratch) && n != Backup(scratch) ==> At(fs, n) == At(base, n))
      && At(fs, Temp(scratch)) == None && (backup.Some? <==> current && At(pre, Current).Some?)
      && (if current then
            && aliasTouched && (aliasExists <==> At(pre, Current).Some?) && At(fs, Current) == Some(NewAlias())
            && At(fs, Backup(scratch)) == At(pre, Current)
            && !faults.moveIn && !faults.removeTemp && (aliasExists ==> MovedAside(faults))
          else !aliasTouched && At(fs, Current) == At(base, Current) && At(fs, Backup(scratch)) == None)
    }

    /** The removals a success still needs; the first failure leaves a state to roll back. */
    method ClearBackupAndLock(ghost pre: Root, ghost base: Root, ghost reached: bool) returns (final: bool)
      requires Clearing(pre, base, reached)
      modifies this`fs
      ensures final <==> !faults.removeLock && (current ==> At(pre, Current).Some? ==> !faults.removeBackup)
      ensures final ==> forall n :: At(fs, n) == if n == Current && current then Some(NewAlias()) else At(base, n)
      ensures !final ==> Failing(pre, base, reached)
    {
      hide Complete, At, RolledBack;
      final := RemoveScratch(backup, faults.removeBackup);
      if final {
        final := RemoveScratch(Some(Lock), faults.removeLock);
      }
    }

    method FinishSuccess(ghost pre: Root, ghost base: Root, ghost reached: bool) returns (final: bool)
      requires Unsettled(pre, base, true, reached)
      modifies this`fs
      ensures final <==> !faults.removeLock
                         && (current ==> !faults.removeTemp && (At(pre, Current).Some? ==> !faults.removeBackup))
      ensures final ==> forall n :: At(fs, n) == if n == Current && current then Some(NewAlias()) else At(base, n)
      ensures !final ==> Failing(pre, base, reached)
    {
      hide Complete, At, RolledBack;
      final := RemoveScratch(temp, faults.removeTemp);
      if final {
        final := ClearBackupAndLock(pre, base, reached);
      }
    }

    /** A failure only tries to remove the unused temporary file. */
    method FinishFailure(ghost pre: Root, ghost base: Root, ghost reached: bool)
      requires Unsettled(pre, base, false, reached)
      modifies this`fs
      ensures Failing(pre, base, reached)
    {
      hide Complete, At, RolledBack;
      var cleared := RemoveScratch(temp, faults.removeTemp);
    }

    method Settle(ok: bool, ghost pre: Root, ghost base: Root, ghost reached: bool) returns (final: bool)
      requires Distinct(names) && Unsettled(pre, base, ok, reached)
      modifies this`fs
      ensures final <==> ok && !faults.removeLock
                         && (current ==> !faults.removeTemp && (At(pre, Current).Some? ==> !faults.removeBackup))
      ensures final ==> forall n :: At(fs, n) == if n == Current && current then Some(NewAlias()) else At(base, n)
      ensures !final ==> fs == RolledBack(pre, reached, faults)
    {
      hide Failing, Unsettled, RolledBack;
      final := false;
      UnsettledIsPrepared(pre, base, ok, reached);
      if ok {
        final := FinishSuccess(pre, base, reached);
      } else {
        FinishFailure(pre, base, reached);
      }
      if !final {
        Rollback(pre, base, reached);
      }
    }

    // -------------------------------------------------------------- the whole promotion

    /** The root with the immutable directory in place, before the alias. */
    ghost function Base(pre: Root): Root
      requires created ==> Complete()
      reads this`created
    {
      if created then pre[Release(identity) := ExpectedFolder()] else pre
    }

    ghost predicate ScratchUnused(pre: Root) {
      Stage(scratch) !in pre && Temp(scratch) !in pre && Backup(scratch) !in pre
    }

    /** The root a settled success leaves is the promoted one. */
    lemma PromotedIs(pre: Root, base: Root, now: Root)
      requires Complete()
      requires base == if Release(identity) in pre then pre else pre[Release(identity) := ExpectedFolder()]
      requires forall n :: At(now, n) == if n == Current && current then Some(NewAlias()) else At(base, n)
      ensures now == PromotedRoot(pre)
    {
      hide Complete;
      SameRoot(now, PromotedRoot(pre));
    }

    /**
     promoteCandidateWithOps: it succeeds exactly when every check passes and no fault strikes a call it depends on,
     and then the whole promotion is in place and nothing is left over; otherwise the root is rolled back.
     */
    method Promote() returns (ok: bool)
      requires Fresh() && Distinct(names) && DigestsIdentify() && ScratchUnused(fs)
      modifies this
      ensures ok <==> Succeeds(old(fs), faults)
      ensures fs == Outcome(old(fs), faults)
      ensures ok ==> Published(fs) && (current ==> Names(fs))
      ensures forall n :: n != Release(identity) && n != Current ==> At(fs, n) == At(old(fs), n)
      ensures ok && Release(identity) in old(fs) ==> fs[Release(identity)] == old(fs)[Release(identity)]
      ensures !ok ==> At(fs, Release(identity)) == At(old(fs), Release(identity))
      ensures !current ==> At(fs, Current) == At(old(fs), Current)
      ensures !ok ==> SameText(At(fs, Current), At(old(fs), Current))
    {
      hide Publishable, Complete, Expected, DigestsIdentify, RolledBack, Unsettled, MovedAside;
      ghost var pre := fs;
      if Lock in fs {
        LockedChangesNothing(pre);
        SameTextAsItself(At(pre, Current));
        return false;
      }
      fs := fs[Lock := LOCK_FILE];
      ok := Proceed(pre);
      ghost var base := Base(pre);
      ok := Settle(ok, pre, base, Reaches(pre));
      if ok {
        PromotedIs(pre, base, fs);
        PromotedMeans(pre);
      } else {
        RolledBackMeans(pre, Reaches(pre), faults);
      }
    }

    /** The directory holds every promoted name and no other: the manifest under its own name, the sources else. */
    ghost predicate Published(root: Root) {
      && Release(identity) in root && root[Release(identity)].Folder?
      && var files := root[Release(identity)].files;
         && (forall n :: n in files <==> n in names)
         && forall n :: n in names ==>
              if n == MANIFEST then files[n] == Regular(manifest)
              else n in source && source[n].Regular? && files[n] == source[n]
    }

    /** The alias is a file with the identity and a newline, readable by its owner alone. */
    ghost predicate Names(root: Root) {
      At(root, Current) == Some(File(identity + "\n", Mode(384, 0)))
    }

    /** The folder holds exactly these names, each with the bytes it is to have. */
    ghost predicate HoldsSources(node: Node) {
      && node.Folder? && (forall n :: n in node.files <==> n in names)
      && forall n :: n in names ==>
           if n == MANIFEST then node.files[n] == Regular(manifest) else n in source && node.files[n] == source[n]
    }

    /**
     When a promotion succeeds: nobody holds the lock, the alias is absent or a file, every name has its source, the
     directory in place is the right one or the new one passes its checks, and no call the run depends on fails.
     */
    lemma SucceedsIs(pre: Root, f: Faults)
      ensures Succeeds(pre, f) <==>
                && Lock !in pre && (current && Current in pre ==> pre[Current].File?)
                && "candidate-manifest.json" in names
                && (forall n :: n in names ==> n == "candidate-manifest.json" || (n in source && source[n].Regular?))
                && (if Release(identity) in pre then checks.existing && HoldsSources(pre[Release(identity)])
                    else checks.staged && checks.stageRenamed && checks.published)
                && !f.removeLock && (current ==> !f.moveIn && !f.removeTemp)
                && (current && Current in pre ==> !f.removePlaceholder && !f.moveAside && !f.removeBackup)
    {
      assert Complete() <==> forall n :: n in names ==> HasSource(n);
      if Complete() {
        forall n | n in names ensures n in Expected() && Expected()[n] == if n == MANIFEST then Regular(manifest) else source[n] {
        }
        if Release(identity) in pre && pre[Release(identity)].Folder? {
          var files := pre[Release(identity)].files;
          if HoldsSources(pre[Release(identity)]) {
            assert files == Expected();
          }
        }
      }
    }

    lemma PromotedMeans(pre: Root)
      requires Publishable(At(pre, Release(identity)))
      ensures Published(PromotedRoot(pre)) && (current ==> Names(PromotedRoot(pre)))
      ensures forall n :: n != Release(identity) && n != Current ==> At(PromotedRoot(pre), n) == At(pre, n)
      ensures Release(identity) in pre ==> PromotedRoot(pre)[Release(identity)] == pre[Release(identity)]
      ensures !current ==> At(PromotedRoot(pre), Current) == At(pre, Current)
    {
    }

    lemma RolledBackMeans(pre: Root, reached: bool, f: Faults)
      ensures forall n :: n != Current ==> At(RolledBack(pre, reached, f), n) == At(pre, n)
      ensures SameText(At(RolledBack(pre, reached, f), Current), At(pre, Current))
      ensures !reached ==> RolledBack(pre, reached, f) == pre
    {
    }

    lemma LockedChangesNothing(pre: Root)
      requires Lock in pre
      ensures forall f :: !Succeeds(pre, f) && Outcome(pre, f) == pre
    {
    }

    /** The base under a staged root, name by name. */
    lemma BaseAt(pre: Root, locked: Root)
      requires Staging(locked) && locked == pre[Lock := LOCK_FILE] && ScratchUnused(pre)
      ensures created ==> Complete() && Release(identity) !in pre
      ensures At(fs, Release(identity)) == At(Base(pre), Release(identity))
      ensures forall n :: n != Release(identity) ==> At(Base(pre), n) == At(pre, n)
      ensures forall n :: n != Stage(scratch) && n != Release(identity) && n != Lock ==> At(fs, n) == At(Base(pre), n)
      ensures At(fs, Lock) == Some(LOCK_FILE) && At(fs, Temp(scratch)) == At(fs, Backup(scratch)) == None
    {
      hide Complete, Expected;
      assert forall n :: n != Stage(scratch) && n != Release(identity) ==> At(fs, n) == At(locked, n);
    }

    lemma BaseIsPrepared(pre: Root, locked: Root)
      requires Staging(locked) && locked == pre[Lock := LOCK_FILE] && ScratchUnused(pre) && Lock !in pre
      requires aliasExists ==> At(pre, Current) == Some(File(original, originalMode))
      ensures created ==> Complete()
      ensures Prepared(pre, Base(pre))
    {
      hide Complete, Expected;
      BaseAt(pre, locked);
    }

    /** The stage cleanup after a publication that failed. */
    method AbandonStage(ghost pre: Root, ghost locked: Root)
      requires Staging(locked) && locked == pre[Lock := LOCK_FILE] && ScratchUnused(pre)
      requires !aliasTouched && temp == None && backup == None
      modifies this`fs
      ensures created ==> Complete()
      ensures Untouched(Base(pre)) && At(fs, Stage(scratch)) == None
    {
      hide Complete, Expected, Base;
      BaseAt(pre, locked);
      assert At(pre, Stage(scratch)) == None;
      var cleaned := CleanupStage(locked);
    }

    /** The immutable directory in place, or the stage cleaned up and everything else as before. */
    method PublishOrAbandon(ghost pre: Root) returns (ok: bool)
      requires Distinct(names) && DigestsIdentify() && ScratchUnused(pre) && Lock !in pre && fs == pre[Lock := LOCK_FILE]
      requires !aliasTouched && !created && !bound && !promoted && temp == None && backup == None
      requires aliasExists ==> At(pre, Current) == Some(File(original, originalMode))
      modifies this`fs, this`bound, this`promoted, this`created
      ensures created ==> Complete()
      ensures Prepared(pre, Base(pre)) && At(fs, Stage(scratch)) == None
      ensures ok <==> Publishable(At(pre, Release(identity)))
      ensures if ok then Looks(Base(pre), At(pre, Current), None, None, Some(LOCK_FILE)) else Untouched(Base(pre))
      ensures ok ==> (created <==> Release(identity) !in pre) && (bound ==> promoted)
    {
      hide Complete, Expected, Publishable, Prepared, Untouched, Distinct, DigestsIdentify;
      ghost var locked := fs;
      assert At(locked, Release(identity)) == At(pre, Release(identity));
      ok := PublishImmutable(locked);
      BaseIsPrepared(pre, locked);
      if !ok {
        AbandonStage(pre, locked);
      } else {
        BaseAt(pre, locked);
        assert At(pre, Stage(scratch)) == None;
      }
    }

    /** The steps between the preflight and the deferred settlement, including the stage cleanup. */
    method PublishAndSwitch(ghost pre: Root) returns (ok: bool)
      requires Distinct(names) && DigestsIdentify() && ScratchUnused(pre) && Lock !in pre && fs == pre[Lock := LOCK_FILE]
      requires !aliasTouched && !created && !bound && !promoted && temp == None && backup == None
      requires aliasExists <==> current && Current in pre
      requires aliasExists ==> pre[Current] == File(original, originalMode)
      modifies this`fs, this`bound, this`promoted, this`created, this`temp, this`backup, this`aliasTouched
      ensures created ==> Complete()
      ensures Unsettled(pre, Base(pre), ok, Reaches(pre))
      ensures ok <==> Publishable(At(pre, Release(identity)))
                      && (current ==> !faults.moveIn && (Current in pre ==> MovedAside(faults)))
      ensures ok ==> (created <==> Release(identity) !in pre)
    {
      hide Publishable, Complete, MovedAside, Looks, Prepared;
      ok := PublishOrAbandon(pre);
      if ok {
        if current {
          ok := SwitchAlias(Base(pre));
        } else {
          LooksUntouched(Base(pre));
        }
        assert At(fs, Stage(scratch)) == None;
        // The cleanup of a promoted stage only checks that the stage is gone.
        var cleaned := !bound || At(fs, Stage(scratch)) == None;
        ok := ok && cleaned;
      }
    }

    /** The steps under the lock: the preflight, the immutable directory, the alias, and the stage cleanup. */
    method Proceed(ghost pre: Root) returns (ok: bool)
      requires Fresh() && Distinct(names) && DigestsIdentify() && ScratchUnused(pre) && Lock !in pre
      requires fs == pre[Lock := LOCK_FILE]
      modifies this
      ensures created ==> Complete()
      ensures Unsettled(pre, Base(pre), ok, Reaches(pre))
      ensures ok <==> (current && Current in pre ==> pre[Current].File?) && Publishable(At(pre, Release(identity)))
                      && (current ==> !faults.moveIn && (Current in pre ==> MovedAside(faults)))
      ensures ok ==> Complete() && (created <==> Release(identity) !in pre)
    {
      hide Complete, MovedAside, Expected, RolledBack;
      ok := Preflight();
      if ok {
        ok := PublishAndSwitch(pre);
      }
    }

    /** With every other input fixed, these are the schedules under which a failed run does not restore its prestate. */
    lemma ExactLoss(pre: Root, f: Faults)
      ensures !Succeeds(pre, f) && Outcome(pre, f) != pre
              <==> && Reaches(pre) && Current in pre && pre[Current].mode.special != 0 && MovedAside(f)
                   && if f.moveIn || f.removeTemp || f.removeBackup then f.restore else f.removeLock
    {
      hide Publishable, Complete;
      if Reaches(pre) && Current in pre {
        StrippedIs(pre);
      }
    }

    /**
     A failed run restores its prestate under every schedule of faults exactly when it never gets to the alias
     switch, or the alias it replaces has no special bits.
     */
    lemma ExactRollbackCondition(pre: Root)
      ensures (forall f :: !Succeeds(pre, f) ==> Outcome(pre, f) == pre)
              <==> (Reaches(pre) && Current in pre ==> pre[Current].mode.special == 0)
    {
      hide Publishable, Complete, Outcome, Succeeds;
      forall f ensures !Succeeds(pre, f) && Outcome(pre, f) != pre ==>
                         Reaches(pre) && Current in pre && pre[Current].mode.special != 0
      {
        ExactLoss(pre, f);
      }
      // Only the lock removal fails: the backup is gone, and the alias is written anew.
      ExactLoss(pre, Faults(false, false, false, false, false, true, false));
    }
  }

  /** A sticky alias, every check passing, and only the removal of the lock failing: the run fails and unsticks it. */
  method StickyAliasIsLost() returns (pre: Root, p: Promotion, ok: bool)
    ensures pre == map[Current := File("old\n", Mode(420, 512))] && !ok && p.fs != pre
    ensures p.fs == map[Current := File("old\n", Mode(420, 0))]
  {
    pre := map[Current := File("old\n", Mode(420, 512))];
    var lockFails := Faults(false, false, false, false, false, true, false);
    p := new Promotion(pre, "new", [MANIFEST], map[], "{}", true, lockFails, Checks(true, true, true, true), 0, 1, x => x);
    assert p.Publishable(None) && p.Reaches(pre);
    ok := p.Promote();
    assert p.fs[Current].mode.special == 0;
  }
}
