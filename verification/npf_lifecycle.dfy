/** Properties of a whole explorer session: what an archive's contents mean for
    the lookups, and that dropping an explorer undoes opening it. */
module NpfLifecycle {
  import opened Wrappers
  import opened Paths
  import opened FileSystem
  import opened Package
  import opened Npf

  /** Nothing exists at or below `dir` and nothing there is inaccessible: the
      random name did not collide with earlier content. */
  predicate ScratchIsFresh(w: World, dir: Path) {
    (forall q :: q in w.fs ==> !IsUnder(dir, q)) && !SubtreeFaulty(w, dir)
  }

  /** Every directory from the root down to `dir`, `dir` included, exists. */
  predicate DirectoriesExist(w: World, dir: Path) {
    forall q :: q in Prefixes(dir) ==> q in w.fs && w.fs[q] == Dir
  }

  /** The archive's `manifest.toml` is a file whose text parses. */
  predicate ManifestValid(o: Oracles, entries: map<Path, Node>) {
    && [ManifestMember] in entries && entries[[ManifestMember]].File?
    && o.readToString(entries[[ManifestMember]].content).Some?
    && o.parseManifest(o.readToString(entries[[ManifestMember]].content).value).Some?
  }

  /** After a fresh scratch directory is created and the archive unpacked into
      it, the member `m` is present below it exactly when the archive has it. */
  lemma {:induction false} UnpackedScratchHolds(w: World, npfPath: Path, dir: Path, o: Oracles,
                                                bytes: Bytes, entries: map<Path, Node>, m: Path)
    requires ScratchIsFresh(w, dir) && !BlocksCreation(w, dir)
    requires Access(w, npfPath) == Ok(File(bytes)) && o.unpack(bytes) == Some(entries)
    requires m != []
    ensures ArchiveUnpacked(w, npfPath, dir, o)
    ensures var after := UnpackedWorld(w, npfPath, dir, o);
            && after.faulty == w.faulty
            && (dir + m in after.fs <==> m in entries)
            && (m in entries ==> after.fs[dir + m] == entries[m])
  {
    var created := CreateDirAll(w, dir).value;
    assert Access(created, npfPath) == Ok(File(bytes));
    var after := UnpackedWorld(w, npfPath, dir, o);
    assert after.fs == Graft(created.fs, dir, entries);
    var q := dir + m;
    assert IsUnder(dir, q) && q[|dir|..] == m;
    assert q !in w.fs;
    assert q !in Prefixes(dir);
    assert q !in created.fs;
  }

  /** Opening an archive whose manifest is readable and valid yields an explorer
      on the generated scratch directory with that manifest; a missing or
      unparsable manifest is reported as such. */
  lemma {:induction false} OpenedArchiveManifest(w: World, npfPath: Path, extractDir: Path, rng: seq<char>,
                                                 o: Oracles, bytes: Bytes, entries: map<Path, Node>)
    requires IsScratchSuffix(rng)
    requires var dir := GenTmpFilename(extractDir, rng);
             ScratchIsFresh(w, dir) && !BlocksCreation(w, dir)
    requires Access(w, npfPath) == Ok(File(bytes)) && o.unpack(bytes) == Some(entries)
    ensures var r := OpenAt(w, npfPath, extractDir, rng, o).result;
            [ManifestMember] !in entries ==> r == Err(MissingManifest)
    ensures var r := OpenAt(w, npfPath, extractDir, rng, o).result;
            [ManifestMember] in entries && entries[[ManifestMember]].File? ==>
              var text := o.readToString(entries[[ManifestMember]].content);
              && (text.None? ==> r == Err(FileIOError(Absolute(GenTmpFilename(extractDir, rng)))))
              && (text.Some? && o.parseManifest(text.value).None? ==> r == Err(InvalidManifest))
              && (text.Some? && o.parseManifest(text.value).Some? ==>
                    r == Ok(NPFExplorer(o.parseManifest(text.value).value, GenTmpFilename(extractDir, rng))))
  {
    var dir := GenTmpFilename(extractDir, rng);
    UnpackedScratchHolds(w, npfPath, dir, o, bytes, entries, [ManifestMember]);
    var after := UnpackedWorld(w, npfPath, dir, o);
    assert dir + [ManifestMember] !in after.faulty;
  }

  /** On an explorer opened over a fresh scratch directory, the payload lookup
      follows the archive: present when the archive has `data.tar.gz`, otherwise
      absent for virtual packages and an error for effective ones. */
  lemma {:induction false} OpenedArchivePayload(w: World, npfPath: Path, extractDir: Path, rng: seq<char>,
                                                o: Oracles, bytes: Bytes, entries: map<Path, Node>)
    requires IsScratchSuffix(rng)
    requires var dir := GenTmpFilename(extractDir, rng);
             ScratchIsFresh(w, dir) && !BlocksCreation(w, dir)
    requires Access(w, npfPath) == Ok(File(bytes)) && o.unpack(bytes) == Some(entries)
    requires ManifestValid(o, entries)
    ensures OpenAt(w, npfPath, extractDir, rng, o).result.Ok?
    ensures var session := OpenAt(w, npfPath, extractDir, rng, o);
            var e := session.result.value;
            && ([DataMember] in entries ==> OpenData(session.world, e) == Ok(Some(NPFFile(e.path + [DataMember]))))
            && ([DataMember] !in entries && e.manifest.kind == Effective ==>
                  OpenData(session.world, e) == Err(FileNotFound(Relative(DataMember))))
            && ([DataMember] !in entries && e.manifest.kind != Effective ==>
                  OpenData(session.world, e) == Ok(None))
  {
    var dir := GenTmpFilename(extractDir, rng);
    OpenedArchiveManifest(w, npfPath, extractDir, rng, o, bytes, entries);
    UnpackedScratchHolds(w, npfPath, dir, o, bytes, entries, [DataMember]);
    var after := UnpackedWorld(w, npfPath, dir, o);
    assert dir + [DataMember] !in after.faulty;
  }

  /** The executor is built from exactly the bytes the archive holds as
      `instructions.sh`; an archive without one loads no instructions. */
  lemma {:induction false} OpenedArchiveInstructions(w: World, npfPath: Path, extractDir: Path, rng: seq<char>,
                                                     o: Oracles, bytes: Bytes, entries: map<Path, Node>)
    requires IsScratchSuffix(rng)
    requires var dir := GenTmpFilename(extractDir, rng);
             ScratchIsFresh(w, dir) && !BlocksCreation(w, dir)
    requires Access(w, npfPath) == Ok(File(bytes)) && o.unpack(bytes) == Some(entries)
    requires ManifestValid(o, entries)
    ensures OpenAt(w, npfPath, extractDir, rng, o).result.Ok?
    ensures var session := OpenAt(w, npfPath, extractDir, rng, o);
            var e := session.result.value;
            && ([InstructionsMember] !in entries ==> LoadInstructions(session.world, e, o) == Ok(None))
            && ([InstructionsMember] in entries && entries[[InstructionsMember]].File?
                && o.loadScript(entries[[InstructionsMember]].content) ==>
                  LoadInstructions(session.world, e, o)
                    == Ok(Some(InstructionsExecutor(entries[[InstructionsMember]].content))))
  {
    var dir := GenTmpFilename(extractDir, rng);
    OpenedArchiveManifest(w, npfPath, extractDir, rng, o, bytes, entries);
    UnpackedScratchHolds(w, npfPath, dir, o, bytes, entries, [InstructionsMember]);
    var after := UnpackedWorld(w, npfPath, dir, o);
    assert dir + [InstructionsMember] !in after.faulty;
  }

  /** Opening changes nothing outside the scratch tree except by creating the
      missing directories on the way down to it. */
  lemma {:induction false} OpenAtFrame(w: World, npfPath: Path, extractDir: Path, rng: seq<char>, o: Oracles)
    requires IsScratchSuffix(rng)
    ensures var dir := GenTmpFilename(extractDir, rng);
            var after := OpenAt(w, npfPath, extractDir, rng, o).world;
            && (forall q :: q in w.fs && !IsUnder(dir, q) ==> q in after.fs && after.fs[q] == w.fs[q])
            && (forall q :: q in after.fs ==> q in w.fs || q in Prefixes(dir) || IsUnder(dir, q))
  {
    var dir := GenTmpFilename(extractDir, rng);
    if !BlocksCreation(w, dir) {
      var created := CreateDirAll(w, dir).value;
      if ArchiveUnpacked(w, npfPath, dir, o) {
        var after := UnpackedWorld(w, npfPath, dir, o);
        assert after.fs == Graft(created.fs, dir, o.unpack(created.fs[npfPath].content).value);
      }
    }
  }

  /** A directory on the way down to the scratch directory, other than the
      scratch directory itself, is on the way down to the extraction directory. */
  lemma AncestorOfScratch(extractDir: Path, dir: Path, q: Path)
    requires |dir| == |extractDir| + 1 && dir[..|extractDir|] == extractDir
    requires q in Prefixes(dir) && q != dir
    ensures q in Prefixes(extractDir)
  {
    var i :| 1 <= i <= |dir| && q == dir[..i];
    assert i <= |extractDir|;
    assert q == extractDir[..i];
  }

  /** Removing the scratch subtree from a tree that differs from `before` only
      inside that subtree and on already existing ancestors gives `before` back. */
  lemma {:induction false} PruneRestores(before: map<Path, Node>, during: map<Path, Node>, after: map<Path, Node>,
                                         extractDir: Path, dir: Path)
    requires |dir| == |extractDir| + 1 && dir[..|extractDir|] == extractDir
    requires forall q :: q in Prefixes(extractDir) ==> q in before
    requires forall q :: q in before ==> !IsUnder(dir, q)
    requires forall q :: q in before && !IsUnder(dir, q) ==> q in during && during[q] == before[q]
    requires forall q :: q in during ==> q in before || q in Prefixes(dir) || IsUnder(dir, q)
    requires forall q :: q in after ==> q in during && !IsUnder(dir, q)
    requires forall q :: q in during && !IsUnder(dir, q) ==> q in after && after[q] == during[q]
    ensures after == before
  {
    forall q | q in after ensures q in before {
      if q !in before {
        assert q in Prefixes(dir) && q != dir;
        AncestorOfScratch(extractDir, dir, q);
      }
    }
    assert after.Keys == before.Keys;
  }

  /** Dropping a freshly opened explorer restores the world exactly as it was
      before opening, provided the extraction directory already existed. */
  lemma {:induction false} DropUndoesOpen(w: World, npfPath: Path, extractDir: Path, rng: seq<char>, o: Oracles,
                                          bytes: Bytes, entries: map<Path, Node>)
    requires IsScratchSuffix(rng)
    requires DirectoriesExist(w, extractDir)
    requires var dir := GenTmpFilename(extractDir, rng);
             ScratchIsFresh(w, dir) && !BlocksCreation(w, dir)
    requires Access(w, npfPath) == Ok(File(bytes)) && o.unpack(bytes) == Some(entries)
    requires ManifestValid(o, entries)
    ensures OpenAt(w, npfPath, extractDir, rng, o).result.Ok?
    ensures var session := OpenAt(w, npfPath, extractDir, rng, o);
            Drop(session.world, session.result.value) == Some(w)
  {
    var dir := GenTmpFilename(extractDir, rng);
    OpenedArchiveManifest(w, npfPath, extractDir, rng, o, bytes, entries);
    var session := OpenAt(w, npfPath, extractDir, rng, o);
    var e := session.result.value;
    assert e.path == dir && IsLive(session.world, e);
    OpenAtFrame(w, npfPath, extractDir, rng, o);
    assert !SubtreeFaulty(session.world, dir);
    var cleaned := Drop(session.world, e);
    PruneRestores(w.fs, session.world.fs, cleaned.value.fs, extractDir, dir);
  }
}
