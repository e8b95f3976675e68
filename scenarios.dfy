/**
 * Whole runs of `backup_job` on concrete configurations.
 */
module Scenarios {
  import opened Timestamp
  import opened Naming
  import opened Config
  import opened Archiver
  import opened Workflow

  lemma TwoFolderArchives(a: string, b: string, existing: set<string>, timestamp: string)
    ensures Archives([a, b], existing, timestamp) ==
      (if a in existing then [ArchivePath(a, timestamp)] else []) +
      (if b in existing then [ArchivePath(b, timestamp)] else [])
  {
    assert [a, b][..1] == [a] && [a][..0] == [];
    assert Archives([a], existing, timestamp) == (if a in existing then [ArchivePath(a, timestamp)] else []);
  }

  /** One archive on disk, uploadable and removable: one full cycle. */
  lemma DrainOne(p: string, scratch: set<string>, world: World)
    requires p in scratch && RemoteKey(p) !in world.rejected && p !in world.locked
    ensures Drain([p], scratch, world) == Run(Completed, Cycle(p), scratch - {p})
  {
    assert [p][1..] == [];
    assert Cycle(p) + [] == Cycle(p);
  }

  /** The same archive listed twice: after the first cycle removed it, the
      second upload finds no file. */
  lemma DrainTwice(p: string, scratch: set<string>, world: World)
    requires p in scratch && RemoteKey(p) !in world.rejected && p !in world.locked
    ensures Drain([p, p], scratch, world) == Run(UploadFailed(p), Cycle(p), scratch - {p})
  {
    assert [p, p][1..] == [p];
    assert Cycle(p) + [] == Cycle(p);
  }

  /** Two watched folders of which only the first exists (for instance
      `/data/a` and a vanished `/data/b`): its one archive is written,
      uploaded under its file name and deleted, and the run completes. */
  lemma SecondFolderMissing(a: string, b: string, oss: OssConfig, world: World, now: DateTime)
    requires ValidDateTime(now)
    requires Complete(oss)
    requires a in world.existing && b !in world.existing
    requires ArchiveFilename(a, Format(now)) !in world.rejected
    requires ArchivePath(a, Format(now)) !in world.locked
    ensures var key := ArchiveFilename(a, Format(now));
      var path := ArchivePath(a, Format(now));
      Job(BackupConfig([a, b], oss), world, now) ==
        Run(Completed, [Archive(path), Upload(key, path), Delete(path)], world.scratch - {path})
  {
    var ts := Format(now);
    var path := ArchivePath(a, ts);
    RemoteKeyIsFilename(a, ts);
    TwoFolderArchives(a, b, world.existing, ts);
    var files := Archives([a, b], world.existing, ts);
    assert files == [path];
    assert Elements(files) == {path};
    DrainOne(path, world.scratch + {path}, world);
    assert ArchiveActions(files) == [Archive(path)];
  }

  /** Two existing folders whose sanitised paths agree (such as `/a/b` and
      `/a_b`): the second archive overwrites the first under the same path,
      which is uploaded and deleted once; the second upload then finds no
      file and ends the run, so no archive of the first folder itself ever
      reaches the store. */
  lemma CollidingFoldersAbort(a: string, b: string, oss: OssConfig, world: World, now: DateTime)
    requires ValidDateTime(now)
    requires Complete(oss)
    requires Sanitize(a) == Sanitize(b)
    requires a in world.existing && b in world.existing
    requires ArchiveFilename(b, Format(now)) !in world.rejected
    requires ArchivePath(b, Format(now)) !in world.locked
    ensures var key := ArchiveFilename(b, Format(now));
      var path := ArchivePath(b, Format(now));
      Job(BackupConfig([a, b], oss), world, now) ==
        Run(UploadFailed(path), [Archive(path), Archive(path), Upload(key, path), Delete(path)], world.scratch - {path})
  {
    var ts := Format(now);
    var path := ArchivePath(b, ts);
    SameArchiveIffSameSanitized(a, b, ts);
    RemoteKeyIsFilename(b, ts);
    TwoFolderArchives(a, b, world.existing, ts);
    var files := Archives([a, b], world.existing, ts);
    assert files == [path, path];
    assert Elements(files) == {path};
    DrainTwice(path, world.scratch + {path}, world);
    assert ArchiveActions(files) == [Archive(path), Archive(path)];
  }
}
