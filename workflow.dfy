/**
 * `backup_job`: two guards, then `create_backup`, then for each archive an
 * upload followed by a local delete. The effects are recorded as a trace of
 * actions; the scratch directory is the set of files present under `/tmp`.
 * Nothing in the loop is caught, so the first failing upload or delete ends
 * the run.
 */
module Workflow {
  import opened Timestamp
  import opened Naming
  import opened Config
  import opened Archiver

  /** An effect on the outside world: a tarball written, an object stored
      under `key` from the local file `path`, a local file removed. */
  datatype Action = Archive(path: string) | Upload(key: string, path: string) | Delete(path: string)

  /** How a run ends: one of the two guards, normal completion, or the
      uncaught error of an upload or a delete. */
  datatype Status =
    | NoFolders
    | IncompleteOss
    | Completed
    | UploadFailed(path: string)
    | DeleteFailed(path: string)

  /** What the job does not decide: the folders that exist, the files already
      under `/tmp`, the object keys whose upload raises (network or
      authentication errors), and the local files `os.remove` cannot remove. */
  datatype World = World(existing: set<string>, scratch: set<string>, rejected: set<string>, locked: set<string>)

  /** The result of a run: its status, its effects in order, and the files
      left under `/tmp`. */
  datatype Run = Run(status: Status, trace: seq<Action>, scratch: set<string>)

  function Prepend(actions: seq<Action>, r: Run): (r': Run) {
    Run(r.status, actions + r.trace, r.scratch)
  }

  lemma PrependTwice(a: seq<Action>, b: seq<Action>, r: Run)
    ensures Prepend(a, Prepend(b, r)) == Prepend(a + b, r)
  {
    assert a + (b + r.trace) == (a + b) + r.trace;
  }

  function Elements(files: seq<string>): (ps: set<string>) {
    set p | p in files
  }

  /** One loop iteration that succeeds: `upload_to_oss`, then `delete_local_backup`. */
  function Cycle(p: string): (t: seq<Action>) {
    [Upload(RemoteKey(p), p), Delete(p)]
  }

  /** The effects of a sequence of successful iterations. */
  function Cycles(ps: seq<string>): (t: seq<Action>) {
    if ps == [] then [] else Cycle(ps[0]) + Cycles(ps[1..])
  }

  /** The effects of writing each archive, in the order `create_backup` wrote them. */
  function ArchiveActions(files: seq<string>): (t: seq<Action>) {
    seq(|files|, i requires 0 <= i < |files| => Archive(files[i]))
  }

  /** The upload/delete loop over `files`. An upload raises when the file is
      not on disk or the store rejects its key; a delete raises when the file
      is locked. Either error ends the run. */
  function Drain(files: seq<string>, scratch: set<string>, world: World): (r: Run)
    ensures r.status != NoFolders && r.status != IncompleteOss
    ensures |r.trace| <= 2 * |files|
    ensures r.scratch <= scratch
    decreases |files|
  {
    if files == [] then Run(Completed, [], scratch)
    else
      var p := files[0];
      if p !in scratch || RemoteKey(p) in world.rejected then Run(UploadFailed(p), [], scratch)
      else if p in world.locked then Run(DeleteFailed(p), [Upload(RemoteKey(p), p)], scratch)
      else Prepend(Cycle(p), Drain(files[1..], scratch - {p}, world))
  }

  /** The whole of `backup_job` once the configuration is loaded. */
  function Job(config: BackupConfig, world: World, now: DateTime): (r: Run)
    requires ValidDateTime(now)
    ensures |r.trace| <= 3 * |config.folders|
  {
    if config.folders == [] then Run(NoFolders, [], world.scratch)
    else if !Complete(config.oss) then Run(IncompleteOss, [], world.scratch)
    else
      var files := Archives(config.folders, world.existing, Format(now));
      Prepend(ArchiveActions(files), Drain(files, world.scratch + Elements(files), world))
  }

  /** `backup_job()` on a loaded configuration, a world and a clock reading. */
  method BackupJob(config: BackupConfig, world: World, now: DateTime)
    returns (status: Status, trace: seq<Action>, scratch: set<string>)
    requires ValidDateTime(now)
    ensures Run(status, trace, scratch) == Job(config, world, now)
  {
    trace, scratch := [], world.scratch;
    if config.folders == [] {
      status := NoFolders;
      return;
    }
    if !Complete(config.oss) {
      status := IncompleteOss;
      return;
    }
    var backupFiles := CreateBackup(config.folders, world.existing, now);
    trace, scratch := ArchiveActions(backupFiles), scratch + Elements(backupFiles);
    ghost var goal := Job(config, world, now);
    assert backupFiles[0..] == backupFiles;
    assert goal == Prepend(trace, Drain(backupFiles[0..], scratch, world));
    var i := 0;
    while i < |backupFiles|
      invariant 0 <= i <= |backupFiles|
      invariant goal == Prepend(trace, Drain(backupFiles[i..], scratch, world))
    {
      var backupFile := backupFiles[i];
      var key := RemoteKey(backupFile);
      assert backupFiles[i..][0] == backupFile;
      assert backupFiles[i..][1..] == backupFiles[i + 1..];
      ghost var rest := Drain(backupFiles[i + 1..], scratch - {backupFile}, world);
      ghost var done := trace;
      if backupFile !in scratch || key in world.rejected {
        assert Drain(backupFiles[i..], scratch, world) == Run(UploadFailed(backupFile), [], scratch);
        assert trace + [] == trace;
        status := UploadFailed(backupFile);
        return;
      }
      trace := trace + [Upload(key, backupFile)];
      if backupFile in world.locked {
        assert Drain(backupFiles[i..], scratch, world) == Run(DeleteFailed(backupFile), [Upload(key, backupFile)], scratch);
        status := DeleteFailed(backupFile);
        return;
      }
      assert Drain(backupFiles[i..], scratch, world) == Prepend(Cycle(backupFile), rest);
      scratch := scratch - {backupFile};
      trace := trace + [Delete(backupFile)];
      assert trace == done + Cycle(backupFile);
      PrependTwice(done, Cycle(backupFile), rest);
      i := i + 1;
    }
    status := Completed;
    assert trace + [] == trace;
  }

  /** A run stops at a guard exactly when no folder is configured or one of
      the four credential fields is empty; it then has no effect at all. */
  lemma JobStopsAtGuardIff(config: BackupConfig, world: World, now: DateTime)
    requires ValidDateTime(now)
    ensures var r := Job(config, world, now);
      (r.status == NoFolders || r.status == IncompleteOss) <==>
        (config.folders == [] || config.oss.accessKeyId == "" || config.oss.accessKeySecret == ""
         || config.oss.bucketName == "" || config.oss.endpoint == "")
    ensures var r := Job(config, world, now);
      r.status == NoFolders || r.status == IncompleteOss ==> r.trace == [] && r.scratch == world.scratch
  {
  }

  /** With the configuration used when no config file exists, a run writes,
      uploads and deletes nothing. */
  lemma DefaultConfigDoesNothing(world: World, now: DateTime)
    requires ValidDateTime(now)
    ensures Job(DefaultConfig(), world, now) == Run(NoFolders, [], world.scratch)
  {
  }

  /** Where each file's upload and delete sit in the effects of successful
      iterations: archive `j` is uploaded at position `2j`, under its
      basename, and deleted at position `2j + 1`. */
  lemma {:induction false} CycleAt(ps: seq<string>, j: nat)
    requires j < |ps|
    ensures |Cycles(ps)| == 2 * |ps|
    ensures Cycles(ps)[2 * j] == Upload(RemoteKey(ps[j]), ps[j])
    ensures Cycles(ps)[2 * j + 1] == Delete(ps[j])
  {
    var q := ps[1..];
    if j == 0 {
      if q != [] {
        CycleAt(q, 0);
      }
    } else {
      CycleAt(q, j - 1);
      assert ps[j] == q[j - 1];
      assert Cycles(ps) == Cycle(ps[0]) + Cycles(q);
    }
  }

  lemma TakeCons(s: seq<string>, m: nat)
    requires m < |s|
    ensures s[..m + 1] == [s[0]] + s[1..][..m]
  {
  }

  lemma CyclesCons(p: string, ps: seq<string>)
    ensures Cycles([p] + ps) == Cycle(p) + Cycles(ps)
  {
    assert ([p] + ps)[1..] == ps;
  }

  /** How many archives the loop uploads and deletes before it stops. */
  function Processed(files: seq<string>, scratch: set<string>, world: World): (n: nat)
    ensures n <= |files|
    decreases |files|
  {
    if files == [] then 0
    else
      var p := files[0];
      if p !in scratch || RemoteKey(p) in world.rejected || p in world.locked then 0
      else 1 + Processed(files[1..], scratch - {p}, world)
  }

  /** The loop processes the archives in order: the first `n` are uploaded
      and deleted in turn; the run then ends at archive `n` on its failing
      upload (no effect) or its failing delete (its upload done), or
      completes when `n` reaches the end. */
  lemma {:induction false} DrainShape(files: seq<string>, scratch: set<string>, world: World)
    ensures Drain(files, scratch, world).status == Completed <==> Processed(files, scratch, world) == |files|
    ensures Processed(files, scratch, world) < |files| ==>
      var p := files[Processed(files, scratch, world)];
      Drain(files, scratch, world).status == UploadFailed(p) || Drain(files, scratch, world).status == DeleteFailed(p)
    ensures Drain(files, scratch, world).trace ==
      Cycles(files[..Processed(files, scratch, world)]) +
      if Drain(files, scratch, world).status.DeleteFailed?
      then [Upload(RemoteKey(files[Processed(files, scratch, world)]), files[Processed(files, scratch, world)])]
      else []
  {
    if files == [] {
    } else {
      var p := files[0];
      if p !in scratch || RemoteKey(p) in world.rejected {
        assert files[..0] == [];
      } else if p in world.locked {
        assert files[..0] == [];
      } else {
        var rest := Drain(files[1..], scratch - {p}, world);
        var m := Processed(files[1..], scratch - {p}, world);
        DrainShape(files[1..], scratch - {p}, world);
        TakeCons(files, m);
        CyclesCons(p, files[1..][..m]);
        assert m < |files[1..]| ==> files[1..][m] == files[m + 1];
      }
    }
  }

  /** What the loop leaves under `/tmp`: exactly the archives it did not
      get to delete. On a failing delete this includes the archive just
      uploaded. */
  lemma {:induction false} DrainLeaves(files: seq<string>, scratch: set<string>, world: World)
    ensures Drain(files, scratch, world).scratch == scratch - Elements(files[..Processed(files, scratch, world)])
    ensures Drain(files, scratch, world).status.DeleteFailed? ==>
      Drain(files, scratch, world).status.path in Drain(files, scratch, world).scratch
  {
    if files == [] {
      assert files[..0] == [];
    } else {
      var p := files[0];
      if p !in scratch || RemoteKey(p) in world.rejected || p in world.locked {
        assert files[..0] == [];
      } else {
        var m := Processed(files[1..], scratch - {p}, world);
        DrainLeaves(files[1..], scratch - {p}, world);
        TakeCons(files, m);
        assert Elements([p] + files[1..][..m]) == {p} + Elements(files[1..][..m]);
      }
    }
  }

  /** In the loop's effects, every delete comes right after the upload of
      the same file under its basename, so nothing is deleted before it is
      uploaded. */
  lemma {:induction false} DrainDeleteFollowsUpload(files: seq<string>, scratch: set<string>, world: World)
    ensures var t := Drain(files, scratch, world).trace;
      forall k :: 0 <= k < |t| && t[k].Delete? ==> 0 < k && t[k - 1] == Upload(RemoteKey(t[k].path), t[k].path)
    ensures var t := Drain(files, scratch, world).trace;
      |t| > 0 ==> t[0].Upload?
    ensures var t := Drain(files, scratch, world).trace;
      forall k :: 0 <= k < |t| ==> !t[k].Archive?
  {
    if files != [] {
      var p := files[0];
      if p in scratch && RemoteKey(p) !in world.rejected && p !in world.locked {
        var rest := Drain(files[1..], scratch - {p}, world);
        DrainDeleteFollowsUpload(files[1..], scratch - {p}, world);
        var t := Drain(files, scratch, world).trace;
        assert t == Cycle(p) + rest.trace;
        forall k | 2 <= k < |t| && t[k].Delete?
          ensures t[k - 1] == Upload(RemoteKey(t[k].path), t[k].path)
        {
          assert t[k] == rest.trace[k - 2];
          assert k - 2 > 0;
          assert t[k - 1] == rest.trace[k - 3];
        }
        forall k | 2 <= k < |t| ensures !t[k].Archive? {
          assert t[k] == rest.trace[k - 2];
        }
      }
    }
  }

  /** A loop that completes uploaded and deleted every archive it was given,
      which were all on disk and pairwise distinct, and left every other file
      under `/tmp` where it was. */
  lemma {:induction false} DrainCompleted(files: seq<string>, scratch: set<string>, world: World)
    requires Drain(files, scratch, world).status == Completed
    ensures Drain(files, scratch, world).trace == Cycles(files)
    ensures Elements(files) <= scratch
    ensures forall i, j :: 0 <= i < j < |files| ==> files[i] != files[j]
    ensures Drain(files, scratch, world).scratch == scratch - Elements(files)
  {
    if files != [] {
      var p := files[0];
      DrainCompleted(files[1..], scratch - {p}, world);
      assert Elements(files) == {p} + Elements(files[1..]);
      forall i, j | 0 <= i < j < |files| ensures files[i] != files[j] {
        if i == 0 {
          assert files[j] in Elements(files[1..]);
        } else {
          assert files[i] == files[1..][i - 1] && files[j] == files[1..][j - 1];
        }
      }
    }
  }

  /** A whole run that completes: the archives are written, then each is
      uploaded under exactly its generated file name and deleted, in the
      order of the configured folders that exist, and no archive is left
      under `/tmp`. */
  lemma JobCompleted(config: BackupConfig, world: World, now: DateTime)
    requires ValidDateTime(now)
    requires Job(config, world, now).status == Completed
    ensures config.folders != [] && Complete(config.oss)
    ensures var files := Archives(config.folders, world.existing, Format(now));
      var r := Job(config, world, now);
      && r.trace == ArchiveActions(files) + Cycles(files)
      && r.scratch == world.scratch - Elements(files)
    ensures var files := Archives(config.folders, world.existing, Format(now));
      var folders := ExistingFolders(config.folders, world.existing);
      |files| == |folders| &&
      forall j :: 0 <= j < |files| ==>
        files[j] == TmpDir + "/" + ArchiveFilename(folders[j], Format(now)) &&
        RemoteKey(files[j]) == ArchiveFilename(folders[j], Format(now))
  {
    var ts := Format(now);
    var files := Archives(config.folders, world.existing, ts);
    var folders := ExistingFolders(config.folders, world.existing);
    DrainCompleted(files, world.scratch + Elements(files), world);
    ArchivesOfExistingFolders(config.folders, world.existing, ts);
    forall j | 0 <= j < |files|
      ensures RemoteKey(files[j]) == ArchiveFilename(folders[j], ts)
    {
      RemoteKeyIsFilename(folders[j], ts);
    }
  }

  /** A run that fails in the loop stops at some archive `n` and leaves
      under `/tmp` every archive from `n` on, unless an earlier iteration
      already deleted the same path (two folders that sanitise alike). When
      it is the delete that fails, that archive was uploaded last and still
      stays on disk. */
  lemma JobFailed(config: BackupConfig, world: World, now: DateTime)
    requires ValidDateTime(now)
    requires Job(config, world, now).status.UploadFailed? || Job(config, world, now).status.DeleteFailed?
    ensures config.folders != [] && Complete(config.oss)
    ensures var files := Archives(config.folders, world.existing, Format(now));
      var start := world.scratch + Elements(files);
      var n := Processed(files, start, world);
      var r := Job(config, world, now);
      && n < |files|
      && r.status.path == files[n]
      && r.scratch == start - Elements(files[..n])
    ensures var r := Job(config, world, now);
      r.status.DeleteFailed? ==>
        && r.status.path in r.scratch
        && r.trace[|r.trace| - 1] == Upload(RemoteKey(r.status.path), r.status.path)
  {
    var files := Archives(config.folders, world.existing, Format(now));
    var start := world.scratch + Elements(files);
    DrainShape(files, start, world);
    DrainLeaves(files, start, world);
  }

  /** In a whole run, all archives are written before any upload, and every
      delete directly follows the upload of the same file. */
  lemma JobEffectsOrdered(config: BackupConfig, world: World, now: DateTime)
    requires ValidDateTime(now)
    ensures var t := Job(config, world, now).trace;
      forall k1, k2 :: 0 <= k1 < k2 < |t| && t[k2].Archive? ==> t[k1].Archive?
    ensures var t := Job(config, world, now).trace;
      forall k :: 0 <= k < |t| && t[k].Delete? ==> 0 < k && t[k - 1] == Upload(RemoteKey(t[k].path), t[k].path)
  {
    if config.folders != [] && Complete(config.oss) {
      var files := Archives(config.folders, world.existing, Format(now));
      var d := Drain(files, world.scratch + Elements(files), world);
      DrainDeleteFollowsUpload(files, world.scratch + Elements(files), world);
      var a := ArchiveActions(files);
      var t := Job(config, world, now).trace;
      assert t == a + d.trace;
      assert forall k :: 0 <= k < |d.trace| ==> !d.trace[k].Archive?;
      forall k | 0 <= k < |t| && t[k].Delete?
        ensures 0 < k && t[k - 1] == Upload(RemoteKey(t[k].path), t[k].path)
      {
        assert k >= |a|;
        assert t[k] == d.trace[k - |a|];
      }
    }
  }
}
