/**
 * `create_backup`: one archive per watched folder that exists, all named with
 * one timestamp taken before the loop. The filesystem is the set of folder
 * paths that exist; writing the tarball itself is not modelled here.
 */
module Archiver {
  import opened Timestamp
  import opened Naming

  /** The folders that exist, in configured order (duplicates kept). */
  function ExistingFolders(folders: seq<string>, existing: set<string>): (r: seq<string>)
    ensures |r| <= |folders|
    ensures forall i :: 0 <= i < |r| ==> r[i] in existing
  {
    if folders == [] then []
    else
      var init := ExistingFolders(folders[..|folders| - 1], existing);
      var last := folders[|folders| - 1];
      if last in existing then init + [last] else init
  }

  /** The archive paths `create_backup` returns, built folder by folder. */
  function Archives(folders: seq<string>, existing: set<string>, timestamp: string): (r: seq<string>)
    ensures |r| == |ExistingFolders(folders, existing)|
  {
    if folders == [] then []
    else
      var init := Archives(folders[..|folders| - 1], existing, timestamp);
      var last := folders[|folders| - 1];
      if last in existing then init + [ArchivePath(last, timestamp)] else init
  }

  /** The i-th archive is the archive of the i-th existing folder, under the
      one shared timestamp. */
  lemma {:induction false} ArchivesOfExistingFolders(folders: seq<string>, existing: set<string>, timestamp: string)
    ensures |Archives(folders, existing, timestamp)| == |ExistingFolders(folders, existing)|
    ensures forall i :: 0 <= i < |Archives(folders, existing, timestamp)| ==>
      Archives(folders, existing, timestamp)[i] == ArchivePath(ExistingFolders(folders, existing)[i], timestamp)
  {
    if folders != [] {
      ArchivesOfExistingFolders(folders[..|folders| - 1], existing, timestamp);
    }
  }

  /** A folder is archived exactly when it is configured and exists. */
  lemma {:induction false} ExistingFoldersMembership(folders: seq<string>, existing: set<string>, f: string)
    ensures f in ExistingFolders(folders, existing) <==> f in folders && f in existing
  {
    if folders != [] {
      var init := folders[..|folders| - 1];
      ExistingFoldersMembership(init, existing, f);
      assert folders == init + [folders[|folders| - 1]];
    }
  }

  /** Filtering distributes over concatenation, so configured order is kept. */
  lemma {:induction false} ExistingFoldersAppend(a: seq<string>, b: seq<string>, existing: set<string>)
    ensures ExistingFolders(a + b, existing) == ExistingFolders(a, existing) + ExistingFolders(b, existing)
  {
    if b != [] {
      var binit := b[..|b| - 1];
      assert (a + b)[..|a + b| - 1] == a + binit;
      ExistingFoldersAppend(a, binit, existing);
    } else {
      assert a + b == a;
    }
  }

  /** A missing folder is skipped and the run goes on with the folders after it. */
  lemma MissingFolderSkipped(before: seq<string>, f: string, after: seq<string>, existing: set<string>)
    requires f !in existing
    ensures ExistingFolders(before + [f] + after, existing) ==
      ExistingFolders(before, existing) + ExistingFolders(after, existing)
  {
    ExistingFoldersAppend(before + [f], after, existing);
    ExistingFoldersAppend(before, [f], existing);
    assert [f][..0] == [];
  }

  /** When every configured folder exists, every one is archived, in order. */
  lemma {:induction false} AllFoldersExist(folders: seq<string>, existing: set<string>)
    requires forall i :: 0 <= i < |folders| ==> folders[i] in existing
    ensures ExistingFolders(folders, existing) == folders
  {
    if folders != [] {
      var init := folders[..|folders| - 1];
      AllFoldersExist(init, existing);
      assert folders == init + [folders[|folders| - 1]];
    }
  }

  /** `create_backup(folders)` with the clock reading `now`: the timestamp is
      rendered once, then each existing folder contributes its archive path. */
  method CreateBackup(folders: seq<string>, existing: set<string>, now: DateTime) returns (backupFiles: seq<string>)
    requires ValidDateTime(now)
    ensures backupFiles == Archives(folders, existing, Format(now))
  {
    var timestamp := Format(now);
    backupFiles := [];
    var i := 0;
    while i < |folders|
      invariant 0 <= i <= |folders|
      invariant backupFiles == Archives(folders[..i], existing, timestamp)
    {
      var folder := folders[i];
      assert folders[..i + 1][..i] == folders[..i];
      i := i + 1;
      if folder !in existing {
        continue;
      }
      backupFiles := backupFiles + [ArchivePath(folder, timestamp)];
    }
    assert folders[..i] == folders;
  }
}
