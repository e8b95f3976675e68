/**
 * How backup.py names an archive: the folder path is sanitised, wrapped into
 * `backup_<sanitised>_<timestamp>.tar.gz`, placed under `/tmp`, and uploaded
 * under the basename of that local path.
 */
module Naming {
  import opened Paths

  /** The characters the sanitiser replaces: the POSIX and Windows separators
      and every colon, wherever it occurs. */
  predicate IsSeparator(c: char) {
    c == '/' || c == '\\' || c == ':'
  }

  /** `folder.replace('/', '_').replace('\\', '_').replace(':', '_')`: each
      separator becomes `_`, every other character stays where it was. */
  function Sanitize(folder: string): (r: string)
    ensures |r| == |folder|
    ensures forall i :: 0 <= i < |folder| ==> r[i] == if IsSeparator(folder[i]) then '_' else folder[i]
    ensures forall i :: 0 <= i < |r| ==> !IsSeparator(r[i])
  {
    ReplaceChar(ReplaceChar(ReplaceChar(folder, '/', '_'), '\\', '_'), ':', '_')
  }

  /** Sanitising twice changes nothing more. */
  lemma SanitizeIdempotent(folder: string)
    ensures Sanitize(Sanitize(folder)) == Sanitize(folder)
  {
    var once := Sanitize(folder);
    assert forall i :: 0 <= i < |once| ==> Sanitize(once)[i] == once[i];
  }

  /** The scratch directory archives are written to. */
  const TmpDir: string := "/tmp"

  const Prefix: string := "backup_"
  const Extension: string := ".tar.gz"

  /** `f'backup_{sanitized_path}_{timestamp}.tar.gz'`. */
  function ArchiveFilename(folder: string, timestamp: string): (r: string)
    ensures |r| == |Prefix| + |folder| + 1 + |timestamp| + |Extension|
  {
    Prefix + Sanitize(folder) + "_" + timestamp + Extension
  }

  /** `os.path.join('/tmp', backup_filename)`: since the file name never
      starts with `/`, the path is `/tmp/` followed by the file name. */
  function ArchivePath(folder: string, timestamp: string): (r: string)
    ensures r == TmpDir + "/" + ArchiveFilename(folder, timestamp)
  {
    Join(TmpDir, ArchiveFilename(folder, timestamp))
  }

  /** `os.path.basename(local_file)`: the object key an archive is stored under. */
  function RemoteKey(localFile: string): (r: string)
    ensures '/' !in r
    ensures |r| <= |localFile|
  {
    BasenameIsLastComponent(localFile);
    Basename(localFile)
  }

  /** A file name with no `/` in its timestamp has none at all: the sanitised
      folder part never holds one. */
  lemma FilenameHasNoSlash(folder: string, timestamp: string)
    requires '/' !in timestamp
    ensures '/' !in ArchiveFilename(folder, timestamp)
  {
    var s := Sanitize(folder);
    assert '/' !in s by {
      forall i | 0 <= i < |s| ensures s[i] != '/' {
        assert !IsSeparator(s[i]);
      }
    }
  }

  /** The object key is exactly the generated file name, because the
      sanitised folder part holds no `/`. */
  lemma RemoteKeyIsFilename(folder: string, timestamp: string)
    requires '/' !in timestamp
    ensures RemoteKey(ArchivePath(folder, timestamp)) == ArchiveFilename(folder, timestamp)
  {
    FilenameHasNoSlash(folder, timestamp);
    BasenameOfJoin(TmpDir, ArchiveFilename(folder, timestamp));
  }

  /** Under one timestamp, two folders get the same archive iff their
      sanitised paths agree. */
  lemma SameArchiveIffSameSanitized(f1: string, f2: string, timestamp: string)
    ensures ArchivePath(f1, timestamp) == ArchivePath(f2, timestamp) <==> Sanitize(f1) == Sanitize(f2)
  {
    var head, tail := TmpDir + "/" + Prefix, "_" + timestamp + Extension;
    var s1, s2 := Sanitize(f1), Sanitize(f2);
    assert ArchivePath(f1, timestamp) == head + s1 + tail;
    assert ArchivePath(f2, timestamp) == head + s2 + tail;
    if head + s1 + tail == head + s2 + tail {
      CancelAround(head, s1, s2, tail);
    }
  }

  /** A string framed by the same head and tail determines the middle. */
  lemma CancelAround(head: string, x: string, y: string, tail: string)
    requires head + x + tail == head + y + tail
    ensures x == y
  {
    var n := |head|;
    assert |x| == |y|;
    assert x == (head + x + tail)[n..n + |x|];
    assert y == (head + y + tail)[n..n + |y|];
  }

  lemma SanitizesTo(folder: string, expected: string)
    requires |expected| == |folder|
    requires forall i :: 0 <= i < |folder| ==> expected[i] == if IsSeparator(folder[i]) then '_' else folder[i]
    ensures Sanitize(folder) == expected
  {
  }

  /** Sanitising is not injective: distinct folders such as `/a/b` and `/a_b`
      share one archive path within a run. */
  lemma DistinctFoldersCanCollide(timestamp: string)
    ensures "/a/b" != "/a_b"
    ensures ArchivePath("/a/b", timestamp) == ArchivePath("/a_b", timestamp)
  {
    SanitizesTo("/a/b", "_a_b");
    SanitizesTo("/a_b", "_a_b");
    SameArchiveIffSameSanitized("/a/b", "/a_b", timestamp);
  }
}
