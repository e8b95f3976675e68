# backup.py — verified model of the archive naming and backup run

`backup.py` archives each watched folder into `/tmp/backup_<sanitised path>_<timestamp>.tar.gz`,
uploads every archive to an object-storage bucket under its file name, and removes the local
copy after each upload. This project models, in Dafny, the logic under that glue:

- **Paths** (`paths.dfy`): `str.replace` on one character, and POSIX `os.path.join` and
  `os.path.basename` (the latter as `p[p.rfind('/') + 1:]`).
- **Timestamp** (`timestamp.dfy`): the `%Y%m%d_%H%M%S` rendering of a clock reading, with a
  parser that proves the rendering loses nothing.
- **Naming** (`naming.dfy`): sanitising a folder path, the archive file name and path, and the
  remote object key.
- **Config** (`config.dfy`): the configuration record, the default record used when no config
  file exists, and the credential completeness test `all(oss_config.values())`.
- **Archiver** (`archiver.dfy`): `create_backup` as a loop method, proved equal to a
  specification function that keeps the existing folders in order and names them all with the
  one timestamp taken before the loop.
- **Workflow** (`workflow.dfy`): `backup_job` as a method that returns its status, the trace of
  effects it caused (`Archive(path)`, `Upload(key, path)`, `Delete(path)`) and the files left
  under `/tmp`. It is proved equal to a specification function `Job`, and the lemmas about `Job`
  state the guards, the order of effects and what a completed run leaves behind.
- **Scenarios** (`scenarios.dfy`): whole runs on two-folder configurations.

The outside world is a `World` value. It holds the folders that exist, the files already under
`/tmp`, the object keys whose upload raises, and the local files `os.remove` cannot remove. An
upload also raises when its local file is gone. Nothing in the upload loop is caught, so the
first failing upload or delete ends the run.

Because sanitising is not injective (`/a/b` and `/a_b` both become `_a_b`), two watched folders
can share one archive path within a run. `CollidingFoldersAbort` proves what the code then does.
The second archive overwrites the first. The shared file is uploaded and deleted once. The
second upload finds no file and the run ends with an upload error. The first folder's own
contents never reach the store.

The sanitiser replaces every `:` in the path, not only a drive-letter colon (backup.py:51).

Nothing in the loop catches a failing `os.remove`. On a delete error the archive just uploaded
therefore stays under `/tmp`, together with every archive after it, unless an earlier iteration
already deleted the same path. `JobFailed` states this.

## Model

| member | source | states |
|---|---|---|
| `Paths.ReplaceChar` | backup.py:51 | one-character `replace` keeps the length, turns every `from` into `to`, leaves every other character alone, and leaves no `from` behind |
| `Paths.Join` | backup.py:53 | POSIX `os.path.join`: an absolute name replaces the directory; otherwise the result is the directory, then exactly one `/` when the directory is non-empty and does not already end in `/` (none otherwise), then the name |
| `Paths.RFind` | backup.py:64 | `rfind` returns -1 or an index into the string (`RFindIsLast` states which index) |
| `Paths.RFindIsLast` | backup.py:64 | `rfind` returns the index of the last `/`: a `/` is at that index and none after it |
| `Paths.Basename` | backup.py:64 | `os.path.basename` is no longer than the path (`BasenameIsLastComponent` states what it is) |
| `Paths.BasenameIsLastComponent` | backup.py:64 | the basename is the longest suffix without `/`: it holds no `/`, is a suffix of the path, and is preceded by a `/` unless it is the whole path |
| `Paths.BasenameOfJoin` | backup.py:53 | joining any directory with a slash-free file name and taking the basename gives the file name back |
| `Timestamp.Format` | backup.py:44 | the rendered timestamp has the shape `YYYYMMDD_HHMMSS` (15 characters, digits around one `_`) and holds no `/` |
| `Timestamp.FormatRoundTrip` | backup.py:44 | parsing a rendered timestamp gives back the clock reading, so distinct readings give distinct timestamps |
| `Naming.Sanitize` | backup.py:51 | the sanitised path has the input's length, each `/`, `\` and `:` becomes `_`, every other character is unchanged, and no separator remains |
| `Naming.SanitizeIdempotent` | backup.py:51 | sanitising an already sanitised path changes nothing |
| `Naming.ArchiveFilename` | backup.py:52 | the file name `backup_<sanitised>_<timestamp>.tar.gz` is as long as `backup_`, the folder path, `_`, the timestamp and `.tar.gz` together, since sanitising keeps the length (`FilenameHasNoSlash` and `SameArchiveIffSameSanitized` state what it contains) |
| `Naming.ArchivePath` | backup.py:52-53 | the archive path is `/tmp/` followed by `backup_<sanitised>_<timestamp>.tar.gz` |
| `Naming.FilenameHasNoSlash` | backup.py:51-52 | the archive file name holds no `/` when the timestamp holds none |
| `Naming.RemoteKey` | backup.py:64 | the object key holds no `/` and is no longer than the local path (`RemoteKeyIsFilename` states which name it is) |
| `Naming.RemoteKeyIsFilename` | backup.py:64 | the object key (basename of the local archive path) is exactly the generated file name |
| `Naming.SameArchiveIffSameSanitized` | backup.py:51-53 | under one timestamp, two folders share an archive path if and only if their sanitised paths agree |
| `Naming.DistinctFoldersCanCollide` | backup.py:51-53 | the distinct folders `/a/b` and `/a_b` get the same archive path |
| `Config.Complete` | backup.py:80 | `all(oss_config.values())` holds if and only if none of the four credential strings is empty |
| `Config.DefaultConfig` | backup.py:26-34 | the default configuration has no folders and incomplete credentials |
| `Archiver.ExistingFolders` | backup.py:45-49 | the folders the loop keeps are no more than those configured, and each of them exists |
| `Archiver.Archives` | backup.py:45-57 | `create_backup` returns one path per existing folder |
| `Archiver.ArchivesOfExistingFolders` | backup.py:44-56 | the i-th returned path is the archive path of the i-th existing folder, all under the same timestamp |
| `Archiver.ExistingFoldersMembership` | backup.py:46-49 | a folder gets an archive if and only if it is configured and exists |
| `Archiver.ExistingFoldersAppend` | backup.py:45-57 | selection distributes over concatenation, so the configured order is kept |
| `Archiver.MissingFolderSkipped` | backup.py:47-49 | a missing folder is skipped and the folders after it are still processed |
| `Archiver.AllFoldersExist` | backup.py:46-56 | when every configured folder exists, every one is archived, in order |
| `Archiver.CreateBackup` | backup.py:42-58 | the loop returns exactly the specified archive paths for the existing folders, using one timestamp rendered before the loop |
| `Workflow.BackupJob` | backup.py:73-87 | the method's status, trace and remaining `/tmp` files are those of the specification `Job` |
| `Workflow.Drain` | backup.py:84-86 | the upload/delete loop never ends a run with a guard status, causes at most two effects per archive, and never adds a file under `/tmp` |
| `Workflow.Job` | backup.py:73-87 | a run causes at most three effects per configured folder |
| `Workflow.JobStopsAtGuardIff` | backup.py:77-82 | a run stops at a guard if and only if no folder is configured or a credential field is empty, and then it has no effect at all |
| `Workflow.DefaultConfigDoesNothing` | backup.py:25-34 | with the default configuration a run stops at the folder guard with no effect |
| `Workflow.CycleAt` | backup.py:84-86 | in the effects of successful iterations, position 2j is the upload of archive j under its basename and 2j+1 its delete |
| `Workflow.DrainShape` | backup.py:84-86 | the loop handles archives in order; it completes if and only if all are processed, and otherwise stops at the next archive on its upload error (no effect) or delete error (upload done) |
| `Workflow.DrainLeaves` | backup.py:84-86 | the loop leaves under `/tmp` exactly the files it did not delete, and on a delete error the archive it just uploaded stays there |
| `Workflow.DrainDeleteFollowsUpload` | backup.py:85-86 | every delete directly follows the upload of the same file, and the loop writes no archive |
| `Workflow.DrainCompleted` | backup.py:84-86 | a completed loop uploaded and deleted every archive once; they were all on disk and pairwise distinct, and no other `/tmp` file was touched |
| `Workflow.JobCompleted` | backup.py:83-86 | a completed run passed both guards, wrote all archives, then uploaded each under its generated file name and deleted it, in folder order, leaving none under `/tmp` |
| `Workflow.JobFailed` | backup.py:83-86 | a run that fails in the loop stops at some archive `n` and leaves every archive from `n` on under `/tmp`, unless an earlier iteration already deleted the same path; after a failing delete the last effect is that archive's upload, and the archive stays on disk |
| `Workflow.JobEffectsOrdered` | backup.py:83-86 | in any run, all archives are written before any upload, and every delete directly follows the upload of the same file |
| `Scenarios.SecondFolderMissing` | backup.py:73-87 | with folders `[a, b]` where only `a` exists, the run writes, uploads and deletes `a`'s archive and completes |
| `Scenarios.CollidingFoldersAbort` | backup.py:73-87 | with two existing folders that sanitise alike, the shared archive is uploaded and deleted once and the second upload fails |

## Left out

- Tarball creation (`tarfile`, backup.py:54-55) is an `Archive(path)` effect that adds the path to the `/tmp` set. The archive's contents and its internal root name (`os.path.basename(folder)`, backup.py:50) are not modelled. Neither are `tarfile` errors, which would end `create_backup`.
- The `oss2` calls (backup.py:62-65) are an `Upload(key, path)` effect. Authentication and network errors are the world's set of rejected keys. The bucket and endpoint values are not recorded in the effect.
- `load_config` and `save_config` read and write JSON (backup.py:17-40). Only the in-memory default record is modelled. Parse errors, missing keys and non-string credential values are not.
- `os.path.exists` is the world's set of existing paths. `os.remove` failures are the world's set of locked files.
- `datetime.now()` is a `DateTime` parameter. `ValidDateTime` accepts days up to 31 in every month, so it admits more readings than Python's `datetime`, never fewer.
- Timestamp.Format: the year is zero-padded to four digits, as Python documents `%Y`. Some C libraries print years below 1000 without padding.
- `os.path.join` and `os.path.basename` follow POSIX (`posixpath`). Windows path rules are not modelled.
- Logging (backup.py:14-15 and throughout) has no effect on behaviour and is left out.
- The command-line dispatch (backup.py:91-108) is left out. `list_folders`, `add_folder` and `configure_oss` are called there but not defined in backup.py (backup.py:89), so they are not part of this model.
