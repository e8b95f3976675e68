/**
 * The in-memory configuration record of backup.py: the watched folders and
 * the four object-storage credential strings.
 */
module Config {

  datatype OssConfig = OssConfig(
    accessKeyId: string,
    accessKeySecret: string,
    bucketName: string,
    endpoint: string)

  datatype BackupConfig = BackupConfig(folders: seq<string>, oss: OssConfig)

  /** `config["oss_config"].values()`, in the order the record lists them. */
  function Values(oss: OssConfig): (vs: seq<string>) {
    [oss.accessKeyId, oss.accessKeySecret, oss.bucketName, oss.endpoint]
  }

  /** Python's `all(...)` over strings: every one is truthy, that is non-empty. */
  predicate AllTruthy(vs: seq<string>) {
    forall i :: 0 <= i < |vs| ==> vs[i] != ""
  }

  /** `all(config["oss_config"].values())`: the credentials are complete
      exactly when none of the four fields is empty. */
  predicate Complete(oss: OssConfig): (b: bool)
    ensures b <==>
      oss.accessKeyId != "" && oss.accessKeySecret != "" && oss.bucketName != "" && oss.endpoint != ""
  {
    var vs := Values(oss);
    assert vs[0] == oss.accessKeyId && vs[1] == oss.accessKeySecret;
    assert vs[2] == oss.bucketName && vs[3] == oss.endpoint;
    AllTruthy(vs)
  }

  /** The configuration used when no config file exists. */
  function DefaultConfig(): (c: BackupConfig)
    ensures c.folders == []
    ensures !Complete(c.oss)
  {
    var c := BackupConfig([], OssConfig("", "", "", ""));
    assert Values(c.oss)[0] == "";
    c
  }
}
