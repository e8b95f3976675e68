/**
 * The string and path primitives backup.py relies on: `str.replace` with a
 * one-character pattern, and POSIX `os.path.join` / `os.path.basename`.
 */
module Paths {

  /** `s.replace(from, to)` where both are single characters. */
  function ReplaceChar(s: string, from: char, to: char): (r: string)
    ensures |r| == |s|
    ensures forall i :: 0 <= i < |s| ==> r[i] == (if s[i] == from then to else s[i])
    ensures from != to ==> from !in r
  {
    if s == [] then []
    else [if s[0] == from then to else s[0]] + ReplaceChar(s[1..], from, to)
  }

  /** POSIX `os.path.join(dir, name)`: an absolute `name` replaces `dir`,
      otherwise a `/` is inserted unless `dir` is empty or already ends in one. */
  function Join(dir: string, name: string): (r: string)
    ensures |name| > 0 && name[0] == '/' ==> r == name
    ensures !(|name| > 0 && name[0] == '/') ==> |dir| <= |r| && r[..|dir|] == dir
    ensures |name| <= |r| && r[|r| - |name|..] == name
    ensures !(|name| > 0 && name[0] == '/') ==>
      |r| == |dir| + |name| + (if dir != [] && dir[|dir| - 1] != '/' then 1 else 0)
    ensures |r| > |dir| + |name| ==> r[|dir|] == '/'
  {
    if |name| > 0 && name[0] == '/' then name
    else if dir == [] || dir[|dir| - 1] == '/' then dir + name
    else dir + "/" + name
  }

  /** `s.rfind(c)`: the index of the last `c` in `s`, or -1 when there is none. */
  function RFind(s: string, c: char): (k: int)
    ensures -1 <= k < |s|
  {
    if s == [] then -1
    else if s[|s| - 1] == c then |s| - 1
    else RFind(s[..|s| - 1], c)
  }

  /** `rfind` finds the last occurrence: `c` is at the index found and
      nowhere after it. */
  lemma {:induction false} RFindIsLast(s: string, c: char)
    ensures RFind(s, c) >= 0 ==> s[RFind(s, c)] == c
    ensures forall j :: RFind(s, c) < j < |s| ==> s[j] != c
  {
    if s != [] && s[|s| - 1] != c {
      var init := s[..|s| - 1];
      RFindIsLast(init, c);
      forall j | RFind(s, c) < j < |init| ensures s[j] != c {
        assert s[j] == init[j];
      }
    }
  }

  /** POSIX `os.path.basename(p)`, which is `p[p.rfind('/') + 1:]`. */
  function Basename(p: string): (r: string)
    ensures |r| <= |p|
  {
    p[RFind(p, '/') + 1..]
  }

  /** The basename is the longest suffix of `p` that holds no `/`: it is a
      suffix, it has no `/`, and unless it is all of `p` a `/` precedes it. */
  lemma BasenameIsLastComponent(p: string)
    ensures '/' !in Basename(p)
    ensures |Basename(p)| <= |p| && Basename(p) == p[|p| - |Basename(p)|..]
    ensures |Basename(p)| < |p| ==> p[|p| - |Basename(p)| - 1] == '/'
  {
    var k := RFind(p, '/');
    var r := p[k + 1..];
    assert Basename(p) == r;
    assert |p| - |r| == k + 1;
    assert '/' !in r by {
      RFindIsLast(p, '/');
      forall i | 0 <= i < |r| ensures r[i] != '/' {
        assert r[i] == p[k + 1 + i];
      }
    }
    assert k >= 0 ==> p[k] == '/' by {
      RFindIsLast(p, '/');
    }
  }

  /** Joining any directory with a plain file name and taking the basename
      gives the file name back. */
  lemma BasenameOfJoin(dir: string, name: string)
    requires '/' !in name
    ensures Basename(Join(dir, name)) == name
  {
    var head := if dir == [] || dir[|dir| - 1] == '/' then dir else dir + "/";
    var p := head + name;
    assert Join(dir, name) == p;
    var k := RFind(p, '/');
    assert k < |head| by {
      RFindIsLast(p, '/');
    }
    assert k >= |head| - 1 by {
      RFindIsLast(p, '/');
      if head != [] {
        assert p[|head| - 1] == head[|head| - 1];
      }
    }
    assert p[k + 1..] == name;
  }
}
