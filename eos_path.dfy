/**
 * EOS paths and the version-folder naming convention. `Base` is Go's
 * `path.Base` on any string; `Dir` and `Join` are Go's `path.Dir` and
 * `path.Join` on clean absolute paths, where `path.Clean` changes nothing.
 */
module EosPath {
  import opened GoStrings

  /** The name of a file's version folder is this prefix followed by the file's name. */
  const VersionsPrefix: string := ".sys.v#."

  /** One segment of a clean path. */
  predicate IsName(s: string)
  {
    s != "" && s != "." && s != ".." && '/' !in s
  }

  /**
   * A clean absolute path below the root: a '/', then one or more names
   * separated by single '/'s (no "//", no trailing '/', no "." or "..").
   */
  predicate IsFilePath(p: string)
  {
    |p| >= 2 && p[0] == '/' && forall seg <- Split(p[1..], '/') :: IsName(seg)
  }

  /** What `path.Dir` can give for a clean absolute file path. */
  predicate IsDirPath(p: string)
  {
    p == "/" || IsFilePath(p)
  }

  function TrimTrailingSlashes(p: string): (t: string)
    ensures t <= p
    ensures t == [] || t[|t| - 1] != '/'
  {
    if p != [] && p[|p| - 1] == '/' then TrimTrailingSlashes(p[..|p| - 1]) else p
  }

  /** `path.Base`: the last element of `p` after trailing slashes are removed. */
  function Base(p: string): (b: string)
    ensures b != []
    ensures b == "/" || b == "." || '/' !in b
  {
    if p == [] then "."
    else
      var t := TrimTrailingSlashes(p);
      var i := LastIndexOf(t, '/');
      LastIndexOfCuts(t, '/');
      var b := t[i + 1..];
      if b == [] then "/" else b
  }

  /**
   * A clean absolute file path is its directory part, a '/', and its base
   * name; the directory part is empty (the root) or itself a clean path.
   */
  lemma FilePathCut(p: string)
    requires IsFilePath(p)
    ensures var i := LastIndexOf(p, '/');
            && 0 <= i
            && IsName(Base(p))
            && p == p[..i] + "/" + Base(p)
            && (i == 0 || IsFilePath(p[..i]))
  {
    var i := LastIndexOf(p, '/');
    LastIndexOfCuts(p, '/');
    assert i >= 0;
    LastSegment(p);
    BaseAfterLastSlash(p);
    if i > 0 {
      HeadIsFilePath(p);
    }
  }

  /** What follows the last '/' of a clean file path is a name. */
  lemma LastSegment(p: string)
    requires IsFilePath(p)
    ensures var i := LastIndexOf(p, '/');
            0 <= i && IsName(p[i + 1..])
  {
    var i := LastIndexOf(p, '/');
    LastIndexOfCuts(p, '/');
    var tail := p[i + 1..];
    if i <= 0 {
      assert p[1..] == tail;
      SplitNoSep(tail, '/');
    } else {
      assert p[1..] == p[1..i] + "/" + tail;
      SplitAtLastSeparator(p[1..i], tail, '/');
    }
    assert tail in Split(p[1..], '/');
  }

  /** For a path that does not end in '/', `Base` is what follows the last '/'. */
  lemma BaseAfterLastSlash(p: string)
    requires p != [] && p[|p| - 1] != '/'
    ensures Base(p) == p[LastIndexOf(p, '/') + 1..]
  {
    assert TrimTrailingSlashes(p) == p;
  }

  /** Before the last '/' of a clean file path, unless it is the root slash, is a clean path. */
  lemma HeadIsFilePath(p: string)
    requires IsFilePath(p)
    requires LastIndexOf(p, '/') > 0
    ensures IsFilePath(p[..LastIndexOf(p, '/')])
  {
    var i := LastIndexOf(p, '/');
    LastIndexOfCuts(p, '/');
    var tail := p[i + 1..];
    assert p[1..] == p[1..i] + "/" + tail;
    SplitAtLastSeparator(p[1..i], tail, '/');
    forall seg <- Split(p[1..i], '/') ensures IsName(seg) {
      assert seg in Split(p[1..], '/');
    }
    var first := Split(p[1..i], '/')[0];
    assert IsName(first);
    assert p[1..i] != [];
    assert p[..i][1..] == p[1..i];
  }

  /**
   * A path as `eos file info` prints it: a clean absolute path, followed by
   * a '/' when it names a folder.
   */
  predicate IsListedPath(p: string)
  {
    IsFilePath(p) || (|p| >= 1 && p[|p| - 1] == '/' && IsFilePath(p[..|p| - 1]))
  }

  /** `path.Base` ignores the trailing '/' of a folder. */
  lemma BaseTrailingSlash(q: string)
    requires IsFilePath(q)
    ensures IsListedPath(q + "/") && (q + "/")[..|q|] == q
    ensures Base(q + "/") == Base(q)
  {
    FilePathCut(q);
    assert (q + "/")[..|q|] == q;
    assert q[|q| - 1] == Base(q)[|Base(q)| - 1];
    assert TrimTrailingSlashes(q) == q;
  }

  /** `path.Dir` of a clean absolute file path. */
  function Dir(p: string): (d: string)
    requires IsFilePath(p)
    ensures IsDirPath(d)
  {
    FilePathCut(p);
    var i := LastIndexOf(p, '/');
    if i == 0 then "/" else p[..i]
  }

  /** What `path.Join(dir, name)` builds before cleaning: `dir + "/" + name`, without a doubled root. */
  lemma JoinedPath(dir: string, name: string)
    requires IsDirPath(dir) && IsName(name)
    ensures var head := if dir == "/" then "" else dir;
            var p := head + "/" + name;
            IsFilePath(p) && Dir(p) == dir && Base(p) == name
  {
    var head := if dir == "/" then "" else dir;
    var p := head + "/" + name;
    LastIndexOfAppend(head, name, '/');
    if dir == "/" {
      assert p[1..] == name;
      SplitNoSep(name, '/');
    } else {
      assert p[1..] == dir[1..] + "/" + name;
      SplitAtLastSeparator(dir[1..], name, '/');
    }
    assert p[|p| - 1] == name[|name| - 1];
    assert TrimTrailingSlashes(p) == p;
    assert p[|head| + 1..] == name;
    assert p[..|head|] == head;
  }

  /** `path.Join(dir, name)` for a directory and one name. */
  function Join(dir: string, name: string): (p: string)
    requires IsDirPath(dir) && IsName(name)
    ensures IsFilePath(p)
    ensures Dir(p) == dir && Base(p) == name
  {
    JoinedPath(dir, name);
    (if dir == "/" then "" else dir) + "/" + name
  }

  /** Splitting a file path into its directory and base name, then joining them, gives it back. */
  lemma JoinDirBase(p: string)
    requires IsFilePath(p)
    ensures IsName(Base(p)) && Join(Dir(p), Base(p)) == p
  {
    FilePathCut(p);
  }

  /**
   * The version folder of the file at `p`: a sibling of the file in the
   * same directory, named with the version prefix and the file's name.
   */
  function VersionsPath(p: string): (v: string)
    requires IsFilePath(p)
    ensures IsFilePath(v)
    ensures Dir(v) == Dir(p)
    ensures Base(v) == VersionsPrefix + Base(p)
  {
    BaseIsName(p);
    VersionsName(Base(p));
    Join(Dir(p), VersionsPrefix + Base(p))
  }

  /** The base name of a clean file path is a name. */
  lemma BaseIsName(p: string)
    requires IsFilePath(p)
    ensures IsName(Base(p))
  {
    FilePathCut(p);
  }

  /** Prefixing a name with the version prefix gives a name. */
  lemma VersionsName(name: string)
    requires IsName(name)
    ensures IsName(VersionsPrefix + name)
  {
    var n := VersionsPrefix + name;
    forall i | 0 <= i < |n| ensures n[i] != '/' {
      if i >= |VersionsPrefix| {
        assert n[i] == name[i - |VersionsPrefix|];
      }
    }
  }
}
