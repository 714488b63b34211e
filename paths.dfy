/** Models of Go's `filepath.Ext` and `filepath.Base` on a system whose only
    path separator is '/'. */
module Paths {

  /** The file system as the program sees it: the contents of every readable
      path. A path outside the map cannot be opened or read. */
  type Files = map<string, string>

  /** `filepath.Ext(path)`: the suffix of `path` starting at the last '.' of
      its final element, or "" when that element has no '.'. */
  function Ext(path: string): (ext: string)
    decreases |path|
  {
    if path == [] then ""
    else
      var last := path[|path| - 1];
      if last == '/' then ""
      else if last == '.' then "."
      else
        var e := Ext(path[..|path| - 1]);
        if e == "" then "" else e + [last]
  }

  /** A non-empty extension is a suffix of the path made of a '.' followed by
      neither '.' nor '/'; an empty one means that every '.' of the path is
      followed by a '/'. */
  lemma {:induction false} ExtIsSuffix(path: string)
    ensures var ext := Ext(path);
      && (ext != "" ==> ext[0] == '.' && '/' !in ext && '.' !in ext[1..])
      && (ext != "" ==> |ext| <= |path| && path[|path| - |ext|..] == ext)
      && (ext == "" ==> forall i | 0 <= i < |path| && path[i] == '.' :: '/' in path[i + 1..])
    decreases |path|
  {
    if path != [] {
      var init, last := path[..|path| - 1], path[|path| - 1];
      ExtIsSuffix(init);
      var e := Ext(init);
      if last != '/' && last != '.' && e != "" {
        var ext := e + [last];
        assert ext[1..] == e[1..] + [last];
        assert path[|path| - |ext|..] == path[|path| - |ext|..|path| - 1] + [last];
        assert path[|path| - |ext|..|path| - 1] == init[|init| - |e|..];
      } else if last != '/' && last != '.' {
        forall i | 0 <= i < |path| && path[i] == '.' ensures '/' in path[i + 1..] {
          assert i < |init| && init[i] == '.';
          assert '/' in init[i + 1..];
          assert path[i + 1..] == init[i + 1..] + [last];
        }
      } else if last == '/' {
        forall i | 0 <= i < |path| && path[i] == '.' ensures '/' in path[i + 1..] {
          assert path[|path| - 1] in path[i + 1..];
        }
      }
    }
  }

  /** The final element of `s`: everything after its last '/'. */
  function LastElement(s: string): (elem: string)
    ensures '/' !in elem
    ensures |elem| <= |s| && s[|s| - |elem|..] == elem
    ensures |elem| == |s| || s[|s| - |elem| - 1] == '/'
    decreases |s|
  {
    if s == [] || s[|s| - 1] == '/' then ""
    else LastElement(s[..|s| - 1]) + [s[|s| - 1]]
  }

  /** `s` with every trailing '/' removed. */
  function TrimTrailingSlashes(s: string): (t: string)
    ensures |t| <= |s| && t == s[..|t|]
    ensures t == [] || t[|t| - 1] != '/'
    ensures forall i | |t| <= i < |s| :: s[i] == '/'
    decreases |s|
  {
    if s != [] && s[|s| - 1] == '/' then TrimTrailingSlashes(s[..|s| - 1]) else s
  }

  /** `filepath.Base(path)`: the last element of `path` once trailing slashes are
      dropped; "." for the empty path and "/" for a path of slashes only. */
  function Base(path: string): (base: string)
    ensures base != ""
    ensures base == "/" || '/' !in base
  {
    if path == "" then "."
    else
      var trimmed := TrimTrailingSlashes(path);
      if trimmed == "" then "/" else LastElement(trimmed)
  }

  /** A file name `stem + ext` whose `ext` is a '.' followed by no '.' and no
      '/' has exactly `ext` as its extension. */
  lemma {:induction false} ExtOfSuffix(stem: string, ext: string)
    requires |ext| >= 1 && ext[0] == '.'
    requires '.' !in ext[1..] && '/' !in ext
    ensures Ext(stem + ext) == ext
    decreases |ext|
  {
    var path := stem + ext;
    if |ext| > 1 {
      var shorter := ext[..|ext| - 1];
      assert path[..|path| - 1] == stem + shorter;
      assert shorter[1..] == ext[1..|ext| - 1];
      ExtOfSuffix(stem, shorter);
      assert shorter + [ext[|ext| - 1]] == ext;
    }
  }

  /** The last element of `dir + name` is `name` when `name` has no '/' and
      `dir` is empty or ends in '/'. */
  lemma {:induction false} LastElementOfSuffix(dir: string, name: string)
    requires '/' !in name
    requires dir == [] || dir[|dir| - 1] == '/'
    ensures LastElement(dir + name) == name
    decreases |name|
  {
    if name == [] {
      assert dir + name == dir;
    } else {
      var init, last := name[..|name| - 1], name[|name| - 1];
      var path := dir + name;
      assert path[..|path| - 1] == dir + init && path[|path| - 1] == last;
      assert name == init + [last];
      LastElementOfSuffix(dir, init);
    }
  }

  /** Trailing slashes are trimmed back to the last character that is not
      one. */
  lemma {:induction false} TrimSlashesAfter(path: string, slashes: string)
    requires path == [] || path[|path| - 1] != '/'
    requires forall i | 0 <= i < |slashes| :: slashes[i] == '/'
    ensures TrimTrailingSlashes(path + slashes) == path
    decreases |slashes|
  {
    if slashes == [] {
      assert path + slashes == path;
    } else {
      var s := path + slashes;
      assert s[..|s| - 1] == path + slashes[..|slashes| - 1];
      TrimSlashesAfter(path, slashes[..|slashes| - 1]);
    }
  }

  /** The base of `dir + name + slashes` is `name` for a non-empty `name`
      without '/' below a directory prefix that is empty or ends in '/',
      whatever number of trailing slashes follows. */
  lemma BaseOfFileInDir(dir: string, name: string, slashes: string)
    requires name != [] && '/' !in name
    requires dir == [] || dir[|dir| - 1] == '/'
    requires forall i | 0 <= i < |slashes| :: slashes[i] == '/'
    ensures Base(dir + name + slashes) == name
  {
    var path := dir + name;
    assert path[|path| - 1] == name[|name| - 1];
    TrimSlashesAfter(path, slashes);
    LastElementOfSuffix(dir, name);
  }
}
