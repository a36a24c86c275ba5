/** The string and path operations of .NET that the unused-asset finder relies on:
    String.StartsWith, String.EndsWith, String.Contains and Path.GetFileNameWithoutExtension,
    for the '/'-separated paths that the Unity asset database hands out. */
module PathText {

  /** `s.StartsWith(prefix)`, compared character by character. */
  predicate StartsWith(s: string, prefix: string)
  {
    prefix <= s
  }

  /** `s.EndsWith(suffix)`, compared character by character. */
  predicate EndsWith(s: string, suffix: string)
  {
    |suffix| <= |s| && s[|s| - |suffix|..] == suffix
  }

  /** `s.Contains(sub)`: an unanchored, case-sensitive substring test. */
  predicate Contains(s: string, sub: string)
    decreases |s|
  {
    sub <= s || (s != [] && Contains(s[1..], sub))
  }

  /** Contains holds exactly when `sub` starts at some offset of `s`. */
  lemma {:induction false} ContainsAt(s: string, sub: string)
    ensures Contains(s, sub) <==> exists k :: 0 <= k <= |s| && sub <= s[k..]
  {
    if sub <= s {
      assert s[0..] == s;
    } else if s != [] {
      ContainsAt(s[1..], sub);
      if Contains(s[1..], sub) {
        var k :| 0 <= k <= |s[1..]| && sub <= s[1..][k..];
        assert s[1..][k..] == s[k + 1..];
      }
      if exists k :: 0 <= k <= |s| && sub <= s[k..] {
        var k :| 0 <= k <= |s| && sub <= s[k..];
        assert k != 0 by { assert s[0..] == s; }
        assert s[1..][k - 1..] == s[k..];
      }
    }
  }

  /** The match is unanchored: `sub` is found wherever it occurs. */
  lemma ContainsInfix(before: string, sub: string, after: string)
    ensures Contains(before + sub + after, sub)
  {
    var s := before + sub + after;
    assert s[|before|..] == sub + after;
    ContainsAt(s, sub);
  }

  /** The index of the last occurrence of `c` in `s`, or -1 (String.LastIndexOf). */
  function LastIndexOf(s: string, c: char): (r: int)
    ensures -1 <= r < |s|
    ensures 0 <= r ==> s[r] == c
    ensures forall j :: r < j < |s| ==> s[j] != c
    decreases |s|
  {
    if s == [] then -1
    else if s[|s| - 1] == c then |s| - 1
    else LastIndexOf(s[..|s| - 1], c)
  }

  /** Nothing after the last occurrence of `c` is a `c`. */
  lemma NoneAfterLast(s: string, c: char)
    ensures c !in s[LastIndexOf(s, c) + 1..]
  {
  }

  /** Path.GetFileName: the part of the path after its last '/'. */
  function FileName(path: string): (r: string)
    ensures '/' !in r
    ensures |r| <= |path| && r == path[|path| - |r|..]
    ensures |r| < |path| ==> path[|path| - |r| - 1] == '/'
  {
    NoneAfterLast(path, '/');
    path[LastIndexOf(path, '/') + 1..]
  }

  /** Path.GetFileNameWithoutExtension: the file name with its last ".ext" removed;
      a file name without a '.' is returned whole. */
  function FileNameWithoutExtension(path: string): (r: string)
    ensures '/' !in r
    ensures r <= FileName(path)
    ensures var ext := FileName(path)[|r|..];
      (ext == [] && '.' !in FileName(path)) || (ext != [] && ext[0] == '.' && '.' !in ext[1..])
  {
    var name := FileName(path);
    var dot := LastIndexOf(name, '.');
    NoneAfterLast(name, '.');
    if dot < 0 then
      assert name[0..] == name;
      name
    else
      assert name[dot..][1..] == name[dot + 1..];
      name[..dot]
  }

  /** A character absent from a suffix occurs at none of its positions. */
  lemma NotInSuffix(s: string, k: nat, c: char)
    requires k <= |s|
    requires c !in s[k..]
    ensures forall i :: k <= i < |s| ==> s[i] != c
  {
    forall i | k <= i < |s|
      ensures s[i] != c
    {
      assert s[k..][i - k] == s[i];
    }
  }

  /** The file name of `dir + file`, for `dir` empty or ending in '/', is `file`. */
  lemma FileNameOf(dir: string, file: string)
    requires dir == [] || dir[|dir| - 1] == '/'
    requires '/' !in file
    ensures FileName(dir + file) == file
  {
    var path := dir + file;
    var r := FileName(path);
    var start := |path| - |r|;
    // No '/' at or after `start`, and none at or after `|dir|`.
    NotInSuffix(path, start, '/');
    assert path[|dir|..] == file;
    NotInSuffix(path, |dir|, '/');
    if dir != [] {
      assert path[|dir| - 1] == '/';
    }
    assert start >= |dir|;
    if |r| < |path| {
      assert path[start - 1] == '/';
    }
    assert start <= |dir|;
  }

  /** Removing the extension of `name + "." + ext`, for `ext` without a '.', leaves `name`. */
  lemma FileNameWithoutExtensionOfFile(path: string, name: string, ext: string)
    requires FileName(path) == name + "." + ext
    requires '.' !in ext
    ensures FileNameWithoutExtension(path) == name
  {
    var file := name + "." + ext;
    var base := FileNameWithoutExtension(path);
    var rest := file[|base|..];
    assert file[|name|] == '.';
    assert '.' in file;
    assert rest[1..] == file[|base| + 1..];
    NotInSuffix(file, |base| + 1, '.');
    assert |name| <= |base|;
    assert file[|name| + 1..] == ext;
    NotInSuffix(file, |name| + 1, '.');
    assert |base| <= |name|;
    assert base == file[..|name|] == name;
  }

  /** For a script path `dir + name + "." + ext`, with `dir` empty or ending in '/', the
      base name the scanner searches for is exactly `name`. */
  lemma FileNameWithoutExtensionOf(dir: string, name: string, ext: string)
    requires dir == [] || dir[|dir| - 1] == '/'
    requires '/' !in name && '/' !in ext && '.' !in ext
    ensures FileNameWithoutExtension(dir + name + "." + ext) == name
  {
    var file := name + "." + ext;
    assert '/' !in file by {
      assert file == name + ("." + ext);
    }
    var path := dir + file;
    assert dir + name + "." + ext == path;
    FileNameOf(dir, file);
    FileNameWithoutExtensionOfFile(path, name, ext);
  }
}
