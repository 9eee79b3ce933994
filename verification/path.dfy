module Options {
  datatype Option<+T> = None | Some(value: T)
}

/** TruncatePath (log.c:50-59): the file name after the last backslash. */
module Path {
  import opened Options

  /** strrchr: the position of the last occurrence of ch in s, if any. */
  function LastIndexOf(s: string, ch: char): (r: Option<nat>)
    ensures r.None? <==> ch !in s
    ensures r.Some? ==> r.value < |s| && s[r.value] == ch && ch !in s[r.value + 1..]
    decreases |s|
  {
    if |s| == 0 then None
    else if s[|s| - 1] == ch then Some(|s| - 1)
    else
      var r := LastIndexOf(s[..|s| - 1], ch);
      assert s == s[..|s| - 1] + [s[|s| - 1]];
      assert r.Some? ==> s[r.value + 1..] == s[..|s| - 1][r.value + 1..] + [s[|s| - 1]];
      r
  }

  /** The base name of a Windows path: a suffix of the input free of
      backslashes which, when the input has one, is exactly what follows the
      last of them. */
  function TruncatePath(path: string): (base: string)
    ensures '\\' !in base
    ensures |base| <= |path| && base == path[|path| - |base|..]
    ensures '\\' !in path ==> base == path
    ensures '\\' in path ==> |base| < |path| && path == path[..|path| - |base| - 1] + ['\\'] + base
  {
    match LastIndexOf(path, '\\')
    case Some(i) =>
      assert path == path[..i] + ['\\'] + path[i + 1..];
      path[i + 1..]
    case None => path
  }

  /** The two cases the logger's path shortening is documented with. */
  lemma TruncatePathExamples()
    ensures TruncatePath("C:\\a\\b\\c.c") == "c.c"
    ensures TruncatePath("c.c") == "c.c"
  {
    var p := "C:\\a\\b\\c.c";
    assert p[6] == '\\' && '\\' !in p[7..];
    assert LastIndexOf(p, '\\') == Some(6);
  }
}
