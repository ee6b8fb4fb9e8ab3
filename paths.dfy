/** File paths as the bridge handles them: plain strings, with the sentinel
    "none" standing for "no file". */
module Paths {

  /** The sentinel string both bridge stages return instead of a path. */
  const NONE: string := "none"

  /** The directory received images are written to (bridge.py line 29). */
  const IMAGE_DIR: string := "received_images"

  predicate IsAbsolute(p: string) {
    |p| > 0 && p[0] == '/'
  }

  /** What os.path.abspath returns: a path that starts at the root. */
  type AbsPath = p: string | IsAbsolute(p) witness "/"

  /** os.path.join of a relative directory and a plain file name, with the
      POSIX separator: the result lies inside `dir`, ends in `name`, and is
      relative when `dir` is. */
  function Join(dir: string, name: string): (p: string)
    requires |dir| > 0
    ensures dir + "/" <= p
    ensures |name| <= |p| && p[|p| - |name|..] == name
    ensures !IsAbsolute(dir) ==> !IsAbsolute(p)
  {
    var p := dir + "/" + name;
    assert p[|p| - |name|..] == name;
    p
  }

  /** The outcome of opening a file for writing, writing it and taking its
      absolute path: that path, or an exception on the way. */
  datatype WriteResult = Written(abs: AbsPath) | WriteFailed

  /** The sentinel is never an absolute path, so a successful write can never
      be mistaken for "none". */
  lemma NoneIsNotAbsolute()
    ensures !IsAbsolute(NONE)
  {
    assert NONE[0] == 'n';
  }

  /** A path joined under IMAGE_DIR is relative and differs from the sentinel. */
  lemma JoinedIsNotNone(name: string)
    ensures Join(IMAGE_DIR, name) != NONE
    ensures !IsAbsolute(Join(IMAGE_DIR, name))
  {
    var p := Join(IMAGE_DIR, name);
    assert IMAGE_DIR[0] == 'r' && NONE[0] == 'n';
    assert p[0] == 'r';
  }
}
