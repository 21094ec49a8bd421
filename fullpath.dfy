/**
 * `encr_fullpath`: the path of a file in the mirror directory, built in a
 * caller's `PATH_MAX` buffer by copying the mirror root and appending the
 * virtual path FUSE handed to the handler.
 *
 * As written, the source appends with `strncat(fpath, path, PATH_MAX)`,
 * which bounds the appended characters but not the total: for a root and a
 * path whose lengths add up to `PATH_MAX` or more, the stores run past the
 * end of `fpath`. `AsWrittenExtent` and `AsWrittenOverflows` record that,
 * and `AsWrittenFullPath` the characters it stores when nothing overflows;
 * `FullPath` is the corrected routine, whose bound leaves room for the
 * root and the terminator: the routine `encr_getattr` would call.
 */
module Resolve {
  import opened CStrings

  /** `PATH_MAX` of Linux's `<limits.h>`: the size of `fpath`, terminator included. */
  const PATH_MAX: nat := 4096

  /** The mirror path the handler is meant to see: root then path, cut to what fits before the terminator. */
  function FullPathOf(root: seq<char>, path: seq<char>): (fpath: seq<char>)
    requires |root| < PATH_MAX
  {
    root + path[..Min(|path|, PATH_MAX - 1 - |root|)]
  }

  /** The resolved path always fits `fpath` with its terminator, and extends the root with a prefix of the path. */
  lemma FullPathOfFits(root: seq<char>, path: seq<char>)
    requires |root| < PATH_MAX
    ensures |FullPathOf(root, path)| < PATH_MAX
    ensures FullPathOf(root, path) <= root + path
    ensures FullPathOf(root, path)[..|root|] == root
  {
  }

  /** The resolved path is exactly root followed by path if and only if the two fit together in `fpath`. */
  lemma FullPathOfExact(root: seq<char>, path: seq<char>)
    requires |root| < PATH_MAX
    ensures FullPathOf(root, path) == root + path <==> |root| + |path| < PATH_MAX
  {
  }

  /**
   * `encr_fullpath(fpath, path)` with the mirror root `root`: `strcpy`
   * the root, then `strncat` the path, bounded so that the terminator
   * stays inside `fpath`. The root comes from `realpath`, whose result
   * always fits `PATH_MAX`.
   */
  method FullPath(fpath: array<char>, root: seq<char>, path: seq<char>)
    requires fpath.Length == PATH_MAX
    requires NoNul(root) && |root| < PATH_MAX
    requires NoNul(path)
    modifies fpath
    ensures fpath[..] == Overwrite(old(fpath[..]), FullPathOf(root, path) + [NUL])
    ensures CStr(fpath[..]) == FullPathOf(root, path)
    ensures |root| + |path| < PATH_MAX ==> CStr(fpath[..]) == root + path
  {
    ghost var before := fpath[..];
    StrCpy(fpath, root);
    StrNCat(fpath, path, PATH_MAX - 1 - |root|);
    OverwriteTwice(before, root + [NUL], FullPathOf(root, path) + [NUL]);
    FullPathOfExact(root, path);
  }

  /**
   * The source's `encr_fullpath` as written: `strcpy` the root, then
   * `strncat(fpath, path, PATH_MAX)`. Its stores stay inside `fpath`
   * exactly when root and path fit together (`AsWrittenInBounds`), and
   * then it stores what the corrected `FullPath` stores.
   */
  method AsWrittenFullPath(fpath: array<char>, root: seq<char>, path: seq<char>)
    requires fpath.Length == PATH_MAX
    requires NoNul(root) && NoNul(path)
    requires |root| + |path| < PATH_MAX
    modifies fpath
    ensures fpath[..] == Overwrite(old(fpath[..]), root + path + [NUL])
    ensures root + path == FullPathOf(root, path)
  {
    ghost var before := fpath[..];
    StrCpy(fpath, root);
    StrNCat(fpath, path, PATH_MAX);
    assert path[..Min(|path|, PATH_MAX)] == path;
    OverwriteTwice(before, root + [NUL], root + path + [NUL]);
    FullPathOfExact(root, path);
  }

  /**
   * The number of characters the source's `strcpy` and
   * `strncat(fpath, path, PATH_MAX)` store from `fpath[0]` on: the root,
   * up to `PATH_MAX` characters of the path, and the terminator.
   */
  function AsWrittenExtent(root: seq<char>, path: seq<char>): (n: nat)
    ensures n > |root|
  {
    |root| + Min(|path|, PATH_MAX) + 1
  }

  /** The source's stores stay inside `fpath` exactly when the root and the path fit together. */
  lemma AsWrittenInBounds(root: seq<char>, path: seq<char>)
    ensures AsWrittenExtent(root, path) <= PATH_MAX <==> |root| + |path| < PATH_MAX
  {
  }

  /**
   * A mirror rooted at `/home/user/mirror` and a virtual path of 4090
   * characters made of sixteen names of at most 255 characters each, as a
   * deeply nested entry has (FUSE limits each name, not the whole path):
   * the source stores 4108 characters into the 4096 of `fpath`, where the
   * corrected routine stores 4096.
   */
  lemma AsWrittenOverflows()
    ensures var root, path := "/home/user/mirror", seq(4090, i => if i % 256 == 0 then '/' else 'a');
      AsWrittenExtent(root, path) == 4108 > PATH_MAX &&
      |FullPathOf(root, path) + [NUL]| == PATH_MAX
  {
  }
}
