/**
 * NUL-terminated strings held in fixed-size character buffers, and the
 * two libc routines `encr_fullpath` is built from: `strcpy` and `strncat`.
 *
 * A C string VALUE is a `seq<char>` without NUL; a BUFFER is an
 * `array<char>` (or its contents `buf[..]`) whose string is everything
 * before its first NUL.
 */
module CStrings {

  const NUL: char := '\0'

  /** A string value that can be stored in a buffer: it holds no NUL. */
  predicate NoNul(s: seq<char>) {
    forall i :: 0 <= i < |s| ==> s[i] != NUL
  }

  /** `strlen`: the index of the first NUL of `buf` (or `|buf|` if it has none). */
  function StrLen(buf: seq<char>): (n: nat)
    ensures n <= |buf|
    ensures forall i :: 0 <= i < n ==> buf[i] != NUL
    ensures n < |buf| ==> buf[n] == NUL
  {
    if buf == [] || buf[0] == NUL then 0 else 1 + StrLen(buf[1..])
  }

  /** The string a buffer holds: the characters before its first NUL. */
  function CStr(buf: seq<char>): (s: seq<char>)
  {
    buf[..StrLen(buf)]
  }

  /** A buffer holds a properly terminated string when a NUL occurs in it. */
  predicate Terminated(buf: seq<char>) {
    StrLen(buf) < |buf|
  }

  /** The buffer after `w` has been stored at its start; the rest is untouched. */
  function Overwrite(buf: seq<char>, w: seq<char>): (r: seq<char>)
    requires |w| <= |buf|
    ensures |r| == |buf|
    ensures r[..|w|] == w && r[|w|..] == buf[|w|..]
  {
    w + buf[|w|..]
  }

  /** Storing a NUL-free string followed by a NUL makes the buffer hold exactly that string. */
  lemma CStrOfTerminated(s: seq<char>, buf: seq<char>)
    requires NoNul(s) && |s| < |buf| && buf[..|s|] == s && buf[|s|] == NUL
    ensures StrLen(buf) == |s|
    ensures CStr(buf) == s
  {
  }

  /** Two stores from the start, the second at least as long as the first, leave only the second. */
  lemma OverwriteTwice(buf: seq<char>, w1: seq<char>, w2: seq<char>)
    requires |w1| <= |w2| <= |buf|
    ensures Overwrite(Overwrite(buf, w1), w2) == Overwrite(buf, w2)
  {
  }

  /**
   * `strcpy(dst, src)`: stores the characters of `src` and a terminating
   * NUL at the start of `dst`. libc requires room for both.
   */
  method StrCpy(dst: array<char>, src: seq<char>)
    requires NoNul(src) && |src| < dst.Length
    modifies dst
    ensures dst[..] == Overwrite(old(dst[..]), src + [NUL])
    ensures CStr(dst[..]) == src
  {
    StoreAt(dst, 0, src + [NUL]);
    CStrOfTerminated(src, dst[..]);
  }

  /**
   * `strncat(dst, src, n)`: finds the NUL ending the string in `dst`,
   * stores there at most `n` characters of `src`, then a NUL. The bound `n`
   * limits the characters appended, not the total: libc requires the
   * buffer to have room for the old string, the appended part and the NUL.
   */
  method StrNCat(dst: array<char>, src: seq<char>, n: nat)
    requires NoNul(src) && Terminated(dst[..])
    requires StrLen(dst[..]) + Min(|src|, n) < dst.Length
    modifies dst
    ensures dst[..] == Overwrite(old(dst[..]), old(CStr(dst[..])) + src[..Min(|src|, n)] + [NUL])
    ensures CStr(dst[..]) == old(CStr(dst[..])) + src[..Min(|src|, n)]
  {
    ghost var before := dst[..];
    var k := Length(dst);
    var m := Min(|src|, n);
    StoreAt(dst, k, src[..m] + [NUL]);
    ghost var w := before[..k] + src[..m];
    assert dst[..] == w + [NUL] + before[k + m + 1..];
    CStrOfTerminated(w, dst[..]);
  }

  /** The character-by-character copy both routines perform: `s` stored from index `k` on. */
  method StoreAt(dst: array<char>, k: nat, s: seq<char>)
    requires k + |s| <= dst.Length
    modifies dst
    ensures dst[..] == old(dst[..k]) + s + old(dst[k + |s|..])
  {
    var i := 0;
    while i < |s|
      invariant 0 <= i <= |s|
      invariant forall j :: 0 <= j < dst.Length && !(k <= j < k + i) ==> dst[j] == old(dst[j])
      invariant forall j :: 0 <= j < i ==> dst[k + j] == s[j]
    {
      dst[k + i] := s[i];
      i := i + 1;
    }
    assert dst[..] == old(dst[..k]) + s + old(dst[k + |s|..]);
  }

  /** `strlen` as the scan libc performs: the position of the first NUL of a terminated buffer. */
  method Length(buf: array<char>) returns (k: nat)
    requires Terminated(buf[..])
    ensures k < buf.Length && buf[k] == NUL
    ensures forall j :: 0 <= j < k ==> buf[j] != NUL
  {
    k := 0;
    while buf[k] != NUL
      invariant 0 <= k <= StrLen(buf[..])
      decreases StrLen(buf[..]) - k
    {
      k := k + 1;
    }
  }

  function Min(a: nat, b: nat): (m: nat)
    ensures m <= a && m <= b && (m == a || m == b)
  {
    if a <= b then a else b
  }
}
