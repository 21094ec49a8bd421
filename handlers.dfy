/**
 * The three handlers that do more than forward one libc call:
 * `encr_readlink` terminates the link it read, `encr_readdir` builds a
 * `stat` per directory entry and feeds the entries to FUSE's filler until
 * it reports a full buffer, and `encr_utimens` converts `timespec`s to the
 * `timeval`s `utimes` takes. What the kernel answers (the link target, the
 * directory stream, the outcome of `utimes`) is a parameter.
 */
module Handlers {
  import opened Kernel
  import opened CStrings

  // ---------------------------------------------------------------- readlink

  /**
   * `encr_readlink(path, buf, size)`: `readlink(path, buf, size - 1)`
   * stores the first `size - 1` characters of the target (or all of a
   * shorter one), and the handler stores a NUL right after them. FUSE
   * always passes a buffer of at least one character. `target` is what
   * `readlink` answers for a nonzero length; for a buffer of one character
   * the length is 0, which Linux's `readlink` refuses with `EINVAL`.
   */
  method ReadLink(buf: array<char>, size: nat, target: Sys<seq<char>>) returns (r: int)
    requires buf.Length == size && size >= 1
    requires target.Ok? ==> NoNul(target.value)
    modifies buf
    ensures r == if size == 1 then -(EINVAL as int) else Status(target)
    ensures size == 1 || target.Err? ==> buf[..] == old(buf[..])
    ensures size > 1 && target.Ok? ==>
      buf[..] == Overwrite(old(buf[..]), Truncated(target.value, size - 1) + [NUL])
    ensures size > 1 && target.Ok? ==> CStr(buf[..]) == Truncated(target.value, size - 1)
  {
    if size - 1 == 0 {
      return -(EINVAL as int);
    }
    if target.Err? {
      return -(target.errno as int);
    }
    var link := target.value;
    // what readlink(2) stores: no terminator, at most size - 1 characters
    var res := Min(|link|, size - 1);
    forall i | 0 <= i < res {
      buf[i] := link[i];
    }
    buf[res] := NUL;
    ReadLinkTerminated(old(buf[..]), link, size - 1);
    assert buf[..] == Overwrite(old(buf[..]), link[..res] + [NUL]);
    r := 0;
  }

  /** The first `n` characters of `s`, or all of `s` if it is shorter. */
  function Truncated(s: seq<char>, n: nat): (t: seq<char>)
    ensures |t| <= n && t <= s
    ensures |s| <= n ==> t == s
  {
    s[..Min(|s|, n)]
  }

  /**
   * After `readlink` stored at most `limit` characters and the handler
   * its terminator, the buffer holds the (possibly cut) target; the
   * terminator lies inside a buffer of `limit + 1` characters.
   */
  lemma ReadLinkTerminated(buf: seq<char>, link: seq<char>, limit: nat)
    requires NoNul(link) && |buf| == limit + 1
    ensures |Truncated(link, limit)| <= limit < |buf|
    ensures CStr(Overwrite(buf, Truncated(link, limit) + [NUL])) == Truncated(link, limit)
  {
    var t := Truncated(link, limit);
    CStrOfTerminated(t, Overwrite(buf, t + [NUL]));
  }

  // ----------------------------------------------------------------- readdir

  /** `d_type` is an `unsigned char`. */
  type Byte = b: int | 0 <= b < 256

  /** One `struct dirent` as `readdir` returns it. */
  datatype Dirent = Dirent(ino: nat, dtype: Byte, name: seq<char>)

  /** The fields of `struct stat` a FUSE filler can see. */
  datatype Stat = Stat(
    dev: nat, ino: nat, mode: nat, nlink: nat, uid: nat, gid: nat, rdev: nat,
    size: int, blksize: int, blocks: int, atime: int, mtime: int, ctime: int)

  /** A `struct stat` after `memset(&st, 0, sizeof(st))`. */
  const ZeroStat: Stat := Stat(0, 0, 0, 0, 0, 0, 0, 0, 0, 0, 0, 0, 0)

  /** `d_type << 12`: the directory-entry type moved to the file-type bits of a mode (glibc's `DTTOIF`). */
  function ModeOf(dtype: Byte): (mode: nat)
    ensures mode % 0x1000 == 0
    ensures mode / 0x1000 == dtype
  {
    dtype * 0x1000
  }

  /** `IFTODT`: the directory-entry type that a mode's file-type bits stand for. */
  function TypeOf(mode: nat): (dtype: Byte)
    ensures dtype < 16
  {
    (mode % 0x10000) / 0x1000
  }

  /** Every `d_type` Linux defines (below 16) comes back from the mode built from it, and the permission bits stay clear. */
  lemma ModeOfRoundTrip(dtype: Byte)
    requires dtype < 16
    ensures TypeOf(ModeOf(dtype)) == dtype
    ensures ModeOf(dtype) < 0x10000 && ModeOf(dtype) % 0x1000 == 0
  {
  }

  /** The `d_type` constants of `<dirent.h>` become the `S_IF*` constants of `<sys/stat.h>`. */
  lemma ModeOfFileTypes()
    ensures ModeOf(1) == 0x1000   // DT_FIFO -> S_IFIFO
    ensures ModeOf(2) == 0x2000   // DT_CHR  -> S_IFCHR
    ensures ModeOf(4) == 0x4000   // DT_DIR  -> S_IFDIR
    ensures ModeOf(6) == 0x6000   // DT_BLK  -> S_IFBLK
    ensures ModeOf(8) == 0x8000   // DT_REG  -> S_IFREG
    ensures ModeOf(10) == 0xA000  // DT_LNK  -> S_IFLNK
    ensures ModeOf(12) == 0xC000  // DT_SOCK -> S_IFSOCK
  {
  }

  /** The `stat` the handler passes with one entry: zero but for the inode and the type bits. */
  function EntryStat(de: Dirent): (st: Stat)
  {
    ZeroStat.(ino := de.ino, mode := ModeOf(de.dtype))
  }

  /** The `stat` of an entry is zero in every field but the inode number and the file-type bits of the mode. */
  lemma EntryStatZeroElsewhere(de: Dirent)
    ensures EntryStat(de).ino == de.ino
    ensures TypeOf(EntryStat(de).mode) == de.dtype % 16 && EntryStat(de).mode % 0x1000 == 0
    ensures EntryStat(de).(ino := 0, mode := 0) == ZeroStat
    ensures de.dtype < 16 ==> EntryStat(de).mode < 0x10000
  {
  }

  /** One call of the filler: an entry name with its `stat`. */
  datatype FillCall = FillCall(name: seq<char>, st: Stat)

  /** Whether the filler reported a full buffer on the call for `calls[k]`. */
  predicate FullAfter(filler: seq<FillCall> -> bool, calls: seq<FillCall>, k: nat)
    requires k < |calls|
  {
    filler(calls[..k + 1])
  }

  /**
   * `encr_readdir`: `opendir`, then for each entry `readdir` returns, in
   * order, build its `stat` and call the filler, stopping at the first
   * call that returns nonzero. The filler is FUSE's buffer: its answer
   * depends only on the calls made so far, so it is given as a function of
   * the call history, `filler(calls)` being what the last call in `calls`
   * returns (`true` for nonzero: the buffer is full).
   */
  method ReadDir(dir: Sys<seq<Dirent>>, filler: seq<FillCall> -> bool) returns (calls: seq<FillCall>, r: int)
    ensures r == Status(dir)
    ensures dir.Err? ==> calls == []
    ensures dir.Ok? ==> |calls| <= |dir.value|
    ensures dir.Ok? ==> forall k :: 0 <= k < |calls| ==>
      calls[k] == FillCall(dir.value[k].name, EntryStat(dir.value[k]))
    ensures forall k :: 0 <= k < |calls| - 1 ==> !FullAfter(filler, calls, k)
    ensures dir.Ok? && |calls| < |dir.value| ==> calls != [] && filler(calls)
  {
    if dir.Err? {
      return [], -(dir.errno as int);
    }
    var entries := dir.value;
    calls := [];
    var i := 0;
    while i < |entries|
      invariant 0 <= i <= |entries| && |calls| == i
      invariant forall k :: 0 <= k < i ==> calls[k] == FillCall(entries[k].name, EntryStat(entries[k]))
      invariant forall k :: 0 <= k < i ==> !FullAfter(filler, calls, k)
    {
      var de := entries[i];
      var st := EntryStat(de);
      ghost var done := calls;
      calls := calls + [FillCall(de.name, st)];
      forall k | 0 <= k < i
        ensures FullAfter(filler, calls, k) == FullAfter(filler, done, k)
      {
        assert calls[..k + 1] == done[..k + 1];
      }
      if filler(calls) {
        break;
      }
      assert calls[..i + 1] == calls;
      i := i + 1;
    }
    r := 0;
  }

  // ----------------------------------------------------------------- utimens

  /** `struct timespec`: seconds and nanoseconds (`time_t`, `long`). */
  datatype Timespec = Timespec(sec: int, nsec: int)

  /** `struct timeval`: seconds and microseconds (`time_t`, `suseconds_t`). */
  datatype Timeval = Timeval(sec: int, usec: int)

  /** C's `/` on signed integers: the quotient truncated toward zero. */
  function CDiv(a: int, b: int): (q: int)
    requires b > 0
    ensures a >= 0 ==> q * b <= a < q * b + b
    ensures a < 0 ==> a <= q * b < a + b && q <= 0
  {
    if a >= 0 then a / b else -((-a) / b)
  }

  /** One `timespec` to `timeval`: seconds copied, nanoseconds divided by 1000 in C. */
  function ToTimeval(ts: Timespec): (tv: Timeval)
    ensures tv.sec == ts.sec
    ensures 0 <= ts.nsec < 1000000000 ==> 0 <= tv.usec < 1000000
    ensures 0 <= ts.nsec ==> 0 <= ts.nsec - tv.usec * 1000 < 1000
    ensures ts.nsec < 0 ==> 0 <= tv.usec * 1000 - ts.nsec < 1000
  {
    Timeval(ts.sec, CDiv(ts.nsec, 1000))
  }

  /** The exact way back: a `timeval` as a `timespec`. */
  function ToTimespec(tv: Timeval): (ts: Timespec)
  {
    Timespec(tv.sec, tv.usec * 1000)
  }

  /** Converting is the inverse of `ToTimespec`, and loses only the nanoseconds below a microsecond. */
  lemma ToTimevalRoundTrip(tv: Timeval, ts: Timespec)
    ensures ToTimeval(ToTimespec(tv)) == tv
    ensures 0 <= ts.nsec ==> ToTimespec(ToTimeval(ts)) == Timespec(ts.sec, ts.nsec - ts.nsec % 1000)
  {
  }

  /**
   * `encr_utimens(path, ts)`: both entries converted the same way into the
   * `timeval` pair, then `utimes` on the path; `utimes` (the kernel) is a
   * parameter. The result is the pair `utimes` is handed and the handler's
   * return value.
   */
  function Utimens(ts: seq<Timespec>, utimes: seq<Timeval> -> Sys<()>): (res: (seq<Timeval>, int))
    requires |ts| == 2
    ensures |res.0| == 2
    ensures forall i :: 0 <= i < 2 ==> res.0[i].sec == ts[i].sec
    ensures forall i :: 0 <= i < 2 && 0 <= ts[i].nsec ==> 0 <= ts[i].nsec - res.0[i].usec * 1000 < 1000
    ensures forall i :: 0 <= i < 2 && ts[i].nsec < 0 ==> 0 <= res.0[i].usec * 1000 - ts[i].nsec < 1000
    ensures res.1 == 0 <==> utimes(res.0).Ok?
    ensures utimes(res.0).Err? ==> res.1 == -(utimes(res.0).errno as int)
  {
    var tv := [ToTimeval(ts[0]), ToTimeval(ts[1])];
    (tv, Status(utimes(tv)))
  }
}
