# pa5-encfs in Dafny

`pa5-encfs` is a FUSE file system that mirrors a directory: most handlers
take the path FUSE gives them, call one libc function and return `0` or
`-errno`; `encr_read`, `encr_write`, `encr_getxattr` and `encr_listxattr`
return a byte count on success instead. Although the program calls itself
an encrypted filesystem mirror (pa5-encfs.c:3), the code encrypts nothing:
`encr_read` and `encr_write` are plain
`pread` and `pwrite`, `encr_release` and `encr_fsync` return `0`, and the
key phrase is stored but never used. This model follows the code.

What is modelled is the sequential logic that can be stated without the
operating system:

- `encr_fullpath` (module `Resolve`, over `CStrings`): the mirror path
  built in a `PATH_MAX` character array with `strcpy` and `strncat`, both
  written as loops over the array.
- `main` (module `Startup`): the refusal to run as root, the command-line
  check, the capture of the key phrase and the mirror root into the
  `encr_state` record of `params.h`, and the in-place rewrite of `argv`
  and `argc` before `fuse_main`.
- `encr_readlink`, `encr_readdir` and `encr_utimens` (module `Handlers`):
  terminating the link target inside the caller's buffer, the per-entry
  `stat` and the loop that stops when the filler reports a full buffer,
  and the `timespec` to `timeval` conversion with C's truncating division.

What the kernel, libc or FUSE answer is a parameter: the link target, the
directory stream, the outcome of `utimes`, `getuid`/`geteuid`, whether
`malloc` succeeded, `realpath` (a function from strings to an optional
string) and FUSE's filler (a function of the calls made so far). Module
`Kernel` holds the shared `Sys` result type and the `0`/`-errno`
convention.

## Model

| member | source | states |
|---|---|---|
| `Kernel.Status` | pa5-encfs.c:102-106 | a handler returns 0 exactly when the libc call succeeded, and the negated errno when it failed |
| `CStrings.StrCpy` | pa5-encfs.c:66 | `strcpy` stores the root and a terminator at the start of the buffer, leaves the rest untouched, and the buffer then holds exactly the root |
| `CStrings.StrNCat` | pa5-encfs.c:67 | `strncat` stores at most `n` characters of the source after the old string, then a terminator; the buffer then holds the old string followed by that prefix; its precondition is libc's: room for old string, appended part and terminator |
| `Resolve.FullPath` | pa5-encfs.c:64-69 | the corrected `encr_fullpath` leaves `fpath` holding root followed by the virtual path whenever the two fit in `PATH_MAX`, a terminated prefix of it otherwise, and changes nothing past the terminator |
| `Resolve.FullPathOfFits` | pa5-encfs.c:64-69 | the resolved path always fits `fpath` with its terminator, starts with the root and is a prefix of root followed by path |
| `Resolve.FullPathOfExact` | pa5-encfs.c:64-69 | the resolved path equals root followed by path if and only if their lengths add up to less than `PATH_MAX` |
| `Resolve.AsWrittenFullPath` | pa5-encfs.c:64-69 | the source's `strcpy` then `strncat(fpath, path, PATH_MAX)`, for a root and path that fit together: `fpath` then holds root, path and a terminator, the rest untouched, which is exactly what the corrected `FullPath` stores |
| `Resolve.AsWrittenExtent` | pa5-encfs.c:66-67 | the number of characters the source stores from `fpath[0]`: more than the root, since it always includes the terminator |
| `Resolve.AsWrittenInBounds` | pa5-encfs.c:66-68 | the source's stores stay inside `fpath` if and only if root and path together are shorter than `PATH_MAX` |
| `Resolve.AsWrittenOverflows` | pa5-encfs.c:67-68 | a concrete root and virtual path for which the source stores 4108 characters into the 4096 of `fpath`, while the corrected routine stores exactly 4096 |
| `Handlers.ReadLink` | pa5-encfs.c:97-107 | for a one-character buffer `readlink` is asked for 0 characters and the handler returns `-EINVAL` with the buffer unchanged; otherwise on success the buffer holds the first `size - 1` characters of the link target (or all of a shorter one) with a terminator right after them, inside the buffer, and the result is 0; on failure the result is `-errno` and the buffer is unchanged |
| `Handlers.ReadLinkTerminated` | pa5-encfs.c:101-105 | the terminator index is at most `size - 1`, so it lies inside the buffer, and the buffer then holds exactly the (possibly cut) target |
| `Handlers.ModeOf` | pa5-encfs.c:127 | `d_type << 12` leaves the permission bits clear and carries the entry type in the bits above them |
| `Handlers.ModeOfRoundTrip` | pa5-encfs.c:127 | for every `d_type` below 16 the mode stays within the file-type bits, and `IFTODT` gives the `d_type` back |
| `Handlers.ModeOfFileTypes` | pa5-encfs.c:127 | the `DT_*` constants become the matching `S_IF*` file-type constants |
| `Handlers.EntryStatZeroElsewhere` | pa5-encfs.c:124-127 | the `stat` passed with an entry is zero in every field except the inode number, copied from the entry, and the mode, whose permission bits are clear; for every `d_type` below 16 (all Linux defines) the mode lies within the file-type bits |
| `Handlers.ReadDir` | pa5-encfs.c:110-134 | when `opendir` fails the filler is never called and the result is `-errno`; otherwise the filler gets the entries in order, each with its name and its `stat`, every call but the last returned zero, it is called on every entry unless a call returned nonzero, and the result is 0 |
| `Handlers.CDiv` | pa5-encfs.c:261 | C's division truncates toward zero: for a nonnegative dividend the quotient rounds down, for a negative one it rounds up and is at most 0 |
| `Handlers.ToTimeval` | pa5-encfs.c:260-263 | seconds are copied; a nanosecond count in [0, 999999999] gives microseconds in [0, 999999], the whole microseconds it contains |
| `Handlers.ToTimevalRoundTrip` | pa5-encfs.c:260-263 | the conversion is the inverse of turning microseconds into nanoseconds, and loses only the nanoseconds below a whole microsecond |
| `Handlers.Utimens` | pa5-encfs.c:255-270 | `utimes` is handed two `timeval`s, one per `timespec` in order, each with the seconds copied and the microseconds the nanoseconds truncated toward zero; the handler returns 0 exactly when `utimes` succeeds and its negated errno otherwise |
| `Startup.RefusesRoot` | pa5-encfs.c:456-459 | `main` refuses to start (returning 1) if and only if the real or the effective uid is 0, whatever the arguments |
| `Startup.UsageExactly` | pa5-encfs.c:461-468 | a non-root user gets the usage message exactly when there are fewer than four arguments or the last or second-to-last starts with `'-'`; a key phrase starting with `'-'` does not prevent mounting |
| `Startup.MountCaptures` | pa5-encfs.c:469-485 | mounting happens only for a non-root user with four or more arguments and a successful `malloc`; FUSE gets `argc - 2` arguments, the key phrase is the old `argv[argc-3]` and the root is `realpath` of the old `argv[argc-2]` |
| `Startup.RearrangedShape` | pa5-encfs.c:479-482 | the slots below the key phrase's are unchanged, the mount point sits at the new last index, the two slots after it are `NULL`, and the result is again a C argument vector of `argc - 2` strings |
| `Startup.Launch` | pa5-encfs.c:442-485 | `main` ends as `Launched` says and, when it mounts, leaves `argv` rewritten as `Rearranged` says; otherwise `argv` is unchanged |

## Findings

| source | as written | input that shows it | evidently intended | confidence | as-written member | corrected member |
|---|---|---|---|---|---|---|
| pa5-encfs.c:67 | `strncat(fpath, path, PATH_MAX)` bounds only the characters appended, so root plus path can be stored past the end of the `PATH_MAX` buffer | mirror root `/home/user/mirror` (17 characters) and a 4090-character virtual path made of sixteen names of at most 255 characters each: 4108 characters are stored into 4096 | append at most `PATH_MAX - strlen(root) - 1` characters so that `fpath` ends with its terminator inside the buffer | not executed | `Resolve.AsWrittenOverflows` | `Resolve.FullPath` |

The source comments that long paths break at this call. The model keeps
the as-written routine as `Resolve.AsWrittenFullPath` (for the inputs
where it stays in bounds) and its extent as `Resolve.AsWrittenExtent`,
and gives the bounded append as `Resolve.FullPath`, the routine
`encr_getattr` would call. For every root and path that fit, the two store
the same characters (`Resolve.AsWrittenFullPath`, whose stores equal
`FullPathOf` with its terminator); the as-written stores stay in bounds
exactly for those inputs (`Resolve.AsWrittenInBounds`).

## Left out

- The passthrough handlers (getattr's `lstat`, access, mknod, mkdir, unlink, rmdir, symlink, rename, link, chmod, chown, truncate, open, read, write, statfs, create and the four extended-attribute calls): they forward their path to libc, whose behaviour is the kernel's. Most make one call and return `0` or `-errno`, the convention kept as `Kernel.Status`; `encr_mknod` may `open` and `close` a regular file, `encr_open` and `encr_create` close the descriptor they got, `encr_read` and `encr_write` `open`, `pread`/`pwrite` and `close`, and they and the two extended-attribute getters return a byte count on success.
- `encr_release` and `encr_fsync`: stubs that return 0.
- Encryption and key derivation: the program calls itself an encrypted mirror (pa5-encfs.c:3), but the key phrase is stored (pa5-encfs.c:478) and never used.
- Most handlers pass the virtual path to libc unchanged instead of calling `encr_fullpath`; the model adds no resolution step to them.
- `fuse_main`, the `fuse_operations` table, `fuse_get_context` behind `ENCR_DATA`, `umask(0)`, and the messages written to standard error: process bootstrap and foreign calls. `main`'s outcome says which exit path is taken.
- `Resolve.AsWrittenFullPath`: requires that root and path fit together in `PATH_MAX`, because for longer inputs the source stores past the end of `fpath`, which an array model cannot perform; what it stores then is counted by `Resolve.AsWrittenExtent` and exhibited by `Resolve.AsWrittenOverflows`.
- When `realpath` fails, `main` still mounts with a `NULL` root (kept as `None` in `EncrState`); the crash of the later `strcpy` from `NULL` is not modelled, because `Resolve.FullPath` takes the root as a string.
- `Handlers.ReadLink`: requires `size >= 1`, as FUSE always passes (FUSE 2.8 passes `PATH_MAX + 1`, so the `EINVAL` answer for `size == 1` does not arise in practice); for `size == 0` the source's `size - 1` would wrap around to the largest `size_t`. The narrowing of `readlink`'s `ssize_t` result to `int` is not modelled, since the count is at most `size - 1`.
- `Handlers.ReadDir`: the `offset` and `fi` arguments are ignored, as in the source, and `closedir` is not modelled.
- `Handlers.ToTimeval`: the special `tv_nsec` values `UTIME_NOW` and `UTIME_OMIT` are divided like any other number, as in the source.
- Concurrency: FUSE may call handlers from several threads; each model operation is a single sequential call.
