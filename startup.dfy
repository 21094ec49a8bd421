/**
 * `main`: refuse to run as root, check the command line
 * `pa5-encfs [FUSE options] <key phrase> <mirror directory> <mount point>`,
 * record the key phrase and the resolved mirror root in the
 * `encr_state` record, and rewrite `argv` so that FUSE sees only its own
 * options and the mount point. `getuid`, `geteuid`, `malloc` and
 * `realpath` are parameters; `fuse_main` receives the outcome.
 */
module Startup {
  import opened Kernel

  /** `struct encr_state` of params.h; `realpath` gives `NULL` (here `None`) for a root it cannot resolve. */
  datatype EncrState = EncrState(rootdir: Option<seq<char>>, keyPhrase: seq<char>)

  /** One `argv` slot: a string, or `NULL`. */
  type Arg = Option<seq<char>>

  /** How `main` ends: `return 1`, `abort()` after the usage message or a failed `malloc`, or `fuse_main`. */
  datatype Outcome =
    | RefusedRoot
    | Usage
    | OutOfMemory
    | Mount(argc: nat, data: EncrState)

  /** What C promises `main`: `argv[0..argc-1]` are strings and `argv[argc]` is `NULL`. */
  predicate WellFormedArgv(args: seq<Arg>, argc: nat) {
    argc < |args| && args[argc] == None &&
    forall i :: 0 <= i < argc ==> args[i].Some?
  }

  /** `arg[0] == '-'`; the empty string has its terminator there, so it does not qualify. */
  predicate HyphenPrefixed(arg: Arg)
    requires arg.Some?
  {
    |arg.value| > 0 && arg.value[0] == '-'
  }

  /**
   * The sanity check of the command line: too few arguments, or a mirror
   * directory or mount point that looks like an option. The key phrase is
   * not checked. When `argc < 4` the other tests are not evaluated, so no
   * slot outside `argv` is read.
   */
  predicate BadCommandLine(args: seq<Arg>, argc: nat)
    requires WellFormedArgv(args, argc)
  {
    argc < 4 || HyphenPrefixed(args[argc - 2]) || HyphenPrefixed(args[argc - 1])
  }

  /** How `main` ends for a given command line, user identity, `malloc` outcome and `realpath`. */
  function Launched(args: seq<Arg>, argc: nat, uid: nat, euid: nat, mallocOk: bool,
                    realpath: seq<char> -> Option<seq<char>>): Outcome
    requires WellFormedArgv(args, argc)
  {
    if uid == 0 || euid == 0 then RefusedRoot
    else if BadCommandLine(args, argc) then Usage
    else if !mallocOk then OutOfMemory
    else Mount(argc - 2, EncrState(realpath(args[argc - 2].value), args[argc - 3].value))
  }

  /** `argv` as handed to `fuse_main`: the mount point moved onto the key phrase, its old slot and the mirror's set to `NULL`. */
  function Rearranged(args: seq<Arg>, argc: nat): seq<Arg>
    requires WellFormedArgv(args, argc) && argc >= 3
  {
    args[argc - 3 := args[argc - 1]][argc - 2 := None][argc - 1 := None]
  }

  /** `main` refuses to start exactly when the real or the effective uid is root, whatever the arguments. */
  lemma RefusesRoot(args: seq<Arg>, argc: nat, uid: nat, euid: nat, mallocOk: bool,
                    realpath: seq<char> -> Option<seq<char>>)
    requires WellFormedArgv(args, argc)
    ensures Launched(args, argc, uid, euid, mallocOk, realpath) == RefusedRoot <==> uid == 0 || euid == 0
  {
  }

  /**
   * For a non-root user, usage is printed exactly when there are fewer than
   * four arguments or the last or second-to-last starts with a hyphen; a
   * key phrase starting with a hyphen is accepted.
   */
  lemma UsageExactly(args: seq<Arg>, argc: nat, uid: nat, euid: nat, mallocOk: bool,
                     realpath: seq<char> -> Option<seq<char>>)
    requires WellFormedArgv(args, argc) && uid != 0 && euid != 0
    ensures Launched(args, argc, uid, euid, mallocOk, realpath) == Usage <==>
      argc < 4 || HyphenPrefixed(args[argc - 2]) || HyphenPrefixed(args[argc - 1])
    ensures argc >= 4 && !HyphenPrefixed(args[argc - 2]) && !HyphenPrefixed(args[argc - 1]) && mallocOk ==>
      Launched(args, argc, uid, euid, mallocOk, realpath).Mount?
  {
  }

  /**
   * On mounting, FUSE gets two arguments fewer; the key phrase is the
   * third-to-last argument and the root is `realpath` of the second-to-last.
   */
  lemma MountCaptures(args: seq<Arg>, argc: nat, uid: nat, euid: nat, mallocOk: bool,
                      realpath: seq<char> -> Option<seq<char>>)
    requires WellFormedArgv(args, argc)
    requires Launched(args, argc, uid, euid, mallocOk, realpath).Mount?
    ensures argc >= 4 && uid != 0 && euid != 0 && mallocOk
    ensures Launched(args, argc, uid, euid, mallocOk, realpath) ==
      Mount(argc - 2, EncrState(realpath(args[argc - 2].value), args[argc - 3].value))
  {
  }

  /**
   * The rewritten `argv` keeps every slot below the key phrase's, puts the
   * mount point at the new last index `argc - 3`, `NULL`s the two slots after
   * it, and is again a C argument vector, of `argc - 2` strings.
   */
  lemma RearrangedShape(args: seq<Arg>, argc: nat)
    requires WellFormedArgv(args, argc) && argc >= 4
    ensures |Rearranged(args, argc)| == |args|
    ensures forall i :: 0 <= i < argc - 3 ==> Rearranged(args, argc)[i] == args[i]
    ensures Rearranged(args, argc)[argc - 3] == args[argc - 1]
    ensures Rearranged(args, argc)[argc - 2] == None && Rearranged(args, argc)[argc - 1] == None
    ensures forall i :: argc <= i < |args| ==> Rearranged(args, argc)[i] == args[i]
    ensures WellFormedArgv(Rearranged(args, argc), argc - 2)
  {
  }

  /**
   * `main` up to the call of `fuse_main`: the checks in order, then the key
   * phrase taken from its slot before the mount point is moved onto it.
   */
  method Launch(argv: array<Arg>, argc: nat, uid: nat, euid: nat, mallocOk: bool,
                realpath: seq<char> -> Option<seq<char>>) returns (outcome: Outcome)
    requires WellFormedArgv(argv[..], argc)
    modifies argv
    ensures outcome == Launched(old(argv[..]), argc, uid, euid, mallocOk, realpath)
    ensures outcome.Mount? ==> argv[..] == Rearranged(old(argv[..]), argc)
    ensures !outcome.Mount? ==> argv[..] == old(argv[..])
  {
    if uid == 0 || euid == 0 {
      return RefusedRoot;
    }
    if argc < 4 || HyphenPrefixed(argv[argc - 2]) || HyphenPrefixed(argv[argc - 1]) {
      return Usage;
    }
    if !mallocOk {
      return OutOfMemory;
    }
    var rootdir := realpath(argv[argc - 2].value);
    var keyPhrase := argv[argc - 3].value;
    argv[argc - 3] := argv[argc - 1];
    argv[argc - 2] := None;
    argv[argc - 1] := None;
    outcome := Mount(argc - 2, EncrState(rootdir, keyPhrase));
  }
}
