/** The daemon's configuration: choosing its root directory, checking (or
    creating) that directory with owner-only permissions, and deriving the
    control socket and pid file paths from it.

    The filesystem is a value: a map from path to entry, the process umask,
    scripted failures for successive stat calls, and an optional mkdir
    failure. */
module DaemonConfig {
  import opened Wrappers

  /** Owner read, write and search only: octal 0700. */
  const REQUIRED_PERM: bv9 := 0x1C0

  const DEFAULT_DIR_NAME := ".arigato"
  const SOCKET_NAME := "daemon.socket"
  const PID_NAME := "daemon.pid"

  /** The build version; "development" unless the build sets it. */
  const VERSION := "development"

  datatype Config = Config(arigatoRoot: string, socketPath: string, pidPath: string, version: string)

  datatype Kind = Directory | NotDirectory

  /** A filesystem entry: its kind and its permission bits. */
  datatype Entry = Entry(kind: Kind, perm: bv9)

  datatype FsState = FsState(
    entries: map<string, Entry>,
    umask: bv9,
    statFaults: seq<Option<string>>,   // the k-th stat call from now fails with this error, if Some
    mkdirFault: Option<string>)        // mkdir fails with this error, if Some

  datatype StatResult = Found(entry: Entry) | NotExist | StatFailed(reason: string)

  datatype Error =
    | IoError(reason: string)                // an error from stat or mkdir, returned as it is
    | NotADirectory(path: string)
    | BadPermissions(path: string, actual: bv9)

  // ---------------------------------------------------------------------
  // Paths
  // ---------------------------------------------------------------------

  /** What `Join(dir, name)` puts before `name`. */
  function JoinPrefix(dir: string): string
  {
    if dir == "" then "" else if dir[|dir| - 1] == '/' then dir else dir + "/"
  }

  /** Joins a directory and a file name with one separator. */
  function Join(dir: string, name: string): (r: string)
    ensures r == JoinPrefix(dir) + name
  {
    if dir == "" then name
    else if dir[|dir| - 1] == '/' then dir + name
    else dir + "/" + name
  }

  /** Paths joined onto the same directory differ when the names do. */
  lemma JoinInjective(dir: string, a: string, b: string)
    requires a != b
    ensures Join(dir, a) != Join(dir, b)
  {
    var n := |JoinPrefix(dir)|;
    assert Join(dir, a)[n..] == a;
    assert Join(dir, b)[n..] == b;
  }

  /** The root directory: the one given, or `.arigato` under the home
      directory when none is given. */
  function ChooseRoot(arigatoRoot: string, home: string): (root: string)
    ensures arigatoRoot != "" ==> root == arigatoRoot
    ensures arigatoRoot == "" ==> root == JoinPrefix(home) + DEFAULT_DIR_NAME
  {
    if |arigatoRoot| == 0 then Join(home, DEFAULT_DIR_NAME) else arigatoRoot
  }

  // ---------------------------------------------------------------------
  // The filesystem operations used
  // ---------------------------------------------------------------------

  /** The scripted fault of the k-th stat call from now. */
  function StatFault(fs: FsState, k: nat): Option<string>
  {
    if k < |fs.statFaults| then fs.statFaults[k] else None
  }

  /** The filesystem after `n` stat calls have used their scripted faults. */
  function AfterStats(fs: FsState, n: nat): FsState
  {
    fs.(statFaults := if n <= |fs.statFaults| then fs.statFaults[n..] else [])
  }

  function Stat(fs: FsState, path: string): (StatResult, FsState)
  {
    var fault := StatFault(fs, 0);
    var result :=
      if fault.Some? then StatFailed(fault.value)
      else if path in fs.entries then Found(fs.entries[path])
      else NotExist;
    (result, AfterStats(fs, 1))
  }

  /** Creates a directory with `perm`, less the bits the umask clears. */
  function Mkdir(fs: FsState, path: string, perm: bv9): (Option<string>, FsState)
  {
    if fs.mkdirFault.Some? then (fs.mkdirFault, fs)
    else if path in fs.entries then (Some("file exists"), fs)
    else (None, fs.(entries := fs.entries[path := Entry(Directory, perm & !fs.umask)]))
  }

  // ---------------------------------------------------------------------
  // Specification of the outcome
  // ---------------------------------------------------------------------

  function CheckPerm(root: string, perm: bv9): Result<Config, Error>
  {
    if perm != REQUIRED_PERM then Err(BadPermissions(root, perm))
    else Ok(Config(root, Join(root, SOCKET_NAME), Join(root, PID_NAME), VERSION))
  }

  /** The outcome of building the configuration and the filesystem it leaves,
      by cases on the filesystem it starts from. */
  function ConfigOutcome(fs: FsState, arigatoRoot: string, home: string): (out: (Result<Config, Error>, FsState))
    ensures var root := ChooseRoot(arigatoRoot, home);
      out.0.Ok? ==>
        root in out.1.entries && out.1.entries[root] == Entry(Directory, REQUIRED_PERM) &&
        out.0.value == Config(root, Join(root, SOCKET_NAME), Join(root, PID_NAME), VERSION)
    ensures var root := ChooseRoot(arigatoRoot, home);
      out.1.entries == fs.entries ||
      (root !in fs.entries && out.1.entries == fs.entries[root := Entry(Directory, REQUIRED_PERM & !fs.umask)])
    ensures StatFault(fs, 0).Some? ==> out == (Err(IoError(StatFault(fs, 0).value)), AfterStats(fs, 1))
  {
    var root := ChooseRoot(arigatoRoot, home);
    if StatFault(fs, 0).Some? then
      (Err(IoError(StatFault(fs, 0).value)), AfterStats(fs, 1))
    else if root in fs.entries then
      var e := fs.entries[root];
      (if e.kind != Directory then Err(NotADirectory(root)) else CheckPerm(root, e.perm), AfterStats(fs, 1))
    else if fs.mkdirFault.Some? then
      (Err(IoError(fs.mkdirFault.value)), AfterStats(fs, 1))
    else
      var created := Entry(Directory, REQUIRED_PERM & !fs.umask);
      var fs' := AfterStats(fs, 2).(entries := fs.entries[root := created]);
      if StatFault(fs, 1).Some? then (Err(IoError(StatFault(fs, 1).value)), fs')
      else (CheckPerm(root, created.perm), fs')
  }

  // ---------------------------------------------------------------------
  // NewConfig, step by step
  // ---------------------------------------------------------------------

  /** Builds the daemon configuration for `arigatoRoot` (or the default root
      under `home`), creating the root directory if it does not exist. */
  method NewConfig(fs0: FsState, arigatoRoot: string, home: string) returns (r: Result<Config, Error>, fs: FsState)
    ensures (r, fs) == ConfigOutcome(fs0, arigatoRoot, home)
  {
    var root := arigatoRoot;
    if |root| == 0 {
      root := Join(home, DEFAULT_DIR_NAME);
    }

    var st := Stat(fs0, root);
    var src := st.0;
    fs := st.1;
    if src.StatFailed? {
      return Err(IoError(src.reason)), fs;
    }

    if src.Found? && src.entry.kind != Directory {
      return Err(NotADirectory(root)), fs;
    }

    if src.NotExist? {
      var mk := Mkdir(fs, root, REQUIRED_PERM);
      fs := mk.1;
      if mk.0.Some? {
        return Err(IoError(mk.0.value)), fs;
      }

      st := Stat(fs, root);
      src := st.0;
      fs := st.1;
      if src.StatFailed? {
        return Err(IoError(src.reason)), fs;
      }
      assert src.Found?;
    }

    var perm := src.entry.perm;
    if perm != REQUIRED_PERM {
      return Err(BadPermissions(root, perm)), fs;
    }

    r := Ok(Config(root, Join(root, SOCKET_NAME), Join(root, PID_NAME), VERSION));
  }

  // ---------------------------------------------------------------------
  // Properties
  // ---------------------------------------------------------------------

  /** An existing root directory is accepted exactly when its permission bits
      are 0700, broader and narrower modes alike being rejected, and it is
      never modified. */
  lemma ExistingRootNeedsExactPerm(fs: FsState, arigatoRoot: string, home: string)
    requires StatFault(fs, 0).None?
    requires ChooseRoot(arigatoRoot, home) in fs.entries
    ensures var root := ChooseRoot(arigatoRoot, home);
      var e := fs.entries[root];
      var out := ConfigOutcome(fs, arigatoRoot, home);
      out.1.entries == fs.entries &&
      (e.kind != Directory ==> out.0 == Err(NotADirectory(root))) &&
      (e.kind == Directory ==> (out.0.Ok? <==> e.perm == REQUIRED_PERM)) &&
      (e.kind == Directory && e.perm != REQUIRED_PERM ==> out.0 == Err(BadPermissions(root, e.perm)))
  {
  }

  /** A root that does not exist is created and then accepted exactly when
      the umask leaves all the owner bits of 0700 in place. */
  lemma MissingRootAcceptedIffUmaskKeepsOwnerBits(fs: FsState, arigatoRoot: string, home: string)
    requires StatFault(fs, 0).None? && StatFault(fs, 1).None? && fs.mkdirFault.None?
    requires ChooseRoot(arigatoRoot, home) !in fs.entries
    ensures var root := ChooseRoot(arigatoRoot, home);
      var out := ConfigOutcome(fs, arigatoRoot, home);
      root in out.1.entries && out.1.entries[root].kind == Directory &&
      (out.0.Ok? <==> fs.umask & REQUIRED_PERM == 0)
  {
  }

  /** When the root does not exist, a mkdir failure is returned without
      creating anything, and a failure of the stat that follows the mkdir is
      returned with the directory left created. */
  lemma MissingRootCreationFailures(fs: FsState, arigatoRoot: string, home: string)
    requires StatFault(fs, 0).None?
    requires ChooseRoot(arigatoRoot, home) !in fs.entries
    ensures var out := ConfigOutcome(fs, arigatoRoot, home);
      fs.mkdirFault.Some? ==> out.0 == Err(IoError(fs.mkdirFault.value)) && out.1.entries == fs.entries
    ensures var out := ConfigOutcome(fs, arigatoRoot, home);
      fs.mkdirFault.None? && StatFault(fs, 1).Some? ==>
        out.0 == Err(IoError(StatFault(fs, 1).value)) &&
        ChooseRoot(arigatoRoot, home) in out.1.entries
  {
  }

  /** On success the socket and the pid file are two different paths inside
      the root directory. */
  lemma ControlPathsDistinct(fs: FsState, arigatoRoot: string, home: string)
    requires ConfigOutcome(fs, arigatoRoot, home).0.Ok?
    ensures var cfg := ConfigOutcome(fs, arigatoRoot, home).0.value;
      cfg.socketPath != cfg.pidPath &&
      cfg.socketPath == JoinPrefix(cfg.arigatoRoot) + SOCKET_NAME &&
      cfg.pidPath == JoinPrefix(cfg.arigatoRoot) + PID_NAME
  {
  }
}
