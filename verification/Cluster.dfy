/** The naming server and its storage servers as one state: the server table, the path
    index and the namespace on each storage server's disk; and what each request and
    each event of the environment makes of it (naming_server.c). */
module Cluster {
  import opened Types
  import opened PathLists
  import opened PathIndex

  const MAX_CONNECTIONS := 10

  /** A command to a storage server. `Unpack` stands for what folder transfers and the
      state of a disk at registration put there. */
  datatype Command = Create(dir: Path, name: Path) | Delete(path: Path) | Unpack(paths: set<Path>)

  /** No backup: the empty ip and port 0 that registration writes. */
  const NOBODY := Endpoint([], 0)

  /** An entry of the table. `root` is the first of the accessible paths. */
  datatype Server = Server(ip: Text, portNm: int, portClient: int, ssPort: int, root: Path, isActive: bool,
                           backup1: Endpoint, backup2: Endpoint, commands: seq<Command>)

  function At(s: Server): Endpoint {
    Endpoint(s.ip, s.portClient)
  }

  /** What a storage server sends to register. */
  datatype Registration = Registration(ip: Text, portNm: int, portClient: int, ssPort: int, accessible: Text)

  datatype State = State(index: Index, servers: seq<Server>, disks: map<Endpoint, set<Path>>)

  const EMPTY_STATE := State(EMPTY_INDEX, [], map[])

  // ----- the disks

  /** `q` is `p` or lies below it. */
  predicate Under(p: Path, q: Path) {
    q == p || p + [SLASH] <= q
  }

  /** The directories above `p`, which `mkdir -p` makes. */
  function Above(p: Path): set<Path> {
    set i | 0 < i < |p| && p[i] == SLASH :: p[..i]
  }

  /** create_file and delete_file_or_directory of the storage server, as changes of the
      set of paths that exist. */
  function Apply(disk: set<Path>, c: Command): set<Path> {
    match c
    case Create(d, f) => disk + {Slashed(d, f)} + Above(Slashed(d, f))
    case Delete(p) => set q | q in disk && !Under(p, q)
    case Unpack(ps) => disk + ps
  }

  ghost function ApplyAll(disk: set<Path>, cs: seq<Command>): set<Path> {
    if cs == [] then disk else Apply(ApplyAll(disk, cs[..|cs| - 1]), cs[|cs| - 1])
  }

  /** A name with a dot after its first byte is created as a file, and only when it does
      not exist; any other as a directory. */
  predicate IsFileName(f: Path) {
    exists i :: 0 < i < |f| && f[i] == DOT
  }

  predicate Succeeds(disk: set<Path>, d: Path, f: Path) {
    IsFileName(f) ==> Slashed(d, f) !in disk
  }

  function Disk(st: State, e: Endpoint): set<Path> {
    if e in st.disks then st.disks[e] else {}
  }

  ghost function OnDisk(st: State, e: Endpoint, c: Command): State {
    st.(disks := st.disks[e := Apply(Disk(st, e), c)])
  }

  // ----- the table

  /** The first entry at this address, or |t|. */
  function IndexOf(t: seq<Server>, e: Endpoint): (i: nat)
    ensures i <= |t| && (i < |t| ==> At(t[i]) == e)
    ensures forall j | 0 <= j < i :: At(t[j]) != e
  {
    if t == [] || At(t[0]) == e then 0 else 1 + IndexOf(t[1..], e)
  }

  predicate Known(t: seq<Server>, e: Endpoint) {
    IndexOf(t, e) < |t|
  }

  /** check_active_server */
  predicate Active(t: seq<Server>, e: Endpoint) {
    Known(t, e) && t[IndexOf(t, e)].isActive
  }

  function ServerAt(t: seq<Server>, e: Endpoint): Server
    requires Known(t, e)
  {
    t[IndexOf(t, e)]
  }

  /** addcommand */
  function Logged(t: seq<Server>, e: Endpoint, c: Command): seq<Server> {
    var i := IndexOf(t, e);
    if i < |t| then t[i := t[i].(commands := t[i].commands + [c])] else t
  }

  // ----- forwarding to a backup

  /** The command for the copy that a backup with this root holds. */
  function Prefixed(root: Path, c: Command): Command {
    match c
    case Create(d, f) => Create(Slashed(root, d), f)
    case Delete(p) => Command.Delete(Slashed(root, p))
    case Unpack(ps) => c
  }

  predicate Somebody(e: Endpoint) {
    e.port != 0 && e.port != -1 && e.ip != []
  }

  /** Sent to an active backup, logged for an inactive one. */
  ghost function Forwarded(st: State, e: Endpoint, c: Command): State {
    if !Somebody(e) || !Known(st.servers, e) then st
    else
      var c' := Prefixed(ServerAt(st.servers, e).root, c);
      if Active(st.servers, e) then OnDisk(st, e, c') else st.(servers := Logged(st.servers, e, c'))
  }

  ghost function ForwardedToBoth(st: State, s: Server, c: Command): State {
    Forwarded(Forwarded(st, s.backup1, c), s.backup2, c)
  }

  // ----- the handlers

  /** The owner can be asked: it is in the table, with a naming port, and active. */
  predicate Reachable(t: seq<Server>, e: Endpoint) {
    Known(t, e) && ServerAt(t, e).portNm != -1 && ServerAt(t, e).isActive
  }

  /** CREATE gets as far as the storage server: the directory is known, the path is not,
      and the owner of the directory is reachable. */
  predicate CreateSent(st: State, d: Path, f: Path) {
    && Answer(st.index, d).Some?
    && Answer(AfterFind(st.index, d), Slashed(d, f)).None?
    && Reachable(st.servers, Owner(Answer(st.index, d).value))
  }

  function AfterLookups(st: State, p: Path, q: Path): State {
    st.(index := AfterFind(AfterFind(st.index, p), q))
  }

  /** handle_command_create */
  ghost function AfterCreate(st: State, d: Path, f: Path): State {
    var looked := AfterLookups(st, d, Slashed(d, f));
    if !CreateSent(st, d, f) then looked
    else
      var e := Owner(Answer(st.index, d).value);
      var stored := if Succeeds(Disk(st, e), d, f)
                    then looked.(index := AfterStore(looked.index, e.ip, e.port, Slashed(d, f)))
                    else looked;
      ForwardedToBoth(OnDisk(stored, e, Create(d, f)), ServerAt(st.servers, e), Create(d, f))
  }

  /** DELETE gets as far as the storage server; paths without a dot are ignored. */
  predicate DeleteSent(st: State, p: Path) {
    && DOT in p
    && Answer(st.index, p).Some?
    && Reachable(st.servers, Owner(Answer(st.index, p).value))
  }

  /** handle_command_delete */
  ghost function AfterDeleteRequest(st: State, p: Path): State {
    if DOT !in p then st
    else if !DeleteSent(st, p) then st.(index := AfterFind(st.index, p))
    else
      var e := Owner(Answer(st.index, p).value);
      var removed := st.(index := AfterDelete(st.index, p));
      ForwardedToBoth(OnDisk(removed, e, Command.Delete(p)), ServerAt(st.servers, e), Command.Delete(p))
  }

  /** The same when the storage server refuses, because a client reads or writes there: the
      record goes and the backups are told all the same. */
  ghost function AfterRefusedDelete(st: State, p: Path): State {
    if DOT !in p then st
    else if !DeleteSent(st, p) then st.(index := AfterFind(st.index, p))
    else
      var e := Owner(Answer(st.index, p).value);
      ForwardedToBoth(st.(index := AfterDelete(st.index, p)), ServerAt(st.servers, e), Command.Delete(p))
  }

  datatype ReadReply = NotFound | Served(at: Endpoint, path: Path)

  /** handle_command_read: the owner, or the first of its backups that is active. */
  function Read(st: State, p: Path): ReadReply {
    match Answer(st.index, p)
    case None => NotFound
    case Some(info) => Located(st.servers, info, p)
  }

  function Located(t: seq<Server>, info: FileInfo, p: Path): ReadReply {
    var e := Owner(info);
    if !Known(t, e) || ServerAt(t, e).isActive then Served(e, info.filePath)
    else LocatedBackup(t, ServerAt(t, e).backup1, ServerAt(t, e).backup2, p)
  }

  function LocatedBackup(t: seq<Server>, b1: Endpoint, b2: Endpoint, p: Path): ReadReply {
    if Active(t, b1) then Served(b1, Slashed(ServerAt(t, b1).root, p))
    else if Active(t, b2) then Served(b2, Slashed(ServerAt(t, b2).root, p))
    else NotFound
  }

  /** COPY of a directory gets as far as the trie: both paths are known, and the servers of
      both are active. */
  predicate CopySent(st: State, src: Path, dst: Path) {
    && Answer(st.index, src).Some? && Active(st.servers, Owner(Answer(st.index, src).value))
    && var looked := AfterFind(st.index, src);
    Answer(looked, dst).Some? && Active(st.servers, Owner(Answer(looked, dst).value))
  }

  /** handle_command_copy between two directories, without the transfer on the disks. */
  ghost function AfterCopyRequest(st: State, src: Path, dst: Path): State {
    if CopySent(st, src, dst) then st.(index := AfterCopy(st.index, src, dst)) else AfterFileCopy(st, src, dst)
  }

  /** handle_command_copy of a file: two lookups. */
  function AfterFileCopy(st: State, src: Path, dst: Path): State {
    if Answer(st.index, src).None? || !Active(st.servers, Owner(Answer(st.index, src).value))
    then st.(index := AfterFind(st.index, src))
    else AfterLookups(st, src, dst)
  }

  // ----- registration

  predicate SameIdentity(s: Server, r: Registration) {
    s.ip == r.ip && s.portNm == r.portNm && s.portClient == r.portClient && s.ssPort == r.ssPort
  }

  /** The first inactive entry with this identity, or |t|. */
  function Returning(t: seq<Server>, r: Registration): (i: nat)
    ensures i <= |t| && (i < |t| ==> !t[i].isActive && SameIdentity(t[i], r))
    ensures forall j | 0 <= j < i :: t[j].isActive || !SameIdentity(t[j], r)
  {
    if t == [] || (!t[0].isActive && SameIdentity(t[0], r)) then 0 else 1 + Returning(t[1..], r)
  }

  /** replay_commands: the log of every entry at this address, in table order. */
  ghost function Replayed(disk: set<Path>, t: seq<Server>, e: Endpoint): set<Path> {
    if t == [] then disk
    else
      var before := Replayed(disk, t[..|t| - 1], e);
      if At(t[|t| - 1]) == e then ApplyAll(before, t[|t| - 1].commands) else before
  }

  function NewServer(r: Registration): Server {
    Server(r.ip, r.portNm, r.portClient, r.ssPort, FirstToken(r.accessible).GetOr([]), true, NOBODY, NOBODY, [])
  }

  ghost function StoredAll(ix: Index, r: Registration, paths: seq<Path>): Index {
    if paths == [] then ix
    else AfterStore(StoredAll(ix, r, paths[..|paths| - 1]), r.ip, r.portClient, paths[|paths| - 1])
  }

  /** The highest active entry below `n`, or -1. */
  function Highest(t: seq<Server>, n: int): (i: int)
    requires n <= |t|
    ensures -1 <= i < |t| && (i >= 0 ==> i < n && t[i].isActive)
    ensures forall j | i < j < n && 0 <= j :: !t[j].isActive
    decreases n
  {
    if n <= 0 then -1 else if t[n - 1].isActive then n - 1 else Highest(t, n - 1)
  }

  function WithBackup1(t: seq<Server>, i: nat, j: int): seq<Server>
    requires i < |t| && j < |t|
  {
    if j < 0 || !t[j].isActive then t else t[i := t[i].(backup1 := At(t[j]))]
  }

  function WithBackup2(t: seq<Server>, i: nat, j: int): seq<Server>
    requires i < |t| && j < |t|
  {
    if j < 0 || !t[j].isActive then t else t[i := t[i].(backup2 := At(t[j]))]
  }

  /** The backups that registration assigns: to the first two servers when the third
      arrives, and to the last server whenever there are three. */
  function WithBackups(t: seq<Server>): seq<Server> {
    if |t| < 3 then t
    else
      var t1 := if |t| == 3 then WithFirstBackups(t) else t;
      WithLastBackups(t1)
  }

  function WithFirstBackups(t: seq<Server>): seq<Server>
    requires |t| == 3
  {
    WithBackup2(WithBackup1(WithBackup2(WithBackup1(t, 0, 1), 0, 2), 1, 0), 1, 2)
  }

  function WithLastBackups(t: seq<Server>): seq<Server>
    requires |t| >= 3
  {
    var n := |t| - 1;
    var i := Highest(t, n);
    WithBackup2(WithBackup1(t, n, i), n, Highest(t, i))
  }

  /** backup(): its two lookups. */
  function BackupLookups(ix: Index, t: seq<Server>, i: nat, j: int): Index
    requires i < |t| && j < |t|
  {
    if j < 0 || !t[j].isActive || Answer(ix, t[i].root).None? then ix
    else AfterFind(AfterFind(ix, t[i].root), t[j].root)
  }

  function AllBackupLookups(ix: Index, t: seq<Server>): Index {
    if |t| < 3 then ix
    else
      var ix1 := if |t| == 3
                 then BackupLookups(BackupLookups(BackupLookups(BackupLookups(ix, t, 0, 1), t, 0, 2), t, 1, 0), t, 1, 2)
                 else ix;
      var n := |t| - 1;
      var i := Highest(t, n);
      BackupLookups(BackupLookups(ix1, t, n, i), t, n, Highest(t, i))
  }

  /** The REGISTER branch of handle_storage_server. `disk` is what the new server has. */
  ghost function AfterRegister(st: State, r: Registration, disk: set<Path>): State {
    var i := Returning(st.servers, r);
    if i < |st.servers| then
      var e := At(st.servers[i]);
      State(st.index,
            st.servers[i := st.servers[i].(isActive := true, commands := [])],
            st.disks[e := Replayed(Disk(st, e), st.servers, e)])
    else
      var st1 := if |st.servers| < MAX_CONNECTIONS
                 then State(StoredAll(st.index, r, Tokens(r.accessible)),
                            st.servers + [NewServer(r)],
                            st.disks[At(NewServer(r)) := disk])
                 else st;
      State(AllBackupLookups(st1.index, st1.servers), WithBackups(st1.servers), st1.disks)
  }

  /** The first entry with this identity, or |t|. */
  function Identified(t: seq<Server>, r: Registration): (i: nat)
    ensures i <= |t| && (i < |t| ==> SameIdentity(t[i], r))
    ensures forall j | 0 <= j < i :: !SameIdentity(t[j], r)
  {
    if t == [] || SameIdentity(t[0], r) then 0 else 1 + Identified(t[1..], r)
  }

  /** The heartbeat of a server failed to come. */
  function AfterLost(st: State, r: Registration): State {
    var i := Identified(st.servers, r);
    if i < |st.servers| then st.(servers := st.servers[i := st.servers[i].(isActive := false)]) else st
  }

  // ----- steps

  datatype Step =
    | Register(r: Registration, disk: set<Path>)
    | Lost(r: Registration)
    | CreateFile(dir: Path, name: Path)
    | DeleteFile(path: Path)
    | DeleteRefused(path: Path)
    | ReadFile(path: Path)
    | LookUp(path: Path)            // INFO, STREAM, write
    | CopyDir(src: Path, dst: Path)
    | CopyFile(src: Path, dst: Path)
    | Transfer(at: Endpoint, paths: set<Path>)  // files arriving on a disk by other ways

  ghost function Next(st: State, s: Step): State {
    match s
    case Register(r, disk) => AfterRegister(st, r, disk)
    case Lost(r) => AfterLost(st, r)
    case CreateFile(d, f) => AfterCreate(st, d, f)
    case DeleteFile(p) => AfterDeleteRequest(st, p)
    case DeleteRefused(p) => AfterRefusedDelete(st, p)
    case ReadFile(p) => st.(index := AfterFind(st.index, p))
    case LookUp(p) => st.(index := AfterFind(st.index, p))
    case CopyDir(src, dst) => AfterCopyRequest(st, src, dst)
    case CopyFile(src, dst) => AfterFileCopy(st, src, dst)
    case Transfer(e, paths) => OnDisk(st, e, Unpack(paths))
  }

  /** What the project assumes of its environment: a server that registers is new, at an
      address of its own, or comes back after it was marked inactive; it serves at least
      one path; and only active servers receive files. */
  predicate Enabled(st: State, s: Step) {
    match s
    case Register(r, _) =>
      && FirstToken(r.accessible).Some?
      && Somebody(At(NewServer(r)))
      && (Returning(st.servers, r) < |st.servers| || !Known(st.servers, At(NewServer(r))))
    case Transfer(e, _) => Active(st.servers, e)
    case _ => true
  }

  ghost function Run(st: State, steps: seq<Step>): State {
    if steps == [] then st else Next(Run(st, steps[..|steps| - 1]), steps[|steps| - 1])
  }

  ghost predicate Possible(st: State, steps: seq<Step>) {
    steps == [] ||
    (Possible(st, steps[..|steps| - 1]) && Enabled(Run(st, steps[..|steps| - 1]), steps[|steps| - 1]))
  }
}
