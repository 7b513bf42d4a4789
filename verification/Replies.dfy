/** What clients are told: the replies of the naming server, and when each is given. */
module Replies {
  import opened Types
  import opened PathMaps
  import PathIndex
  import opened Cluster
  import opened Replication
  import opened Outcomes

  /** What a client is told. Silence is a reply, too: Ignored, NoServer and Done; and Nothing,
      when the storage server said nothing that could be passed on. */
  datatype Reply =
    | AlreadyExists
    | DirectoryNotFound
    | FileNotFound
    | NoServer
    | NotActive
    | Sent(success: bool)
    | Nothing
    | Ignored
    | SourceNotFound
    | DestNotFound
    | SourceNotActive
    | DestNotActive
    | DestIsFile
    | Relayed
    | Done

  function CreateReply(st: State, d: Path, f: Path): Reply {
    if PathIndex.Answer(PathIndex.AfterFind(st.index, d), Slashed(d, f)).Some? then AlreadyExists
    else match PathIndex.Answer(st.index, d)
      case None => DirectoryNotFound
      case Some(info) => OwnerReply(st.servers, Disk(st, Owner(info)), Owner(info), d, f)
  }

  function OwnerReply(t: seq<Server>, disk: set<Path>, e: Endpoint, d: Path, f: Path): Reply {
    if !Known(t, e) || ServerAt(t, e).portNm == -1 then NoServer
    else if !Active(t, e) then NotActive
    else Sent(Succeeds(disk, d, f))
  }

  /** DELETE, as the storage server of the path executes or refuses it. */
  function DeleteStep(p: Path, refused: bool): Step {
    if refused then DeleteRefused(p) else DeleteFile(p)
  }

  function DeleteReply(st: State, p: Path, refused: bool): Reply {
    if DOT !in p then Ignored
    else match PathIndex.Answer(st.index, p)
      case None => FileNotFound
      case Some(info) => PointerReply(st.servers, Disk(st, Owner(info)), Owner(info), p, refused)
  }

  function PointerReply(t: seq<Server>, disk: set<Path>, e: Endpoint, p: Path, refused: bool): Reply {
    if !Active(t, e) then NotActive
    else if ServerAt(t, e).portNm == -1 then NoServer
    else DeletedReply(disk, p, refused)
  }

  /** The scans for clients that use the file come before the look whether it is there. */
  function DeletedReply(disk: set<Path>, p: Path, refused: bool): Reply {
    if refused then Sent(false) else if p in disk then Sent(true) else Nothing
  }

  /** The record that INFO and STREAM send, or an empty one that says why not. */
  datatype InfoReply = Found(info: FileInfo) | Unknown | Inactive

  function InfoAnswer(st: State, p: Path): InfoReply {
    match PathIndex.Answer(st.index, p)
    case None => Unknown
    case Some(info) => if Active(st.servers, Owner(info)) then Found(info) else Inactive
  }

  /** What stat says of a path below the storage server's directory. */
  datatype Kind = Missing | Regular | Folder

  /** Which step COPY is: of a directory onto a directory, of a file, or none. */
  function CopyStep(src: Path, dst: Path, srcKind: Kind, dstKind: Kind): Option<Step> {
    if srcKind == Missing || dstKind == Missing || (srcKind == Folder && dstKind == Regular) then None
    else if srcKind == Folder then Some(CopyDir(src, dst))
    else Some(CopyFile(src, dst))
  }

  function CopyReply(st: State, src: Path, dst: Path, srcKind: Kind, dstKind: Kind): Reply {
    match CopyStep(src, dst, srcKind, dstKind)
    case None => if srcKind == Missing || dstKind == Missing then Ignored else DestIsFile
    case Some(step) =>
      match PathIndex.Answer(st.index, src)
      case None => SourceNotFound
      case Some(info) =>
        if !Active(st.servers, Owner(info)) then if step.CopyDir? then NotActive else SourceNotActive
        else DestReply(st.(index := PathIndex.AfterFind(st.index, src)), dst, step.CopyDir?)
  }

  function DestReply(st: State, dst: Path, dir: bool): Reply {
    match PathIndex.Answer(st.index, dst)
    case None => DestNotFound
    case Some(info) =>
      if !Active(st.servers, Owner(info)) then if dir then NotActive else DestNotActive
      else if dir then Relayed else Done
  }

  /** The state after COPY. */
  ghost function Copying(st: State, src: Path, dst: Path, srcKind: Kind, dstKind: Kind): State {
    match CopyStep(src, dst, srcKind, dstKind)
    case None => st
    case Some(step) => Next(st, step)
  }

  // ----- when each reply is given

  /** `i` is the entry at the address, or |t| when there is none. */
  predicate EntryOf(t: seq<Server>, e: Endpoint, i: nat) {
    && i <= |t|
    && if i < |t| then t[i].ip == e.ip && t[i].portClient == e.port
       else forall k | 0 <= k < |t| :: t[k].ip != e.ip || t[k].portClient != e.port
  }

  lemma EntryOfMeaning(t: seq<Server>, e: Endpoint, i: nat)
    requires DistinctAddresses(t) && EntryOf(t, e, i)
    ensures Known(t, e) <==> i < |t|
    ensures i < |t| ==> ServerAt(t, e) == t[i] && (Active(t, e) <==> t[i].isActive)
  {
    if i < |t| { EntryAt(t, i, e); } else { NoEntryAt(t, e); }
  }

  lemma CreateReplies(st: State, d: Path, f: Path, i: nat)
    requires DistinctAddresses(st.servers)
    requires
      var directory := PathIndex.Answer(st.index, d);
      directory.Some? ==> EntryOf(st.servers, Endpoint(directory.value.ip, directory.value.port), i)
    ensures
      var full, t, directory := d + [47] + f, st.servers, PathIndex.Answer(st.index, d);
      CreateReply(st, d, f) ==
        if PathIndex.Answer(PathIndex.AfterFind(st.index, d), full).Some? then AlreadyExists
        else if directory.None? then DirectoryNotFound
        else if i == |t| || t[i].portNm == -1 then NoServer
        else if !t[i].isActive then NotActive
        else Sent(!(FileName(f) && full in Disk(st, Endpoint(directory.value.ip, directory.value.port))))
  {
    assert Slashed(d, f) == d + [47] + f;
    if PathIndex.Answer(st.index, d).Some? { EntryOfMeaning(st.servers, Owner(PathIndex.Answer(st.index, d).value), i); }
  }

  lemma DeleteReplies(st: State, p: Path, refused: bool, i: nat)
    requires DistinctAddresses(st.servers)
    requires
      var file := PathIndex.Answer(st.index, p);
      file.Some? ==> EntryOf(st.servers, Endpoint(file.value.ip, file.value.port), i)
    ensures
      var t, file := st.servers, PathIndex.Answer(st.index, p);
      DeleteReply(st, p, refused) ==
        if 46 !in p then Ignored
        else if file.None? then FileNotFound
        else if i == |t| || !t[i].isActive then NotActive
        else if t[i].portNm == -1 then NoServer
        else if refused then Sent(false)
        else if p in Disk(st, Endpoint(file.value.ip, file.value.port)) then Sent(true)
        else Nothing
    ensures DeleteStep(p, refused) == if refused then DeleteRefused(p) else DeleteFile(p)
  {
    if PathIndex.Answer(st.index, p).Some? { EntryOfMeaning(st.servers, Owner(PathIndex.Answer(st.index, p).value), i); }
  }

  lemma InfoReplies(st: State, p: Path, i: nat)
    requires DistinctAddresses(st.servers)
    requires
      var file := PathIndex.Answer(st.index, p);
      file.Some? ==> EntryOf(st.servers, Endpoint(file.value.ip, file.value.port), i)
    ensures
      var t, file := st.servers, PathIndex.Answer(st.index, p);
      InfoAnswer(st, p) ==
        if file.None? then Unknown else if i < |t| && t[i].isActive then Found(file.value) else Inactive
  {
    if PathIndex.Answer(st.index, p).Some? { EntryOfMeaning(st.servers, Owner(PathIndex.Answer(st.index, p).value), i); }
  }

  /** COPY asks for nothing when stat finds one of the two missing, or a directory is to be
      copied onto a file; else it looks up the source and, if it is served, the destination. */
  lemma CopyReplies(st: State, src: Path, dst: Path, srcKind: Kind, dstKind: Kind)
    requires DistinctAddresses(st.servers)
    ensures
      var dir, source := srcKind == Folder && dstKind == Folder, PathIndex.Answer(st.index, src);
      var dest := PathIndex.Answer(PathIndex.AfterFind(st.index, src), dst);
      CopyReply(st, src, dst, srcKind, dstKind) ==
        if srcKind == Missing || dstKind == Missing then Ignored
        else if srcKind == Folder && dstKind == Regular then DestIsFile
        else if source.None? then SourceNotFound
        else if InactiveAt(st.servers, Endpoint(source.value.ip, source.value.port)) then (if dir then NotActive else SourceNotActive)
        else if dest.None? then DestNotFound
        else if InactiveAt(st.servers, Endpoint(dest.value.ip, dest.value.port)) then (if dir then NotActive else DestNotActive)
        else if dir then Relayed else Done
  {
    hide IndexOf;
    var source := PathIndex.Answer(st.index, src);
    var dest := PathIndex.Answer(PathIndex.AfterFind(st.index, src), dst);
    if source.Some? { InactiveMeaning(st.servers, Owner(source.value)); }
    if dest.Some? { InactiveMeaning(st.servers, Owner(dest.value)); }
  }

  /** Only the copy of a directory onto a directory, both answered by active servers, changes the
      trie: below the destination is answered what was below the source. */
  lemma CopyOnly(st: State, src: Path, dst: Path, srcKind: Kind, dstKind: Kind)
    requires Inv(st)
    ensures
      var next, files := Copying(st, src, dst, srcKind, dstKind), st.index.trie.files;
      var source, dest := PathIndex.Answer(st.index, src), PathIndex.Answer(PathIndex.AfterFind(st.index, src), dst);
      if && srcKind == Folder && dstKind == Folder && src in st.index.trie.nodes
         && source.Some? && !InactiveAt(st.servers, Endpoint(source.value.ip, source.value.port))
         && dest.Some? && !InactiveAt(st.servers, Endpoint(dest.value.ip, dest.value.port))
      then
        && next.servers == st.servers && next.disks == st.disks
        && next.index.cache == FoundTwo(st.index, src, dst).cache
        && (forall s :: Lookup(next.index.trie.files, dst + s) == Lookup(files, src + s))
        && (forall q :: !(dst <= q) ==> Lookup(next.index.trie.files, q) == Lookup(files, q))
      else if srcKind == Missing || dstKind == Missing || (srcKind == Folder && dstKind == Regular) then next == st
      else OnlyLooked(st, next, CopyLookups(st, src, dst))
  {
    hide IndexOf, PathIndex.Answer, PathIndex.AfterFind, AfterCopyRequest, AfterFileCopy;
    var source, dest := PathIndex.Answer(st.index, src), PathIndex.Answer(PathIndex.AfterFind(st.index, src), dst);
    FileCopyOutcome(st, src, dst);
    if !SourceServed(st, src) || dest.None? || InactiveAt(st.servers, Owner(dest.value)) || src !in st.index.trie.nodes {
      CopyNowhere(st, src, dst);
    } else {
      var i :| 0 <= i < |st.servers| && At(st.servers[i]) == Owner(source.value) && st.servers[i].isActive;
      var j :| 0 <= j < |st.servers| && At(st.servers[j]) == Owner(dest.value) && st.servers[j].isActive;
      forall q ensures !(dst <= q) ==>
        Lookup(Next(st, CopyDir(src, dst)).index.trie.files, q) == Lookup(st.index.trie.files, q)
      {
        CopyOutcome(st, src, dst, source.value, dest.value, i, j, q);
      }
      CopyOutcome(st, src, dst, source.value, dest.value, i, j, []);
    }
  }
}
