/** The scan with which a storage server finds the paths it serves (scan_directory of
    storage_server.c), on a tree that stands for the file system. */
module Scan {
  import opened Types
  import opened PathLists

  const MAX_PATHS := 4026

  /** An entry as readdir and stat show it. A directory may refuse opendir; an entry may
      be neither file nor directory, or refuse stat. */
  datatype Dirent =
    | File(name: Path)
    | Directory(name: Path, entries: seq<Dirent>, readable: bool)
    | Special(name: Path)
    | Unstattable(name: Path)

  predicate Dots(name: Path) {
    name == [DOT] || name == [DOT, DOT]
  }

  /** The paths recorded for directory `d` at `home`. A nested directory is recorded by
      its parent's loop and again by its own scan. */
  function Scanned(home: Path, d: Dirent): seq<Path>
    requires d.Directory?
    decreases d, 1
  {
    [home] + if d.readable then ScannedEntries(home, d.entries) else []
  }

  function ScannedEntries(home: Path, es: seq<Dirent>): seq<Path>
    decreases es, 0
  {
    if es == [] then []
    else
      var full := Slashed(home, es[0].name);
      if Dots(es[0].name) then ScannedEntries(home, es[1..])
      else match es[0]
        case File(_) => [full] + ScannedEntries(home, es[1..])
        case Directory(_, _, _) => [full] + Scanned(full, es[0]) + ScannedEntries(home, es[1..])
        case Special(_) => ScannedEntries(home, es[1..])
        case Unstattable(_) => []
  }

  // ----- what a scan records

  /** The names "." and "..", which readdir shows in every directory, in bytes. */
  predicate Hidden(name: Path) {
    name == [46] || name == [46, 46]
  }

  /** The loop over `es` comes as far as `es[i]`: nothing up to there refuses stat, which is
      not asked for "." and "..". */
  predicate Reached(es: seq<Dirent>, i: nat)
    requires i < |es|
  {
    forall j | 0 <= j <= i :: es[j].Unstattable? ==> Hidden(es[j].name)
  }

  /** `p` is the path of a file or directory somewhere below a directory at `home`, by names
      none of which is "." or "..", through directories that can be read, and in each of
      them before any entry that refuses stat. */
  ghost predicate Node(home: Path, es: seq<Dirent>, p: Path)
    decreases es, 0
  {
    exists i | 0 <= i < |es| :: Reached(es, i) && NodeAt(home, es[i], p)
  }

  ghost predicate NodeAt(home: Path, d: Dirent, p: Path)
    decreases d, 1
  {
    && !Hidden(d.name) && (d.File? || d.Directory?)
    && (p == home + [47] + d.name || (d.Directory? && d.readable && Node(home + [47] + d.name, d.entries, p)))
  }

  /** The numbers of files and of directories there. */
  function Files(es: seq<Dirent>): nat {
    if es == [] then 0
    else if Hidden(es[0].name) then Files(es[1..])
    else match es[0]
      case File(_) => 1 + Files(es[1..])
      case Directory(_, sub, readable) => (if readable then Files(sub) else 0) + Files(es[1..])
      case Special(_) => Files(es[1..])
      case Unstattable(_) => 0
  }

  function Directories(es: seq<Dirent>): nat {
    if es == [] then 0
    else if Hidden(es[0].name) then Directories(es[1..])
    else match es[0]
      case Directory(_, sub, readable) => 1 + (if readable then Directories(sub) else 0) + Directories(es[1..])
      case Unstattable(_) => 0
      case _ => Directories(es[1..])
  }

  lemma {:induction false} ScanCount(home: Path, es: seq<Dirent>)
    ensures |ScannedEntries(home, es)| == 2 * Directories(es) + Files(es)
    decreases es
  {
    if es != [] {
      ScanCount(home, es[1..]);
      if es[0].Directory? { ScanCount(Slashed(home, es[0].name), es[0].entries); }
    }
  }

  /** The nodes of a list, by its first entry. */
  lemma NodeFirst(home: Path, es: seq<Dirent>, p: Path)
    requires es != []
    ensures Node(home, es, p) <==>
      (!es[0].Unstattable? || Hidden(es[0].name)) && (NodeAt(home, es[0], p) || Node(home, es[1..], p))
  {
    hide NodeAt;
    if Node(home, es, p) {
      var i :| 0 <= i < |es| && Reached(es, i) && NodeAt(home, es[i], p);
      if i > 0 { assert es[1..][i - 1] == es[i] && Reached(es[1..], i - 1); }
    }
    if !es[0].Unstattable? || Hidden(es[0].name) {
      if Node(home, es[1..], p) {
        var i :| 0 <= i < |es[1..]| && Reached(es[1..], i) && NodeAt(home, es[1..][i], p);
        assert forall j | 0 <= j <= i :: es[j + 1] == es[1..][j];
        assert Reached(es, i + 1) && es[i + 1] == es[1..][i];
      }
      if NodeAt(home, es[0], p) { assert Reached(es, 0); }
    }
  }

  lemma {:induction false} EntriesComplete(home: Path, es: seq<Dirent>, p: Path)
    ensures p in ScannedEntries(home, es) <==> Node(home, es, p)
    decreases es
  {
    if es != [] {
      EntriesComplete(home, es[1..], p);
      NodeFirst(home, es, p);
      var full := Slashed(home, es[0].name);
      assert full == home + [47] + es[0].name;
      if es[0].Directory? { EntriesComplete(full, es[0].entries, p); }
    }
  }

  /** Of every tree, "." and ".." and all, a scan records the root first, then exactly the
      nodes below it, files once and directories twice. */
  lemma ScanComplete(home: Path, d: Dirent)
    requires d.Directory?
    ensures Scanned(home, d)[0] == home
    ensures |Scanned(home, d)| == 1 + if d.readable then 2 * Directories(d.entries) + Files(d.entries) else 0
    ensures forall p :: p in Scanned(home, d) <==> p == home || (d.readable && Node(home, d.entries, p))
  {
    ScanCount(home, d.entries);
    forall p ensures p in Scanned(home, d) <==> p == home || (d.readable && Node(home, d.entries, p)) {
      EntriesComplete(home, d.entries, p);
    }
  }

  ghost predicate CommaFreeNames(es: seq<Dirent>) {
    es != [] ==>
      && CommaFree(es[0].name)
      && (es[0].Directory? ==> CommaFreeNames(es[0].entries))
      && CommaFreeNames(es[1..])
  }

  lemma {:induction false} EntriesSendable(home: Path, es: seq<Dirent>)
    requires CommaFree(home) && CommaFreeNames(es)
    ensures Sendable(ScannedEntries(home, es))
    decreases es
  {
    if es != [] && !Dots(es[0].name) {
      EntriesSendable(home, es[1..]);
      var full := Slashed(home, es[0].name);
      assert CommaFree(full);
      if es[0].Directory? && es[0].readable { EntriesSendable(full, es[0].entries); }
    } else if es != [] {
      EntriesSendable(home, es[1..]);
    }
  }

  /** Every scan of names without commas survives the trip to the naming server, and its
      root is what strtok finds first there. */
  lemma ScanArrives(home: Path, d: Dirent)
    requires d.Directory? && home != [] && CommaFree(home) && CommaFreeNames(d.entries)
    ensures Tokens(Joined(Scanned(home, d))) == Scanned(home, d)
    ensures FirstToken(Joined(Scanned(home, d))) == Some(home)
  {
    EntriesSendable(home, d.entries);
    TokensOfJoined(Scanned(home, d));
    JoinedHead(Scanned(home, d));
  }

  // ----- the table

  /** What of `paths` gets into a table with this much room. */
  function Taken(paths: seq<Path>, room: nat): seq<Path> {
    if |paths| <= room then paths else paths[..room]
  }

  /** The scan stays inside the table: a full table stops the loop at a file, but a
      directory is recorded without looking. */
  predicate Fits(home: Path, d: Dirent, room: nat)
    requires d.Directory?
    decreases d, 1
  {
    room >= 1 && (d.readable ==> FitsEntries(home, d.entries, room - 1))
  }

  predicate FitsEntries(home: Path, es: seq<Dirent>, room: nat)
    decreases es, 0
  {
    if es == [] then true
    else if Dots(es[0].name) then FitsEntries(home, es[1..], room)
    else match es[0]
      case File(_) => room == 0 || FitsEntries(home, es[1..], room - 1)
      case Directory(_, _, _) =>
        var full := Slashed(home, es[0].name);
        && room >= 1 && Fits(full, es[0], room - 1)
        && FitsEntries(home, es[1..], room - 1 - |Taken(Scanned(full, es[0]), room - 1)|)
      case Special(_) => FitsEntries(home, es[1..], room)
      case Unstattable(_) => true
  }

  /** Whatever is no longer than the room fits. */
  lemma {:induction false} ShortEntriesFit(home: Path, es: seq<Dirent>, room: nat)
    requires |ScannedEntries(home, es)| <= room
    ensures FitsEntries(home, es, room)
    decreases es, 0
  {
    if es != [] && !Dots(es[0].name) {
      match es[0]
      case File(_) => ShortEntriesFit(home, es[1..], room - 1);
      case Directory(_, _, _) =>
        var full := Slashed(home, es[0].name);
        ShortFits(full, es[0], room - 1);
        ShortEntriesFit(home, es[1..], room - 1 - |Scanned(full, es[0])|);
      case Special(_) => ShortEntriesFit(home, es[1..], room);
      case Unstattable(_) =>
    } else if es != [] {
      ShortEntriesFit(home, es[1..], room);
    }
  }

  lemma {:induction false} ShortFits(home: Path, d: Dirent, room: nat)
    requires d.Directory? && |Scanned(home, d)| <= room
    ensures Fits(home, d, room)
    decreases d, 1
  {
    if d.readable { ShortEntriesFit(home, d.entries, room - 1); }
  }

  /** What one entry adds. */
  function EntryScan(home: Path, d: Dirent): seq<Path> {
    if Dots(d.name) then []
    else match d
      case File(name) => [Slashed(home, name)]
      case Directory(name, _, _) => [Slashed(home, name)] + Scanned(Slashed(home, name), d)
      case _ => []
  }

  /** Files alone never leave the table, however many. */
  lemma {:induction false} FlatFits(home: Path, es: seq<Dirent>, room: nat)
    requires forall e <- es :: !e.Directory?
    ensures FitsEntries(home, es, room)
  {
    if es != [] {
      assert es[0] in es;
      if Dots(es[0].name) || !es[0].File? {
        FlatFits(home, es[1..], room);
      } else if room > 0 {
        FlatFits(home, es[1..], room - 1);
      }
    }
  }

  ghost predicate FileBefore(es: seq<Dirent>, i: nat)
    requires i < |es|
  {
    exists j :: 0 <= j < i && es[j].File? && !Hidden(es[j].name)
  }

  /** Before each directory that the loop reaches comes a file. */
  ghost predicate FilesFirst(es: seq<Dirent>) {
    forall i | 0 <= i < |es| && Reached(es, i) && es[i].Directory? && !Hidden(es[i].name) :: FileBefore(es, i)
  }

  /** A full table is not left exactly if a file stops the loop before any directory. */
  lemma {:induction false} FullFits(home: Path, es: seq<Dirent>)
    ensures FitsEntries(home, es, 0) <==> FilesFirst(es)
  {
    if es != [] {
      FullFits(home, es[1..]);
      FilesFirstStep(es);
    }
  }

  lemma FilesFirstStep(es: seq<Dirent>)
    requires es != []
    ensures FilesFirst(es) <==>
      if Hidden(es[0].name) || es[0].Special? then FilesFirst(es[1..]) else !es[0].Directory?
  {
    var rest := es[1..];
    if Hidden(es[0].name) || es[0].Special? {
      forall i | 0 <= i < |rest|
        ensures es[i + 1] == rest[i] && (Reached(es, i + 1) <==> Reached(rest, i)) && (FileBefore(es, i + 1) <==> FileBefore(rest, i))
      {
        ShiftedByOne(es, i);
      }
      if FilesFirst(es) {
        forall i | 0 <= i < |rest| && Reached(rest, i) && rest[i].Directory? && !Hidden(rest[i].name) ensures FileBefore(rest, i) {
          assert Reached(es, i + 1) && FileBefore(es, i + 1);
        }
      }
      if FilesFirst(rest) {
        forall i | 0 <= i < |es| && Reached(es, i) && es[i].Directory? && !Hidden(es[i].name) ensures FileBefore(es, i) {
          if i > 0 { assert Reached(rest, i - 1) && rest[i - 1] == es[i]; }
        }
      }
    } else {
      assert Reached(es, 0) <==> !es[0].Unstattable?;
      assert !FileBefore(es, 0);
      assert forall i | 0 < i < |es| && es[0].File? :: FileBefore(es, i);
      assert forall i | 0 <= i < |es| && es[0].Unstattable? :: !Reached(es, i);
    }
  }

  lemma ShiftedByOne(es: seq<Dirent>, i: nat)
    requires i + 1 < |es| && (Hidden(es[0].name) || es[0].Special?)
    ensures Reached(es, i + 1) <==> Reached(es[1..], i)
    ensures FileBefore(es, i + 1) <==> FileBefore(es[1..], i)
  {
    var rest := es[1..];
    assert forall j | 0 <= j < |rest| :: rest[j] == es[j + 1];
    if Reached(rest, i) {
      forall j | 0 <= j <= i + 1 ensures es[j].Unstattable? ==> Hidden(es[j].name) {
        if j > 0 { assert rest[j - 1] == es[j]; }
      }
    }
    if FileBefore(es, i + 1) {
      var j :| 0 <= j < i + 1 && es[j].File? && !Hidden(es[j].name);
      assert rest[j - 1] == es[j];
    }
    if FileBefore(rest, i) {
      var j :| 0 <= j < i && rest[j].File? && !Hidden(rest[j].name);
      assert es[j + 1] == rest[j];
    }
  }

  /** The table has 4026 places: a scan of so many paths is recorded in full, a longer one that
      stays inside is cut off there. */
  lemma WholeScan(home: Path, d: Dirent)
    requires d.Directory?
    ensures |Scanned(home, d)| <= 4026 ==> Fits(home, d, MAX_PATHS) && Taken(Scanned(home, d), MAX_PATHS) == Scanned(home, d)
    ensures |Scanned(home, d)| > 4026 ==> Taken(Scanned(home, d), MAX_PATHS) == Scanned(home, d)[..4026]
  {
    if |Scanned(home, d)| <= 4026 { ShortFits(home, d, MAX_PATHS); }
  }

  lemma OneScanned(home: Path, es: seq<Dirent>)
    requires es != []
    ensures ScannedEntries(home, es) ==
      if !Dots(es[0].name) && es[0].Unstattable? then [] else EntryScan(home, es[0]) + ScannedEntries(home, es[1..])
  {
    hide Scanned, FitsEntries, Fits;
  }

  lemma OneFits(home: Path, es: seq<Dirent>, room: nat)
    requires es != [] && FitsEntries(home, es, room)
    ensures (Dots(es[0].name) || !es[0].Unstattable?) && !(es[0].File? && !Dots(es[0].name) && room == 0) ==>
      FitsEntries(home, es[1..], room - |Taken(EntryScan(home, es[0]), room)|)
    ensures !Dots(es[0].name) && es[0].Directory? ==> room >= 1 && Fits(Slashed(home, es[0].name), es[0], room - 1)
  {
    hide ScannedEntries, Scanned, Fits;
    if !Dots(es[0].name) {
      match es[0]
      case Directory(_, _, _) => TakenOneMore(Slashed(home, es[0].name), Scanned(Slashed(home, es[0].name), es[0]), room);
      case _ =>
    }
  }

  lemma TakenOneMore(p: Path, paths: seq<Path>, room: nat)
    requires room >= 1
    ensures |Taken([p] + paths, room)| == 1 + |Taken(paths, room - 1)|
  {
  }

  lemma NoEntries(home: Path)
    ensures ScannedEntries(home, []) == []
  {
  }

  lemma TakenOne(p: Path, room: nat)
    requires room >= 1
    ensures Taken([p], room) == [p]
  {
  }

  lemma TakenThen(before: seq<Path>, a: seq<Path>, b: seq<Path>, room: nat)
    ensures before + Taken(a + b, room) == before + Taken(a, room) + Taken(b, room - |Taken(a, room)|)
  {
  }

  lemma TakenNone(before: seq<Path>, paths: seq<Path>, room: nat)
    ensures before + Taken(paths, 0) == before && Taken([], room) == [] && before + [] == before
  {
  }

  class Scanner {
    const accessiblePaths: array<Path>
    var numPaths: nat

    ghost predicate Valid()
      reads this
    {
      accessiblePaths.Length == MAX_PATHS && numPaths <= MAX_PATHS
    }

    ghost function Contents(): (s: seq<Path>)
      requires Valid()
      reads this, accessiblePaths
      ensures |s| == numPaths
    {
      accessiblePaths[..numPaths]
    }

    constructor ()
      ensures Valid() && fresh(accessiblePaths) && Contents() == []
    {
      accessiblePaths := new Path[MAX_PATHS](_ => []);
      numPaths := 0;
    }

    method Record(path: Path)
      requires Valid() && numPaths < MAX_PATHS
      modifies this, accessiblePaths
      ensures Valid() && Contents() == old(Contents()) + [path]
    {
      accessiblePaths[numPaths] := path;
      numPaths := numPaths + 1;
    }

    /** scan_directory, unless it leaves the table. */
    method ScanDirectory(home: Path, d: Dirent)
      requires Valid() && d.Directory? && Fits(home, d, MAX_PATHS - numPaths)
      modifies this, accessiblePaths
      ensures Valid() && Contents() == old(Contents()) + Taken(Scanned(home, d), MAX_PATHS - old(numPaths))
      decreases d, 1
    {
      ghost var before, room := Contents(), MAX_PATHS - numPaths;
      Record(home);
      if !d.readable {
        return;
      }
      ScanEntries(home, d.entries);
      TakenThen(before, [home], ScannedEntries(home, d.entries), room);
    }

    /** A nested directory: recorded here, and again by its own scan. */
    method ScanNested(full: Path, d: Dirent)
      requires Valid() && d.Directory? && numPaths < MAX_PATHS && Fits(full, d, MAX_PATHS - numPaths - 1)
      modifies this, accessiblePaths
      ensures Valid() && Contents() == old(Contents()) + Taken([full] + Scanned(full, d), MAX_PATHS - old(numPaths))
      decreases d, 2
    {
      TakenThen(Contents(), [full], Scanned(full, d), MAX_PATHS - numPaths);
      Record(full);
      ScanDirectory(full, d);
    }

    /** The readdir loop. */
    method ScanEntries(home: Path, es: seq<Dirent>)
      requires Valid() && FitsEntries(home, es, MAX_PATHS - numPaths)
      modifies this, accessiblePaths
      ensures Valid() && Contents() == old(Contents()) + Taken(ScannedEntries(home, es), MAX_PATHS - old(numPaths))
      decreases es, 0
    {
      hide Fits, Taken, Contents, ScannedEntries, FitsEntries;
      var i := 0;
      ghost var all := old(Contents()) + Taken(ScannedEntries(home, es), MAX_PATHS - old(numPaths));
      assert es[0..] == es;
      while i < |es|
        invariant 0 <= i <= |es| && Valid() && FitsEntries(home, es[i..], MAX_PATHS - numPaths)
        invariant Contents() + Taken(ScannedEntries(home, es[i..]), MAX_PATHS - numPaths) == all
      {
        ghost var c, room, rest := Contents(), MAX_PATHS - numPaths, ScannedEntries(home, es[i + 1..]);
        assert es[i..][0] == es[i] && es[i..][1..] == es[i + 1..];
        OneScanned(home, es[i..]);
        OneFits(home, es[i..], room);
        var full := Slashed(home, es[i].name);
        TakenThen(c, EntryScan(home, es[i]), rest, room);
        TakenNone(c, EntryScan(home, es[i]) + rest, room);
        if !Dots(es[i].name) {
          match es[i]
          case File(_) =>
            if numPaths == MAX_PATHS {
              return;
            }
            TakenOne(full, room);
            Record(full);
          case Directory(_, _, _) =>
            ScanNested(full, es[i]);
          case Special(_) =>
          case Unstattable(_) =>
            return;
        }
        i := i + 1;
      }
      assert es[i..] == [];
      NoEntries(home);
      TakenNone(Contents(), [], MAX_PATHS - numPaths);
    }
  }
}
