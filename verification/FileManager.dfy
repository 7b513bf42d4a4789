/** The tables of InFlight as arrays changed in place, and the critical sections of
    read_file, write_file and delete_file_or_directory (file_manager.c) as methods: each
    is what a step of InFlight does to the tables. */
module FileManager {
  import opened Types
  import Lru
  import opened InFlight

  /** files_being_accessed or files_being_read, with its counter. */
  class PathTable {
    const paths: array<Path>
    var count: nat

    ghost predicate Valid()
      reads this
    {
      paths.Length == MAX_PATHS && count <= MAX_PATHS
    }

    ghost function Contents(): seq<Path>
      requires Valid()
      reads this, paths
    {
      paths[..count]
    }

    constructor ()
      ensures Valid() && fresh(paths) && Contents() == []
    {
      paths := new Path[MAX_PATHS](_ => []);
      count := 0;
    }

    /** add_accessible_path, add_accessible_path2 */
    method Add(path: Path)
      requires Valid()
      modifies this, paths
      ensures Valid() && Contents() == Appended(old(Contents()), path)
    {
      if count < MAX_PATHS {
        paths[count] := path;
        count := count + 1;
      }
    }

    /** The strcmp scan. */
    method Find(path: Path) returns (i: nat)
      requires Valid()
      ensures i == Lru.Position(Contents(), path)
    {
      i := 0;
      while i < count
        invariant 0 <= i <= count
        invariant path !in Contents()[..i]
      {
        if paths[i] == path {
          FirstAt(Contents(), path, i);
          return;
        }
        assert Contents()[..i + 1] == Contents()[..i] + [paths[i]];
        i := i + 1;
      }
      assert Contents()[..i] == Contents();
    }

    /** delete_accessible_path, delete_accessible_path2 */
    method Delete(path: Path)
      requires Valid()
      modifies this, paths
      ensures Valid() && Contents() == Removed(old(Contents()), path)
    {
      var i := Find(path);
      ghost var t := Contents();
      if i < count {
        assert paths[..i] == t[..i] && paths[i + 1..count] == t[i + 1..];
        ShiftLeft(i);
        count := count - 1;
        assert Contents() == t[..i] + t[i + 1..];
      }
    }

    method ShiftLeft(i: nat)
      requires Valid() && i < count
      modifies paths
      ensures paths[..count - 1] == old(paths[..i]) + old(paths[i + 1..count])
    {
      var j := i;
      while j < count - 1
        invariant i <= j <= count - 1
        invariant forall k | 0 <= k < count :: paths[k] == if i <= k < j then old(paths[k + 1]) else old(paths[k])
      {
        paths[j] := paths[j + 1];
        j := j + 1;
      }
    }

    /** The is_prefix scan of a deletion. */
    method HasBelow(path: Path) returns (found: bool)
      requires Valid()
      ensures found <==> SomeBelow(Contents(), path)
    {
      var i := 0;
      while i < count
        invariant 0 <= i <= count
        invariant forall k | 0 <= k < i :: !(path <= paths[k])
      {
        if path <= paths[i] {
          assert paths[i] in Contents();
          return true;
        }
        i := i + 1;
      }
      return false;
    }
  }

  lemma FirstAt(t: seq<Path>, p: Path, i: nat)
    requires i < |t| && t[i] == p && p !in t[..i]
    ensures Lru.Position(t, p) == i
  {
  }

  class Manager {
    const readers: PathTable
    const writers: PathTable

    ghost predicate Valid()
      reads this, readers, writers
    {
      && readers.Valid() && writers.Valid()
      && readers != writers && readers.paths != writers.paths
    }

    /** The two tables, as a state of InFlight holds them. */
    ghost predicate Shows(st: State)
      requires Valid()
      reads this, readers, writers, readers.paths, writers.paths
    {
      st.readers == readers.Contents() && st.writers == writers.Contents()
    }

    constructor ()
      ensures Valid() && Shows(IDLE)
    {
      readers := new PathTable();
      writers := new PathTable();
    }

    /** The first critical section of a request: under `lock` for a read and a deletion,
        under `lock2` for a write. */
    method Check(kind: Kind, path: Path, ghost st: State, ghost i: nat) returns (refused: bool)
      requires Valid() && Shows(st) && i < |st.requests|
      requires st.requests[i].phase == Started && st.requests[i].kind == kind && st.requests[i].path == path
      ensures Shows(Next(st, Advance(i)))
      ensures Next(st, Advance(i)).requests[i].phase == if refused then Refused else Checked
    {
      match kind
      case Reading =>
        var k := writers.Find(path);
        refused := k < writers.count;
      case Writing =>
        var k := readers.Find(path);
        refused := k < readers.count;
      case Deleting =>
        refused := writers.HasBelow(path);
    }

    /** The second: registration, or the second scan of a deletion. */
    method Enter(kind: Kind, path: Path, ghost st: State, ghost i: nat) returns (refused: bool)
      requires Valid() && Shows(st) && i < |st.requests|
      requires st.requests[i].phase == Checked && st.requests[i].kind == kind && st.requests[i].path == path
      modifies readers, readers.paths, writers, writers.paths
      ensures Valid() && Shows(Next(st, Advance(i)))
      ensures Next(st, Advance(i)).requests[i].phase == if refused then Refused else Busy
    {
      refused := false;
      match kind
      case Reading => readers.Add(path);
      case Writing => writers.Add(path);
      case Deleting => refused := readers.HasBelow(path);
    }

    /** The last, at a normal end. write_file removes the name without " --sync". */
    method Leave(kind: Kind, path: Path, ghost st: State, ghost i: nat)
      requires Valid() && Shows(st) && i < |st.requests|
      requires st.requests[i].phase == Busy && st.requests[i].kind == kind && st.requests[i].path == path
      modifies readers, readers.paths, writers, writers.paths
      ensures Valid() && Shows(Next(st, Advance(i)))
    {
      hide Stripped, Removed;
      match kind
      case Reading => readers.Delete(path);
      case Writing =>
        var name := WithoutSync(path);
        writers.Delete(name);
      case Deleting =>
    }
  }

  /** `strstr(file_path, " --sync")` and the copy of what is before it. */
  method WithoutSync(path: Path) returns (name: Path)
    ensures name == Stripped(path)
  {
    var i := 0;
    while i < |path| && !(SYNC <= path[i..])
      invariant 0 <= i <= |path|
      invariant forall j | 0 <= j < i :: !(SYNC <= path[j..])
    {
      i := i + 1;
    }
    name := path[..i];
  }
}
