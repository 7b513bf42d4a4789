/** Values shared by the naming server and the storage servers.

    A C string is a sequence of non-NUL bytes; the NUL that ends it in memory
    is not part of the value. */
module Types {

  /** A byte of a C string: `unsigned char`, never the terminator. */
  type Byte = b: int | 0 < b < 256 witness 1

  type Text = seq<Byte>
  type Path = seq<Byte>

  const COMMA: Byte := 44
  const DOT: Byte := 46
  const SLASH: Byte := 47

  datatype Option<+T> = None | Some(value: T) {
    function GetOr(default: T): T {
      if Some? then value else default
    }
  }

  /** The contents of a FILEINFO: who serves a file, and under which path. */
  datatype FileInfo = FileInfo(ip: Text, port: int, filePath: Path)

  /** The address under which a storage server is known: its ip and client port. */
  datatype Endpoint = Endpoint(ip: Text, port: int)

  function Owner(info: FileInfo): Endpoint {
    Endpoint(info.ip, info.port)
  }

  /** `"%s/%s"` */
  function Slashed(dir: Path, name: Path): Path {
    dir + [SLASH] + name
  }

  /** The address of `q` after the subtree at `src` is moved to `dst`. */
  function Rebased(q: Path, src: Path, dst: Path): Path
    requires src <= q
  {
    dst + q[|src|..]
  }
}
