/** What the filesystems hand around: fs/fs.go, fs/dir.go and the errors of package os. */
module Files {
  datatype Error = NotExist | Exist | Other

  datatype Result<+T> = Ok(value: T) | Err(error: Error)

  /** `Dir` is the repository's Dir type, the only one whose size the storage updates; `Info` is
      any other File that says it is a directory; `Leaf` is any File that says it is not. */
  datatype Kind = Leaf | Dir | Info

  class File {
    const kind: Kind
    var size: int

    constructor (kind: Kind, size: int)
      ensures this.kind == kind && this.size == size
    {
      this.kind := kind;
      this.size := size;
    }

    predicate IsDir() {
      kind != Leaf
    }
  }

  /** A Go map[string]File: an object that whoever holds it may update. */
  class Listing {
    var entries: map<string, File>

    constructor ()
      ensures entries == map[]
    {
      entries := map[];
    }
  }

  /** A mounted filesystem, known only by how it answers. */
  datatype Filesystem = Filesystem(open: string -> Result<File>, list: string -> Result<map<string, File>>)
}
