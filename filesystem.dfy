/**
  An abstract filesystem standing for the three effects the saver has:
  `Path::exists`, `fs::create_dir_all` and `fs::write`. Files map a path
  to their contents, directories are a set of paths, and `denied` is the
  set of paths at which creating or writing fails (missing permissions,
  read-only media), fixed when the filesystem is given.
 */
module FileSystems {

  class FileSystem {
    var files: map<string, string>
    var dirs: set<string>
    const denied: set<string>

    constructor (files: map<string, string>, dirs: set<string>, denied: set<string>)
      ensures this.files == files && this.dirs == dirs && this.denied == denied
    {
      this.files := files;
      this.dirs := dirs;
      this.denied := denied;
    }

    /** `Path::new(p).exists()`: a file or a directory is found at `p`. */
    predicate Exists(p: string)
      reads this
    {
      p in files || p in dirs
    }

    /** Every path at which something exists. */
    function Existing(): (s: set<string>)
      reads this
      ensures forall p :: p in s <==> Exists(p)
    {
      files.Keys + dirs
    }

    /** `fs::create_dir_all(p)`: succeeds unless `p` is denied, and then `p` is a directory. */
    method CreateDirAll(p: string) returns (ok: bool)
      modifies this
      ensures ok == (p !in denied)
      ensures dirs == if ok then old(dirs) + {p} else old(dirs)
      ensures files == old(files)
      ensures old(Existing()) <= Existing()
      ensures ok ==> Exists(p)
    {
      ok := p !in denied;
      if ok {
        dirs := dirs + {p};
      }
    }

    /**
      `fs::write(p, data)`: creates or overwrites the file at `p`; fails
      when `p` is denied or names a directory.
     */
    method Write(p: string, data: string) returns (ok: bool)
      modifies this
      ensures ok == (p !in denied && p !in dirs)
      ensures files == if ok then old(files)[p := data] else old(files)
      ensures dirs == old(dirs)
      ensures old(Existing()) <= Existing()
      ensures ok ==> Exists(p)
    {
      ok := p !in denied && p !in dirs;
      if ok {
        files := files[p := data];
      }
    }
  }
}
