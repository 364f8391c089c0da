/**
 * The operating-system collaborator of the file handle: a filesystem that
 * maps paths to contents, the set of paths the process may write, and the
 * semantics of `fopen` and `fwrite` over them.
 */
module OS {
  import opened Wrappers

  /** The access mode passed to `fopen`. */
  datatype Mode = Read | Write | Append

  /** The mode letter as `fopen` takes it. */
  function Letter(m: Mode): (r: string)
    ensures |r| == 1
    ensures m == Read <==> r == "r"
    ensures m == Write <==> r == "w"
    ensures m == Append <==> r == "a"
  {
    match m
    case Read => "r"
    case Write => "w"
    case Append => "a"
  }

  /**
   * The files after `fopen(path, m)`, or None when it fails: "r" needs an
   * existing path, "w" creates or truncates, "a" creates or keeps the contents.
   */
  function FOpen(files: map<string, string>, permitted: set<string>, path: string, m: Mode): (r: Option<map<string, string>>)
    ensures r.Some? <==> if m == Read then path in files else path in permitted
    ensures r.Some? ==> r.value.Keys == files.Keys + {path}
    ensures r.Some? ==> forall q :: q in files && q != path ==> r.value[q] == files[q]
    ensures r.Some? && m == Write ==> r.value[path] == ""
    ensures r.Some? && m != Write && path in files ==> r.value[path] == files[path]
    ensures r.Some? && path !in files ==> r.value[path] == ""
  {
    match m
    case Read => if path in files then Some(files) else None
    case Write => if path in permitted then Some(files[path := ""]) else None
    case Append => if path in permitted then Some(if path in files then files else files[path := ""]) else None
  }

  class Disk {
    /** Contents of every existing file. */
    var files: map<string, string>
    /** Paths the process may open for writing, existing or to be created. */
    const permitted: set<string>

    constructor (files: map<string, string>, permitted: set<string>)
      ensures this.files == files && this.permitted == permitted
    {
      this.files := files;
      this.permitted := permitted;
    }

    /**
     * PHP's `is_writable`: false for a path that does not exist. A writable
     * path opens for appending with nothing changed, and for writing.
     */
    predicate IsWritable(path: string): (r: bool)
      reads this
      ensures r ==> path in files
      ensures r ==> FOpen(files, permitted, path, Mode.Append) == Some(files)
      ensures r <==> path in files && FOpen(files, permitted, path, Mode.Write).Some?
    {
      path in files && path in permitted
    }

    /** `fopen`: reports whether a descriptor was obtained. */
    method Open(path: string, m: Mode) returns (ok: bool)
      modifies this
      ensures ok == FOpen(old(files), permitted, path, m).Some?
      ensures files == if ok then FOpen(old(files), permitted, path, m).value else old(files)
    {
      var r := FOpen(files, permitted, path, m);
      ok := r.Some?;
      if ok {
        files := r.value;
      }
    }

    /**
     * `fwrite` through a descriptor opened on `path` with mode `access`: the
     * text goes to the end; a descriptor opened for reading writes nothing.
     */
    method Write(access: Mode, path: string, text: string)
      requires path in files
      modifies this
      ensures files == if access == Read then old(files) else old(files)[path := old(files)[path] + text]
    {
      if access != Read {
        files := files[path := files[path] + text];
      }
    }
  }
}
