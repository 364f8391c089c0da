/**
 * The mode-aware file handle: a path on a `Disk`, an access mode, a content
 * type that picks the write function, and the descriptor it holds while open.
 */
module FileIO {
  import opened Wrappers
  import opened OS
  import RowFormat

  /** The exception `write` and `writeArray` raise on a handle that may not write. */
  datatype Error = ReadOnly

  /** What one `write` call is given: a scalar, or a row of fields. */
  datatype Record = Text(text: string) | Row(fields: seq<string>)

  /** The PHP routine one record is written with. */
  datatype WriteFunction = PutCsv | FWrite

  /** The content types that have their own write function, and the fallback under "default". */
  const WriteFunctions: map<string, WriteFunction> := map["csv" := PutCsv, "default" := FWrite]

  /** The write function for a content type: its own entry, else the default one. */
  function WriteFunctionFor(fileType: string): (w: WriteFunction)
    ensures w == PutCsv <==> fileType == "csv"
  {
    if fileType in WriteFunctions then WriteFunctions[fileType] else WriteFunctions["default"]
  }

  /** Mode names as callers give them: "append" and "write"; anything else reads. */
  function ModeOf(name: string): (m: Mode)
    ensures m == Mode.Append <==> name == "append"
    ensures m == Write <==> name == "write"
    ensures m == Read <==> name != "append" && name != "write"
  {
    match name
    case "append" => Append
    case "write" => Write
    case _ => Read
  }

  /**
   * The text one write call puts in the file. A row goes through the row
   * encoding, a scalar is written verbatim; a record the write function does
   * not accept (an array to `fwrite`, a string to `fputcsv`) writes nothing.
   */
  function Encode(w: WriteFunction, data: Record): (r: string)
    ensures r != "" ==> (w == PutCsv <==> data.Row?)
    ensures w == FWrite && data.Text? ==> r == data.text
    ensures w == PutCsv && data.Row? ==> |r| > 0 && r[|r| - 1] == '\n'
  {
    match (w, data)
    case (PutCsv, Row(fields)) => RowFormat.Line(fields)
    case (FWrite, Text(t)) => t
    case _ => ""
  }

  /** The text of writing each record in order. */
  function EncodeAll(w: WriteFunction, data: seq<Record>): string {
    if data == [] then "" else Encode(w, data[0]) + EncodeAll(w, data[1..])
  }

  /** Writing two batches one after the other is writing their concatenation. */
  lemma {:induction false} EncodeAllConcat(w: WriteFunction, a: seq<Record>, b: seq<Record>)
    ensures EncodeAll(w, a + b) == EncodeAll(w, a) + EncodeAll(w, b)
  {
    if a == [] {
      assert a + b == b;
    } else {
      assert (a + b)[0] == a[0];
      assert (a + b)[1..] == a[1..] + b;
      EncodeAllConcat(w, a[1..], b);
    }
  }

  /** Whether a descriptor, given by the mode it was opened with, writes to its file. */
  predicate WritesThrough(handle: Option<Mode>) {
    handle == Some(Mode.Write) || handle == Some(Mode.Append)
  }

  /** The text that writing `data` through `handle` adds to the file. */
  function Emitted(handle: Option<Mode>, w: WriteFunction, data: seq<Record>): string {
    if WritesThrough(handle) then EncodeAll(w, data) else ""
  }

  lemma EncodeAllOne(w: WriteFunction, data: Record)
    ensures EncodeAll(w, [data]) == Encode(w, data)
  {
    assert EncodeAll(w, [data]) == Encode(w, data) + EncodeAll(w, []);
  }

  /** Writing a single record through a handle adds that record's text, if the handle writes at all. */
  lemma EmittedOne(handle: Option<Mode>, w: WriteFunction, data: Record)
    ensures Emitted(handle, w, [data]) == if WritesThrough(handle) then Encode(w, data) else ""
  {
    EncodeAllOne(w, data);
  }

  /** Writing two batches through one handle emits the two texts one after the other. */
  lemma EmittedConcat(handle: Option<Mode>, w: WriteFunction, a: seq<Record>, b: seq<Record>)
    ensures Emitted(handle, w, a + b) == Emitted(handle, w, a) + Emitted(handle, w, b)
  {
    EncodeAllConcat(w, a, b);
  }

  lemma AppendTwice(files: map<string, string>, p: string, x: string, y: string)
    requires p in files
    ensures files[p := files[p] + x][p := files[p] + x + y] == files[p := files[p] + (x + y)]
  {
    assert files[p] + x + y == files[p] + (x + y);
  }

  class File {
    const disk: Disk
    const path: string
    var mode: Mode
    var fileType: string
    /** The mode the open descriptor was obtained with; None when not open. */
    var handle: Option<Mode>

    constructor (disk: Disk, path: string, modeName: string := "read", fileType: string := "txt")
      ensures this.disk == disk && this.path == path
      ensures mode == ModeOf(modeName) && this.fileType == fileType && handle == None
    {
      this.disk := disk;
      this.path := path;
      mode := ModeOf(modeName);
      this.fileType := fileType;
      handle := None;
    }

    method SetMode(name: string)
      modifies this`mode
      ensures mode == ModeOf(name)
    {
      mode := ModeOf(name);
    }

    /** The mode letter: "a" for append, "w" for write, "r" otherwise. */
    function GetMode(): (r: string)
      reads this
      ensures r == "a" <==> mode == Mode.Append
      ensures r == "w" <==> mode == Mode.Write
      ensures r == "r" <==> mode == Mode.Read
    {
      Letter(mode)
    }

    method SetType(t: string)
      modifies this`fileType
      ensures fileType == t
    {
      fileType := t;
    }

    function GetType(): string
      reads this
    {
      fileType
    }

    /** The row encoder for type "csv", the verbatim writer for every other type. */
    function GetWriteFunction(): (w: WriteFunction)
      reads this
      ensures w == PutCsv <==> fileType == "csv"
      ensures w == FWrite <==> fileType != "csv"
    {
      WriteFunctionFor(fileType)
    }

    /** Opens `path` with the current mode; a failed `fopen` leaves the handle closed. */
    method Open()
      modifies this`handle, disk
      ensures var outcome := FOpen(old(disk.files), disk.permitted, path, mode);
        && handle == (if outcome.Some? then Some(mode) else None)
        && disk.files == (if outcome.Some? then outcome.value else old(disk.files))
    {
      var ok := disk.Open(path, mode);
      handle := if ok then Some(mode) else None;
    }

    /** Releases the descriptor if there is one; does nothing otherwise. */
    method Close()
      modifies this`handle
      ensures handle == None
    {
      if handle.Some? {
        handle := None;
      }
    }

    /** The whole file as it is now, or None when it does not exist; opened or not. */
    function GetContents(): (r: Option<string>)
      reads this, disk
      ensures r.Some? <==> path in disk.files
      ensures r.Some? ==> r.value == disk.files[path]
    {
      if path in disk.files then Some(disk.files[path]) else None
    }

    /** What `write` needs before it is first called: a writable handle is open. */
    predicate Ready()
      reads this, disk
    {
      IsWritable() ==> IsOpen()
    }

    /** `files` with the text of writing `data` through this handle added to this path. */
    function Appended(files: map<string, string>, data: seq<Record>): (r: map<string, string>)
      reads this
      requires path in files
      ensures r.Keys == files.Keys
      ensures r[path] == files[path] + Emitted(handle, GetWriteFunction(), data)
      ensures forall q :: q in files && q != path ==> r[q] == files[q]
    {
      files[path := files[path] + Emitted(handle, GetWriteFunction(), data)]
    }

    /** Writing nothing leaves the files as they are. */
    lemma AppendedNothing(files: map<string, string>)
      requires path in files
      ensures Appended(files, []) == files
    {
      assert files[path] + "" == files[path];
    }

    /** Two batches written one after the other add the same text as the two batches written at once. */
    lemma AppendedConcat(files: map<string, string>, a: seq<Record>, b: seq<Record>)
      requires path in files
      ensures Appended(Appended(files, a), b) == Appended(files, a + b)
    {
      var w := GetWriteFunction();
      EmittedConcat(handle, w, a, b);
      AppendTwice(files, path, Emitted(handle, w, a), Emitted(handle, w, b));
    }

    /**
     * Writes each record in order. Writability is checked once, before the
     * loop: a handle that may not write raises ReadOnly and writes nothing.
     */
    method WriteArray(data: seq<Record> := []) returns (r: Outcome<Error>)
      requires |data| > 0 ==> Ready()
      modifies disk
      ensures r == if old(IsWritable()) then Pass else Fail(ReadOnly)
      ensures old(IsWritable()) ==> disk.files == Appended(old(disk.files), data)
      ensures !old(IsWritable()) ==> disk.files == old(disk.files)
      ensures IsWritable() == old(IsWritable())
    {
      if !IsWritable() {
        return Fail(ReadOnly);
      }
      var i := 0;
      AppendedNothing(disk.files);
      while i < |data|
        invariant 0 <= i <= |data|
        invariant path in old(disk.files) && IsWritable()
        invariant disk.files == Appended(old(disk.files), data[..i])
      {
        AppendedConcat(old(disk.files), data[..i], [data[i]]);
        assert data[..i + 1] == data[..i] + [data[i]];
        var _ := Write(data[i]);
        i := i + 1;
      }
      assert data[..i] == data;
      return Pass;
    }

    /** Writes one record with the type's write function, or raises ReadOnly and writes nothing. */
    method Write(data: Record) returns (r: Outcome<Error>)
      requires Ready()
      modifies disk
      ensures r == if old(IsWritable()) then Pass else Fail(ReadOnly)
      ensures old(IsWritable()) ==> disk.files == Appended(old(disk.files), [data])
      ensures !old(IsWritable()) ==> disk.files == old(disk.files)
      ensures IsWritable() == old(IsWritable())
    {
      if IsWritable() {
        var wfunc := GetWriteFunction();
        assert EncodeAll(wfunc, [data]) == Encode(wfunc, data) + EncodeAll(wfunc, []);
        assert Emitted(handle, wfunc, [data]) == if handle.value == Mode.Read then "" else Encode(wfunc, data);
        assert disk.files[path] + "" == disk.files[path];
        assert disk.files == disk.files[path := disk.files[path] + ""];
        disk.Write(handle.value, path, Encode(wfunc, data));
        return Pass;
      }
      return Fail(ReadOnly);
    }

    /**
     * Writes at the end of the file: a handle not in append mode is closed,
     * switched to append and reopened first, so the contents are kept.
     */
    method Append(data: Record) returns (r: Outcome<Error>)
      requires GetMode() == "a" ==> Ready()
      modifies this`mode, this`handle, disk
      ensures mode == Mode.Append
      ensures old(mode) == Mode.Append ==>
        && handle == old(handle)
        && r == (if old(IsWritable()) then Pass else Fail(ReadOnly))
        && disk.files == (if old(IsWritable()) then Appended(old(disk.files), [data]) else old(disk.files))
      ensures old(mode) != Mode.Append ==>
        var reopened := path in disk.permitted;
        var kept := if path in old(disk.files) then old(disk.files)[path] else "";
        && handle == (if reopened then Some(Mode.Append) else None)
        && r == (if reopened then Pass else Fail(ReadOnly))
        && disk.files == (if reopened then old(disk.files)[path := kept + Encode(GetWriteFunction(), data)] else old(disk.files))
    {
      if GetMode() != "a" {
        Close();
        SetMode("append");
        Open();
      }
      assert EncodeAll(GetWriteFunction(), [data]) == Encode(GetWriteFunction(), data);
      r := Write(data);
    }

    /** Valid means the file exists and is not empty. */
    function IsValid(): (r: bool)
      reads this, disk
      ensures r <==> Exists() && GetFileSize().Some? && GetFileSize().value > 0
      ensures r <==> path in disk.files && disk.files[path] != ""
    {
      Exists() && match GetFileSize() case Some(n) => n > 0 case None => false
    }

    /** The size of the file in characters, or None when it does not exist. */
    function GetFileSize(): (r: Option<nat>)
      reads this, disk
      ensures r.Some? <==> path in disk.files
      ensures r.Some? ==> r.value == |disk.files[path]|
    {
      if path in disk.files then Some(|disk.files[path]|) else None
    }

    predicate Exists()
      reads this, disk
    {
      path in disk.files
    }

    /** Never writable in read mode; otherwise exactly when the path is. */
    function IsWritable(): (r: bool)
      reads this, disk
      ensures mode == Mode.Read ==> !r
      ensures mode != Mode.Read ==> (r <==> disk.IsWritable(path))
    {
      GetMode() != "r" && disk.IsWritable(path)
    }

    predicate IsOpen()
      reads this
    {
      handle.Some?
    }
  }
}
