/**
 * The row writer: a header row and a body of rows, flushed header first
 * through a `File` whose content type it forces to "csv".
 */
module CsvIO {
  import opened Wrappers
  import opened OS
  import opened FileIO
  import RowFormat

  /** Each row of a body as the record one write call is given. */
  function Rows(rows: seq<seq<string>>): (r: seq<Record>)
    ensures |r| == |rows|
    ensures forall i :: 0 <= i < |rows| ==> r[i] == Row(rows[i])
  {
    if rows == [] then [] else [Row(rows[0])] + Rows(rows[1..])
  }

  /** PHP's `!empty(...)` on a field that may be unset. */
  predicate NonEmpty<T>(x: Option<seq<T>>) {
    x.Some? && |x.value| > 0
  }

  /** The records `save` writes, in order: the header if there is one, then every row of the body. */
  function SaveRecords(header: Option<seq<string>>, data: Option<seq<seq<string>>>): (r: seq<Record>)
    ensures |r| == (if NonEmpty(header) then 1 else 0) + (if NonEmpty(data) then |data.value| else 0)
    ensures NonEmpty(header) ==> r[0] == Row(header.value)
    ensures forall i :: 0 <= i < |r| && !(NonEmpty(header) && i == 0) ==>
      var k := if NonEmpty(header) then i - 1 else i;
      NonEmpty(data) && 0 <= k < |data.value| && r[i] == Row(data.value[k])
  {
    (if NonEmpty(header) then [Row(header.value)] else []) + (if NonEmpty(data) then Rows(data.value) else [])
  }

  /** The rows `save` writes: the header if it is set and not empty, then the body if it is. */
  function SavedRows(header: Option<seq<string>>, data: Option<seq<seq<string>>>): seq<seq<string>> {
    (if NonEmpty(header) then [header.value] else []) + (if NonEmpty(data) then data.value else [])
  }

  /** `save` writes the header row first, then each body row, in order, and nothing else. */
  lemma SaveRecordsAreRows(header: Option<seq<string>>, data: Option<seq<seq<string>>>)
    ensures SaveRecords(header, data) == Rows(SavedRows(header, data))
  {
    var r, rows := SaveRecords(header, data), SavedRows(header, data);
    assert |r| == |rows|;
    forall i | 0 <= i < |r|
      ensures r[i] == Rows(rows)[i]
    {
      if !(NonEmpty(header) && i == 0) {
        var k := if NonEmpty(header) then i - 1 else i;
        assert rows[i] == data.value[k];
      }
    }
  }

  /** The text the tests expect for rows: each row imploded with commas, then PHP_EOL, which is "\n" on Unix. */
  function ImplodedLines(rows: seq<seq<string>>): string {
    if rows == [] then "" else ImplodedLines(rows[..|rows| - 1]) + RowFormat.Implode(",", rows[|rows| - 1]) + "\n"
  }

  lemma RowsConcat(a: seq<seq<string>>, b: seq<seq<string>>)
    ensures Rows(a + b) == Rows(a) + Rows(b)
  {
    forall i | 0 <= i < |a + b|
      ensures Rows(a + b)[i] == (Rows(a) + Rows(b))[i]
    {
      if i < |a| {
        assert (a + b)[i] == a[i];
      } else {
        assert (a + b)[i] == b[i - |a|];
      }
    }
  }

  /** Rows whose fields need no enclosing are written exactly as the tests build them. */
  lemma {:induction false} PlainRowsText(rows: seq<seq<string>>)
    requires forall i :: 0 <= i < |rows| ==> RowFormat.Plain(rows[i])
    ensures EncodeAll(PutCsv, Rows(rows)) == ImplodedLines(rows)
  {
    if rows != [] {
      var init, last := rows[..|rows| - 1], rows[|rows| - 1];
      assert rows == init + [last];
      PlainRowsText(init);
      RowsConcat(init, [last]);
      assert Rows([last]) == [Row(last)];
      EncodeAllConcat(PutCsv, Rows(init), [Row(last)]);
      assert EncodeAll(PutCsv, [Row(last)]) == RowFormat.Line(last) + EncodeAll(PutCsv, []);
      RowFormat.PlainLine(last);
    }
  }

  /** n rows whose fields need no enclosing are written as exactly n terminated lines. */
  lemma {:induction false} PlainRowsLineCount(rows: seq<seq<string>>)
    requires forall i :: 0 <= i < |rows| ==> RowFormat.Plain(rows[i])
    ensures RowFormat.Occurrences(EncodeAll(PutCsv, Rows(rows)), '\n') == |rows|
  {
    if rows != [] {
      var rest := Rows(rows[1..]);
      assert Rows(rows) == [Row(rows[0])] + rest;
      assert Rows(rows)[1..] == rest;
      PlainRowsLineCount(rows[1..]);
      RowFormat.PlainLineHasOneNewline(rows[0]);
      RowFormat.OccurrencesConcat(RowFormat.Line(rows[0]), EncodeAll(PutCsv, rest), '\n');
    }
  }

  /** `save`'s text is the header's encoding, if any, followed by the body's, if any. */
  lemma {:induction false} SaveHeaderFirst(w: WriteFunction, header: Option<seq<string>>, data: Option<seq<seq<string>>>)
    ensures EncodeAll(w, SaveRecords(header, data))
         == (if NonEmpty(header) then Encode(w, Row(header.value)) else "")
          + (if NonEmpty(data) then EncodeAll(w, Rows(data.value)) else "")
  {
    var head: seq<Record> := if NonEmpty(header) then [Row(header.value)] else [];
    var body := if NonEmpty(data) then Rows(data.value) else [];
    assert SaveRecords(header, data) == head + body;
    EncodeAllConcat(w, head, body);
    if NonEmpty(header) {
      EncodeAllOne(w, Row(header.value));
    } else {
      assert EncodeAll(w, head) == "";
      assert "" + EncodeAll(w, body) == EncodeAll(w, body);
    }
    if !NonEmpty(data) {
      assert EncodeAll(w, body) == "";
      assert EncodeAll(w, head) + "" == EncodeAll(w, head);
    }
  }

  /** With fields that need no enclosing, `save` writes one line per saved row, imploded with commas. */
  lemma PlainSaveText(header: Option<seq<string>>, data: Option<seq<seq<string>>>)
    requires forall i :: 0 <= i < |SavedRows(header, data)| ==> RowFormat.Plain(SavedRows(header, data)[i])
    ensures EncodeAll(PutCsv, SaveRecords(header, data)) == ImplodedLines(SavedRows(header, data))
    ensures RowFormat.Occurrences(EncodeAll(PutCsv, SaveRecords(header, data)), '\n') == |SavedRows(header, data)|
  {
    SaveRecordsAreRows(header, data);
    PlainRowsText(SavedRows(header, data));
    PlainRowsLineCount(SavedRows(header, data));
  }

  class Csv {
    const file: File
    var header: Option<seq<string>>
    var data: Option<seq<seq<string>>>

    constructor (file: File)
      modifies file
      ensures this.file == file && header == None && data == None
      ensures file.fileType == "csv"
      ensures file.mode == old(file.mode) && file.handle == old(file.handle)
    {
      this.file := file;
      header := None;
      data := None;
      new;
      file.SetType("csv");
    }

    method SetHeader(header: seq<string> := [])
      modifies this`header
      ensures this.header == Some(header)
    {
      this.header := Some(header);
    }

    function GetHeader(): Option<seq<string>>
      reads this
    {
      header
    }

    method SetData(data: seq<seq<string>> := [])
      modifies this`data
      ensures this.data == Some(data)
    {
      this.data := Some(data);
    }

    function GetData(): Option<seq<seq<string>>>
      reads this
    {
      data
    }

    /** One write of the header if it is set and not empty; nothing otherwise. */
    method WriteHeader() returns (r: Outcome<Error>)
      requires NonEmpty(header) ==> file.Ready()
      modifies file.disk
      ensures var writes := NonEmpty(header) && old(file.IsWritable());
        && r == (if NonEmpty(header) && !old(file.IsWritable()) then Fail(ReadOnly) else Pass)
        && file.disk.files == (if writes then file.Appended(old(file.disk.files), [Row(header.value)]) else old(file.disk.files))
      ensures file.IsWritable() == old(file.IsWritable())
    {
      r := Pass;
      if NonEmpty(header) {
        r := file.Write(Row(header.value));
      }
    }

    /** One `writeArray` of the body if it is set and not empty; nothing otherwise. */
    method WriteData() returns (r: Outcome<Error>)
      requires NonEmpty(data) ==> file.Ready()
      modifies file.disk
      ensures var writes := NonEmpty(data) && old(file.IsWritable());
        && r == (if NonEmpty(data) && !old(file.IsWritable()) then Fail(ReadOnly) else Pass)
        && file.disk.files == (if writes then file.Appended(old(file.disk.files), Rows(data.value)) else old(file.disk.files))
      ensures file.IsWritable() == old(file.IsWritable())
    {
      r := Pass;
      if NonEmpty(data) {
        r := file.WriteArray(Rows(data.value));
      }
    }

    /**
     * The header, then the body. A handle that may not write raises ReadOnly
     * at the first part there is to write, and the file is left as it was.
     */
    method Save() returns (r: Outcome<Error>)
      requires NonEmpty(header) || NonEmpty(data) ==> file.Ready()
      modifies file.disk
      ensures var records := SaveRecords(header, data);
        if old(file.IsWritable()) then
          r == Pass && file.disk.files == file.Appended(old(file.disk.files), records)
        else
          r == (if records == [] then Pass else Fail(ReadOnly)) && file.disk.files == old(file.disk.files)
    {
      ghost var before := file.disk.files;
      r := WriteHeader();
      if r.Fail? {
        return;
      }
      r := WriteData();
      if file.IsWritable() {
        var head := if NonEmpty(header) then [Row(header.value)] else [];
        var body := if NonEmpty(data) then Rows(data.value) else [];
        assert SaveRecords(header, data) == head + body;
        file.AppendedNothing(before);
        file.AppendedConcat(before, head, body);
        if head == [] {
          assert head + body == body;
        }
        if body == [] {
          file.AppendedNothing(file.Appended(before, head));
          assert head + body == head;
        }
      }
    }
  }
}
