/**
 * The repository's unit tests for `File` as client code: each such method
 * builds the test's filesystem, runs the test's calls and returns what the
 * test compares, and its postcondition is the test's expectation, proved from
 * the contracts of `File` alone. `CloseScenario`,
 * `CreatedFileValidityScenario` and `AppendAfterWriteScenario` are further
 * properties of the model that no test states.
 */
module Scenarios {
  import opened Wrappers
  import opened OS
  import opened FileIO
  import opened CsvIO
  import RowFormat

  const TestTxt: string := "vfs://fs/test.txt"
  const NewTxt: string := "vfs://fs/newfile.txt"
  const TestCsv: string := "vfs://fs/test.csv"
  const Test2Csv: string := "vfs://fs/test2.csv"
  const StartText: string := "this is the contents of the file"

  predicate IsTestWord(w: string) {
    || w == "one" || w == "two" || w == "three" || w == "four" || w == "five" || w == "six"
    || w == "row1col1" || w == "row1col3"
  }

  lemma PlainWord(w: string)
    requires IsTestWord(w)
    ensures RowFormat.Field(w) == w
  {
    RowFormat.NeedsEnclosureIff(w);
  }

  lemma WordsLine(row: seq<string>, line: string)
    requires |row| == 3 && RowFormat.Field(row[0]) == row[0] && RowFormat.Field(row[1]) == row[1] && RowFormat.Field(row[2]) == row[2]
    requires line == row[0] + "," + row[1] + "," + row[2] + "\n"
    ensures RowFormat.Line(row) == line
  {
    assert row == [row[0], row[1], row[2]];
    RowFormat.ThreeFieldLine(row[0], row[1], row[2]);
  }

  /** The rows the tests write hold only plain words, so each is written as the words joined with commas. */
  lemma TestRowLine(row: seq<string>, line: string)
    requires |row| == 3 && IsTestWord(row[0]) && IsTestWord(row[1]) && IsTestWord(row[2])
    requires line == row[0] + "," + row[1] + "," + row[2] + "\n"
    ensures RowFormat.Line(row) == line
  {
    PlainWord(row[0]);
    PlainWord(row[1]);
    PlainWord(row[2]);
    WordsLine(row, line);
  }

  lemma TwoRowsEncoding(x: seq<string>, y: seq<string>)
    ensures EncodeAll(PutCsv, [Row(x), Row(y)]) == RowFormat.Line(x) + RowFormat.Line(y)
  {
    assert [Row(x), Row(y)] == [Row(x)] + [Row(y)];
    EncodeAllConcat(PutCsv, [Row(x)], [Row(y)]);
    EncodeAllOne(PutCsv, Row(x));
    EncodeAllOne(PutCsv, Row(y));
  }

  /** The test's single row is written as "one,two,three" and a newline. */
  lemma OneRowText(x: seq<string>)
    requires x == ["one", "two", "three"]
    ensures RowFormat.Line(x) == "one,two,three\n"
  {
    TestRowLine(x, "one,two,three\n");
  }

  /** The test's two rows are written as its two lines. */
  lemma TwoRowsText(x: seq<string>, y: seq<string>)
    requires x == ["one", "two", "three"] && y == ["four", "five", "six"]
    ensures RowFormat.Line(x) + RowFormat.Line(y) == "one,two,three\nfour,five,six\n"
  {
    TestRowLine(x, "one,two,three\n");
    TestRowLine(y, "four,five,six\n");
    assert "one,two,three\n" + "four,five,six\n" == "one,two,three\nfour,five,six\n";
  }

  /** The test filesystem: a writable directory holding test.txt with the start text. */
  method SetUpDisk() returns (disk: Disk)
    ensures fresh(disk)
    ensures disk.files == map[TestTxt := StartText]
    ensures disk.permitted == {TestTxt, NewTxt, TestCsv, Test2Csv}
  {
    disk := new Disk(map[TestTxt := StartText], {TestTxt, NewTxt, TestCsv, Test2Csv});
  }

  /** An existing file opens for reading; a missing one opens for writing. */
  method OpenFileScenario() returns (existingOpen: bool, createdOpen: bool)
    ensures existingOpen && createdOpen
  {
    var disk := SetUpDisk();
    var file := new File(disk, TestTxt);
    file.Open();
    existingOpen := file.IsOpen();
    var created := new File(disk, NewTxt, "write");
    created.Open();
    createdOpen := created.IsOpen();
  }

  /** Writing to a file opened in the default read mode raises ReadOnly and changes nothing. */
  method ReadOnlyWriteScenario() returns (r: Outcome<Error>, contents: Option<string>)
    ensures r == Fail(ReadOnly) && contents == Some(StartText)
  {
    var disk := SetUpDisk();
    var file := new File(disk, TestTxt);
    file.Open();
    r := file.Write(Text("hello"));
    contents := file.GetContents();
  }

  /** So does writing an array of records. */
  method ReadOnlyWriteArrayScenario() returns (r: Outcome<Error>, contents: Option<string>)
    ensures r == Fail(ReadOnly) && contents == Some(StartText)
  {
    var disk := SetUpDisk();
    var file := new File(disk, TestTxt);
    file.Open();
    r := file.WriteArray([Text("hello"), Text("foo")]);
    contents := file.GetContents();
  }

  /** The start file exists and is not empty. */
  method ValidScenario() returns (valid: bool)
    ensures valid
  {
    var disk := SetUpDisk();
    var file := new File(disk, TestTxt);
    file.Open();
    valid := file.IsValid();
  }

  /** The contents are read without opening the handle. */
  method GetContentsScenario() returns (contents: Option<string>)
    ensures contents == Some(StartText)
  {
    var disk := SetUpDisk();
    var file := new File(disk, TestTxt);
    contents := file.GetContents();
  }

  /** A csv file opened for writing is writable and takes one row as its one encoded line. */
  method CsvWriteScenario(row: seq<string>) returns (writable: bool, contents: Option<string>)
    ensures writable && contents == Some(RowFormat.Line(row))
  {
    var disk := SetUpDisk();
    var file := new File(disk, TestCsv, "write", "csv");
    file.Open();
    writable := file.IsWritable();
    var _ := file.Write(Row(row));
    EmittedOne(file.handle, PutCsv, Row(row));
    assert "" + RowFormat.Line(row) == RowFormat.Line(row);
    contents := file.GetContents();
  }

  /** Closing a handle that was never opened, and closing one twice, leave it closed. */
  method CloseScenario() returns (neverOpened: bool, closedTwice: bool, contents: Option<string>)
    ensures !neverOpened && !closedTwice && contents == Some(StartText)
  {
    var disk := SetUpDisk();
    var file := new File(disk, TestTxt, "write");
    file.Close();
    neverOpened := file.IsOpen();
    var other := new File(disk, TestTxt, "append");
    other.Open();
    other.Close();
    other.Close();
    closedTwice := other.IsOpen();
    contents := other.GetContents();
  }

  /**
   * A file just created for writing is empty and so not valid; a non-empty
   * write makes it valid. The model has no stat cache, so the second query
   * sees the new size.
   */
  method CreatedFileValidityScenario(text: string) returns (validWhenCreated: bool, validAfterWrite: bool)
    requires text != ""
    ensures !validWhenCreated && validAfterWrite
  {
    var disk := SetUpDisk();
    var file := new File(disk, NewTxt, "write");
    file.Open();
    validWhenCreated := file.IsValid();
    var _ := file.Write(Text(text));
    EmittedOne(file.handle, FWrite, Text(text));
    validAfterWrite := file.IsValid();
  }

  /** Appending after writing switches the mode once and loses none of what was written. */
  method AppendAfterWriteScenario(x: string, y: string, z: string) returns (contents: Option<string>, mode: string)
    ensures contents == Some(x + y + z) && mode == "a"
  {
    var disk := SetUpDisk();
    var file := new File(disk, NewTxt, "write");
    file.Open();
    var _ := file.Write(Text(x));
    EmittedOne(file.handle, FWrite, Text(x));
    assert disk.files[NewTxt] == x;
    var _ := file.Append(Text(y));
    assert disk.files[NewTxt] == x + y;
    EmittedOne(file.handle, FWrite, Text(z));
    var _ := file.Append(Text(z));
    contents := file.GetContents();
    mode := file.GetMode();
  }

  /** Several rows become one line each, in order. */
  method CsvWriteArrayScenario(x: seq<string>, y: seq<string>) returns (writable: bool, contents: Option<string>)
    ensures writable && contents == Some(RowFormat.Line(x) + RowFormat.Line(y))
  {
    var disk := SetUpDisk();
    var file := new File(disk, Test2Csv, "write", "csv");
    file.Open();
    writable := file.IsWritable();
    var _ := file.WriteArray([Row(x), Row(y)]);
    TwoRowsEncoding(x, y);
    assert "" + (RowFormat.Line(x) + RowFormat.Line(y)) == RowFormat.Line(x) + RowFormat.Line(y);
    contents := file.GetContents();
  }

  /** Opening for writing truncates; a text write then leaves exactly the text. */
  method TextWriteScenario() returns (contents: Option<string>)
    ensures contents == Some("one two three")
  {
    var disk := SetUpDisk();
    var file := new File(disk, TestTxt, "write");
    file.Open();
    assert file.handle == Some(Mode.Write);
    assert disk.files[TestTxt] == "";
    assert file.IsWritable();
    assert file.GetWriteFunction() == FWrite;
    var _ := file.Write(Text("one two three"));
    assert disk.files[TestTxt] == "" + Emitted(file.handle, FWrite, [Text("one two three")]);
    EmittedOne(file.handle, FWrite, Text("one two three"));
    assert "" + "one two three" == "one two three";
    contents := file.GetContents();
  }

  /** Appending keeps what the file held and adds the text at the end. */
  method AppendScenario() returns (contents: Option<string>)
    ensures contents == Some(StartText + "\nHello World\n")
  {
    var disk := SetUpDisk();
    var file := new File(disk, TestTxt, "append");
    file.Open();
    var _ := file.Append(Text("\nHello World\n"));
    EmittedOne(file.handle, FWrite, Text("\nHello World\n"));
    contents := file.GetContents();
  }
}

/** The row writer's unit tests, and properties of `save` beside them. */
module CsvScenarios {
  import Scenarios
  import opened Wrappers
  import opened OS
  import opened FileIO
  import opened CsvIO
  import RowFormat

  const TestCsv := Scenarios.TestCsv
  const Header: seq<string> := ["col1", "col2", "col3"]
  const Data: seq<seq<string>> := [
    ["row1col1", "row1, col2", "row1col3"],
    ["row2col1", "row2, col2", "row2col3"],
    ["row3col1", "row3, col2", "row3col3"]
  ]

  /** What the tests compare against: each row put through the row encoder, one after the other. */
  function CsvString(rows: seq<seq<string>>): string {
    if rows == [] then "" else CsvString(rows[..|rows| - 1]) + RowFormat.Line(rows[|rows| - 1])
  }

  /** Writing rows as records gives the tests' expected text, for any rows. */
  lemma {:induction false} RowsAreCsvString(rows: seq<seq<string>>)
    ensures EncodeAll(PutCsv, Rows(rows)) == CsvString(rows)
  {
    if rows != [] {
      var init, last := rows[..|rows| - 1], rows[|rows| - 1];
      assert rows == init + [last];
      RowsAreCsvString(init);
      RowsConcat(init, [last]);
      assert Rows([last]) == [Row(last)];
      EncodeAllConcat(PutCsv, Rows(init), [Row(last)]);
      EncodeAllOne(PutCsv, Row(last));
    }
  }

  /** The test setup: a csv path opened for writing, which creates it empty. */
  method SetUpFile() returns (file: File)
    ensures fresh(file) && fresh(file.disk)
    ensures file.disk.files == map[TestCsv := ""] && file.disk.permitted == {TestCsv}
    ensures file.path == TestCsv && file.mode == Mode.Write && file.handle == Some(Mode.Write) && file.Ready()
  {
    var disk := new Disk(map[], {TestCsv});
    file := new File(disk, TestCsv, "write");
    file.Open();
  }

  method SetAndGetHeaderScenario(header: seq<string>) returns (got: Option<seq<string>>)
    ensures got == Some(header)
  {
    var file := SetUpFile();
    var csv := new Csv(file);
    csv.SetHeader(header);
    got := csv.GetHeader();
  }

  method SetAndGetDataScenario(data: seq<seq<string>>) returns (got: Option<seq<seq<string>>>)
    ensures got == Some(data)
  {
    var file := SetUpFile();
    var csv := new Csv(file);
    csv.SetData(data);
    got := csv.GetData();
  }

  /** A non-empty header is written as its one encoded row. */
  method WriteHeaderScenario(header: seq<string>) returns (contents: Option<string>)
    requires header != []
    ensures contents == Some(CsvString([header]))
  {
    var file := SetUpFile();
    var csv := new Csv(file);
    csv.SetHeader(header);
    var _ := csv.WriteHeader();
    RowsAreCsvString([header]);
    assert Rows([header]) == [Row(header)];
    assert "" + CsvString([header]) == CsvString([header]);
    contents := file.GetContents();
  }

  /** A body is written as its encoded rows in order; an empty one writes nothing. */
  method WriteDataScenario(data: seq<seq<string>>) returns (contents: Option<string>)
    ensures contents == Some(CsvString(data))
  {
    var file := SetUpFile();
    var csv := new Csv(file);
    csv.SetData(data);
    var _ := csv.WriteData();
    RowsAreCsvString(data);
    assert "" + CsvString(data) == CsvString(data);
    contents := file.GetContents();
  }

  /** `save` writes the header's text, then the body's. */
  method SaveScenario(header: seq<string>, data: seq<seq<string>>) returns (contents: Option<string>)
    requires header != []
    ensures contents == Some(CsvString([header]) + CsvString(data))
  {
    var file := SetUpFile();
    var csv := new Csv(file);
    csv.SetHeader(header);
    csv.SetData(data);
    var _ := csv.Save();
    SaveRecordsAreRows(Some(header), Some(data));
    assert SavedRows(Some(header), Some(data)) == [header] + data;
    RowsConcat([header], data);
    EncodeAllConcat(PutCsv, Rows([header]), Rows(data));
    RowsAreCsvString([header]);
    RowsAreCsvString(data);
    assert "" + (CsvString([header]) + CsvString(data)) == CsvString([header]) + CsvString(data);
    contents := file.GetContents();
  }

  /** On a file opened for reading, `save` with a header raises ReadOnly and the file keeps its contents. */
  method ReadOnlySaveScenario(existing: string, header: seq<string>, data: seq<seq<string>>)
    returns (r: Outcome<Error>, contents: Option<string>)
    requires header != []
    ensures r == Fail(ReadOnly) && contents == Some(existing)
  {
    var disk := new Disk(map[TestCsv := existing], {TestCsv});
    var file := new File(disk, TestCsv);
    file.Open();
    var csv := new Csv(file);
    csv.SetHeader(header);
    csv.SetData(data);
    r := csv.Save();
    contents := file.GetContents();
  }

  lemma QuotedDataField(w: string)
    requires w == "row1, col2"
    ensures RowFormat.Field(w) == "\"row1, col2\""
  {
    RowFormat.EnclosedField(w, 4);
  }

  /** The first data row's text, with its pieces passed in so that the solver does not unfold the encoder. */
  lemma FirstDataRowText(a: string, b: string, c: string)
    requires a == "row1col1" && b == "\"row1, col2\"" && c == "row1col3"
    ensures a + "," + b + "," + c + "\n" == "row1col1,\"row1, col2\",row1col3\n"
  {
  }

  /** The test data's field with a comma and a space in it is written enclosed in quotes. */
  lemma FirstDataRowLine()
    ensures RowFormat.Line(Data[0]) == "row1col1,\"row1, col2\",row1col3\n"
  {
    var row := Data[0];
    assert row == [row[0], row[1], row[2]];
    RowFormat.ThreeFieldLine(row[0], row[1], row[2]);
    Scenarios.PlainWord(row[0]);
    QuotedDataField(row[1]);
    Scenarios.PlainWord(row[2]);
    FirstDataRowText(RowFormat.Field(row[0]), RowFormat.Field(row[1]), RowFormat.Field(row[2]));
  }
}
