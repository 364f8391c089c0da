# file-io in Dafny

A model of the PHP library `FileIO`. It has two parts:

- `FileIO\File` is a mode-aware handle on one file. It can open, close, write one record, write many records, append, read the whole file back, and answer existence, size, writability and validity queries.
- `FileIO\CSV` is a row writer bound to a `File`. It forces the file's type to `csv`, keeps an optional header and an optional body of rows, and saves the header first and then the body.

The operating system is replaced by a `Disk`. A `Disk` maps each existing path to its contents and holds the set of paths the process may open for writing. `fopen` and `fwrite` are stated over that map:

- `r` opens only a path that exists.
- `w` creates the file or truncates it.
- `a` creates the file or keeps its contents.
- A write adds text at the end of the file.

`File` is a class. Its methods update the `mode`, `fileType` and `handle` fields:

- `handle` records the mode the descriptor was opened with.
- `ReadOnlyException` becomes the error result `Fail(ReadOnly)`.
- `CSV` is the class `Csv`, whose setters assign `header` and `data`.

Behaviour worth knowing:

- A failed `open` stores `false` and raises nothing, so the handle stays closed.
- A failed read returns `false`, modelled as `None`.
- The default content type is "txt".
- The row writer forces the type "csv".
- Type lookup goes through a fixed table with a "default" entry.

The files:

- `wrappers.dfy`: `Option` and `Outcome`.
- `os.dfy`: module `OS`. It holds the access modes, the pure `FOpen`, and the `Disk` class.
- `row_format.dfy`: module `RowFormat`. This is the row encoder used for type `csv`. It stands in for PHP's `fputcsv`, whose source is not part of this model.
- `row_parse.dfy`: module `RowParse`. It reads one encoded row back. It is the inverse that the encoder is proved against.
- `file.dfy`: module `FileIO`. It holds the write-function table, mode names, record encodings and the `File` class.
- `csv.dfy`: module `CsvIO`. It holds what `save` writes and the `Csv` class.
- `scenarios.dfy`: modules `Scenarios` and `CsvScenarios`. Most of these methods restate the repository's unit tests as client methods. Each builds the test's filesystem and makes the test's calls. Its postcondition is the test's assertion, proved from the class contracts alone. Most of them are stated for all inputs rather than only the test's literals. Four more state extra properties that no test covers: `CloseScenario`, `CreatedFileValidityScenario`, `AppendAfterWriteScenario` and `CsvScenarios.ReadOnlySaveScenario`.

## Model

| member | source | states |
|---|---|---|
| FileIO.ModeOf | src/FileIO/File.php:109-122 | "append" gives append mode and "write" gives write mode; every other name, and only those, gives read mode |
| FileIO.File.SetMode | src/FileIO/File.php:109-122 | the mode becomes the normalisation of the name given; nothing else changes |
| FileIO.File.GetMode | src/FileIO/File.php:129-132 | the letter is "a" exactly in append mode, "w" exactly in write mode and "r" exactly in read mode |
| OS.Letter | src/FileIO/File.php:113-119 | each mode has its own one-letter fopen name |
| FileIO.File.constructor | src/FileIO/File.php:54-59 | the path, the normalised mode and the type are stored; the defaults are "read" and "txt"; the handle starts closed and no I/O happens |
| FileIO.File.SetType | src/FileIO/File.php:139-142 | the type becomes the given string; nothing else changes |
| FileIO.WriteFunctionFor | src/FileIO/File.php:44-47 | the table selects the row writer for type "csv" and only for it; every other type falls back to the verbatim writer under "default" |
| FileIO.File.GetWriteFunction | src/FileIO/File.php:191-196 | the handle uses the row encoder exactly when its type is "csv", and the verbatim writer for every other type, including the default "txt" |
| OS.FOpen | src/FileIO/File.php:161 | fopen in mode r succeeds only on an existing path and changes nothing; w and a succeed on a writable path; w truncates; a creates the file empty or keeps its contents; other files are untouched |
| OS.Disk.Open | src/FileIO/File.php:161 | the filesystem changes exactly as FOpen says, and the result reports whether a descriptor was obtained |
| OS.Disk.Write | src/FileIO/File.php:229 | a descriptor opened for writing puts the text at the end of the file; one opened for reading writes nothing |
| FileIO.File.Open | src/FileIO/File.php:159-163 | the handle is open with the current mode exactly when fopen succeeds, including w on a path that does not exist yet; the filesystem changes as FOpen says |
| FileIO.File.Close | src/FileIO/File.php:168-174 | afterwards the handle is closed, whether or not it was open; only the handle changes, so a second close has no effect |
| FileIO.File.GetContents | src/FileIO/File.php:181-184 | the current contents of the path, or None when it does not exist; as a function it reads the state and changes nothing, open or not |
| OS.Disk.IsWritable | src/FileIO/File.php:290 | is_writable is false for a missing path; a writable path opens for appending with every file unchanged, and it is writable exactly when it exists and opens for writing |
| FileIO.File.IsWritable | src/FileIO/File.php:288-291 | never writable in read mode, whatever the path; otherwise writable exactly when the path exists and may be written |
| FileIO.File.GetFileSize | src/FileIO/File.php:272-275 | the length of the contents when the path exists, else None |
| FileIO.File.IsValid | src/FileIO/File.php:262-265 | valid exactly when the file exists and its size is above zero, that is when it exists with non-empty contents |
| FileIO.File.Write | src/FileIO/File.php:225-234 | a handle that may not write raises ReadOnly and leaves every file as it was; otherwise it succeeds, and this path gains at its end what the descriptor emits: the record's encoding through a w or a descriptor, nothing through an r one; writability is unchanged |
| FileIO.File.WriteArray | src/FileIO/File.php:206-216 | writability is checked once, before any write: failure raises ReadOnly with no write at all; success adds, at the end of this path, what the descriptor emits for the records: their encodings concatenated in sequence order through a w or a descriptor, nothing through an r one (loop proved against EncodeAll) |
| FileIO.File.Append | src/FileIO/File.php:243-252 | afterwards the mode is append; from another mode the handle is closed, switched and reopened, and on success the previous contents are kept with the record's encoding added at the end; if the reopen fails, ReadOnly is raised, the files are unchanged, the handle is left closed and the mode becomes append |
| FileIO.File.Appended | src/FileIO/File.php:212-213 | adding the text of a batch of writes changes only this path and keeps every key |
| FileIO.File.AppendedConcat | src/FileIO/File.php:210-214 | the writes of two batches one after the other leave the file as one write of both batches |
| FileIO.Encode | src/FileIO/File.php:228-229 | only a record of the kind the write function takes writes anything; fwrite writes a scalar verbatim; the row writer writes a row as one line ending in "\n" |
| FileIO.EncodeAllConcat | src/FileIO/File.php:212-214 | writing two batches one after the other writes the concatenation of their encodings |
| FileIO.EmittedOne | src/FileIO/File.php:228-229 | one write adds exactly that record's encoding through a descriptor that writes, and nothing through one that does not |
| RowFormat.Line | src/FileIO/File.php:45 | every encoded row ends in the line terminator |
| RowFormat.NeedsEnclosureIff | src/FileIO/File.php:45 | a field is written enclosed exactly when it holds a delimiter, quote, backslash, line break, tab or space |
| RowFormat.EscapedWithoutEnclosure | src/FileIO/File.php:45 | a field with no quote in it is escaped as itself |
| RowFormat.EnclosedField | src/FileIO/File.php:45 | a field with a special character and no quote is written between two quotes |
| RowFormat.PlainJoinedFields | tests/FileIO/FileTest.php:69-81 | fields that need no enclosing are written as PHP's implode of them with commas |
| RowFormat.PlainLine | tests/FileIO/FileTest.php:69-81 | for fields with no special character, one row encodes to the fields joined with "," and then "\n" |
| RowFormat.ThreeFieldLine | tests/FileIO/CSVTest.php:70-79 | a row of three fields is the three encoded fields with a delimiter between each pair and one line end |
| RowFormat.PlainLineHasOneNewline | tests/FileIO/FileTest.php:83-99 | such a row is exactly one terminated line |
| RowParse.LineRoundTrip | src/FileIO/File.php:45 | every non-empty row, whatever its fields hold, reads back from its encoding as itself |
| RowParse.ParseFieldOfEncoded | src/FileIO/File.php:45 | every encoded field, enclosed or not, reads back as itself up to the next delimiter or line end |
| RowParse.ParseEscaped | src/FileIO/File.php:45 | the body of an enclosed field, with its quotes doubled, reads back as the original field |
| CsvIO.Csv.constructor | src/FileIO/CSV.php:38-42 | the bound file's type becomes "csv", overriding the old one; its mode and handle are unchanged; the header and body start unset |
| CsvIO.Csv.SetHeader | src/FileIO/CSV.php:70-74 | the header becomes the given row; only the header changes |
| CsvIO.Csv.SetData | src/FileIO/CSV.php:92-96 | the body becomes the given rows; only the body changes |
| CsvIO.Csv.WriteHeader | src/FileIO/CSV.php:113-119 | a set, non-empty header is one write of that row, with write's ReadOnly guard; an empty or unset header leaves the file unchanged and succeeds |
| CsvIO.Csv.WriteData | src/FileIO/CSV.php:126-132 | a set, non-empty body is one writeArray of its rows, one encoded line per row in order, with writeArray's guard; an empty or unset body leaves the file unchanged |
| CsvIO.Csv.Save | src/FileIO/CSV.php:138-143 | on a writable handle the file gains what the descriptor emits for the header and then the body's rows (their encodings through a w or a descriptor, nothing through an r one); otherwise ReadOnly is raised if either part has something to write, and the file is unchanged |
| CsvIO.Rows | src/FileIO/CSV.php:129 | each body row becomes one row record, in order |
| CsvIO.SaveRecords | src/FileIO/CSV.php:138-143 | save writes the header record first when there is one, then every body row in order, skipping each empty or unset part |
| CsvIO.SaveRecordsAreRows | src/FileIO/CSV.php:138-143 | the records save writes are the header row followed by the body rows, and nothing else |
| CsvIO.SaveHeaderFirst | src/FileIO/CSV.php:138-143 | the text save writes is the header's encoding, if any, followed by the body's, if any |
| CsvIO.PlainRowsText | tests/FileIO/FileTest.php:83-99 | rows with no special character are written as each row imploded with commas, plus PHP_EOL (which is "\n" on Unix), one after another |
| CsvIO.PlainRowsLineCount | tests/FileIO/FileTest.php:83-99 | n such rows are written as exactly n terminated lines |
| CsvIO.PlainSaveText | tests/FileIO/CSVTest.php:59-68 | for plain fields, save writes one imploded line per saved row, and exactly that many line terminators |
| Scenarios.OpenFileScenario | tests/FileIO/FileTest.php:25-34 | an existing file opens in read mode, and a missing file opens in write mode |
| Scenarios.ReadOnlyWriteScenario | tests/FileIO/FileTest.php:39-44 | write on a read-mode handle raises ReadOnly and the file keeps its text |
| Scenarios.ReadOnlyWriteArrayScenario | tests/FileIO/FileTest.php:49-54 | writeArray on a read-mode handle raises ReadOnly and the file keeps its text |
| Scenarios.ValidScenario | tests/FileIO/FileTest.php:56-60 | the non-empty start file is valid |
| Scenarios.GetContentsScenario | tests/FileIO/FileTest.php:62-67 | the contents read from an unopened handle are the start text |
| Scenarios.CsvWriteScenario | tests/FileIO/FileTest.php:69-81 | a csv handle opened for writing is writable, and any row given to write is written as its one encoded line |
| Scenarios.OneRowText | tests/FileIO/FileTest.php:75-80 | the test's row is written as "one,two,three\n", its words imploded with commas and then PHP_EOL, which is "\n" on Unix |
| Scenarios.CsvWriteArrayScenario | tests/FileIO/FileTest.php:83-99 | any two rows given to writeArray on a csv handle are written as their two encoded lines, in order |
| Scenarios.TwoRowsText | tests/FileIO/FileTest.php:89-98 | the test's two rows are written as "one,two,three\nfour,five,six\n" |
| Scenarios.TestRowLine | tests/FileIO/FileTest.php:74-98 | each row the tests write needs no quoting and is written as its words joined with "," and then "\n" |
| Scenarios.TextWriteScenario | tests/FileIO/FileTest.php:101-110 | write mode truncates, and a verbatim write leaves exactly the data |
| Scenarios.AppendScenario | tests/FileIO/FileTest.php:112-122 | append keeps the start text and adds the new text after it |
| Scenarios.CloseScenario | src/FileIO/File.php:168-174 | closing an unopened handle, or closing one twice, leaves it closed and the file untouched |
| Scenarios.CreatedFileValidityScenario | src/FileIO/File.php:262-265 | a property of the model, whose queries always see the current contents: a file just created for writing is empty and so not valid; a non-empty write makes it valid |
| Scenarios.AppendAfterWriteScenario | src/FileIO/File.php:243-252 | after a write-mode write and two appends, the file holds all three texts in order and the mode reads "a" |
| CsvScenarios.RowsAreCsvString | tests/FileIO/CSVTest.php:70-79 | writing rows as records gives the tests' expected text, each row through the encoder in turn, for any rows |
| CsvScenarios.SetAndGetHeaderScenario | tests/FileIO/CSVTest.php:29-34 | getHeader returns the header just set |
| CsvScenarios.SetAndGetDataScenario | tests/FileIO/CSVTest.php:36-41 | getData returns the rows just set |
| CsvScenarios.WriteHeaderScenario | tests/FileIO/CSVTest.php:43-49 | a non-empty header is written as its one encoded row |
| CsvScenarios.WriteDataScenario | tests/FileIO/CSVTest.php:51-57 | a body is written as its encoded rows in order |
| CsvScenarios.SaveScenario | tests/FileIO/CSVTest.php:59-68 | save writes the header's encoding and then the body's |
| CsvScenarios.ReadOnlySaveScenario | src/FileIO/CSV.php:113-132 | on a read-mode file, save with a header raises ReadOnly and the file keeps its contents |
| CsvScenarios.FirstDataRowLine | tests/FileIO/CSVTest.php:17-21 | the test's field "row1, col2" is written enclosed in quotes, and the other fields of its row as they are |

## Left out

- Real OS primitives (`fopen`, `fwrite`, `fclose`, `file_get_contents`, `filesize`, `file_exists`, `is_writable`): the `Disk` replaces them. Every existing file can be read. Any file may be written whose path is in `permitted`. `is_writable` is false for a missing path, as in PHP. Sizes count characters, not bytes.
- PHP's stat cache is not modelled. PHP keeps the results of `filesize`, `file_exists` and `is_writable` per path until `clearstatcache()`, and `fwrite` does not clear them. The model's queries always see the current contents.
- The vfsStream setup of the tests becomes a `Disk` built in each scenario. Its `permitted` set lists the paths the test uses.
- `fputcsv`'s exact rules: its source is not part of this model. `RowFormat` encloses a field that holds a delimiter, quote, backslash, CR, LF, tab or space, and doubles the quotes inside it. It does not model `fputcsv`'s escape character, after which a quote is not doubled. Only the plain-field case is claimed to match `fputcsv`, as the tests use it. The line terminator is "\n".
- FileIO.File.Write: requires `Ready()`, which says an open handle before any write that gets past the guard. Writing through a handle that was never opened, or whose open failed, is not modelled. In PHP that is a warning or a TypeError.
- FileIO.File.WriteArray: requires `Ready()` only when there is a record to write, as `Write` does. An empty list on an unopened handle completes with no write, as in PHP.
- FileIO.File.Append: requires `Ready()` only when the mode is already append. From any other mode the handle is reopened first.
- CsvIO.Csv.WriteHeader, CsvIO.Csv.WriteData, CsvIO.Csv.Save: require the bound file's `Ready()` only when a part set and non-empty reaches `write` or `writeArray`. That precondition comes from `Write`.
- Records of the wrong kind for the write function (an array given to `fwrite`, a scalar given to `fputcsv`) write nothing. That is PHP 5 and 7 behaviour. PHP 8's TypeError is not modelled.
- Multiple handles on one path and concurrency: every write goes to the end of the file. That matches a single handle per path. Partial or failing OS writes are not modelled either: a write that passes the guard always completes.
- `setFile`/`getFile` (src/FileIO/File.php:89-102): the path is fixed when the handle is constructed. Moving an open handle to another path is not modelled.
- `getType`, `getHeader`, `getData`, `exists` and `isOpen` only return a field or test one, so they have no contract of their own. The scenarios and the other members' contracts cover them.
- The destructors rely on garbage-collection finalisation. `File`'s closes the handle (src/FileIO/File.php:79-82), which an explicit `Close` covers. `CSV`'s drops its file reference (src/FileIO/CSV.php:47-50), which has no counterpart here.
- The `newInstance` factories and the fluent `return $this`: each method returns its `Outcome`. A raised exception is `Fail(ReadOnly)`.
- The exception's message, code and previous-exception arguments (src/FileIO/Exceptions/ReadOnlyException.php:9-15) are not modelled. An error is identified by its kind alone.
