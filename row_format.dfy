/**
 * The row encoding used for the `csv` content type: a stand-in for PHP's
 * `fputcsv` with its default delimiter, enclosure and escape character.
 * Fields that contain a special character are enclosed in quotes with the
 * quotes inside them doubled; the others are written as they are.
 */
module RowFormat {

  const Delimiter: char := ','
  const Enclosure: char := '"'
  const EscapeChar: char := '\\'
  /** fputcsv ends every row with "\n", whatever PHP_EOL is on the platform. */
  const LineEnd: string := "\n"

  /** Characters that make a field be written enclosed. */
  predicate IsSpecial(c: char) {
    c == Delimiter || c == Enclosure || c == EscapeChar || c == '\n' || c == '\r' || c == '\t' || c == ' '
  }

  predicate NeedsEnclosure(field: string) {
    |field| > 0 && (IsSpecial(field[0]) || NeedsEnclosure(field[1..]))
  }

  lemma {:induction false} NeedsEnclosureIff(field: string)
    ensures NeedsEnclosure(field) <==> exists i :: 0 <= i < |field| && IsSpecial(field[i])
  {
    if |field| > 0 {
      var tail := field[1..];
      NeedsEnclosureIff(tail);
      if NeedsEnclosure(tail) {
        var i :| 0 <= i < |tail| && IsSpecial(tail[i]);
        assert IsSpecial(field[i + 1]);
      }
      if i :| 0 <= i < |field| && IsSpecial(field[i]) {
        if i > 0 {
          assert IsSpecial(tail[i - 1]);
        }
      }
    }
  }

  /** The body of an enclosed field: every enclosure character doubled. */
  function Escaped(field: string): string {
    if field == [] then []
    else (if field[0] == Enclosure then [Enclosure, Enclosure] else [field[0]]) + Escaped(field[1..])
  }

  /** A field with no enclosure character in it is escaped as itself. */
  lemma {:induction false} EscapedWithoutEnclosure(field: string)
    requires Enclosure !in field
    ensures Escaped(field) == field
  {
    if field != [] {
      assert field == [field[0]] + field[1..];
      EscapedWithoutEnclosure(field[1..]);
    }
  }

  /** One field as it appears in a written row. */
  function Field(field: string): string {
    if NeedsEnclosure(field) then [Enclosure] + Escaped(field) + [Enclosure] else field
  }

  /** A field with a special character and no quote in it is written between two quotes. */
  lemma EnclosedField(field: string, i: nat)
    requires i < |field| && IsSpecial(field[i]) && Enclosure !in field
    ensures Field(field) == [Enclosure] + field + [Enclosure]
  {
    NeedsEnclosureIff(field);
    EscapedWithoutEnclosure(field);
  }

  /** The fields of a row, each encoded, separated by the delimiter. */
  function JoinedFields(fields: seq<string>): string {
    if |fields| == 0 then ""
    else if |fields| == 1 then Field(fields[0])
    else Field(fields[0]) + [Delimiter] + JoinedFields(fields[1..])
  }

  /** One row as the row strategy writes it: the joined fields and one line terminator. */
  function Line(fields: seq<string>): (r: string)
    ensures |r| > 0 && r[|r| - 1] == '\n'
  {
    JoinedFields(fields) + LineEnd
  }

  /** PHP's `implode`, folded from the right end: the reference the tests compare rows against. */
  function Implode(glue: string, pieces: seq<string>): string {
    if |pieces| == 0 then ""
    else if |pieces| == 1 then pieces[0]
    else Implode(glue, pieces[..|pieces| - 1]) + glue + pieces[|pieces| - 1]
  }

  /** A row none of whose fields needs enclosing. */
  predicate Plain(row: seq<string>) {
    forall i :: 0 <= i < |row| ==> !NeedsEnclosure(row[i])
  }

  /** Number of occurrences of `c` in `s`. */
  function Occurrences(s: string, c: char): nat {
    if s == [] then 0 else (if s[0] == c then 1 else 0) + Occurrences(s[1..], c)
  }

  lemma {:induction false} OccurrencesConcat(a: string, b: string, c: char)
    ensures Occurrences(a + b, c) == Occurrences(a, c) + Occurrences(b, c)
  {
    if a == [] {
      assert a + b == b;
    } else {
      assert (a + b)[0] == a[0];
      assert (a + b)[1..] == a[1..] + b;
      OccurrencesConcat(a[1..], b, c);
    }
  }

  lemma {:induction false} ImplodeCons(glue: string, p: string, ps: seq<string>)
    requires |ps| > 0
    ensures Implode(glue, [p] + ps) == p + glue + Implode(glue, ps)
  {
    var all := [p] + ps;
    if |ps| > 1 {
      assert all[..|all| - 1] == [p] + ps[..|ps| - 1];
      ImplodeCons(glue, p, ps[..|ps| - 1]);
    } else {
      assert all[..|all| - 1] == [p];
    }
  }

  /** A plain row is written exactly as its fields imploded with commas. */
  lemma {:induction false} PlainJoinedFields(row: seq<string>)
    requires Plain(row)
    ensures JoinedFields(row) == Implode([Delimiter], row)
  {
    if |row| > 1 {
      PlainJoinedFields(row[1..]);
      assert row == [row[0]] + row[1..];
      ImplodeCons([Delimiter], row[0], row[1..]);
    }
  }

  /** For fields with no special character, one row is the fields joined with `,` then `\n`. */
  lemma PlainLine(row: seq<string>)
    requires Plain(row)
    ensures Line(row) == Implode(",", row) + "\n"
  {
    PlainJoinedFields(row);
  }

  lemma {:induction false} PlainFieldHasNoNewline(field: string)
    requires !NeedsEnclosure(field)
    ensures Occurrences(field, '\n') == 0
  {
    if field != [] {
      PlainFieldHasNoNewline(field[1..]);
    }
  }

  lemma {:induction false} PlainJoinedHasNoNewline(row: seq<string>)
    requires Plain(row)
    ensures Occurrences(JoinedFields(row), '\n') == 0
  {
    if |row| == 1 {
      PlainFieldHasNoNewline(row[0]);
    } else if |row| > 1 {
      PlainFieldHasNoNewline(row[0]);
      PlainJoinedHasNoNewline(row[1..]);
      OccurrencesConcat(Field(row[0]), [Delimiter], '\n');
      OccurrencesConcat(Field(row[0]) + [Delimiter], JoinedFields(row[1..]), '\n');
    }
  }

  /** A plain row is written as exactly one terminated line. */
  lemma PlainLineHasOneNewline(row: seq<string>)
    requires Plain(row)
    ensures Occurrences(Line(row), '\n') == 1
  {
    PlainJoinedHasNoNewline(row);
    OccurrencesConcat(JoinedFields(row), LineEnd, '\n');
  }

  /** A three-field row: each field encoded, two delimiters, one line end. */
  lemma ThreeFieldLine(a: string, b: string, c: string)
    ensures Line([a, b, c]) == Field(a) + "," + Field(b) + "," + Field(c) + "\n"
  {
    assert [a, b, c][1..] == [b, c];
    assert [b, c][1..] == [c];
    assert JoinedFields([b, c]) == Field(b) + [','] + Field(c);
    assert JoinedFields([a, b, c]) == Field(a) + [','] + (Field(b) + [','] + Field(c));
  }
}
