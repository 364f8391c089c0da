/**
 * Reading one encoded row back: the inverse the row encoding is proved
 * against. A field that starts with the enclosure runs to the next lone
 * enclosure, with doubled enclosures read as one; any other field runs to
 * the next delimiter or line end.
 */
module RowParse {
  import opened Wrappers
  import opened RowFormat

  /** Length of the leading run of `s` that holds no delimiter and no line end. */
  function UnquotedLength(s: string): (n: nat)
    ensures n <= |s|
    ensures forall i :: 0 <= i < n ==> s[i] != Delimiter && s[i] != '\n'
    ensures n < |s| ==> s[n] == Delimiter || s[n] == '\n'
  {
    if s == [] || s[0] == Delimiter || s[0] == '\n' then 0 else 1 + UnquotedLength(s[1..])
  }

  /** The body of an enclosed field, read from just after its opening enclosure, and what follows its closing one. */
  function ParseEnclosed(s: string): (r: Option<(string, string)>)
    ensures r.Some? ==> |r.value.1| < |s|
  {
    if s == [] then None
    else if s[0] == Enclosure then
      if |s| > 1 && s[1] == Enclosure then
        match ParseEnclosed(s[2..])
        case None => None
        case Some((f, rest)) => Some(([Enclosure] + f, rest))
      else Some(("", s[1..]))
    else
      match ParseEnclosed(s[1..])
      case None => None
      case Some((f, rest)) => Some(([s[0]] + f, rest))
  }

  /** One field read from the front of `s`, and what follows it. */
  function ParseField(s: string): (r: Option<(string, string)>)
    ensures r.Some? ==> |r.value.1| <= |s|
  {
    if |s| > 0 && s[0] == Enclosure then ParseEnclosed(s[1..])
    else
      var n := UnquotedLength(s);
      Some((s[..n], s[n..]))
  }

  /** The fields of one encoded row, or None when `s` is not one terminated row. */
  function ParseLine(s: string): Option<seq<string>>
    decreases |s|
  {
    match ParseField(s)
    case None => None
    case Some((f, rest)) =>
      if rest == LineEnd then Some([f])
      else if |rest| > 0 && rest[0] == Delimiter then
        match ParseLine(rest[1..])
        case None => None
        case Some(fs) => Some([f] + fs)
      else None
  }

  lemma {:induction false} ParseEscaped(field: string, rest: string)
    requires rest == [] || rest[0] != Enclosure
    ensures ParseEnclosed(Escaped(field) + [Enclosure] + rest) == Some((field, rest))
  {
    var s := Escaped(field) + [Enclosure] + rest;
    if field == [] {
      assert s == [Enclosure] + rest;
      assert s[1..] == rest;
    } else {
      ParseEscaped(field[1..], rest);
      var tail := Escaped(field[1..]) + [Enclosure] + rest;
      var head := if field[0] == Enclosure then [Enclosure, Enclosure] else [field[0]];
      assert Escaped(field) == head + Escaped(field[1..]);
      assert s == head + tail;
      if field[0] == Enclosure {
        assert s[2..] == tail;
        assert [Enclosure] + field[1..] == field;
      } else {
        assert s[1..] == tail;
        assert [field[0]] + field[1..] == field;
      }
    }
  }

  lemma {:induction false} UnquotedLengthOfPlain(field: string, rest: string)
    requires forall i :: 0 <= i < |field| ==> field[i] != Delimiter && field[i] != '\n'
    requires rest != [] && (rest[0] == Delimiter || rest[0] == '\n')
    ensures UnquotedLength(field + rest) == |field|
  {
    if field == [] {
      assert field + rest == rest;
    } else {
      assert (field + rest)[1..] == field[1..] + rest;
      UnquotedLengthOfPlain(field[1..], rest);
    }
  }

  lemma ParseEnclosedField(field: string, rest: string)
    requires NeedsEnclosure(field)
    requires rest != [] && (rest[0] == Delimiter || rest[0] == '\n')
    ensures ParseField(Field(field) + rest) == Some((field, rest))
  {
    var s := Field(field) + rest;
    assert s == [Enclosure] + (Escaped(field) + [Enclosure] + rest);
    assert s[1..] == Escaped(field) + [Enclosure] + rest;
    ParseEscaped(field, rest);
  }

  lemma ParsePlainField(field: string, rest: string)
    requires !NeedsEnclosure(field)
    requires rest != [] && (rest[0] == Delimiter || rest[0] == '\n')
    ensures ParseField(Field(field) + rest) == Some((field, rest))
  {
    NeedsEnclosureIff(field);
    assert forall i :: 0 <= i < |field| ==> !IsSpecial(field[i]);
    var s := field + rest;
    assert s[0] != Enclosure by {
      if field == [] { assert s == rest; } else { assert s[0] == field[0]; }
    }
    UnquotedLengthOfPlain(field, rest);
    assert s[..|field|] == field && s[|field|..] == rest;
  }

  /** Any field, as the row encoding writes it, reads back as itself up to the next delimiter or line end. */
  lemma ParseFieldOfEncoded(field: string, rest: string)
    requires rest != [] && (rest[0] == Delimiter || rest[0] == '\n')
    ensures ParseField(Field(field) + rest) == Some((field, rest))
  {
    if NeedsEnclosure(field) {
      ParseEnclosedField(field, rest);
    } else {
      ParsePlainField(field, rest);
    }
  }

  /** A row of two or more fields is its first field, a delimiter, and the rest of the row. */
  lemma JoinedCons(fields: seq<string>)
    requires |fields| > 1
    ensures JoinedFields(fields) + LineEnd == Field(fields[0]) + ([Delimiter] + (JoinedFields(fields[1..]) + LineEnd))
  {
    var head, tail := Field(fields[0]), JoinedFields(fields[1..]);
    assert JoinedFields(fields) == head + [Delimiter] + tail;
    Regroup(head, [Delimiter], tail, LineEnd);
  }

  /** Regrouping four pieces; kept apart so that the solver sees only the pieces, not their definitions. */
  lemma Regroup(a: string, b: string, c: string, d: string)
    ensures a + b + c + d == a + (b + (c + d))
  {
  }

  /** A field followed by a delimiter and a parsed row reads as the longer row. */
  lemma ParseLineCons(s: string, f: string, rest: string, fs: seq<string>)
    requires ParseField(s) == Some((f, rest))
    requires rest != [] && rest[0] == Delimiter && ParseLine(rest[1..]) == Some(fs)
    ensures ParseLine(s) == Some([f] + fs)
  {
    assert rest != LineEnd;
  }

  lemma {:induction false} ParseJoined(fields: seq<string>)
    requires |fields| > 0
    ensures ParseLine(JoinedFields(fields) + LineEnd) == Some(fields)
  {
    if |fields| == 1 {
      assert JoinedFields(fields) + LineEnd == Field(fields[0]) + LineEnd;
      ParseFieldOfEncoded(fields[0], LineEnd);
      assert fields == [fields[0]];
    } else {
      var tail := JoinedFields(fields[1..]) + LineEnd;
      var rest := [Delimiter] + tail;
      JoinedCons(fields);
      ParseFieldOfEncoded(fields[0], rest);
      assert rest[1..] == tail;
      ParseJoined(fields[1..]);
      ParseLineCons(JoinedFields(fields) + LineEnd, fields[0], rest, fields[1..]);
      assert [fields[0]] + fields[1..] == fields;
    }
  }

  /** Every non-empty row reads back from its encoding, whatever its fields hold. */
  lemma LineRoundTrip(fields: seq<string>)
    requires |fields| > 0
    ensures ParseLine(Line(fields)) == Some(fields)
  {
    ParseJoined(fields);
  }
}
