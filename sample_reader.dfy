/** `csv_sample_reader_t`: reads one line into its 256-character buffer and assembles a person
    from the first three fields. */
module SampleReader {
  import opened CTypes
  import opened CharSpans
  import opened LineParser
  import opened IntegerDecoder
  import opened Names
  import opened People

  /** `buffer_capacity`. */
  const BUFFER_CAPACITY: nat := 256

  /** What one call of `file_read_line` (an `fgets` into the buffer) comes to. */
  datatype ReadOutcome =
    | LineRead(buffer: seq<char>)  // fgets succeeded; the whole buffer as it stands afterwards
    | EndOfFile                    // fgets returned NULL and feof is set
    | ReadFailure                  // fgets returned NULL and ferror is set
    | Unflagged                    // fgets returned NULL with neither flag set

  predicate WellFormed(o: ReadOutcome) {
    o.LineRead? ==> |o.buffer| == BUFFER_CAPACITY
  }

  /** The `*error` that `file_read_line` leaves after a failed read; `prior` is its old value.
      A flagged failure always sets an error that is neither `no_error` nor `parsing_error`. */
  function ReadError(o: ReadOutcome, prior: Error): (e: Error)
    requires !o.LineRead?
    ensures o == Unflagged ==> e == prior
    ensures o != Unflagged ==> e != NoError && e != ParsingError
  {
    match o
    case EndOfFile => EndOfFileError
    case ReadFailure => ReadingError
    case Unflagged => prior
  }

  /** Where the first three fields of a line end, each at its own terminator. */
  datatype Ends = Ends(l1: nat, l2: nat, l3: nat)

  /** The ends of the first three fields of `s`, when all three are non-empty and terminated. */
  function FieldEnds(s: seq<char>, sep: char): (r: Option<Ends>)
    ensures r.Some? ==> r.value.l1 < r.value.l2 < r.value.l3 < |s|
  {
    var f1 := NextField(s, 0, sep);
    if !f1.Field? then None else
    var f2 := NextField(s, f1.last + 1, sep);
    if !f2.Field? then None else
    var f3 := NextField(s, f2.last + 1, sep);
    if !f3.Field? then None else
    Some(Ends(f1.last, f2.last, f3.last))
  }

  /** The record made of a name field and two numeric fields, when both numbers decode. */
  function Assemble(name: seq<char>, age: seq<char>, height: seq<char>): (r: Option<Record>)
    ensures r.Some? ==> 0 <= r.value.age && 0 <= r.value.height && |r.value.name| < NAME_CAPACITY
  {
    match (Decode(age), Decode(height))
    case (Value(a), Value(h)) => Some(Record(StoredName(name), a, h))
    case _ => None
  }

  /** The record that `read_sample` assembles from the line buffer `s`, or None when it
      reports `parsing_error`: the first three fields must be non-empty and terminated,
      the second and third must decode; anything after the third terminator is ignored. */
  function ParseLine(s: seq<char>, sep: char): (r: Option<Record>)
    ensures r.Some? ==> 0 <= r.value.age && 0 <= r.value.height && |r.value.name| < NAME_CAPACITY
  {
    match FieldEnds(s, sep)
    case None => None
    case Some(e) => Assemble(s[..e.l1], s[e.l1 + 1..e.l2], s[e.l2 + 1..e.l3])
  }

  /** `FieldEnds` once the three fields are known. */
  lemma FieldEndsAt(s: seq<char>, sep: char, l1: nat, l2: nat, l3: nat)
    requires NextField(s, 0, sep) == Field(l1)
    requires NextField(s, l1 + 1, sep) == Field(l2)
    requires NextField(s, l2 + 1, sep) == Field(l3)
    ensures FieldEnds(s, sep) == Some(Ends(l1, l2, l3))
  {
  }

  /** `ParseLine` in terms of the three field ends, once all three are found. */
  lemma ParseLineByFields(s: seq<char>, sep: char, l1: nat, l2: nat, l3: nat)
    requires NextField(s, 0, sep) == Field(l1)
    requires NextField(s, l1 + 1, sep) == Field(l2)
    requires NextField(s, l2 + 1, sep) == Field(l3)
    ensures l1 < l2 < l3 < |s|
    ensures ParseLine(s, sep) == Assemble(s[..l1], s[l1 + 1..l2], s[l2 + 1..l3])
  {
    FieldEndsAt(s, sep, l1, l2, l3);
  }

  /** A row whose name field is missing or unterminated is rejected. */
  lemma NoNameField(s: seq<char>, sep: char)
    requires !NextField(s, 0, sep).Field?
    ensures ParseLine(s, sep) == None
  {
  }

  /** A row whose age field is missing or unterminated is rejected. */
  lemma NoAgeField(s: seq<char>, sep: char, l1: nat)
    requires NextField(s, 0, sep) == Field(l1)
    requires !NextField(s, l1 + 1, sep).Field?
    ensures ParseLine(s, sep) == None
  {
  }

  /** A row whose age field does not decode is rejected, whatever follows it. */
  lemma BadAge(s: seq<char>, sep: char, l1: nat, l2: nat)
    requires NextField(s, 0, sep) == Field(l1)
    requires NextField(s, l1 + 1, sep) == Field(l2)
    requires !Decode(s[l1 + 1..l2]).Value?
    ensures ParseLine(s, sep) == None
  {
    var f3 := NextField(s, l2 + 1, sep);
    if f3.Field? {
      ParseLineByFields(s, sep, l1, l2, f3.last);
    }
  }

  /** A row whose height field is missing or unterminated is rejected. */
  lemma NoHeightField(s: seq<char>, sep: char, l1: nat, l2: nat)
    requires NextField(s, 0, sep) == Field(l1)
    requires NextField(s, l1 + 1, sep) == Field(l2)
    requires !NextField(s, l2 + 1, sep).Field?
    ensures ParseLine(s, sep) == None
  {
  }

  /** A row whose height field does not decode is rejected. */
  lemma BadHeight(s: seq<char>, sep: char, l1: nat, l2: nat, l3: nat)
    requires NextField(s, 0, sep) == Field(l1)
    requires NextField(s, l1 + 1, sep) == Field(l2)
    requires NextField(s, l2 + 1, sep) == Field(l3)
    requires !Decode(s[l2 + 1..l3]).Value?
    ensures ParseLine(s, sep) == None
  {
    ParseLineByFields(s, sep, l1, l2, l3);
  }

  /** A row whose three fields are found and whose numeric fields decode is accepted. */
  lemma GoodRow(s: seq<char>, sep: char, l1: nat, l2: nat, l3: nat, age: int, height: int)
    requires NextField(s, 0, sep) == Field(l1)
    requires NextField(s, l1 + 1, sep) == Field(l2)
    requires NextField(s, l2 + 1, sep) == Field(l3)
    requires Decode(s[l1 + 1..l2]) == Value(age) && Decode(s[l2 + 1..l3]) == Value(height)
    ensures ParseLine(s, sep) == Some(Record(StoredName(s[..l1]), age, height))
  {
    ParseLineByFields(s, sep, l1, l2, l3);
  }

  /** The C `int` in `parse_integer` does not overflow on the age field nor, when the age
      decodes, on the height field of the line `s`. */
  predicate DecodableLine(s: seq<char>, sep: char) {
    var f1 := NextField(s, 0, sep);
    f1.Field? ==>
      FieldFits(s, f1.last + 1, sep) &&
      var f2 := NextField(s, f1.last + 1, sep);
      (f2.Field? && AllDigits(s[f1.last + 1..f2.last]) ==> FieldFits(s, f2.last + 1, sep))
  }

  /** The field starting at `first`, when there is one, fits a C `int`. */
  predicate FieldFits(s: seq<char>, first: nat, sep: char)
    requires first <= |s|
  {
    var f := NextField(s, first, sep);
    f.Field? ==> Fits(s[first..f.last])
  }

  /** Under `DecodableLine`, the age field fits a C `int`. */
  lemma AgeFits(s: seq<char>, sep: char, l1: nat)
    requires DecodableLine(s, sep) && NextField(s, 0, sep) == Field(l1)
    ensures FieldFits(s, l1 + 1, sep)
  {
  }

  /** Under `DecodableLine`, once the age decodes, the height field fits a C `int`. */
  lemma HeightFits(s: seq<char>, sep: char, l1: nat, l2: nat)
    requires DecodableLine(s, sep) && NextField(s, 0, sep) == Field(l1)
    requires NextField(s, l1 + 1, sep) == Field(l2) && AllDigits(s[l1 + 1..l2])
    ensures FieldFits(s, l2 + 1, sep)
  {
  }

  /** What one call of `read_sample` comes to. */
  datatype SampleOutcome = Got(rec: Record) | Failed(error: Error)

  /** `read_sample` on the read outcome `o`, with `prior` in `*error` before the call:
      a failed read passes the read error through; every row-level failure is `parsing_error`. */
  function SampleStep(o: ReadOutcome, sep: char, prior: Error): SampleOutcome {
    if !o.LineRead? then Failed(ReadError(o, prior))
    else match ParseLine(o.buffer, sep)
      case Some(r) => Got(r)
      case None => Failed(ParsingError)
  }

  /** One `read_sample` yields a record exactly when the read returns a line that parses,
      and then that line's record; a line that does not parse fails with `parsing_error`,
      a failed read with the read error. */
  lemma SampleStepCases(o: ReadOutcome, sep: char, prior: Error)
    ensures SampleStep(o, sep, prior).Got? <==> o.LineRead? && ParseLine(o.buffer, sep).Some?
    ensures SampleStep(o, sep, prior).Got? ==> ParseLine(o.buffer, sep) == Some(SampleStep(o, sep, prior).rec)
    ensures SampleStep(o, sep, prior).Failed? && o.LineRead? ==> SampleStep(o, sep, prior).error == ParsingError
    ensures !o.LineRead? ==> SampleStep(o, sep, prior) == Failed(ReadError(o, prior))
  {
  }

  /** A non-empty token free of terminators, followed by a terminator, is one field. */
  lemma TokenField(pre: seq<char>, tok: seq<char>, t: char, post: seq<char>, sep: char)
    requires |tok| > 0 && forall i :: 0 <= i < |tok| ==> !IsTerminator(tok[i], sep)
    requires IsTerminator(t, sep)
    ensures var s := pre + tok + [t] + post;
            NextField(s, |pre|, sep) == Field(|pre| + |tok|) && s[|pre|..|pre| + |tok|] == tok
  {
    var s := pre + tok + [t] + post;
    assert s[|pre| + |tok|] == t;
    assert forall j :: |pre| <= j < |pre| + |tok| ==> s[j] == tok[j - |pre|];
    NextFieldAt(s, |pre|, |pre| + |tok|, sep);
    assert s[|pre|..|pre| + |tok|] == tok;
  }

  /** A well-formed row: a non-empty name free of terminators up to the separator at `l1`,
      non-empty runs of digits up to the separator at `l2` and up to the terminator at `l3`.
      Its record is made of exactly these three fields; whatever follows `l3` is ignored. */
  lemma RowParses(s: seq<char>, sep: char, l1: nat, l2: nat, l3: nat)
    requires !IsDigit(sep) && 0 < l1 && l1 + 1 < l2 && l2 + 1 < l3 < |s|
    requires s[l1] == sep && s[l2] == sep && IsTerminator(s[l3], sep)
    requires forall j :: 0 <= j < l1 ==> !IsTerminator(s[j], sep)
    requires forall j :: l1 < j < l2 ==> IsDigit(s[j])
    requires forall j :: l2 < j < l3 ==> IsDigit(s[j])
    ensures ParseLine(s, sep) ==
            Some(Record(StoredName(s[..l1]), DigitsValue(s[l1 + 1..l2]), DigitsValue(s[l2 + 1..l3])))
  {
    NextFieldAt(s, 0, l1, sep);
    NextFieldAt(s, l1 + 1, l2, sep);
    NextFieldAt(s, l2 + 1, l3, sep);
    var age, height := s[l1 + 1..l2], s[l2 + 1..l3];
    assert AllDigits(age) && AllDigits(height);
    ParseLineByTokens(s, sep, l1, l2, l3, s[..l1], age, height);
    AssembleDigits(s[..l1], age, height);
  }

  /** A buffer that starts with `name`, the separator, the decimal `age`, the separator, the
      decimal `height` and a newline holds the row (name, age, height), whatever follows. */
  lemma RowOfText(s: seq<char>, sep: char, name: seq<char>, age: seq<char>, height: seq<char>)
    requires !IsDigit(sep) && |name| > 0 && |age| > 0 && |height| > 0
    requires forall i :: 0 <= i < |name| ==> !IsTerminator(name[i], sep)
    requires AllDigits(age) && AllDigits(height)
    requires var t := name + [sep] + age + [sep] + height + ['\n']; |t| <= |s| && s[..|t|] == t
    ensures ParseLine(s, sep) == Some(Record(StoredName(name), DigitsValue(age), DigitsValue(height)))
  {
    var t := name + [sep] + age + [sep] + height + ['\n'];
    var l1 := |name|;
    var l2 := l1 + 1 + |age|;
    var l3 := l2 + 1 + |height|;
    assert forall j :: 0 <= j < |t| ==> s[j] == s[..|t|][j];
    assert forall j :: 0 <= j < l1 ==> s[j] == name[j];
    assert forall j :: l1 < j < l2 ==> s[j] == age[j - l1 - 1];
    assert forall j :: l2 < j < l3 ==> s[j] == height[j - l2 - 1];
    assert s[l1] == sep && s[l2] == sep && s[l3] == '\n';
    assert s[..l1] == name && s[l1 + 1..l2] == age && s[l2 + 1..l3] == height;
    RowParses(s, sep, l1, l2, l3);
  }

  /** `ParseLine` in terms of the three fields' text. */
  lemma ParseLineByTokens(s: seq<char>, sep: char, l1: nat, l2: nat, l3: nat,
                          name: seq<char>, age: seq<char>, height: seq<char>)
    requires NextField(s, 0, sep) == Field(l1)
    requires NextField(s, l1 + 1, sep) == Field(l2)
    requires NextField(s, l2 + 1, sep) == Field(l3)
    requires l1 < l2 < l3 && s[..l1] == name && s[l1 + 1..l2] == age && s[l2 + 1..l3] == height
    ensures ParseLine(s, sep) == Assemble(name, age, height)
  {
    ParseLineByFields(s, sep, l1, l2, l3);
  }

  /** Two non-empty all-digit numeric fields always assemble into a record. */
  lemma AssembleDigits(name: seq<char>, age: seq<char>, height: seq<char>)
    requires AllDigits(age) && AllDigits(height) && |age| > 0 && |height| > 0
    ensures Assemble(name, age, height) == Some(Record(StoredName(name), DigitsValue(age), DigitsValue(height)))
  {
  }

  /** The last line of a file that ends without a newline: `fgets` leaves
      `name sep age sep height` followed by its NUL, and the parser, whose span is the whole
      buffer, reads the NUL as an ordinary character. Such a row is always rejected. */
  lemma UnterminatedRowIsRejected(name: seq<char>, age: seq<char>, height: seq<char>, rest: seq<char>, sep: char)
    requires sep != '\0'
    requires forall i :: 0 <= i < |name| ==> !IsTerminator(name[i], sep)
    requires forall i :: 0 <= i < |age| ==> !IsTerminator(age[i], sep)
    requires forall i :: 0 <= i < |height| ==> !IsTerminator(height[i], sep)
    ensures ParseLine(name + [sep] + age + [sep] + height + ['\0'] + rest, sep) == None
  {
    var s := name + [sep] + age + [sep] + height + ['\0'] + rest;
    var a := |name| + 1;
    if |name| == 0 {
      assert s[0] == sep;
      NoNameField(s, sep);
    } else {
      TokenField([], name, sep, age + [sep] + height + ['\0'] + rest, sep);
      assert [] + name + [sep] + (age + [sep] + height + ['\0'] + rest) == s;
      if |age| == 0 {
        assert s[a] == sep;
        NoAgeField(s, sep, |name|);
      } else {
        TokenField(name + [sep], age, sep, height + ['\0'] + rest, sep);
        assert name + [sep] + age + [sep] + (height + ['\0'] + rest) == s;
        var h := a + |age| + 1;
        var p := h + |height|;
        assert forall j :: h <= j < p ==> s[j] == height[j - h];
        assert s[p] == '\0';
        NulInThirdFieldRejects(s, sep, |name|, a + |age|, p);
      }
    }
  }

  /** A NUL inside the third field (before any terminator) makes the row unparsable. */
  lemma NulInThirdFieldRejects(s: seq<char>, sep: char, l1: nat, l2: nat, p: nat)
    requires l1 < |s| && NextField(s, 0, sep) == Field(l1)
    requires l2 < p < |s| && NextField(s, l1 + 1, sep) == Field(l2)
    requires s[p] == '\0' && forall j :: l2 < j <= p ==> !IsTerminator(s[j], sep)
    ensures ParseLine(s, sep) == None
  {
    var f3 := NextField(s, l2 + 1, sep);
    if f3.Field? {
      var l3 := f3.last;
      assert p < l3;
      assert s[l2 + 1..l3][p - l2 - 1] == s[p];
      NulDoesNotDecode(s[l2 + 1..l3], p - l2 - 1);
      BadHeight(s, sep, l1, l2, l3);
    } else {
      NoHeightField(s, sep, l1, l2);
    }
  }

  /** A token holding a NUL is not a number. */
  lemma NulDoesNotDecode(tok: seq<char>, k: nat)
    requires k < |tok| && tok[k] == '\0'
    ensures !Decode(tok).Value?
  {
    assert !IsDigit(tok[k]);
  }

  /** `csv_sample_reader_t` without its file: the buffer, the separator and the span over
      the whole buffer that `csv_sample_reader_init` sets up. */
  class CsvSampleReader {
    const buffer: array<char>
    const sep: char
    const line: CharSpan

    ghost predicate Valid() {
      buffer.Length == BUFFER_CAPACITY && line == CharSpan(buffer, 0, BUFFER_CAPACITY)
    }

    /** The span setup of `csv_sample_reader_init`: its size is the buffer capacity,
        not the length of what was read. */
    constructor (sep: char)
      ensures Valid() && this.sep == sep && fresh(buffer)
    {
      this.sep := sep;
      var b := new char[BUFFER_CAPACITY];
      buffer := b;
      line := CharSpan(b, 0, BUFFER_CAPACITY);
    }

    /** `file_read_line` into the reader's buffer, with the read itself given as `o`:
        true on a line; otherwise false with the end-of-file or read error set, or with
        `*error` left as it was when neither flag is set. */
    method ReadLine(o: ReadOutcome, prior: Error) returns (ok: bool, error: Error)
      requires Valid() && WellFormed(o)
      modifies buffer
      ensures ok == o.LineRead?
      ensures buffer[..] == if o.LineRead? then o.buffer else old(buffer[..])
      ensures error == if o.LineRead? then prior else ReadError(o, prior)
    {
      if o.LineRead? {
        forall i | 0 <= i < BUFFER_CAPACITY {
          buffer[i] := o.buffer[i];
        }
        return true, prior;
      }
      return false, ReadError(o, prior);
    }

    /** `csv_sample_reader_read_sample`. On success `*person` holds the record assembled from
        the line and `*error` is untouched; on failure `*person` is not written and the error
        is the read error or `parsing_error`. */
    method ReadSample(person: Person, o: ReadOutcome, prior: Error) returns (ok: bool, error: Error)
      requires Valid() && WellFormed(o)
      requires o.LineRead? ==> DecodableLine(o.buffer, sep)
      requires person.Valid() && person.name != buffer
      modifies buffer, person, person.name
      ensures buffer[..] == if o.LineRead? then o.buffer else old(buffer[..])
      ensures ok <==> SampleStep(o, sep, prior).Got?
      ensures ok ==> error == prior && person.Holds(SampleStep(o, sep, prior).rec)
      ensures ok ==> forall j :: |SampleStep(o, sep, prior).rec.name| < j < NAME_CAPACITY ==>
                       person.name[j] == old(person.name[j])
      ensures !ok ==> error == SampleStep(o, sep, prior).error && unchanged(person, person.name)
    {
      ok, error := ReadLine(o, prior);
      if ok {
        ok, error := ParseBuffer(person, error);
      }
    }

    /** The part of `read_sample` after the line is read: the line buffer is split into
        its fields and, when all of them parse, `person_init` stores the record. */
    method ParseBuffer(person: Person, prior: Error) returns (ok: bool, error: Error)
      requires Valid() && DecodableLine(buffer[..], sep)
      requires person.Valid() && person.name != buffer
      modifies person, person.name
      ensures ok <==> ParseLine(buffer[..], sep).Some?
      ensures ok ==> error == prior && person.Holds(ParseLine(buffer[..], sep).value)
      ensures ok ==> forall j :: |ParseLine(buffer[..], sep).value.name| < j < NAME_CAPACITY ==>
                       person.name[j] == old(person.name[j])
      ensures !ok ==> error == ParsingError && unchanged(person, person.name)
    {
      ghost var s := buffer[..];
      var parser := new CsvLineParser(line, sep);
      assert parser.Text() == s;
      var name, age, height;
      ok, name, age, height := ParseFields(parser, s);
      if !ok {
        return false, ParsingError;
      }
      person.Init(name, age, height);
      assert buffer[..] == s;
      error := prior;
    }
  }

  /** The three fields of `read_sample`, in order: the name copied into the local `name_t name`,
      then the age and the height decoded with `parse_integer`. Stops at the first field that
      is missing or does not decode. */
  method ParseFields(parser: CsvLineParser, ghost s: seq<char>)
    returns (ok: bool, name: array<char>, age: Int32, height: Int32)
    requires parser.Valid() && parser.Text() == s && parser.first == 0 && DecodableLine(s, parser.sep)
    modifies parser`first
    ensures fresh(name) && name.Length == NAME_CAPACITY
    ensures ok <==> ParseLine(s, parser.sep).Some?
    ensures ok ==> ParseLine(s, parser.sep) == Some(Record(CString(name[..NAME_CAPACITY - 1]), age, height))
  {
    var value := CharSpan(parser.line.data, 0, 0);
    var found;
    ghost var l1;
    found, value, name, l1 := NameField(parser, value, s);
    if !found {
      NoNameField(s, parser.sep);
      return false, name, 0, 0;
    }
    ok, age, height := NumberFields(parser, value, s, l1);
  }

  /** The age and then the height of `read_sample`, once the name field ends at `l1`. */
  method NumberFields(parser: CsvLineParser, prev: CharSpan, ghost s: seq<char>, ghost l1: nat)
    returns (ok: bool, age: Int32, height: Int32)
    requires parser.Valid() && parser.Text() == s && DecodableLine(s, parser.sep)
    requires NextField(s, 0, parser.sep) == Field(l1) && parser.first == l1 + 1
    modifies parser`first
    ensures ok <==> ParseLine(s, parser.sep).Some?
    ensures ok ==> ParseLine(s, parser.sep) == Some(Record(StoredName(s[..l1]), age, height))
  {
    var sep := parser.sep;
    var value, found, parsed, error;
    ghost var l2;

    // the age
    AgeFits(s, sep, l1);
    found, parsed, value, age, error, l2 := NumericField(parser, prev, NoError, s, l1 + 1);
    if !found {
      NoAgeField(s, sep, l1);
      return false, 0, 0;
    }
    if !parsed {
      BadAge(s, sep, l1, l2);
      return false, 0, 0;
    }

    HeightFits(s, sep, l1, l2);
    ok, height := HeightField(parser, value, error, s, l1, l2, age);
  }

  /** The height step of `read_sample`, once the name ends at `l1` and the age, ending at
      `l2`, has decoded to `age`. */
  method HeightField(parser: CsvLineParser, prev: CharSpan, prior: Error, ghost s: seq<char>,
                     ghost l1: nat, ghost l2: nat, ghost age: int)
    returns (ok: bool, height: Int32)
    requires parser.Valid() && parser.Text() == s
    requires NextField(s, 0, parser.sep) == Field(l1) && NextField(s, l1 + 1, parser.sep) == Field(l2)
    requires Decode(s[l1 + 1..l2]) == Value(age) && parser.first == l2 + 1 && FieldFits(s, l2 + 1, parser.sep)
    modifies parser`first
    ensures ok <==> ParseLine(s, parser.sep).Some?
    ensures ok ==> ParseLine(s, parser.sep) == Some(Record(StoredName(s[..l1]), age, height))
  {
    var sep := parser.sep;
    var found, parsed, value, error;
    ghost var l3;
    found, parsed, value, height, error, l3 := NumericField(parser, prev, prior, s, l2 + 1);
    if !found {
      NoHeightField(s, sep, l1, l2);
      return false, 0;
    }
    if !parsed {
      BadHeight(s, sep, l1, l2, l3);
      return false, 0;
    }
    GoodRow(s, sep, l1, l2, l3, age, height);
    ok := true;
  }

  /** The name step of `read_sample`: take the first field and copy it into the local
      `name_t name`, cut to the name buffer. */
  method NameField(parser: CsvLineParser, prev: CharSpan, ghost s: seq<char>)
    returns (found: bool, value: CharSpan, name: array<char>, ghost last: nat)
    requires parser.Valid() && parser.Text() == s && parser.first == 0
    modifies parser`first
    ensures parser.Valid() && parser.Text() == s && fresh(name) && name.Length == NAME_CAPACITY
    ensures found <==> NextField(s, 0, parser.sep).Field?
    ensures found ==> NextField(s, 0, parser.sep) == Field(last) && parser.first == last + 1
                      && CString(name[..NAME_CAPACITY - 1]) == StoredName(s[..last])
  {
    name := new char[NAME_CAPACITY];
    found, value := parser.GetValue(prev);
    if !found {
      last := 0;
      return;
    }
    last := NextField(s, 0, parser.sep).last;
    SubChars(parser.line, 0, last);
    NameCopyFromSpanTruncating(name, value);
  }

  /** What `read_sample` does for each numeric field, the age and then the height: take the
      next field, then decode it with `parse_integer`. `found` when the field is there,
      `parsed` when it also decodes, and then `num` is its value and `*error` is untouched. */
  method NumericField(parser: CsvLineParser, prev: CharSpan, prior: Error, ghost s: seq<char>,
                      ghost first: nat)
    returns (found: bool, parsed: bool, value: CharSpan, num: Int32, error: Error, ghost last: nat)
    requires parser.Valid() && parser.Text() == s && parser.first == first
    requires FieldFits(s, first, parser.sep)
    modifies parser`first
    ensures parser.Valid() && parser.Text() == s
    ensures found <==> NextField(s, first, parser.sep).Field?
    ensures found ==> NextField(s, first, parser.sep) == Field(last) && parser.first == last + 1
    ensures parsed ==> found && Decode(s[first..last]) == Value(num) && error == prior
    ensures found && !parsed ==> !Decode(s[first..last]).Value?
  {
    found, value := parser.GetValue(prev);
    if !found {
      found, parsed, num, error, last := false, false, 0, prior, 0;
      return;
    }
    last := NextField(s, first, parser.sep).last;
    SubChars(parser.line, first, last);
    assert value.Chars() == s[first..last];
    parsed, num, error := ParseInteger(value, 0, prior);
  }

  /** A line whose name field is longer than the name buffer: 60 characters of name, then
      `,1,2` and a newline, the rest of the buffer NUL. */
  const LONG_NAME_ROW: seq<char> := seq(60, _ => 'x') + ",1,2\n" + seq(BUFFER_CAPACITY - 65, _ => '\0')

  /** On `LONG_NAME_ROW` the parser hands `name_copy_from_span` a span of 60 characters, more
      than its precondition (and the 50-character `name_t`) allows; with the bounded copy the
      row is accepted with its name cut to 49 characters. */
  lemma LongNameOverrunsNameBuffer()
    ensures |LONG_NAME_ROW| == BUFFER_CAPACITY
    ensures NextField(LONG_NAME_ROW, 0, ',') == Field(60) && !(60 < NAME_CAPACITY)
    ensures ParseLine(LONG_NAME_ROW, ',') == Some(Record(seq(NAME_CAPACITY - 1, _ => 'x'), 1, 2))
  {
    var s := LONG_NAME_ROW;
    assert forall j :: 0 <= j < 60 ==> s[j] == 'x';
    assert s[60] == ',' && s[61] == '1' && s[62] == ',' && s[63] == '2' && s[64] == '\n';
    RowParses(s, ',', 60, 62, 64);
    NextFieldAt(s, 0, 60, ',');
    assert s[..60] == seq(60, _ => 'x');
    LongNameStored();
    assert s[61..62] == ['1'] && s[63..64] == ['2'];
    assert DigitsValue(['1']) == 1 && DigitsValue(['2']) == 2 by {
      assert ['1'][..0] == [] && ['2'][..0] == [];
    }
  }

  /** A 60-character name of `x` is stored as 49 of them. */
  lemma LongNameStored()
    ensures StoredName(seq(60, _ => 'x')) == seq(NAME_CAPACITY - 1, _ => 'x')
  {
    var x49 := seq(NAME_CAPACITY - 1, _ => 'x');
    assert seq(60, _ => 'x')[..NAME_CAPACITY - 1] == x49;
  }
}
