/** Whole runs of `main` on small files, worked out from the model. */
module Scenarios {
  import opened CTypes
  import opened IntegerDecoder
  import opened LineParser
  import opened Names
  import opened People
  import opened Statistics
  import opened SampleReader
  import opened Driver
  import opened DriverProperties

  lemma TwoDigits(a: char, b: char)
    requires IsDigit(a) && IsDigit(b)
    ensures DigitsValue([a, b]) == 10 * ToInteger(a) + ToInteger(b)
  {
    assert [a, b][..1] == [a];
    assert [a][..0] == [];
  }

  lemma ThreeDigits(a: char, b: char, c: char)
    requires IsDigit(a) && IsDigit(b) && IsDigit(c)
    ensures DigitsValue([a, b, c]) == 100 * ToInteger(a) + 10 * ToInteger(b) + ToInteger(c)
  {
    assert [a, b, c][..2] == [a, b];
    TwoDigits(a, b);
  }

  /** A line buffer that `fgets` filled with `text`, whatever lies after it. */
  predicate Holds(s: seq<char>, text: seq<char>) {
    |s| == BUFFER_CAPACITY && |text| <= |s| && s[..|text|] == text
  }

  lemma AliceParses(s: seq<char>)
    requires Holds(s, "Alice,30,170\n")
    ensures ParseLine(s, ',') == Some(Record("Alice", 30, 170))
  {
    assert "Alice,30,170\n" == "Alice" + [','] + "30" + [','] + "170" + ['\n'];
    ShortNameStored("Alice");
    TwoDigits('3', '0');
    ThreeDigits('1', '7', '0');
    RowOfText(s, ',', "Alice", "30", "170");
  }

  lemma BobParses(s: seq<char>)
    requires Holds(s, "Bob,25,180\n")
    ensures ParseLine(s, ',') == Some(Record("Bob", 25, 180))
  {
    assert "Bob,25,180\n" == "Bob" + [','] + "25" + [','] + "180" + ['\n'];
    ShortNameStored("Bob");
    TwoDigits('2', '5');
    ThreeDigits('1', '8', '0');
    RowOfText(s, ',', "Bob", "25", "180");
  }

  lemma EveRejected(s: seq<char>)
    requires Holds(s, "Eve,abc,160\n")
    ensures ParseLine(s, ',') == None
  {
    var t := "Eve,abc,160\n";
    assert forall j :: 0 <= j < |t| ==> s[j] == s[..|t|][j] == t[j];
    NextFieldAt(s, 0, 3, ',');
    NextFieldAt(s, 4, 7, ',');
    assert s[4..7][0] == 'a';
    BadAge(s, ',', 3, 7);
  }

  /** Two reads of lines that parse, then the end of the file: both records are fed. */
  lemma TwoGoodRows(a: seq<char>, b: seq<char>, sep: char, ra: Record, rb: Record)
    requires ParseLine(a, sep) == Some(ra) && ParseLine(b, sep) == Some(rb)
    ensures Drive([LineRead(a), LineRead(b), EndOfFile], sep, NoError) == [ra, rb]
  {
    var samples := [LineRead(a), LineRead(b), EndOfFile];
    DriveGot(samples, sep, NoError, ra);
    assert samples[1..] == [LineRead(b), EndOfFile];
    DriveGot(samples[1..], sep, NoError, rb);
    assert samples[1..][1..] == [EndOfFile];
    DriveEnds([EndOfFile], sep, NoError, EndOfFileError);
  }

  /** A line that parses, one that does not, another that parses, then the end of the file:
      the middle one is skipped. */
  lemma GoodBadGood(a: seq<char>, b: seq<char>, c: seq<char>, sep: char, ra: Record, rc: Record)
    requires ParseLine(a, sep) == Some(ra) && ParseLine(b, sep) == None && ParseLine(c, sep) == Some(rc)
    ensures Drive([LineRead(a), LineRead(b), LineRead(c), EndOfFile], sep, NoError) == [ra, rc]
  {
    var samples := [LineRead(a), LineRead(b), LineRead(c), EndOfFile];
    DriveGot(samples, sep, NoError, ra);
    var s1 := samples[1..];
    assert s1 == [LineRead(b), LineRead(c), EndOfFile];
    DriveSkips(s1, sep, NoError);
    var s2 := s1[1..];
    assert s2 == [LineRead(c), EndOfFile];
    DriveGot(s2, sep, ParsingError, rc);
    assert s2[1..] == [EndOfFile];
    DriveEnds([EndOfFile], sep, ParsingError, EndOfFileError);
  }

  /** The statistics of the two test people. */
  lemma TwoPeopleStatistics()
    ensures Fold([Record("Alice", 30, 170), Record("Bob", 25, 180)]) == Stats(25, 30, 55, 170, 180, 350, 2)
  {
    var rs := [Record("Alice", 30, 170), Record("Bob", 25, 180)];
    assert rs[..1] == [Record("Alice", 30, 170)] && rs[..1][..0] == [];
  }

  /** A header, two good rows and the end of the file: both rows are fed, and the statistics
      are age 25 to 30 summing to 55 and height 170 to 180 summing to 350, over two people. */
  lemma TwoRowScenario(a: seq<char>, b: seq<char>)
    requires Holds(a, "Alice,30,170\n") && Holds(b, "Bob,25,180\n")
    ensures Drive([LineRead(a), LineRead(b), EndOfFile], ',', NoError) ==
            [Record("Alice", 30, 170), Record("Bob", 25, 180)]
    ensures Fold(Drive([LineRead(a), LineRead(b), EndOfFile], ',', NoError)) ==
            Stats(25, 30, 55, 170, 180, 350, 2)
  {
    AliceParses(a);
    BobParses(b);
    TwoGoodRows(a, b, ',', Record("Alice", 30, 170), Record("Bob", 25, 180));
    TwoPeopleStatistics();
  }

  /** A row whose age is not a number is reported and skipped; the rows around it count. */
  lemma BadAgeScenario(a: seq<char>, e: seq<char>, b: seq<char>)
    requires Holds(a, "Alice,30,170\n") && Holds(e, "Eve,abc,160\n") && Holds(b, "Bob,25,180\n")
    ensures Drive([LineRead(a), LineRead(e), LineRead(b), EndOfFile], ',', NoError) ==
            [Record("Alice", 30, 170), Record("Bob", 25, 180)]
  {
    AliceParses(a);
    EveRejected(e);
    BobParses(b);
    GoodBadGood(a, e, b, ',', Record("Alice", 30, 170), Record("Bob", 25, 180));
  }

  /** A file with a header and nothing else: nothing is fed and no statistics are printed. */
  lemma HeaderOnlyScenario()
    ensures Drive([EndOfFile], ',', NoError) == [] && Fold([]).count == 0
  {
    DriveEnds([EndOfFile], ',', NoError, EndOfFileError);
  }
}
