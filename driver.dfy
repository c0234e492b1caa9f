/** `main`: read the header, then feed every sample that parses to the statistics until
    the end of the file or a fatal read error, and print the statistics when a sample was seen. */
module Driver {
  import opened CTypes
  import opened IntegerDecoder
  import opened People
  import opened Statistics
  import opened SampleReader

  /** An outcome after which `main` stops reading whatever `*error` held before. */
  predicate Stops(o: ReadOutcome) {
    o == EndOfFile || o == ReadFailure
  }

  /** A finite read stream: it ends with the end of the file or a read failure, which is
      how every stream of `fgets` calls on a real file ends. */
  predicate Terminated(samples: seq<ReadOutcome>) {
    |samples| > 0 && Stops(samples[|samples| - 1])
  }

  /** The records that the loop of `main` hands to `person_statistics_update`, in order, when
      it reads `samples` with `*error` holding `error`. A parsing error is reported and the
      loop goes on; every other failure (end of file, read error, or an unflagged failed
      read that leaves some other error in place) ends it. */
  function Drive(samples: seq<ReadOutcome>, sep: char, error: Error): (rs: seq<Record>)
    ensures |rs| <= |samples|
    decreases |samples|
  {
    if samples == [] then []
    else match SampleStep(samples[0], sep, error)
      case Got(r) => [r] + Drive(samples[1..], sep, error)
      case Failed(e) => if e == ParsingError then Drive(samples[1..], sep, e) else []
  }

  /** A sample that parses is collected, and the loop goes on with `*error` untouched. */
  lemma DriveGot(samples: seq<ReadOutcome>, sep: char, error: Error, r: Record)
    requires |samples| > 0 && SampleStep(samples[0], sep, error) == Got(r)
    ensures Drive(samples, sep, error) == [r] + Drive(samples[1..], sep, error)
  {
  }

  /** A parsing error is skipped, and the loop goes on with `parsing_error` in `*error`. */
  lemma DriveSkips(samples: seq<ReadOutcome>, sep: char, error: Error)
    requires |samples| > 0 && SampleStep(samples[0], sep, error) == Failed(ParsingError)
    ensures Drive(samples, sep, error) == Drive(samples[1..], sep, ParsingError)
  {
  }

  /** Any other failure ends the loop. */
  lemma DriveEnds(samples: seq<ReadOutcome>, sep: char, error: Error, e: Error)
    requires |samples| > 0 && SampleStep(samples[0], sep, error) == Failed(e) && e != ParsingError
    ensures Drive(samples, sep, error) == []
  {
  }

  /** A collected record has non-negative numbers. */
  lemma GotNonNegative(o: ReadOutcome, sep: char, error: Error)
    requires SampleStep(o, sep, error).Got?
    ensures 0 <= SampleStep(o, sep, error).rec.age && 0 <= SampleStep(o, sep, error).rec.height
  {
  }

  /** Every record `Drive` collects came from a decoded line, so its numbers are not negative. */
  lemma {:induction false} DriveNonNegative(samples: seq<ReadOutcome>, sep: char, error: Error)
    ensures NonNegative(Drive(samples, sep, error))
    decreases |samples|
  {
    if samples != [] {
      var st := SampleStep(samples[0], sep, error);
      if st.Got? {
        GotNonNegative(samples[0], sep, error);
        DriveGot(samples, sep, error, st.rec);
        DriveNonNegative(samples[1..], sep, error);
        ConsNonNegative(st.rec, Drive(samples[1..], sep, error));
      } else if st.error == ParsingError {
        DriveSkips(samples, sep, error);
        DriveNonNegative(samples[1..], sep, ParsingError);
      } else {
        DriveEnds(samples, sep, error, st.error);
      }
    }
  }

  lemma ConsNonNegative(r: Record, rs: seq<Record>)
    requires 0 <= r.age && 0 <= r.height && NonNegative(rs)
    ensures NonNegative([r] + rs)
  {
    assert forall i :: 1 <= i < |rs| + 1 ==> ([r] + rs)[i] == rs[i - 1];
  }

  /** Records with no negative number. */
  predicate NonNegative(rs: seq<Record>) {
    forall i :: 0 <= i < |rs| ==> 0 <= rs[i].age && 0 <= rs[i].height
  }

  /** The sums over non-negative records are not negative. */
  lemma {:induction false} FoldSumsNonNegative(rs: seq<Record>)
    requires NonNegative(rs)
    ensures 0 <= Fold(rs).sumAge && 0 <= Fold(rs).sumHeight
    decreases |rs|
  {
    if rs != [] {
      FoldSumsNonNegative(rs[..|rs| - 1]);
    }
  }

  /** Over non-negative records the sums of a prefix are at most the sums of the whole. */
  lemma PrefixSums(a: seq<Record>, b: seq<Record>)
    requires NonNegative(a + b)
    ensures 0 <= Fold(a).sumAge <= Fold(a + b).sumAge
    ensures 0 <= Fold(a).sumHeight <= Fold(a + b).sumHeight
  {
    assert forall i :: 0 <= i < |a| ==> a[i] == (a + b)[i];
    assert forall i :: 0 <= i < |b| ==> b[i] == (a + b)[|a| + i];
    FoldSumsNonNegative(a);
    FoldSumsNonNegative(b);
    FoldAppend(a, b);
  }

  /** `main`'s `int` sums and count do not overflow on the records it collects from `samples`:
      C gives an overflowing `int` no defined meaning. */
  predicate NoOverflow(samples: seq<ReadOutcome>, sep: char) {
    var rs := Drive(samples, sep, NoError);
    Fold(rs).sumAge <= INT_MAX && Fold(rs).sumHeight <= INT_MAX && |rs| <= INT_MAX
  }

  /** Every outcome is a well-formed read, and every line read decodes without overflow. */
  predicate Readable(samples: seq<ReadOutcome>, sep: char) {
    forall i :: 0 <= i < |samples| ==>
      WellFormed(samples[i]) && (samples[i].LineRead? ==> DecodableLine(samples[i].buffer, sep))
  }

  /** What `main` reports: the header could not be read (with the error it left), or the
      statistics after the loop and whether `person_statistics_print` ran. */
  datatype Report =
    | HeaderFailed(error: Error)
    | Finished(stats: Stats, printed: bool)

  /** `main` on the header read `header` and the sample reads `samples`, with `sep` the
      separator. The file is read through a `csv_sample_reader_t`, the samples land in one
      `person_t`, and the statistics are updated in place. */
  method Run(sep: char, header: ReadOutcome, samples: seq<ReadOutcome>) returns (report: Report)
    requires WellFormed(header) && Readable(samples, sep)
    requires Terminated(samples) && NoOverflow(samples, sep)
    ensures report.Finished? <==> header.LineRead?
    ensures !header.LineRead? ==> report == HeaderFailed(ReadError(header, NoError))
    ensures header.LineRead? ==>
              var rs := Drive(samples, sep, NoError);
              report == Finished(Fold(rs), |rs| != 0)
  {
    var reader := new CsvSampleReader(sep);
    var error := NoError;
    var ok;
    ok, error := reader.ReadLine(header, error);
    if !ok {
      return HeaderFailed(error);
    }
    assert error == NoError;
    var stats := Process(reader, samples);
    return Finished(stats.Value(), stats.count != 0);
  }

  /** The loop of `main`, once the header is read and `*error` still holds `no_error`:
      one `person_t` receives each sample, and the statistics start from
      `person_statistics_init`. */
  method Process(reader: CsvSampleReader, samples: seq<ReadOutcome>) returns (stats: PersonStatistics)
    requires reader.Valid() && Readable(samples, reader.sep)
    requires Terminated(samples) && NoOverflow(samples, reader.sep)
    modifies reader.buffer
    ensures stats.Value() == Fold(Drive(samples, reader.sep, NoError))
  {
    var sep := reader.sep;
    var error := NoError;
    stats := new PersonStatistics();
    var person := new Person();
    var processing := true;
    var i := 0;
    ghost var acc: seq<Record> := [];
    ghost var all := Drive(samples, sep, NoError);
    DriveNonNegative(samples, sep, NoError);

    while processing
      invariant 0 <= i <= |samples| && (processing ==> i < |samples|)
      invariant reader.Valid() && person.Valid() && person.name != reader.buffer
      invariant processing ==> acc + Drive(samples[i..], sep, error) == all
      invariant !processing ==> acc == all
      invariant stats.Value() == Fold(acc)
      decreases |samples| - i
    {
      ghost var rest := samples[i..];
      assert rest[1..] == samples[i + 1..];
      assert i == |samples| - 1 ==> Stops(rest[0]);
      processing, error, acc := FeedSample(reader, person, stats, samples[i], error, rest, acc, all);
      i := i + 1;
    }
  }

  /** One round of the loop of `main`: `read_sample`, then `person_statistics_update` on
      success, or the reaction to the error on failure. `rest` is what is left of the read
      stream, starting with `o`; `acc` the records fed so far and `all` those of the whole run.
      `acc'` is `acc` with the record of this round, if there is one. */
  method FeedSample(reader: CsvSampleReader, person: Person, stats: PersonStatistics,
                    o: ReadOutcome, error: Error,
                    ghost rest: seq<ReadOutcome>, ghost acc: seq<Record>, ghost all: seq<Record>)
    returns (processing: bool, error': Error, ghost acc': seq<Record>)
    requires reader.Valid() && person.Valid() && person.name != reader.buffer
    requires |rest| > 0 && rest[0] == o && WellFormed(o)
    requires o.LineRead? ==> DecodableLine(o.buffer, reader.sep)
    requires stats.Value() == Fold(acc) && acc + Drive(rest, reader.sep, error) == all
    requires NonNegative(all) && Fold(all).sumAge <= INT_MAX && Fold(all).sumHeight <= INT_MAX && |all| <= INT_MAX
    modifies reader.buffer, person, person.name, stats
    ensures processing ==> acc' + Drive(rest[1..], reader.sep, error') == all
    ensures !processing ==> acc' == all
    ensures stats.Value() == Fold(acc')
    ensures Stops(o) ==> !processing
    ensures var st := SampleStep(o, reader.sep, error);
            (processing <==> st.Got? || st == Failed(ParsingError)) &&
            error' == (if st.Got? then error else st.error)
  {
    var sep := reader.sep;
    ghost var st := SampleStep(o, sep, error);
    var ok;
    ok, error' := reader.ReadSample(person, o, error);
    if ok {
      Fed(rest, sep, error, acc, all);
      stats.Update(person);
      acc' := acc + [st.rec];
      return true, error', acc';
    }
    acc' := acc;
    Rejected(rest, sep, error, acc, all);
    if error' == EndOfFileError {
      processing := false;
    } else if error' == ParsingError {
      processing := true;
    } else if error' == ReadingError {
      processing := false;
    } else {
      processing := false;
    }
  }

  /** After a sample that parses, the run goes on with one more record fed, and the sums
      and the count have room for it. */
  lemma Fed(rest: seq<ReadOutcome>, sep: char, error: Error, acc: seq<Record>, all: seq<Record>)
    requires |rest| > 0 && SampleStep(rest[0], sep, error).Got?
    requires acc + Drive(rest, sep, error) == all
    requires NonNegative(all) && Fold(all).sumAge <= INT_MAX && Fold(all).sumHeight <= INT_MAX && |all| <= INT_MAX
    ensures var r := SampleStep(rest[0], sep, error).rec;
            0 <= Fold(acc).sumAge + r.age <= INT_MAX && 0 <= Fold(acc).sumHeight + r.height <= INT_MAX &&
            Fold(acc).count < INT_MAX &&
            Fold(acc + [r]) == Step(Fold(acc), r.age, r.height) &&
            (acc + [r]) + Drive(rest[1..], sep, error) == all
  {
    var r := SampleStep(rest[0], sep, error).rec;
    var d := Drive(rest[1..], sep, error);
    DriveGot(rest, sep, error, r);
    Regroup(acc, [r], d);
    StatsRoom(acc, r, d, all);
    FoldSnoc(acc, r);
  }

  /** After a sample that does not parse, the run goes on exactly on a parsing error, with
      nothing fed, and otherwise has fed everything. */
  lemma Rejected(rest: seq<ReadOutcome>, sep: char, error: Error, acc: seq<Record>, all: seq<Record>)
    requires |rest| > 0 && SampleStep(rest[0], sep, error).Failed?
    requires acc + Drive(rest, sep, error) == all
    ensures var e := SampleStep(rest[0], sep, error).error;
            (e == ParsingError ==> acc + Drive(rest[1..], sep, e) == all) &&
            (e != ParsingError ==> acc == all)
  {
    var e := SampleStep(rest[0], sep, error).error;
    if e == ParsingError {
      DriveSkips(rest, sep, error);
    } else {
      DriveEnds(rest, sep, error, e);
      assert acc + [] == acc;
    }
  }

  lemma Regroup(a: seq<Record>, b: seq<Record>, c: seq<Record>)
    ensures (a + b) + c == a + (b + c)
  {
  }

  /** `Fold` of a sequence with one more record is one more `Step`. */
  lemma FoldSnoc(acc: seq<Record>, r: Record)
    ensures Fold(acc + [r]) == Step(Fold(acc), r.age, r.height)
  {
    assert (acc + [r])[..|acc|] == acc;
  }

  /** Feeding `r` after `acc` keeps the sums and the count within a C `int` when the
      whole run `all` does. */
  lemma StatsRoom(acc: seq<Record>, r: Record, rest: seq<Record>, all: seq<Record>)
    requires all == acc + [r] + rest && NonNegative(all)
    requires Fold(all).sumAge <= INT_MAX && Fold(all).sumHeight <= INT_MAX && |all| <= INT_MAX
    ensures 0 <= Fold(acc).sumAge + r.age <= INT_MAX && 0 <= Fold(acc).sumHeight + r.height <= INT_MAX
    ensures Fold(acc).count < INT_MAX
  {
    PrefixSums(acc + [r], rest);
    FoldSnoc(acc, r);
  }
}

/** What the loop of `main` collects, stated apart from the loop itself. */
module DriverProperties {
  import opened CTypes
  import opened IntegerDecoder
  import opened People
  import opened Statistics
  import opened SampleReader
  import opened Driver

  /** The rows of `samples` that are lines and parse, in order: what a run collects when
      no read fails before the last. */
  function ParsedRows(samples: seq<ReadOutcome>, sep: char): seq<Record>
    decreases |samples|
  {
    if samples == [] then []
    else
      var here := if samples[0].LineRead? && ParseLine(samples[0].buffer, sep).Some?
                  then [ParseLine(samples[0].buffer, sep).value] else [];
      here + ParsedRows(samples[1..], sep)
  }

  /** Reads after the end of the file or a read failure never count. */
  lemma {:induction false} NothingAfterStopCounts(a: seq<ReadOutcome>, b: seq<ReadOutcome>, sep: char, error: Error)
    requires Terminated(a)
    ensures Drive(a + b, sep, error) == Drive(a, sep, error)
    decreases |a|
  {
    var ab := a + b;
    assert ab[0] == a[0];
    var st := SampleStep(a[0], sep, error);
    if |a| == 1 {
      assert Stops(a[0]);
      DriveEnds(ab, sep, error, st.error);
      DriveEnds(a, sep, error, st.error);
    } else {
      assert ab[1..] == a[1..] + b;
      assert a[1..][|a| - 2] == a[|a| - 1];
      if st.Got? {
        DriveGot(ab, sep, error, st.rec);
        DriveGot(a, sep, error, st.rec);
        NothingAfterStopCounts(a[1..], b, sep, error);
      } else if st.error == ParsingError {
        DriveSkips(ab, sep, error);
        DriveSkips(a, sep, error);
        NothingAfterStopCounts(a[1..], b, sep, ParsingError);
      } else {
        DriveEnds(ab, sep, error, st.error);
        DriveEnds(a, sep, error, st.error);
      }
    }
  }

  /** When every read but the last returns a line, the run collects exactly the rows that
      parse, whatever `*error` held at the start: rows that do not parse are skipped. */
  lemma {:induction false} CleanRunKeepsParsedRows(samples: seq<ReadOutcome>, sep: char, error: Error)
    requires Terminated(samples)
    requires forall i :: 0 <= i < |samples| - 1 ==> samples[i].LineRead?
    ensures Drive(samples, sep, error) == ParsedRows(samples, sep)
    decreases |samples|
  {
    var o := samples[0];
    var st := SampleStep(o, sep, error);
    if |samples| == 1 {
      assert Stops(o);
      DriveEnds(samples, sep, error, st.error);
      assert ParsedRows(samples[1..], sep) == [];
    } else {
      var tail := samples[1..];
      assert tail[|tail| - 1] == samples[|samples| - 1];
      assert forall i :: 0 <= i < |tail| - 1 ==> tail[i] == samples[i + 1];
      assert o.LineRead?;
      if st.Got? {
        DriveGot(samples, sep, error, st.rec);
        CleanRunKeepsParsedRows(tail, sep, error);
      } else {
        DriveSkips(samples, sep, error);
        CleanRunKeepsParsedRows(tail, sep, ParsingError);
        assert [] + ParsedRows(tail, sep) == ParsedRows(tail, sep);
      }
    }
  }

  /** A failed read that sets neither end of file nor read error leaves `*error` as it
      was: right after a parsing error it is taken for one more parsing error and the
      loop goes on; before any parsing error it ends the loop as an unknown error. */
  lemma UnflaggedFailure(rest: seq<ReadOutcome>, sep: char)
    ensures Drive([Unflagged] + rest, sep, ParsingError) == Drive(rest, sep, ParsingError)
    ensures Drive([Unflagged] + rest, sep, NoError) == []
  {
    var s := [Unflagged] + rest;
    assert s[0] == Unflagged && s[1..] == rest;
    DriveSkips(s, sep, ParsingError);
    DriveEnds(s, sep, NoError, NoError);
  }
}
