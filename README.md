# A verified model of the `c-file` CSV sample reader

`main.c` reads a comma-separated file of people. The first line is a header. Every later line
holds `name,age,height`. For each line the program:

- splits the line into fields with a small zero-copy line parser (`csv_line_parser`);
- copies the name into a fixed 50-character `name_t`;
- decodes the age and the height with `parse_integer`;
- stores the three in a `person_t`;
- feeds the person to running statistics (`person_statistics_t`): the minimum, maximum and sum
  of the ages and of the heights, and a count.

A row that does not parse is reported and skipped. The loop stops at the end of the file, on a
read error, or on any other error. It prints the statistics when at least one person was read.

This project models that core in Dafny and proves properties of it.

- The state the C code updates in place is modelled as classes with `modifies` frames and loops
  with invariants:
  - the parser cursor (`LineParser.CsvLineParser`);
  - the reader's 256-character line buffer (`SampleReader.CsvSampleReader`);
  - the name buffers (`Names`);
  - the person (`People.Person`);
  - the statistics (`Statistics.PersonStatistics`);
  - the loop of `main` (`Driver.Process`).
- Each of these methods is proved against a pure specification function:
  - `LineParser.NextField`: one field read;
  - `IntegerDecoder.Decode`: decoding a number;
  - `SampleReader.ParseLine`: the record a line yields;
  - `Statistics.Fold`: the statistics after a sequence of records;
  - `Driver.Drive`: the records the loop feeds.
- Lemmas about these functions then state what the program promises. Examples:
  - decoding round-trips with decimal printing;
  - each way a row can be rejected;
  - the statistics do not depend on the order of the records;
  - the minimum and maximum bound every record and are attained;
  - when every read before the last returns a line, the loop collects exactly the rows that parse;
  - nothing read after the end of the file counts.

Files (one module each, except `driver.dfy`, which holds `Driver` and `DriverProperties`):

- `ctypes.dfy`: `error_t` and C `int`.
- `char_span.dfy`: `char_span_t`.
- `line_parser.dfy`: the line parser.
- `integer_decoder.dfy`: `is_digit`, `to_integer` and `parse_integer`.
- `names.dfy`: `name_t` and its copies.
- `person.dfy`: `person_t`.
- `statistics.dfy`: the statistics.
- `sample_reader.dfy`: the reader.
- `driver.dfy`: `main`.
- `scenarios.dfy`: worked runs on small files.

The file itself is abstracted as the sequence of outcomes of its `fgets` calls, `SampleReader.ReadOutcome`:

- a line read, given as the whole 256-character buffer afterwards;
- end of file;
- a read error;
- a failed read with neither flag set, which `file_read_line` (`main.c:45-57`) reports without touching `*error`.

## Model

| member | source | states |
|---|---|---|
| LineParser.NextField | main.c:105-126 | A field read at the cursor is empty exactly when the cursor is at the end of the line or on a separator or newline. Otherwise it ends at the first terminator after the cursor, with no terminator inside. It is unterminated when no terminator is left in the line. |
| LineParser.NextFieldAt | main.c:114-123 | A non-empty run of non-terminators followed by a terminator is read as exactly that field. |
| LineParser.CsvLineParser.constructor | main.c:97-103 | The parser starts with its cursor at 0, on the given line and separator. |
| LineParser.CsvLineParser.GetValue | main.c:105-126 | On a field: returns true, returns the span of the field inside the line, and moves the cursor past its terminator. On an empty field: returns false with an empty span at the cursor and the cursor unmoved. On an unterminated field: returns false and leaves both the caller's span and the cursor unchanged. The cursor never goes back and never passes the end of the line. |
| IntegerDecoder.DigitCharacters | main.c:173 | A character is a digit exactly when it is one of `0` to `9`. |
| IntegerDecoder.ToInteger | main.c:171 | The value of a decimal digit character is between 0 and 9. |
| IntegerDecoder.DigitsValue | main.c:184-194 | The left-to-right decimal fold of n digits is at least 0 and below 10^n. |
| IntegerDecoder.LeadingDigits | main.c:185-191 | The length of the longest all-digit prefix: every character before it is a digit, and the one at it is not. |
| IntegerDecoder.DecodeCases | main.c:175-196 | A field decodes exactly when it is non-empty and all digits, to a value below 10^length. An empty field is `empty_buffer_error`. Any other failure is `invalid_value_error`, and the character at the end of the leading digits is then a non-digit. |
| IntegerDecoder.ParseInteger | main.c:175-196 | Succeeds exactly when the token decodes, that is when it is non-empty and all digits. It then returns the decimal value and leaves `*error` alone. An empty token gives `empty_buffer_error` and leaves `*num` unchanged. A non-digit gives `invalid_value_error` and leaves `*num` holding the value of the digits before it. |
| IntegerDecoder.DigitsValuePrefix | main.c:192-193 | The accumulated `*num` never decreases as digits are folded in, so no intermediate value exceeds the final one. |
| IntegerDecoder.DecimalRoundTrip | main.c:175-196 | Decoding the decimal text of any natural number gives that number back. |
| IntegerDecoder.LeadingZeroIgnored | main.c:184-194 | A leading `0` does not change a token's value. |
| Names.CString | main.c:143 | The C string held by a buffer is a prefix of it with no NUL, and the buffer holds a NUL right after it. |
| Names.StoredName | main.c:140-149 | The name a record receives from a field is at most 49 characters long, has no NUL, and is a prefix of the field. |
| Names.NameCopyFromSpan | main.c:131-138 | As written: it copies every character of the span and writes a NUL after them. It is memory-safe only for spans shorter than the 50-character buffer, and nothing else in the buffer changes. |
| Names.NameCopyFromSpanTruncating | main.c:131-138 | The corrected copy: at most 49 characters, NUL-terminated. The C string left in the buffer is `StoredName` of the span. |
| Names.NameCopy | main.c:140-149 | The destination holds the source's C string, cut to 49 characters and NUL-terminated. Nothing after the NUL changes. |
| Names.ShortNameStored | main.c:140-149 | A name shorter than the buffer and free of NUL is stored whole. |
| People.Person.Init | main.c:158-163 | The person holds the C string of the given name buffer and the given age and height. |
| Statistics.IntMin | main.c:209 | The result is at most both arguments and equals one of them. |
| Statistics.IntMax | main.c:211 | The result is at least both arguments and equals one of them. |
| Statistics.Step | main.c:224-234 | One update: the new minimum and maximum bound the new age and height. Each is the old bound or the new value, and can only move outward. The sums grow by exactly the new age and height, and the count grows by one. |
| Statistics.Fold | main.c:224-234 | After feeding a sequence of records, the count is their number. |
| Statistics.StepCommutes | main.c:224-234 | Two updates in either order give the same statistics. |
| Statistics.FoldRemove | main.c:224-234 | The statistics equal those of the other records, updated last with any chosen record. |
| Statistics.FoldPermutation | main.c:224-234 | Two sequences with the same multiset of records give the same statistics. |
| Statistics.FoldAppend | main.c:229-232 | The sums over a concatenation are the sums of the parts. |
| Statistics.FoldSums | main.c:229-232 | The running sums are the plain sums of the ages and of the heights fed. |
| Statistics.FoldBounds | main.c:213-234 | Every fed age and height lies between the minimum and the maximum. Once a record has been fed, each minimum and maximum is some record's value, and each minimum is at most the maximum. |
| Statistics.PersonStatistics.constructor | main.c:213-222 | The minimums start at INT_MAX, the maximums at INT_MIN, and the sums and count at 0. |
| Statistics.PersonStatistics.Update | main.c:224-234 | The new statistics are one `Step` of the old ones with the person's age and height. The step takes the minimum and maximum and adds to the sums and the count. |
| SampleReader.ReadError | main.c:42-60 | A failed read with neither flag set leaves `*error` as it was. A flagged failure always sets an error that is neither `no_error` nor `parsing_error`. |
| SampleReader.SampleStepCases | main.c:272-328 | One `read_sample` yields a record exactly when the read returns a line that parses, and the record is then that line's. A line that does not parse fails with `parsing_error`. A failed read fails with the read error. |
| SampleReader.FieldEnds | main.c:287-318 | When the first three fields are all found, their terminators come in increasing order inside the line. |
| SampleReader.Assemble | main.c:305-326 | A record made up of fields always has non-negative numbers and a name that fits `name_t`. |
| SampleReader.ParseLine | main.c:283-327 | The record a line yields has non-negative numbers and a name shorter than 50 characters. |
| SampleReader.FieldEndsAt | main.c:287-318 | The three field ends are those that the three parser calls find. |
| SampleReader.ParseLineByFields | main.c:287-326 | Once all three fields are found, the line's record is assembled from exactly those three spans. |
| SampleReader.NoNameField | main.c:290-295 | A row whose name field is missing or unterminated is rejected. |
| SampleReader.NoAgeField | main.c:299-304 | A row whose age field is missing or unterminated is rejected. |
| SampleReader.BadAge | main.c:305-310 | A row whose age field does not decode is rejected, however the rest reads. |
| SampleReader.NoHeightField | main.c:313-318 | A row whose height field is missing or unterminated is rejected. |
| SampleReader.BadHeight | main.c:319-324 | A row whose height field does not decode is rejected. |
| SampleReader.GoodRow | main.c:326-327 | A row whose three fields are found and whose numbers decode yields the stored name and the two values. |
| SampleReader.TokenField | main.c:114-123 | A non-empty token free of terminators, followed by a terminator, is read as one field spanning exactly the token. |
| SampleReader.RowParses | main.c:283-327 | Take a line with a non-empty name up to the first separator, then digits up to the second separator and digits up to the next terminator. It yields the stored name and the decimal values of the two numbers. Anything after the third field is ignored. |
| SampleReader.RowOfText | main.c:283-327 | A buffer that starts with `name,age,height` and a newline yields that record, whatever follows. |
| SampleReader.ParseLineByTokens | main.c:287-326 | The record is assembled from the text of the three fields. |
| SampleReader.AssembleDigits | main.c:305-326 | Two non-empty all-digit numeric fields always assemble into a record of their decimal values. |
| SampleReader.UnterminatedRowIsRejected | main.c:262 | The span covers the whole buffer, so a last line without a newline has its NUL read as part of the height field. Such a row is always rejected. |
| SampleReader.NulInThirdFieldRejects | main.c:313-324 | A NUL in the third field, before its terminator, makes the row unparsable. |
| SampleReader.NulDoesNotDecode | main.c:187-191 | A token holding a NUL is not a number. |
| SampleReader.CsvSampleReader.constructor | main.c:254-264 | The line span covers the whole 256-character buffer, not just the characters read. |
| SampleReader.CsvSampleReader.ReadLine | main.c:42-60 | Returns true exactly on a line, and the buffer then holds it. A failed read sets `end_of_file_error` or `reading_error`, or leaves `*error` alone when neither flag is set. |
| SampleReader.CsvSampleReader.ReadSample | main.c:272-328 | Succeeds exactly when the read returns a line that parses. On success the person holds its record and `*error` is untouched. On failure the person is not changed, and the error is the read error, or `parsing_error` for any row-level failure. |
| SampleReader.CsvSampleReader.ParseBuffer | main.c:281-327 | Succeeds exactly when `ParseLine` of the buffer yields a record, and the person then holds it. Otherwise the result is `parsing_error` and the person is unchanged. |
| SampleReader.ParseFields | main.c:287-325 | Parsing the three fields succeeds exactly when the line parses, with the name left in the local `name_t` and the two numbers of the line's record. |
| SampleReader.NumberFields | main.c:298-325 | Once the name ends at `l1`, the age and height steps succeed exactly when the line parses, giving its record's numbers. |
| SampleReader.HeightField | main.c:312-325 | Once the age has decoded, the height step succeeds exactly when the line parses. |
| SampleReader.NameField | main.c:289-296 | The name step succeeds exactly when the first field is found, and the local `name_t` then holds its stored name. |
| SampleReader.NumericField | main.c:299-310 | Found exactly when the next field is there. Parsed only when it decodes, and then its value is returned and `*error` is untouched. |
| SampleReader.LongNameOverrunsNameBuffer | main.c:296 | A line with a 60-character name hands `name_copy_from_span` a span longer than `name_t`. With the bounded copy the line is accepted, with a 49-character name. |
| Driver.Drive | main.c:355-385 | The loop feeds at most one record per read. |
| Driver.DriveGot | main.c:357-362 | A sample that parses is fed, and the loop goes on with `*error` unchanged. |
| Driver.DriveSkips | main.c:370-373 | A parsing error is skipped, and the loop goes on with `parsing_error` in `*error`. |
| Driver.DriveEnds | main.c:365-383 | End of file, a read error or any other error ends the loop. |
| Driver.DriveNonNegative | main.c:355-385 | Every record the loop feeds has a non-negative age and height. |
| Driver.FoldSumsNonNegative | main.c:229-232 | Over non-negative records the sums are not negative. |
| Driver.PrefixSums | main.c:229-232 | Over non-negative records, the sums of a prefix are at most the sums of the whole. |
| Driver.Run | main.c:335-410 | A header that cannot be read reports its error and nothing else. Otherwise the run ends with the statistics of exactly the records `Drive` collects, and prints them exactly when that count is non-zero. |
| Driver.Process | main.c:348-392 | The loop leaves the statistics equal to `Fold` of the records `Drive` collects from the samples. |
| Driver.FeedSample | main.c:357-384 | One round goes on exactly when the sample parses or the failure is `parsing_error`; end of file, a read error and any other error stop the loop. `*error` stays unchanged after a fed sample and otherwise becomes the sample's error. The records fed and the statistics keep up with `Drive`. |
| Driver.Fed | main.c:357-362 | After a sample that parses, the sums and count have room for its record, and the run goes on with it fed. |
| Driver.Rejected | main.c:363-384 | After a sample that fails, the run goes on exactly on a parsing error, with nothing fed, and otherwise everything has been fed. |
| DriverProperties.NothingAfterStopCounts | main.c:365-383 | Reads after the end of the file or a read failure never count. |
| DriverProperties.CleanRunKeepsParsedRows | main.c:355-385 | When every read before the last returns a line, the loop feeds exactly the rows that parse, in order, whatever `*error` held at the start. |
| DriverProperties.UnflaggedFailure | main.c:42-60 | A failed read with neither flag set keeps the old `*error`. Right after a parsing error the loop takes it for another one and goes on. Before any error it ends the loop as an unknown error. |
| Scenarios.AliceParses | main.c:272-328 | The line `Alice,30,170` yields the person (Alice, 30, 170). |
| Scenarios.EveRejected | main.c:305-310 | The line `Eve,abc,160` is rejected because its age is not a number. |
| Scenarios.TwoRowScenario | main.c:335-410 | A file with two good rows feeds both. The statistics are ages 25..30 with sum 55, heights 170..180 with sum 350, and count 2. |
| Scenarios.BadAgeScenario | main.c:355-385 | A row with a bad age between two good rows is skipped, and the other two are fed. |
| Scenarios.HeaderOnlyScenario | main.c:386-392 | A file with only a header feeds nothing, and no statistics are printed. |

## Left out

- SampleReader.NameField: copies the name with the bounded `Names.NameCopyFromSpanTruncating`, not the unbounded `name_copy_from_span` that `main.c:296` calls. So `SampleReader.ParseLine`, `SampleReader.CsvSampleReader.ReadSample`, `Driver.Drive` and `Driver.Run` model the corrected program: a name field of 50 or more characters is cut to 49. In the C code that field overruns `name_t`, which is undefined behaviour (see Findings).
- Opening and closing the file (`file_open`, `file_close`, `csv_sample_reader_init`'s open and `csv_sample_reader_deinit`): these are I/O. Each read is given to the model as `ReadOutcome`, so `fgets` itself is not modelled.
- `CsvSampleReader.ReadLine`: it receives the buffer contents `fgets` leaves, but does not model how `fgets` fills them (the NUL after the line, the 255-character cut of a long line).
- `printf`/`fprintf` logging, `person_print` and `person_statistics_print`: output only. The mean is a `float` division and is not modelled. The model reports only whether the print would run.
- `IntegerDecoder.ParseInteger` requires that the leading digits of the token fit a C `int` (`Fits`). Past `INT_MAX` the C multiplication overflows, which is undefined behaviour, so the model assumes it does not happen instead of giving it a meaning.
- `Statistics.PersonStatistics.Update` requires that the sums and the count do not overflow, for the same reason.
- `Driver.Run` requires the same of the whole run (`NoOverflow`).
- `Driver.Run`, `DriverProperties.NothingAfterStopCounts` and `DriverProperties.CleanRunKeepsParsedRows` take a finite read stream that ends with the end of the file or a read error (`Terminated`). Endless reads that keep failing without a flag, after a parsing error, are not modelled.
- `Driver.Run` requires `DecodableLine` of every line in the stream, including lines after the loop has stopped.
- `Driver.Run` starts from a fresh reader. The C `main` also returns if `csv_sample_reader_init` fails to open the file; that branch is I/O and left out.
- The reader's buffer contents after a failed read are whatever they were before. The model keeps them, but nothing depends on them.
- A last line without a final newline is commonly read as an ordinary row. This code rejects it instead (`SampleReader.UnterminatedRowIsRejected`), because the line span covers the whole 256-character buffer rather than the characters read. The model follows the code.

## Findings

| source | as written | input that shows it | evidently intended | confidence | as-written member | corrected member |
|---|---|---|---|---|---|---|
| main.c:131-138, main.c:296 | `name_copy_from_span` copies all `size` characters of the span into the 50-character `name_t` and writes NUL at index `size`, with no bound check. `read_sample` calls it on the name field unguarded. | A line whose name field has 60 characters, then `,1,2` and a newline: the span has size 60, so the copy writes past the end of `name_t`. | Copy at most 49 characters and always NUL-terminate, as `name_copy` does. | not executed | Names.NameCopyFromSpan (witness SampleReader.LongNameOverrunsNameBuffer) | Names.NameCopyFromSpanTruncating |
