/** The CSV line parser: a cursor over one line that hands out its fields one at a time,
    each as a zero-copy span into the line buffer. */
module LineParser {
  import opened CTypes
  import opened CharSpans

  /** A field ends at the separator or at a newline. */
  predicate IsTerminator(c: char, sep: char) {
    c == sep || c == '\n'
  }

  /** The first index at or after `from` that holds a terminator, if there is one. */
  function FindTerminator(s: seq<char>, from: nat, sep: char): (r: Option<nat>)
    requires from <= |s|
    ensures r.Some? ==> from <= r.value < |s| && IsTerminator(s[r.value], sep)
    ensures forall j :: from <= j < (if r.Some? then r.value else |s|) ==> !IsTerminator(s[j], sep)
    decreases |s| - from
  {
    if from == |s| then None
    else if IsTerminator(s[from], sep) then Some(from)
    else FindTerminator(s, from + 1, sep)
  }

  /** What one call of the parser finds at cursor `first`. */
  datatype Step =
    | Field(last: nat)   // a field [first, last) ended by the terminator at `last`
    | EmptyField         // the cursor is at the end of the line or on a terminator
    | Unterminated       // no terminator between the cursor and the end of the line

  /** The outcome of reading the field that starts at `first` in the line `s`. */
  function NextField(s: seq<char>, first: nat, sep: char): (r: Step)
    requires first <= |s|
    ensures r.EmptyField? <==> first == |s| || IsTerminator(s[first], sep)
    ensures r.Unterminated? ==> forall j :: first <= j < |s| ==> !IsTerminator(s[j], sep)
    ensures r.Field? ==>
              first < r.last < |s| && IsTerminator(s[r.last], sep) &&
              forall j :: first <= j < r.last ==> !IsTerminator(s[j], sep)
  {
    if first == |s| || IsTerminator(s[first], sep) then EmptyField
    else match FindTerminator(s, first, sep)
      case Some(k) => Field(k)
      case None => Unterminated
  }

  /** A non-empty run of non-terminators followed by a terminator is read as one field. */
  lemma NextFieldAt(s: seq<char>, first: nat, last: nat, sep: char)
    requires first < last < |s| && IsTerminator(s[last], sep)
    requires forall j :: first <= j < last ==> !IsTerminator(s[j], sep)
    ensures NextField(s, first, sep) == Field(last)
  {
  }

  /** `csv_line_parser`: the cursor `first` into `line` and the separator. */
  class CsvLineParser {
    var first: int
    const sep: char
    const line: CharSpan

    ghost predicate Valid()
      reads this
    {
      line.InBounds() && 0 <= first <= line.size
    }

    /** The characters of the line the parser walks over. */
    function Text(): (t: seq<char>)
      reads line.data
      requires line.InBounds()
      ensures |t| == line.size
    {
      line.Chars()
    }

    /** `csv_line_parser_init`: the cursor starts at the beginning of the line. */
    constructor (line: CharSpan, sep: char)
      requires line.InBounds()
      ensures Valid()
      ensures this.line == line && this.sep == sep && first == 0
    {
      this.first := 0;
      this.sep := sep;
      this.line := line;
    }

    /** `csv_line_parser_get_value`. `prev` is what the caller's `value` held before the call:
        it comes back unchanged when no terminator follows the cursor.
        Only the cursor changes, it never decreases and never passes the end of the line,
        and every character read lies inside the line (through `CharSpan.At`). */
    method GetValue(prev: CharSpan) returns (found: bool, value: CharSpan)
      requires Valid()
      modifies this`first
      ensures Valid() && old(first) <= first
      ensures match NextField(Text(), old(first), sep)
                case Field(last) =>
                  found && first == last + 1 &&
                  value == CharSpan(line.data, line.offset + old(first), last - old(first))
                case EmptyField =>
                  !found && first == old(first) && value == CharSpan(line.data, line.offset + first, 0)
                case Unterminated =>
                  !found && first == old(first) && value == prev
    {
      if first == line.size || IsTerminator(line.At(first), sep) {
        return false, CharSpan(line.data, line.offset + first, 0);
      }
      for last := first to line.size
        invariant forall j :: first <= j < last ==> !IsTerminator(Text()[j], sep)
      {
        if IsTerminator(line.At(last), sep) {
          NextFieldAt(Text(), first, last, sep);
          value := CharSpan(line.data, line.offset + first, last - first);
          first := last + 1;
          return true, value;
        }
      }
      return false, prev;
    }
  }
}
