/** `char_span_t`: a non-owning view of characters inside a buffer. */
module CharSpans {

  /** A span of `size` characters of `data`, starting at `offset`.
      The C struct holds a pointer into the buffer; here the pointer is the array plus an offset. */
  datatype CharSpan = CharSpan(data: array<char>, offset: nat, size: nat) {

    predicate InBounds() {
      offset + size <= data.Length
    }

    /** The characters the span views. */
    function Chars(): (r: seq<char>)
      reads data
      requires InBounds()
      ensures |r| == size
    {
      data[offset..offset + size]
    }

    /** `span.data[i]`; the precondition is what keeps every read inside the span. */
    function At(i: nat): (c: char)
      reads data
      requires InBounds() && i < size
      ensures c == Chars()[i]
    {
      data[offset + i]
    }
  }

  /** A sub-span views exactly the slice of the characters it was cut from. */
  lemma SubChars(sp: CharSpan, a: nat, b: nat)
    requires sp.InBounds() && a <= b <= sp.size
    ensures var sub := CharSpan(sp.data, sp.offset + a, b - a);
            sub.InBounds() && sub.Chars() == sp.Chars()[a..b]
  {
  }
}
