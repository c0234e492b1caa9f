/** `name_t` and its copy routines: a fixed 50-character buffer holding a NUL-terminated name. */
module Names {
  import opened CharSpans

  /** `name_capacity`: room for 49 visible characters and the terminating NUL. */
  const NAME_CAPACITY: nat := 50

  function Min(a: nat, b: nat): nat {
    if a < b then a else b
  }

  /** The C string that `s` holds: its characters up to the first NUL. */
  function CString(s: seq<char>): (r: seq<char>)
    ensures r <= s && '\0' !in r
    ensures |r| < |s| ==> s[|r|] == '\0'
  {
    if s == [] || s[0] == '\0' then [] else [s[0]] + CString(s[1..])
  }

  /** A buffer whose first `|t|` characters are `t` followed by a NUL holds the same C string as `t`. */
  lemma {:induction false} CStringStopsAtNul(buf: seq<char>, t: seq<char>)
    requires t <= buf && (|t| < |buf| ==> buf[|t|] == '\0')
    ensures CString(buf) == CString(t)
  {
    if t != [] && t[0] != '\0' {
      CStringStopsAtNul(buf[1..], t[1..]);
    }
  }

  /** The buffer `buf` holds the C string `n`: `n` followed by its NUL. */
  predicate HoldsName(buf: seq<char>, n: seq<char>) {
    |n| < |buf| && buf[..|n|] == n && buf[|n|] == '\0'
  }

  /** The name a record ends up with from the name field `field`: at most
      NAME_CAPACITY - 1 characters of it, and none from the first NUL on. */
  function StoredName(field: seq<char>): (r: seq<char>)
    ensures |r| < NAME_CAPACITY && r <= field && '\0' !in r
    ensures |r| < NAME_CAPACITY - 1 && |r| < |field| ==> field[|r|] == '\0'
  {
    CString(field[..Min(|field|, NAME_CAPACITY - 1)])
  }

  /** `name_copy_from_span` as written: copies all `size` characters of the span and writes NUL
      at index `size`, with no bound check. It is memory-safe only when `size < NAME_CAPACITY`,
      which is therefore its precondition here. */
  method NameCopyFromSpan(dest: array<char>, source: CharSpan)
    requires dest.Length == NAME_CAPACITY && source.InBounds() && dest != source.data
    requires source.size < NAME_CAPACITY
    modifies dest
    ensures HoldsName(dest[..], source.Chars())
    ensures forall j :: source.size < j < NAME_CAPACITY ==> dest[j] == old(dest[j])
  {
    for i := 0 to source.size
      invariant dest[..i] == source.Chars()[..i]
      invariant forall j :: i <= j < NAME_CAPACITY ==> dest[j] == old(dest[j])
    {
      dest[i] := source.At(i);
    }
    dest[source.size] := '\0';
  }

  /** `name_copy_from_span` with the bound it lacks: at most NAME_CAPACITY - 1 characters are
      copied, the way `name_copy` truncates. The C string left in `dest` is the stored name. */
  method NameCopyFromSpanTruncating(dest: array<char>, source: CharSpan)
    requires dest.Length == NAME_CAPACITY && source.InBounds() && dest != source.data
    modifies dest
    ensures HoldsName(dest[..], source.Chars()[..Min(source.size, NAME_CAPACITY - 1)])
    ensures forall j :: Min(source.size, NAME_CAPACITY - 1) < j < NAME_CAPACITY ==> dest[j] == old(dest[j])
    ensures CString(dest[..NAME_CAPACITY - 1]) == StoredName(source.Chars())
  {
    var n := Min(source.size, NAME_CAPACITY - 1);
    for i := 0 to n
      invariant dest[..i] == source.Chars()[..i]
      invariant forall j :: i <= j < NAME_CAPACITY ==> dest[j] == old(dest[j])
    {
      dest[i] := source.At(i);
    }
    dest[n] := '\0';
    CStringStopsAtNul(dest[..NAME_CAPACITY - 1], source.Chars()[..n]);
  }

  /** `name_copy`: copies the C string held by `src`, at most NAME_CAPACITY - 1 characters
      of it, and always terminates `dest` with a NUL. `src` and `dest` may be the same buffer. */
  method NameCopy(dest: array<char>, src: array<char>)
    requires dest.Length == NAME_CAPACITY && src.Length == NAME_CAPACITY
    modifies dest
    ensures HoldsName(dest[..], CString(old(src[..NAME_CAPACITY - 1])))
    ensures forall j :: |CString(old(src[..NAME_CAPACITY - 1]))| < j < NAME_CAPACITY ==> dest[j] == old(dest[j])
  {
    ghost var s := src[..NAME_CAPACITY - 1];
    var i := 0;
    while i < NAME_CAPACITY - 1 && src[i] != '\0'
      invariant 0 <= i <= NAME_CAPACITY - 1
      invariant dest[..i] == s[..i] && '\0' !in s[..i]
      invariant forall j :: i <= j < NAME_CAPACITY ==> dest[j] == old(dest[j]) && src[j] == old(src[j])
    {
      dest[i] := src[i];
      i := i + 1;
    }
    CStringStopsAtNul(s, s[..i]);
    assert CString(s[..i]) == s[..i] by {
      CStringStopsAtNul(s[..i], s[..i]);
    }
    dest[i] := '\0';
  }

  /** A short name with no NUL is stored whole. */
  lemma ShortNameStored(name: seq<char>)
    requires |name| < NAME_CAPACITY && '\0' !in name
    ensures StoredName(name) == name
  {
    assert name[..Min(|name|, NAME_CAPACITY - 1)] == name;
    CStringOfPlain(name);
  }

  lemma {:induction false} CStringOfPlain(t: seq<char>)
    requires '\0' !in t
    ensures CString(t) == t
    decreases |t|
  {
    if t != [] {
      assert t[0] != '\0';
      assert '\0' !in t[1..];
      CStringOfPlain(t[1..]);
      assert [t[0]] + t[1..] == t;
    }
  }
}
