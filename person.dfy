/** `person_t` and `person_init`. */
module People {
  import opened CTypes
  import opened Names

  /** The value of a person as the statistics and the reader's contract see it:
      the C string in `name`, and the two numbers. */
  datatype Record = Record(name: seq<char>, age: int, height: int)

  /** `person_t`: a name buffer and two C `int`s, written in place by `person_init`. */
  class Person {
    const name: array<char>
    var age: Int32
    var height: Int32

    predicate Valid() {
      name.Length == NAME_CAPACITY
    }

    /** The person holds the record `r`. */
    predicate Holds(r: Record)
      reads this, name
    {
      HoldsName(name[..], r.name) && age == r.age && height == r.height
    }

    /** A `person_t` variable before anything is written to it. */
    constructor ()
      ensures Valid() && fresh(name)
    {
      name := new char[NAME_CAPACITY];
      age, height := 0, 0;
    }

    /** `person_init`: the name is copied with `name_copy`, the numbers are stored. */
    method Init(src: array<char>, age: Int32, height: Int32)
      requires Valid() && src.Length == NAME_CAPACITY
      modifies this, name
      ensures Holds(Record(CString(old(src[..NAME_CAPACITY - 1])), age, height))
      ensures forall j :: |CString(old(src[..NAME_CAPACITY - 1]))| < j < NAME_CAPACITY ==> name[j] == old(name[j])
    {
      NameCopy(name, src);
      this.age := age;
      this.height := height;
    }
  }
}
