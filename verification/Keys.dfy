/** Keys: the numbers a store gives its cases, read and written as ids. */
module Keys {
  import opened Wrappers
  import opened Seqs
  import opened Ids

  /** The last key there is: the largest signed 64-bit number. */
  const MAX: nat := 0x7FFF_FFFF_FFFF_FFFF

  /** A number as a key: none for 0, nor past the last key. */
  function New(n: nat): Option<nat> {
    if 1 <= n <= MAX then Some(n) else None
  }

  /** The id and the slug after the first `-`, when there is one. */
  function Split(text: string): (r: (string, Option<string>))
    ensures text == r.0 + if r.1.Some? then "-" + r.1.value else ""
    ensures '-' !in r.0
  {
    var at := Position(text, '-');
    if at.None? then (text, None) else (text[..at.value], Some(text[at.value + 1..]))
  }

  /** Decodes what is before the first dash, and checks it is a key. */
  function Parse(text: string): Option<nat> {
    var id := Split(text).0;
    var key :- Decode(id);
    New(key)
  }

  lemma SplitsAtFirst(id: string, rest: string)
    requires '-' !in id && (rest == "" || rest[0] == '-')
    ensures Split(id + rest).0 == id
  {
    var text := id + rest;
    assert forall i | 0 <= i < |id| :: text[i] == id[i] && text[i] != '-';
    assert rest != "" ==> text[|id|] == '-';
  }

  /** An id before nothing, or before a dash and a slug, names its key. */
  lemma IdParses(key: nat, rest: string)
    requires 1 <= key <= MAX && (rest == "" || rest[0] == '-')
    ensures Parse(Encode(key) + rest) == Some(key)
  {
    hide Encode, Decode, Split;
    NoDash(key);
    SplitsAtFirst(Encode(key), rest);
    DecodesOnlyIds(Encode(key), key);
  }

  /** A text names a key exactly when the key is one a store gives, and the
      text is its id, alone or before a `-` and any slug. */
  lemma ParsesExactlyIds(text: string, key: nat)
    ensures Parse(text) == Some(key) <==>
            && 1 <= key <= MAX
            && (text == Encode(key) || exists slug: string :: text == Encode(key) + ("-" + slug))
  {
    hide Encode, Decode, Position;
    if Parse(text) == Some(key) {
      var (id, slug) := Split(text);
      DecodesOnlyIds(id, key);
      if slug.Some? {
        assert text == Encode(key) + ("-" + slug.value);
      }
    }
    if 1 <= key <= MAX {
      IdParses(key, "");
      assert Encode(key) + "" == Encode(key);
      forall slug: string | text == Encode(key) + ("-" + slug)
        ensures Parse(text) == Some(key)
      {
        IdParses(key, "-" + slug);
      }
    }
  }

  lemma NoDash(key: nat)
    ensures '-' !in Encode(key)
  {
    IdIsAlphabet(key, MIN_LENGTH);
  }
}
