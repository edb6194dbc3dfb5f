/** Case ids: the Sqids encoding of a key, with Sqids's default alphabet and
    no blocklist. The in-place shuffle, rotation and reversal of the alphabet
    are proved against functions on sequences. */
module Ids {
  import opened Wrappers
  import opened Seqs
  import opened Words

  /** `n` characters in a row, from `first`. */
  function Characters(first: char, n: nat): (s: string)
    requires first as int + n <= 128
    ensures |s| == n
    ensures forall i | 0 <= i < n :: s[i] as int == first as int + i
  {
    seq(n, i requires 0 <= i < n => (first as int + i) as char)
  }

  /** Sqids's default alphabet: `a` to `z`, `A` to `Z` and `0` to `9`. */
  const ALPHABET: string := Characters('a', 26) + Characters('A', 26) + Characters('0', 10)
  const MIN_LENGTH: nat := 5
  const SIZE: nat := 62
  const BASE: nat := 61

  // ----- the shuffle

  function Swap(s: string, i: nat, j: nat): (r: string)
    requires i < |s| && j < |s|
    ensures |r| == |s|
  {
    s[i := s[j]][j := s[i]]
  }

  /** The place `i` swaps with while `j` counts down. */
  function Partner(s: string, i: nat, j: nat): (r: nat)
    requires i < |s| && j < |s|
    ensures r < |s|
  {
    (i * j + s[i] as int + s[j] as int) % |s|
  }

  /** The shuffle from places `i` and `j`, which pass each other. */
  function ShuffleFrom(s: string, i: nat, j: nat): (r: string)
    requires s != "" && i + j == |s| - 1
    ensures |r| == |s|
    decreases j
  {
    if j == 0 then s
    else ShuffleFrom(Swap(s, i, Partner(s, i, j)), i + 1, j - 1)
  }

  function Shuffle(s: string): (r: string)
    ensures |r| == |s|
  {
    if s == "" then s else ShuffleFrom(s, 0, |s| - 1)
  }

  /** Sqids's shuffle, in place. */
  method ShuffleInPlace(chars: array<char>)
    modifies chars
    ensures chars[..] == Shuffle(old(chars[..]))
  {
    var len := chars.Length;
    var i: nat, j: nat := 0, if len == 0 then 0 else len - 1;
    while j > 0
      invariant if len == 0 then j == 0 else i + j == len - 1
      invariant len == 0 ==> chars[..] == old(chars[..]) == ""
      invariant len > 0 ==> ShuffleFrom(chars[..], i, j) == Shuffle(old(chars[..]))
    {
      ghost var before := chars[..];
      var r := (i * j + chars[i] as int + chars[j] as int) % len;
      assert r == Partner(before, i, j);
      chars[i], chars[r] := chars[r], chars[i];
      assert chars[..] == Swap(before, i, r);
      i := i + 1;
      j := j - 1;
    }
  }

  lemma SwapRearranges(s: string, i: nat, j: nat)
    requires i < |s| && j < |s|
    ensures Rearranges(s, Swap(s, i, j))
  {
  }

  lemma RearrangesTransitive(a: string, b: string, c: string)
    requires Rearranges(a, b) && Rearranges(b, c)
    ensures Rearranges(a, c)
  {
  }

  lemma {:induction false} ShuffleFromRearranges(s: string, i: nat, j: nat)
    requires s != "" && i + j == |s| - 1
    ensures Rearranges(s, ShuffleFrom(s, i, j))
    decreases j
  {
    if j == 0 {
    } else {
      hide Rearranges, Swap, Partner;
      var r := Partner(s, i, j);
      SwapRearranges(s, i, r);
      ShuffleFromRearranges(Swap(s, i, r), i + 1, j - 1);
      RearrangesTransitive(s, Swap(s, i, r), ShuffleFrom(s, i, j));
    }
  }

  /** A shuffle keeps every character, as often as it is there, whatever it is
      given. */
  lemma ShuffleRearranges(s: string)
    ensures multiset(Shuffle(s)) == multiset(s)
  {
    if s != "" {
      ShuffleFromRearranges(s, 0, |s| - 1);
    }
  }

  lemma AlphabetIsDistinct()
    ensures |ALPHABET| == SIZE && Distinct(ALPHABET) && '-' !in ALPHABET
  {
    assert forall i | 0 <= i < SIZE ::
        ALPHABET[i] as int == if i < 26 then 97 + i else if i < 52 then 65 + i - 26 else 48 + i - 52;
  }

  // ----- encoding

  function Alphabet(): (s: string)
    ensures |s| == SIZE
  {
    Shuffle(ALPHABET)
  }

  /** How far the alphabet turns for a key. */
  function Offset(key: nat): (n: nat)
    ensures n < SIZE
  {
    (1 + Alphabet()[key % SIZE] as int) % SIZE
  }

  /** The alphabet a key's id is written in: turned, then reversed. Its first
      character separates, and the rest are the digits. */
  function Reversed(key: nat): (s: string)
    ensures |s| == SIZE
  {
    Reverse(RotateLeft(Alphabet(), Offset(key)))
  }

  /** `n` in the base of `digits`, most significant digit first. */
  function NumberText(n: nat, digits: string): (s: string)
    requires |digits| == BASE
    ensures s != ""
  {
    if n < BASE then [digits[n]] else NumberText(n / BASE, digits) + [digits[n % BASE]]
  }

  /** `short` characters of padding, from each shuffle of `chars` in turn. */
  function Padding(chars: string, short: nat): (s: string)
    requires chars != ""
    ensures |s| == short
    decreases short
  {
    var next := Shuffle(chars);
    if short <= |next| then next[..short] else next + Padding(next, short - |next|)
  }

  function EncodeTo(key: nat, minLength: nat): string {
    var chars := Reversed(key);
    var id := [chars[SIZE - 1]] + NumberText(key, chars[1..]);
    if minLength > |id| then id + [chars[0]] + Padding(chars, minLength - |id| - 1) else id
  }

  function Encode(key: nat): string {
    EncodeTo(key, MIN_LENGTH)
  }

  function Pow61(n: nat): (p: nat)
    ensures p >= 1
  {
    if n == 0 then 1 else BASE * Pow61(n - 1)
  }

  /** A 64-bit key has at most eleven digits. */
  lemma ElevenDigits()
    ensures U64_MAX < Pow61(11)
  {
    assert Pow61(3) == 226_981;
    assert Pow61(6) == 226_981 * Pow61(3);
    assert Pow61(9) == 226_981 * Pow61(6);
    assert Pow61(11) == 3721 * Pow61(9);
  }

  const WRITTEN: nat := 11

  /** `push_number`, which fills its buffer from the end: it never runs out. */
  method PushNumber(id: string, key: nat, digits: string) returns (r: string)
    requires |digits| == BASE && key <= U64_MAX
    ensures r == id + NumberText(key, digits)
  {
    ElevenDigits();
    var written := new char[WRITTEN](_ => '0');
    var n: nat, start: nat := key, WRITTEN;
    while true
      invariant 0 < start <= WRITTEN && n < Pow61(start)
      invariant NumberText(key, digits) == NumberText(n, digits) + written[start..]
      decreases n, start
    {
      ghost var after := written[start..];
      start := start - 1;
      written[start] := digits[n % BASE];
      assert written[start..] == [digits[n % BASE]] + after;
      if n / BASE == 0 {
        break;
      }
      n := n / BASE;
    }
    return id + written[start..];
  }

  /** `rotate_left`, in place. */
  method RotateInPlace(chars: array<char>, k: nat)
    requires k <= chars.Length
    modifies chars
    ensures chars[..] == RotateLeft(old(chars[..]), k)
  {
    var was := chars[..];
    forall i | 0 <= i < chars.Length {
      chars[i] := RotateLeft(was, k)[i];
    }
  }

  /** `reverse`, in place. */
  method ReverseInPlace(chars: array<char>)
    modifies chars
    ensures chars[..] == Reverse(old(chars[..]))
  {
    var was := chars[..];
    forall i | 0 <= i < chars.Length {
      chars[i] := was[chars.Length - 1 - i];
    }
  }

  /** `encode_to`, with the alphabet shuffled, turned and reversed in place. */
  method EncodeInPlace(key: nat, minLength: nat) returns (id: string)
    requires key <= U64_MAX
    ensures id == EncodeTo(key, minLength)
  {
    hide Shuffle, NumberText, Padding, RotateLeft;
    var chars := new char[SIZE](i requires 0 <= i < SIZE => ALPHABET[i]);
    assert chars[..] == ALPHABET;
    ShuffleInPlace(chars);
    var offset := (1 + chars[key % SIZE] as int) % SIZE;
    RotateInPlace(chars, offset);
    id := [chars[0]];
    ghost var turned := chars[..];
    ReverseInPlace(chars);
    assert chars[..] == Reversed(key) && turned[0] == chars[SIZE - 1];
    id := PushNumber(id, key, chars[1..]);
    ghost var head := [chars[SIZE - 1]] + NumberText(key, Reversed(key)[1..]);
    assert id == head;
    if minLength > |id| {
      id := id + [chars[0]];
      ghost var before := id;
      var short: nat := minLength - |id|;
      id := PadInPlace(id, chars, short);
    }
  }

  /** Shuffles the array again and again, and takes what is still short. */
  method PadInPlace(id: string, chars: array<char>, short: nat) returns (r: string)
    requires chars.Length > 0
    modifies chars
    ensures r == id + Padding(old(chars[..]), short)
  {
    hide Shuffle;
    r := id;
    var left: nat := short;
    ShuffleInPlace(chars);
    while left > chars.Length
      invariant r + (if left <= chars.Length then chars[..left]
                     else chars[..] + Padding(chars[..], left - chars.Length))
                == id + Padding(old(chars[..]), short)
      decreases left
    {
      r := r + chars[..];
      left := left - chars.Length;
      ShuffleInPlace(chars);
    }
    r := r + chars[..left];
  }

  // ----- decoding

  /** The part of `s` before the first `separator`. */
  function UpTo(s: string, separator: char): (r: string)
    ensures r <= s && separator !in r
  {
    if s == "" || s[0] == separator then "" else [s[0]] + UpTo(s[1..], separator)
  }

  /** The number the digits spell, unless one is no digit, or the number does
      not fit 64 bits on the way. */
  function Horner(s: string, digits: string): Option<nat> {
    if s == "" then Some(0)
    else
      var key :- Horner(s[..|s| - 1], digits);
      var digit :- Position(digits, s[|s| - 1]);
      if key * |digits| > U64_MAX || key * |digits| + digit > U64_MAX then None else Some(key * |digits| + digit)
  }

  function Decode(id: string): Option<nat> {
    if id == "" then None
    else
      var offset :- Position(Alphabet(), id[0]);
      var chars := Reverse(RotateLeft(Alphabet(), offset));
      var number := UpTo(id[1..], chars[0]);
      if number == "" then None
      else
        var key :- Horner(number, chars[1..]);
        if Encode(key) == id then Some(key) else None
  }

  // ----- the round trip

  lemma ReversedIsAlphabet(key: nat)
    ensures Rearranges(ALPHABET, Reversed(key)) && Distinct(Alphabet()) && Distinct(Reversed(key))
  {
    hide Rearranges, Distinct, Shuffle, RotateLeft, Reverse;
    AlphabetIsDistinct();
    ShuffleRearranges(ALPHABET);
    var turned := RotateLeft(Alphabet(), Offset(key));
    RotateRearranges(Alphabet(), Offset(key));
    ReverseRearranges(turned);
    RearrangesTransitive(ALPHABET, Alphabet(), turned);
    RearrangesTransitive(ALPHABET, turned, Reversed(key));
    RearrangedIsDistinct(ALPHABET, Alphabet());
    RearrangedIsDistinct(ALPHABET, Reversed(key));
  }

  /** The first character of an id finds the turn its key made. */
  lemma PrefixFindsOffset(key: nat)
    ensures Position(Alphabet(), Reversed(key)[SIZE - 1]) == Some(Offset(key))
  {
    hide Shuffle, Distinct;
    ReversedIsAlphabet(key);
    PositionIs(Alphabet(), Offset(key));
  }

  lemma {:induction false} NumberIsDigits(n: nat, digits: string)
    requires |digits| == BASE
    ensures forall c <- NumberText(n, digits) :: c in digits
    decreases n
  {
    if n < BASE {
    } else {
      NumberIsDigits(n / BASE, digits);
    }
  }

  lemma {:induction false} UpToStops(s: string, separator: char, rest: string)
    requires separator !in s && (rest != "" ==> rest[0] == separator)
    ensures UpTo(s + rest, separator) == s
    decreases |s|
  {
    if s == "" {
      assert s + rest == rest;
    } else {
      UpToStops(s[1..], separator, rest);
      assert (s + rest)[1..] == s[1..] + rest;
    }
  }

  /** Reading the digits gives the number back, and no step of it passes 64
      bits. */
  lemma {:induction false} HornerUndoesNumber(n: nat, digits: string)
    requires |digits| == BASE && Distinct(digits) && n <= U64_MAX
    ensures Horner(NumberText(n, digits), digits) == Some(n)
    decreases n
  {
    hide Position;
    var s := NumberText(n, digits);
    PositionIs(digits, n % BASE);
    if n >= BASE {
      HornerUndoesNumber(n / BASE, digits);
      assert s[..|s| - 1] == NumberText(n / BASE, digits);
    } else {
      assert s[..0] == "" && Horner("", digits) == Some(0);
    }
  }

  /** The digits of a key never hold its separator. */
  lemma SeparatorIsNoDigit(key: nat)
    ensures Reversed(key)[0] !in Reversed(key)[1..] && Distinct(Reversed(key)[1..])
  {
    hide Shuffle, Reversed;
    ReversedIsAlphabet(key);
  }

  /** Every 64-bit key comes back from its id. */
  lemma DecodeEncodes(key: nat)
    requires key <= U64_MAX
    ensures Decode(Encode(key)) == Some(key)
  {
    hide Shuffle, Position, Reverse, RotateLeft, NumberText, Horner, UpTo, Padding;
    var chars, id := Reversed(key), Encode(key);
    var number := NumberText(key, chars[1..]);
    PrefixFindsOffset(key);
    SeparatorIsNoDigit(key);
    NumberIsDigits(key, chars[1..]);
    HornerUndoesNumber(key, chars[1..]);
    var rest := id[1 + |number|..];
    assert id == [chars[SIZE - 1]] + number + rest;
    assert id[1..] == number + rest;
    UpToStops(number, chars[0], rest);
  }

  lemma HornerFits(s: string, digits: string)
    ensures Horner(s, digits).Some? ==> Horner(s, digits).value <= U64_MAX
  {
  }

  /** A text names a key exactly when it is the key's own id. */
  lemma DecodesOnlyIds(id: string, key: nat)
    ensures Decode(id) == Some(key) <==> key <= U64_MAX && id == Encode(key)
  {
    hide Encode, Position, Shuffle;
    if Decode(id) == Some(key) {
      var chars := Reverse(RotateLeft(Alphabet(), Position(Alphabet(), id[0]).value));
      HornerFits(UpTo(id[1..], chars[0]), chars[1..]);
    }
    if key <= U64_MAX {
      DecodeEncodes(key);
    }
  }

  /** So two keys never share an id. */
  lemma IdsAreDistinct(a: nat, b: nat)
    requires a <= U64_MAX && b <= U64_MAX && Encode(a) == Encode(b)
    ensures a == b
  {
    hide Encode, Decode;
    DecodeEncodes(a);
    DecodeEncodes(b);
  }

  // ----- lengths and characters

  /** How many base-61 digits a key has. */
  function NumDigits(n: nat): (d: nat)
    ensures d >= 1
    ensures Pow61(d - 1) <= n || n == 0
    ensures n < Pow61(d)
  {
    if n < BASE then assert Pow61(1) == BASE; 1 else 1 + NumDigits(n / BASE)
  }

  lemma {:induction false} NumberLength(n: nat, digits: string)
    requires |digits| == BASE
    ensures |NumberText(n, digits)| == NumDigits(n)
    decreases n
  {
    if n < BASE {
    } else {
      NumberLength(n / BASE, digits);
    }
  }

  /** An id has one character more than its key has digits, or the least an id
      may have. */
  lemma IdLength(key: nat, minLength: nat)
    ensures |EncodeTo(key, minLength)| == if minLength > 1 + NumDigits(key) then minLength else 1 + NumDigits(key)
  {
    hide Shuffle, NumDigits, NumberText, Padding, Reversed;
    NumberLength(key, Reversed(key)[1..]);
  }

  /** The ids of keys below 61^4, and no others, have five characters. */
  lemma FiveCharacters(key: nat)
    ensures |Encode(key)| == MIN_LENGTH <==> key < 13_845_841
  {
    hide EncodeTo;
    IdLength(key, MIN_LENGTH);
    assert Pow61(4) == 13_845_841 by {
      assert Pow61(2) == 3721;
      assert Pow61(4) == 3721 * Pow61(2);
    }
    if NumDigits(key) <= 4 {
      PowersRise(NumDigits(key), 4);
    } else {
      PowersRise(4, NumDigits(key) - 1);
    }
  }

  lemma {:induction false} PowersRise(a: nat, b: nat)
    requires a <= b
    ensures Pow61(a) <= Pow61(b)
    decreases b
  {
    if a == b {
    } else {
      PowersRise(a, b - 1);
    }
  }

  lemma {:induction false} PaddingRearranges(chars: string, short: nat)
    requires chars != ""
    ensures forall c <- Padding(chars, short) :: c in chars
    decreases short
  {
    ShuffleRearranges(chars);
    var next := Shuffle(chars);
    RearrangedHasSame(chars, next);
    if short <= |next| {
    } else {
      PaddingRearranges(next, short - |next|);
    }
  }

  /** An id holds only characters of the alphabet, so never a `-`. */
  lemma IdIsAlphabet(key: nat, minLength: nat)
    ensures forall c <- EncodeTo(key, minLength) :: c in ALPHABET
    ensures '-' !in EncodeTo(key, minLength)
  {
    hide Shuffle, Reversed, NumberText, Padding;
    var chars := Reversed(key);
    ReversedIsAlphabet(key);
    RearrangedHasSame(ALPHABET, chars);
    AlphabetIsDistinct();
    NumberIsDigits(key, chars[1..]);
    var number := NumberText(key, chars[1..]);
    if minLength > 1 + |number| {
      PaddingRearranges(chars, minLength - 2 - |number|);
    }
    forall c | c in EncodeTo(key, minLength)
      ensures c in chars
    {
    }
  }
}
