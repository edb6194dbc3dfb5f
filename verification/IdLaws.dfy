/** What ids are, character by character, with nothing said of how they are
    made: each step of the shuffle, and where each character of an id comes
    from. An id never changes, so neither may any of this. */
module IdLaws {
  import opened Seqs
  import opened Quotients
  import opened Ids

  // ----- the shuffle, step by step

  /** The two arrangements differ by the swap of two places. */
  predicate Swapped(before: string, after: string, i: nat, r: nat)
    requires i < |before| && r < |before|
  {
    && |after| == |before| && after[i] == before[r] && after[r] == before[i]
    && forall k | 0 <= k < |before| && k != i && k != r :: after[k] == before[k]
  }

  /** Step `k` of a shuffle: place `k` swaps with the place that its number, its
      mirror's and the two characters there choose. */
  predicate Stepped(before: string, after: string, k: nat)
    requires k < |before|
  {
    var mirror := |before| - 1 - k;
    Swapped(before, after, k, (k * mirror + before[k] as int + before[mirror] as int) % |before|)
  }

  /** The arrangements of `s` as it is shuffled, one for each character. */
  predicate IsShuffle(trace: seq<string>, s: string) {
    && |trace| == |s| && (s != "" ==> trace[0] == s)
    && forall k | 0 <= k < |s| - 1 :: |trace[k]| == |s| && Stepped(trace[k], trace[k + 1], k)
  }

  lemma SwapIs(s: string, t: string, i: nat, r: nat)
    requires i < |s| && r < |s|
    ensures Swapped(s, t, i, r) <==> t == Swap(s, i, r)
  {
  }

  lemma StepIs(s: string, t: string, i: nat, j: nat)
    requires s != "" && i + j == |s| - 1 && j > 0
    ensures Stepped(s, t, i) <==> t == Swap(s, i, Partner(s, i, j))
    ensures Stepped(s, t, i) ==> ShuffleFrom(s, i, j) == ShuffleFrom(t, i + 1, j - 1)
  {
    SwapIs(s, t, i, Partner(s, i, j));
    hide Swap, Swapped;
  }

  /** The arrangements from `s` at step `i` on. */
  lemma {:induction false} TraceFrom(s: string, i: nat, j: nat) returns (trace: seq<string>)
    requires s != "" && i + j == |s| - 1
    ensures |trace| == j + 1 && trace[0] == s && trace[j] == ShuffleFrom(s, i, j)
    ensures forall k | 0 <= k < j :: |trace[k]| == |s| && Stepped(trace[k], trace[k + 1], i + k)
    decreases j
  {
    hide Stepped, Swap, Partner;
    if j == 0 {
      trace := [s];
    } else {
      var t := Swap(s, i, Partner(s, i, j));
      StepIs(s, t, i, j);
      var rest := TraceFrom(t, i + 1, j - 1);
      trace := [s] + rest;
      forall k | 0 <= k < j
        ensures |trace[k]| == |s| && Stepped(trace[k], trace[k + 1], i + k)
      {
        if k > 0 {
          assert trace[k] == rest[k - 1] && trace[k + 1] == rest[k];
          assert Stepped(rest[k - 1], rest[k], i + 1 + (k - 1));
        }
      }
    }
  }

  lemma {:induction false} TraceEnds(trace: seq<string>, s: string, i: nat)
    requires s != "" && IsShuffle(trace, s) && i < |s|
    ensures |trace[i]| == |s| && ShuffleFrom(trace[i], i, |s| - 1 - i) == trace[|s| - 1]
    decreases |s| - i
  {
    hide Stepped, Swap, Partner;
    if i == |s| - 1 {
      if i > 0 {
        assert Stepped(trace[i - 1], trace[i - 1 + 1], i - 1);
        StepIs(trace[i - 1], trace[i], i - 1, 1);
      }
    } else {
      assert Stepped(trace[i], trace[i + 1], i);
      TraceEnds(trace, s, i + 1);
      StepIs(trace[i], trace[i + 1], i, |s| - 1 - i);
    }
  }

  /** A text is the shuffle of another exactly when the steps lead to it. */
  lemma ShuffleExactly(s: string, t: string)
    requires s != ""
    ensures Shuffle(s) == t <==> exists trace :: IsShuffle(trace, s) && trace[|s| - 1] == t
  {
    hide ShuffleFrom, Stepped;
    var trace := TraceFrom(s, 0, |s| - 1);
    assert IsShuffle(trace, s);
    forall other | IsShuffle(other, s)
      ensures other[|s| - 1] == Shuffle(s)
    {
      TraceEnds(other, s, 0);
    }
  }

  // ----- the digits of a number

  /** The digit of a number at a place, counted from the last. */
  function DigitAt(n: nat, place: nat): (d: nat)
    ensures d < BASE
  {
    n / Pow61(place) % BASE
  }

  lemma NextPlace(n: nat, place: nat)
    ensures DigitAt(n, place + 1) == DigitAt(n / BASE, place)
  {
    DividedTwice(n, BASE, Pow61(place));
  }

  /** A number is written in its digits, the last place last. */
  lemma {:induction false} NumberDigits(n: nat, digits: string, i: nat)
    requires |digits| == BASE && i < NumDigits(n)
    ensures |NumberText(n, digits)| == NumDigits(n)
    ensures NumberText(n, digits)[i] == digits[DigitAt(n, NumDigits(n) - 1 - i)]
    decreases n
  {
    hide DigitAt;
    NumberLength(n, digits);
    var place := NumDigits(n) - 1 - i;
    if place == 0 {
      LastPlace(n);
    } else {
      NumberDigits(n / BASE, digits, i);
      NextPlace(n, place - 1);
    }
  }

  lemma LastPlace(n: nat)
    ensures DigitAt(n, 0) == n % BASE
  {
    assert Pow61(0) == 1;
  }

  // ----- the padding

  /** The characters after so many shuffles. */
  function Shuffled(chars: string, times: nat): (s: string)
    ensures |s| == |chars|
    decreases times
  {
    if times == 0 then chars else Shuffled(Shuffle(chars), times - 1)
  }

  /** Padding is the first shuffle, then the second, and so on. */
  lemma {:induction false} PaddingAt(chars: string, short: nat, i: nat)
    requires chars != "" && i < short
    ensures Padding(chars, short)[i] == Shuffled(chars, 1 + i / |chars|)[i % |chars|]
    decreases short
  {
    hide Shuffle;
    var next := Shuffle(chars);
    assert Shuffled(chars, 1 + i / |chars|) == Shuffled(next, i / |chars|);
    if i < |next| {
      assert Padding(chars, short)[i] == next[i];
    } else {
      OneFewer(i, |chars|);
      PaddingAt(next, short - |next|, i - |next|);
    }
  }

  lemma OneFewer(i: nat, n: nat)
    requires 0 < n <= i
    ensures i / n == 1 + (i - n) / n && i % n == (i - n) % n
  {
    var q, r := (i - n) / n, (i - n) % n;
    assert i == n * (q + 1) + r;
    QuotientIs(i, n, q + 1, r);
  }

  // ----- an id, character by character

  lemma LettersAreSpelled()
    ensures Characters('a', 26) == "abcdefghijklmnopqrstuvwxyz"
  {
  }

  lemma CapitalsAreSpelled()
    ensures Characters('A', 26) == "ABCDEFGHIJKLMNOPQRSTUVWXYZ"
  {
  }

  lemma FiguresAreSpelled()
    ensures Characters('0', 10) == "0123456789"
  {
  }

  /** The alphabet, in the order Sqids gives it. */
  lemma AlphabetIsSpelled()
    ensures ALPHABET == "abcdefghijklmnopqrstuvwxyz" + "ABCDEFGHIJKLMNOPQRSTUVWXYZ" + "0123456789"
  {
    hide Characters;
    LettersAreSpelled();
    CapitalsAreSpelled();
    FiguresAreSpelled();
  }

  /** How far a key turns the shuffled alphabet. */
  function Turn(key: nat): nat {
    (Alphabet()[key % SIZE] as nat + 1) % SIZE
  }

  /** The character `k` places before the turn, going round. */
  function Before(key: nat, k: nat): char
    requires k <= SIZE
  {
    Alphabet()[(Turn(key) + SIZE - k) % SIZE]
  }

  lemma ReversedAt(key: nat, m: nat)
    requires m < SIZE
    ensures Reversed(key)[m] == Before(key, m + 1)
  {
    hide Shuffle;
    assert Turn(key) == Offset(key);
    var a, o := Alphabet(), Offset(key);
    var turned := RotateLeft(a, o);
    assert Reversed(key)[m] == turned[SIZE - 1 - m];
  }

  /** The alphabet an id is written in. */
  function Turned(key: nat): (s: string)
    ensures |s| == SIZE
  {
    seq(SIZE, m requires 0 <= m < SIZE => Before(key, m + 1))
  }

  /** What is at place `i` of the id of a key, if the id is so long: first the
      character the key turns the alphabet to; then the key's digits in base
      61, each the character so many places before that one; then the character
      just before it; and then each shuffle of the alphabet as it is turned. */
  function CharacterOf(key: nat, i: nat): char {
    var d := NumDigits(key);
    if i == 0 then Before(key, SIZE)
    else if i <= d then Before(key, 2 + DigitAt(key, d - i))
    else if i == 1 + d then Before(key, 1)
    else Shuffled(Turned(key), 1 + (i - 2 - d) / SIZE)[(i - 2 - d) % SIZE]
  }

  lemma ReversedIsTurned(key: nat)
    ensures Reversed(key) == Turned(key)
  {
    hide Before, Reversed;
    forall m | 0 <= m < SIZE
      ensures Reversed(key)[m] == Turned(key)[m]
    {
      ReversedAt(key, m);
    }
  }

  lemma CharacterIs(key: nat, minLength: nat, i: nat)
    requires i < |EncodeTo(key, minLength)|
    ensures EncodeTo(key, minLength)[i] == CharacterOf(key, i)
  {
    hide Shuffle, NumDigits, DigitAt, Reversed, Before, Padding, NumberText, Shuffled;
    var id, d, chars := EncodeTo(key, minLength), NumDigits(key), Reversed(key);
    IdLength(key, minLength);
    NumberLength(key, chars[1..]);
    ReversedIsTurned(key);
    if 1 <= i <= d {
      NumberDigits(key, chars[1..], i - 1);
    } else if i > 1 + d {
      PaddingAt(chars, minLength - d - 2, i - 2 - d);
    }
  }

  /** An id, for every key and every least length, character by character. So
      ids of one key that differ in length begin alike. */
  lemma EncodeExactly(key: nat, minLength: nat)
    ensures
      var length := if minLength > 1 + NumDigits(key) then minLength else 1 + NumDigits(key);
      EncodeTo(key, minLength) == seq(length, i requires 0 <= i < length => CharacterOf(key, i))
  {
    hide EncodeTo, CharacterOf, NumDigits;
    IdLength(key, minLength);
    forall i | 0 <= i < |EncodeTo(key, minLength)|
      ensures EncodeTo(key, minLength)[i] == CharacterOf(key, i)
    {
      CharacterIs(key, minLength, i);
    }
  }
}
