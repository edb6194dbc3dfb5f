/** What the readers of service files take, of any text, written here or by
    hand: exactly the texts of a form, and what each of them means. */
module ReaderLaws {
  import opened Wrappers
  import opened Decimals
  import opened Texts
  import opened ServiceFiles
  import opened ServiceLaws

  // ----- finding

  /** `what` is at place `i` and at none before. */
  predicate FirstAt(s: string, what: string, i: nat) {
    i <= |s| && what <= s[i..] && forall j | 0 <= j < i :: !(what <= s[j..])
  }

  lemma FirstLater(c: char, s: string, what: string, i: nat)
    requires !(what <= [c] + s)
    ensures FirstAt([c] + s, what, i) <==> i > 0 && FirstAt(s, what, i - 1)
  {
    var all := [c] + s;
    assert all[0..] == all;
    assert forall j | 1 <= j <= |all| :: all[j..] == s[j - 1..];
    if i > 0 && FirstAt(s, what, i - 1) {
      forall j | 0 <= j < i
        ensures !(what <= all[j..])
      {
        if j > 0 {
          assert all[j..] == s[j - 1..];
        }
      }
    }
    if FirstAt(all, what, i) && i > 0 {
      forall j | 0 <= j < i - 1
        ensures !(what <= s[j..])
      {
        assert all[j + 1..] == s[j..];
      }
    }
  }

  /** Found where it is, and nowhere before. */
  lemma {:induction false} FindExactly(s: string, what: string, i: nat)
    ensures Find(s, what) == Some(i) <==> FirstAt(s, what, i)
    decreases |s|
  {
    if what <= s {
      assert s[0..] == s;
    } else if s == "" {
    } else {
      assert s == [s[0]] + s[1..];
      FirstLater(s[0], s[1..], what, i);
      if i > 0 {
        FindExactly(s[1..], what, i - 1);
      }
      hide FirstAt;
    }
  }

  // ----- XML text

  predicate IsHexCode(name: string, digits: string, c: char) {
    && (name == "#x" + digits || name == "#x+" + digits)
    && digits != "" && (forall d <- digits :: IsHex(d)) && HexNumberOf(digits) == c as int
  }

  predicate IsDecimalCode(name: string, digits: string, c: char) {
    && (name == "#" + digits || name == "#+" + digits)
    && digits != "" && AllDigits(digits) && NumberOf(digits) == c as int
  }

  lemma HexValueExactly(c: char)
    requires IsHex(c)
    ensures HexValue(c) < 16
    ensures "0123456789abcdef"[HexValue(c)] == c || "0123456789ABCDEF"[HexValue(c)] == c
  {
  }

  lemma HexCodeReads(name: string, digits: string, c: char)
    requires IsHexCode(name, digits, c)
    ensures Entity(name) == Some(c)
  {
    hide HexNumberOf;
    assert digits[0] in digits && digits[0] != '+' && name[0] == '#' && name[1] == 'x';
    assert name[2..] == digits || name[2..] == "+" + digits;
    assert ("+" + digits)[1..] == digits;
  }

  lemma DecimalCodeReads(name: string, digits: string, c: char)
    requires IsDecimalCode(name, digits, c)
    ensures Entity(name) == Some(c)
  {
    hide NumberOf;
    assert IsDigit(digits[0]) && name[0] == '#' && name[1] != 'x';
    assert name[1..] == digits || name[1..] == "+" + digits;
    assert ("+" + digits)[1..] == digits;
  }

  lemma CodeIsRead(name: string, c: char)
    requires Entity(name) == Some(c) && name != "" && name[0] == '#'
    ensures
      || (exists digits: string :: IsHexCode(name, digits, c))
      || exists digits: string :: IsDecimalCode(name, digits, c)
  {
    hide HexNumberOf, NumberOf;
    if "#x" <= name {
      var digits := Unsigned(name[2..]);
      assert name == "#x" + name[2..] && (digits == name[2..] || name[2..] == "+" + digits);
      assert IsHexCode(name, digits, c);
    } else {
      var digits := Unsigned(name[1..]);
      assert name == "#" + name[1..] && (digits == name[1..] || name[1..] == "+" + digits);
      assert IsDecimalCode(name, digits, c);
    }
  }

  /** The entities there are: five with names, and each character by its code,
      in hexadecimal or in decimal, a `+` before the digits or none. */
  lemma EntityExactly(name: string, c: char)
    ensures Entity(name) == Some(c) <==>
            || (name == "amp" && c == '&') || (name == "lt" && c == '<') || (name == "gt" && c == '>')
            || (name == "quot" && c == '"') || (name == "apos" && c == '\'')
            || (exists digits: string :: IsHexCode(name, digits, c))
            || (exists digits: string :: IsDecimalCode(name, digits, c))
  {
    hide IsHexCode, IsDecimalCode, HexCode, DecimalCode;
    forall digits: string | IsHexCode(name, digits, c)
      ensures Entity(name) == Some(c)
    {
      HexCodeReads(name, digits, c);
    }
    forall digits: string | IsDecimalCode(name, digits, c)
      ensures Entity(name) == Some(c)
    {
      DecimalCodeReads(name, digits, c);
    }
    if Entity(name) == Some(c) && name[0] == '#' {
      CodeIsRead(name, c);
    }
  }

  /** A character as it is, or an entity. */
  datatype Piece = Plain(c: char) | Named(name: string) {
    predicate Fits() {
      match this
      case Plain(c) => c != '&'
      case Named(name) => ';' !in name && Entity(name).Some?
    }

    function Spelling(): string {
      match this
      case Plain(c) => [c]
      case Named(name) => "&" + name + ";"
    }

    function Meaning(): char
      requires Fits()
    {
      match this
      case Plain(c) => c
      case Named(name) => Entity(name).value
    }
  }

  predicate PiecesFit(pieces: seq<Piece>) {
    forall i | 0 <= i < |pieces| :: pieces[i].Fits()
  }

  function PiecesText(pieces: seq<Piece>): string {
    if pieces == [] then "" else pieces[0].Spelling() + PiecesText(pieces[1..])
  }

  function PiecesMean(pieces: seq<Piece>): string
    requires PiecesFit(pieces)
  {
    seq(|pieces|, i requires 0 <= i < |pieces| => pieces[i].Meaning())
  }

  lemma PieceReads(piece: Piece, rest: string)
    requires piece.Fits()
    ensures Unescape(piece.Spelling() + rest) == Prepend([piece.Meaning()], Unescape(rest))
  {
    hide Entity, Unescape;
    match piece {
      case Plain(c) => PlainReads(c, rest);
      case Named(name) => EntityReads(piece.Spelling(), name, piece.Meaning(), rest);
    }
  }

  lemma {:induction false} PiecesRead(pieces: seq<Piece>)
    requires PiecesFit(pieces)
    ensures Unescape(PiecesText(pieces)) == Success(PiecesMean(pieces))
    decreases |pieces|
  {
    hide Unescape, Entity;
    if pieces == [] {
      NothingReads();
    } else {
      PiecesRead(pieces[1..]);
      PieceReads(pieces[0], PiecesText(pieces[1..]));
      assert [pieces[0].Meaning()] + PiecesMean(pieces[1..]) == PiecesMean(pieces);
    }
  }

  lemma AmpersandReads(more: string)
    requires Unescape("" + "&" + more).Success?
    ensures
      var entity := SplitOnce(more, ";");
      entity.Some? && Entity(entity.value.0).Some? && Unescape(entity.value.1).Success?
  {
    hide SplitOnce, Entity;
    SplitAt("", "&", more);
  }

  /** A text that starts with `&` and reads starts with an entity. */
  lemma FirstEntity(text: string) returns (name: string, rest: string)
    requires text != "" && text[0] == '&' && Unescape(text).Success?
    ensures Named(name).Fits() && text == Named(name).Spelling() + rest && Unescape(rest).Success?
  {
    hide Unescape, SplitOnce, Entity;
    var more := text[1..];
    assert text == "" + "&" + more;
    AmpersandReads(more);
    name, rest := SplitOnce(more, ";").value.0, SplitOnce(more, ";").value.1;
    SplitIsText(more, ";");
    assert text == "&" + name + ";" + rest;
  }

  /** The first piece of a text that reads. */
  lemma FirstPiece(text: string) returns (piece: Piece, rest: string)
    requires text != "" && Unescape(text).Success?
    ensures piece.Fits() && text == piece.Spelling() + rest && |rest| < |text| && Unescape(rest).Success?
  {
    hide Unescape, Entity;
    if text[0] == '&' {
      var name;
      name, rest := FirstEntity(text);
      piece := Named(name);
    } else {
      piece, rest := Plain(text[0]), text[1..];
      assert text == [text[0]] + rest;
      PlainReads(text[0], rest);
    }
  }

  /** A text split is its parts, and the first does not hold what splits it. */
  lemma SplitIsText(s: string, what: string)
    requires |what| == 1 && SplitOnce(s, what).Some?
    ensures
      var (a, b) := SplitOnce(s, what).value;
      s == a + what + b && what[0] !in a
  {
    var at := Find(s, what).value;
    FindExactly(s, what, at);
    assert s[at..][..1] == what;
    forall j | 0 <= j < at
      ensures s[j] != what[0]
    {
      assert s[j..][0] == s[j];
    }
  }

  lemma {:induction false} PiecesIn(text: string) returns (pieces: seq<Piece>)
    requires Unescape(text).Success?
    ensures PiecesFit(pieces) && PiecesText(pieces) == text
    decreases |text|
  {
    hide Unescape, Entity;
    if text == "" {
      pieces := [];
    } else {
      var piece, rest := FirstPiece(text);
      var more := PiecesIn(rest);
      pieces := [piece] + more;
      assert pieces[1..] == more;
    }
  }

  /** A text reads exactly when it is characters and entities, and to what they
      mean: a lone `&` never does. */
  lemma UnescapeExactly(text: string, plain: string)
    ensures Unescape(text) == Success(plain) <==>
            exists pieces: seq<Piece> ::
              PiecesFit(pieces) && PiecesText(pieces) == text && PiecesMean(pieces) == plain
  {
    hide Unescape, PiecesText, PiecesMean;
    if Unescape(text).Success? {
      var pieces := PiecesIn(text);
      PiecesRead(pieces);
    }
    forall pieces: seq<Piece> | PiecesFit(pieces) && PiecesText(pieces) == text
      ensures Unescape(text) == Success(PiecesMean(pieces))
    {
      PiecesRead(pieces);
    }
  }

  // ----- the arguments of a plist

  const STRING: string := "<string>"
  const STRING_END: string := "</string>"
  const NO_STRING: string := "<string/>"

  /** One string of an array, and the white space after it. */
  datatype Item = Item(empty: bool, escaped: string, space: string) {
    /** Its text reads, and ends where it does. */
    predicate Fits() {
      && (forall c <- space :: White(c))
      && (!empty ==> Find(escaped + STRING_END, STRING_END) == Some(|escaped|) && Unescape(escaped).Success?)
    }

    function Spelling(): string {
      (if empty then NO_STRING else STRING + escaped + STRING_END) + space
    }

    function Meaning(): string
      requires Fits()
    {
      if empty then "" else Unescape(escaped).value
    }
  }

  predicate ItemsFit(items: seq<Item>) {
    forall i | 0 <= i < |items| :: items[i].Fits()
  }

  function ItemsText(items: seq<Item>): string {
    if items == [] then "" else items[0].Spelling() + ItemsText(items[1..])
  }

  function ItemsMean(items: seq<Item>): seq<string>
    requires ItemsFit(items)
  {
    seq(|items|, i requires 0 <= i < |items| => items[i].Meaning())
  }

  /** The first end of a string is its own, whatever is after it. */
  lemma EndIsFirst(escaped: string, what: string, after: string)
    requires Find(escaped + what, what) == Some(|escaped|)
    ensures SplitOnce(escaped + what + after, what) == Some((escaped, after))
  {
    hide Find;
    var s, all := escaped + what, escaped + what + after;
    FindExactly(s, what, |escaped|);
    assert all[|escaped|..] == what + after;
    forall j | 0 <= j < |escaped|
      ensures !(what <= all[j..])
    {
      assert all[j..] == s[j..] + after;
      assert all[j..][..|what|] == s[j..][..|what|];
    }
    FindExactly(all, what, |escaped|);
    assert all[..|escaped|] == escaped && all[|escaped| + |what|..] == after;
  }

  /** What a text that starts with a string reads to. */
  function AfterString(rest: string): Args {
    var parts := SplitOnce(rest, STRING_END);
    if parts.None? then Failure(OpenString)
    else
      var value :- Unescape(parts.value.0);
      Prepend([value], ReadStrings(TrimLeft(parts.value.1)))
  }

  lemma TagsAreRead(rest: string)
    ensures ReadStrings(STRING + rest) == AfterString(rest)
    ensures ReadStrings(NO_STRING + rest) == Prepend([""], ReadStrings(TrimLeft(rest)))
  {
    hide Unescape, TrimLeft, SplitOnce;
    var some, none := STRING + rest, NO_STRING + rest;
    assert some[8..] == rest && some[7] == '>' && NO_STRING[7] == '/';
    assert none[9..] == rest;
  }

  lemma EmptyReads(space: string, after: string)
    requires (forall c <- space :: White(c)) && (after == "" || !White(after[0]))
    ensures ReadStrings(NO_STRING + space + after) == Prepend([""], ReadStrings(after))
  {
    hide ReadStrings, TrimLeft, NO_STRING;
    TrimPast(space, after);
    TagsAreRead(space + after);
    assert NO_STRING + space + after == NO_STRING + (space + after);
  }

  lemma WrittenReads(item: Item, after: string)
    requires item.Fits() && !item.empty && (after == "" || !White(after[0]))
    ensures
      ReadStrings(STRING + item.escaped + STRING_END + item.space + after)
      == Prepend([item.Meaning()], ReadStrings(after))
  {
    hide ReadStrings, Unescape, TrimLeft, SplitOnce, Find, STRING, STRING_END;
    var rest := item.escaped + STRING_END + (item.space + after);
    EndIsFirst(item.escaped, STRING_END, item.space + after);
    TrimPast(item.space, after);
    TagsAreRead(rest);
    assert STRING + item.escaped + STRING_END + item.space + after == STRING + rest;
  }

  lemma ItemReads(item: Item, after: string)
    requires item.Fits() && (after == "" || !White(after[0]))
    ensures ReadStrings(item.Spelling() + after) == Prepend([item.Meaning()], ReadStrings(after))
  {
    hide ReadStrings, Unescape, Find;
    if item.empty {
      EmptyReads(item.space, after);
    } else {
      WrittenReads(item, after);
    }
  }

  lemma {:induction false} ItemsRead(items: seq<Item>)
    requires ItemsFit(items)
    ensures ReadStrings(ItemsText(items)) == Success(ItemsMean(items))
    ensures items != [] ==> ItemsText(items) != "" && ItemsText(items)[0] == '<'
    decreases |items|
  {
    hide ReadStrings, Unescape, Find;
    if items == [] {
      NoStrings();
    } else {
      ItemsRead(items[1..]);
      ItemReads(items[0], ItemsText(items[1..]));
      assert [items[0].Meaning()] + ItemsMean(items[1..]) == ItemsMean(items);
    }
  }

  /** The leading white space of a text, which trimming takes. */
  lemma {:induction false} SpaceBefore(s: string) returns (space: string)
    ensures (forall c <- space :: White(c)) && s == space + TrimLeft(s)
    decreases |s|
  {
    if s != "" && White(s[0]) {
      var more := SpaceBefore(s[1..]);
      space := [s[0]] + more;
      assert s == [s[0]] + s[1..];
    } else {
      space := "";
    }
  }

  /** A text that reads starts with one of the two tags. */
  lemma FirstTag(rest: string) returns (more: string)
    requires rest != "" && ReadStrings(rest).Success?
    ensures rest == NO_STRING + more || rest == STRING + more
  {
    hide Unescape, TrimLeft, Find, SplitOnce;
    more := if NO_STRING <= rest then rest[9..] else rest[8..];
  }

  lemma FirstItem(rest: string) returns (item: Item, after: string)
    requires rest != "" && ReadStrings(rest).Success?
    ensures item.Fits() && rest == item.Spelling() + after && |after| < |rest| && ReadStrings(after).Success?
  {
    hide Unescape, TrimLeft, Find, ReadStrings, SplitOnce, NO_STRING, STRING, STRING_END;
    var more := FirstTag(rest);
    TagsAreRead(more);
    TagsAreNotEmpty();
    if rest == NO_STRING + more {
      var space := SpaceBefore(more);
      item, after := Item(true, "", space), TrimLeft(more);
      assert rest == NO_STRING + space + after;
    } else {
      var parts := SplitOnce(more, STRING_END).value;
      SplitEndsFirst(more, STRING_END);
      var space := SpaceBefore(parts.1);
      item, after := Item(false, parts.0, space), TrimLeft(parts.1);
      assert rest == STRING + parts.0 + STRING_END + space + after;
    }
  }

  lemma TagsAreNotEmpty()
    ensures STRING != "" && NO_STRING != ""
  {
  }

  /** Where a text is split, what splits it is first. */
  lemma SplitEndsFirst(s: string, what: string)
    requires SplitOnce(s, what).Some?
    ensures
      var (a, b) := SplitOnce(s, what).value;
      s == a + what + b && Find(a + what, what) == Some(|a|)
  {
    hide Find;
    var (a, b) := SplitOnce(s, what).value;
    FindExactly(s, what, |a|);
    assert s[|a|..][..|what|] == what;
    assert s == a + what + b;
    var t := a + what;
    assert t[|a|..] == what;
    forall j | 0 <= j < |a|
      ensures !(what <= t[j..])
    {
      assert s[j..] == t[j..] + b;
    }
    FindExactly(t, what, |a|);
  }

  lemma {:induction false} ItemsIn(rest: string) returns (items: seq<Item>)
    requires ReadStrings(rest).Success?
    ensures ItemsFit(items) && ItemsText(items) == rest
    decreases |rest|
  {
    hide ReadStrings, Unescape, Find;
    if rest == "" {
      items := [];
    } else {
      var item, after := FirstItem(rest);
      var more := ItemsIn(after);
      items := [item] + more;
      assert items[1..] == more;
    }
  }

  /** The text of an array reads exactly when it is strings with white space
      after each, empty elements among them, and to what they say. */
  lemma StringsExactly(rest: string, args: seq<string>)
    ensures ReadStrings(rest) == Success(args) <==>
            exists items: seq<Item> :: ItemsFit(items) && ItemsText(items) == rest && ItemsMean(items) == args
  {
    hide ReadStrings, ItemsText, ItemsMean;
    if ReadStrings(rest).Success? {
      var items := ItemsIn(rest);
      ItemsRead(items);
    }
    forall items: seq<Item> | ItemsFit(items) && ItemsText(items) == rest
      ensures ReadStrings(rest) == Success(ItemsMean(items))
    {
      ItemsRead(items);
    }
  }

  const ARRAY: string := "<array>"
  const ARRAY_END: string := "</array>"

  /** `what` is in `a + what` at its end and nowhere before. */
  predicate EndsFirst(a: string, what: string) {
    Find(a + what, what) == Some(|a|)
  }

  /** A text with its arguments: the first key of theirs, the first array after
      it, and the first end of one after that. */
  predicate HoldsArray(text: string, before: string, between: string, inner: string, after: string) {
    && text == before + MARKER + between + ARRAY + inner + ARRAY_END + after
    && EndsFirst(before, MARKER) && EndsFirst(MARKER + between, ARRAY) && EndsFirst(inner, ARRAY_END)
  }

  lemma ArrayIsFound(text: string, before: string, between: string, inner: string, after: string)
    requires HoldsArray(text, before, between, inner, after)
    ensures ArrayText(text) == Success(Some(inner))
  {
    hide Find, SplitOnce, MARKER;
    var end := inner + ARRAY_END + after;
    var rest := (MARKER + between) + ARRAY + end;
    EndIsFirst(before, MARKER, between + ARRAY + end);
    EndIsFirst(MARKER + between, ARRAY, end);
    EndIsFirst(inner, ARRAY_END, after);
    assert text == before + MARKER + (between + ARRAY + end);
    assert text[|before|..] == rest;
    FoundIsSplit(text, MARKER);
  }

  lemma FoundIsSplit(s: string, what: string)
    ensures
      var parts := SplitOnce(s, what);
      Find(s, what) == if parts.None? then None else Some(|parts.value.0|)
  {
  }

  lemma FirstArray(more: string) returns (between: string, rest: string)
    requires SplitOnce(MARKER + more, ARRAY).Some?
    ensures SplitOnce(MARKER + more, ARRAY) == Some((MARKER + between, rest))
    ensures more == between + ARRAY + rest && EndsFirst(MARKER + between, ARRAY)
  {
    hide Find, SplitOnce, MARKER, Past;
    var s := MARKER + more;
    var first := SplitOnce(s, ARRAY).value.0;
    rest := SplitOnce(s, ARRAY).value.1;
    SplitEndsFirst(s, ARRAY);
    FoundIsSplit(s, ARRAY);
    PastMarker();
    PastAt(MARKER, more, ARRAY);
    between := first[|MARKER|..];
    assert s[..|MARKER|] == MARKER && first == s[..|first|];
    assert first == MARKER + between;
    assert s[|MARKER|..] == more && s[|MARKER|..] == between + ARRAY + rest;
  }

  lemma ArrayIsHeld(text: string) returns (before: string, between: string, after: string)
    requires ArrayText(text).Success? && ArrayText(text).value.Some?
    ensures HoldsArray(text, before, between, ArrayText(text).value.value, after)
  {
    hide Find, SplitOnce, MARKER;
    var parts := SplitOnce(text, MARKER);
    FoundIsSplit(text, MARKER);
    SplitEndsFirst(text, MARKER);
    before := parts.value.0;
    var more := parts.value.1;
    assert text[|before|..] == MARKER + more;
    var rest;
    between, rest := FirstArray(more);
    SplitEndsFirst(rest, ARRAY_END);
    var inner := SplitOnce(rest, ARRAY_END).value.0;
    after := SplitOnce(rest, ARRAY_END).value.1;
    hide ARRAY, ARRAY_END;
    assert text == before + MARKER + (between + ARRAY + (inner + ARRAY_END + after));
  }

  /** A plist has an array of arguments exactly when it holds one in the form
      looked for, and none exactly when their key is not in it. */
  lemma ArrayExactly(text: string, inner: string)
    ensures ArrayText(text) == Success(Some(inner)) <==>
            exists before, between, after :: HoldsArray(text, before, between, inner, after)
    ensures ArrayText(text) == Success(None) <==> forall i | 0 <= i <= |text| :: !(MARKER <= text[i..])
  {
    hide HoldsArray;
    if ArrayText(text) == Success(Some(inner)) {
      hide ArrayText;
      var before, between, after := ArrayIsHeld(text);
    }
    forall before, between, after | HoldsArray(text, before, between, inner, after)
      ensures ArrayText(text) == Success(Some(inner))
    {
      ArrayIsFound(text, before, between, inner, after);
    }
    NotFoundExactly(text, MARKER);
    hide Find, SplitOnce, MARKER;
  }

  lemma {:induction false} NotFoundExactly(s: string, what: string)
    ensures Find(s, what).None? <==> forall i | 0 <= i <= |s| :: !(what <= s[i..])
    decreases |s|
  {
    assert s[0..] == s;
    if s != "" {
      NotFoundExactly(s[1..], what);
      assert forall i | 1 <= i <= |s| :: s[i..] == s[1..][i - 1..];
      assert forall i | 0 <= i < |s| :: s[1..][i..] == s[i + 1..];
    }
  }
}
