/** What the reader of units takes, of any text, written here or by hand: the
    first command line, and exactly the command lines of a form. */
module CommandLaws {
  import opened Wrappers
  import opened Texts
  import opened ServiceFiles
  import opened UnitLaws
  import opened ReaderLaws

  // ----- the line

  /** The command is what the first line of its kind says, and no other's. */
  lemma {:induction false} FirstExecExactly(lines: seq<string>, command: string)
    ensures FirstExec(lines) == Some(command) <==>
            exists i | 0 <= i < |lines| ::
              lines[i] == EXEC + command && forall j | 0 <= j < i :: !(EXEC <= lines[j])
    decreases |lines|
  {
    hide EXEC;
    if lines == [] {
    } else {
      var rest := lines[1..];
      FirstExecExactly(rest, command);
      if EXEC <= lines[0] {
        assert lines[0] == EXEC + lines[0][|EXEC|..];
        assert (EXEC + command)[|EXEC|..] == command;
        if i :| 0 <= i < |lines| && lines[i] == EXEC + command && forall j | 0 <= j < i :: !(EXEC <= lines[j]) {
          assert i == 0;
        }
      } else {
        if i :| 0 <= i < |rest| && rest[i] == EXEC + command && forall j | 0 <= j < i :: !(EXEC <= rest[j]) {
          assert lines[i + 1] == rest[i];
          assert forall j | 0 <= j < i + 1 :: !(EXEC <= lines[j]) by {
            assert forall j | 1 <= j < i + 1 :: lines[j] == rest[j - 1];
          }
        }
        if i :| 0 <= i < |lines| && lines[i] == EXEC + command && forall j | 0 <= j < i :: !(EXEC <= lines[j]) {
          assert i > 0 && rest[i - 1] == lines[i];
          assert forall j | 0 <= j < i - 1 :: rest[j] == lines[j + 1];
        }
      }
    }
  }

  // ----- a quoted argument

  /** A character as it is, after a backslash, or twice for once. */
  datatype Token = As(c: char) | Slashed(c: char) | Twice(c: char) {
    function Spelling(): string {
      match this
      case As(c) => [c]
      case Slashed(c) => ['\\', c]
      case Twice(c) => [c, c]
    }

    function Meaning(): char {
      if this == Slashed('n') then '\n' else c
    }
  }

  predicate Doubles(c: char) {
    c == '%' || c == '$'
  }

  /** What is next after some tokens: the first of them, or the quote. */
  function Next(tokens: seq<Token>): char {
    if tokens == [] then '"' else tokens[0].Spelling()[0]
  }

  /** A `%` or a `$` as it is has no other next to it. */
  predicate TokenFits(token: Token, next: char) {
    match token
    case As(c) => c != '"' && c != '\\' && !(Doubles(c) && next == c)
    case Slashed(_) => true
    case Twice(c) => Doubles(c)
  }

  predicate TokensFit(tokens: seq<Token>) {
    forall i | 0 <= i < |tokens| :: TokenFits(tokens[i], Next(tokens[i + 1..]))
  }

  function TokensText(tokens: seq<Token>): string {
    if tokens == [] then "" else tokens[0].Spelling() + TokensText(tokens[1..])
  }

  function TokensMean(tokens: seq<Token>): string {
    seq(|tokens|, i requires 0 <= i < |tokens| => tokens[i].Meaning())
  }

  lemma TokenReads(token: Token, rest: string)
    requires rest != "" && TokenFits(token, rest[0])
    ensures Quoted(token.Spelling() + rest) == PushAll([token.Meaning()], Quoted(rest))
  {
    var s := token.Spelling() + rest;
    assert s[|token.Spelling()|..] == rest;
    assert s[0] == token.Spelling()[0] && (token.As? ==> s[1] == rest[0]);
  }

  lemma {:induction false} TokensRead(tokens: seq<Token>, after: string)
    requires TokensFit(tokens)
    ensures Quoted(TokensText(tokens) + "\"" + after) == Some((TokensMean(tokens), after))
    ensures (TokensText(tokens) + "\"" + after)[0] == Next(tokens)
    decreases |tokens|
  {
    hide Quoted;
    if tokens == [] {
      QuoteEnds(after);
    } else {
      var rest := TokensText(tokens[1..]) + "\"" + after;
      assert forall i | 0 <= i < |tokens| - 1 ::
          tokens[1..][i] == tokens[i + 1] && tokens[1..][i + 1..] == tokens[i + 2..];
      TokensRead(tokens[1..], after);
      TokenReads(tokens[0], rest);
      assert TokensText(tokens) + "\"" + after == tokens[0].Spelling() + rest;
      assert [tokens[0].Meaning()] + TokensMean(tokens[1..]) == TokensMean(tokens);
    }
  }

  /** The first token of a text that is closed by a quote. */
  lemma FirstToken(s: string) returns (token: Token, rest: string)
    requires Quoted(s).Some? && s[0] != '"'
    ensures s == token.Spelling() + rest && rest != "" && TokenFits(token, rest[0]) && Quoted(rest).Some?
  {
    if s[0] == '\\' {
      token, rest := Slashed(s[1]), s[2..];
    } else if Doubles(s[0]) && |s| > 1 && s[1] == s[0] {
      token, rest := Twice(s[0]), s[2..];
    } else {
      token, rest := As(s[0]), s[1..];
    }
    assert Quoted(rest).Some?;
  }

  lemma {:induction false} TokensIn(s: string) returns (tokens: seq<Token>)
    requires Quoted(s).Some?
    ensures TokensFit(tokens) && s == TokensText(tokens) + "\"" + Quoted(s).value.1
    decreases |s|
  {
    if s[0] == '"' {
      tokens := [];
      assert s == "" + "\"" + s[1..];
    } else {
      var token, rest := FirstToken(s);
      assert Quoted(s).value.1 == Quoted(rest).value.1 by {
        TokenReads(token, rest);
      }
      hide Quoted;
      var more := TokensIn(rest);
      tokens := [token] + more;
      assert tokens[1..] == more && rest[0] == Next(more);
      assert forall i | 1 <= i < |tokens| :: tokens[i] == more[i - 1] && tokens[i + 1..] == more[i..];
    }
  }

  /** Text up to its closing quote reads exactly when it is tokens: a backslash
      takes the next character, or a line break for `n`; a doubled `%` or `$` is
      one, and a single one stays. */
  lemma QuotedExactly(s: string, value: string, after: string)
    ensures Quoted(s) == Some((value, after)) <==>
            exists tokens: seq<Token> ::
              TokensFit(tokens) && s == TokensText(tokens) + "\"" + after && TokensMean(tokens) == value
  {
    hide Quoted, TokensText, TokensMean;
    if Quoted(s) == Some((value, after)) {
      var tokens := TokensIn(s);
      TokensRead(tokens, after);
    }
    forall tokens: seq<Token> | TokensFit(tokens) && s == TokensText(tokens) + "\"" + after
      ensures Quoted(s) == Some((TokensMean(tokens), after))
    {
      TokensRead(tokens, after);
    }
  }

  // ----- a command line

  /** A quoted argument, and the white space after it. */
  datatype Arg = Arg(tokens: seq<Token>, space: string) {
    predicate Fits() {
      TokensFit(tokens) && forall c <- space :: White(c)
    }

    function Spelling(): string {
      "\"" + TokensText(tokens) + "\"" + space
    }
  }

  predicate ArgsFit(args: seq<Arg>) {
    forall i | 0 <= i < |args| :: args[i].Fits()
  }

  function ArgsText(args: seq<Arg>): string {
    if args == [] then "" else args[0].Spelling() + ArgsText(args[1..])
  }

  function ArgsMean(args: seq<Arg>): seq<string> {
    seq(|args|, i requires 0 <= i < |args| => TokensMean(args[i].tokens))
  }

  lemma FirstArgReads(arg: Arg, after: string)
    requires arg.Fits() && (after == "" || !White(after[0]))
    ensures ReadArgs(arg.Spelling() + after) == Prepend([TokensMean(arg.tokens)], ReadArgs(after))
  {
    hide ReadArgs, Quoted, TokensText, TokensMean, TrimLeft, TokensFit;
    var text := TokensText(arg.tokens) + "\"" + (arg.space + after);
    TokensRead(arg.tokens, arg.space + after);
    ArgReads(TokensMean(arg.tokens), text, arg.space + after);
    TrimPast(arg.space, after);
    assert arg.Spelling() + after == "\"" + text;
  }

  lemma {:induction false} ArgsRead(args: seq<Arg>)
    requires ArgsFit(args)
    ensures ReadArgs(ArgsText(args)) == Success(ArgsMean(args))
    ensures args != [] ==> ArgsText(args) != "" && ArgsText(args)[0] == '"'
    decreases |args|
  {
    hide ReadArgs, TokensText, TokensMean, TokensFit;
    if args == [] {
      NoArgs();
    } else {
      ArgsRead(args[1..]);
      FirstArgReads(args[0], ArgsText(args[1..]));
      assert [TokensMean(args[0].tokens)] + ArgsMean(args[1..]) == ArgsMean(args);
    }
  }

  lemma FirstArg(rest: string) returns (arg: Arg, after: string)
    requires rest != "" && ReadArgs(rest).Success?
    ensures arg.Fits() && rest == arg.Spelling() + after && |after| < |rest| && ReadArgs(after).Success?
  {
    hide Quoted, TrimLeft, TokensFit, TokensText;
    var quoted := rest[1..];
    var tokens := TokensIn(quoted);
    var more := Quoted(quoted).value.1;
    var space := SpaceBefore(more);
    arg, after := Arg(tokens, space), TrimLeft(more);
    assert ReadArgs(after).Success?;
    hide ReadArgs;
    assert rest == "\"" + quoted;
    assert rest == "\"" + TokensText(tokens) + "\"" + (space + after);
  }

  lemma {:induction false} ArgsIn(rest: string) returns (args: seq<Arg>)
    requires ReadArgs(rest).Success?
    ensures ArgsFit(args) && ArgsText(args) == rest
    decreases |rest|
  {
    hide ReadArgs, TokensFit, TokensText;
    if rest == "" {
      args := [];
    } else {
      var arg, after := FirstArg(rest);
      var more := ArgsIn(after);
      args := [arg] + more;
      assert args[1..] == more;
    }
  }

  /** A command reads exactly when it is quoted arguments with white space after
      each, if any, and to what they mean. */
  lemma ArgsExactly(rest: string, said: seq<string>)
    ensures ReadArgs(rest) == Success(said) <==>
            exists args: seq<Arg> :: ArgsFit(args) && ArgsText(args) == rest && ArgsMean(args) == said
  {
    hide ReadArgs, ArgsText, ArgsMean;
    if ReadArgs(rest).Success? {
      var args := ArgsIn(rest);
      ArgsRead(args);
    }
    forall args: seq<Arg> | ArgsFit(args) && ArgsText(args) == rest
      ensures ReadArgs(rest) == Success(ArgsMean(args))
    {
      ArgsRead(args);
    }
  }
}
