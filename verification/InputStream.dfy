// The character source ParseToken reads, and ParseToken itself as a loop over it.
module InputStream {
  import opened ConfigSyntax
  import opened Lexer

  // What get() yields once the stream is exhausted: end-of-file narrowed to a character.
  const END_OF_STREAM: char := '\U{FF}'

  // An input stream over text in memory. It stays good until a read past the end.
  class CharStream {
    const text: string
    var pos: nat
    var good: bool

    ghost predicate Valid() reads this {
      pos <= |text| && (good || pos == |text|)
    }

    ghost function Rest(): string
      requires Valid()
      reads this
    {
      text[pos..]
    }

    constructor (text: string)
      ensures Valid() && good && pos == 0 && this.text == text
    {
      this.text, pos, good := text, 0, true;
    }

    method Get() returns (c: char)
      requires Valid()
      modifies this
      ensures Valid()
      ensures if old(good && pos < |text|)
              then good && pos == old(pos) + 1 && c == text[old(pos)]
              else !good && pos == old(pos) == |text| && c == END_OF_STREAM
    {
      if good && pos < |text| {
        c, pos := text[pos], pos + 1;
      } else {
        c, good := END_OF_STREAM, false;
      }
    }

    method Unget()
      requires Valid() && good && pos > 0
      modifies this
      ensures Valid() && good && pos == old(pos) - 1
    {
      pos := pos - 1;
    }
  }

  method ParseToken(input: CharStream) returns (kind: TokenType, value: string)
    requires input.Valid()
    modifies input
    ensures input.Valid()
    ensures Lexeme(kind, value, input.Rest()) == NextLexeme(old(input.Rest()))
    ensures !kind.EndOfFile? && !kind.Error? ==> input.pos > old(input.pos)
  {
    value := "";
    var state := InitialWhitespace;
    while input.good
      invariant input.Valid() && input.pos >= old(input.pos)
      invariant Scan(state, value, input.Rest()) == NextLexeme(old(input.Rest()))
      invariant state.InQuote? ==> Quote(state.quote)
      invariant state.InEscape? ==> Quote(state.quote)
      invariant state.InitialWhitespace? ==> value == ""
      invariant state.InBare? ==> input.pos > old(input.pos)
      decreases |input.text| - input.pos, input.good
    {
      ghost var before := input.Rest();
      var c := input.Get();
      if !input.good { break; }
      assert before[0] == c && before[1..] == input.Rest();
      match state {
        case InitialWhitespace =>
          if c == '{' {
            return StartBlock, [c];
          } else if c == '}' {
            return EndBlock, [c];
          } else if c == '#' {
            value, state := [c], InComment;
          } else if c == '"' || c == '\'' {
            value, state := [c], InQuote(c);
          } else if c == ';' {
            return StatementEnd, [c];
          } else if c != ' ' && c != '\t' && c != '\n' && c != '\r' {
            value, state := value + [c], InBare;
          }
        case InQuote(q) =>
          value := value + [c];
          if c == q {
            var next := input.Get();
            if Delimiter(next) {
              input.Unget();
              return Normal, value;
            }
            return Error, value;
          } else if c == '\\' {
            value := value[..|value| - 1];
            state := InEscape(q);
          }
        case InComment =>
          if c == '\n' || c == '\r' {
            return Comment, value;
          }
          value := value + [c];
        case InBare =>
          if Delimiter(c) {
            input.Unget();
            return Normal, value;
          }
          value := value + [c];
        case InEscape(q) =>
          value := value + [c];
          state := InQuote(q);
      }
    }
    kind := if state.InQuote? then Error else EndOfFile;
  }

  function KindOf(t: Token): TokenType {
    match t case Word(_) => Normal case Semi => StatementEnd case Open => StartBlock case Close => EndBlock
  }

  // ParseToken again and again until it is not a comment: the next step of Lex.
  method NextToken(input: CharStream) returns (kind: TokenType, t: Token)
    requires input.Valid()
    modifies input
    ensures input.Valid()
    ensures kind.Error? || kind.EndOfFile? ==> Lex(old(input.Rest())) == Tokens([], kind.EndOfFile?)
    ensures !kind.Error? && !kind.EndOfFile? ==>
              kind == KindOf(t) && Lex(old(input.Rest())) == Prepend(t, Lex(input.Rest()))
              && input.pos > old(input.pos)
  {
    var word;
    kind, word := ParseToken(input);
    while kind.Comment?
      invariant input.Valid()
      invariant !kind.Start? && (!kind.Error? && !kind.EndOfFile? ==> input.pos > old(input.pos))
      invariant match kind
                case EndOfFile => Lex(old(input.Rest())) == Tokens([], true)
                case Error => Lex(old(input.Rest())) == Tokens([], false)
                case Comment => Lex(old(input.Rest())) == Lex(input.Rest())
                case _ => Lex(old(input.Rest())) == Prepend(TokenOf(kind, word), Lex(input.Rest()))
      decreases |input.text| - input.pos, kind.Comment?
    {
      kind, word := ParseToken(input);
    }
    t := TokenOf(kind, word);
  }

  function TokenOf(kind: TokenType, word: string): Token {
    match kind case Normal => Word(word) case StatementEnd => Semi case StartBlock => Open case _ => Close
  }
}
