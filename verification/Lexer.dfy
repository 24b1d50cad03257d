// NginxConfigParser::ParseToken: the character automaton with one-character push-back.
module Lexer {
  import opened Wrappers
  import opened ConfigSyntax

  datatype TokenType = Start | Normal | StartBlock | EndBlock | Comment | StatementEnd | EndOfFile | Error

  // The seven states of the automaton. The two quote states and the two escape states
  // are written once each, indexed by the quote character.
  datatype LexState = InitialWhitespace | InQuote(quote: char) | InComment | InBare | InEscape(quote: char)

  datatype Lexeme = Lexeme(kind: TokenType, value: string, rest: string)

  predicate Quote(c: char) { c == '"' || c == '\'' }

  predicate White(c: char) { c == ' ' || c == '\t' || c == '\n' || c == '\r' }

  // What may follow a word. A carriage return is not among them.
  predicate Delimiter(c: char) { c == ' ' || c == '\t' || c == '\n' || c == ';' || c == '{' || c == '}' }

  predicate LineEnd(c: char) { c == '\n' || c == '\r' }

  predicate Starts(s: string) { s != "" && Delimiter(s[0]) }

  // The state reached on the first significant character of a bare word.
  predicate BareStart(c: char) {
    !White(c) && !Delimiter(c) && !Quote(c) && c != '#'
  }

  // The automaton from any state, on the characters still to be read.
  function Scan(state: LexState, value: string, input: string): (r: Lexeme)
    ensures |r.rest| <= |input|
    ensures state.InitialWhitespace? && !r.kind.EndOfFile? && !r.kind.Error? ==> |r.rest| < |input|
    ensures !r.kind.Start?
    decreases |input|
  {
    if input == "" then
      Lexeme(if state.InQuote? then Error else EndOfFile, value, "")
    else
      var c, rest := input[0], input[1..];
      match state
      case InitialWhitespace =>
        if c == '{' then Lexeme(StartBlock, [c], rest)
        else if c == '}' then Lexeme(EndBlock, [c], rest)
        else if c == '#' then Scan(InComment, [c], rest)
        else if Quote(c) then Scan(InQuote(c), [c], rest)
        else if c == ';' then Lexeme(StatementEnd, [c], rest)
        else if White(c) then Scan(InitialWhitespace, value, rest)
        else Scan(InBare, value + [c], rest)
      case InQuote(q) =>
        if c == q then
          if Starts(rest) then Lexeme(Normal, value + [c], rest)
          else Lexeme(Error, value + [c], if rest == "" then "" else rest[1..])
        else if c == '\\' then Scan(InEscape(q), value, rest)
        else Scan(InQuote(q), value + [c], rest)
      case InComment =>
        if LineEnd(c) then Lexeme(Comment, value, rest)
        else Scan(InComment, value + [c], rest)
      case InBare =>
        if Delimiter(c) then Lexeme(Normal, value, input)
        else Scan(InBare, value + [c], rest)
      case InEscape(q) =>
        Scan(InQuote(q), value + [c], rest)
  }

  function NextLexeme(input: string): Lexeme {
    Scan(InitialWhitespace, "", input)
  }

  // ---- What the automaton accepts, stated without it ----

  predicate NoDelimiter(w: string) { forall i :: 0 <= i < |w| ==> !Delimiter(w[i]) }

  predicate AllWhite(w: string) { forall i :: 0 <= i < |w| ==> White(w[i]) }

  predicate BareWord(w: string) { w != "" && BareStart(w[0]) && NoDelimiter(w[1..]) }

  // A quoted word that prints back as itself.
  predicate PlainQuoted(w: string) {
    && |w| >= 2
    && Quote(w[0])
    && w[|w| - 1] == w[0]
    && (forall i :: 0 < i < |w| - 1 ==> w[i] != w[0] && w[i] != '\\')
  }

  predicate Relexable(w: string) { BareWord(w) || PlainQuoted(w) }

  // The stored body of a quoted word: each backslash vanishes and protects the next character.
  function Unescape(q: char, raw: string): Option<string> {
    if raw == "" then Some("")
    else if raw[0] == '\\' then
      if |raw| == 1 then None else Push(raw[1], Unescape(q, raw[2..]))
    else if raw[0] == q then None
    else Push(raw[0], Unescape(q, raw[1..]))
  }

  function Push(c: char, o: Option<string>): Option<string> {
    match o case None => None case Some(s) => Some([c] + s)
  }

  // Text `spelling` denotes the word `value`.
  ghost predicate Spells(spelling: string, value: string) {
    || (BareWord(value) && spelling == value)
    || exists q, raw :: SpellsQuoted(spelling, value, q, raw)
  }

  ghost predicate SpellsQuoted(spelling: string, value: string, q: char, raw: string) {
    && Quote(q)
    && spelling == [q] + raw + [q]
    && Unescape(q, raw).Some?
    && value == [q] + Unescape(q, raw).value + [q]
  }

  // ---- Running the automaton over a known spelling ----

  lemma {:induction false} ScanWhite(ws: string, rest: string)
    requires AllWhite(ws)
    ensures NextLexeme(ws + rest) == NextLexeme(rest)
  {
    if ws == "" {
      assert ws + rest == rest;
    } else {
      assert White(ws[0]);
      assert (ws + rest)[1..] == ws[1..] + rest;
      ScanWhite(ws[1..], rest);
    }
  }

  lemma {:induction false} ScanBare(value: string, w: string, rest: string)
    requires NoDelimiter(w) && Starts(rest)
    ensures Scan(InBare, value, w + rest) == Lexeme(Normal, value + w, rest)
    decreases |w|
  {
    if w == "" {
      assert w + rest == rest && value + w == value;
    } else {
      assert (w + rest)[1..] == w[1..] + rest;
      assert value + [w[0]] + w[1..] == value + w;
      ScanBare(value + [w[0]], w[1..], rest);
    }
  }

  lemma {:induction false} ScanQuoted(q: char, value: string, raw: string, rest: string)
    requires Quote(q) && Unescape(q, raw).Some? && Starts(rest)
    ensures Scan(InQuote(q), value, raw + [q] + rest)
         == Lexeme(Normal, value + Unescape(q, raw).value + [q], rest)
    decreases |raw|
  {
    var input := raw + [q] + rest;
    if raw == "" {
      assert input[1..] == rest;
      assert value + "" + [q] == value + [q];
    } else if raw[0] == '\\' {
      var tail := raw[2..];
      assert input[1..][0] == raw[1];
      assert input[1..][1..] == tail + [q] + rest;
      ScanQuoted(q, value + [raw[1]], tail, rest);
      PushedBody(value, raw[1], Unescape(q, tail).value, q);
    } else {
      var tail := raw[1..];
      assert input[1..] == tail + [q] + rest;
      ScanQuoted(q, value + [raw[0]], tail, rest);
      PushedBody(value, raw[0], Unescape(q, tail).value, q);
    }
  }

  // ---- Reading the spelling back off a successful run ----

  lemma {:induction false} ScanBareShape(value: string, input: string) returns (w: string)
    requires Scan(InBare, value, input).kind.Normal?
    ensures NoDelimiter(w)
    ensures var r := Scan(InBare, value, input);
            input == w + r.rest && r.value == value + w && Starts(r.rest)
    decreases |input|
  {
    if Delimiter(input[0]) {
      w := "";
    } else {
      var v := ScanBareShape(value + [input[0]], input[1..]);
      w := [input[0]] + v;
    }
  }

  lemma PushedBody(value: string, c: char, body: string, q: char)
    ensures value + [c] + body + [q] == value + ([c] + body) + [q]
  {
  }

  lemma {:induction false} ScanQuotedShape(q: char, value: string, input: string) returns (raw: string)
    requires Quote(q) && Scan(InQuote(q), value, input).kind.Normal?
    ensures Unescape(q, raw).Some?
    ensures var r := Scan(InQuote(q), value, input);
            input == raw + [q] + r.rest && r.value == value + Unescape(q, raw).value + [q] && Starts(r.rest)
    decreases |input|
  {
    if input[0] == q {
      raw := "";
    } else if input[0] == '\\' {
      var c, later := input[1], input[2..];
      assert input[1..][0] == c && input[1..][1..] == later;
      assert Scan(InQuote(q), value, input) == Scan(InQuote(q), value + [c], later);
      var tail := ScanQuotedShape(q, value + [c], later);
      raw := ['\\', c] + tail;
      assert raw[2..] == tail;
      PushedBody(value, c, Unescape(q, tail).value, q);
    } else {
      var c, later := input[0], input[1..];
      var tail := ScanQuotedShape(q, value + [c], later);
      raw := [c] + tail;
      assert raw[1..] == tail;
      PushedBody(value, c, Unescape(q, tail).value, q);
    }
  }

  lemma ScanSpelled(spelling: string, value: string, rest: string)
    requires Spells(spelling, value) && Starts(rest)
    ensures NextLexeme(spelling + rest) == Lexeme(Normal, value, rest)
  {
    if BareWord(value) && spelling == value {
      var input := value + rest;
      assert input[1..] == value[1..] + rest;
      ScanBare([value[0]], value[1..], rest);
      assert [value[0]] + value[1..] == value;
      assert "" + [input[0]] == [value[0]];
    } else {
      var q, raw :| SpellsQuoted(spelling, value, q, raw);
      var input := spelling + rest;
      assert input[1..] == raw + [q] + rest;
      ScanQuoted(q, [q], raw, rest);
    }
  }

  lemma {:induction false} WordShape(input: string) returns (ws: string, spelling: string)
    requires NextLexeme(input).kind.Normal?
    ensures AllWhite(ws)
    ensures var r := NextLexeme(input);
            input == ws + spelling + r.rest && Spells(spelling, r.value) && Starts(r.rest)
    decreases |input|
  {
    var r := NextLexeme(input);
    var c, rest := input[0], input[1..];
    if c == '#' {
      CommentNotWord([c], rest);
      ws, spelling := "", "";
    } else if Quote(c) {
      var raw := ScanQuotedShape(c, [c], rest);
      ws, spelling := "", [c] + raw + [c];
      assert SpellsQuoted(spelling, r.value, c, raw);
    } else if White(c) {
      ws, spelling := WordShape(rest);
      ws := [c] + ws;
    } else {
      assert "" + [c] == [c];
      var w := ScanBareShape([c], rest);
      ws, spelling := "", [c] + w;
      assert spelling[1..] == w;
    }
  }

  lemma {:induction false} CommentNotWord(value: string, input: string)
    ensures var k := Scan(InComment, value, input).kind; k.Comment? || k.EndOfFile?
    decreases |input|
  {
    if input != "" && !LineEnd(input[0]) {
      CommentNotWord(value + [input[0]], input[1..]);
    }
  }

  // ParseToken returns a word exactly on white space, a spelling of that word, and a delimiter,
  // and it stops in front of the delimiter.
  lemma NextWordExact(input: string, value: string, rest: string)
    ensures NextLexeme(input) == Lexeme(Normal, value, rest)
       <==> exists ws, spelling ::
              AllWhite(ws) && Spells(spelling, value) && Starts(rest) && input == ws + spelling + rest
  {
    if NextLexeme(input) == Lexeme(Normal, value, rest) {
      var ws, spelling := WordShape(input);
    }
    if exists ws, spelling ::
         AllWhite(ws) && Spells(spelling, value) && Starts(rest) && input == ws + spelling + rest {
      var ws, spelling :|
        AllWhite(ws) && Spells(spelling, value) && Starts(rest) && input == ws + spelling + rest;
      assert input == ws + (spelling + rest);
      ScanWhite(ws, spelling + rest);
      ScanSpelled(spelling, value, rest);
    }
  }

  // ---- Quoting ----

  function Escape(q: char, body: string): string {
    if body == "" then ""
    else (if body[0] == q || body[0] == '\\' then ['\\', body[0]] else [body[0]]) + Escape(q, body[1..])
  }

  lemma {:induction false} UnescapeEscape(q: char, body: string)
    requires Quote(q)
    ensures Unescape(q, Escape(q, body)) == Some(body)
  {
    if body != "" {
      var tail := Escape(q, body[1..]);
      UnescapeEscape(q, body[1..]);
      assert [body[0]] + body[1..] == body;
      if body[0] == q || body[0] == '\\' {
        assert (['\\', body[0]] + tail)[2..] == tail;
      } else {
        assert ([body[0]] + tail)[1..] == tail;
      }
    }
  }

  // Escaping any body and wrapping it in quotes is undone by ParseToken.
  lemma QuotingInverts(q: char, body: string, ws: string, rest: string)
    requires Quote(q) && AllWhite(ws) && Starts(rest)
    ensures NextLexeme(ws + ([q] + Escape(q, body) + [q]) + rest)
         == Lexeme(Normal, [q] + body + [q], rest)
  {
    var spelling := [q] + Escape(q, body) + [q];
    UnescapeEscape(q, body);
    assert SpellsQuoted(spelling, [q] + body + [q], q, Escape(q, body));
    NextWordExact(ws + spelling + rest, [q] + body + [q], rest);
  }

  // ---- Words that spell themselves ----

  lemma {:induction false} UnescapePlain(q: char, raw: string)
    requires forall i :: 0 <= i < |raw| ==> raw[i] != q && raw[i] != '\\'
    ensures Unescape(q, raw) == Some(raw)
  {
    if raw != "" {
      assert raw[0] != q;
      UnescapePlain(q, raw[1..]);
      assert [raw[0]] + raw[1..] == raw;
    }
  }

  lemma RelexableSpellsItself(w: string)
    requires Relexable(w)
    ensures Spells(w, w)
  {
    if !BareWord(w) {
      var q, raw := w[0], w[1..|w| - 1];
      UnescapePlain(q, raw);
      assert w == [q] + raw + [q];
      assert SpellsQuoted(w, w, q, raw);
    }
  }

  // The reversed direction: a word followed by a delimiter lexes as itself only if it is relexable.
  lemma SelfLexIsRelexable(w: string, rest: string, after: string)
    requires w != "" && (BareStart(w[0]) || Quote(w[0]))
    requires Starts(rest)
    requires NextLexeme(w + rest) == Lexeme(Normal, w, after)
    ensures Relexable(w)
  {
    var input := w + rest;
    var tail := input[1..];
    assert input[0] == w[0] && "" + [w[0]] == [w[0]];
    if BareStart(w[0]) {
      var v := ScanBareShape([w[0]], tail);
      assert w[1..] == v;
    } else {
      var q := w[0];
      var raw := ScanQuotedShape(q, [q], tail);
      QuotedFixpoint(q, raw, w, rest, after);
    }
  }

  lemma QuotedFixpoint(q: char, raw: string, w: string, rest: string, after: string)
    requires Quote(q) && Unescape(q, raw).Some?
    requires w == [q] + Unescape(q, raw).value + [q]
    requires (w + rest)[1..] == raw + [q] + after
    ensures PlainQuoted(w)
  {
    var body := Unescape(q, raw).value;
    var text := raw + [q] + after;
    assert text == body + [q] + rest;
    UnescapeShrinks(q, raw);
    assert body + [q] == text[..|body| + 1] && raw + [q] == text[..|raw| + 1];
    assert body + [q] == (raw + [q])[..|body| + 1];
    EscapeFreeFix(q, raw, body);
    assert forall i :: 0 < i < |w| - 1 ==> w[i] == raw[i - 1];
  }

  lemma {:induction false} UnescapeShrinks(q: char, raw: string)
    requires Unescape(q, raw).Some?
    ensures |Unescape(q, raw).value| <= |raw|
  {
    if raw != "" {
      UnescapeShrinks(q, if raw[0] == '\\' then raw[2..] else raw[1..]);
    }
  }

  // If the stored body is where the raw text says it should be, nothing was escaped.
  lemma {:induction false} EscapeFreeFix(q: char, raw: string, body: string)
    requires Quote(q) && Unescape(q, raw) == Some(body)
    requires body + [q] <= raw + [q]
    ensures body == raw && q !in raw && '\\' !in raw
  {
    if raw == "" {
    } else if raw[0] == '\\' {
      var tail := Unescape(q, raw[2..]).value;
      assert (body + [q])[0] == raw[1] && (raw + [q])[0] == '\\';
      assert raw[1] == '\\';
      assert (body + [q])[1..] == tail + [q];
      assert (raw + [q])[1..] == Backslashes(1) + raw[2..] + [q];
      assert tail + [q] <= Backslashes(1) + raw[2..] + [q];
      BackslashLag(q, raw[2..], 1);
    } else {
      assert body[1..] + [q] == (body + [q])[1..];
      assert raw[1..] + [q] == (raw + [q])[1..];
      assert body[1..] == Unescape(q, raw[1..]).value;
      EscapeFreeFix(q, raw[1..], body[1..]);
      assert raw == [raw[0]] + raw[1..];
    }
  }

  function Backslashes(n: nat): string { seq(n, _ => '\\') }

  // Once the stored text lags behind a run of backslashes it can never catch up.
  lemma {:induction false} BackslashLag(q: char, raw: string, n: nat)
    requires Quote(q) && n > 0 && Unescape(q, raw).Some?
    ensures !(Unescape(q, raw).value + [q] <= Backslashes(n) + raw + [q])
    decreases |raw|
  {
    var body := Unescape(q, raw).value;
    var text := Backslashes(n) + raw + [q];
    assert text[0] == '\\';
    if body + [q] <= text {
      assert (body + [q])[0] == text[0];
      assert raw != "" && raw[0] == '\\' && raw[1] == '\\';
      var tail := raw[2..];
      assert (body + [q])[1..] == Unescape(q, tail).value + [q];
      assert text[1..] == Backslashes(n + 1) + tail + [q];
      BackslashLag(q, tail, n + 1);
    }
  }

  // ---- The whole token stream ----

  datatype Tokens = Tokens(tokens: seq<Token>, clean: bool)

  // Comments are dropped; the stream is clean when it ended at end of file rather than in an error.
  function Lex(input: string): Tokens
    decreases |input|
  {
    var r := NextLexeme(input);
    match r.kind
    case Normal => Prepend(Word(r.value), Lex(r.rest))
    case StartBlock => Prepend(Open, Lex(r.rest))
    case EndBlock => Prepend(Close, Lex(r.rest))
    case StatementEnd => Prepend(Semi, Lex(r.rest))
    case Comment => Lex(r.rest)
    case EndOfFile => Tokens([], true)
    case Error => Tokens([], false)
    case Start => Tokens([], false)
  }

  function Prepend(t: Token, ts: Tokens): Tokens {
    ts.(tokens := [t] + ts.tokens)
  }

  // Every word the lexer yields is bare, or quoted with a matching quote at each end.
  predicate WordForm(w: string) {
    BareWord(w) || (|w| >= 2 && Quote(w[0]) && w[|w| - 1] == w[0])
  }

  lemma {:induction false} LexedWordForm(input: string)
    ensures AllTokenWords(Lex(input).tokens, WordForm)
    decreases |input|
  {
    var r := NextLexeme(input);
    if r.kind.EndOfFile? || r.kind.Error? {
    } else {
      LexedWordForm(r.rest);
      if r.kind.Normal? {
        var ws, spelling := WordShape(input);
      }
    }
  }

  // ---- Escapes that matter ----

  // Some backslash in the body of a quote protects the quote character or another backslash.
  predicate Protects(q: char, raw: string) {
    if raw == "" then false
    else if raw[0] == '\\' then |raw| > 1 && (raw[1] == q || raw[1] == '\\' || Protects(q, raw[2..]))
    else Protects(q, raw[1..])
  }

  // A spelling that is bare, or a quote in which every backslash protects something else.
  predicate Harmless(spelling: string) {
    QuotedSpelling(spelling) ==> !Protects(spelling[0], spelling[1..|spelling| - 1])
  }

  predicate QuotedSpelling(spelling: string) { |spelling| >= 2 && Quote(spelling[0]) }

  predicate PlainBody(q: char, body: string) {
    forall i :: 0 <= i < |body| ==> body[i] != q && body[i] != '\\'
  }

  lemma {:induction false} PlainBodyIff(q: char, raw: string)
    requires Quote(q) && Unescape(q, raw).Some?
    ensures PlainBody(q, Unescape(q, raw).value) <==> !Protects(q, raw)
    decreases |raw|
  {
    if raw != "" {
      var (c, tail) := if raw[0] == '\\' then (raw[1], raw[2..]) else (raw[0], raw[1..]);
      PlainBodyIff(q, tail);
      var body := Unescape(q, tail).value;
      assert Unescape(q, raw).value == [c] + body;
      if PlainBody(q, [c] + body) {
        assert ([c] + body)[0] == c;
        assert forall i :: 0 <= i < |body| ==> body[i] == ([c] + body)[i + 1];
      }
    }
  }

  // A word prints back as itself exactly when its spelling is harmless.
  lemma RelexableIff(spelling: string, value: string)
    requires Spells(spelling, value)
    ensures Relexable(value) <==> Harmless(spelling)
  {
    if !(BareWord(value) && spelling == value) {
      var q, raw :| SpellsQuoted(spelling, value, q, raw);
      var body := Unescape(q, raw).value;
      PlainBodyIff(q, raw);
      assert spelling[1..|spelling| - 1] == raw;
      assert value[1..|value| - 1] == body;
      assert forall i :: 0 < i < |value| - 1 ==> value[i] == body[i - 1];
      if PlainQuoted(value) {
        assert forall i :: 0 <= i < |body| ==> body[i] == value[i + 1];
      }
    }
  }

  lemma {:induction false} NoBackslashProtectsNothing(q: char, raw: string)
    requires '\\' !in raw
    ensures !Protects(q, raw)
  {
    if raw != "" {
      assert raw[0] in raw;
      NoBackslashProtectsNothing(q, raw[1..]);
    }
  }
}
