// Text seen as tokens with gaps between them: what white space and comments may do.
module Layout {
  import opened Sequences
  import opened ConfigSyntax
  import opened Lexer
  import opened BlockStack

  // White space and comments that end in a line end.
  predicate GapFrom(inComment: bool, s: string)
    decreases |s|
  {
    if s == "" then !inComment
    else if inComment then GapFrom(!LineEnd(s[0]), s[1..])
    else if s[0] == '#' then GapFrom(true, s[1..])
    else White(s[0]) && GapFrom(false, s[1..])
  }

  predicate IsGap(s: string) { GapFrom(false, s) }

  // A token with the gap in front of it and the text that denotes it.
  datatype Piece = Piece(gap: string, token: Token, spelling: string)

  function TextOf(ps: seq<Piece>, trailer: string): string {
    if ps == [] then trailer
    else ps[0].gap + ps[0].spelling + TextOf(ps[1..], trailer)
  }

  function TokensOf(ps: seq<Piece>): seq<Token> {
    if ps == [] then [] else [ps[0].token] + TokensOf(ps[1..])
  }

  ghost predicate Denotes(spelling: string, t: Token) {
    match t
    case Word(w) => Spells(spelling, w)
    case Semi => spelling == ";"
    case Open => spelling == "{"
    case Close => spelling == "}"
  }

  // Each gap is a gap, each token is spelled, and a delimiter follows each word. What comes after
  // the last token may be anything.
  ghost predicate LaidOver(ps: seq<Piece>, tail: string) {
    ps != [] ==>
      && IsGap(ps[0].gap)
      && Denotes(ps[0].spelling, ps[0].token)
      && (ps[0].token.Word? ==> Starts(TextOf(ps[1..], tail)))
      && LaidOver(ps[1..], tail)
  }

  // ---- What end of file cuts off ----

  predicate OpenComment(t: string) {
    t != "" && t[0] == '#' && forall i :: 0 < i < |t| ==> !LineEnd(t[i])
  }

  // A quote that is never closed and ends in a lone backslash.
  predicate OpenEscape(t: string) {
    |t| >= 2 && Quote(t[0]) && t[|t| - 1] == '\\' && Unescape(t[0], t[1..|t| - 1]).Some?
  }

  // Text that end of file swallows without an error: nothing, a comment without line end, a bare
  // word with no delimiter after it, or a quote that stops in its escape state.
  predicate Dropped(t: string) {
    t == "" || OpenComment(t) || BareWord(t) || OpenEscape(t)
  }

  ghost predicate IsTail(s: string) {
    exists g, t :: EndsIn(s, g, t)
  }

  ghost predicate EndsIn(s: string, g: string, t: string) {
    IsGap(g) && Dropped(t) && s == g + t
  }

  // A tail that loses nothing but layout.
  ghost predicate IsTrailer(s: string) {
    exists g, t :: EndsIn(s, g, t) && (t == "" || OpenComment(t))
  }

  ghost predicate WellLaid(ps: seq<Piece>, trailer: string) {
    LaidOver(ps, trailer) && IsTail(trailer)
  }

  // What the automaton holds when the input ends or has an error.
  function Unfinished(input: string): string
    decreases |input|
  {
    var r := NextLexeme(input);
    if r.kind.EndOfFile? || r.kind.Error? then r.value else Unfinished(r.rest)
  }

  // ---- Gaps are invisible ----

  lemma {:induction false} ScanComment(value: string, g: string, rest: string) returns (after: string)
    requires GapFrom(true, g)
    ensures |after| < |g| && IsGap(after)
    ensures var r := Scan(InComment, value, g + rest); r.kind.Comment? && r.rest == after + rest
    decreases |g|
  {
    assert (g + rest)[1..] == g[1..] + rest;
    if LineEnd(g[0]) {
      after := g[1..];
    } else {
      after := ScanComment(value + [g[0]], g[1..], rest);
    }
  }

  lemma {:induction false} LexGap(g: string, rest: string)
    requires IsGap(g)
    ensures Lex(g + rest) == Lex(rest) && Unfinished(g + rest) == Unfinished(rest)
    decreases |g|
  {
    if g == "" {
      assert g + rest == rest;
    } else {
      assert (g + rest)[1..] == g[1..] + rest;
      if g[0] == '#' {
        var after := ScanComment([g[0]], g[1..], rest);
        LexGap(after, rest);
      } else {
        LexGap(g[1..], rest);
      }
    }
  }

  lemma {:induction false} ScanCutComment(value: string, s: string)
    ensures Scan(InComment, value, s).kind.EndOfFile? <==> forall i :: 0 <= i < |s| ==> !LineEnd(s[i])
    decreases |s|
  {
    if s != "" && !LineEnd(s[0]) {
      ScanCutComment(value + [s[0]], s[1..]);
      assert forall i :: 0 < i < |s| ==> s[i] == s[1..][i - 1];
      assert forall i :: 0 <= i < |s[1..]| ==> s[1..][i] == s[i + 1];
    }
  }

  lemma {:induction false} ScanCutBare(value: string, s: string)
    ensures Scan(InBare, value, s).kind.EndOfFile? <==> NoDelimiter(s)
    decreases |s|
  {
    if s != "" && !Delimiter(s[0]) {
      ScanCutBare(value + [s[0]], s[1..]);
      assert forall i :: 0 < i < |s| ==> s[i] == s[1..][i - 1];
      assert forall i :: 0 <= i < |s[1..]| ==> s[1..][i] == s[i + 1];
    }
  }

  lemma {:induction false} ScanOpenEscape(q: char, value: string, raw: string)
    requires Quote(q) && Unescape(q, raw).Some?
    ensures Scan(InQuote(q), value, raw + "\\").kind.EndOfFile?
    decreases |raw|
  {
    var s := raw + "\\";
    if raw == "" {
      assert s[1..] == "";
    } else if raw[0] == '\\' {
      assert s[1..][0] == raw[1] && s[1..][1..] == raw[2..] + "\\";
      ScanOpenEscape(q, value + [raw[1]], raw[2..]);
    } else {
      assert s[1..] == raw[1..] + "\\";
      ScanOpenEscape(q, value + [raw[0]], raw[1..]);
    }
  }

  lemma {:induction false} OpenEscapeShape(q: char, value: string, s: string)
    requires Quote(q) && Scan(InQuote(q), value, s).kind.EndOfFile?
    ensures s != "" && s[|s| - 1] == '\\' && Unescape(q, s[..|s| - 1]).Some?
    decreases |s|
  {
    if s[0] == '\\' {
      if |s| > 1 {
        assert Scan(InQuote(q), value, s) == Scan(InEscape(q), value, s[1..]);
        OpenEscapeShape(q, value + [s[1]], s[1..][1..]);
        assert s[..|s| - 1][2..] == s[2..][..|s| - 3];
      }
    } else {
      OpenEscapeShape(q, value + [s[0]], s[1..]);
      assert s[..|s| - 1][1..] == s[1..][..|s| - 2];
    }
  }

  lemma DroppedEnds(t: string)
    requires Dropped(t)
    ensures NextLexeme(t).kind.EndOfFile?
  {
    if t != "" {
      var rest := t[1..];
      assert "" + [t[0]] == [t[0]];
      assert forall i :: 0 <= i < |rest| ==> rest[i] == t[i + 1];
      if OpenComment(t) {
        ScanCutComment([t[0]], rest);
      } else if BareWord(t) {
        ScanCutBare([t[0]], rest);
      } else {
        var raw := t[1..|t| - 1];
        ScanOpenEscape(t[0], [t[0]], raw);
        assert rest == raw + "\\";
      }
    }
  }

  lemma {:induction false} EndShape(s: string) returns (g: string, t: string)
    requires NextLexeme(s).kind.EndOfFile?
    ensures EndsIn(s, g, t)
    decreases |s|
  {
    if s == "" {
      g, t := "", "";
    } else if White(s[0]) {
      g, t := EndShape(s[1..]);
      g := [s[0]] + g;
    } else {
      g, t := "", s;
      var rest := s[1..];
      assert "" + [s[0]] == [s[0]];
      assert forall i :: 0 < i < |s| ==> s[i] == rest[i - 1];
      if s[0] == '#' {
        ScanCutComment([s[0]], rest);
      } else if Quote(s[0]) {
        OpenEscapeShape(s[0], [s[0]], rest);
        assert s[1..|s| - 1] == rest[..|rest| - 1];
      } else {
        ScanCutBare([s[0]], rest);
      }
    }
  }

  lemma {:induction false} TailShape(s: string) returns (g: string, t: string)
    requires Lex(s) == Tokens([], true)
    ensures EndsIn(s, g, t)
    decreases |s|
  {
    var r := NextLexeme(s);
    if r.kind.EndOfFile? {
      g, t := EndShape(s);
    } else {
      var h := CommentShape(s);
      g, t := TailShape(r.rest);
      GapConcat(false, h, g);
      Regroup3(h, g, t);
      g := h + g;
    }
  }

  // What follows the last token without an error is exactly a gap and something end of file drops.
  lemma TailExact(s: string)
    ensures Lex(s) == Tokens([], true) <==> IsTail(s)
  {
    if Lex(s) == Tokens([], true) {
      var g, t := TailShape(s);
    }
    forall g, t | EndsIn(s, g, t) ensures Lex(s) == Tokens([], true) {
      LexGap(g, t);
      DroppedEnds(t);
    }
  }

  // ---- Laid-out text lexes to its tokens, and every cleanly lexed text is laid out ----

  lemma LexDenoted(spelling: string, t: Token, rest: string)
    requires Denotes(spelling, t) && (t.Word? ==> Starts(rest))
    ensures Lex(spelling + rest) == Prepend(t, Lex(rest)) && Unfinished(spelling + rest) == Unfinished(rest)
  {
    if t.Word? {
      ScanSpelled(spelling, t.text, rest);
    } else {
      assert (spelling + rest)[1..] == rest;
    }
  }

  lemma {:induction false} LexOver(ps: seq<Piece>, tail: string)
    requires LaidOver(ps, tail)
    ensures Lex(TextOf(ps, tail)) == Tokens(TokensOf(ps) + Lex(tail).tokens, Lex(tail).clean)
    ensures Unfinished(TextOf(ps, tail)) == Unfinished(tail)
    decreases |ps|
  {
    if ps == [] {
      assert TokensOf(ps) + Lex(tail).tokens == Lex(tail).tokens;
    } else {
      var p, rest := ps[0], TextOf(ps[1..], tail);
      Regroup3(p.gap, p.spelling, rest);
      LexGap(p.gap, p.spelling + rest);
      LexDenoted(p.spelling, p.token, rest);
      LexOver(ps[1..], tail);
      Regroup3([p.token], TokensOf(ps[1..]), Lex(tail).tokens);
    }
  }

  lemma LexLaid(ps: seq<Piece>, trailer: string)
    requires WellLaid(ps, trailer)
    ensures Lex(TextOf(ps, trailer)) == Tokens(TokensOf(ps), true)
  {
    LexOver(ps, trailer);
    TailExact(trailer);
  }

  lemma {:induction false} LaidOut(text: string) returns (ps: seq<Piece>, trailer: string)
    requires Lex(text).clean
    ensures WellLaid(ps, trailer) && text == TextOf(ps, trailer) && TokensOf(ps) == Lex(text).tokens
    decreases |text|
  {
    var r := NextLexeme(text);
    if r.kind.EndOfFile? {
      ps, trailer := [], text;
      TailExact(text);
    } else {
      ps, trailer := LaidOut(r.rest);
      if r.kind.Comment? {
        var g := CommentShape(text);
        ps, trailer := AddGap(g, ps, trailer);
      } else if r.kind.Normal? {
        var ws, spelling := WordShape(text);
        WhiteIsGap(ws);
        ps := [Piece(ws, Word(r.value), spelling)] + ps;
      } else {
        var ws := SymbolShape(text);
        WhiteIsGap(ws);
        var t := if r.kind.StartBlock? then Open else if r.kind.EndBlock? then Close else Semi;
        ps := [Piece(ws, t, r.value)] + ps;
      }
    }
  }

  lemma {:induction false} WhiteIsGap(ws: string)
    requires AllWhite(ws)
    ensures IsGap(ws)
  {
    if ws != "" {
      assert White(ws[0]);
      WhiteIsGap(ws[1..]);
    }
  }

  lemma {:induction false} GapConcat(inComment: bool, a: string, b: string)
    requires GapFrom(inComment, a) && IsGap(b)
    ensures GapFrom(inComment, a + b)
    decreases |a|
  {
    if a == "" {
      assert a + b == b;
    } else {
      assert (a + b)[1..] == a[1..] + b;
      GapConcat(if inComment then !LineEnd(a[0]) else a[0] == '#', a[1..], b);
    }
  }

  lemma AddGap(g: string, ps: seq<Piece>, trailer: string) returns (qs: seq<Piece>, end: string)
    requires IsGap(g) && WellLaid(ps, trailer)
    ensures WellLaid(qs, end) && TokensOf(qs) == TokensOf(ps)
    ensures TextOf(qs, end) == g + TextOf(ps, trailer)
  {
    if ps == [] {
      qs, end := [], g + trailer;
      LexGap(g, trailer);
      TailExact(trailer);
      TailExact(end);
    } else {
      var p, rest := ps[0], ps[1..];
      qs, end := [Piece(g + p.gap, p.token, p.spelling)] + rest, trailer;
      GapConcat(false, g, p.gap);
      assert qs[1..] == rest;
      Regroup3(g, p.gap, p.spelling);
      Regroup3(g, p.gap + p.spelling, TextOf(rest, trailer));
    }
  }

  lemma {:induction false} CommentBody(value: string, text: string) returns (g: string)
    requires Scan(InComment, value, text).kind.Comment?
    ensures GapFrom(true, g) && text == g + Scan(InComment, value, text).rest
    decreases |text|
  {
    if LineEnd(text[0]) {
      g := [text[0]];
    } else {
      g := CommentBody(value + [text[0]], text[1..]);
      g := [text[0]] + g;
    }
  }

  lemma {:induction false} CommentShape(text: string) returns (g: string)
    requires NextLexeme(text).kind.Comment?
    ensures IsGap(g) && text == g + NextLexeme(text).rest
    decreases |text|
  {
    var c := text[0];
    if c == '#' {
      g := CommentBody([c], text[1..]);
      g := [c] + g;
    } else if White(c) {
      g := CommentShape(text[1..]);
      g := [c] + g;
    } else {
      assert "" + [c] == [c];
      WordNotComment(if Quote(c) then InQuote(c) else InBare, [c], text[1..]);
      g := "";
    }
  }

  lemma {:induction false} WordNotComment(state: LexState, value: string, text: string)
    requires state.InQuote? || state.InBare? || state.InEscape?
    ensures var k := Scan(state, value, text).kind; k.Normal? || k.EndOfFile? || k.Error?
    decreases |text|
  {
    if text != "" {
      var c, rest := text[0], text[1..];
      match state
      case InQuote(q) =>
        if c == '\\' { WordNotComment(InEscape(q), value, rest); }
        else { WordNotComment(state, value + [c], rest); }
      case InEscape(q) => WordNotComment(InQuote(q), value + [c], rest);
      case InBare => WordNotComment(state, value + [c], rest);
    }
  }

  lemma {:induction false} SymbolShape(text: string) returns (ws: string)
    requires var k := NextLexeme(text).kind; k.StartBlock? || k.EndBlock? || k.StatementEnd?
    ensures var r := NextLexeme(text);
            AllWhite(ws) && text == ws + r.value + r.rest
            && r.value == (if r.kind.StartBlock? then "{" else if r.kind.EndBlock? then "}" else ";")
    decreases |text|
  {
    var c := text[0];
    if c == '{' || c == '}' || c == ';' {
      ws := "";
      assert text == [c] + text[1..];
    } else if White(c) {
      ws := SymbolShape(text[1..]);
      ws := [c] + ws;
    } else if c == '#' {
      CommentNotWord([c], text[1..]);
      ws := "";
    } else {
      assert "" + [c] == [c];
      WordNotComment(if Quote(c) then InQuote(c) else InBare, [c], text[1..]);
      ws := "";
    }
  }

  // A text lexes cleanly to given tokens exactly when it is those tokens laid out.
  lemma {:induction false} LexExact(text: string, ts: seq<Token>)
    ensures Lex(text) == Tokens(ts, true)
       <==> exists ps, trailer :: WellLaid(ps, trailer) && text == TextOf(ps, trailer) && TokensOf(ps) == ts
  {
    if Lex(text) == Tokens(ts, true) {
      var ps, trailer := LaidOut(text);
    }
    forall ps, trailer | WellLaid(ps, trailer) && text == TextOf(ps, trailer) && TokensOf(ps) == ts
      ensures Lex(text) == Tokens(ts, true)
    {
      LexLaid(ps, trailer);
    }
  }

  // The language of Parse on characters, with the tree it builds: tokens laid out, which derive the
  // tree up to missing final closers, or with one closer too many.
  lemma {:induction false} AcceptedTextIff(text: string, c: Config)
    ensures ParseText(text) == Accepted(c)
       <==> exists ps, trailer :: WellLaid(ps, trailer) && text == TextOf(ps, trailer)
              && ((exists k: nat :: Unclosed(TokensOf(ps), c, k)) || Overclosed(TokensOf(ps), c))
  {
    if ParseText(text) == Accepted(c) {
      var ps, trailer := LaidOut(text);
      AcceptedIff(TokensOf(ps), c);
    }
    forall ps, trailer | WellLaid(ps, trailer) && text == TextOf(ps, trailer)
      && ((exists k: nat :: Unclosed(TokensOf(ps), c, k)) || Overclosed(TokensOf(ps), c))
      ensures ParseText(text) == Accepted(c)
    {
      LexLaid(ps, trailer);
      AcceptedIff(TokensOf(ps), c);
    }
  }

  // A text with nothing cut off but layout is a valid configuration when its tokens derive one.
  ghost predicate ValidText(text: string, c: Config) {
    exists ps, trailer ::
      WellLaid(ps, trailer) && text == TextOf(ps, trailer) && IsTrailer(trailer) && Derives(TokensOf(ps), c)
  }

  ghost predicate NothingLost(text: string) {
    exists ps, trailer :: WellLaid(ps, trailer) && text == TextOf(ps, trailer) && IsTrailer(trailer)
  }

  // "Returns true iff the file is valid" holds exactly when the braces balance and end of file cuts
  // off nothing but layout.
  lemma ValidTextIff(text: string, c: Config)
    ensures ValidText(text, c)
       <==> ParseText(text) == Accepted(c) && Depth(Lex(text).tokens) == 0 && NothingLost(text)
  {
    if ValidText(text, c) {
      var ps, trailer :|
        WellLaid(ps, trailer) && text == TextOf(ps, trailer) && IsTrailer(trailer) && Derives(TokensOf(ps), c);
      LexLaid(ps, trailer);
      DerivedIsBalanced(c);
      BalancedIffDerives(TokensOf(ps), c);
    }
    if ParseText(text) == Accepted(c) && Depth(Lex(text).tokens) == 0 && NothingLost(text) {
      var ps, trailer :| WellLaid(ps, trailer) && text == TextOf(ps, trailer) && IsTrailer(trailer);
      LexLaid(ps, trailer);
      BalancedIffDerives(TokensOf(ps), c);
    }
  }

  function SymbolOf(t: Token): string
    requires !t.Word?
  {
    match t case Semi => ";" case Open => "{" case Close => "}"
  }

  // A bare word and a symbol in front, without gaps.
  lemma Lay(w: string, t: Token, ps: seq<Piece>, tail: string) returns (qs: seq<Piece>)
    requires LaidOver(ps, tail) && BareWord(w) && !t.Word?
    ensures LaidOver(qs, tail) && TokensOf(qs) == [Word(w), t] + TokensOf(ps)
    ensures TextOf(qs, tail) == w + (SymbolOf(t) + TextOf(ps, tail))
  {
    var rs := [Piece("", t, SymbolOf(t))] + ps;
    assert rs[1..] == ps && "" + SymbolOf(t) == SymbolOf(t);
    qs := [Piece("", Word(w), w)] + rs;
    assert qs[1..] == rs && "" + w == w;
    assert Spells(w, w);
    assert TokensOf(qs) == [Word(w)] + ([t] + TokensOf(ps));
  }

  lemma {:induction false} ScanKeeps(state: LexState, value: string, input: string)
    requires !state.InitialWhitespace? && value != ""
    ensures var v := Scan(state, value, input).value; v != "" && v[0] == value[0]
    decreases |input|
  {
    if input != "" {
      var c, rest := input[0], input[1..];
      match state
      case InQuote(q) =>
        if c == '\\' { ScanKeeps(InEscape(q), value, rest); }
        else if c != q { ScanKeeps(state, value + [c], rest); }
      case InComment => if !LineEnd(c) { ScanKeeps(state, value + [c], rest); }
      case InBare => if !Delimiter(c) { ScanKeeps(state, value + [c], rest); }
      case InEscape(q) => ScanKeeps(InQuote(q), value + [c], rest);
    }
  }

  // What is unfinished at end of file starts as the text that end of file drops.
  lemma UnfinishedTail(s: string, g: string, t: string)
    requires EndsIn(s, g, t)
    ensures if t == "" then Unfinished(s) == "" else Unfinished(s) != "" && Unfinished(s)[0] == t[0]
  {
    LexGap(g, t);
    DroppedEnds(t);
    if t != "" {
      assert "" + [t[0]] == [t[0]];
      ScanKeeps(if OpenComment(t) then InComment else if BareWord(t) then InBare else InQuote(t[0]), [t[0]], t[1..]);
    }
  }

  // A word cut off by end of file is lost, whatever comes before it.
  lemma CutOffIsLost(ps: seq<Piece>, t: string, c: Config)
    requires LaidOver(ps, t) && (BareWord(t) || OpenEscape(t))
    ensures !ValidText(TextOf(ps, t), c)
  {
    var text := TextOf(ps, t);
    LexOver(ps, t);
    UnfinishedTail(t, "", t);
    if ValidText(text, c) {
      var qs, trailer :| WellLaid(qs, trailer) && text == TextOf(qs, trailer) && IsTrailer(trailer);
      LexOver(qs, trailer);
      var g, u :| EndsIn(trailer, g, u) && (u == "" || OpenComment(u));
      UnfinishedTail(trailer, g, u);
    }
  }

  // The word after the last semicolon is gone: accepted, braces balanced, and valid for no tree.
  lemma CutWordAccepted(a: string, b: string)
    requires BareWord(a) && BareWord(b)
    ensures ParseText(a + (";" + b)) == Accepted([Line([a])])
    ensures forall c :: !ValidText(a + (";" + b), c)
  {
    assert EndsIn(b, "", b);
    var ps := Lay(a, Semi, [], b);
    assert TokensOf(ps) == [Word(a), Semi];
    LexLaid(ps, b);
    ShortLine(a);
    forall c ensures !ValidText(a + (";" + b), c) { CutOffIsLost(ps, b, c); }
  }

  // A quote that stops behind a backslash is not an error: its word is gone.
  lemma CutEscapeAccepted(t: string)
    requires OpenEscape(t)
    ensures ParseText(t) == Accepted([])
    ensures forall c :: !ValidText(t, c)
  {
    assert EndsIn(t, "", t);
    TailExact(t);
    forall c ensures !ValidText(t, c) { CutOffIsLost([], t, c); }
  }

  lemma UnclosedPieces(a: string, b: string) returns (ps: seq<Piece>)
    requires BareWord(a) && BareWord(b)
    ensures WellLaid(ps, "") && TextOf(ps, "") == a + ("{" + (b + ";"))
    ensures TokensOf(ps) == [Word(a), Open, Word(b), Semi]
  {
    assert EndsIn("", "", "");
    var inner := Lay(b, Semi, [], "");
    assert b + (";" + "") == b + ";";
    ps := Lay(a, Open, inner, "");
  }

  // A block left open.
  lemma UnclosedTextAccepted(a: string, b: string)
    requires BareWord(a) && BareWord(b)
    ensures var text := a + ("{" + (b + ";"));
            ParseText(text) == Accepted([Block([a], [Line([b])])]) && forall c :: !Derives(Lex(text).tokens, c)
  {
    var ps := UnclosedPieces(a, b);
    LexLaid(ps, "");
    UnclosedBlockAccepted(a, b);
  }

  lemma OverclosedPieces(a: string) returns (ps: seq<Piece>)
    requires BareWord(a)
    ensures WellLaid(ps, "") && TextOf(ps, "") == a + (";" + "}")
    ensures TokensOf(ps) == [Word(a), Semi, Close]
  {
    assert EndsIn("", "", "");
    var close := [Piece("", Close, "}")];
    assert close[1..] == [] && TextOf(close, "") == "}" && TokensOf(close) == [Close];
    ps := Lay(a, Semi, close, "");
  }

  // A root closed once too often.
  lemma OverclosedTextAccepted(a: string)
    requires BareWord(a)
    ensures var text := a + (";" + "}");
            ParseText(text) == Accepted([Line([a])]) && forall c :: !Derives(Lex(text).tokens, c)
  {
    var ps := OverclosedPieces(a);
    LexLaid(ps, "");
    OverclosedRootAccepted(a);
  }

  // A root closed twice too often, on which Parse touches its empty stack.
  lemma OverclosedTwiceCrashes(a: string)
    requires BareWord(a)
    ensures ParseText(a + (";" + "}}")) == Crashed
  {
    assert EndsIn("", "", "");
    var close := [Piece("", Close, "}")];
    assert close[1..] == [] && TextOf(close, "") == "}" && TokensOf(close) == [Close];
    var both := close + close;
    assert both[1..] == close && TextOf(both, "") == "}}" && TokensOf(both) == [Close, Close];
    var ps := Lay(a, Semi, both, "");
    assert TokensOf(ps) == [Word(a), Semi, Close, Close];
    LexLaid(ps, "");
    ClosedTwiceUnderflows(a);
  }

  // For instance.
  lemma ConcreteTexts()
      returns (cutWord: string, cutEscape: string, unclosed: string, overclosed: string, crash: string)
    ensures cutWord == "a;b" && ParseText(cutWord) == Accepted([Line(["a"])])
    ensures cutEscape == "\"b\\" && ParseText(cutEscape) == Accepted([])
    ensures unclosed == "a{b;" && ParseText(unclosed) == Accepted([Block(["a"], [Line(["b"])])])
    ensures overclosed == "a;}" && ParseText(overclosed) == Accepted([Line(["a"])])
    ensures crash == "a;}}" && ParseText(crash) == Crashed
    ensures forall c :: !ValidText(cutWord, c) && !ValidText(cutEscape, c)
    ensures forall c :: !Derives(Lex(unclosed).tokens, c) && !Derives(Lex(overclosed).tokens, c)
  {
    var a, b := "a", "b";
    cutWord, unclosed, overclosed, crash := a + (";" + b), a + ("{" + (b + ";")), a + (";" + "}"), a + (";" + "}}");
    cutEscape := "\"b\\";
    assert cutEscape[1..|cutEscape| - 1] == b && b[1..] == "";
    CutWordAccepted(a, b);
    CutEscapeAccepted(cutEscape);
    UnclosedTextAccepted(a, b);
    OverclosedTextAccepted(a);
    OverclosedTwiceCrashes(a);
  }

  // ---- Layout does not matter ----

  // The same tokens with other gaps. A gap after a word must still start with a delimiter, unless
  // punctuation follows the word directly.
  ghost predicate SameTokens(ps: seq<Piece>, qs: seq<Piece>) {
    |ps| == |qs| && forall i :: 0 <= i < |ps| ==> qs[i].token == ps[i].token && qs[i].spelling == ps[i].spelling
  }

  ghost predicate Regapped(ps: seq<Piece>, qs: seq<Piece>, tail: string) {
    && SameTokens(ps, qs)
    && (forall i :: 0 <= i < |qs| ==> IsGap(qs[i].gap))
    && (forall i :: 0 < i < |qs| && qs[i - 1].token.Word? ==>
          Starts(qs[i].gap) || (qs[i].gap == "" && !qs[i].token.Word?))
    && (qs != [] && Last(qs).token.Word? ==> Starts(tail))
  }

  // The same ending behind another gap, or two endings in which no token is left.
  ghost predicate SameEnding(a: string, b: string) {
    (IsTail(a) && IsTail(b)) || exists g, h, rest :: SameRest(a, b, g, h, rest)
  }

  ghost predicate SameRest(a: string, b: string, g: string, h: string, rest: string) {
    IsGap(g) && IsGap(h) && a == g + rest && b == h + rest
  }

  lemma SymbolStarts(p: Piece, rest: string)
    requires Denotes(p.spelling, p.token)
    requires Starts(p.gap) || (p.gap == "" && !p.token.Word?)
    ensures Starts(p.gap + p.spelling + rest)
  {
    Regroup3(p.gap, p.spelling, rest);
  }

  lemma {:induction false} RegappedIsLaid(ps: seq<Piece>, tail: string, qs: seq<Piece>, tail': string)
    requires LaidOver(ps, tail) && Regapped(ps, qs, tail')
    ensures LaidOver(qs, tail') && TokensOf(qs) == TokensOf(ps)
    decreases |ps|
  {
    if ps != [] {
      var ps1, qs1 := ps[1..], qs[1..];
      assert Regapped(ps1, qs1, tail') by {
        assert forall i :: 0 <= i < |qs1| ==> qs1[i] == qs[i + 1] && ps1[i] == ps[i + 1];
      }
      RegappedIsLaid(ps1, tail, qs1, tail');
      if qs[0].token.Word? && qs1 != [] {
        assert qs1[0] == qs[1] && qs[1 - 1].token.Word?;
        SymbolStarts(qs1[0], TextOf(qs1[1..], tail'));
      }
    }
  }

  lemma SameEndingLexes(a: string, b: string)
    requires SameEnding(a, b)
    ensures Lex(a) == Lex(b)
  {
    if IsTail(a) && IsTail(b) {
      TailExact(a);
      TailExact(b);
    } else {
      var g, h, rest :| SameRest(a, b, g, h, rest);
      LexGap(g, rest);
      LexGap(h, rest);
    }
  }

  // For every text, whether it lexes cleanly or not: changing gaps, and what follows the last token
  // if no token is in it, changes neither the tokens nor the outcome.
  lemma LayoutIsIrrelevant(ps: seq<Piece>, tail: string, qs: seq<Piece>, tail': string)
    requires LaidOver(ps, tail) && Regapped(ps, qs, tail') && SameEnding(tail, tail')
    ensures Lex(TextOf(qs, tail')) == Lex(TextOf(ps, tail))
    ensures ParseText(TextOf(qs, tail')) == ParseText(TextOf(ps, tail))
  {
    RegappedIsLaid(ps, tail, qs, tail');
    LexOver(ps, tail);
    LexOver(qs, tail');
    SameEndingLexes(tail, tail');
  }
}
