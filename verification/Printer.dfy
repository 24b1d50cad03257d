// NginxConfig::ToString, and the two halves of "printing and parsing undo each other".
module Printer {
  import opened Sequences
  import opened ConfigSyntax
  import opened Lexer
  import opened BlockStack
  import opened Layout

  function Indent(depth: int): string
    decreases depth
  {
    if depth <= 0 then "" else "  " + Indent(depth - 1)
  }

  function JoinWords(ts: seq<string>): string {
    if ts == [] then "" else if |ts| == 1 then ts[0] else ts[0] + " " + JoinWords(ts[1..])
  }

  function Print(c: Config, depth: int): string
    decreases c, 0
  {
    if c == [] then "" else PrintStatement(c[0], depth) + Print(c[1..], depth)
  }

  function PrintStatement(s: Statement, depth: int): string
    decreases s, 1
  {
    Indent(depth) + JoinWords(s.tokens) + StatementEndText(s, depth) + "\n"
  }

  function StatementEndText(s: Statement, depth: int): string
    decreases s, 0
  {
    match s
    case Line(_) => ";"
    case Block(_, body) => " {\n" + Print(body, depth + 1) + Indent(depth) + "}"
  }

  // Trees that survive printing.
  ghost predicate Printable(c: Config) {
    WellFormed(c) && AllWords(c, Relexable)
  }

  // ---- Printed text as pieces ----

  function SpellingOf(t: Token): string {
    match t case Word(w) => w case Semi => ";" case Open => "{" case Close => "}"
  }

  function Spell(gap: string, t: Token): Piece { Piece(gap, t, SpellingOf(t)) }

  function WordPieces(ts: seq<string>, lead: string): seq<Piece> {
    seq(|ts|, i requires 0 <= i < |ts| => Spell(if i == 0 then lead else " ", Word(ts[i])))
  }

  function StatementPieces(s: Statement, depth: int, lead: string): seq<Piece>
    decreases s, 1
  {
    WordPieces(s.tokens, lead + Indent(depth)) + TailPieces(s, depth)
  }

  function TailPieces(s: Statement, depth: int): seq<Piece>
    decreases s, 0
  {
    match s
    case Line(_) => [Spell("", Semi)]
    case Block(_, body) => BlockPieces(body, depth)
  }

  function BlockPieces(body: Config, depth: int): seq<Piece>
    decreases body, 1
  {
    OpenPiece() + ConfigPieces(body, depth + 1, "\n") + ClosePiece(depth)
  }

  function OpenPiece(): seq<Piece> { [Spell(" ", Open)] }

  function ClosePiece(depth: int): seq<Piece> { [Spell("\n" + Indent(depth), Close)] }

  function ConfigPieces(c: Config, depth: int, lead: string): seq<Piece>
    decreases c, 0
  {
    if c == [] then [] else StatementPieces(c[0], depth, lead) + ConfigPieces(c[1..], depth, "\n")
  }

  lemma {:induction false} TextConcat(ps: seq<Piece>, qs: seq<Piece>, trailer: string)
    ensures TextOf(ps + qs, trailer) == TextOf(ps, TextOf(qs, trailer))
    decreases |ps|
  {
    if ps == [] {
      assert ps + qs == qs;
    } else {
      assert (ps + qs)[1..] == ps[1..] + qs;
      TextConcat(ps[1..], qs, trailer);
    }
  }

  lemma {:induction false} TokensConcat(ps: seq<Piece>, qs: seq<Piece>)
    ensures TokensOf(ps + qs) == TokensOf(ps) + TokensOf(qs)
    decreases |ps|
  {
    if ps == [] {
      assert ps + qs == qs;
    } else {
      assert (ps + qs)[1..] == ps[1..] + qs;
      TokensConcat(ps[1..], qs);
    }
  }

  lemma WordRegroup(lead: string, w: string, later: string, rest: string)
    ensures lead + w + (" " + later + rest) == lead + (w + " " + later) + rest
  {
  }

  lemma {:induction false} WordsText(ts: seq<string>, lead: string, rest: string)
    requires ts != []
    ensures TextOf(WordPieces(ts, lead), rest) == lead + JoinWords(ts) + rest
    ensures TokensOf(WordPieces(ts, lead)) == Words(ts)
    decreases |ts|
  {
    var ps := WordPieces(ts, lead);
    if |ts| == 1 {
      assert ps[1..] == [];
      assert Words(ts) == [Word(ts[0])];
    } else {
      assert ps[1..] == WordPieces(ts[1..], " ");
      WordsText(ts[1..], " ", rest);
      WordRegroup(lead, ts[0], JoinWords(ts[1..]), rest);
      assert Words(ts) == [Word(ts[0])] + Words(ts[1..]);
    }
  }

  lemma SymbolText(gap: string, t: Token, rest: string)
    ensures TextOf([Spell(gap, t)], rest) == gap + SpellingOf(t) + rest
    ensures TokensOf([Spell(gap, t)]) == [t]
  {
    assert [Spell(gap, t)][1..] == [];
  }

  lemma Regroup(a: string, b: string, c: string, d: string, e: string, f: string)
    ensures (a + b) + c + (d + (e + f)) == a + (b + c + d + e) + f
  {
  }

  lemma {:induction false} StatementText(s: Statement, depth: int, lead: string, rest: string)
    requires WellFormedStatement(s)
    ensures TextOf(StatementPieces(s, depth, lead), "\n" + rest) == lead + PrintStatement(s, depth) + rest
    ensures TokensOf(StatementPieces(s, depth, lead)) == FlattenStatement(s)
    decreases s, 1
  {
    var tail, end := TailPieces(s, depth), StatementEndText(s, depth);
    match s {
      case Line(_) => SymbolText("", Semi, "\n" + rest);
      case Block(_, body) => BlockText(body, depth, rest);
    }
    HeadAndTail(s.tokens, lead, Indent(depth), tail, end, rest);
  }

  lemma HeadAndTail(ts: seq<string>, lead: string, indent: string, tail: seq<Piece>, end: string, rest: string)
    requires ts != [] && TextOf(tail, "\n" + rest) == end + ("\n" + rest)
    ensures TextOf(WordPieces(ts, lead + indent) + tail, "\n" + rest)
         == lead + (indent + JoinWords(ts) + end + "\n") + rest
    ensures TokensOf(WordPieces(ts, lead + indent) + tail) == Words(ts) + TokensOf(tail)
  {
    var ws := WordPieces(ts, lead + indent);
    TextConcat(ws, tail, "\n" + rest);
    TokensConcat(ws, tail);
    WordsText(ts, lead + indent, end + ("\n" + rest));
    Regroup(lead, indent, JoinWords(ts), end, "\n", rest);
  }

  lemma {:induction false} BlockText(body: Config, depth: int, rest: string)
    requires WellFormed(body)
    ensures TextOf(BlockPieces(body, depth), "\n" + rest)
         == " {\n" + Print(body, depth + 1) + Indent(depth) + "}" + ("\n" + rest)
    ensures TokensOf(BlockPieces(body, depth)) == [Open] + Flatten(body) + [Close]
    decreases body, 2
  {
    var open, inner, close := OpenPiece(), ConfigPieces(body, depth + 1, "\n"), ClosePiece(depth);
    BodyText(body, depth, rest);
    SymbolText(" ", Open, TextOf(inner + close, "\n" + rest));
    TextConcat(open, inner + close, "\n" + rest);
    TokensConcat(open, inner + close);
    Regroup3(open, inner, close);
    BlockStrings(Print(body, depth + 1), Indent(depth), "\n" + rest);
  }

  lemma {:induction false} BodyText(body: Config, depth: int, rest: string)
    requires WellFormed(body)
    ensures TextOf(ConfigPieces(body, depth + 1, "\n") + ClosePiece(depth), "\n" + rest)
         == "\n" + Print(body, depth + 1) + (Indent(depth) + "}" + ("\n" + rest))
    ensures TokensOf(ConfigPieces(body, depth + 1, "\n") + ClosePiece(depth)) == Flatten(body) + [Close]
    decreases body, 1
  {
    var inner, close := ConfigPieces(body, depth + 1, "\n"), ClosePiece(depth);
    SymbolText("\n" + Indent(depth), Close, "\n" + rest);
    Regroup3("\n", Indent(depth), "}");
    Regroup3("\n", Indent(depth) + "}", "\n" + rest);
    ConfigText(body, depth + 1, "\n", Indent(depth) + "}" + ("\n" + rest));
    TextConcat(inner, close, "\n" + rest);
    TokensConcat(inner, close);
  }

  lemma BlockStrings(inner: string, indent: string, rest: string)
    ensures " " + "{" + ("\n" + inner + (indent + "}" + rest)) == " {\n" + inner + indent + "}" + rest
  {
    assert " " + "{" + "\n" == " {\n";
  }

  lemma {:induction false} ConfigText(c: Config, depth: int, lead: string, rest: string)
    requires WellFormed(c) && (c != [] || lead == "\n")
    ensures TextOf(ConfigPieces(c, depth, lead), "\n" + rest) == lead + Print(c, depth) + rest
    ensures TokensOf(ConfigPieces(c, depth, lead)) == Flatten(c)
    decreases c, 0
  {
    if c != [] {
      var ps, qs := StatementPieces(c[0], depth, lead), ConfigPieces(c[1..], depth, "\n");
      var first, later := PrintStatement(c[0], depth), Print(c[1..], depth);
      ConfigText(c[1..], depth, "\n", rest);
      StatementText(c[0], depth, lead, later + rest);
      TextConcat(ps, qs, "\n" + rest);
      TokensConcat(ps, qs);
      Regroup3("\n", later, rest);
      Regroup3(first, later, rest);
      Regroup3(lead, first, later + rest);
      Regroup3(lead, first + later, rest);
    }
  }

  // ---- Printed pieces are separated properly, whatever the words are ----

  ghost predicate Separated(ps: seq<Piece>) {
    && (forall i :: 0 <= i < |ps| ==> IsGap(ps[i].gap) && ps[i].spelling == SpellingOf(ps[i].token))
    && (forall i :: 0 < i < |ps| && ps[i - 1].token.Word? ==>
          Starts(ps[i].gap) || (ps[i].gap == "" && !ps[i].token.Word?))
    && (ps != [] ==> !Last(ps).token.Word?)
  }

  lemma {:induction false} IndentIsWhite(depth: int)
    ensures AllWhite(Indent(depth))
    decreases depth
  {
    if depth > 0 { IndentIsWhite(depth - 1); }
  }

  lemma SeparatedConcat(ps: seq<Piece>, qs: seq<Piece>)
    requires Separated(ps) && Separated(qs)
    ensures Separated(ps + qs)
  {
    var rs := ps + qs;
    forall i | 0 < i < |rs| && rs[i - 1].token.Word?
      ensures Starts(rs[i].gap) || (rs[i].gap == "" && !rs[i].token.Word?)
    {
      if i < |ps| {
        assert ps[i - 1].token.Word?;
      } else {
        assert i > |ps| && qs[i - |ps| - 1].token.Word?;
      }
    }
  }

  lemma HeadSeparated(ts: seq<string>, lead: string, gap: string, t: Token)
    requires AllWhite(lead) && !t.Word? && (gap == "" || gap == " ")
    ensures Separated(WordPieces(ts, lead) + [Spell(gap, t)])
  {
    WhiteIsGap(lead);
    assert IsGap(gap) && IsGap(" ");
  }

  lemma {:induction false} StatementSeparated(s: Statement, depth: int, lead: string)
    requires AllWhite(lead)
    ensures Separated(StatementPieces(s, depth, lead))
    decreases s, 1
  {
    IndentIsWhite(depth);
    var gap := lead + Indent(depth);
    match s
    case Line(ts) =>
      HeadSeparated(ts, gap, "", Semi);
    case Block(ts, body) =>
      HeadSeparated(ts, gap, " ", Open);
      BodySeparated(body, depth);
      var inner := ConfigPieces(body, depth + 1, "\n") + ClosePiece(depth);
      SeparatedConcat(WordPieces(ts, gap) + OpenPiece(), inner);
      Regroup3(OpenPiece(), ConfigPieces(body, depth + 1, "\n"), ClosePiece(depth));
      assert BlockPieces(body, depth) == OpenPiece() + inner;
      Regroup3(WordPieces(ts, gap), OpenPiece(), inner);
  }

  lemma {:induction false} BodySeparated(body: Config, depth: int)
    ensures Separated(ConfigPieces(body, depth + 1, "\n") + ClosePiece(depth))
    decreases body, 1
  {
    ConfigSeparated(body, depth + 1, "\n");
    IndentIsWhite(depth);
    WhiteIsGap("\n" + Indent(depth));
    SeparatedConcat(ConfigPieces(body, depth + 1, "\n"), ClosePiece(depth));
  }

  lemma {:induction false} ConfigSeparated(c: Config, depth: int, lead: string)
    requires AllWhite(lead)
    ensures Separated(ConfigPieces(c, depth, lead))
    decreases c, 0
  {
    if c != [] {
      StatementSeparated(c[0], depth, lead);
      ConfigSeparated(c[1..], depth, "\n");
      SeparatedConcat(StatementPieces(c[0], depth, lead), ConfigPieces(c[1..], depth, "\n"));
    }
  }

  lemma GapOrSymbolStarts(gap: string, spelling: string, rest: string)
    requires Starts(gap) || (gap == "" && Starts(spelling))
    ensures Starts(gap + spelling + rest)
  {
    assert gap + spelling + rest == gap + (spelling + rest);
  }

  lemma SeparatedTail(ps: seq<Piece>, trailer: string)
    requires Separated(ps) && ps != []
    ensures Separated(ps[1..])
    ensures ps[0].token.Word? ==> Starts(TextOf(ps[1..], trailer))
  {
    var qs := ps[1..];
    assert forall i :: 0 <= i < |qs| ==> qs[i] == ps[i + 1];
    if ps[0].token.Word? {
      assert ps[1 - 1].token.Word?;
      GapOrSymbolStarts(qs[0].gap, qs[0].spelling, TextOf(qs[1..], trailer));
    }
  }

  // ---- Printed text lexes back exactly when its words do ----

  lemma {:induction false} SeparatedIsLaid(ps: seq<Piece>, trailer: string)
    requires Separated(ps) && AllTokenWords(TokensOf(ps), Relexable)
    ensures LaidOver(ps, trailer)
    decreases |ps|
  {
    if ps != [] {
      SeparatedTail(ps, trailer);
      var ts := TokensOf(ps);
      assert ts[1..] == TokensOf(ps[1..]) && ts[0] == ps[0].token;
      assert forall i :: 0 <= i < |ts[1..]| ==> ts[1..][i] == ts[i + 1];
      SeparatedIsLaid(ps[1..], trailer);
      if ps[0].token.Word? { RelexableSpellsItself(ps[0].token.text); }
    }
  }

  // `got` is `want`, up to missing final closers or one closer too many.
  ghost predicate Agrees(got: seq<Token>, want: seq<Token>) {
    (exists k: nat :: got + Closes(k) == want) || got == want + [Close]
  }

  lemma AgreesTail(got: seq<Token>, want: seq<Token>)
    requires Agrees(got, want) && want != []
    ensures got == [] ==> forall i :: 0 <= i < |want| ==> want[i].Close?
    ensures got != [] ==> got[0] == want[0] && Agrees(got[1..], want[1..])
  {
    if got == want + [Close] {
      assert got[1..] == want[1..] + [Close];
    } else {
      var k: nat :| got + Closes(k) == want;
      if got == [] {
        assert want == Closes(k);
      } else {
        assert got[1..] + Closes(k) == want[1..];
      }
    }
  }

  // If printed pieces lex to their own tokens, each word among them is relexable.
  lemma {:induction false} LexedBackIsRelexable(ps: seq<Piece>, trailer: string)
    requires Separated(ps)
    requires Agrees(Lex(TextOf(ps, trailer)).tokens, TokensOf(ps))
    ensures AllTokenWords(TokensOf(ps), Relexable)
    decreases |ps|
  {
    if ps != [] {
      var p, tail := ps[0], TextOf(ps[1..], trailer);
      var got, want := Lex(TextOf(ps, trailer)).tokens, TokensOf(ps);
      SeparatedTail(ps, trailer);
      assert want == [p.token] + TokensOf(ps[1..]);
      AgreesTail(got, want);
      if got != [] {
        FirstPieceBack(p, tail);
        LexedBackIsRelexable(ps[1..], trailer);
        AllTokenWordsConcat([p.token], TokensOf(ps[1..]), Relexable);
        assert AllTokenWords([p.token], Relexable);
      }
    }
  }

  // A piece whose own token is the first one lexed back.
  lemma FirstPieceBack(p: Piece, tail: string)
    requires IsGap(p.gap) && p.spelling == SpellingOf(p.token) && (p.token.Word? ==> Starts(tail))
    requires var got := Lex(p.gap + p.spelling + tail).tokens; got != [] && got[0] == p.token
    ensures p.token.Word? ==> Relexable(p.token.text)
    ensures Lex(p.gap + p.spelling + tail).tokens == [p.token] + Lex(tail).tokens
  {
    Regroup3(p.gap, p.spelling, tail);
    LexGap(p.gap, p.spelling + tail);
    if p.token.Word? {
      FirstWordIsRelexable(p.token.text, tail);
      RelexableSpellsItself(p.token.text);
    }
    LexDenoted(p.spelling, p.token, tail);
  }

  lemma FirstWordIsRelexable(w: string, rest: string)
    requires Starts(rest)
    requires Lex(w + rest).tokens != [] && Lex(w + rest).tokens[0] == Word(w)
    ensures Relexable(w)
  {
    LexedWordForm(w + rest);
    assert WordForm(w);
    var r := NextLexeme(w + rest);
    assert (w + rest)[0] == w[0];
    if r.kind.Comment? || r.kind.StartBlock? || r.kind.EndBlock? || r.kind.StatementEnd? {
      if r.kind.Comment? {
        var g := CommentShape(w + rest);
        assert g[0] == w[0];
      } else {
        var ws := SymbolShape(w + rest);
      }
    } else {
      SelfLexIsRelexable(w, rest, r.rest);
    }
  }

  // ---- The main results ----

  lemma PrintedText(c: Config, depth: int) returns (ps: seq<Piece>, trailer: string)
    requires WellFormed(c)
    ensures Separated(ps) && TokensOf(ps) == Flatten(c) && IsTail(trailer)
    ensures Print(c, depth) == TextOf(ps, trailer)
  {
    ps, trailer := ConfigPieces(c, depth, ""), if c == [] then "" else "\n";
    ConfigSeparated(c, depth, "");
    if c != [] {
      ConfigText(c, depth, "", "");
      assert "\n" + "" == "\n" && "" + Print(c, depth) + "" == Print(c, depth);
    }
    assert IsTail(trailer) by {
      WhiteIsGap(trailer);
      assert EndsIn(trailer, trailer, "");
    }
  }

  // Printing then parsing is the identity exactly on the printable trees, at every indent.
  lemma {:induction false} PrintThenParse(c: Config, depth: int)
    ensures ParseText(Print(c, depth)) == Accepted(c) <==> Printable(c)
  {
    var text := Print(c, depth);
    if ParseText(text) == Accepted(c) {
      var ts := Lex(text).tokens;
      AcceptedHeight(ts, c);
      var ps, trailer := PrintedText(c, depth);
      LexedBackIsRelexable(ps, trailer);
      AllWordsFlatten(c, Relexable);
    }
    if Printable(c) {
      var ps, trailer := PrintedText(c, depth);
      AllWordsFlatten(c, Relexable);
      SeparatedIsLaid(ps, trailer);
      LexLaid(ps, trailer);
      assert Flatten(c) + Closes(0) == Flatten(c);
      WholeDerivation(c);
      LastTokenType(Flatten(c));
      UnclosedAccepted(Flatten(c), c, 0);
    }
  }

  // The words of the tree Parse builds are the words the lexer yielded.
  lemma {:induction false} AcceptedWords(ts: seq<Token>, c: Config, p: string -> bool)
    requires ParseTokens(ts) == Accepted(c)
    ensures WellFormed(c) && (AllWords(c, p) <==> AllTokenWords(ts, p))
  {
    AcceptedHeight(ts, c);
    AllWordsFlatten(c, p);
    var h := Steps(INITIAL, ts).state.Height();
    if h == 0 {
      AllTokenWordsConcat(Flatten(c), [Close], p);
    } else {
      AllTokenWordsConcat(ts, Closes(h - 1), p);
    }
  }

  // On tokens: what Parse accepted prints back exactly when every word read is relexable.
  lemma {:induction false} AcceptedThenPrint(ts: seq<Token>, c: Config, depth: int)
    requires ParseTokens(ts) == Accepted(c)
    ensures ParseText(Print(c, depth)) == Accepted(c) <==> AllTokenWords(ts, Relexable)
  {
    AcceptedWords(ts, c, Relexable);
    PrintThenParse(c, depth);
  }

  // The words of a text, as they are spelled in it.
  ghost predicate AllHarmless(ps: seq<Piece>) {
    forall i :: 0 <= i < |ps| && ps[i].token.Word? ==> Harmless(ps[i].spelling)
  }

  lemma {:induction false} HarmlessIff(ps: seq<Piece>, tail: string)
    requires LaidOver(ps, tail)
    ensures AllHarmless(ps) <==> AllTokenWords(TokensOf(ps), Relexable)
    decreases |ps|
  {
    if ps != [] {
      var p, rest := ps[0], ps[1..];
      HarmlessIff(rest, tail);
      AllTokenWordsConcat([p.token], TokensOf(rest), Relexable);
      if p.token.Word? { RelexableIff(p.spelling, p.token.text); }
      assert AllTokenWords([p.token], Relexable) <==> (p.token.Word? ==> Harmless(p.spelling)) by {
        assert [p.token][0] == p.token;
      }
      assert forall i :: 0 < i < |ps| ==> ps[i] == rest[i - 1];
      assert forall i :: 0 <= i < |rest| ==> rest[i] == ps[i + 1];
    }
  }

  // Parsing then printing is a normal form: for every accepted text, unclosed blocks, an
  // over-closed root and a cut-off tail included, the printed tree parses back to the same tree
  // exactly when no backslash in a quoted word protects its quote character or another backslash.
  lemma {:induction false} ParseThenPrint(ps: seq<Piece>, trailer: string, c: Config, depth: int)
    requires WellLaid(ps, trailer) && ParseText(TextOf(ps, trailer)) == Accepted(c)
    ensures ParseText(Print(c, depth)) == Accepted(c) <==> AllHarmless(ps)
  {
    LexLaid(ps, trailer);
    HarmlessIff(ps, trailer);
    AcceptedThenPrint(TokensOf(ps), c, depth);
  }

  // In particular a text with no backslash inside quotes always has a normal form; backslashes in
  // bare words and in comments do no harm.
  lemma {:induction false} NormalFormWithoutBackslash(ps: seq<Piece>, trailer: string, c: Config, depth: int)
    requires WellLaid(ps, trailer) && ParseText(TextOf(ps, trailer)) == Accepted(c)
    requires forall i :: 0 <= i < |ps| && ps[i].token.Word? && QuotedSpelling(ps[i].spelling) ==>
               '\\' !in ps[i].spelling
    ensures ParseText(Print(c, depth)) == Accepted(c)
  {
    forall i | 0 <= i < |ps| && ps[i].token.Word? ensures Harmless(ps[i].spelling) {
      var sp := ps[i].spelling;
      if QuotedSpelling(sp) { NoBackslashProtectsNothing(sp[0], sp[1..|sp| - 1]); }
    }
    ParseThenPrint(ps, trailer, c, depth);
  }

  lemma EscapedQuoteLexes()
    ensures Lex("\"\\\"\";") == Tokens([Word("\"\"\""), Semi], true)
  {
    var text, w := "\"\\\"\";", "\"\"\"";
    var raw := Escape('"', "\"");
    assert raw == "\\\"" by { assert "\""[1..] == ""; }
    QuotingInverts('"', "\"", "", ";");
    assert text == "" + (['"'] + raw + ['"']) + ";";
    assert ['"'] + "\"" + ['"'] == w;
    assert NextLexeme(text) == Lexeme(Normal, w, ";");
    assert ";"[1..] == "";
    assert Lex(";") == Prepend(Semi, Lex(""));
  }

  // An escaped quote is accepted, but its tree does not print back.
  lemma EscapedQuoteDoesNotPrintBack()
    ensures var c := [Line(["\"\"\""])];
            ParseText("\"\\\"\";") == Accepted(c) && ParseText(Print(c, 0)) != Accepted(c)
  {
    var w := "\"\"\"";
    var c := [Line([w])];
    EscapedQuoteLexes();
    ShortLine(w);
    assert !Printable(c) by {
      assert w[1] == w[0];
      assert !AllStatementWords(c[0], Relexable);
    }
    PrintThenParse(c, 0);
  }

  // ---- Depth ----

  // Two more spaces in front of every line.
  function IndentLines(s: string): string { IndentFrom(true, s) }

  function IndentFrom(lineStart: bool, s: string): string
    decreases |s|
  {
    if s == "" then "" else (if lineStart then "  " else "") + [s[0]] + IndentFrom(s[0] == '\n', s[1..])
  }

  predicate OneLine(w: string) { '\n' !in w }

  lemma {:induction false} RestOfLine(line: string, rest: string)
    requires OneLine(line)
    ensures IndentFrom(false, line + "\n" + rest) == line + "\n" + IndentLines(rest)
    decreases |line|
  {
    var s := line + "\n" + rest;
    if line == "" {
      assert s[0] == '\n' && s[1..] == rest;
    } else {
      assert s[0] == line[0] && s[1..] == line[1..] + "\n" + rest;
      assert line[0] in line;
      RestOfLine(line[1..], rest);
    }
  }

  lemma WholeLine(line: string, rest: string)
    requires OneLine(line) && line != ""
    ensures IndentLines(line + "\n" + rest) == "  " + line + "\n" + IndentLines(rest)
  {
    var s := line + "\n" + rest;
    assert s[0] == line[0] && s[1..] == line[1..] + "\n" + rest && line[0] in line;
    RestOfLine(line[1..], rest);
  }

  lemma {:induction false} HeadOneLine(ts: seq<string>, depth: int)
    requires forall i :: 0 <= i < |ts| ==> OneLine(ts[i])
    ensures OneLine(Indent(depth)) && OneLine(JoinWords(ts))
  {
    IndentOneLine(depth);
    if |ts| > 1 { HeadOneLine(ts[1..], depth); }
  }

  lemma {:induction false} IndentOneLine(depth: int)
    ensures OneLine(Indent(depth))
    decreases depth
  {
    if depth > 0 { IndentOneLine(depth - 1); }
  }

  lemma LineShift(indent: string, words: string, rest: string)
    requires OneLine(indent) && OneLine(words)
    ensures IndentLines(indent + words + ";" + "\n" + rest)
         == ("  " + indent) + words + ";" + "\n" + IndentLines(rest)
  {
    WholeLine(indent + words + ";", rest);
    Regroup4("  ", indent, words, ";");
  }

  lemma BlockShift(indent: string, words: string, inner: string, inner': string, rest: string)
    requires OneLine(indent) && OneLine(words)
    requires var close := indent + "}" + "\n" + rest; IndentLines(inner + close) == inner' + IndentLines(close)
    ensures IndentLines(indent + words + (" {\n" + inner + indent + "}") + "\n" + rest)
         == ("  " + indent) + words + (" {\n" + inner' + ("  " + indent) + "}") + "\n" + IndentLines(rest)
  {
    var head, close := indent + words, indent + "}";
    BlockLines(head, inner, indent, rest);
    WholeLine(head + " {", inner + (close + "\n" + rest));
    WholeLine(close, rest);
    Regroup3("  ", indent, "}");
    Regroup4("  ", indent, words, " {");
    BlockLines(("  " + indent) + words, inner', "  " + indent, IndentLines(rest));
  }

  lemma Regroup4(a: string, b: string, c: string, d: string)
    ensures a + (b + c + d) == a + b + c + d
  {
  }

  lemma BlockLines(head: string, inner: string, indent: string, rest: string)
    ensures head + (" {\n" + inner + indent + "}") + "\n" + rest
         == head + " {" + "\n" + (inner + (indent + "}" + "\n" + rest))
  {
    assert " {\n" == " {" + "\n";
  }

  lemma {:induction false} StatementDeeper(s: Statement, depth: nat, rest: string)
    requires AllStatementWords(s, OneLine)
    ensures IndentLines(PrintStatement(s, depth) + rest) == PrintStatement(s, depth + 1) + IndentLines(rest)
    decreases s, 1
  {
    var indent, words := Indent(depth), JoinWords(s.tokens);
    HeadOneLine(s.tokens, depth);
    match s
    case Line(_) =>
      LineShift(indent, words, rest);
    case Block(_, body) =>
      BodyDeeper(body, depth + 1, indent + "}" + "\n" + rest);
      BlockShift(indent, words, Print(body, depth + 1), Print(body, depth + 2), rest);
  }

  lemma {:induction false} BodyDeeper(c: Config, depth: nat, rest: string)
    requires AllWords(c, OneLine)
    ensures IndentLines(Print(c, depth) + rest) == Print(c, depth + 1) + IndentLines(rest)
    decreases c, 0
  {
    if c == [] {
      assert Print(c, depth) + rest == rest;
    } else {
      Regroup3(PrintStatement(c[0], depth), Print(c[1..], depth), rest);
      StatementDeeper(c[0], depth, Print(c[1..], depth) + rest);
      BodyDeeper(c[1..], depth, rest);
      Regroup3(PrintStatement(c[0], depth + 1), Print(c[1..], depth + 1), IndentLines(rest));
    }
  }

  // One level deeper is the same text with two more spaces in front of every line, for every tree
  // whose words stay on one line.
  lemma DeeperIsIndented(c: Config, depth: nat)
    requires AllWords(c, OneLine)
    ensures Print(c, depth + 1) == IndentLines(Print(c, depth))
  {
    BodyDeeper(c, depth, "");
    assert Print(c, depth) + "" == Print(c, depth) && Print(c, depth + 1) + "" == Print(c, depth + 1);
  }
}
