// The configuration tree, the token alphabet, and the grammar that joins them.
module ConfigSyntax {

  // One statement: its words, and its child block when it has one.
  datatype Statement =
    | Line(tokens: seq<string>)
    | Block(tokens: seq<string>, body: seq<Statement>)

  type Config = seq<Statement>

  // What the lexer hands to the parser; comments never get this far.
  datatype Token = Word(text: string) | Semi | Open | Close

  // Every statement, at every depth, has at least one word.
  predicate WellFormed(c: Config) {
    forall i :: 0 <= i < |c| ==> WellFormedStatement(c[i])
  }

  predicate WellFormedStatement(s: Statement) {
    && s.tokens != []
    && (s.Block? ==> WellFormed(s.body))
  }

  // The grammar, read as the yield of a derivation tree:
  //   config := stmt*      stmt := word+ ';'  |  word+ '{' config '}'
  function Flatten(c: Config): seq<Token> {
    if c == [] then [] else FlattenStatement(c[0]) + Flatten(c[1..])
  }

  function FlattenStatement(s: Statement): seq<Token> {
    match s
    case Line(ts) => Words(ts) + [Semi]
    case Block(ts, body) => Words(ts) + [Open] + Flatten(body) + [Close]
  }

  function Words(ts: seq<string>): seq<Token> {
    seq(|ts|, i requires 0 <= i < |ts| => Word(ts[i]))
  }

  function Closes(k: nat): seq<Token> {
    seq(k, _ => Close)
  }

  ghost predicate Derives(ts: seq<Token>, c: Config) {
    WellFormed(c) && ts == Flatten(c)
  }

  lemma {:induction false} FlattenAppend(a: Config, b: Config)
    ensures Flatten(a + b) == Flatten(a) + Flatten(b)
  {
    if a == [] {
      assert a + b == b;
    } else {
      assert (a + b)[0] == a[0] && (a + b)[1..] == a[1..] + b;
      FlattenAppend(a[1..], b);
    }
  }

  lemma FlattenSnoc(a: Config, s: Statement)
    ensures Flatten(a + [s]) == Flatten(a) + FlattenStatement(s)
  {
    FlattenAppend(a, [s]);
    assert [s][1..] == [];
    assert Flatten([s]) == FlattenStatement(s) + [];
  }

  // All words of a tree satisfy a predicate exactly when all word tokens of its yield do.
  ghost predicate AllWords(c: Config, p: string -> bool) {
    forall i :: 0 <= i < |c| ==> AllStatementWords(c[i], p)
  }

  ghost predicate AllStatementWords(s: Statement, p: string -> bool) {
    && (forall i :: 0 <= i < |s.tokens| ==> p(s.tokens[i]))
    && (s.Block? ==> AllWords(s.body, p))
  }

  ghost predicate AllTokenWords(ts: seq<Token>, p: string -> bool) {
    forall i :: 0 <= i < |ts| && ts[i].Word? ==> p(ts[i].text)
  }

  lemma AllTokenWordsConcat(a: seq<Token>, b: seq<Token>, p: string -> bool)
    ensures AllTokenWords(a + b, p) <==> AllTokenWords(a, p) && AllTokenWords(b, p)
  {
    if AllTokenWords(a + b, p) {
      forall i | 0 <= i < |a| && a[i].Word? ensures p(a[i].text) {
        assert (a + b)[i] == a[i];
      }
      forall i | 0 <= i < |b| && b[i].Word? ensures p(b[i].text) {
        assert (a + b)[|a| + i] == b[i];
      }
    }
  }

  lemma {:induction false} AllWordsFlatten(c: Config, p: string -> bool)
    ensures AllWords(c, p) <==> AllTokenWords(Flatten(c), p)
    decreases c, 0
  {
    if c != [] {
      AllStatementWordsFlatten(c[0], p);
      AllWordsFlatten(c[1..], p);
      AllTokenWordsConcat(FlattenStatement(c[0]), Flatten(c[1..]), p);
      if AllWords(c[1..], p) && AllStatementWords(c[0], p) {
        forall i | 0 <= i < |c| ensures AllStatementWords(c[i], p) {
          if i > 0 { assert c[1..][i - 1] == c[i]; }
        }
      }
    }
  }

  lemma {:induction false} AllStatementWordsFlatten(s: Statement, p: string -> bool)
    ensures AllStatementWords(s, p) <==> AllTokenWords(FlattenStatement(s), p)
    decreases s, 1
  {
    var ws := Words(s.tokens);
    assert AllTokenWords(ws, p) <==> forall i :: 0 <= i < |s.tokens| ==> p(s.tokens[i]) by {
      if AllTokenWords(ws, p) {
        forall i | 0 <= i < |s.tokens| ensures p(s.tokens[i]) { assert ws[i].Word?; }
      }
    }
    match s
    case Line(_) =>
      AllTokenWordsConcat(ws, [Semi], p);
    case Block(_, body) =>
      AllWordsFlatten(body, p);
      AllTokenWordsConcat(ws, [Open], p);
      AllTokenWordsConcat(ws + [Open], Flatten(body), p);
      AllTokenWordsConcat(ws + [Open] + Flatten(body), [Close], p);
  }
}
