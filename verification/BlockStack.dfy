// NginxConfigParser::Parse on tokens: the adjacency automaton and the stack of open blocks.
module BlockStack {
  import opened Sequences
  import opened ConfigSyntax
  import opened Lexer

  // An enclosing block: the statements before its last one, and the words of that last one,
  // whose child block is the level above on the stack.
  datatype Frame = Frame(before: Config, head: seq<string>)

  // `Popped` is what is left when the root itself has been popped: the stack is empty,
  // and the last token was a closing brace.
  datatype ParseState =
    | Building(last: TokenType, below: seq<Frame>, top: Config)
    | Popped(root: Config)
  {
    // The number of entries on the stack.
    function Height(): nat {
      if Popped? then 0 else |below| + 1
    }

    // The tree hanging off the root, unfinished statements included.
    function Tree(): Config {
      if Popped? then root else Plug(below, top)
    }

    predicate AcceptsAtEof() {
      Popped? || last.Start? || last.StatementEnd? || last.EndBlock?
    }
  }

  function Plug(below: seq<Frame>, top: Config): Config {
    if below == [] then top
    else Plug(Init(below), Last(below).before + [Block(Last(below).head, top)])
  }

  // The spine invariant: every statement off the spine is complete, every statement has a word,
  // and the last token tells what the innermost block ends in. It is what keeps back() defined.
  ghost predicate Spine(st: ParseState) {
    match st
    case Popped(root) => WellFormed(root) && root != []
    case Building(last, below, top) =>
      && (forall i :: 0 <= i < |below| ==> WellFormed(below[i].before) && below[i].head != [])
      && WellFormed(top)
      && match last
         case Normal => top != [] && Last(top).Line?
         case StatementEnd => top != [] && Last(top).Line?
         case EndBlock => top != [] && Last(top).Block?
         case StartBlock => top == [] && below != []
         case Start => below == []
         case _ => false
  }

  // One token. `Undefined` marks a call to top() or pop() on the empty stack.
  datatype StepResult = Continue(state: ParseState) | Reject(state: ParseState) | Undefined(state: ParseState)

  function Step(st: ParseState, t: Token): (r: StepResult)
    requires Spine(st)
    ensures r.Continue? ==> Spine(r.state)
    ensures !r.Continue? ==> r.state == st
    ensures r.Undefined? <==> st.Popped? && (t.Word? || t.Close?)
  {
    match st
    case Popped(_) =>
      if t.Word? || t.Close? then Undefined(st) else Reject(st)
    case Building(last, below, top) =>
      match t
      case Word(w) =>
        if last.Normal? then
          Continue(Building(Normal, below, Init(top) + [Line(Last(top).tokens + [w])]))
        else
          Continue(Building(Normal, below, top + [Line([w])]))
      case Semi =>
        if last.Normal? then Continue(Building(StatementEnd, below, top)) else Reject(st)
      case Open =>
        if last.Normal? then
          assert WellFormedStatement(top[|top| - 1]);
          Continue(Building(StartBlock, below + [Frame(Init(top), Last(top).tokens)], []))
        else Reject(st)
      case Close =>
        if !(last.StartBlock? || last.EndBlock? || last.StatementEnd?) then Reject(st)
        else if below == [] then Continue(Popped(top))
        else
          var f := Last(below);
          Continue(Building(EndBlock, Init(below), f.before + [Block(f.head, top)]))
  }

  const INITIAL := Building(Start, [], [])

  function Steps(st: ParseState, ts: seq<Token>): (r: StepResult)
    requires Spine(st)
    ensures Spine(r.state)
    decreases |ts|
  {
    if ts == [] then Continue(st)
    else
      var r := Step(st, ts[0]);
      if r.Continue? then Steps(r.state, ts[1..]) else r
  }

  // Before the first token, with whatever statements the config already holds.
  function StartWith(prior: Config): ParseState {
    Building(Start, [], prior)
  }

  datatype Outcome = Accepted(tree: Config) | Rejected | Crashed

  // `clean` says that the tokens ended at end of file, not in a lexical error.
  function Finish(r: StepResult, clean: bool): Outcome {
    match r
    case Continue(st) => if clean && st.AcceptsAtEof() then Accepted(st.Tree()) else Rejected
    case Reject(_) => Rejected
    case Undefined(_) => Crashed
  }

  function ParseTokens(ts: seq<Token>): Outcome {
    Finish(Steps(INITIAL, ts), true)
  }

  function ParseText(text: string): Outcome {
    var l := Lex(text);
    Finish(Steps(INITIAL, l.tokens), l.clean)
  }

  lemma {:induction false} StepsConcat(st: ParseState, a: seq<Token>, b: seq<Token>)
    requires Spine(st)
    ensures var r := Steps(st, a);
            Steps(st, a + b) == if r.Continue? then Steps(r.state, b) else r
    decreases |a|
  {
    if a == [] {
      assert a + b == b;
    } else {
      assert (a + b)[1..] == a[1..] + b;
      var r := Step(st, a[0]);
      if r.Continue? { StepsConcat(r.state, a[1..], b); }
    }
  }

  lemma StepsOne(st: ParseState, t: Token)
    requires Spine(st)
    ensures Steps(st, [t]) == Step(st, t)
  {
    assert [t][1..] == [];
    if Step(st, t).Continue? { assert Steps(Step(st, t).state, []) == Step(st, t); }
  }

  // ---- Soundness: the state spells exactly the tokens read ----

  function FrameTokens(below: seq<Frame>): seq<Token> {
    if below == [] then []
    else FrameTokens(Init(below)) + Flatten(Last(below).before) + Words(Last(below).head) + [Open]
  }

  // The tokens that led to a state.
  function Spelled(st: ParseState): seq<Token>
    requires Spine(st)
  {
    match st
    case Popped(root) => Flatten(root) + [Close]
    case Building(last, below, top) =>
      FrameTokens(below) +
      if last.Normal? then Flatten(Init(top)) + Words(Last(top).tokens) else Flatten(top)
  }

  lemma WordSpells(st: ParseState, w: string)
    requires Spine(st) && st.Building?
    ensures Spelled(Step(st, Word(w)).state) == Spelled(st) + [Word(w)]
  {
    var top' := Step(st, Word(w)).state.top;
    if st.last.Normal? {
      var head := Last(st.top).tokens;
      assert Init(top') == Init(st.top);
      assert Words(head + [w]) == Words(head) + [Word(w)];
    } else {
      assert Init(top') == st.top;
      assert Words([w]) == [Word(w)];
    }
  }

  lemma SemiSpells(st: ParseState)
    requires Spine(st) && Step(st, Semi).Continue?
    ensures Spelled(Step(st, Semi).state) == Spelled(st) + [Semi]
  {
    assert st.top == Init(st.top) + [Last(st.top)];
    FlattenSnoc(Init(st.top), Last(st.top));
  }

  lemma OpenSpells(st: ParseState)
    requires Spine(st) && Step(st, Open).Continue?
    ensures Spelled(Step(st, Open).state) == Spelled(st) + [Open]
  {
    var st' := Step(st, Open).state;
    assert Init(st'.below) == st.below;
    assert Last(st'.below) == Frame(Init(st.top), Last(st.top).tokens);
    assert FrameTokens(st'.below)
        == FrameTokens(st.below) + Flatten(Init(st.top)) + Words(Last(st.top).tokens) + [Open];
  }

  lemma CloseSpells(st: ParseState)
    requires Spine(st) && Step(st, Close).Continue?
    ensures Spelled(Step(st, Close).state) == Spelled(st) + [Close]
  {
    if st.below != [] {
      var f, outer := Last(st.below), FrameTokens(Init(st.below));
      var block := Block(f.head, st.top);
      FlattenSnoc(f.before, block);
      assert Spelled(Step(st, Close).state) == outer + (Flatten(f.before) + FlattenStatement(block));
      RegroupBlock(outer, Flatten(f.before), Words(f.head), [Open], Flatten(st.top), [Close]);
    }
  }

  lemma RegroupBlock<T>(a: seq<T>, b: seq<T>, c: seq<T>, d: seq<T>, e: seq<T>, f: seq<T>)
    ensures a + b + c + d + e + f == a + (b + (c + d + e + f))
  {
  }

  lemma StepSpells(st: ParseState, t: Token)
    requires Spine(st) && Step(st, t).Continue?
    ensures Spelled(Step(st, t).state) == Spelled(st) + [t]
  {
    match t
    case Word(w) => WordSpells(st, w);
    case Semi => SemiSpells(st);
    case Open => OpenSpells(st);
    case Close => CloseSpells(st);
  }

  lemma {:induction false} StepsSpell(st: ParseState, ts: seq<Token>)
    requires Spine(st) && Steps(st, ts).Continue?
    ensures Spelled(Steps(st, ts).state) == Spelled(st) + ts
    decreases |ts|
  {
    if ts == [] {
    } else {
      StepSpells(st, ts[0]);
      StepsSpell(Step(st, ts[0]).state, ts[1..]);
      MoveHead(Spelled(st), ts);
    }
  }

  // ---- What the config held before stays in front ----

  function LiftBelow(prior: Config, below: seq<Frame>): seq<Frame>
    requires below != []
  {
    below[0 := Frame(prior + below[0].before, below[0].head)]
  }

  function Lift(prior: Config, st: ParseState): ParseState {
    match st
    case Popped(root) => Popped(prior + root)
    case Building(last, below, top) =>
      if below == [] then Building(last, [], prior + top) else Building(last, LiftBelow(prior, below), top)
  }

  function LiftResult(prior: Config, r: StepResult): StepResult {
    r.(state := Lift(prior, r.state))
  }

  lemma LiftSpine(prior: Config, st: ParseState)
    requires WellFormed(prior) && Spine(st)
    ensures Spine(Lift(prior, st))
  {
  }

  lemma LiftWord(prior: Config, st: ParseState, w: string)
    requires WellFormed(prior) && Spine(st) && Spine(Lift(prior, st)) && st.Building?
    ensures Step(Lift(prior, st), Word(w)) == LiftResult(prior, Step(st, Word(w)))
  {
    var top := st.top;
    if st.below == [] {
      if st.last.Normal? {
        assert Init(prior + top) == prior + Init(top);
        Regroup3(prior, Init(top), [Line(Last(top).tokens + [w])]);
      } else {
        Regroup3(prior, top, [Line([w])]);
      }
    } else {
      assert Lift(prior, st) == Building(st.last, LiftBelow(prior, st.below), top);
    }
  }

  lemma LiftOpen(prior: Config, st: ParseState)
    requires WellFormed(prior) && Spine(st) && Spine(Lift(prior, st)) && st.Building?
    ensures Step(Lift(prior, st), Open) == LiftResult(prior, Step(st, Open))
  {
    if st.last.Normal? {
      var below, top := st.below, st.top;
      var f := Frame(Init(top), Last(top).tokens);
      if below == [] {
        assert Init(prior + top) == prior + Init(top);
      } else {
        assert LiftBelow(prior, below + [f]) == LiftBelow(prior, below) + [f];
      }
    }
  }

  lemma LiftClose(prior: Config, st: ParseState)
    requires WellFormed(prior) && Spine(st) && Spine(Lift(prior, st)) && st.Building?
    ensures Step(Lift(prior, st), Close) == LiftResult(prior, Step(st, Close))
  {
    var below := st.below;
    if below != [] {
      var block := Block(Last(below).head, st.top);
      Regroup3(prior, Last(below).before, [block]);
      assert Last(LiftBelow(prior, below)).head == Last(below).head;
      if |below| > 1 {
        assert Init(LiftBelow(prior, below)) == LiftBelow(prior, Init(below));
      } else {
        assert Init(LiftBelow(prior, below)) == [] == Init(below);
      }
    }
  }

  lemma LiftStep(prior: Config, st: ParseState, t: Token)
    requires WellFormed(prior) && Spine(st) && Spine(Lift(prior, st))
    ensures Step(Lift(prior, st), t) == LiftResult(prior, Step(st, t))
  {
    if st.Building? {
      match t
      case Word(w) => LiftWord(prior, st, w);
      case Semi =>
      case Open => LiftOpen(prior, st);
      case Close => LiftClose(prior, st);
    }
  }

  // Parsing into a config that holds statements appends to them, token for token.
  lemma {:induction false} LiftSteps(prior: Config, st: ParseState, ts: seq<Token>)
    requires WellFormed(prior) && Spine(st)
    ensures Spine(Lift(prior, st)) && Steps(Lift(prior, st), ts) == LiftResult(prior, Steps(st, ts))
    decreases |ts|
  {
    LiftSpine(prior, st);
    if ts != [] {
      LiftStep(prior, st, ts[0]);
      var r := Step(st, ts[0]);
      if r.Continue? { LiftSteps(prior, r.state, ts[1..]); }
    }
  }

  lemma {:induction false} LiftTree(prior: Config, st: ParseState)
    ensures Lift(prior, st).Tree() == prior + st.Tree()
    decreases st.Height()
  {
    if st.Building? && st.below != [] {
      var below, f := st.below, Last(st.below);
      var block := Block(f.head, st.top);
      LiftTree(prior, Building(EndBlock, Init(below), f.before + [block]));
      Regroup3(prior, f.before, [block]);
      if |below| > 1 { assert Init(LiftBelow(prior, below)) == LiftBelow(prior, Init(below)); }
    }
  }

  // ---- Depth ----

  function Depth(ts: seq<Token>): int {
    if ts == [] then 0
    else Depth(Init(ts)) + (if Last(ts).Open? then 1 else if Last(ts).Close? then -1 else 0)
  }

  // The height of the stack is one more than the number of blocks opened and not closed.
  lemma {:induction false} HeightIsDepth(ts: seq<Token>)
    requires Steps(INITIAL, ts).Continue?
    ensures Steps(INITIAL, ts).state.Height() == 1 + Depth(ts)
    decreases |ts|
  {
    if ts != [] {
      var prefix, t := Init(ts), Last(ts);
      assert ts == prefix + [t];
      StepsConcat(INITIAL, prefix, [t]);
      HeightIsDepth(prefix);
      StepsOne(Steps(INITIAL, prefix).state, t);
    }
  }

  // ---- Completeness: a derivation is rebuilt from its yield ----

  function After(last: TokenType, c: Config): TokenType {
    if c == [] then last else if Last(c).Line? then StatementEnd else EndBlock
  }

  lemma {:induction false} StepsWords(st: ParseState, ts: seq<string>)
    requires Spine(st) && st.Building? && ts != []
    requires st.last.Normal?
    ensures Steps(st, Words(ts))
         == Continue(Building(Normal, st.below, Init(st.top) + [Line(Last(st.top).tokens + ts)]))
    decreases |ts|
  {
    var head := Last(st.top).tokens;
    var st' := Step(st, Word(ts[0])).state;
    assert Words(ts)[1..] == Words(ts[1..]);
    assert Init(st'.top) == Init(st.top);
    if |ts| == 1 {
      assert Words(ts)[1..] == [];
      assert ts == [ts[0]];
    } else {
      StepsWords(st', ts[1..]);
      assert head + [ts[0]] + ts[1..] == head + ts;
    }
  }

  lemma StepsHead(st: ParseState, ts: seq<string>)
    requires Spine(st) && st.Building? && ts != [] && !st.last.Normal?
    ensures Steps(st, Words(ts)) == Continue(Building(Normal, st.below, st.top + [Line(ts)]))
  {
    var st' := Step(st, Word(ts[0])).state;
    assert Words(ts)[1..] == Words(ts[1..]);
    assert Init(st'.top) == st.top;
    if |ts| == 1 {
      assert Words(ts)[1..] == [];
      assert ts == [ts[0]];
    } else {
      StepsWords(st', ts[1..]);
      assert [ts[0]] + ts[1..] == ts;
    }
  }

  lemma {:induction false} StepsStatement(st: ParseState, s: Statement)
    requires Spine(st) && st.Building? && !st.last.Normal? && WellFormedStatement(s)
    ensures Steps(st, FlattenStatement(s))
         == Continue(Building(if s.Line? then StatementEnd else EndBlock, st.below, st.top + [s]))
    decreases s, 1
  {
    StepsHead(st, s.tokens);
    var named := Steps(st, Words(s.tokens)).state;
    match s
    case Line(ts) =>
      StepsOne(named, Semi);
      StepsConcat(st, Words(ts), [Semi]);
    case Block(ts, body) =>
      assert Init(named.top) == st.top;
      StepsOne(named, Open);
      var inside := Step(named, Open).state;
      StepsConcat(st, Words(ts), [Open]);
      StepsFlatten(inside, body);
      StepsConcat(st, Words(ts) + [Open], Flatten(body));
      var full := Steps(inside, Flatten(body)).state;
      assert full.top == body;
      assert Init(inside.below) == st.below;
      StepsOne(full, Close);
      StepsConcat(st, Words(ts) + [Open] + Flatten(body), [Close]);
  }

  lemma {:induction false} StepsFlatten(st: ParseState, c: Config)
    requires Spine(st) && st.Building? && !st.last.Normal? && WellFormed(c)
    ensures Steps(st, Flatten(c)) == Continue(Building(After(st.last, c), st.below, st.top + c))
    decreases c, 0
  {
    if c == [] {
      assert st.top + c == st.top;
    } else {
      StepsStatement(st, c[0]);
      var st' := Steps(st, FlattenStatement(c[0])).state;
      StepsFlatten(st', c[1..]);
      StepsConcat(st, FlattenStatement(c[0]), Flatten(c[1..]));
      MoveHead(st.top, c);
    }
  }

  lemma WholeDerivation(c: Config)
    requires WellFormed(c)
    ensures Steps(INITIAL, Flatten(c)) == Continue(Building(After(Start, c), [], c))
  {
    StepsFlatten(INITIAL, c);
    assert [] + c == c;
  }

  // ---- Closing what is open does not change the tree ----

  lemma {:induction false} CloseAll(st: ParseState)
    requires Spine(st) && st.Building? && !st.last.Normal?
    ensures Spelled(st) + Closes(|st.below|) == Flatten(st.Tree())
    ensures WellFormed(st.Tree())
    decreases |st.below|
  {
    var k := |st.below|;
    if k == 0 {
      assert Spelled(st) + Closes(0) == Spelled(st);
    } else {
      StepSpells(st, Close);
      var st' := Step(st, Close).state;
      CloseAll(st');
      assert Closes(k) == [Close] + Closes(k - 1);
    }
  }

  lemma {:induction false} TailOfClosesIsTree(st: ParseState, k: nat, c: Config)
    requires Spine(st) && st.Building?
    requires Steps(st, Closes(k)).Continue?
    requires Steps(st, Closes(k)).state.Building? && Steps(st, Closes(k)).state.below == []
    requires Steps(st, Closes(k)).state.top == c
    ensures st.Tree() == c && |st.below| == k
    decreases k
  {
    if k == 0 {
    } else {
      assert Closes(k)[1..] == Closes(k - 1) && Closes(k)[0] == Close;
      var st' := Step(st, Close).state;
      if st'.Popped? {
        PoppedIsFinal(st', Closes(k - 1));
      } else {
        TailOfClosesIsTree(st', k - 1, c);
      }
    }
  }

  lemma PoppedIsFinal(st: ParseState, ts: seq<Token>)
    requires Spine(st) && st.Popped?
    ensures ts == [] ==> Steps(st, ts) == Continue(st)
    ensures ts != [] ==> !Steps(st, ts).Continue?
  {
  }

  predicate EndsComplete(ts: seq<Token>) {
    ts == [] || Last(ts).Semi? || Last(ts).Close?
  }

  lemma LastTokenType(ts: seq<Token>)
    requires Steps(INITIAL, ts).Continue? && Steps(INITIAL, ts).state.Building?
    ensures Steps(INITIAL, ts).state.AcceptsAtEof() <==> EndsComplete(ts)
  {
    if ts != [] {
      var prefix, t := Init(ts), Last(ts);
      assert ts == prefix + [t];
      StepsConcat(INITIAL, prefix, [t]);
      StepsOne(Steps(INITIAL, prefix).state, t);
    }
  }

  // How a token stream relates to a derivation: it is the yield up to missing final closers,
  // or the yield with one closer too many.
  ghost predicate Unclosed(ts: seq<Token>, c: Config, k: nat) {
    Derives(ts + Closes(k), c) && EndsComplete(ts)
  }

  ghost predicate Overclosed(ts: seq<Token>, c: Config) {
    WellFormed(c) && c != [] && ts == Flatten(c) + [Close]
  }

  // The exact language of Parse, with the tree it builds, and the height it ends at.
  lemma {:induction false} AcceptedHeight(ts: seq<Token>, c: Config)
    requires ParseTokens(ts) == Accepted(c)
    ensures var h := Steps(INITIAL, ts).state.Height();
            if h == 0 then Overclosed(ts, c) else Unclosed(ts, c, h - 1)
  {
    var st := Steps(INITIAL, ts).state;
    StepsSpell(INITIAL, ts);
    assert Spelled(INITIAL) + ts == ts;
    if st.Building? {
      CloseAll(st);
      LastTokenType(ts);
    }
  }

  lemma UnclosedAccepted(ts: seq<Token>, c: Config, k: nat)
    requires Unclosed(ts, c, k)
    ensures ParseTokens(ts) == Accepted(c) && Steps(INITIAL, ts).state.Height() == k + 1
  {
    WholeDerivation(c);
    StepsConcat(INITIAL, ts, Closes(k));
    var st := Steps(INITIAL, ts).state;
    if st.Popped? { PoppedIsFinal(st, Closes(k)); }
    TailOfClosesIsTree(st, k, c);
    LastTokenType(ts);
  }

  lemma OverclosedAccepted(ts: seq<Token>, c: Config)
    requires Overclosed(ts, c)
    ensures ParseTokens(ts) == Accepted(c) && Steps(INITIAL, ts).state.Height() == 0
  {
    WholeDerivation(c);
    StepsConcat(INITIAL, Flatten(c), [Close]);
    StepsOne(Steps(INITIAL, Flatten(c)).state, Close);
  }

  lemma {:induction false} AcceptedIff(ts: seq<Token>, c: Config)
    ensures ParseTokens(ts) == Accepted(c)
       <==> (exists k: nat :: Unclosed(ts, c, k)) || Overclosed(ts, c)
  {
    if ParseTokens(ts) == Accepted(c) { AcceptedHeight(ts, c); }
    forall k: nat | Unclosed(ts, c, k) ensures ParseTokens(ts) == Accepted(c) {
      UnclosedAccepted(ts, c, k);
    }
    if Overclosed(ts, c) { OverclosedAccepted(ts, c); }
  }

  // Automaton plus stack equals grammar, on streams whose braces balance.
  lemma {:induction false} BalancedIffDerives(ts: seq<Token>, c: Config)
    requires Depth(ts) == 0
    ensures ParseTokens(ts) == Accepted(c) <==> Derives(ts, c)
  {
    if ParseTokens(ts) == Accepted(c) {
      AcceptedHeight(ts, c);
      HeightIsDepth(ts);
      assert ts + Closes(0) == ts;
    }
    if Derives(ts, c) {
      assert ts + Closes(0) == ts;
      WholeDerivation(c);
      LastTokenType(ts);
      UnclosedAccepted(ts, c, 0);
    }
  }

  lemma {:induction false} DerivedIsBalanced(c: Config)
    requires WellFormed(c)
    ensures Depth(Flatten(c)) == 0
  {
    WholeDerivation(c);
    HeightIsDepth(Flatten(c));
  }

  lemma UnbalancedDerivesNothing(ts: seq<Token>, c: Config)
    requires Depth(ts) != 0
    ensures !Derives(ts, c)
  {
    if Derives(ts, c) { DerivedIsBalanced(c); }
  }

  lemma ShortLine(w: string)
    ensures Flatten([Line([w])]) == [Word(w), Semi] && ParseTokens([Word(w), Semi]) == Accepted([Line([w])])
  {
    var c := [Line([w])];
    assert c[1..] == [];
    assert Words([w]) == [Word(w)];
    assert Flatten(c) == Words([w]) + [Semi] + [];
    WholeDerivation(c);
  }

  // Two kinds of token stream that derive nothing and that Parse accepts.
  lemma UnclosedBlockAccepted(a: string, b: string)
    ensures var ts := [Word(a), Open, Word(b), Semi];
            ParseTokens(ts) == Accepted([Block([a], [Line([b])])]) && forall c :: !Derives(ts, c)
  {
    var body := [Line([b])];
    var c := [Block([a], body)];
    var ts := [Word(a), Open, Word(b), Semi];
    ShortLine(b);
    assert c[1..] == [];
    assert Words([a]) == [Word(a)];
    assert Flatten(c) == [Word(a)] + [Open] + [Word(b), Semi] + [Close] + [];
    assert ts + Closes(1) == Flatten(c);
    assert WellFormedStatement(body[0]) && WellFormed(body) && WellFormed(c);
    UnclosedAccepted(ts, c, 1);
    HeightIsDepth(ts);
    forall c' ensures !Derives(ts, c') { UnbalancedDerivesNothing(ts, c'); }
  }

  lemma OverclosedRootAccepted(a: string)
    ensures var ts := [Word(a), Semi, Close];
            ParseTokens(ts) == Accepted([Line([a])]) && forall c :: !Derives(ts, c)
  {
    var c, ts := [Line([a])], [Word(a), Semi, Close];
    ShortLine(a);
    assert ts == Flatten(c) + [Close];
    OverclosedAccepted(ts, c);
    HeightIsDepth(ts);
    forall c' ensures !Derives(ts, c') { UnbalancedDerivesNothing(ts, c'); }
  }

  // ---- When the stack underflows ----

  lemma ClosedTwiceUnderflows(a: string)
    ensures ParseTokens([Word(a), Semi, Close, Close]) == Crashed
  {
    var c, ts := [Line([a])], [Word(a), Semi, Close, Close];
    ShortLine(a);
    assert ts[..3] == Flatten(c) + [Close];
    assert UnderflowsAt(ts, 3, c);
    CrashedIff(ts);
  }

  // A complete configuration, a closing brace, and then a word or another closing brace.
  ghost predicate UnderflowsAt(ts: seq<Token>, i: nat, c: Config) {
    i < |ts| && Overclosed(ts[..i], c) && (ts[i].Word? || ts[i].Close?)
  }

  // Parse touches the empty stack exactly on such a stream.
  lemma {:induction false} CrashedIff(ts: seq<Token>)
    ensures Steps(INITIAL, ts).Undefined? <==> exists i: nat, c :: UnderflowsAt(ts, i, c)
  {
    forall i: nat, c | UnderflowsAt(ts, i, c) ensures Steps(INITIAL, ts).Undefined? {
      UnderflowCrashes(ts, i, c);
    }
    if Steps(INITIAL, ts).Undefined? {
      var i := FirstUndefined(INITIAL, ts);
      StepsSpell(INITIAL, ts[..i]);
      assert Spelled(INITIAL) + ts[..i] == ts[..i];
      assert UnderflowsAt(ts, i, Steps(INITIAL, ts[..i]).state.root);
    }
  }

  lemma UnderflowCrashes(ts: seq<Token>, i: nat, c: Config)
    requires UnderflowsAt(ts, i, c)
    ensures Steps(INITIAL, ts).Undefined?
  {
    var before, after := ts[..i], ts[i..];
    OverclosedAccepted(before, c);
    StepsConcat(INITIAL, before, after);
    assert ts == before + after;
    assert after[0] == ts[i];
  }

  lemma {:induction false} FirstUndefined(st: ParseState, ts: seq<Token>) returns (i: nat)
    requires Spine(st) && Steps(st, ts).Undefined?
    ensures i < |ts| && Steps(st, ts[..i]).Continue? && Steps(st, ts[..i]).state.Popped?
    ensures ts[i].Word? || ts[i].Close?
    decreases |ts|
  {
    var r := Step(st, ts[0]);
    if r.Continue? {
      i := FirstUndefined(r.state, ts[1..]);
      i := i + 1;
      assert ts[..i][1..] == ts[1..][..i - 1];
    } else {
      i := 0;
    }
  }
}
