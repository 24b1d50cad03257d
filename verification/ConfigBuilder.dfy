// NginxConfigParser::Parse over objects: the stack of configs is the right spine of the tree
// being built, and only the spine is ever written to.
module ConfigBuilder {
  import opened Wrappers
  import opened Sequences
  import opened ConfigSyntax
  import opened Lexer
  import opened InputStream
  import opened BlockStack
  import opened ConfigObjects
  import opened RouteMap
  import opened Extraction
  import opened PortSearch

  // The last statement of `c` is `s`; the ones before it are finished and show `before`.
  ghost predicate EndsWith(c: NginxConfig, before: Config, s: NginxConfigStatement, frozen: set<object>)
    reads c, frozen
  {
    && c.statements != []
    && Last(c.statements) == s
    && ShowsAll(Init(c.statements), before, frozen)
  }

  // The stack below its top. Each config ends in an open statement, its hook, whose child block
  // is the next config up. No object occurs twice and none is frozen.
  ghost predicate Chain(root: NginxConfig, below: seq<Frame>, lower: seq<NginxConfig>,
                        hooks: seq<NginxConfigStatement>, top: NginxConfig, frozen: set<object>)
    reads lower, hooks, frozen
    decreases |below|
  {
    && top !in lower && top !in frozen
    && if below == [] then lower == [] && hooks == [] && top == root
       else
         && lower != [] && hooks != []
         && Last(hooks) !in Init(hooks) && Last(hooks) !in frozen
         && EndsWith(Last(lower), Last(below).before, Last(hooks), frozen)
         && Last(hooks).tokens == Last(below).head
         && Last(hooks).childBlock == top
         && Chain(root, Init(below), Init(lower), Init(hooks), Last(lower), frozen)
  }

  // The innermost config. While a statement is unfinished, `cur` is that statement.
  ghost predicate Innermost(last: TokenType, top: Config, c: NginxConfig, cur: NginxConfigStatement?,
                            frozen: set<object>)
    reads c, cur, frozen
  {
    if last.Normal? then
      && cur != null && cur !in frozen
      && top != []
      && EndsWith(c, Init(top), cur, frozen)
      && Last(top) == Line(cur.tokens)
      && cur.childBlock == null
    else
      cur == null && ShowsAll(c.statements, top, frozen)
  }

  // The objects on the stack against the abstract state.
  ghost predicate OnSpine(st: ParseState, root: NginxConfig, stack: seq<NginxConfig>,
                          hooks: seq<NginxConfigStatement>, cur: NginxConfigStatement?, frozen: set<object>)
    reads root, stack, hooks, cur, frozen
  {
    root !in frozen &&
    match st
    case Popped(c) => stack == [] && cur == null && ShowsAll(root.statements, c, frozen)
    case Building(last, below, top) =>
      && stack != []
      && Chain(root, below, Init(stack), hooks, Last(stack), frozen)
      && cur !in hooks
      && Innermost(last, top, Last(stack), cur, frozen)
  }

  // ---- Steps that write nothing: what is finished is frozen ----

  lemma {:induction false} ChainMore(root: NginxConfig, below: seq<Frame>, lower: seq<NginxConfig>,
                                     hooks: seq<NginxConfigStatement>, top: NginxConfig,
                                     frozen: set<object>, more: set<object>)
    requires Chain(root, below, lower, hooks, top, frozen) && frozen <= more
    requires top !in more && (forall c :: c in lower ==> c !in more) && (forall s :: s in hooks ==> s !in more)
    ensures Chain(root, below, lower, hooks, top, more)
    decreases |below|
  {
    if below != [] {
      ShowsAllMore(Init(Last(lower).statements), Last(below).before, frozen, more);
      ChainMore(root, Init(below), Init(lower), Init(hooks), Last(lower), frozen, more);
    }
  }

  lemma {:induction false} ChainUnfrozen(root: NginxConfig, below: seq<Frame>, lower: seq<NginxConfig>,
                                         hooks: seq<NginxConfigStatement>, top: NginxConfig, frozen: set<object>)
    requires Chain(root, below, lower, hooks, top, frozen)
    ensures (forall c :: c in lower ==> c !in frozen) && (forall s :: s in hooks ==> s !in frozen)
    ensures if below == [] then lower == [] && root == top else root in lower
    decreases |below|
  {
    if below != [] {
      ChainUnfrozen(root, Init(below), Init(lower), Init(hooks), Last(lower), frozen);
      assert lower == Init(lower) + [Last(lower)] && hooks == Init(hooks) + [Last(hooks)];
    }
  }

  lemma ShowsSnoc(ss: seq<NginxConfigStatement>, before: Config, value: Statement, frozen: set<object>)
    requires ss != [] && ShowsAll(Init(ss), before, frozen) && Shows(Last(ss), value, frozen)
    ensures ShowsAll(ss, before + [value], frozen)
  {
    forall i | 0 <= i < |ss| ensures Shows(ss[i], (before + [value])[i], frozen) {
      if i < |ss| - 1 { assert ss[i] == Init(ss)[i]; }
    }
  }

  lemma FinishLine(st: ParseState, root: NginxConfig, stack: seq<NginxConfig>,
                   hooks: seq<NginxConfigStatement>, cur: NginxConfigStatement?, frozen: set<object>)
    requires OnSpine(st, root, stack, hooks, cur, frozen) && st.Building? && st.last.Normal?
    ensures cur != null
    ensures OnSpine(Building(StatementEnd, st.below, st.top), root, stack, hooks, null, frozen + {cur})
  {
    var more := frozen + {cur};
    var c := Last(stack);
    ChainUnfrozen(root, st.below, Init(stack), hooks, c, frozen);
    ChainMore(root, st.below, Init(stack), hooks, c, frozen, more);
    ShowsAllMore(Init(c.statements), Init(st.top), frozen, more);
    ShowsSnoc(c.statements, Init(st.top), Last(st.top), more);
    assert Init(st.top) + [Last(st.top)] == st.top;
  }

  lemma FinishBlock(st: ParseState, root: NginxConfig, stack: seq<NginxConfig>,
                    hooks: seq<NginxConfigStatement>, frozen: set<object>)
    requires OnSpine(st, root, stack, hooks, null, frozen)
    requires st.Building? && !st.last.Normal? && st.below != []
    ensures hooks != []
    ensures var f := Last(st.below);
            OnSpine(Building(EndBlock, Init(st.below), f.before + [Block(f.head, st.top)]),
                    root, Init(stack), Init(hooks), null, frozen + {Last(stack), Last(hooks)})
  {
    var more := frozen + {Last(stack), Last(hooks)};
    var f, inner, outer := Last(st.below), Last(stack), Last(Init(stack));
    ChainUnfrozen(root, st.below, Init(stack), hooks, inner, frozen);
    ChainMore(root, Init(st.below), Init(Init(stack)), Init(hooks), outer, frozen, more);
    ShowsAllMore(inner.statements, st.top, frozen, more);
    ShowsAllMore(Init(outer.statements), f.before, frozen, more);
    ShowsSnoc(outer.statements, f.before, Block(f.head, st.top), more);
  }

  // A closing brace, at the root or inside.
  lemma TakeClose(st: ParseState, root: NginxConfig, stack: seq<NginxConfig>,
                  hooks: seq<NginxConfigStatement>, frozen: set<object>)
    returns (hooks': seq<NginxConfigStatement>, frozen': set<object>)
    requires Spine(st) && OnSpine(st, root, stack, hooks, null, frozen) && Step(st, Close).Continue?
    ensures stack != [] && hooks' <= hooks
    ensures forall o: object :: o in frozen' ==> o in frozen || o in stack || o in hooks
    ensures OnSpine(Step(st, Close).state, root, Init(stack), hooks', null, frozen')
  {
    if st.below == [] {
      assert stack == [root];
      hooks', frozen' := hooks, frozen;
    } else {
      FinishBlock(st, root, stack, hooks, frozen);
      hooks', frozen' := Init(hooks), frozen + {Last(stack), Last(hooks)};
    }
  }

  // Whatever is still open, the root object shows the whole tree.
  lemma {:induction false} RootShowsTree(st: ParseState, root: NginxConfig, stack: seq<NginxConfig>,
                                         hooks: seq<NginxConfigStatement>, cur: NginxConfigStatement?,
                                         frozen: set<object>)
    returns (all: set<object>)
    requires OnSpine(st, root, stack, hooks, cur, frozen)
    ensures ShowsAll(root.statements, st.Tree(), all) && root !in all
    decreases st.Height(), st.Building? && st.last.Normal?
  {
    if st.Popped? {
      all := frozen;
    } else if st.last.Normal? {
      FinishLine(st, root, stack, hooks, cur, frozen);
      all := RootShowsTree(Building(StatementEnd, st.below, st.top), root, stack, hooks, null, frozen + {cur});
    } else if st.below == [] {
      assert stack == [root];
      all := frozen;
    } else {
      var f := Last(st.below);
      FinishBlock(st, root, stack, hooks, frozen);
      all := RootShowsTree(Building(EndBlock, Init(st.below), f.before + [Block(f.head, st.top)]),
                           root, Init(stack), Init(hooks), null, frozen + {Last(stack), Last(hooks)});
    }
  }

  // ---- Steps that write: always the innermost config or its last statement ----

  method AddStatement(top: NginxConfig, word: string,
                      ghost st: ParseState, ghost root: NginxConfig, ghost stack: seq<NginxConfig>,
                      ghost hooks: seq<NginxConfigStatement>, ghost frozen: set<object>)
    returns (s: NginxConfigStatement)
    requires Spine(st) && OnSpine(st, root, stack, hooks, null, frozen) && st.Building? && !st.last.Normal?
    requires top == Last(stack)
    modifies top`statements
    ensures fresh(s)
    ensures OnSpine(Step(st, Word(word)).state, root, stack, hooks, s, frozen)
  {
    s := new NginxConfigStatement();
    s.tokens := s.tokens + [word];
    top.statements := top.statements + [s];
    assert Init(top.statements) == old(top.statements);
    assert Init(st.top + [Line([word])]) == st.top;
  }

  method AddWord(s: NginxConfigStatement, word: string,
                 ghost st: ParseState, ghost root: NginxConfig, ghost stack: seq<NginxConfig>,
                 ghost hooks: seq<NginxConfigStatement>, ghost frozen: set<object>)
    requires Spine(st) && OnSpine(st, root, stack, hooks, s, frozen) && st.Building? && st.last.Normal?
    modifies s`tokens
    ensures OnSpine(Step(st, Word(word)).state, root, stack, hooks, s, frozen)
  {
    s.tokens := s.tokens + [word];
    assert Init(Init(st.top) + [Line(Last(st.top).tokens + [word])]) == Init(st.top);
  }

  method OpenBlock(s: NginxConfigStatement,
                   ghost st: ParseState, ghost root: NginxConfig, ghost stack: seq<NginxConfig>,
                   ghost hooks: seq<NginxConfigStatement>, ghost frozen: set<object>)
    returns (c: NginxConfig)
    requires Spine(st) && OnSpine(st, root, stack, hooks, s, frozen) && st.Building? && st.last.Normal?
    modifies s`childBlock
    ensures fresh(c)
    ensures OnSpine(Step(st, Open).state, root, stack + [c], hooks + [s], null, frozen)
  {
    c := new NginxConfig();
    s.childBlock := c;
    ghost var f := Frame(Init(st.top), Last(st.top).tokens);
    assert Init(st.below + [f]) == st.below && Init(hooks + [s]) == hooks && Init(stack + [c]) == stack;
    assert Chain(root, st.below + [f], stack, hooks + [s], c, frozen);
  }

  // ---- Parse ----

  // The tree in place when Parse stops, whether it accepts or not.
  function TreeRead(text: string): Config {
    Steps(INITIAL, Lex(text).tokens).state.Tree()
  }

  // How much of the text is left, seen from the state reached so far. `prior` is what the config
  // held before.
  ghost predicate Reached(st: ParseState, rest: string, text: string, prior: Config) {
    && Spine(st)
    && Steps(st, Lex(rest).tokens) == LiftResult(prior, Steps(INITIAL, Lex(text).tokens))
    && Lex(rest).clean == Lex(text).clean
  }

  lemma ReachedStart(text: string, prior: Config)
    requires WellFormed(prior)
    ensures Reached(StartWith(prior), text, text, prior)
  {
    LiftSteps(prior, INITIAL, Lex(text).tokens);
    assert prior + [] == prior;
  }

  lemma ReachedStep(st: ParseState, before: string, rest: string, text: string, prior: Config, t: Token)
    requires Reached(st, before, text, prior) && Lex(before) == Prepend(t, Lex(rest))
    ensures Step(st, t).Continue? ==> Reached(Step(st, t).state, rest, text, prior)
    ensures Step(st, t).Reject? ==> ParseText(text) == Rejected && st.Tree() == prior + TreeRead(text)
    ensures Step(st, t).Undefined? ==> ParseText(text) == Crashed
    ensures st.Building? ==> (Step(st, t).Continue? <==> MayFollow(st.last, t))
    ensures st.Popped? && !Step(st, t).Undefined? ==> !MayFollow(EndBlock, t)
    ensures Step(st, t).Continue? && Step(st, t).state.Building? ==> Step(st, t).state.last == KindOf(t)
  {
    assert Lex(before).tokens[1..] == Lex(rest).tokens;
    LiftTree(prior, Steps(INITIAL, Lex(text).tokens).state);
  }

  lemma ReachedEnd(st: ParseState, rest: string, text: string, prior: Config)
    requires Reached(st, rest, text, prior) && Lex(rest).tokens == []
    ensures ParseText(text).Accepted? <==> Lex(rest).clean && st.AcceptsAtEof()
    ensures st.Tree() == prior + TreeRead(text)
  {
    LiftTree(prior, Steps(INITIAL, Lex(text).tokens).state);
  }

  // The adjacency table: which tokens Parse lets follow which.
  predicate MayFollow(last: TokenType, t: Token) {
    match t
    case Word(_) => last.Start? || last.StatementEnd? || last.StartBlock? || last.EndBlock? || last.Normal?
    case Semi => last.Normal?
    case Open => last.Normal?
    case Close => last.StartBlock? || last.EndBlock? || last.StatementEnd?
  }

  // Takes one token that may come next.
  method Take(t: Token, stack: seq<NginxConfig>, last: TokenType, ghost st: ParseState, ghost config: NginxConfig,
              ghost hooks: seq<NginxConfigStatement>, ghost cur: NginxConfigStatement?, ghost frozen: set<object>)
    returns (stack': seq<NginxConfig>, ghost hooks': seq<NginxConfigStatement>,
             ghost cur': NginxConfigStatement?, ghost frozen': set<object>)
    requires Spine(st) && OnSpine(st, config, stack, hooks, cur, frozen)
    requires st.Building? && last == st.last && MayFollow(last, t)
    modifies stack[|stack| - 1], cur
    ensures OnSpine(Step(st, t).state, config, stack', hooks', cur', frozen')
    ensures forall c :: c in stack' ==> c in stack || fresh(c)
    ensures cur' != null ==> cur' == cur || fresh(cur')
    ensures forall o: object :: o in frozen' ==> o in frozen || o in stack || o in hooks || o == cur
    ensures config.filesystemMap == old(config.filesystemMap)
  {
    stack', hooks', cur', frozen' := stack, hooks, cur, frozen;
    var top := stack[|stack| - 1];
    match t
    case Word(word) =>
      if !last.Normal? {
        cur' := AddStatement(top, word, st, config, stack, hooks, frozen);
      } else {
        AddWord(top.statements[|top.statements| - 1], word, st, config, stack, hooks, frozen);
      }
    case Semi =>
      FinishLine(st, config, stack, hooks, cur, frozen);
      cur', frozen' := null, frozen + {cur};
    case Open =>
      var c := OpenBlock(top.statements[|top.statements| - 1], st, config, stack, hooks, frozen);
      stack', hooks', cur' := stack + [c], hooks + [cur], null;
    case Close =>
      hooks', frozen' := TakeClose(st, config, stack, hooks, frozen);
      stack' := stack[..|stack| - 1];
  }

  // Reads until a token may not come next, the text ends or it has an error.
  method ParseTokens(input: CharStream, config: NginxConfig, ghost prior: Config, ghost held: set<object>)
    returns (ok: bool, ghost st: ParseState, ghost stack': seq<NginxConfig>, ghost hooks: seq<NginxConfigStatement>,
             ghost cur: NginxConfigStatement?, ghost frozen: set<object>)
    requires input.Valid() && input !in held
    requires ShowsAll(config.statements, prior, held) && config !in held && WellFormed(prior)
    requires ParseText(input.Rest()) != Crashed
    modifies input, config
    ensures ok <==> ParseText(old(input.Rest())).Accepted?
    ensures OnSpine(st, config, stack', hooks, cur, frozen) && st.Tree() == prior + TreeRead(old(input.Rest()))
    ensures config.filesystemMap == old(config.filesystemMap)
  {
    ghost var text := input.Rest();
    var stack := [config];
    var last := Start;
    ok := false;
    st, hooks, cur, frozen := StartWith(prior), [], null, held;
    ReachedStart(text, prior);
    while true
      invariant input.Valid() && !ok
      invariant Reached(st, input.Rest(), text, prior) && OnSpine(st, config, stack, hooks, cur, frozen)
      invariant last == if st.Building? then st.last else EndBlock
      invariant forall c :: c in stack ==> c == config || fresh(c)
      invariant cur != null ==> fresh(cur)
      invariant input !in frozen
      invariant config.filesystemMap == old(config.filesystemMap)
      decreases |input.text| - input.pos
    {
      ghost var before := input.Rest();
      var kind, t := NextToken(input);
      stack' := stack;
      assert OnSpine(st, config, stack, hooks, cur, frozen);
      if kind.Error? || kind.EndOfFile? {
        ReachedEnd(st, before, text, prior);
        ok := kind.EndOfFile? && (last.Start? || last.StatementEnd? || last.EndBlock?);
        return;
      }
      ReachedStep(st, before, input.Rest(), text, prior, t);
      if !MayFollow(last, t) { return; }
      assert stack[|stack| - 1] in stack;
      stack, hooks, cur, frozen := Take(t, stack, last, st, config, hooks, cur, frozen);
      st, last := Step(st, t).state, kind;
    }
  }

  // `prior` is the configuration the object shows on entry; Parse appends to it.
  method Parse(input: CharStream, config: NginxConfig, ghost prior: Config, ghost held: set<object>)
    returns (ok: bool, ghost shown: set<object>)
    requires input.Valid() && input !in held
    requires ShowsAll(config.statements, prior, held) && config !in held && WellFormed(prior)
    requires ParseText(input.Rest()) != Crashed
    modifies input, config
    ensures ok <==> ParseText(old(input.Rest())).Accepted?
    ensures ShowsAll(config.statements, prior + TreeRead(old(input.Rest())), shown) && config !in shown
    ensures config.filesystemMap == old(config.filesystemMap)
  {
    ghost var st, stack, hooks, cur, frozen;
    ok, st, stack, hooks, cur, frozen := ParseTokens(input, config, prior, held);
    shown := RootShowsTree(st, config, stack, hooks, cur, frozen);
  }

  // Parse of a named file: `contents` is None when the file cannot be opened. The paths are
  // checked on whatever tree is in place, whether or not it was accepted.
  method ParseFile(contents: Option<string>, config: NginxConfig, relative: string -> bool,
                   ghost prior: Config, ghost held: set<object>)
    returns (ok: bool, ghost shown: set<object>)
    requires ShowsAll(config.statements, prior, held) && config !in held && WellFormed(prior)
    requires contents.Some? ==>
               ParseText(contents.value) != Crashed && !Validate(prior + TreeRead(contents.value), relative).Broken?
    modifies config
    ensures ok <==> contents.Some? && ParseText(contents.value).Accepted?
                    && PathsRelative(prior + TreeRead(contents.value), relative)
    ensures ok ==> Locatable(prior + TreeRead(contents.value))
    ensures var tree := if contents.Some? then prior + TreeRead(contents.value) else prior;
            ShowsAll(config.statements, tree, shown) && config !in shown
    ensures config.filesystemMap == old(config.filesystemMap)
  {
    if contents.None? {
      return false, held;
    }
    var input := new CharStream(contents.value);
    assert input.Rest() == contents.value;
    ok, shown := Parse(input, config, prior, held);
    var relativePaths := config.ValidateRelativePaths(relative, prior + TreeRead(contents.value), shown);
    if !relativePaths {
      return false, shown;
    }
  }

  // Startup: parse the file, find the port, then fill the map. Every stored root is then a relative
  // path.
  method LoadRoutes(contents: Option<string>, relative: string -> bool, atoi: string -> int)
    returns (ok: bool, port: int, m: FilesystemMap)
    requires contents.Some? ==>
               ParseText(contents.value) != Crashed && !Validate(TreeRead(contents.value), relative).Broken?
    requires contents.Some? && Loads(contents.value, relative, atoi) ==> Extractable(TreeRead(contents.value))
    ensures ok <==> contents.Some? && Loads(contents.value, relative, atoi)
    ensures ok ==> ParseText(contents.value) == Accepted(TreeRead(contents.value))
    ensures ok ==> FirstPort(Visible(TreeRead(contents.value)), atoi, port) && 0 <= port <= MAX_PORT
    ensures ok ==> m == InsertAll(map[], Entries(TreeRead(contents.value)))
    ensures ok ==> Extracts(map[], TreeRead(contents.value), m)
    ensures ok ==> forall handler, location :: Lookup(m, handler, location).Some? ==>
              relative(Lookup(m, handler, location).value)
  {
    var config := new NginxConfig();
    ghost var shown;
    m, port := map[], -1;
    ghost var tree := if contents.Some? then TreeRead(contents.value) else [];
    assert [] + tree == tree;
    ok, shown := ParseFile(contents, config, relative, [], {});
    if !ok { return; }
    port := config.GetPort(atoi, tree, shown);
    if port < 0 { return false, port, m; }
    config.ExtractFilesystemMap(tree, shown);
    m := config.filesystemMap;
    forall handler, location | Lookup(m, handler, location).Some?
      ensures relative(Lookup(m, handler, location).value)
    {
      RelativeIff(tree, relative);
      StoredPathsAreRelative(tree, relative, handler, location);
    }
  }

  // The text is accepted, all its paths are relative, and it names a port.
  ghost predicate Loads(text: string, relative: string -> bool, atoi: string -> int) {
    ParseText(text).Accepted? && PathsRelative(TreeRead(text), relative) && PortOf(TreeRead(text), atoi) >= 0
  }
}
