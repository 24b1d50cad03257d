// NginxConfig and NginxConfigStatement as objects: printing, validating and extracting.
module ConfigObjects {
  import opened Sequences
  import opened ConfigSyntax
  import opened FileIds
  import opened Paths
  import opened Printer
  import opened RouteMap
  import opened Extraction
  import opened PortSearch

  // ---- What an object shows ----

  // The object, with everything below it inside `frozen`, is the given statement.
  ghost predicate Shows(s: NginxConfigStatement, value: Statement, frozen: set<object>)
    reads frozen
    decreases value, 0
  {
    && s in frozen
    && s.tokens == value.tokens
    && match value
       case Line(_) => s.childBlock == null
       case Block(_, body) =>
         s.childBlock != null && s.childBlock in frozen && ShowsAll(s.childBlock.statements, body, frozen)
  }

  ghost predicate ShowsAll(ss: seq<NginxConfigStatement>, values: Config, frozen: set<object>)
    reads frozen
    decreases values, 1
  {
    |ss| == |values| && forall i :: 0 <= i < |ss| ==> Shows(ss[i], values[i], frozen)
  }

  lemma {:induction false} ShowsMore(s: NginxConfigStatement, value: Statement, a: set<object>, b: set<object>)
    requires Shows(s, value, a) && a <= b
    ensures Shows(s, value, b)
    decreases value, 0
  {
    if value.Block? { ShowsAllMore(s.childBlock.statements, value.body, a, b); }
  }

  lemma {:induction false} ShowsAllMore(ss: seq<NginxConfigStatement>, values: Config, a: set<object>, b: set<object>)
    requires ShowsAll(ss, values, a) && a <= b
    ensures ShowsAll(ss, values, b)
    decreases values, 1
  {
    forall i | 0 <= i < |ss| ensures Shows(ss[i], values[i], b) {
      ShowsMore(ss[i], values[i], a, b);
    }
  }

  // ---- The objects ----

  class NginxConfigStatement {
    var tokens: seq<string>
    var childBlock: NginxConfig?

    constructor ()
      ensures tokens == [] && childBlock == null
    {
      tokens, childBlock := [], null;
    }

    method ToString(depth: int, ghost value: Statement, ghost frozen: set<object>) returns (text: string)
      requires Shows(this, value, frozen)
      ensures text == PrintStatement(value, depth)
      decreases value, 1
    {
      text := AppendIndent("", depth);
      assert "" + Indent(depth) == Indent(depth);
      text := AppendWords(text);
      if childBlock != null {
        text := AppendBlock(text, depth, value, frozen);
      } else {
        text := text + ";";
      }
      text := text + "\n";
    }

    method AppendWords(text: string) returns (text': string)
      ensures text' == text + JoinWords(tokens)
    {
      text' := text;
      var j := 0;
      while j < |tokens|
        invariant 0 <= j <= |tokens|
        invariant text' + Remaining(tokens, j) == text + JoinWords(tokens)
      {
        var gap := if j == 0 then "" else " ";
        RemainingStep(tokens, j);
        Regroup3(text', gap + tokens[j], Remaining(tokens, j + 1));
        Regroup3(text', gap, tokens[j]);
        text' := text' + gap;
        text' := text' + tokens[j];
        j := j + 1;
      }
    }

    method AppendBlock(text: string, depth: int, ghost value: Statement, ghost frozen: set<object>)
      returns (text': string)
      requires Shows(this, value, frozen) && childBlock != null
      ensures text' == text + (" {\n" + Print(value.body, depth + 1) + Indent(depth) + "}")
      decreases value, 0
    {
      var inner := childBlock.ToString(depth + 1, value.body, frozen);
      text' := AppendIndent(text + " {\n" + inner, depth);
      text' := text' + "}";
      BlockEnd(text, Print(value.body, depth + 1), Indent(depth));
    }
  }

  method AppendIndent(text: string, depth: int) returns (text': string)
    ensures text' == text + Indent(depth)
  {
    text' := text;
    var i := 0;
    while i < depth
      invariant i <= depth || i == 0
      invariant text' + Indent(depth - i) == text + Indent(depth)
    {
      Regroup3(text', "  ", Indent(depth - i - 1));
      text' := text' + "  ";
      i := i + 1;
    }
    assert text' + "" == text';
  }

  class NginxConfig {
    var statements: seq<NginxConfigStatement>
    var filesystemMap: map<string, map<string, string>>  // handler type -> (location -> root)

    constructor ()
      ensures statements == [] && filesystemMap == map[]
    {
      statements, filesystemMap := [], map[];
    }

    method ToString(depth: int, ghost value: Config, ghost frozen: set<object>) returns (text: string)
      requires ShowsAll(statements, value, frozen)
      ensures text == Print(value, depth)
      decreases value, 0
    {
      text := "";
      for i := 0 to |statements|
        invariant text + Print(value[i..], depth) == Print(value, depth)
      {
        assert value[i..][0] == value[i] && value[i..][1..] == value[i + 1..];
        var part := statements[i].ToString(depth, value[i], frozen);
        Regroup3(text, part, Print(value[i + 1..], depth));
        text := text + part;
      }
      assert text + "" == text;
    }

    // Fills filesystemMap from the location blocks of the top-level server blocks.
    method ExtractFilesystemMap(ghost value: Config, ghost frozen: set<object>)
      requires ShowsAll(statements, value, frozen) && this !in frozen
      requires Extractable(value)
      modifies this`filesystemMap
      ensures filesystemMap == InsertAll(old(filesystemMap), Entries(value))
      ensures Extracts(old(filesystemMap), value, filesystemMap)
    {
      EntriesExtract(filesystemMap, value);
      assert value[0..] == value;
      for i := 0 to |statements|
        invariant InsertAll(filesystemMap, Entries(value[i..])) == InsertAll(old(filesystemMap), Entries(value))
        invariant ShowsAll(statements, value, frozen)
      {
        ghost var later := Entries(value[i + 1..]);
        assert Shows(statements[i], value[i], frozen) && value[i].tokens != [];
        EntriesHead(value, i);
        if statements[i].tokens[0] == "server" && statements[i].childBlock != null {
          ExtractServer(statements[i].childBlock, value[i].body, later, frozen);
        }
      }
      assert value[|statements|..] == [];
    }

    method ExtractServer(server: NginxConfig, ghost lines: Config, ghost later: seq<Entry>, ghost frozen: set<object>)
      requires ShowsAll(server.statements, lines, frozen) && server in frozen && this !in frozen
      requires LocatableServer(lines) && ExtractableServer(lines)
      modifies this`filesystemMap
      ensures InsertAll(filesystemMap, later)
           == InsertAll(old(filesystemMap), EntriesOf(ServerSites(lines)) + later)
    {
      assert lines[0..] == lines;
      for j := 0 to |server.statements|
        invariant InsertAll(filesystemMap, EntriesOf(ServerSites(lines[j..])) + later)
               == InsertAll(old(filesystemMap), EntriesOf(ServerSites(lines)) + later)
        invariant ShowsAll(server.statements, lines, frozen)
      {
        assert Shows(server.statements[j], lines[j], frozen) && lines[j].tokens != [];
        var blockLine := server.statements[j];
        ServerEntriesHead(lines, j, later);
        if blockLine.tokens[0] != "location" { continue; }
        assert LocatableBlock(lines[j]);
        ghost var rest := EntriesOf(ServerSites(lines[j + 1..])) + later;
        ExtractLocation(blockLine, lines[j], rest, frozen);
      }
      assert lines[|server.statements|..] == [];
      assert EntriesOf([]) + later == later;
    }

    method ExtractLocation(blockLine: NginxConfigStatement, ghost value: Statement, ghost later: seq<Entry>,
                           ghost frozen: set<object>)
      requires Shows(blockLine, value, frozen) && LocatableBlock(value) && this !in frozen
      requires value.body != [] ==> |value.tokens| >= 3
      modifies this`filesystemMap
      ensures InsertAll(filesystemMap, later)
           == InsertAll(old(filesystemMap), EntriesOf(LocationSites(value, value.body)) + later)
    {
      ghost var body := value.body;
      ghost var total := InsertAll(filesystemMap, EntriesOf(LocationSites(value, body)) + later);
      assert body[0..] == body;
      for k := 0 to |blockLine.childBlock.statements|
        invariant InsertAll(filesystemMap, EntriesOf(LocationSites(value, body[k..])) + later) == total
        invariant Shows(blockLine, value, frozen)
      {
        assert Shows(blockLine.childBlock.statements[k], body[k], frozen);
        ghost var rest := EntriesOf(LocationSites(value, body[k + 1..])) + later;
        LocationEntriesHead(value, body, k, later);
        InsertHead(filesystemMap, EntryOf(Site(value, body[k])), rest);
        var locationPath := HandleTrailingSlashes(blockLine.tokens[1]);
        var handler := blockLine.tokens[2];
        var root := blockLine.childBlock.statements[k].tokens[1];
        filesystemMap := Insert(filesystemMap, Entry(handler, locationPath, root));
      }
      assert body[|blockLine.childBlock.statements|..] == [];
      assert EntriesOf([]) + later == later;
    }

    // True when the second word of every line of every location is a relative path.
    method ValidateRelativePaths(relative: string -> bool, ghost value: Config, ghost frozen: set<object>)
      returns (ok: bool)
      requires ShowsAll(statements, value, frozen) && !Validate(value, relative).Broken?
      ensures ok <==> PathsRelative(value, relative)
      ensures ok ==> Locatable(value)
    {
      RelativeIff(value, relative);
      ValidateMeans(value, relative);
      assert value[0..] == value;
      for i := 0 to |statements|
        invariant Validate(value[i..], relative) == Validate(value, relative)
      {
        assert Shows(statements[i], value[i], frozen);
        assert value[i..][0] == value[i] && value[i..][1..] == value[i + 1..];
        if statements[i].tokens[0] == "server" && statements[i].childBlock != null {
          var here := statements[i].childBlock.ValidateServer(relative, value[i].body, frozen);
          if !here { return false; }
        }
      }
      return true;
    }

    method ValidateServer(relative: string -> bool, ghost lines: Config, ghost frozen: set<object>)
      returns (ok: bool)
      requires ShowsAll(statements, lines, frozen) && !RouteMap.ValidateServer(lines, relative).Broken?
      ensures ok <==> RouteMap.ValidateServer(lines, relative).Pass?
    {
      assert lines[0..] == lines;
      for j := 0 to |statements|
        invariant RouteMap.ValidateServer(lines[j..], relative) == RouteMap.ValidateServer(lines, relative)
      {
        assert Shows(statements[j], lines[j], frozen);
        assert lines[j..][0] == lines[j] && lines[j..][1..] == lines[j + 1..];
        var blockLine := statements[j];
        if blockLine.tokens[0] != "location" { continue; }
        var here := ValidateLines(blockLine, relative, lines[j], frozen);
        if !here { return false; }
      }
      return true;
    }

    // The port of the first "listen" line that no other one hides, or -1.
    method GetPort(atoi: string -> int, ghost value: Config, ghost frozen: set<object>) returns (port: int)
      requires ShowsAll(statements, value, frozen)
      ensures port == PortOf(value, atoi)
      ensures FirstPort(Visible(value), atoi, port) && -1 <= port <= MAX_PORT
      decreases value
    {
      PortIsFirstVisible(value, atoi);
      port := -1;
      assert value[0..] == value;
      for i := 0 to |statements|
        invariant DirectListen(value[i..]) == DirectListen(value)
      {
        assert Shows(statements[i], value[i], frozen);
        assert value[i..][0] == value[i] && value[i..][1..] == value[i + 1..];
        var s := statements[i];
        if s.childBlock == null && |s.tokens| == 2 && s.tokens[0] == "listen" {
          if !IsDigits(CStr(s.tokens[1])) { return -1; }
          port := atoi(CStr(s.tokens[1]));
          if 0 <= port <= MAX_PORT { return port; }
          return -1;
        }
      }
      for i := 0 to |statements|
        invariant BlockPort(value[i..], atoi) == BlockPort(value, atoi)
      {
        assert Shows(statements[i], value[i], frozen);
        assert value[i..][0] == value[i] && value[i..][1..] == value[i + 1..];
        if statements[i].childBlock != null {
          port := statements[i].childBlock.GetPort(atoi, value[i].body, frozen);
          if port != -1 { return port; }
        }
      }
      return -1;
    }
  }

  method ValidateLines(blockLine: NginxConfigStatement, relative: string -> bool, ghost value: Statement,
                       ghost frozen: set<object>)
    returns (ok: bool)
    requires Shows(blockLine, value, frozen) && value.Block? && !ValidateLocation(value.body, relative).Broken?
    ensures ok <==> ValidateLocation(value.body, relative).Pass?
  {
    ghost var body := value.body;
    assert body[0..] == body;
    for k := 0 to |blockLine.childBlock.statements|
      invariant ValidateLocation(body[k..], relative) == ValidateLocation(body, relative)
    {
      assert Shows(blockLine.childBlock.statements[k], body[k], frozen);
      assert body[k..][0] == body[k] && body[k..][1..] == body[k + 1..];
      if !relative(blockLine.childBlock.statements[k].tokens[1]) { return false; }
    }
    return true;
  }

  // ---- What is left of the lines after each loop step ----

  lemma EntriesHead(c: Config, i: nat)
    requires i < |c|
    ensures Entries(c[i..])
         == if IsServer(c[i]) then EntriesOf(ServerSites(c[i].body)) + Entries(c[i + 1..]) else Entries(c[i + 1..])
  {
    assert c[i..][1..] == c[i + 1..] && c[i..][0] == c[i];
    EntriesConcat(if IsServer(c[i]) then ServerSites(c[i].body) else [], Sites(c[i + 1..]));
  }

  lemma ServerEntriesHead(lines: Config, j: nat, later: seq<Entry>)
    requires j < |lines|
    ensures EntriesOf(ServerSites(lines[j..])) + later
         == var rest := EntriesOf(ServerSites(lines[j + 1..])) + later;
            if IsLocation(lines[j]) && lines[j].Block?
            then EntriesOf(LocationSites(lines[j], lines[j].body)) + rest
            else rest
  {
    assert lines[j..][1..] == lines[j + 1..] && lines[j..][0] == lines[j];
    var rest := ServerSites(lines[j + 1..]);
    if IsLocation(lines[j]) && lines[j].Block? {
      var here := LocationSites(lines[j], lines[j].body);
      EntriesConcat(here, rest);
      Regroup3(EntriesOf(here), EntriesOf(rest), later);
    } else {
      assert [] + rest == rest;
    }
  }

  lemma LocationEntriesHead(value: Statement, body: Config, k: nat, later: seq<Entry>)
    requires k < |body|
    ensures EntriesOf(LocationSites(value, body[k..])) + later
         == [EntryOf(Site(value, body[k]))] + (EntriesOf(LocationSites(value, body[k + 1..])) + later)
  {
    assert body[k..][1..] == body[k + 1..] && body[k..][0] == body[k];
    EntriesConcat([Site(value, body[k])], LocationSites(value, body[k + 1..]));
    assert EntriesOf([Site(value, body[k])]) == [EntryOf(Site(value, body[k]))];
  }

  // ---- Helpers for the printing loops ----

  ghost function Remaining(ts: seq<string>, j: nat): string
    requires j <= |ts|
  {
    (if 0 < j < |ts| then " " else "") + JoinWords(ts[j..])
  }

  lemma RemainingStep(ts: seq<string>, j: nat)
    requires j < |ts|
    ensures Remaining(ts, j) == (if j == 0 then "" else " ") + ts[j] + Remaining(ts, j + 1)
  {
    assert ts[j..][0] == ts[j] && ts[j..][1..] == ts[j + 1..];
  }

  lemma BlockEnd(head: string, body: string, indent: string)
    ensures head + " {\n" + body + indent + "}" == head + (" {\n" + body + indent + "}")
  {
  }
}
