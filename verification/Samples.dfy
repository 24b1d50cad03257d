// The constants of the model, written out on small inputs.
module Samples {
  import opened Wrappers
  import opened Sequences
  import opened ConfigSyntax
  import opened Lexer
  import opened BlockStack
  import opened Printer
  import opened RouteMap
  import opened PortSearch
  import opened Routing
  import opened FileIds
  import opened Paths
  import FileStore
  import ApiHandler

  // ---- Characters ----

  // White space in front of a token.
  lemma WhiteSkipped(c: char)
    ensures NextLexeme([c] + ";") == Lexeme(StatementEnd, ";", "")
       <==> c == ' ' || c == '\t' || c == '\n' || c == '\r'
  {
    var s := [c] + ";";
    assert s[0] == c && s[1..] == ";" && ";"[1..] == "" && "" + [c] == [c];
    assert Scan(InitialWhitespace, "", ";") == Lexeme(StatementEnd, ";", "");
    if c == '#' { assert Scan(InComment, [c], ";").kind.EndOfFile?; }
    if Quote(c) { assert Scan(InQuote(c), [c], ";").kind.Error?; }
    if BareStart(c) { assert Scan(InBare, [c], ";") == Lexeme(Normal, [c], ";"); }
  }

  // What ends a bare word: a carriage return does not.
  lemma WordEnds(c: char)
    ensures NextLexeme("a" + [c]) == Lexeme(Normal, "a", [c])
       <==> c == ' ' || c == '\t' || c == '\n' || c == ';' || c == '{' || c == '}'
  {
    var s := "a" + [c];
    assert s[0] == 'a' && s[1..] == [c] && "" + ['a'] == "a" && [c][0] == c && [c][1..] == "";
    assert NextLexeme(s) == Scan(InBare, "a", [c]);
  }

  // What ends a comment.
  lemma CommentEnds(c: char)
    ensures NextLexeme("#" + [c]).kind.Comment? <==> c == '\n' || c == '\r'
  {
    var s := "#" + [c];
    assert s[0] == '#' && s[1..] == [c] && [c][0] == c && [c][1..] == "";
    assert NextLexeme(s) == Scan(InComment, ['#'], [c]);
  }

  // Either quote holds a blank, up to the same quote.
  lemma QuotesMatch(q: char)
    requires q == '\'' || q == '"'
    ensures NextLexeme([q] + " " + [q] + ";") == Lexeme(Normal, [q] + " " + [q], ";")
  {
    var s := [q] + " " + [q] + ";";
    assert s[0] == q && s[1..] == " " + [q] + ";" && s[1..][1..] == [q] + ";" && s[1..][1..][1..] == ";";
    assert NextLexeme(s) == Scan(InQuote(q), [q], s[1..]);
    assert Scan(InQuote(q), [q], s[1..]) == Scan(InQuote(q), [q] + [' '], s[1..][1..]);
    assert Scan(InQuote(q), [q] + [' '], s[1..][1..]) == Lexeme(Normal, [q] + [' '] + [q], ";");
  }

  // No other character opens a quote: such a text is not one word.
  lemma OthersDoNotQuote(q: char)
    requires q != '\'' && q != '"'
    ensures NextLexeme([q] + " " + [q] + ";") != Lexeme(Normal, [q] + " " + [q], ";")
  {
    var s := [q] + " " + [q] + ";";
    assert s[0] == q && s[1..] == " " + [q] + ";" && "" + [q] == [q];
    if BareStart(q) {
      assert Scan(InBare, [q], s[1..]) == Lexeme(Normal, [q], s[1..]);
      assert |[q]| != |[q] + " " + [q]|;
    } else if White(q) {
      WhiteThenOne(q);
      assert NextLexeme(s) == Scan(InitialWhitespace, "", " " + [q] + ";");
      assert |";"| != |[q] + " " + [q]|;
    } else if q == '#' {
      CommentNotWord([q], s[1..]);
    }
  }

  lemma WhiteThenOne(q: char)
    requires White(q)
    ensures Scan(InitialWhitespace, "", " " + [q] + ";").value == ";"
  {
    var s := " " + [q] + ";";
    assert s[0] == ' ' && s[1..] == [q] + ";";
    var one := [q] + ";";
    assert one[0] == q && one[1..] == ";" && ";"[1..] == "";
    assert Scan(InitialWhitespace, "", ";") == Lexeme(StatementEnd, ";", "");
    assert Scan(InitialWhitespace, "", one) == Scan(InitialWhitespace, "", ";");
  }

  // ---- A text, its tree, and the text again ----

  function NestedTree(): Config {
    [Block(["a", "b"], [Block(["c"], [Line(["d"])])]), Line(["e"])]
  }

  lemma NestedTreePrintable()
    ensures Printable(NestedTree())
  {
    var d, e := Line(["d"]), Line(["e"]);
    var inner := Block(["c"], [d]);
    var outer := Block(["a", "b"], [inner]);
    assert BareWord("a") && BareWord("b") && BareWord("c") && BareWord("d") && BareWord("e");
    assert AllStatementWords(d, Relexable) && AllStatementWords(e, Relexable);
    assert AllWords([d], Relexable) && AllStatementWords(inner, Relexable);
    assert AllWords([inner], Relexable) && AllStatementWords(outer, Relexable);
    assert WellFormedStatement(d) && WellFormed([d]) && WellFormedStatement(inner) && WellFormed([inner]);
    assert WellFormedStatement(outer) && WellFormedStatement(e);
    assert NestedTree() == [outer, e];
  }

  lemma Indents()
    ensures Indent(0) == "" && Indent(1) == "  " && Indent(2) == "    " && JoinWords(["a", "b"]) == "a b"
  {
    assert Indent(1) == "  " + Indent(0);
    assert Indent(2) == "  " + Indent(1);
    assert ["a", "b"][1..] == ["b"];
  }

  lemma NestedStrings()
    ensures "    " + "d" + ";" + "\n" == "    d;\n"
    ensures "  " + "c" + (" {\n" + "    d;\n" + "  " + "}") + "\n" == "  c {\n    d;\n  }\n"
  {
  }

  // Top-level statements stand at the margin, inner ones are indented by two, words are joined by
  // one space; and the text is read back as the tree.
  lemma PrintedSample() returns (text: string)
    ensures text == "a b" + (" {\n" + "  c {\n    d;\n  }\n" + "" + "}") + "\n" + "e;\n"
    ensures Print(NestedTree(), 0) == text && ParseText(text) == Accepted(NestedTree())
  {
    var d, e := Line(["d"]), Line(["e"]);
    var inner := Block(["c"], [d]);
    var outer := Block(["a", "b"], [inner]);
    Indents();
    NestedStrings();
    PrintedLine(d, 2, "    d;\n");
    PrintedBlock(inner, 1, "    d;\n", "  c {\n    d;\n  }\n");
    var first := "" + "a b" + (" {\n" + "  c {\n    d;\n  }\n" + "" + "}") + "\n";
    PrintedBlock(outer, 0, "  c {\n    d;\n  }\n", first);
    PrintedLine(e, 0, "e;\n");
    text := first + "e;\n";
    var c := NestedTree();
    assert c == [outer, e] && c[1..] == [e];
    assert Print(c, 0) == PrintStatement(outer, 0) + Print([e], 0);
    NestedTreePrintable();
    PrintThenParse(c, 0);
  }

  lemma PrintedLine(s: Statement, depth: nat, text: string)
    requires s.Line? && text == Indent(depth) + JoinWords(s.tokens) + ";" + "\n"
    ensures Print([s], depth) == text
  {
    assert [s][1..] == [];
    assert PrintStatement(s, depth) + "" == text;
  }

  lemma PrintedBlock(s: Statement, depth: nat, inner: string, text: string)
    requires s.Block? && Print(s.body, depth + 1) == inner
    requires text == Indent(depth) + JoinWords(s.tokens) + (" {\n" + inner + Indent(depth) + "}") + "\n"
    ensures PrintStatement(s, depth) == text && Print([s], depth) == text
  {
    assert [s][1..] == [];
    assert PrintStatement(s, depth) + "" == text;
  }

  // ---- Numbers ----

  lemma DecimalDigits()
    ensures Decimal(0) == "0" && Decimal(7) == "7" && Decimal(10) == "10" && Decimal(907) == "907"
    ensures Value("0042") == 42 && Value("") == 0
  {
    assert Decimal(90) == Decimal(9) + "0" && Decimal(907) == Decimal(90) + "7";
    var s := "0042";
    assert s[..3] == "004" && "004"[..2] == "00" && "00"[..1] == "0" && "0"[..0] == "";
  }

  lemma Digits(c: char)
    ensures IsDigits([c]) <==> '0' <= c <= '9'
    ensures !IsDigits("")
  {
    assert [c][0] == c;
  }

  // A number is a port up to 65535, and no other number or word is one.
  lemma Ports(n: nat, atoi: string -> int)
    requires atoi(Decimal(n)) == n
    ensures PortIn(Decimal(n), atoi) == (if n <= 65535 then n else -1) && PortIn("", atoi) == PortIn("80x", atoi) == -1
    ensures PortOf([Line(["listen", Decimal(n)])], atoi) == PortIn(Decimal(n), atoi)
    ensures PortOf([Block(["server"], [Line(["listen", Decimal(n)])])], atoi) == PortIn(Decimal(n), atoi)
  {
    DecimalRoundTrip(n);
    DigitsAreWhole(Decimal(n));
    UpToStops("80x", "", '\0');
    assert "80x" + "" == "80x" && "80x"[2] == 'x';
    var line := Line(["listen", Decimal(n)]);
    var server := Block(["server"], [line]);
    assert [line][1..] == [] && [server][1..] == [];
    assert IsListen(line) && [line][0] == line && [server][0] == server;
    assert DirectListen([server]) == None && DirectListen([line]) == Some(Decimal(n));
    assert BlockPort([], atoi) == -1 && BlockPort([server], atoi) == PortOf([line], atoi);
  }

  lemma DigitsAreWhole(s: string)
    requires IsDigits(s)
    ensures CStr(s) == s
  {
    UpToStops(s, "", '\0');
    assert s + "" == s;
  }

  // ---- From the tree to the factory ----

  lemma BuiltInRoutes(m: FilesystemMap)
    ensures RouteOf(m, "/echo") == Some(Echo) && RouteOf(m, "/sleep") == Some(Sleep)
    ensures RouteOf(m, "/health") == Some(Health) && RouteOf(m, "/palette") == Some(Palette)
    ensures RouteOf(m, "/color") == Some(Color) && RouteOf(m, "/") == Some(NotFound)
    ensures RouteOf(m, "bad request") == Some(BadRequest)
  {
    assert |"/echo"| == 5 && |"/sleep"| == 6 && |"/health"| == 7 && |"/palette"| == 8 && |"/color"| == 6;
    assert "/sleep"[1] != "/color"[1] && |"/"| == 1 && |"bad request"| == 11;
  }

  lemma KeySample()
    ensures HandleTrailingSlashes("/a") == "/a/" && HandleTrailingSlashes("/a//") == "/a/"
    ensures HandleTrailingSlashes("") == "/" && HandleTrailingSlashes("/") == "/"
  {
    assert StripSlashes("/a") == "/a";
    assert "/a//"[..3] == "/a/" && "/a/"[..2] == "/a";
    assert "/"[..0] == "";
  }

  // One server with a port, a static location and an API location under any words.
  function SampleTree(port: string, location: string, root: string, api: string, data: string): Config {
    [Block(["server"], [
       Line(["listen", port]),
       Block(["location", location, "StaticHandler"], [Line(["root", root])]),
       Block(["location", api, "ApiHandler"], [Line(["data_path", data])])])]
  }

  lemma SampleSites(port: string, location: string, root: string, api: string, data: string) returns (c: Config)
    ensures c == SampleTree(port, location, root, api, data) && Extractable(c)
    ensures Entries(c) == [Entry("StaticHandler", HandleTrailingSlashes(location), root),
                           Entry("ApiHandler", HandleTrailingSlashes(api), data)]
  {
    c := SampleTree(port, location, root, api, data);
    var body := c[0].body;
    var first, second := body[1], body[2];
    assert |"listen"| == 6 && |"location"| == 8;
    assert c[1..] == [] && body[1..] == [first, second] && body[1..][1..] == [second] && [second][1..] == [];
    assert first.body[1..] == [] && second.body[1..] == [];
    assert LocatableBlock(first) && LocatableBlock(second);
    assert LocatableServer(body) && ExtractableServer(body);
    assert LocationSites(first, first.body) == [Site(first, first.body[0])];
    assert LocationSites(second, second.body) == [Site(second, second.body[0])];
    assert ServerSites([second]) == [Site(second, second.body[0])];
    assert ServerSites([first, second]) == [Site(first, first.body[0]), Site(second, second.body[0])];
    assert ServerSites(body) == [Site(first, first.body[0]), Site(second, second.body[0])];
    assert Sites(c) == ServerSites(body);
  }

  // The static location leads to its root, the API location to its data, under their keys.
  lemma SampleRoutes(port: string, location: string, root: string, api: string, data: string, c: Config)
    requires c == SampleTree(port, location, root, api, data)
    ensures var m, key := InsertAll(map[], Entries(c)), HandleTrailingSlashes(location);
            Lookup(m, "StaticHandler", key) == Some(root)
            && (key !in BUILT_IN ==> RouteOf(m, key) == Some(Static(key, root)))
    ensures var m, key := InsertAll(map[], Entries(c)), HandleTrailingSlashes(api);
            Lookup(m, "ApiHandler", key) == Some(data)
            && (key !in BUILT_IN && key != HandleTrailingSlashes(location) ==> RouteOf(m, key) == Some(Api(key, data)))
  {
    var tree := SampleSites(port, location, root, api, data);
    var a, b := Entries(c)[0], Entries(c)[1];
    assert Entries(c) == [a] + [b] && [b] == [b] + [];
    InsertHead(map[], a, [b]);
    InsertHead(Insert(map[], a), b, []);
    assert |"StaticHandler"| == 13 && |"ApiHandler"| == 10;
  }

  // ---- Texts and paths ----

  lemma RenderedSample()
    ensures FileStore.RenderList([]) == "[]" && FileStore.RenderList(["1", "20"]) == "[1, 20]"
    ensures ApiHandler.IdText("7") == "{\"id\": 7}"
    ensures FilePath("d", "s", "1") == "d/s/1" && DirPath("d", "s") == "d/s"
  {
    assert ["1", "20"][1..] == ["20"] && ["20"][1..] == [];
    assert FileStore.Listed(["20"]) == "20, ";
    assert FileStore.Listed(["1", "20"]) == "1, 20, ";
  }

  // A C string ends at the first NUL.
  lemma NulEnds(a: string, b: string)
    requires '\0' !in a
    ensures CStr(a + ['\0'] + b) == a
  {
    UpToStops(a, ['\0'] + b, '\0');
    Regroup3(a, ['\0'], b);
  }
}
