// From a configuration tree to handler type -> (location -> root): extract_filesystem_map,
// validate_relative_paths and handle_trailing_slashes.
module RouteMap {
  import opened Wrappers
  import opened ConfigSyntax

  type FilesystemMap = map<string, map<string, string>>

  // ---- Slash normalisation ----

  function StripSlashes(s: string): string {
    if s != "" && s[|s| - 1] == '/' then StripSlashes(s[..|s| - 1]) else s
  }

  // handle_trailing_slashes: drop the slashes at the end, then append one.
  function HandleTrailingSlashes(s: string): string {
    StripSlashes(s) + "/"
  }

  function Slashes(n: nat): string { seq(n, _ => '/') }

  lemma {:induction false} StripSlashesShape(s: string) returns (n: nat)
    ensures s == StripSlashes(s) + Slashes(n)
    ensures StripSlashes(s) == "" || StripSlashes(s)[|StripSlashes(s)| - 1] != '/'
  {
    if s != "" && s[|s| - 1] == '/' {
      var k := StripSlashesShape(s[..|s| - 1]);
      n := k + 1;
      assert Slashes(n) == Slashes(k) + "/";
      assert s == s[..|s| - 1] + "/";
    } else {
      n := 0;
    }
  }

  lemma {:induction false} StripSlashesPadded(core: string, n: nat)
    ensures StripSlashes(core + Slashes(n)) == StripSlashes(core)
    decreases n
  {
    var s := core + Slashes(n);
    if n == 0 {
      assert s == core;
    } else {
      assert s[..|s| - 1] == core + Slashes(n - 1);
      StripSlashesPadded(core, n - 1);
    }
  }

  // Two locations share a key exactly when they differ only in trailing slashes.
  lemma SameKeyIff(a: string, b: string)
    ensures HandleTrailingSlashes(a) == HandleTrailingSlashes(b)
       <==> exists core, m: nat, n: nat :: a == core + Slashes(m) && b == core + Slashes(n)
  {
    if HandleTrailingSlashes(a) == HandleTrailingSlashes(b) {
      assert StripSlashes(a) == HandleTrailingSlashes(a)[..|HandleTrailingSlashes(a)| - 1];
      assert StripSlashes(b) == HandleTrailingSlashes(b)[..|HandleTrailingSlashes(b)| - 1];
      var m := StripSlashesShape(a);
      var n := StripSlashesShape(b);
    }
    forall core, m: nat, n: nat | a == core + Slashes(m) && b == core + Slashes(n)
      ensures HandleTrailingSlashes(a) == HandleTrailingSlashes(b)
    {
      StripSlashesPadded(core, m);
      StripSlashesPadded(core, n);
    }
  }

  // ---- The lines that matter ----

  // A line inside a location block inside a top-level server block.
  datatype Site = Site(location: Statement, line: Statement)

  predicate IsServer(s: Statement) {
    s.Block? && s.tokens != [] && s.tokens[0] == "server"
  }

  predicate IsLocation(s: Statement) {
    s.tokens != [] && s.tokens[0] == "location"
  }

  function Sites(c: Config): seq<Site> {
    if c == [] then []
    else (if IsServer(c[0]) then ServerSites(c[0].body) else []) + Sites(c[1..])
  }

  function ServerSites(lines: Config): seq<Site> {
    if lines == [] then []
    else (if IsLocation(lines[0]) && lines[0].Block? then LocationSites(lines[0], lines[0].body) else [])
         + ServerSites(lines[1..])
  }

  function LocationSites(location: Statement, lines: Config): seq<Site> {
    if lines == [] then [] else [Site(location, lines[0])] + LocationSites(location, lines[1..])
  }

  // What both passes dereference without checking.
  ghost predicate Locatable(c: Config) {
    forall i :: 0 <= i < |c| ==> c[i].tokens != [] && (IsServer(c[i]) ==> LocatableServer(c[i].body))
  }

  ghost predicate LocatableServer(lines: Config) {
    forall j :: 0 <= j < |lines| ==> lines[j].tokens != [] && (IsLocation(lines[j]) ==> LocatableBlock(lines[j]))
  }

  ghost predicate LocatableBlock(s: Statement) {
    s.Block? && forall k :: 0 <= k < |s.body| ==> |s.body[k].tokens| >= 2
  }

  // What extraction needs besides: a location and a handler type on each location that has lines.
  ghost predicate Extractable(c: Config) {
    && Locatable(c)
    && forall i :: 0 <= i < |c| && IsServer(c[i]) ==> ExtractableServer(c[i].body)
  }

  ghost predicate ExtractableServer(lines: Config) {
    forall j :: 0 <= j < |lines| && IsLocation(lines[j]) && lines[j].Block? && lines[j].body != [] ==>
      |lines[j].tokens| >= 3
  }

  // ---- Entries ----

  datatype Entry = Entry(handler: string, location: string, root: string)

  // The guards never fail on an extractable tree.
  function EntryOf(s: Site): Entry {
    if |s.location.tokens| >= 3 && |s.line.tokens| >= 2 then
      Entry(s.location.tokens[2], HandleTrailingSlashes(s.location.tokens[1]), s.line.tokens[1])
    else Entry("", "/", "")
  }

  function EntriesOf(ss: seq<Site>): seq<Entry> {
    seq(|ss|, i requires 0 <= i < |ss| => EntryOf(ss[i]))
  }

  function Entries(c: Config): seq<Entry> { EntriesOf(Sites(c)) }

  lemma EntriesConcat(a: seq<Site>, b: seq<Site>)
    ensures EntriesOf(a + b) == EntriesOf(a) + EntriesOf(b)
  {
  }

  // filesystem_map_[handler].insert({location, root}): an existing location is kept.
  function Insert(m: FilesystemMap, e: Entry): FilesystemMap {
    var inner := if e.handler in m then m[e.handler] else map[];
    m[e.handler := if e.location in inner then inner else inner[e.location := e.root]]
  }

  function InsertAll(m: FilesystemMap, es: seq<Entry>): FilesystemMap
    decreases |es|
  {
    if es == [] then m else InsertAll(Insert(m, es[0]), es[1..])
  }

  lemma InsertHead(m: FilesystemMap, e: Entry, rest: seq<Entry>)
    ensures InsertAll(m, [e] + rest) == InsertAll(Insert(m, e), rest)
  {
    assert ([e] + rest)[1..] == rest;
  }

  function Lookup(m: FilesystemMap, handler: string, location: string): Option<string> {
    if handler in m && location in m[handler] then Some(m[handler][location]) else None
  }

  // ---- First wins ----

  predicate Matches(e: Entry, handler: string, location: string) {
    e.handler == handler && e.location == location
  }

  ghost predicate FirstAt(es: seq<Entry>, handler: string, location: string, i: nat) {
    i < |es| && Matches(es[i], handler, location) && forall j :: 0 <= j < i ==> !Matches(es[j], handler, location)
  }

  ghost predicate NoMatch(es: seq<Entry>, handler: string, location: string) {
    forall j :: 0 <= j < |es| ==> !Matches(es[j], handler, location)
  }

  lemma {:induction false} InsertAllKeeps(m: FilesystemMap, es: seq<Entry>, handler: string, location: string)
    requires Lookup(m, handler, location).Some?
    ensures Lookup(InsertAll(m, es), handler, location) == Lookup(m, handler, location)
    decreases |es|
  {
    if es != [] { InsertAllKeeps(Insert(m, es[0]), es[1..], handler, location); }
  }

  // A location new to the map gets the root of its first matching line, and nothing else is added.
  lemma {:induction false} FirstWins(m: FilesystemMap, es: seq<Entry>, handler: string, location: string)
    requires Lookup(m, handler, location).None?
    ensures Lookup(InsertAll(m, es), handler, location).None? <==> NoMatch(es, handler, location)
    ensures forall i: nat :: FirstAt(es, handler, location, i) ==>
              Lookup(InsertAll(m, es), handler, location) == Some(es[i].root)
    decreases |es|
  {
    if es != [] {
      var m', rest := Insert(m, es[0]), es[1..];
      if Matches(es[0], handler, location) {
        InsertAllKeeps(m', rest, handler, location);
      } else {
        FirstWins(m', rest, handler, location);
        assert forall j :: 0 <= j < |rest| ==> rest[j] == es[j + 1];
        if NoMatch(rest, handler, location) {
          forall j | 0 <= j < |es| ensures !Matches(es[j], handler, location) {
            if j > 0 { assert rest[j - 1] == es[j]; }
          }
        }
        forall i: nat | FirstAt(es, handler, location, i)
          ensures Lookup(InsertAll(m, es), handler, location) == Some(es[i].root)
        {
          assert FirstAt(rest, handler, location, i - 1);
        }
      }
    }
  }

  lemma {:induction false} InsertAllPresent(m: FilesystemMap, es: seq<Entry>)
    requires forall i :: 0 <= i < |es| ==> Lookup(m, es[i].handler, es[i].location).Some?
    ensures InsertAll(m, es) == m
    decreases |es|
  {
    if es != [] {
      assert Lookup(m, es[0].handler, es[0].location).Some?;
      assert Insert(m, es[0]) == m;
      assert forall i :: 0 <= i < |es[1..]| ==> es[1..][i] == es[i + 1];
      InsertAllPresent(m, es[1..]);
    }
  }

  // Running the extraction a second time changes nothing.
  lemma ExtractTwice(m: FilesystemMap, es: seq<Entry>)
    ensures InsertAll(InsertAll(m, es), es) == InsertAll(m, es)
  {
    forall i | 0 <= i < |es| ensures Lookup(InsertAll(m, es), es[i].handler, es[i].location).Some? {
      if Lookup(m, es[i].handler, es[i].location).Some? {
        InsertAllKeeps(m, es, es[i].handler, es[i].location);
      } else {
        FirstWins(m, es, es[i].handler, es[i].location);
        assert Matches(es[i], es[i].handler, es[i].location);
      }
    }
    InsertAllPresent(InsertAll(m, es), es);
  }

  // ---- Relative paths ----

  // What validate_relative_paths answers, for any reading of "relative".
  ghost predicate AllRelative(ss: seq<Site>, relative: string -> bool) {
    forall i :: 0 <= i < |ss| && |ss[i].line.tokens| >= 2 ==> relative(ss[i].line.tokens[1])
  }

  // validate_relative_paths stops at the first absolute path; Broken is what it dereferences
  // unchecked before that.
  datatype Verdict = Pass | Absolute | Broken

  function Validate(c: Config, relative: string -> bool): Verdict {
    if c == [] then Pass
    else if c[0].tokens == [] then Broken
    else
      var here := if IsServer(c[0]) then ValidateServer(c[0].body, relative) else Pass;
      if here.Pass? then Validate(c[1..], relative) else here
  }

  function ValidateServer(lines: Config, relative: string -> bool): Verdict {
    if lines == [] then Pass
    else if lines[0].tokens == [] then Broken
    else if !IsLocation(lines[0]) then ValidateServer(lines[1..], relative)
    else if !lines[0].Block? then Broken
    else
      var here := ValidateLocation(lines[0].body, relative);
      if here.Pass? then ValidateServer(lines[1..], relative) else here
  }

  function ValidateLocation(lines: Config, relative: string -> bool): Verdict {
    if lines == [] then Pass
    else if |lines[0].tokens| < 2 then Broken
    else if !relative(lines[0].tokens[1]) then Absolute
    else ValidateLocation(lines[1..], relative)
  }

  lemma AllRelativeConcat(a: seq<Site>, b: seq<Site>, relative: string -> bool)
    ensures AllRelative(a + b, relative) <==> AllRelative(a, relative) && AllRelative(b, relative)
  {
    if AllRelative(a + b, relative) {
      assert forall i :: 0 <= i < |a| ==> a[i] == (a + b)[i];
      assert forall i :: 0 <= i < |b| ==> b[i] == (a + b)[|a| + i];
    }
  }

  // The early stop loses nothing: a tree passes exactly when it has the shape and all its paths are
  // relative, and unless it is broken the answer is about all paths.
  lemma {:induction false} ValidateMeans(c: Config, relative: string -> bool)
    ensures Validate(c, relative).Pass? <==> Locatable(c) && AllRelative(Sites(c), relative)
    ensures Validate(c, relative).Absolute? ==> !AllRelative(Sites(c), relative)
  {
    if c != [] {
      ValidateMeans(c[1..], relative);
      var here := if IsServer(c[0]) then ServerSites(c[0].body) else [];
      AllRelativeConcat(here, Sites(c[1..]), relative);
      if IsServer(c[0]) { ValidateServerMeans(c[0].body, relative); }
      LocatableHead(c);
    }
  }

  lemma LocatableHead(c: Config)
    requires c != []
    ensures Locatable(c)
       <==> c[0].tokens != [] && (IsServer(c[0]) ==> LocatableServer(c[0].body)) && Locatable(c[1..])
  {
    assert forall i :: 0 < i < |c| ==> c[i] == c[1..][i - 1];
  }

  lemma LocatableServerHead(lines: Config)
    requires lines != []
    ensures LocatableServer(lines)
       <==> lines[0].tokens != [] && (IsLocation(lines[0]) ==> LocatableBlock(lines[0])) && LocatableServer(lines[1..])
  {
    assert forall i :: 0 < i < |lines| ==> lines[i] == lines[1..][i - 1];
  }

  lemma {:induction false} ValidateServerMeans(lines: Config, relative: string -> bool)
    ensures ValidateServer(lines, relative).Pass?
       <==> LocatableServer(lines) && AllRelative(ServerSites(lines), relative)
    ensures ValidateServer(lines, relative).Absolute? ==> !AllRelative(ServerSites(lines), relative)
  {
    if lines != [] {
      var s := lines[0];
      ValidateServerMeans(lines[1..], relative);
      var here := if IsLocation(s) && s.Block? then LocationSites(s, s.body) else [];
      AllRelativeConcat(here, ServerSites(lines[1..]), relative);
      if s.Block? { ValidateLocationMeans(s, s.body, relative); }
      LocatableServerHead(lines);
    }
  }

  lemma {:induction false} ValidateLocationMeans(location: Statement, lines: Config, relative: string -> bool)
    ensures ValidateLocation(lines, relative).Pass?
       <==> (forall k :: 0 <= k < |lines| ==> |lines[k].tokens| >= 2)
            && AllRelative(LocationSites(location, lines), relative)
    ensures ValidateLocation(lines, relative).Absolute? ==> !AllRelative(LocationSites(location, lines), relative)
  {
    if lines != [] {
      ValidateLocationMeans(location, lines[1..], relative);
      AllRelativeConcat([Site(location, lines[0])], LocationSites(location, lines[1..]), relative);
      assert AllRelative([Site(location, lines[0])], relative)
        <==> (|lines[0].tokens| >= 2 ==> relative([Site(location, lines[0])][0].line.tokens[1]));
      assert forall k :: 0 < k < |lines| ==> lines[k] == lines[1..][k - 1];
    }
  }

  lemma LocationSitesFrom(location: Statement, lines: Config)
    ensures |LocationSites(location, lines)| == |lines|
    ensures forall i :: 0 <= i < |lines| ==> LocationSites(location, lines)[i] == Site(location, lines[i])
  {
  }

  lemma {:induction false} SitesFit(c: Config)
    requires Extractable(c)
    ensures forall s :: s in Sites(c) ==> |s.location.tokens| >= 3 && |s.line.tokens| >= 2
  {
    if c != [] {
      assert Extractable(c[1..]) by { assert forall i :: 0 <= i < |c[1..]| ==> c[1..][i] == c[i + 1]; }
      SitesFit(c[1..]);
      if IsServer(c[0]) { ServerSitesFit(c[0].body); }
    }
  }

  lemma {:induction false} ServerSitesFit(lines: Config)
    requires LocatableServer(lines) && ExtractableServer(lines)
    ensures forall s :: s in ServerSites(lines) ==> |s.location.tokens| >= 3 && |s.line.tokens| >= 2
  {
    if lines != [] {
      assert LocatableServer(lines[1..]) && ExtractableServer(lines[1..]) by {
        assert forall i :: 0 <= i < |lines[1..]| ==> lines[1..][i] == lines[i + 1];
      }
      ServerSitesFit(lines[1..]);
      if IsLocation(lines[0]) {
        assert LocatableBlock(lines[0]);
        LocationSitesFrom(lines[0], lines[0].body);
      }
    }
  }

  // If the tree validates, every root in the extracted map is relative.
  lemma StoredPathsAreRelative(c: Config, relative: string -> bool, handler: string, location: string)
    requires Extractable(c) && AllRelative(Sites(c), relative)
    ensures var r := Lookup(InsertAll(map[], Entries(c)), handler, location);
            r.Some? ==> relative(r.value)
  {
    var es := Entries(c);
    FirstWins(map[], es, handler, location);
    if !NoMatch(es, handler, location) {
      var i := FirstMatch(es, handler, location);
      SitesFit(c);
      assert Sites(c)[i] in Sites(c);
    }
  }

  lemma {:induction false} FirstMatch(es: seq<Entry>, handler: string, location: string) returns (i: nat)
    requires !NoMatch(es, handler, location)
    ensures FirstAt(es, handler, location, i)
    decreases |es|
  {
    if Matches(es[0], handler, location) {
      i := 0;
    } else {
      assert !NoMatch(es[1..], handler, location) by {
        var j :| 0 <= j < |es| && Matches(es[j], handler, location);
        assert es[1..][j - 1] == es[j];
      }
      i := FirstMatch(es[1..], handler, location);
      i := i + 1;
      assert forall j :: 0 < j < |es| ==> es[j] == es[1..][j - 1];
    }
  }
}
