// What extraction and validation find, read off the tree by position alone.
module Extraction {
  import opened Wrappers
  import opened ConfigSyntax
  import opened RouteMap

  // ---- Places in the tree ----

  // l is the key of the word: trailing slashes dropped, then exactly one.
  ghost predicate KeyOf(word: string, l: string) {
    exists core, n: nat :: IsKeyOf(word, l, core, n)
  }

  ghost predicate IsKeyOf(word: string, l: string, core: string, n: nat) {
    word == core + Slashes(n) && l == core + "/" && (core == "" || core[|core| - 1] != '/')
  }

  // A location block for handler type h under the key l, with a line in it.
  ghost predicate Locates(s: Statement, h: string, l: string) {
    && s.Block? && s.body != [] && |s.tokens| >= 3
    && s.tokens[0] == "location" && KeyOf(s.tokens[1], l) && s.tokens[2] == h
  }

  // Statement i is a server block, and statement j in it such a location.
  ghost predicate LocatesAt(c: Config, i: nat, j: nat, h: string, l: string) {
    && i < |c| && c[i].Block? && c[i].tokens != [] && c[i].tokens[0] == "server"
    && j < |c[i].body| && Locates(c[i].body[j], h, l)
  }

  // The first such place in document order.
  ghost predicate FirstPlace(c: Config, i: nat, j: nat, h: string, l: string) {
    LocatesAt(c, i, j, h, l) && forall i': nat, j': nat :: LocatesAt(c, i', j', h, l) ==> i < i' || (i == i' && j <= j')
  }

  // The location's first line, the only one that counts, names the root.
  ghost predicate Names(s: Statement, root: string) {
    s.Block? && s.body != [] && |s.body[0].tokens| >= 2 && s.body[0].tokens[1] == root
  }

  // The root of the first place, and none if there is no place.
  ghost predicate RootIs(c: Config, h: string, l: string, r: Option<string>) {
    match r
    case None => forall i: nat, j: nat :: !LocatesAt(c, i, j, h, l)
    case Some(root) => exists i: nat, j: nat :: FirstPlace(c, i, j, h, l) && Names(c[i].body[j], root)
  }

  lemma RootIsUnique(c: Config, h: string, l: string, a: Option<string>, b: Option<string>)
    requires RootIs(c, h, l, a) && RootIs(c, h, l, b)
    ensures a == b
  {
    if a.Some? {
      var i: nat, j: nat :| FirstPlace(c, i, j, h, l) && Names(c[i].body[j], a.value);
    }
    if b.Some? {
      var i: nat, j: nat :| FirstPlace(c, i, j, h, l) && Names(c[i].body[j], b.value);
    }
  }

  lemma KeyIff(word: string, l: string)
    ensures KeyOf(word, l) <==> l == HandleTrailingSlashes(word)
  {
    var n := StripSlashesShape(word);
    assert IsKeyOf(word, HandleTrailingSlashes(word), StripSlashes(word), n);
    forall core, k: nat | IsKeyOf(word, l, core, k) ensures l == HandleTrailingSlashes(word) {
      StripSlashesPadded(core, k);
    }
  }

  // ---- The first root among entries ----

  function FirstRoot(es: seq<Entry>, h: string, l: string): Option<string> {
    if es == [] then None else if Matches(es[0], h, l) then Some(es[0].root) else FirstRoot(es[1..], h, l)
  }

  function OrElse(a: Option<string>, b: Option<string>): Option<string> { if a.Some? then a else b }

  lemma {:induction false} FirstRootConcat(a: seq<Entry>, b: seq<Entry>, h: string, l: string)
    ensures FirstRoot(a + b, h, l) == OrElse(FirstRoot(a, h, l), FirstRoot(b, h, l))
    decreases |a|
  {
    if a == [] {
      assert a + b == b;
    } else {
      assert (a + b)[1..] == a[1..] + b;
      FirstRootConcat(a[1..], b, h, l);
    }
  }

  lemma {:induction false} LookupIsFirstRoot(m: FilesystemMap, es: seq<Entry>, h: string, l: string)
    ensures Lookup(InsertAll(m, es), h, l) == OrElse(Lookup(m, h, l), FirstRoot(es, h, l))
    decreases |es|
  {
    if es != [] { LookupIsFirstRoot(Insert(m, es[0]), es[1..], h, l); }
  }

  // ---- From lines to places ----

  lemma LocationRoot(s: Statement, h: string, l: string)
    requires LocatableBlock(s) && IsLocation(s) && (s.body != [] ==> |s.tokens| >= 3)
    ensures var r := FirstRoot(EntriesOf(LocationSites(s, s.body)), h, l);
            && (r.Some? <==> Locates(s, h, l))
            && (r.Some? ==> Names(s, r.value))
  {
    var es := EntriesOf(LocationSites(s, s.body));
    LocationSitesFrom(s, s.body);
    if s.body != [] {
      KeyIff(s.tokens[1], l);
      assert es[0] == EntryOf(Site(s, s.body[0]));
      if !Matches(es[0], h, l) { NoneMatches(es, h, l); }
    }
  }

  lemma {:induction false} NoneMatches(es: seq<Entry>, h: string, l: string)
    requires forall k :: 0 <= k < |es| ==> !Matches(es[k], h, l)
    ensures FirstRoot(es, h, l).None?
    decreases |es|
  {
    if es != [] {
      assert forall k :: 0 <= k < |es[1..]| ==> es[1..][k] == es[k + 1];
      NoneMatches(es[1..], h, l);
    }
  }

  // The same relation inside one server block.
  ghost predicate ServerRootIs(lines: Config, h: string, l: string, r: Option<string>) {
    match r
    case None => forall j :: 0 <= j < |lines| ==> !Locates(lines[j], h, l)
    case Some(root) => exists j: nat :: FirstLocation(lines, j, h, l) && Names(lines[j], root)
  }

  ghost predicate FirstLocation(lines: Config, j: nat, h: string, l: string) {
    j < |lines| && Locates(lines[j], h, l) && forall j' :: 0 <= j' < j ==> !Locates(lines[j'], h, l)
  }

  lemma ServerRootTail(lines: Config, h: string, l: string, r: Option<string>)
    requires lines != [] && !Locates(lines[0], h, l) && ServerRootIs(lines[1..], h, l, r)
    ensures ServerRootIs(lines, h, l, r)
  {
    var rest := lines[1..];
    assert forall j :: 0 < j < |lines| ==> lines[j] == rest[j - 1];
    if r.Some? {
      var j: nat :| FirstLocation(rest, j, h, l) && Names(rest[j], r.value);
      assert FirstLocation(lines, j + 1, h, l) && Names(lines[j + 1], r.value);
    }
  }

  lemma {:induction false} ServerRoot(lines: Config, h: string, l: string)
    requires LocatableServer(lines) && ExtractableServer(lines)
    ensures ServerRootIs(lines, h, l, FirstRoot(EntriesOf(ServerSites(lines)), h, l))
  {
    if lines != [] {
      var s, rest := lines[0], lines[1..];
      assert LocatableServer(rest) && ExtractableServer(rest) by {
        assert forall i :: 0 <= i < |rest| ==> rest[i] == lines[i + 1];
      }
      ServerRoot(rest, h, l);
      var here := if IsLocation(s) then LocationSites(s, s.body) else [];
      var a, b := FirstRoot(EntriesOf(here), h, l), FirstRoot(EntriesOf(ServerSites(rest)), h, l);
      assert FirstRoot(EntriesOf(ServerSites(lines)), h, l) == OrElse(a, b) by {
        EntriesConcat(here, ServerSites(rest));
        FirstRootConcat(EntriesOf(here), EntriesOf(ServerSites(rest)), h, l);
      }
      if IsLocation(s) { LocationRoot(s, h, l); }
      if a.Some? {
        assert FirstLocation(lines, 0, h, l);
      } else {
        ServerRootTail(lines, h, l, b);
      }
    }
  }

  lemma RootTail(c: Config, h: string, l: string, r: Option<string>)
    requires c != [] && (forall j: nat :: !LocatesAt(c, 0, j, h, l)) && RootIs(c[1..], h, l, r)
    ensures RootIs(c, h, l, r)
  {
    var rest := c[1..];
    forall i: nat, j: nat ensures LocatesAt(c, i + 1, j, h, l) <==> LocatesAt(rest, i, j, h, l) {
      if i < |rest| { assert rest[i] == c[i + 1]; }
    }
    forall i: nat, j: nat | LocatesAt(c, i, j, h, l) ensures i > 0 && LocatesAt(rest, i - 1, j, h, l) {
      assert LocatesAt(c, (i - 1) + 1, j, h, l);
    }
    if r.Some? {
      var i: nat, j: nat :| FirstPlace(rest, i, j, h, l) && Names(rest[i].body[j], r.value);
      assert LocatesAt(c, i + 1, j, h, l);
      assert FirstPlace(c, i + 1, j, h, l) && c[i + 1] == rest[i];
    }
  }

  lemma RootHead(c: Config, h: string, l: string, root: string)
    requires c != [] && IsServer(c[0]) && ServerRootIs(c[0].body, h, l, Some(root))
    ensures RootIs(c, h, l, Some(root))
  {
    var j: nat :| FirstLocation(c[0].body, j, h, l) && Names(c[0].body[j], root);
    assert LocatesAt(c, 0, j, h, l);
    assert FirstPlace(c, 0, j, h, l);
  }

  lemma {:induction false} ConfigRoot(c: Config, h: string, l: string)
    requires Extractable(c)
    ensures RootIs(c, h, l, FirstRoot(Entries(c), h, l))
  {
    if c != [] {
      var rest := c[1..];
      assert Extractable(rest) by { assert forall i :: 0 <= i < |rest| ==> rest[i] == c[i + 1]; }
      ConfigRoot(rest, h, l);
      var here := if IsServer(c[0]) then ServerSites(c[0].body) else [];
      var a, b := FirstRoot(EntriesOf(here), h, l), FirstRoot(Entries(rest), h, l);
      assert FirstRoot(Entries(c), h, l) == OrElse(a, b) by {
        EntriesConcat(here, Sites(rest));
        FirstRootConcat(EntriesOf(here), Entries(rest), h, l);
      }
      if IsServer(c[0]) { ServerRoot(c[0].body, h, l); }
      if a.Some? {
        RootHead(c, h, l, a.value);
      } else {
        RootTail(c, h, l, b);
      }
    }
  }

  // The extracted map, for every handler type and key: the root of the first place, kept if there
  // was one before.
  lemma {:induction false} ExtractedIff(m: FilesystemMap, c: Config, h: string, l: string, r: Option<string>)
    requires Extractable(c)
    ensures Lookup(InsertAll(m, Entries(c)), h, l) == r
       <==> if Lookup(m, h, l).Some? then r == Lookup(m, h, l) else RootIs(c, h, l, r)
  {
    LookupIsFirstRoot(m, Entries(c), h, l);
    ConfigRoot(c, h, l);
    if RootIs(c, h, l, r) { RootIsUnique(c, h, l, r, FirstRoot(Entries(c), h, l)); }
  }

  // Every handler type and key looked up: what was there stays, else the first place's root.
  ghost predicate Extracts(m: FilesystemMap, c: Config, m': FilesystemMap) {
    forall h, l, r :: Lookup(m', h, l) == r <==>
      if Lookup(m, h, l).Some? then r == Lookup(m, h, l) else RootIs(c, h, l, r)
  }

  lemma EntriesExtract(m: FilesystemMap, c: Config)
    requires Extractable(c)
    ensures Extracts(m, c, InsertAll(m, Entries(c)))
  {
    forall h, l, r
      ensures Lookup(InsertAll(m, Entries(c)), h, l) == r <==>
                if Lookup(m, h, l).Some? then r == Lookup(m, h, l) else RootIs(c, h, l, r)
    {
      ExtractedIff(m, c, h, l, r);
    }
  }

  // ---- Validation, by position ----

  // Line k of location block j of server block i.
  ghost predicate LineAt(c: Config, i: nat, j: nat, k: nat) {
    && i < |c| && c[i].Block? && c[i].tokens != [] && c[i].tokens[0] == "server"
    && ServerLineAt(c[i].body, j, k)
  }

  ghost predicate ServerLineAt(lines: Config, j: nat, k: nat) {
    && j < |lines| && lines[j].Block? && lines[j].tokens != [] && lines[j].tokens[0] == "location"
    && k < |lines[j].body|
  }

  // The second word of every such line is a relative path.
  ghost predicate PathsRelative(c: Config, relative: string -> bool) {
    forall i: nat, j: nat, k: nat :: LineAt(c, i, j, k) ==> LineRelative(c[i].body[j].body[k], relative)
  }

  ghost predicate LineRelative(line: Statement, relative: string -> bool) {
    |line.tokens| >= 2 ==> relative(line.tokens[1])
  }

  ghost predicate ServerPathsRelative(lines: Config, relative: string -> bool) {
    forall j: nat, k: nat :: ServerLineAt(lines, j, k) ==> LineRelative(lines[j].body[k], relative)
  }

  lemma {:induction false} ServerRelativeIff(lines: Config, relative: string -> bool)
    ensures AllRelative(ServerSites(lines), relative) <==> ServerPathsRelative(lines, relative)
  {
    if lines != [] {
      var s, rest := lines[0], lines[1..];
      ServerRelativeIff(rest, relative);
      var here := if IsLocation(s) && s.Block? then LocationSites(s, s.body) else [];
      AllRelativeConcat(here, ServerSites(rest), relative);
      if here != [] { LocationRelativeIff(s, relative); }
      forall j: nat, k: nat ensures ServerLineAt(lines, j + 1, k) <==> ServerLineAt(rest, j, k) {
        if j < |rest| { assert rest[j] == lines[j + 1]; }
      }
      if ServerPathsRelative(lines, relative) {
        forall j: nat, k: nat | ServerLineAt(rest, j, k) ensures LineRelative(rest[j].body[k], relative) {
          assert ServerLineAt(lines, j + 1, k);
        }
        forall k: nat | ServerLineAt(lines, 0, k) ensures LineRelative(s.body[k], relative) {
        }
      }
      if AllRelative(ServerSites(lines), relative) {
        forall j: nat, k: nat | ServerLineAt(lines, j, k) ensures LineRelative(lines[j].body[k], relative) {
          if j > 0 { assert ServerLineAt(lines, (j - 1) + 1, k) && ServerLineAt(rest, j - 1, k); }
        }
      }
    }
  }

  lemma LocationRelativeIff(s: Statement, relative: string -> bool)
    requires s.Block?
    ensures AllRelative(LocationSites(s, s.body), relative)
       <==> forall k :: 0 <= k < |s.body| ==> LineRelative(s.body[k], relative)
  {
    var ss := LocationSites(s, s.body);
    LocationSitesFrom(s, s.body);
    if AllRelative(ss, relative) {
      forall k | 0 <= k < |s.body| ensures LineRelative(s.body[k], relative) { assert ss[k].line == s.body[k]; }
    }
  }

  lemma {:induction false} RelativeIff(c: Config, relative: string -> bool)
    ensures AllRelative(Sites(c), relative) <==> PathsRelative(c, relative)
  {
    if c != [] {
      var rest := c[1..];
      RelativeIff(rest, relative);
      var here := if IsServer(c[0]) then ServerSites(c[0].body) else [];
      AllRelativeConcat(here, Sites(rest), relative);
      if IsServer(c[0]) { ServerRelativeIff(c[0].body, relative); }
      forall i: nat, j: nat, k: nat ensures LineAt(c, i + 1, j, k) <==> LineAt(rest, i, j, k) {
        if i < |rest| { assert rest[i] == c[i + 1]; }
      }
      if PathsRelative(c, relative) {
        forall i: nat, j: nat, k: nat | LineAt(rest, i, j, k) ensures LineRelative(rest[i].body[j].body[k], relative) {
          assert LineAt(c, i + 1, j, k);
        }
        forall j: nat, k: nat | IsServer(c[0]) && ServerLineAt(c[0].body, j, k)
          ensures LineRelative(c[0].body[j].body[k], relative)
        {
          assert LineAt(c, 0, j, k);
        }
      }
      if AllRelative(Sites(c), relative) {
        forall i: nat, j: nat, k: nat | LineAt(c, i, j, k) ensures LineRelative(c[i].body[j].body[k], relative) {
          if i > 0 { assert LineAt(c, (i - 1) + 1, j, k) && LineAt(rest, i - 1, j, k); }
        }
      }
    }
  }
}
