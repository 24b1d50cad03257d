// Request targets split into components, and path strings built from them.
module Paths {
  import opened Sequences

  // The characters before the first delimiter.
  function UpTo(s: string, delim: char): (r: string)
    ensures |r| <= |s| && r == s[..|r|] && delim !in r
    ensures |r| < |s| ==> s[|r|] == delim
  {
    if s == "" || s[0] == delim then "" else [s[0]] + UpTo(s[1..], delim)
  }

  // A C string: what c_str() and fputs let through.
  function CStr(s: string): string { UpTo(s, '\0') }

  // What repeated getline yields: no last item after a final delimiter.
  function Chunks(s: string, delim: char): seq<string>
    decreases |s|
  {
    if s == "" then []
    else
      var item := UpTo(s, delim);
      [item] + if |item| == |s| then [] else Chunks(s[|item| + 1..], delim)
  }

  function WithoutEmpty(items: seq<string>): seq<string> {
    if items == [] then []
    else (if items[0] == "" then [] else [items[0]]) + WithoutEmpty(items[1..])
  }

  function Parts(s: string, delim: char): seq<string> {
    WithoutEmpty(Chunks(s, delim))
  }

  // The getline loop of split().
  method GetLines(s: string, delim: char) returns (result: seq<string>)
    ensures result == Chunks(s, delim)
  {
    result := [];
    var rest := s;
    while rest != ""
      invariant result + Chunks(rest, delim) == Chunks(s, delim)
      decreases |rest|
    {
      var item := UpTo(rest, delim);
      var later := if |item| == |rest| then "" else rest[|item| + 1..];
      assert result + ([item] + Chunks(later, delim)) == result + [item] + Chunks(later, delim);
      result, rest := result + [item], later;
    }
    assert result + [] == result;
  }

  // result.erase(remove(...)) of split().
  method RemoveEmpty(items: seq<string>) returns (kept: seq<string>)
    ensures kept == WithoutEmpty(items)
  {
    kept := [];
    for i := 0 to |items|
      invariant kept + WithoutEmpty(items[i..]) == WithoutEmpty(items)
    {
      var later := items[i + 1..];
      assert items[i..][0] == items[i] && items[i..][1..] == later;
      if items[i] != "" {
        assert kept + ([items[i]] + WithoutEmpty(later)) == kept + [items[i]] + WithoutEmpty(later);
        kept := kept + [items[i]];
      } else {
        assert [] + WithoutEmpty(later) == WithoutEmpty(later);
      }
    }
    assert kept + [] == kept;
  }

  // split(): the parts, without the first one, which is the API prefix.
  method Split(s: string, delim: char) returns (result: seq<string>)
    requires Parts(s, delim) != []
    ensures result == Parts(s, delim)[1..]
  {
    var items := GetLines(s, delim);
    var parts := RemoveEmpty(items);
    result := parts[1..];
  }

  // A component: not empty and free of the delimiter.
  ghost predicate Component(p: string, delim: char) {
    p != "" && delim !in p
  }

  lemma ConsWithoutEmpty(item: string, items: seq<string>)
    ensures WithoutEmpty([item] + items) == (if item == "" then [] else [item]) + WithoutEmpty(items)
  {
    assert ([item] + items)[1..] == items;
  }

  lemma {:induction false} PartsAreComponents(s: string, delim: char)
    ensures forall p :: p in Parts(s, delim) ==> Component(p, delim)
    decreases |s|
  {
    if s != "" {
      var item := UpTo(s, delim);
      var later := if |item| == |s| then "" else s[|item| + 1..];
      PartsAreComponents(later, delim);
      ConsWithoutEmpty(item, Chunks(later, delim));
    }
  }

  lemma {:induction false} UpToStops(p: string, rest: string, delim: char)
    requires delim !in p && (rest == "" || rest[0] == delim)
    ensures UpTo(p + rest, delim) == p
    decreases |p|
  {
    if p == "" {
      assert p + rest == rest;
    } else {
      var s, tail := p + rest, p[1..];
      assert s[0] == p[0] && p[0] in p && s[1..] == tail + rest;
      UpToStops(tail, rest, delim);
      assert UpTo(s, delim) == [p[0]] + tail;
    }
  }

  // Slashes only separate: extra ones change nothing, and each component comes out whole.
  lemma PartsSlash(rest: string, delim: char)
    ensures Parts([delim] + rest, delim) == Parts(rest, delim)
  {
    var s := [delim] + rest;
    assert s[|UpTo(s, delim)| + 1..] == rest;
    assert Chunks(s, delim) == [""] + Chunks(rest, delim);
    ConsWithoutEmpty("", Chunks(rest, delim));
  }

  lemma PartsComponent(p: string, rest: string, delim: char)
    requires Component(p, delim) && (rest == "" || rest[0] == delim)
    ensures Parts(p + rest, delim) == [p] + Parts(rest, delim)
  {
    var s := p + rest;
    UpToStops(p, rest, delim);
    var later := if rest == "" then "" else rest[1..];
    assert Chunks(s, delim) == [p] + Chunks(later, delim) by {
      if rest == "" { assert s == p; } else { assert s[|p| + 1..] == later; }
    }
    ConsWithoutEmpty(p, Chunks(later, delim));
    if rest != "" {
      assert rest == [delim] + later;
      PartsSlash(later, delim);
    }
  }

  function JoinPath(parts: seq<string>): string {
    if parts == [] then "" else "/" + parts[0] + JoinPath(parts[1..])
  }

  // Splitting a path gives back the components it was built from.
  lemma {:induction false} SplitOfJoin(parts: seq<string>)
    requires forall p :: p in parts ==> Component(p, '/')
    ensures Parts(JoinPath(parts), '/') == parts
    decreases |parts|
  {
    if parts != [] {
      var p, rest := parts[0], JoinPath(parts[1..]);
      assert p in parts && forall q :: q in parts[1..] ==> q in parts;
      SplitOfJoin(parts[1..]);
      PartsComponent(p, rest, '/');
      PartsSlash(p + rest, '/');
      Regroup3("/", p, rest);
      assert [p] + parts[1..] == parts;
    }
  }

  // ---- Flat path strings, as the fake file system keeps them ----

  function DirPath(data: string, entity: string): string { data + "/" + entity }

  function FilePath(data: string, entity: string, name: string): string { DirPath(data, entity) + "/" + name }

  // find_last_of("/"): the index of the last slash, or None for npos.
  function LastSlash(s: string): (i: int)
    ensures -1 <= i < |s|
    ensures i >= 0 ==> s[i] == '/' && '/' !in s[i + 1..]
    ensures i < 0 ==> '/' !in s
  {
    if s == "" then -1 else if s[|s| - 1] == '/' then |s| - 1 else LastSlash(s[..|s| - 1])
  }

  // substr(0, i) and substr(i + 1); with npos both are the whole string.
  function Prefix(s: string): string {
    if LastSlash(s) < 0 then s else s[..LastSlash(s)]
  }

  function Suffix(s: string): string { s[LastSlash(s) + 1..] }

  lemma {:induction false} LastSlashOf(dir: string, name: string)
    requires '/' !in name
    ensures LastSlash(dir + "/" + name) == |dir|
    decreases |name|
  {
    var s := dir + "/" + name;
    if name != "" {
      assert name[|name| - 1] in name;
      assert s[..|s| - 1] == dir + "/" + name[..|name| - 1];
      LastSlashOf(dir, name[..|name| - 1]);
    }
  }

  lemma CutPath(dir: string, name: string)
    requires '/' !in name
    ensures Prefix(dir + "/" + name) == dir && Suffix(dir + "/" + name) == name
  {
    LastSlashOf(dir, name);
  }

  ghost predicate Slashless(s: string) { '/' !in s }

  // Different entities and names give different paths, and no directory path is a file path.
  lemma PathsDiffer(data: string, e: string, n: string, e': string, n': string)
    requires Slashless(e) && Slashless(e') && Slashless(n) && Slashless(n')
    ensures DirPath(data, e) == DirPath(data, e') ==> e == e'
    ensures FilePath(data, e, n) == FilePath(data, e', n') ==> e == e' && n == n'
    ensures DirPath(data, e) != FilePath(data, e', n')
  {
    CutPath(data, e);
    CutPath(data, e');
    CutPath(DirPath(data, e), n);
    CutPath(DirPath(data, e'), n');
  }
}
