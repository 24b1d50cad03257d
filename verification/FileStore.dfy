// What the two file systems hold, and what each operation does to it, as values.
module FileStore {
  import opened Wrappers
  import opened FileIds
  import opened Paths

  // The data directory: entity directories holding files.
  type Store = map<string, map<string, string>>

  // The real file system keeps directories; the fake one a flat set of path strings.
  datatype FsState = Real(dirs: Store) | Fake(data: string, paths: set<string>)

  function Exists(s: FsState, e: string): bool {
    match s
    case Real(dirs) => e in dirs
    case Fake(data, paths) => DirPath(data, e) in paths
  }

  function IsRegularFile(s: FsState, e: string, n: string): bool {
    match s
    case Real(dirs) => e in dirs && n in dirs[e]
    case Fake(_, _) => true
  }

  // The file names a scan of the entity's directory meets.
  function Names(s: FsState, e: string): set<string> {
    match s
    case Real(dirs) => if e in dirs then dirs[e].Keys else {}
    case Fake(data, paths) =>
      set p | p in paths && p != DirPath(data, e) && Prefix(p) == DirPath(data, e) :: Suffix(p)
  }

  function ReadFile(s: FsState, e: string, n: string): Option<string> {
    match s
    case Real(dirs) => if e in dirs && n in dirs[e] then Some(dirs[e][n]) else None
    case Fake(data, paths) => if FilePath(data, e, n) in paths then Some("Read file successfully\n") else None
  }

  // Create the entity's directory if it is not there.
  function MakeDirectory(s: FsState, e: string): FsState {
    match s
    case Real(dirs) => if e in dirs then s else Real(dirs[e := map[]])
    case Fake(data, paths) => Fake(data, paths + {DirPath(data, e)})
  }

  // write_file. `opens` says whether fopen succeeds; the fake never fails.
  function WriteFile(s: FsState, e: string, n: string, body: string, opens: bool): (FsState, bool) {
    match MakeDirectory(s, e)
    case Real(dirs) =>
      if opens && e in dirs then (Real(dirs[e := dirs[e][n := CStr(body)]]), true) else (Real(dirs), false)
    case Fake(data, paths) => (Fake(data, paths + {FilePath(data, e, n)}), true)
  }

  ghost function NextId(s: FsState, e: string): nat {
    Largest(Names(s, e)) + 1
  }

  // gen_id_and_write_file.
  ghost function GenIdAndWriteFile(s: FsState, e: string, body: string, opens: bool): (FsState, Option<nat>) {
    var s' := MakeDirectory(s, e);
    var id := NextId(s', e);
    var (s'', ok) := WriteFile(s', e, Decimal(id), body, opens);
    (s'', if ok then Some(id) else None)
  }

  // remove. The real one drops the directory when the last file goes.
  function Remove(s: FsState, e: string, n: string): (FsState, bool) {
    match s
    case Real(dirs) =>
      if e !in dirs then (s, false)
      else
        var left := dirs[e] - {n};
        (if left == map[] then Real(dirs - {e}) else Real(dirs[e := left]), n in dirs[e])
    case Fake(data, paths) => (Fake(data, paths - {FilePath(data, e, n)}), FilePath(data, e, n) in paths)
  }

  // ---- What a client can tell ----

  // Names that a request can carry: flat path strings keep only these apart.
  ghost predicate Addressable(s: FsState, e: string, n: string) {
    s.Fake? ==> Slashless(e) && Slashless(n)
  }

  // What a file written with this body reads as afterwards.
  function ReadsAs(s: FsState, body: string): string {
    match s case Real(_) => CStr(body) case Fake(_, _) => "Read file successfully\n"
  }

  // One name now reads as `r`, and every other name as it did.
  ghost predicate Rewrites(s: FsState, s': FsState, e: string, n: string, r: Option<string>) {
    && ReadFile(s', e, n) == r
    && forall e', n' :: Addressable(s, e, n) && Addressable(s, e', n') && (e' != e || n' != n) ==>
         ReadFile(s', e', n') == ReadFile(s, e', n')
  }

  ghost predicate ReadsSame(s: FsState, s': FsState) {
    forall e, n :: Addressable(s, e, n) ==> ReadFile(s', e, n) == ReadFile(s, e, n)
  }

  // No other entity comes or goes.
  ghost predicate OthersStay(s: FsState, s': FsState, e: string) {
    forall e' :: Addressable(s, e, "") && Addressable(s, e', "") && e' != e ==> Exists(s', e') == Exists(s, e')
  }

  lemma FlatPathsDiffer(data: string, e: string, n: string)
    ensures forall e', n' :: Slashless(e) && Slashless(n) && Slashless(e') && Slashless(n') ==>
              && (FilePath(data, e', n') == FilePath(data, e, n) <==> e' == e && n' == n)
              && (DirPath(data, e') == DirPath(data, e) <==> e' == e)
              && DirPath(data, e') != FilePath(data, e, n)
              && FilePath(data, e', n') != DirPath(data, e)
  {
    forall e', n' | Slashless(e) && Slashless(n) && Slashless(e') && Slashless(n')
      ensures FilePath(data, e', n') == FilePath(data, e, n) <==> e' == e && n' == n
      ensures DirPath(data, e') == DirPath(data, e) <==> e' == e
      ensures DirPath(data, e') != FilePath(data, e, n) && FilePath(data, e', n') != DirPath(data, e)
    {
      PathsDiffer(data, e', n', e, n);
      PathsDiffer(data, e, n, e', n');
    }
  }

  // A write makes the entity exist; if fopen succeeds it sets the one name, otherwise none.
  lemma WriteObserved(s: FsState, e: string, n: string, body: string, opens: bool)
    ensures var (s', ok) := WriteFile(s, e, n, body, opens);
            && ok == (opens || s.Fake?)
            && (ok ==> Rewrites(s, s', e, n, Some(ReadsAs(s, body))))
            && (!ok ==> ReadsSame(s, s'))
            && Exists(s', e) && (Addressable(s, e, n) ==> OthersStay(s, s', e))
  {
    if s.Fake? { FlatPathsDiffer(s.data, e, n); FlatPathsDiffer(s.data, e, ""); }
  }

  // A removal unsets the one name. The real entity stays exactly while a file is left in it; the
  // fake one stays.
  lemma RemoveObserved(s: FsState, e: string, n: string)
    requires s.Real? ==> e in s.dirs
    ensures var (s', ok) := Remove(s, e, n);
            && (ok <==> ReadFile(s, e, n).Some?)
            && Rewrites(s, s', e, n, None)
            && (s.Real? ==> (Exists(s', e) <==> exists n' :: ReadFile(s', e, n').Some?))
            && (s.Fake? && Addressable(s, e, n) ==> Exists(s', e) == Exists(s, e))
            && (Addressable(s, e, n) ==> OthersStay(s, s', e))
  {
    match s
    case Real(dirs) =>
      var left := dirs[e] - {n};
      assert forall n' :: n' in dirs[e] && n' != n ==> n' in left;
      if left != map[] {
        var n' :| n' in left;
        assert ReadFile(Remove(s, e, n).0, e, n').Some?;
      }
    case Fake(data, _) => FlatPathsDiffer(data, e, n);
  }

  // Whether or not the directory has to be made, a scan meets the same names.
  lemma MadeNamesSame(s: FsState, e: string)
    ensures Names(MakeDirectory(s, e), e) == Names(s, e)
  {
  }

  // The next id is one more than the largest, and a name no file has.
  lemma NextIdObserved(s: FsState, e: string)
    ensures IsDigits(Decimal(NextId(s, e))) && ReadFile(s, e, Decimal(NextId(s, e))).None?
  {
    var name := Decimal(NextId(s, e));
    DecimalRoundTrip(NextId(s, e));
    DigitsHaveNoComma(name);
    FreshAsText(Names(s, e));
    if s.Fake? {
      CutPath(DirPath(s.data, e), name);
    }
  }

  // ---- Listings ----

  ghost predicate Enumerates(order: seq<string>, names: set<string>) {
    && (forall n :: n in order <==> n in names)
    && (forall i, j :: 0 <= i < j < |order| ==> order[i] != order[j])
  }

  function Listed(order: seq<string>): string {
    if order == [] then "" else order[0] + ", " + Listed(order[1..])
  }

  // substr(0, length - 2): on a shorter string the unsigned subtraction wraps and all is kept.
  function DropLastTwo(s: string): string {
    if |s| >= 2 then s[..|s| - 2] else s
  }

  function RenderList(order: seq<string>): string {
    DropLastTwo("[" + Listed(order)) + "]"
  }

  // Reading a listing back: the items between the brackets, at every ", ".
  function SplitList(text: string): seq<string> {
    if |text| <= 2 then [] else SplitItems("", text[1..|text| - 1])
  }

  function SplitItems(item: string, rest: string): seq<string>
    decreases |rest|
  {
    if rest == "" then [item]
    else if |rest| >= 2 && rest[0] == ',' && rest[1] == ' ' then [item] + SplitItems("", rest[2..])
    else SplitItems(item + [rest[0]], rest[1..])
  }

  lemma {:induction false} SplitOneItem(item: string, name: string, rest: string)
    requires ',' !in name && (rest == "" || rest[0] == ',')
    ensures SplitItems(item, name + rest) == SplitItems(item + name, rest)
    decreases |name|
  {
    if name == "" {
      assert name + rest == rest && item + name == item;
    } else {
      assert name[0] in name;
      assert (name + rest)[1..] == name[1..] + rest;
      assert item + [name[0]] + name[1..] == item + name;
      SplitOneItem(item + [name[0]], name[1..], rest);
    }
  }

  function Joined(order: seq<string>): string
    requires order != []
  {
    if |order| == 1 then order[0] else order[0] + ", " + Joined(order[1..])
  }

  lemma {:induction false} ListedIsJoined(order: seq<string>)
    requires order != []
    ensures Listed(order) == Joined(order) + ", "
  {
    if |order| == 1 {
      assert order[1..] == [];
    } else {
      ListedIsJoined(order[1..]);
    }
  }

  lemma {:induction false} SplitJoined(order: seq<string>)
    requires order != [] && forall n :: n in order ==> ',' !in n
    ensures SplitItems("", Joined(order)) == order
    decreases |order|
  {
    var rest := if |order| == 1 then "" else ", " + Joined(order[1..]);
    assert order[0] in order;
    assert Joined(order) == order[0] + rest;
    SplitOneItem("", order[0], rest);
    assert "" + order[0] == order[0];
    if |order| > 1 {
      SplitJoined(order[1..]);
      assert rest[2..] == Joined(order[1..]);
      assert order == [order[0]] + order[1..];
    } else {
      assert order == [order[0]];
    }
  }

  lemma DigitsHaveNoComma(s: string)
    requires IsDigits(s)
    ensures ',' !in s && '/' !in s
  {
  }

  // A listing of ids splits back into exactly those ids, in the order listed.
  lemma ListingSplitsBack(order: seq<string>)
    requires forall n :: n in order ==> IsDigits(n)
    ensures SplitList(RenderList(order)) == order
  {
    if order == [] {
      assert "[" + Listed(order) == "[";
    } else {
      ListedIsJoined(order);
      var text := RenderList(order);
      assert text == "[" + Joined(order) + "]";
      assert order[0] in order;
      assert |Joined(order)| > 0;
      assert text[1..|text| - 1] == Joined(order);
      forall n | n in order ensures ',' !in n { DigitsHaveNoComma(n); }
      SplitJoined(order);
    }
  }
}
