// Whole request sequences: what a GET answers is what the history of requests and answers says.
module StoreHistory {
  import opened Wrappers
  import opened Sequences
  import opened FileIds
  import opened Paths
  import opened FileStore
  import opened ApiHandler

  ghost predicate AdmissibleRun(start: FsState, rs: seq<Request>)
    decreases |rs|, 0
  {
    rs == [] || (AdmissibleRun(start, Init(rs)) && Admissible(After(start, Init(rs)), Last(rs)))
  }

  ghost function After(start: FsState, rs: seq<Request>): FsState
    requires AdmissibleRun(start, rs)
    decreases |rs|, 1
  {
    if rs == [] then start else Handle(After(start, Init(rs)), Last(rs)).0
  }

  datatype Entry = Entry(request: Request, answer: Answer)

  // What a client sees: each request with its answer.
  ghost function Log(start: FsState, rs: seq<Request>): seq<Entry>
    requires AdmissibleRun(start, rs)
    decreases |rs|
  {
    if rs == [] then []
    else Log(start, Init(rs)) + [Entry(Last(rs), Handle(After(start, Init(rs)), Last(rs)).1)]
  }

  const EMPTY := Real(map[])

  // ---- The meaning of a log ----

  datatype Effect =
    | Stored(entity: string, name: string, contents: string)
    | Erased(entity: string, name: string)
    | Nothing

  // Read off the request and its answer alone; the id of a POST is in the answer.
  function EffectOf(x: Entry): Effect {
    var r := x.request;
    var parts := Parts(CStr(r.target), '/');
    if x.answer.status != OK then Nothing
    else if r.verb == "POST" && |parts| == 2 && x.answer.reply.Created? then
      Stored(parts[1], x.answer.reply.name, CStr(r.body))
    else if r.verb == "PUT" && |parts| == 3 then Stored(parts[1], parts[2], CStr(r.body))
    else if r.verb == "DELETE" && |parts| == 3 then Erased(parts[1], parts[2])
    else Nothing
  }

  // The contents the latest POST or PUT to the name stored, unless a later DELETE erased it.
  function Latest(log: seq<Entry>, e: string, n: string): Option<string>
    decreases |log|
  {
    if log == [] then None
    else
      match EffectOf(Last(log))
      case Stored(e', n', contents) => if e' == e && n' == n then Some(contents) else Latest(Init(log), e, n)
      case Erased(e', n') => if e' == e && n' == n then None else Latest(Init(log), e, n)
      case Nothing => Latest(Init(log), e, n)
  }

  lemma UriParts(r: Request)
    requires Parts(CStr(r.target), '/') != []
    ensures var parts := Parts(CStr(r.target), '/'); var uri := Uri(r.target);
            |uri| == |parts| - 1 && (forall i :: 0 <= i < |uri| ==> uri[i] == parts[i + 1])
  {
  }

  lemma PostReads(s: FsState, uri: seq<string>, body: string, opens: bool, e: string, n: string)
    requires s.Real? && |uri| == 1
    ensures var (s', a) := Post(s, uri, body, opens);
            && s'.Real? && (a.status == OK ==> a.reply.Created?)
            && ReadFile(s', e, n) == if a.status == OK && uri[0] == e && a.reply.name == n then Some(CStr(body))
                                     else ReadFile(s, e, n)
  {
    var made := MakeDirectory(s, uri[0]);
    WriteObserved(made, uri[0], Decimal(NextId(made, uri[0])), body, opens);
  }

  lemma PutReads(s: FsState, uri: seq<string>, body: string, opens: bool, e: string, n: string)
    requires s.Real? && |uri| == 2
    ensures var (s', a) := Put(s, uri, body, opens);
            && s'.Real?
            && ReadFile(s', e, n) == if a.status == OK && uri == [e, n] then Some(CStr(body)) else ReadFile(s, e, n)
  {
    WriteObserved(s, uri[0], uri[1], body, opens);
  }

  lemma DeleteReads(s: FsState, uri: seq<string>, e: string, n: string)
    requires s.Real? && |uri| == 2
    ensures var (s', a) := Delete(s, uri);
            s'.Real? && ReadFile(s', e, n) == if a.status == OK && uri == [e, n] then None else ReadFile(s, e, n)
  {
    if IsRegularFile(s, uri[0], uri[1]) { RemoveObserved(s, uri[0], uri[1]); }
  }

  // What an effect does to one name.
  ghost predicate ReadStep(s: FsState, effect: Effect, s': FsState, e: string, n: string) {
    ReadFile(s', e, n) ==
      match effect
      case Stored(e', n', contents) => if e' == e && n' == n then Some(contents) else ReadFile(s, e, n)
      case Erased(e', n') => if e' == e && n' == n then None else ReadFile(s, e, n)
      case Nothing => ReadFile(s, e, n)
  }

  // One request changes the one name its effect speaks of, and no other.
  lemma StepRead(s: FsState, r: Request, e: string, n: string)
    requires s.Real? && Admissible(s, r)
    ensures var (s', a) := Handle(s, r); s'.Real? && ReadStep(s, EffectOf(Entry(r, a)), s', e, n)
  {
    UriParts(r);
    var uri := Uri(r.target);
    if r.verb == "POST" && |uri| == 1 {
      PostReads(s, uri, r.body, r.opens, e, n);
    } else if r.verb == "PUT" && |uri| == 2 && IsFileNumber(uri) {
      PutReads(s, uri, r.body, r.opens, e, n);
    } else if r.verb == "DELETE" && |uri| == 2 && IsFileNumber(uri) {
      DeleteReads(s, uri, e, n);
    }
  }

  // From the empty store, what is stored is what the log says, for every name of every entity.
  lemma {:induction false} StoreIsLatest(rs: seq<Request>, e: string, n: string)
    requires AdmissibleRun(EMPTY, rs)
    ensures After(EMPTY, rs).Real? && ReadFile(After(EMPTY, rs), e, n) == Latest(Log(EMPTY, rs), e, n)
    decreases |rs|
  {
    if rs != [] {
      StoreIsLatest(Init(rs), e, n);
      StepRead(After(EMPTY, Init(rs)), Last(rs), e, n);
      assert Init(Log(EMPTY, rs)) == Log(EMPTY, Init(rs));
    }
  }

  ghost predicate Asks(r: Request, verb: string, uri: seq<string>) {
    r.verb == verb && Parts(CStr(r.target), '/') != [] && Uri(r.target) == uri
  }

  // GET of entity/id answers the latest contents, and 400 if there are none.
  lemma {:induction false} GetAnswersLatest(rs: seq<Request>, r: Request, e: string, n: string)
    requires AdmissibleRun(EMPTY, rs) && Asks(r, "GET", [e, n]) && IsDigits(n)
    ensures var latest, a := Latest(Log(EMPTY, rs), e, n), Handle(After(EMPTY, rs), r).1;
            match latest
            case Some(contents) => a == Answer(OK, FileBody(contents))
            case None => a.status == BAD_REQUEST
  {
    StoreIsLatest(rs, e, n);
  }

  // ---- Names and directories ----

  ghost predicate DigitNames(s: FsState) {
    s.Real? && forall e, n :: e in s.dirs && n in s.dirs[e] ==> IsDigits(n)
  }

  ghost predicate NoEmptyDirectory(s: FsState) {
    s.Real? && forall e :: e in s.dirs ==> s.dirs[e] != map[]
  }

  lemma WriteNames(s: FsState, e: string, n: string, body: string, opens: bool)
    requires DigitNames(s) && IsDigits(n)
    ensures DigitNames(WriteFile(s, e, n, body, opens).0)
  {
  }

  lemma StepNames(s: FsState, r: Request)
    requires DigitNames(s) && Admissible(s, r)
    ensures DigitNames(Handle(s, r).0)
  {
    var uri := Uri(r.target);
    if r.verb == "POST" && |uri| == 1 {
      var made := MakeDirectory(s, uri[0]);
      var id := NextId(made, uri[0]);
      DecimalRoundTrip(id);
      WriteNames(made, uri[0], Decimal(id), r.body, r.opens);
    } else if r.verb == "PUT" && |uri| == 2 && IsDigits(uri[1]) {
      WriteNames(s, uri[0], uri[1], r.body, r.opens);
    }
  }

  lemma WriteDirectories(s: FsState, made: FsState, e: string, n: string, body: string)
    requires NoEmptyDirectory(s) && (made == s || made == MakeDirectory(s, e))
    ensures NoEmptyDirectory(WriteFile(made, e, n, body, true).0)
  {
    assert n in WriteFile(made, e, n, body, true).0.dirs[e];
  }

  lemma StepDirectories(s: FsState, r: Request)
    requires NoEmptyDirectory(s) && Admissible(s, r) && r.opens
    ensures NoEmptyDirectory(Handle(s, r).0)
  {
    var uri := Uri(r.target);
    if r.verb == "POST" && |uri| == 1 {
      var made := MakeDirectory(s, uri[0]);
      WriteDirectories(s, made, uri[0], Decimal(NextId(made, uri[0])), r.body);
    } else if r.verb == "PUT" && |uri| == 2 && IsDigits(uri[1]) {
      WriteDirectories(s, s, uri[0], uri[1], r.body);
    }
  }

  // Every stored name is a string of digits, so the scan for the next id only meets numbers; and
  // while every fopen succeeds no directory is ever left empty.
  lemma {:induction false} StoreShape(rs: seq<Request>)
    requires AdmissibleRun(EMPTY, rs)
    ensures DigitNames(After(EMPTY, rs))
    ensures (forall r :: r in rs ==> r.opens) ==> NoEmptyDirectory(After(EMPTY, rs))
    decreases |rs|
  {
    if rs != [] {
      assert forall r :: r in Init(rs) ==> r in rs;
      StoreShape(Init(rs));
      StepNames(After(EMPTY, Init(rs)), Last(rs));
      if forall r :: r in rs ==> r.opens {
        StepDirectories(After(EMPTY, Init(rs)), Last(rs));
      }
    }
  }

  // A POST is given a name that is not in use, whatever names PUT has stored.
  lemma {:induction false} PostIsFresh(rs: seq<Request>, r: Request, e: string)
    requires AdmissibleRun(EMPTY, rs + [r]) && Asks(r, "POST", [e]) && r.opens
    ensures exists n :: Handle(After(EMPTY, rs), r).1 == Answer(OK, Created(n)) && IsDigits(n)
              && Latest(Log(EMPTY, rs), e, n) == None
              && Latest(Log(EMPTY, rs + [r]), e, n) == Some(CStr(r.body))
  {
    assert Init(rs + [r]) == rs && Last(rs + [r]) == r;
    var s := After(EMPTY, rs);
    StoreIsLatest(rs, e, "");
    var made := MakeDirectory(s, e);
    var n := Decimal(NextId(made, e));
    FreshAsText(Names(made, e));
    DecimalRoundTrip(NextId(made, e));
    StoreIsLatest(rs, e, n);
    StoreIsLatest(rs + [r], e, n);
    assert Handle(s, r).1 == Answer(OK, Created(n));
  }

  // ---- Which entities exist ----

  // fopen failed after the entity's directory was made.
  predicate FailedWrite(x: Entry, e: string) {
    x.answer.status == INTERNAL_SERVER_ERROR && var parts := Parts(CStr(x.request.target), '/');
    |parts| >= 2 && parts[1] == e
  }

  // A write failed in the entity and nothing was deleted from it since.
  predicate Dangling(log: seq<Entry>, e: string)
    decreases |log|
  {
    log != [] &&
    (FailedWrite(Last(log), e)
     || (!(EffectOf(Last(log)).Erased? && EffectOf(Last(log)).entity == e) && Dangling(Init(log), e)))
  }

  // Some request stored a file in the entity.
  predicate EverStored(log: seq<Entry>, e: string)
    decreases |log|
  {
    log != [] &&
    ((EffectOf(Last(log)).Stored? && EffectOf(Last(log)).entity == e) || EverStored(Init(log), e))
  }

  lemma UriSlashless(r: Request)
    requires Parts(CStr(r.target), '/') != []
    ensures forall i :: 0 <= i < |Uri(r.target)| ==> Slashless(Uri(r.target)[i])
  {
    PartsAreComponents(CStr(r.target), '/');
    var parts := Parts(CStr(r.target), '/');
    forall i | 0 <= i < |Uri(r.target)| ensures Slashless(Uri(r.target)[i]) {
      assert Uri(r.target)[i] == parts[i + 1] && parts[i + 1] in parts;
    }
  }

  ghost predicate HasFile(s: FsState, e: string) {
    exists n :: ReadFile(s, e, n).Some?
  }

  // What an effect does to the existence of an entity; only the real removals end one.
  ghost predicate ExistsStep(s: FsState, x: Entry, s': FsState, e: string) {
    Exists(s', e) <==>
      match EffectOf(x)
      case Stored(e', _, _) => e' == e || Exists(s, e)
      case Erased(e', _) => if s.Real? && e' == e then HasFile(s', e) else Exists(s, e)
      case Nothing => FailedWrite(x, e) || Exists(s, e)
  }

  lemma PostExists(s: FsState, uri: seq<string>, body: string, opens: bool, e: string)
    requires |uri| == 1 && Addressable(s, e, "") && Addressable(s, uri[0], "")
    ensures var (s', a) := Post(s, uri, body, opens);
            (a.status == OK || a.status == INTERNAL_SERVER_ERROR) && (a.status == OK ==> a.reply.Created?)
            && (Exists(s', e) <==> e == uri[0] || Exists(s, e))
  {
    var made := MakeDirectory(s, uri[0]);
    var id := NextId(made, uri[0]);
    DecimalRoundTrip(id);
    DigitsHaveNoComma(Decimal(id));
    WriteObserved(made, uri[0], Decimal(id), body, opens);
    WriteObserved(s, uri[0], Decimal(id), body, false);
  }

  lemma PutExists(s: FsState, uri: seq<string>, body: string, opens: bool, e: string)
    requires |uri| == 2 && Addressable(s, e, "") && Addressable(s, uri[0], uri[1])
    ensures var (s', a) := Put(s, uri, body, opens);
            (a.status == OK || a.status == INTERNAL_SERVER_ERROR) && (Exists(s', e) <==> e == uri[0] || Exists(s, e))
  {
    WriteObserved(s, uri[0], uri[1], body, opens);
  }

  lemma DeleteExists(s: FsState, uri: seq<string>, e: string)
    requires |uri| == 2 && Addressable(s, e, "") && Addressable(s, uri[0], uri[1])
    ensures var (s', a) := Delete(s, uri);
            && (a.status == OK || a.status == BAD_REQUEST)
            && (Exists(s', e) <==> if a.status == OK && s.Real? && e == uri[0] then HasFile(s', e) else Exists(s, e))
  {
    if IsRegularFile(s, uri[0], uri[1]) {
      RemoveObserved(s, uri[0], uri[1]);
    }
  }

  lemma StepExists(s: FsState, r: Request, e: string)
    requires Admissible(s, r) && Addressable(s, e, "")
    ensures ExistsStep(s, Entry(r, Handle(s, r).1), Handle(s, r).0, e)
  {
    UriParts(r);
    UriSlashless(r);
    var uri := Uri(r.target);
    if r.verb == "POST" && |uri| == 1 {
      PostExists(s, uri, r.body, r.opens, e);
    } else if r.verb == "PUT" && |uri| == 2 && IsFileNumber(uri) {
      PutExists(s, uri, r.body, r.opens, e);
    } else if r.verb == "DELETE" && |uri| == 2 && IsFileNumber(uri) {
      DeleteExists(s, uri, e);
    }
  }

  // The effect of a request decides which files are left in the entity.
  lemma EffectOnFiles(s: FsState, effect: Effect, s': FsState, e: string)
    requires forall n :: ReadStep(s, effect, s', e, n)
    ensures effect.Stored? && effect.entity == e ==> HasFile(s', e)
    ensures effect.Nothing? || effect.entity != e ==> (HasFile(s', e) <==> HasFile(s, e))
  {
    if effect.Stored? && effect.entity == e {
      assert ReadStep(s, effect, s', e, effect.name);
    }
    if HasFile(s, e) {
      var n :| ReadFile(s, e, n).Some?;
      assert ReadStep(s, effect, s', e, n);
    }
    if HasFile(s', e) {
      var n :| ReadFile(s', e, n).Some?;
      assert ReadStep(s, effect, s', e, n);
    }
  }

  lemma StepHasFile(s: FsState, r: Request, e: string)
    requires s.Real? && Admissible(s, r)
    ensures var s', effect := Handle(s, r).0, EffectOf(Entry(r, Handle(s, r).1));
            && s'.Real?
            && (effect.Stored? && effect.entity == e ==> HasFile(s', e))
            && (effect.Nothing? || effect.entity != e ==> (HasFile(s', e) <==> HasFile(s, e)))
  {
    var (s', a) := Handle(s, r);
    var effect := EffectOf(Entry(r, a));
    forall n ensures s'.Real? && ReadStep(s, effect, s', e, n) { StepRead(s, r, e, n); }
    EffectOnFiles(s, effect, s', e);
  }

  ghost predicate Survives(log: seq<Entry>, e: string) {
    exists n :: Latest(log, e, n).Some?
  }

  // An entity exists exactly while an id survives in it or a failed write left its directory.
  lemma {:induction false} EntityExistsIff(rs: seq<Request>, e: string)
    requires AdmissibleRun(EMPTY, rs)
    ensures After(EMPTY, rs).Real? && (HasFile(After(EMPTY, rs), e) <==> Survives(Log(EMPTY, rs), e))
    ensures Exists(After(EMPTY, rs), e) <==> Survives(Log(EMPTY, rs), e) || Dangling(Log(EMPTY, rs), e)
    decreases |rs|
  {
    var s', log' := After(EMPTY, rs), Log(EMPTY, rs);
    if rs != [] {
      EntityExistsIff(Init(rs), e);
      var s, log := After(EMPTY, Init(rs)), Log(EMPTY, Init(rs));
      var x := Entry(Last(rs), Handle(s, Last(rs)).1);
      StepExists(s, Last(rs), e);
      StepHasFile(s, Last(rs), e);
      assert Init(log') == log && Last(log') == x;
    }
    forall n ensures s'.Real? && ReadFile(s', e, n) == Latest(log', e, n) { StoreIsLatest(rs, e, n); }
  }

  // GET of an entity answers 400 exactly when no id survives and no failed write left a directory
  // behind; otherwise it lists the survivors, of which there may then be none.
  lemma {:induction false} GetListsSurvivors(rs: seq<Request>, r: Request, e: string)
    requires AdmissibleRun(EMPTY, rs) && Asks(r, "GET", [e])
    ensures var a, log := Handle(After(EMPTY, rs), r).1, Log(EMPTY, rs);
            if Survives(log, e) || Dangling(log, e)
            then a.status == OK && a.reply.Listing?
                 && forall n :: n in a.reply.names <==> Latest(log, e, n).Some?
            else a.status == BAD_REQUEST
  {
    var s := After(EMPTY, rs);
    EntityExistsIff(rs, e);
    assert Handle(s, r).1 == Get(s, [e]);
    LatestNames(rs, e);
  }

  // ---- When a request succeeds, and with which id ----

  ghost predicate Succeeds(log: seq<Entry>, r: Request, uri: seq<string>) {
    || (r.verb == "POST" && |uri| == 1 && r.opens)
    || (r.verb == "PUT" && |uri| == 2 && IsDigits(uri[1]) && r.opens)
    || (r.verb == "DELETE" && |uri| == 2 && IsDigits(uri[1]) && Latest(log, uri[0], uri[1]).Some?)
    || (r.verb == "GET" && |uri| == 2 && IsDigits(uri[1]) && Latest(log, uri[0], uri[1]).Some?)
    || (r.verb == "GET" && |uri| == 1 && (Survives(log, uri[0]) || Dangling(log, uri[0])))
  }

  ghost predicate FailsToOpen(r: Request, uri: seq<string>) {
    !r.opens && ((r.verb == "POST" && |uri| == 1) || (r.verb == "PUT" && |uri| == 2 && IsDigits(uri[1])))
  }

  // The status of every request after every history, told from the history alone.
  lemma {:induction false} StatusOfLog(rs: seq<Request>, r: Request)
    requires AdmissibleRun(EMPTY, rs) && Admissible(After(EMPTY, rs), r)
    ensures var status, uri := Handle(After(EMPTY, rs), r).1.status, Uri(r.target);
            status == if Succeeds(Log(EMPTY, rs), r, uri) then 200 else if FailsToOpen(r, uri) then 500 else 400
  {
    var s, uri := After(EMPTY, rs), Uri(r.target);
    if uri != [] {
      EntityExistsIff(rs, uri[0]);
      if |uri| == 2 { StoreIsLatest(rs, uri[0], uri[1]); }
    } else {
      StoreIsLatest(rs, "", "");
    }
    if !IsFileNumber(uri) {
    } else if r.verb == "POST" && |uri| == 1 {
      PostReads(s, uri, r.body, r.opens, "", "");
    } else if r.verb == "PUT" && |uri| == 2 {
      WriteObserved(s, uri[0], uri[1], r.body, r.opens);
    } else if r.verb == "DELETE" && |uri| == 2 && IsRegularFile(s, uri[0], uri[1]) {
      RemoveObserved(s, uri[0], uri[1]);
    }
  }

  lemma PostStores(s: FsState, e: string, body: string)
    ensures var made := MakeDirectory(s, e); var name := Decimal(NextId(made, e));
            Post(s, [e], body, true) == (WriteFile(made, e, name, body, true).0, Answer(OK, Created(name)))
  {
  }

  // One more than the largest surviving id of the entity, and 1 if none survives.
  ghost predicate FollowsSurvivors(log: seq<Entry>, e: string, id: nat) {
    && (forall n :: Latest(log, e, n).Some? ==> Value(n) < id)
    && (id == 1 || exists n :: Latest(log, e, n).Some? && Value(n) + 1 == id)
  }

  lemma {:induction false} PostIdOfLog(rs: seq<Request>, r: Request, e: string)
    requires AdmissibleRun(EMPTY, rs) && Admissible(After(EMPTY, rs), r) && Asks(r, "POST", [e]) && r.opens
    ensures exists id: nat :: Handle(After(EMPTY, rs), r).1 == Answer(200, Created(Decimal(id)))
              && FollowsSurvivors(Log(EMPTY, rs), e, id)
  {
    var s, log := After(EMPTY, rs), Log(EMPTY, rs);
    var id := NextId(MakeDirectory(s, e), e);
    PostStores(s, e, r.body);
    assert Handle(s, r).1 == Answer(200, Created(Decimal(id)));
    StoreIsLatest(rs, e, "");
    MadeNamesSame(s, e);
    LatestNames(rs, e);
    NextFollows(log, e, Names(s, e));
  }

  lemma LatestNames(rs: seq<Request>, e: string)
    requires AdmissibleRun(EMPTY, rs)
    ensures After(EMPTY, rs).Real?
    ensures forall n :: n in Names(After(EMPTY, rs), e) <==> Latest(Log(EMPTY, rs), e, n).Some?
  {
    StoreIsLatest(rs, e, "");
    forall n ensures n in Names(After(EMPTY, rs), e) <==> Latest(Log(EMPTY, rs), e, n).Some? {
      StoreIsLatest(rs, e, n);
    }
  }

  lemma NextFollows(log: seq<Entry>, e: string, names: set<string>)
    requires forall n :: n in names <==> Latest(log, e, n).Some?
    ensures FollowsSurvivors(log, e, Largest(names) + 1)
  {
    var m := Largest(names);
    if m > 0 {
      var n :| n in names && Value(n) == m;
      assert Latest(log, e, n).Some?;
    }
  }

  // The text of a listing names each id once and splits back into exactly those ids.
  lemma {:induction false} ListingText(names: set<string>, text: string)
    requires forall n :: n in names ==> IsDigits(n)
    requires Renders(Answer(OK, Listing(names)), OK, text)
    ensures Enumerates(SplitList(text), names)
  {
    ListedSplitsBack(names, text);
  }
}
