// FakeFileSystem against RealFileSystem: the same requests, the same ids and statuses.
module StoreSimulation {
  import opened Sequences
  import opened FileIds
  import opened Paths
  import opened FileStore
  import opened ApiHandler
  import opened StoreHistory

  ghost predicate Clean(dirs: Store) {
    forall e :: e in dirs ==> Slashless(e) && forall n :: n in dirs[e] ==> Slashless(n)
  }

  // Every directory and file of the real one has its path in the fake one.
  ghost predicate Covered(dirs: Store, data: string, paths: set<string>) {
    forall e :: e in dirs ==> CoveredDir(dirs[e], data, paths, e)
  }

  ghost predicate CoveredDir(files: map<string, string>, data: string, paths: set<string>, e: string) {
    DirPath(data, e) in paths && forall n :: n in files ==> FilePath(data, e, n) in paths
  }

  ghost predicate IsDirPath(data: string, p: string) {
    exists e :: Slashless(e) && p == DirPath(data, e)
  }

  ghost predicate IsFileOf(dirs: Store, data: string, p: string) {
    exists e, n :: e in dirs && n in dirs[e] && p == FilePath(data, e, n)
  }

  // Every path of the fake one is a file of the real one or a directory, perhaps an emptied one.
  ghost predicate Accounted(dirs: Store, data: string, paths: set<string>) {
    forall p :: p in paths ==> IsDirPath(data, p) || IsFileOf(dirs, data, p)
  }

  ghost predicate Agrees(dirs: Store, data: string, paths: set<string>) {
    Clean(dirs) && Covered(dirs, data, paths) && Accounted(dirs, data, paths)
  }

  // Both see the same files.
  lemma SameFile(dirs: Store, data: string, paths: set<string>, e: string, n: string)
    requires Agrees(dirs, data, paths) && Slashless(e) && Slashless(n)
    ensures FilePath(data, e, n) in paths <==> e in dirs && n in dirs[e]
  {
    var p := FilePath(data, e, n);
    if p in paths {
      if IsDirPath(data, p) {
        var e' :| Slashless(e') && p == DirPath(data, e');
        PathsDiffer(data, e', "", e, n);
        assert false;
      } else {
        var e', n' :| e' in dirs && n' in dirs[e'] && p == FilePath(data, e', n');
        PathsDiffer(data, e, n, e', n');
      }
    }
  }

  lemma DirPathHasOtherPrefix(data: string, p: string, e: string)
    requires IsDirPath(data, p)
    ensures Prefix(p) != DirPath(data, e)
  {
    var e' :| Slashless(e') && p == DirPath(data, e');
    CutPath(data, e');
    assert |DirPath(data, e)| > |data|;
  }

  lemma SameNames(dirs: Store, data: string, paths: set<string>, e: string)
    requires Agrees(dirs, data, paths) && Slashless(e)
    ensures Names(Fake(data, paths), e) == Names(Real(dirs), e)
  {
    forall p | p in paths && p != DirPath(data, e) && Prefix(p) == DirPath(data, e)
      ensures Suffix(p) in Names(Real(dirs), e)
    {
      if !IsFileOf(dirs, data, p) {
        DirPathHasOtherPrefix(data, p, e);
      } else {
        var e', n' :| e' in dirs && n' in dirs[e'] && p == FilePath(data, e', n');
        CutPath(DirPath(data, e'), n');
        PathsDiffer(data, e, "", e', "");
      }
    }
    forall n | n in Names(Real(dirs), e) ensures n in Names(Fake(data, paths), e) {
      CutPath(DirPath(data, e), n);
      assert CoveredDir(dirs[e], data, paths, e) && FilePath(data, e, n) in paths;
    }
  }

  // ---- Each operation keeps the agreement ----

  lemma MoreFiles(dirs: Store, dirs': Store, data: string, p: string)
    requires IsFileOf(dirs, data, p)
    requires forall e, n :: e in dirs && n in dirs[e] ==> e in dirs' && n in dirs'[e]
    ensures IsFileOf(dirs', data, p)
  {
    var e, n :| e in dirs && n in dirs[e] && p == FilePath(data, e, n);
    assert e in dirs' && n in dirs'[e];
  }

  lemma MakeDirectoryAgrees(dirs: Store, data: string, paths: set<string>, e: string)
    requires Agrees(dirs, data, paths) && Slashless(e)
    ensures Agrees(MakeDirectory(Real(dirs), e).dirs, data, MakeDirectory(Fake(data, paths), e).paths)
  {
    var dirs', paths' := MakeDirectory(Real(dirs), e).dirs, paths + {DirPath(data, e)};
    assert Covered(dirs', data, paths') by {
      forall e' | e' in dirs' ensures CoveredDir(dirs'[e'], data, paths', e') {
        if e' in dirs { assert CoveredDir(dirs[e'], data, paths, e'); }
      }
    }
    forall p | p in paths' ensures IsDirPath(data, p) || IsFileOf(dirs', data, p) {
      if p in paths && IsFileOf(dirs, data, p) { MoreFiles(dirs, dirs', data, p); }
    }
  }

  lemma AddFileAgrees(dirs: Store, data: string, paths: set<string>, e: string, n: string, contents: string)
    requires Agrees(dirs, data, paths) && Slashless(e) && Slashless(n) && e in dirs
    ensures Agrees(dirs[e := dirs[e][n := contents]], data, paths + {FilePath(data, e, n)})
  {
    var dirs', paths' := dirs[e := dirs[e][n := contents]], paths + {FilePath(data, e, n)};
    assert Covered(dirs', data, paths') by {
      forall e' | e' in dirs' ensures CoveredDir(dirs'[e'], data, paths', e') {
        assert CoveredDir(dirs[e'], data, paths, e');
      }
    }
    forall p | p in paths' ensures IsDirPath(data, p) || IsFileOf(dirs', data, p) {
      if p in paths {
        if IsFileOf(dirs, data, p) { MoreFiles(dirs, dirs', data, p); }
      } else {
        assert n in dirs'[e];
      }
    }
  }

  lemma WriteAgrees(dirs: Store, data: string, paths: set<string>, e: string, n: string, body: string)
    requires Agrees(dirs, data, paths) && Slashless(e) && Slashless(n)
    ensures var r, f := WriteFile(Real(dirs), e, n, body, true), WriteFile(Fake(data, paths), e, n, body, true);
            r.1 && f.1 && Agrees(r.0.dirs, data, f.0.paths)
  {
    MakeDirectoryAgrees(dirs, data, paths, e);
    AddFileAgrees(MakeDirectory(Real(dirs), e).dirs, data, MakeDirectory(Fake(data, paths), e).paths, e, n, CStr(body));
  }

  lemma RemoveCovered(dirs: Store, dirs': Store, data: string, paths: set<string>, e: string, n: string)
    requires Clean(dirs) && Covered(dirs, data, paths) && Slashless(e) && Slashless(n) && e in dirs
    requires dirs'.Keys <= dirs.Keys
    requires forall e' :: e' in dirs' ==> dirs'[e'] == if e' == e then dirs[e] - {n} else dirs[e']
    ensures Covered(dirs', data, paths - {FilePath(data, e, n)})
  {
    forall e' | e' in dirs' ensures CoveredDir(dirs'[e'], data, paths - {FilePath(data, e, n)}, e') {
      assert CoveredDir(dirs[e'], data, paths, e');
      PathsDiffer(data, e', "", e, n);
      forall n' | n' in dirs'[e'] ensures FilePath(data, e', n') in paths - {FilePath(data, e, n)} {
        PathsDiffer(data, e', n', e, n);
      }
    }
  }

  lemma RemoveAccounted(dirs: Store, dirs': Store, data: string, paths: set<string>, e: string, n: string)
    requires Accounted(dirs, data, paths) && e in dirs
    requires forall e', n' :: e' in dirs && n' in dirs[e'] && (e' != e || n' != n) ==> e' in dirs' && n' in dirs'[e']
    ensures Accounted(dirs', data, paths - {FilePath(data, e, n)})
  {
    forall p | p in paths - {FilePath(data, e, n)} ensures IsDirPath(data, p) || IsFileOf(dirs', data, p) {
      if !IsDirPath(data, p) {
        var e', n' :| e' in dirs && n' in dirs[e'] && p == FilePath(data, e', n');
        assert e' in dirs' && n' in dirs'[e'];
      }
    }
  }

  lemma RemoveAgrees(dirs: Store, data: string, paths: set<string>, e: string, n: string)
    requires Agrees(dirs, data, paths) && Slashless(e) && Slashless(n) && e in dirs && n in dirs[e]
    ensures var r, f := Remove(Real(dirs), e, n), Remove(Fake(data, paths), e, n);
            r.1 && f.1 && Agrees(r.0.dirs, data, f.0.paths)
  {
    var left := dirs[e] - {n};
    var dirs' := if left == map[] then dirs - {e} else dirs[e := left];
    forall e', n' | e' in dirs && n' in dirs[e'] && (e' != e || n' != n) ensures e' in dirs' && n' in dirs'[e'] {
      assert e' == e ==> n' in left;
    }
    RemoveCovered(dirs, dirs', data, paths, e, n);
    RemoveAccounted(dirs, dirs', data, paths, e, n);
    assert CoveredDir(dirs[e], data, paths, e);
    assert Clean(dirs');
  }

  // ---- Requests ----

  // The one kind of request on which they part: listing an entity whose last file is gone.
  ghost predicate ListsEmptied(dirs: Store, data: string, paths: set<string>, r: Request) {
    && r.verb == "GET" && Parts(CStr(r.target), '/') != []
    && |Uri(r.target)| == 1
    && Uri(r.target)[0] !in dirs && DirPath(data, Uri(r.target)[0]) in paths
  }

  lemma AdmissibleAgrees(dirs: Store, data: string, paths: set<string>, r: Request)
    requires Agrees(dirs, data, paths)
    ensures Admissible(Real(dirs), r) <==> Admissible(Fake(data, paths), r)
  {
    if Parts(CStr(r.target), '/') != [] && |Uri(r.target)| == 1 {
      UriSlashless(r);
      SameNames(dirs, data, paths, Uri(r.target)[0]);
    }
  }

  lemma PostAgrees(dirs: Store, data: string, paths: set<string>, e: string, body: string)
    requires Agrees(dirs, data, paths) && Slashless(e)
    ensures var r, f := Post(Real(dirs), [e], body, true), Post(Fake(data, paths), [e], body, true);
            r.1 == f.1 && r.0.Real? && f.0.Fake? && f.0.data == data && Agrees(r.0.dirs, data, f.0.paths)
  {
    var made, paths' := MakeDirectory(Real(dirs), e), MakeDirectory(Fake(data, paths), e).paths;
    var id := NextId(made, e);
    assert Agrees(made.dirs, data, paths') by { MakeDirectoryAgrees(dirs, data, paths, e); }
    assert NextId(Fake(data, paths'), e) == id by { SameNames(made.dirs, data, paths', e); }
    assert Slashless(Decimal(id)) by {
      DecimalRoundTrip(id);
      DigitsHaveNoComma(Decimal(id));
    }
    WriteAgrees(made.dirs, data, paths', e, Decimal(id), body);
    PostStores(Real(dirs), e, body);
    PostStores(Fake(data, paths), e, body);
  }

  lemma GetAgrees(dirs: Store, data: string, paths: set<string>, uri: seq<string>)
    requires Agrees(dirs, data, paths) && uri != [] && forall i :: 0 <= i < |uri| ==> Slashless(uri[i])
    ensures var r, f := Get(Real(dirs), uri), Get(Fake(data, paths), uri);
            && (r.status == f.status <==> !(|uri| == 1 && uri[0] !in dirs && DirPath(data, uri[0]) in paths))
            && (|uri| == 1 && r.status == OK ==> r == f)
  {
    assert Slashless(uri[0]);
    SameNames(dirs, data, paths, uri[0]);
    if |uri| == 2 {
      assert Slashless(uri[1]);
      SameFile(dirs, data, paths, uri[0], uri[1]);
    }
  }

  lemma DeleteAgrees(dirs: Store, data: string, paths: set<string>, uri: seq<string>)
    requires Agrees(dirs, data, paths) && forall i :: 0 <= i < |uri| ==> Slashless(uri[i])
    ensures var r, f := Delete(Real(dirs), uri), Delete(Fake(data, paths), uri);
            r.1.status == f.1.status && Agrees(r.0.dirs, data, f.0.paths)
  {
    if |uri| == 2 {
      assert Slashless(uri[0]) && Slashless(uri[1]);
      SameFile(dirs, data, paths, uri[0], uri[1]);
      if IsRegularFile(Real(dirs), uri[0], uri[1]) {
        RemoveAgrees(dirs, data, paths, uri[0], uri[1]);
      } else {
        assert paths - {FilePath(data, uri[0], uri[1])} == paths;
      }
    }
  }

  // One request: the agreement is kept, the statuses are equal exactly when the request does not
  // list an emptied entity, and a POST, PUT or successful listing gets the very same answer.
  lemma StepAgrees(dirs: Store, data: string, paths: set<string>, r: Request)
    requires Agrees(dirs, data, paths) && Admissible(Real(dirs), r) && Admissible(Fake(data, paths), r) && r.opens
    ensures var (s, a), (t, b) := Handle(Real(dirs), r), Handle(Fake(data, paths), r);
            && s.Real? && t.Fake? && t.data == data && Agrees(s.dirs, data, t.paths)
            && (a.status == b.status <==> !ListsEmptied(dirs, data, paths, r))
            && (a.status == OK && (a.reply.Created? || a.reply.Listing?) ==> a == b)
  {
    var uri := Uri(r.target);
    UriSlashless(r);
    if !IsFileNumber(uri) {
    } else if r.verb == "POST" {
      if |uri| == 1 {
        assert uri == [uri[0]];
        PostAgrees(dirs, data, paths, uri[0], r.body);
      }
    } else if r.verb == "GET" {
      GetAgrees(dirs, data, paths, uri);
    } else if r.verb == "PUT" {
      if |uri| == 2 { WriteAgrees(dirs, data, paths, uri[0], uri[1], r.body); }
    } else if r.verb == "DELETE" {
      DeleteAgrees(dirs, data, paths, uri);
    }
  }

  // Every run from the empty stores, of any length.
  lemma {:induction false} RunsAgree(rs: seq<Request>, data: string)
    requires AdmissibleRun(EMPTY, rs) && forall r :: r in rs ==> r.opens
    ensures AdmissibleRun(Fake(data, {}), rs)
    ensures var s, t := After(EMPTY, rs), After(Fake(data, {}), rs);
            s.Real? && t.Fake? && t.data == data && Agrees(s.dirs, data, t.paths)
    decreases |rs|
  {
    if rs != [] {
      assert forall r :: r in Init(rs) ==> r in rs;
      RunsAgree(Init(rs), data);
      var s, t := After(EMPTY, Init(rs)), After(Fake(data, {}), Init(rs));
      AdmissibleAgrees(s.dirs, data, t.paths, Last(rs));
      StepAgrees(s.dirs, data, t.paths, Last(rs));
    }
  }

  // The request lists an entity in which some earlier request stored a file and no file is left.
  ghost predicate ListsEmptiedEntity(log: seq<Entry>, r: Request) {
    && r.verb == "GET" && Parts(CStr(r.target), '/') != []
    && |Uri(r.target)| == 1
    && EverStored(log, Uri(r.target)[0]) && !Survives(log, Uri(r.target)[0])
  }

  // One request is answered with the same effect on either side.
  lemma StepEffect(dirs: Store, data: string, paths: set<string>, r: Request)
    requires Agrees(dirs, data, paths) && Admissible(Real(dirs), r) && Admissible(Fake(data, paths), r) && r.opens
    ensures EffectOf(Entry(r, Handle(Real(dirs), r).1)) == EffectOf(Entry(r, Handle(Fake(data, paths), r).1))
    ensures forall e :: !FailedWrite(Entry(r, Handle(Fake(data, paths), r).1), e)
  {
    StepAgrees(dirs, data, paths, r);
    UriParts(r);
  }

  // The fake file system has a path for exactly the entities that ever had a file.
  lemma {:induction false} EverStoredIff(rs: seq<Request>, data: string, e: string)
    requires AdmissibleRun(EMPTY, rs) && Slashless(e) && forall r :: r in rs ==> r.opens
    ensures AdmissibleRun(Fake(data, {}), rs)
    ensures var t := After(Fake(data, {}), rs);
            t.Fake? && t.data == data && (DirPath(data, e) in t.paths <==> EverStored(Log(EMPTY, rs), e))
    decreases |rs|
  {
    RunsAgree(rs, data);
    if rs != [] {
      assert Last(rs) in rs && forall r :: r in Init(rs) ==> r in rs;
      RunsAgree(Init(rs), data);
      EverStoredIff(Init(rs), data, e);
      var s, t := After(EMPTY, Init(rs)), After(Fake(data, {}), Init(rs));
      StepEffect(s.dirs, data, t.paths, Last(rs));
      StepExists(t, Last(rs), e);
      assert Init(Log(EMPTY, rs)) == Log(EMPTY, Init(rs));
    }
  }

  // The last answer of any run: the statuses differ exactly on listing an emptied entity, as a
  // client can tell from the earlier requests and answers.
  lemma {:induction false} AnswersAgree(rs: seq<Request>, data: string)
    requires rs != [] && AdmissibleRun(EMPTY, rs) && forall r :: r in rs ==> r.opens
    ensures AdmissibleRun(Fake(data, {}), rs)
    ensures var a, b := Last(Log(EMPTY, rs)).answer, Last(Log(Fake(data, {}), rs)).answer;
            && (a.status == b.status <==> !ListsEmptiedEntity(Log(EMPTY, Init(rs)), Last(rs)))
            && (a.status == OK && (a.reply.Created? || a.reply.Listing?) ==> a == b)
  {
    RunsAgree(rs, data);
    assert Last(rs) in rs && forall r :: r in Init(rs) ==> r in rs;
    RunsAgree(Init(rs), data);
    var s, t, r := After(EMPTY, Init(rs)), After(Fake(data, {}), Init(rs)), Last(rs);
    StepAgrees(s.dirs, data, t.paths, r);
    if |Uri(r.target)| == 1 {
      var e := Uri(r.target)[0];
      UriSlashless(r);
      EverStoredIff(Init(rs), data, e);
      EntityExistsIff(Init(rs), e);
      StoreShape(Init(rs));
      if e in s.dirs {
        var n :| n in s.dirs[e];
        assert ReadFile(s, e, n).Some?;
      }
    }
  }

  lemma TargetOf(parts: seq<string>, target: string)
    requires (forall p :: p in parts ==> Component(p, '/')) && target == JoinPath(parts) && '\0' !in target
    ensures Parts(CStr(target), '/') == parts
  {
    UpToStops(target, "", '\0');
    assert target + "" == target;
    SplitOfJoin(parts);
  }

  lemma RunOfThree(start: FsState, p: Request, d: Request, g: Request, s1: FsState, s2: FsState)
    requires Admissible(start, p) && Handle(start, p).0 == s1
    requires Admissible(s1, d) && Handle(s1, d).0 == s2
    requires Admissible(s2, g)
    ensures AdmissibleRun(start, [p, d, g])
    ensures Last(Log(start, [p, d, g])) == Entry(g, Handle(s2, g).1)
  {
    var rs1, rs2, rs := [p], [p, d], [p, d, g];
    assert Init(rs1) == [] && Init(rs2) == rs1 && Init(rs) == rs2;
    assert AdmissibleRun(start, []) && After(start, []) == start;
    assert AdmissibleRun(start, rs1) && After(start, rs1) == s1;
    assert AdmissibleRun(start, rs2) && After(start, rs2) == s2;
  }

  // Create one file in an entity, delete it, list the entity: the real one answers 400, the fake
  // one 200 with an empty list.
  lemma EmptiedEntityDiffers(data: string, e: string, n: string, put: Request, del: Request, get: Request)
    requires Slashless(e) && IsDigits(n)
    requires Asks(put, "PUT", [e, n]) && Asks(del, "DELETE", [e, n]) && Asks(get, "GET", [e]) && put.opens
    ensures AdmissibleRun(EMPTY, [put, del, get]) && AdmissibleRun(Fake(data, {}), [put, del, get])
    ensures Last(Log(EMPTY, [put, del, get])).answer.status == BAD_REQUEST
    ensures Last(Log(Fake(data, {}), [put, del, get])).answer == Answer(OK, Listing({}))
  {
    DigitsHaveNoComma(n);
    PathsDiffer(data, e, "", e, n);
    var d, f := DirPath(data, e), FilePath(data, e, n);
    var s1, t1, t2 := Real(map[e := map[n := CStr(put.body)]]), Fake(data, {d, f}), Fake(data, {d});
    assert map[n := CStr(put.body)] - {n} == map[];
    assert Handle(EMPTY, put).0 == s1;
    assert s1.dirs - {e} == map[];
    RunOfThree(EMPTY, put, del, get, s1, EMPTY);
    assert {} + {d} + {f} == {d, f};
    assert Handle(Fake(data, {}), put).0 == t1;
    assert {d, f} - {f} == {d};
    RunOfThree(Fake(data, {}), put, del, get, t1, t2);
    assert Names(t2, e) == {};
  }

  lemma SampleTargets() returns (file: string, entity: string)
    ensures file == "/api/s/1" && entity == "/api/s"
    ensures Parts(CStr(file), '/') == ["api", "s", "1"] && Parts(CStr(entity), '/') == ["api", "s"]
  {
    file, entity := "/api/s/1", "/api/s";
    JoinThree();
    TargetOf(["api", "s", "1"], file);
    TargetOf(["api", "s"], entity);
  }

  // For instance with the entity "s" and the id 1.
  lemma EmptiedEntityExists(data: string)
    ensures exists rs :: AdmissibleRun(EMPTY, rs) && AdmissibleRun(Fake(data, {}), rs) && rs != []
              && Last(Log(EMPTY, rs)).answer.status == BAD_REQUEST
              && Last(Log(Fake(data, {}), rs)).answer == Answer(OK, Listing({}))
  {
    var file, entity := SampleTargets();
    var put, del := Request("PUT", file, "", true), Request("DELETE", file, "", true);
    var get := Request("GET", entity, "", true);
    assert Uri(file) == ["s", "1"] && Uri(entity) == ["s"];
    EmptiedEntityDiffers(data, "s", "1", put, del, get);
  }

  lemma JoinThree()
    ensures JoinPath(["api", "s", "1"]) == "/api/s/1" && JoinPath(["api", "s"]) == "/api/s"
  {
    assert ["api", "s", "1"][1..] == ["s", "1"] && ["s", "1"][1..] == ["1"] && ["1"][1..] == [];
    assert ["api", "s"][1..] == ["s"] && ["s"][1..] == [];
  }
}
