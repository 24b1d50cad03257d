// ApiHandler: what each request answers and does to the store, over either file system.
module ApiHandler {
  import opened Wrappers
  import opened FileIds
  import opened Paths
  import opened FileStore
  import opened FileSystems

  const OK := 200
  const BAD_REQUEST := 400
  const INTERNAL_SERVER_ERROR := 500

  // `opens` is the environment's say in whether fopen succeeds for this request.
  datatype Request = Request(verb: string, target: string, body: string, opens: bool)

  datatype Reply = Note(text: string) | FileBody(text: string) | Created(name: string) | Listing(names: set<string>)

  datatype Answer = Answer(status: int, reply: Reply)

  // The components after the API prefix.
  function Uri(target: string): seq<string>
    requires Parts(CStr(target), '/') != []
  {
    Parts(CStr(target), '/')[1..]
  }

  // What the code assumes without checking: there is a prefix to remove, a GET names an entity,
  // and a scan for the next id stays in the range of int.
  ghost predicate Admissible(s: FsState, r: Request) {
    && Parts(CStr(r.target), '/') != []
    && var uri := Uri(r.target);
    && (r.verb == "GET" ==> uri != [])
    && (r.verb == "POST" && |uri| == 1 ==> InRange(Names(s, uri[0])))
  }

  ghost function Post(s: FsState, uri: seq<string>, body: string, opens: bool): (FsState, Answer) {
    if |uri| != 1 then (s, Answer(BAD_REQUEST, Note("Not a valid API request target for POST\n")))
    else
      var (s', id) := GenIdAndWriteFile(s, uri[0], body, opens);
      (s', if id.Some? then Answer(OK, Created(Decimal(id.value)))
           else Answer(INTERNAL_SERVER_ERROR, Note("Unable to generate ID.")))
  }

  function Get(s: FsState, uri: seq<string>): Answer
    requires uri != []
  {
    if !Exists(s, uri[0]) then Answer(BAD_REQUEST, Note("Invalid entity requested\n"))
    else if |uri| == 1 then Answer(OK, Listing(Names(s, uri[0])))
    else if |uri| == 2 then
      match ReadFile(s, uri[0], uri[1])
      case Some(text) => Answer(OK, FileBody(text))
      case None => Answer(BAD_REQUEST, Note("Requested ID does not exist\n"))
    else Answer(BAD_REQUEST, Note("Not a valid API request target for GET\n"))
  }

  function Put(s: FsState, uri: seq<string>, body: string, opens: bool): (FsState, Answer) {
    if |uri| != 2 then (s, Answer(BAD_REQUEST, Note("Not a valid API request target for PUT\n")))
    else
      var (s', ok) := WriteFile(s, uri[0], uri[1], body, opens);
      (s', if ok then Answer(OK, Created(uri[1])) else Answer(INTERNAL_SERVER_ERROR, Note("Unable to write to ID.")))
  }

  function Delete(s: FsState, uri: seq<string>): (FsState, Answer) {
    if |uri| != 2 then (s, Answer(BAD_REQUEST, Note("Not a valid API request target for DELETE\n")))
    else if !IsRegularFile(s, uri[0], uri[1]) then (s, Answer(BAD_REQUEST, Note("Requested ID does not exist.\n")))
    else
      var (s', ok) := Remove(s, uri[0], uri[1]);
      (s', if ok then Answer(OK, Note("Successfully deleted ID\n"))
           else Answer(BAD_REQUEST, Note("Could not delete requested ID\n")))
  }

  predicate IsFileNumber(uri: seq<string>) {
    |uri| == 2 ==> IsDigits(uri[1])
  }

  ghost function Handle(s: FsState, r: Request): (FsState, Answer)
    requires Admissible(s, r)
  {
    var uri := Uri(r.target);
    if !IsFileNumber(uri) then (s, Answer(BAD_REQUEST, Note("Requested file must be a number\n")))
    else if r.verb == "POST" then Post(s, uri, r.body, r.opens)
    else if r.verb == "GET" then (s, Get(s, uri))
    else if r.verb == "PUT" then Put(s, uri, r.body, r.opens)
    else if r.verb == "DELETE" then Delete(s, uri)
    else (s, Answer(BAD_REQUEST, Note("Invalid HTTP method\n")))
  }

  function IdText(name: string): string { "{\"id\": " + name + "}" }

  lemma MakeDirectoryObserved(s: FsState, e: string)
    ensures var s' := MakeDirectory(s, e);
            && (s'.Real? <==> s.Real?) && (s.Fake? ==> s'.data == s.data)
            && (forall e', n :: (s.Fake? ==> Slashless(e) && Slashless(e') && Slashless(n)) ==>
                  ReadFile(s', e', n) == ReadFile(s, e', n))
            && (forall n :: (s.Fake? ==> Slashless(n)) ==> ReadFile(s', e, n) == ReadFile(s, e, n))
  {
    if s.Fake? {
      FlatPathsDiffer(s.data, e, "");
      forall n | Slashless(n) ensures FilePath(s.data, e, n) != DirPath(s.data, e) { }
    }
  }

  // The text sent for an answer. A listing may come in any order.
  ghost predicate Renders(a: Answer, status: int, text: string) {
    && status == a.status
    && match a.reply
       case Note(t) => text == t
       case FileBody(t) => text == t
       case Created(name) => text == IdText(name)
       case Listing(names) => exists order :: Enumerates(order, names) && text == RenderList(order)
  }

  // ---- What each request means to a client, in what can be read before and after ----

  // On success the answer is one more than the largest id there, and now holds the body.
  ghost predicate PostMeans(s: FsState, uri: seq<string>, body: string, opens: bool, s': FsState,
                            status: int, text: string) {
    && (status == 200 <==> |uri| == 1 && (opens || s.Fake?))
    && (status == 400 <==> |uri| != 1)
    && (status == 200 || status == 400 || status == 500)
    && (status == 200 ==>
          exists id: nat :: id > 0 && IsLargest(Names(s, uri[0]), id - 1) && text == IdText(Decimal(id))
            && ReadFile(s, uri[0], Decimal(id)).None?
            && Rewrites(s, s', uri[0], Decimal(id), Some(ReadsAs(s, body))))
    && (status == 500 ==> ReadsSame(s, s') && text == "Unable to generate ID.")
    && (status == 400 ==> s' == s && text == "Not a valid API request target for POST\n")
    && (status != 400 ==> Exists(s', uri[0]))
  }

  // An id answers its contents, an entity the ids in it, each once; anything else is 400.
  ghost predicate GetMeans(s: FsState, uri: seq<string>, status: int, text: string)
    requires uri != []
  {
    && (status == 200 <==> Exists(s, uri[0]) && (|uri| == 1 || (|uri| == 2 && ReadFile(s, uri[0], uri[1]).Some?)))
    && (status == 200 || status == 400)
    && (status == 200 && |uri| == 2 ==> ReadFile(s, uri[0], uri[1]) == Some(text))
    && (status == 200 && |uri| == 1 && (forall n :: n in Names(s, uri[0]) ==> IsDigits(n)) ==>
          Enumerates(SplitList(text), Names(s, uri[0])))
    && (status == 400 && !Exists(s, uri[0]) ==> text == "Invalid entity requested\n")
    && (status == 400 && Exists(s, uri[0]) && |uri| == 2 ==> text == "Requested ID does not exist\n")
    && (status == 400 && Exists(s, uri[0]) && |uri| > 2 ==> text == "Not a valid API request target for GET\n")
  }

  // On success the name holds the body, whether or not it existed.
  ghost predicate PutMeans(s: FsState, uri: seq<string>, body: string, opens: bool, s': FsState,
                           status: int, text: string) {
    && (status == 200 <==> |uri| == 2 && (opens || s.Fake?))
    && (status == 400 <==> |uri| != 2)
    && (status == 200 || status == 400 || status == 500)
    && (status == 200 ==> text == IdText(uri[1]) && Rewrites(s, s', uri[0], uri[1], Some(ReadsAs(s, body))))
    && (status == 500 ==> ReadsSame(s, s') && text == "Unable to write to ID.")
    && (status == 400 ==> s' == s && text == "Not a valid API request target for PUT\n")
    && (status != 400 ==> Exists(s', uri[0]))
  }

  // Succeeds exactly on a file that is there, which is then gone; nothing else reads differently.
  ghost predicate DeleteMeans(s: FsState, uri: seq<string>, s': FsState, status: int, text: string) {
    && (status == 200 <==> |uri| == 2 && ReadFile(s, uri[0], uri[1]).Some?)
    && (status == 200 || status == 400)
    && (status == 200 ==> Rewrites(s, s', uri[0], uri[1], None))
    && (status == 200 && s.Real? ==> (Exists(s', uri[0]) <==> exists n :: ReadFile(s', uri[0], n).Some?))
    && (status == 400 ==> s' == s)
    && text ==
         if status == 200 then "Successfully deleted ID\n"
         else if |uri| != 2 then "Not a valid API request target for DELETE\n"
         else if s.Real? then "Requested ID does not exist.\n"
         else "Could not delete requested ID\n"
  }

  ghost predicate RequestMeans(s: FsState, r: Request, s': FsState, status: int, text: string)
    requires Admissible(s, r)
  {
    var uri := Uri(r.target);
    if |uri| == 2 && !IsDigits(uri[1]) then
      status == 400 && s' == s && text == "Requested file must be a number\n"
    else if r.verb == "POST" then PostMeans(s, uri, r.body, r.opens, s', status, text)
    else if r.verb == "GET" then s' == s && GetMeans(s, uri, status, text)
    else if r.verb == "PUT" then PutMeans(s, uri, r.body, r.opens, s', status, text)
    else if r.verb == "DELETE" then DeleteMeans(s, uri, s', status, text)
    else status == 400 && s' == s && text == "Invalid HTTP method\n"
  }

  lemma PostLaw(s: FsState, uri: seq<string>, body: string, opens: bool, text: string)
    requires Renders(Post(s, uri, body, opens).1, Post(s, uri, body, opens).1.status, text)
    ensures PostMeans(s, uri, body, opens, Post(s, uri, body, opens).0, Post(s, uri, body, opens).1.status, text)
  {
    if |uri| == 1 {
      var e := uri[0];
      var made := MakeDirectory(s, e);
      var id := NextId(made, e);
      MadeNamesSame(s, e);
      NextIdObserved(made, e);
      MakeDirectoryObserved(s, e);
      WriteObserved(made, e, Decimal(id), body, opens);
      DigitsHaveNoComma(Decimal(id));
      assert IsLargest(Names(s, e), id - 1);
      var s' := Post(s, uri, body, opens).0;
      assert s' == WriteFile(made, e, Decimal(id), body, opens).0;
      if opens || s.Fake? { assert text == IdText(Decimal(id)); }
    }
  }

  lemma GetLaw(s: FsState, uri: seq<string>, text: string)
    requires uri != [] && Renders(Get(s, uri), Get(s, uri).status, text)
    ensures GetMeans(s, uri, Get(s, uri).status, text)
  {
    if Exists(s, uri[0]) && |uri| == 1 { ListedSplitsBack(Names(s, uri[0]), text); }
  }

  lemma PutLaw(s: FsState, uri: seq<string>, body: string, opens: bool, text: string)
    requires Renders(Put(s, uri, body, opens).1, Put(s, uri, body, opens).1.status, text)
    ensures PutMeans(s, uri, body, opens, Put(s, uri, body, opens).0, Put(s, uri, body, opens).1.status, text)
  {
    if |uri| == 2 { WriteObserved(s, uri[0], uri[1], body, opens); }
  }

  lemma DeleteLaw(s: FsState, uri: seq<string>, text: string)
    requires Renders(Delete(s, uri).1, Delete(s, uri).1.status, text)
    ensures DeleteMeans(s, uri, Delete(s, uri).0, Delete(s, uri).1.status, text)
  {
    if |uri| == 2 && IsRegularFile(s, uri[0], uri[1]) {
      RemoveObserved(s, uri[0], uri[1]);
      if s.Fake? && Delete(s, uri).1.status != 200 { assert Remove(s, uri[0], uri[1]).0 == s; }
    }
  }

  // Every request, over either file system.
  lemma HandleLaw(s: FsState, r: Request, text: string)
    requires Admissible(s, r) && Renders(Handle(s, r).1, Handle(s, r).1.status, text)
    ensures RequestMeans(s, r, Handle(s, r).0, Handle(s, r).1.status, text)
  {
    var uri := Uri(r.target);
    if !IsFileNumber(uri) {
    } else if r.verb == "POST" {
      PostLaw(s, uri, r.body, r.opens, text);
    } else if r.verb == "GET" {
      GetLaw(s, uri, text);
    } else if r.verb == "PUT" {
      PutLaw(s, uri, r.body, r.opens, text);
    } else if r.verb == "DELETE" {
      DeleteLaw(s, uri, text);
    }
  }

  lemma ListedSplitsBack(names: set<string>, text: string)
    requires exists order :: Enumerates(order, names) && text == RenderList(order)
    ensures (forall n :: n in names ==> IsDigits(n)) ==> Enumerates(SplitList(text), names)
  {
    if forall n :: n in names ==> IsDigits(n) {
      var order :| Enumerates(order, names) && text == RenderList(order);
      ListingSplitsBack(order);
    }
  }

  // The FileSystem interface: one of the two implementations.
  datatype FileSystem = RealFs(disk: RealFileSystem) | FakeFs(fakeDisk: FakeFileSystem) {

    function Objects(): set<object> {
      match this case RealFs(r) => {r} case FakeFs(f) => {f}
    }

    ghost function State(): FsState
      reads Objects()
    {
      match this case RealFs(r) => Real(r.dirs) case FakeFs(f) => Fake(f.data, f.ffs)
    }

    method ExistsEntity(e: string) returns (r: bool)
      ensures r == Exists(State(), e)
    {
      match this
      case RealFs(disk) => r := e in disk.dirs;
      case FakeFs(fake) => r := DirPath(fake.data, e) in fake.ffs;
    }

    method IsRegular(e: string, n: string) returns (r: bool)
      ensures r == IsRegularFile(State(), e, n)
    {
      match this
      case RealFs(disk) => r := e in disk.dirs && n in disk.dirs[e];
      case FakeFs(_) => r := true;
    }

    method Read(e: string, n: string) returns (r: Option<string>)
      ensures r == ReadFile(State(), e, n)
    {
      match this
      case RealFs(disk) => r := if e in disk.dirs && n in disk.dirs[e] then Some(disk.dirs[e][n]) else None;
      case FakeFs(fake) =>
        r := if FilePath(fake.data, e, n) in fake.ffs then Some("Read file successfully\n") else None;
    }

    method Write(e: string, n: string, body: string, opens: bool) returns (ok: bool)
      modifies Objects()
      ensures (State(), ok) == WriteFile(old(State()), e, n, body, opens)
    {
      match this
      case RealFs(disk) => ok := disk.WriteFile(e, n, body, opens);
      case FakeFs(fake) => ok := fake.WriteFile(e, n, opens, body);
    }

    method GenId(e: string, body: string, opens: bool) returns (id: int)
      requires InRange(Names(State(), e))
      modifies Objects()
      ensures var (s, r) := GenIdAndWriteFile(old(State()), e, body, opens);
              State() == s && id == if r.Some? then r.value else -1
    {
      match this
      case RealFs(disk) => id := disk.GenIdAndWriteFile(e, body, opens);
      case FakeFs(fake) => id := fake.GenIdAndWriteFile(e, opens, body);
    }

    method Erase(e: string, n: string) returns (ok: bool)
      requires IsRegularFile(State(), e, n)
      modifies Objects()
      ensures (State(), ok) == Remove(old(State()), e, n)
    {
      match this
      case RealFs(disk) => ok := disk.Remove(e, n);
      case FakeFs(fake) => ok := fake.Remove(e, n);
    }

    method List(e: string) returns (text: string)
      requires Exists(State(), e)
      ensures exists order :: Enumerates(order, Names(State(), e)) && text == RenderList(order)
    {
      match this
      case RealFs(disk) => text := disk.GetFileList(e);
      case FakeFs(fake) => text := fake.GetFileList(e);
    }
  }

  class ApiHandler {
    const fs: FileSystem

    constructor (fs: FileSystem)
      ensures this.fs == fs
    {
      this.fs := fs;
    }

    method HandlePost(uri: seq<string>, body: string, opens: bool) returns (status: int, text: string)
      requires |uri| == 1 ==> InRange(Names(fs.State(), uri[0]))
      modifies fs.Objects()
      ensures PostMeans(old(fs.State()), uri, body, opens, fs.State(), status, text)
      ensures var (s, a) := Post(old(fs.State()), uri, body, opens); fs.State() == s && Renders(a, status, text)
    {
      ghost var was := fs.State();
      if |uri| != 1 {
        return BAD_REQUEST, "Not a valid API request target for POST\n";
      }
      var id := fs.GenId(uri[0], body, opens);
      if id == -1 {
        status, text := INTERNAL_SERVER_ERROR, "Unable to generate ID.";
      } else {
        status, text := OK, IdText(Decimal(id));
      }
      PostLaw(was, uri, body, opens, text);
    }

    method HandleGet(uri: seq<string>) returns (status: int, text: string)
      requires uri != []
      ensures GetMeans(fs.State(), uri, status, text)
      ensures Renders(Get(fs.State(), uri), status, text)
    {
      var found := fs.ExistsEntity(uri[0]);
      if !found {
        return BAD_REQUEST, "Invalid entity requested\n";
      }
      if |uri| == 1 {
        text := fs.List(uri[0]);
        ListedSplitsBack(Names(fs.State(), uri[0]), text);
        return OK, text;
      } else if |uri| == 2 {
        var contents := fs.Read(uri[0], uri[1]);
        if contents.Some? {
          return OK, contents.value;
        }
        return BAD_REQUEST, "Requested ID does not exist\n";
      }
      return BAD_REQUEST, "Not a valid API request target for GET\n";
    }

    method HandlePut(uri: seq<string>, body: string, opens: bool) returns (status: int, text: string)
      modifies fs.Objects()
      ensures PutMeans(old(fs.State()), uri, body, opens, fs.State(), status, text)
      ensures var (s, a) := Put(old(fs.State()), uri, body, opens); fs.State() == s && Renders(a, status, text)
    {
      if |uri| != 2 {
        return BAD_REQUEST, "Not a valid API request target for PUT\n";
      }
      WriteObserved(fs.State(), uri[0], uri[1], body, opens);
      var ok := fs.Write(uri[0], uri[1], body, opens);
      if ok {
        return OK, IdText(uri[1]);
      }
      return INTERNAL_SERVER_ERROR, "Unable to write to ID.";
    }

    method HandleDelete(uri: seq<string>) returns (status: int, text: string)
      modifies fs.Objects()
      ensures DeleteMeans(old(fs.State()), uri, fs.State(), status, text)
      ensures var (s, a) := Delete(old(fs.State()), uri); fs.State() == s && Renders(a, status, text)
    {
      ghost var was := fs.State();
      if |uri| != 2 {
        return BAD_REQUEST, "Not a valid API request target for DELETE\n";
      }
      var regular := fs.IsRegular(uri[0], uri[1]);
      if !regular {
        return BAD_REQUEST, "Requested ID does not exist.\n";
      }
      var ok := fs.Erase(uri[0], uri[1]);
      if !ok {
        status, text := BAD_REQUEST, "Could not delete requested ID\n";
      } else {
        status, text := OK, "Successfully deleted ID\n";
      }
      DeleteLaw(was, uri, text);
    }

    method HandleRequest(r: Request) returns (status: int, text: string)
      requires Admissible(fs.State(), r)
      modifies fs.Objects()
      ensures RequestMeans(old(fs.State()), r, fs.State(), status, text)
      ensures var (s, a) := Handle(old(fs.State()), r); fs.State() == s && Renders(a, status, text)
    {
      var uri := Split(CStr(r.target), '/');
      var validFile := true;
      if |uri| == 2 {
        validFile := IsNumber(uri[1]);
      }
      if !validFile {
        return BAD_REQUEST, "Requested file must be a number\n";
      }
      if r.verb == "POST" {
        status, text := HandlePost(uri, r.body, r.opens);
      } else if r.verb == "GET" {
        status, text := HandleGet(uri);
      } else if r.verb == "PUT" {
        status, text := HandlePut(uri, r.body, r.opens);
      } else if r.verb == "DELETE" {
        status, text := HandleDelete(uri);
      } else {
        return BAD_REQUEST, "Invalid HTTP method\n";
      }
    }
  }
}
