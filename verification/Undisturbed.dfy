// A request that runs without interleaving does to the directories what the sequential model says.
module Undisturbed {
  import opened FileIds
  import opened Paths
  import opened FileStore
  import opened ApiHandler
  import opened IdAllocation

  // What a store looks like to the interleaved model.
  function NamesOf(store: Store): Dirs {
    map e | e in store :: store[e].Keys
  }

  // What the sequential request answers and leaves behind.
  ghost function Outcome(store: Store, task: Task, body: string, opens: bool): (FsState, Answer) {
    match task
    case PostTask(e) => Post(Real(store), [e], body, opens)
    case PutTask(e, n) => Put(Real(store), [e, n], body, opens)
    case DeleteTask(e, n) => Delete(Real(store), [e, n])
  }

  function Made(dirs: Dirs, e: string): Dirs { if e in dirs then dirs else dirs[e := {}] }

  function With(dirs: Dirs, e: string, n: string): Dirs
    requires e in dirs
  {
    dirs[e := dirs[e] + {n}]
  }

  function Without(dirs: Dirs, e: string, n: string): Dirs
    requires e in dirs
  {
    dirs[e := dirs[e] - {n}]
  }

  // ---- Where the directories stand at each point of the request ----

  ghost predicate PostOnTrack(from: Dirs, e: string, opens: bool, pc: Pc, dirs: Dirs, granted: seq<int>) {
    var made := Made(from, e);
    var id := Largest(made[e]) + 1;
    var end := if opens then With(made, e, Decimal(id)) else made;
    var ids := if opens then [id] else [];
    match pc
    case PostCheck(e') => e' == e && dirs == from && granted == []
    case PostMkdir(e') => e' == e && dirs == from && granted == []
    case PostLock(e') => e' == e && dirs == made && granted == []
    case PostOpenDir(e') => e' == e && dirs == made && granted == []
    case PostScan(e', todo, largest) =>
      e' == e && dirs == made && granted == [] && todo <= made[e] && IsLargest(made[e] - todo, largest)
    case PostFopen(e', id') => e' == e && dirs == made && granted == [] && id' == id
    case PostUnlock(_, r) => dirs == end && granted == ids && (r.Some? <==> opens)
    case PostWrite(_, _) => dirs == end && granted == ids
    case PostExit => dirs == end && granted == ids
    case Done => dirs == end && granted == ids
    case _ => false
  }

  ghost predicate PutOnTrack(from: Dirs, e: string, n: string, opens: bool, pc: Pc, dirs: Dirs) {
    var made := Made(from, e);
    var end := if opens then With(made, e, n) else made;
    match pc
    case PutCheck(e', n') => e' == e && n' == n && dirs == from
    case PutMkdir(e', n') => e' == e && n' == n && dirs == from
    case PutLock(e', n') => e' == e && n' == n && dirs == made
    case PutFopen(e', n') => e' == e && n' == n && dirs == made
    case PutUnlock(_, _, ok) => dirs == end && ok == opens
    case PutWrite(_, _) => dirs == end
    case PutExit => dirs == end
    case Done => dirs == end
    case _ => false
  }

  ghost predicate DeleteOnTrack(from: Dirs, e: string, n: string, pc: Pc, dirs: Dirs) {
    match pc
    case DeleteCheck(e', n') => e' == e && n' == n && dirs == from
    case DeleteRemove(e', n') => e' == e && n' == n && dirs == from && Files(from, e, n)
    case DeleteIsEmpty(e') => e' == e && Files(from, e, n) && dirs == Without(from, e, n)
    case DeleteRemoveAll(e') => e' == e && Files(from, e, n) && dirs == Without(from, e, n) && dirs[e] == {}
    case Done =>
      dirs == if !Files(from, e, n) then from
              else if from[e] == {n} then from - {e}
              else Without(from, e, n)
    case _ => false
  }

  // The ids granted since there were `g0` grants.
  function IdsSince(grants: seq<Grant>, g0: nat): seq<int>
    requires g0 <= |grants|
  {
    seq(|grants| - g0, i requires 0 <= i < |grants| - g0 => grants[g0 + i].id)
  }

  ghost predicate OnTrack(from: Dirs, task: Task, opens: bool, g0: nat, st: State, t: Tid) {
    t in st.pcs && g0 <= |st.grants| &&
    match task
    case PostTask(e) => PostOnTrack(from, e, opens, st.pcs[t], st.dirs, IdsSince(st.grants, g0))
    case PutTask(e, n) => PutOnTrack(from, e, n, opens, st.pcs[t], st.dirs)
    case DeleteTask(e, n) => DeleteOnTrack(from, e, n, st.pcs[t], st.dirs)
  }

  // The environment lets every fopen of the thread succeed, or none.
  predicate FopenIs(st: State, a: Action, opens: bool) {
    a.Act? && a.t in st.pcs && (st.pcs[a.t].PostFopen? || st.pcs[a.t].PutFopen? ==> a.flag == opens)
  }

  lemma LargestIsUnique(names: set<string>, m: nat)
    requires IsLargest(names, m)
    ensures m == Largest(names)
  {
  }

  lemma ScanStaysOnTrack(from: Dirs, e: string, opens: bool, g0: nat, st: State, a: Action)
    requires e in from ==> InRange(from[e])
    requires Enabled(st, a) && FopenIs(st, a, opens) && OnTrack(from, PostTask(e), opens, g0, st, a.t)
    requires st.pcs[a.t].PostScan?
    ensures OnTrack(from, PostTask(e), opens, g0, Next(st, a), a.t)
  {
    var names, todo, largest := Made(from, e)[e], st.pcs[a.t].todo, st.pcs[a.t].largest;
    if todo == {} {
      assert names - todo == names;
      LargestIsUnique(names, largest);
    } else {
      assert a.name in names && a.flag;
      LargestMore(names - todo, largest, a.name);
      assert names - (todo - {a.name}) == (names - todo) + {a.name};
    }
  }

  lemma PostStaysOnTrack(from: Dirs, e: string, opens: bool, g0: nat, st: State, a: Action)
    requires e in from ==> InRange(from[e])
    requires Enabled(st, a) && FopenIs(st, a, opens) && OnTrack(from, PostTask(e), opens, g0, st, a.t)
    ensures OnTrack(from, PostTask(e), opens, g0, Next(st, a), a.t)
  {
    var pc, made := st.pcs[a.t], Made(from, e);
    if pc.PostScan? {
      ScanStaysOnTrack(from, e, opens, g0, st, a);
    } else if pc.PostOpenDir? {
      assert made[e] - made[e] == {};
    } else if pc.PostFopen? && opens {
      assert IdsSince(Next(st, a).grants, g0) == [pc.id];
    }
  }

  lemma PutStaysOnTrack(from: Dirs, e: string, n: string, opens: bool, g0: nat, st: State, a: Action)
    requires Enabled(st, a) && FopenIs(st, a, opens) && OnTrack(from, PutTask(e, n), opens, g0, st, a.t)
    ensures OnTrack(from, PutTask(e, n), opens, g0, Next(st, a), a.t)
  {
  }

  lemma DeleteStaysOnTrack(from: Dirs, e: string, n: string, opens: bool, g0: nat, st: State, a: Action)
    requires Enabled(st, a) && FopenIs(st, a, opens) && OnTrack(from, DeleteTask(e, n), opens, g0, st, a.t)
    ensures OnTrack(from, DeleteTask(e, n), opens, g0, Next(st, a), a.t)
  {
    if st.pcs[a.t].DeleteIsEmpty? {
      assert n in from[e];
      assert from[e] - {n} == {} <==> from[e] == {n};
    }
  }

  // ---- Whole requests ----

  // From state i the thread begins its task, and up to state j no other thread acts.
  ghost predicate Alone(sts: seq<State>, acts: seq<Action>, i: nat, j: nat, t: Tid, task: Task, opens: bool) {
    && Run(sts, acts) && i < j < |sts|
    && acts[i] == Spawn(t, task)
    && forall k :: i < k < j ==> acts[k].Act? && acts[k].t == t && FopenIs(sts[k], acts[k], opens)
  }

  lemma {:induction false} AloneOnTrack(sts: seq<State>, acts: seq<Action>, i: nat, j: nat, t: Tid, task: Task,
                                        opens: bool)
    requires Alone(sts, acts, i, j, t, task, opens)
    requires task.PostTask? && task.e in sts[i].dirs ==> InRange(sts[i].dirs[task.e])
    ensures OnTrack(sts[i].dirs, task, opens, |sts[i].grants|, sts[j], t)
    decreases j
  {
    var st, a := sts[j - 1], acts[j - 1];
    assert Enabled(st, a) && sts[j] == Next(st, a);
    if j - 1 > i {
      AloneOnTrack(sts, acts, i, j - 1, t, task, opens);
      var from, g0 := sts[i].dirs, |sts[i].grants|;
      match task
      case PostTask(e) => PostStaysOnTrack(from, e, opens, g0, st, a);
      case PutTask(e, n) => PutStaysOnTrack(from, e, n, opens, g0, st, a);
      case DeleteTask(e, n) => DeleteStaysOnTrack(from, e, n, opens, g0, st, a);
    }
  }

  lemma NoFiles(files: map<string, string>)
    ensures files == map[] <==> files.Keys == {}
  {
  }

  lemma MadeNames(store: Store, e: string)
    ensures MakeDirectory(Real(store), e).Real?
    ensures NamesOf(MakeDirectory(Real(store), e).dirs) == Made(NamesOf(store), e)
  {
    var none: map<string, string> := map[];
    assert none.Keys == {};
    if e !in store { assert NamesOf(store[e := none]) == NamesOf(store)[e := {}]; }
  }

  lemma WriteNames(store: Store, e: string, n: string, body: string, opens: bool)
    ensures var (s, _) := WriteFile(Real(store), e, n, body, opens);
            && s.Real?
            && NamesOf(s.dirs)
               == if opens then With(Made(NamesOf(store), e), e, n) else Made(NamesOf(store), e)
  {
    MadeNames(store, e);
    var made := MakeDirectory(Real(store), e).dirs;
    if opens {
      var files := made[e][n := CStr(body)];
      assert files.Keys == made[e].Keys + {n};
      assert NamesOf(made[e := files]) == NamesOf(made)[e := files.Keys];
    }
  }

  lemma RemoveNames(store: Store, e: string, n: string)
    requires Files(NamesOf(store), e, n)
    ensures var (s, ok) := Remove(Real(store), e, n);
            && s.Real? && ok
            && NamesOf(s.dirs) == if store[e].Keys == {n} then NamesOf(store) - {e} else Without(NamesOf(store), e, n)
  {
    var left := store[e] - {n};
    NoFiles(left);
    assert left.Keys == store[e].Keys - {n};
    assert NamesOf(store - {e}) == NamesOf(store) - {e};
    assert NamesOf(store[e := left]) == NamesOf(store)[e := left.Keys];
  }

  lemma PostOutcome(store: Store, e: string, body: string, opens: bool)
    ensures var (s, a) := Post(Real(store), [e], body, opens); var made := Made(NamesOf(store), e);
            var id := Largest(made[e]) + 1;
            && s.Real? && NamesOf(s.dirs) == (if opens then With(made, e, Decimal(id)) else made)
            && a.status == (if opens then OK else INTERNAL_SERVER_ERROR)
            && (opens ==> a == Answer(OK, Created(Decimal(id))))
  {
    MadeNames(store, e);
    var made := MakeDirectory(Real(store), e);
    WriteNames(made.dirs, e, Decimal(NextId(made, e)), body, opens);
    assert Names(made, e) == Made(NamesOf(store), e)[e];
  }

  lemma OutcomeNames(store: Store, task: Task, body: string, opens: bool, st: State, t: Tid, g0: nat)
    requires OnTrack(NamesOf(store), task, opens, g0, st, t) && st.pcs[t] == Done
    ensures var (s, a) := Outcome(store, task, body, opens);
            && s.Real? && st.dirs == NamesOf(s.dirs)
            && (task.PostTask? && opens ==>
                  |st.grants| == g0 + 1 && a == Answer(OK, Created(Decimal(st.grants[g0].id))))
  {
    match task
    case PostTask(e) =>
      PostOutcome(store, e, body, opens);
      if opens { assert |IdsSince(st.grants, g0)| == 1 && IdsSince(st.grants, g0)[0] == st.grants[g0].id; }
    case PutTask(e, n) =>
      WriteNames(store, e, n, body, opens);
    case DeleteTask(e, n) =>
      if Files(NamesOf(store), e, n) { RemoveNames(store, e, n); }
  }

  // A request that begins and ends with no other thread acting in between leaves exactly the files
  // and directories the sequential request leaves, and a POST is granted the id that one answers.
  lemma AloneIsSequential(sts: seq<State>, acts: seq<Action>, i: nat, j: nat, t: Tid, task: Task, opens: bool,
                          store: Store, body: string)
    requires Alone(sts, acts, i, j, t, task, opens) && t in sts[j].pcs && sts[j].pcs[t] == Done
    requires sts[i].dirs == NamesOf(store)
    requires task.PostTask? && task.e in store ==> InRange(store[task.e].Keys)
    ensures var (s, a) := Outcome(store, task, body, opens);
            && s.Real? && sts[j].dirs == NamesOf(s.dirs)
            && (task.PostTask? && opens ==>
                  |sts[j].grants| == |sts[i].grants| + 1
                  && a == Answer(OK, Created(Decimal(sts[j].grants[|sts[i].grants|].id))))
  {
    AloneOnTrack(sts, acts, i, j, t, task, opens);
    OutcomeNames(store, task, body, opens, sts[j], t, |sts[i].grants|);
  }
}
