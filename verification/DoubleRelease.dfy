// What the second release of the mutex costs: how many writers may be in flight before ids collide.
module DoubleRelease {
  import opened Wrappers
  import opened FileIds
  import opened IdAllocation

  // ---- Writers in flight, and what they are promised ----

  predicate IsPost(pc: Pc) {
    pc.PostCheck? || pc.PostMkdir? || pc.PostLock? || pc.PostOpenDir? || pc.PostScan? || pc.PostFopen?
    || pc.PostUnlock? || pc.PostWrite? || pc.PostExit?
  }

  predicate IsPut(pc: Pc) {
    pc.PutCheck? || pc.PutMkdir? || pc.PutLock? || pc.PutFopen? || pc.PutUnlock? || pc.PutWrite? || pc.PutExit?
  }

  // Requests that have begun and are not answered yet.
  ghost function Posts(st: State): set<Tid> { set t | t in st.pcs && IsPost(st.pcs[t]) }

  ghost function Puts(st: State): set<Tid> { set t | t in st.pcs && IsPut(st.pcs[t]) }

  // At every point of the run, at most p POSTs and q PUTs are in flight.
  ghost predicate Within(sts: seq<State>, p: nat, q: nat) {
    forall k :: 0 <= k < |sts| ==> |Posts(sts[k])| <= p && |Puts(sts[k])| <= q
  }

  // At every point, at most b requests of either kind.
  ghost predicate WritersWithin(sts: seq<State>, b: nat) {
    forall k :: 0 <= k < |sts| ==> |Posts(sts[k])| + |Puts(sts[k])| <= b
  }

  // A POST opens a file that is there already.
  ghost predicate Overwrites(st: State, a: Action) {
    Opens(st, a) && Files(st.dirs, st.pcs[a.t].e, Decimal(st.pcs[a.t].id))
  }

  ghost predicate NeverOverwrites(sts: seq<State>, acts: seq<Action>)
    requires Run(sts, acts)
  {
    forall i :: 0 <= i < |acts| ==> !Overwrites(sts[i], acts[i])
  }

  // At most one thread between lock and unlock, whatever the mutex records.
  ghost predicate OneAtATime(st: State) {
    forall t, u :: t in st.pcs && u in st.pcs && Holds(st.pcs[t]) && Holds(st.pcs[u]) ==> t == u
  }

  ghost predicate IdsDistinct(st: State) {
    forall i, j :: 0 <= i < j < |st.grants| && st.grants[i].e == st.grants[j].e ==>
      st.grants[i].id != st.grants[j].id
  }

  ghost predicate SafeWith(p: nat, q: nat) {
    forall sts, acts :: Run(sts, acts) && Within(sts, p, q) ==> NeverOverwrites(sts, acts)
  }

  ghost predicate SafeUpTo(b: nat) {
    forall sts, acts :: Run(sts, acts) && WritersWithin(sts, b) ==> NeverOverwrites(sts, acts)
  }

  ghost predicate ExclusiveUpTo(b: nat) {
    forall sts, acts :: Run(sts, acts) && WritersWithin(sts, b) ==>
      forall k :: 0 <= k < |sts| ==> OneAtATime(sts[k])
  }

  ghost predicate DistinctUpTo(b: nat) {
    forall sts, acts :: Run(sts, acts) && WritersWithin(sts, b) && NoDelete(acts) ==> IdsDistinct(sts[|acts|])
  }

  // ---- One writer at a time ----

  lemma SubsetSize<T>(a: set<T>, b: set<T>)
    requires a <= b
    ensures |a| <= |b|
  {
    assert b == a + (b - a);
  }

  lemma HolderWrites(pc: Pc)
    ensures Holds(pc) || AtExit(pc) ==> IsPost(pc) || IsPut(pc)
    ensures !(IsPost(pc) && IsPut(pc))
  {
  }

  // With one writer in flight, whoever releases a second time is alone.
  lemma OneWriterIsQuiet(st: State, a: Action)
    requires |Posts(st)| + |Puts(st)| <= 1
    ensures Quiet(st, a)
  {
    if a.Act? && a.t in st.pcs && AtExit(st.pcs[a.t]) {
      forall t | t in st.pcs ensures !Holds(st.pcs[t]) {
        if Holds(st.pcs[t]) {
          HolderWrites(st.pcs[t]);
          HolderWrites(st.pcs[a.t]);
          assert {t, a.t} <= Posts(st) + Puts(st) && Posts(st) !! Puts(st);
          SubsetSize({t, a.t}, Posts(st) + Puts(st));
        }
      }
    }
  }

  lemma OneWriterRun(sts: seq<State>, acts: seq<Action>)
    requires Run(sts, acts) && WritersWithin(sts, 1)
    ensures QuietUntil(sts, acts, |acts|)
    ensures NeverOverwrites(sts, acts)
    ensures forall k :: 0 <= k < |sts| ==> OneAtATime(sts[k])
    ensures NoDelete(acts) ==> IdsDistinct(sts[|acts|])
  {
    forall k | 0 <= k < |acts| ensures Quiet(sts[k], acts[k]) {
      OneWriterIsQuiet(sts[k], acts[k]);
    }
    forall i | 0 <= i < |acts| ensures !Overwrites(sts[i], acts[i]) {
      if Opens(sts[i], acts[i]) { PostNeverOverwrites(sts, acts, i); }
    }
    forall k | 0 <= k < |sts| ensures OneAtATime(sts[k]) {
      RunSafe(sts, acts, k);
    }
    if NoDelete(acts) { RunGrowing(sts, acts, |acts|); }
  }

  lemma OpenerIsInFlight(st: State, a: Action)
    ensures Opens(st, a) ==> |Posts(st)| >= 1
  {
    if Opens(st, a) { assert a.t in Posts(st); }
  }

  lemma NoPostRun(sts: seq<State>, acts: seq<Action>, q: nat)
    requires Run(sts, acts) && Within(sts, 0, q)
    ensures NeverOverwrites(sts, acts)
  {
    forall i | 0 <= i < |acts| ensures !Overwrites(sts[i], acts[i]) {
      OpenerIsInFlight(sts[i], acts[i]);
    }
  }

  // ---- Building runs step by step ----

  ghost predicate Built(sts: seq<State>, acts: seq<Action>, p: nat, q: nat) {
    Run(sts, acts) && Within(sts, p, q) && NoDelete(acts)
  }

  // A thread stays of its kind until it is done.
  lemma ActInFlight(st: State, a: Action)
    requires Enabled(st, a) && a.Act?
    ensures |Posts(Next(st, a))| <= |Posts(st)| && |Puts(Next(st, a))| <= |Puts(st)|
  {
    var st' := Next(st, a);
    assert st'.pcs.Keys == st.pcs.Keys;
    assert forall t :: t in st.pcs && t != a.t ==> st'.pcs[t] == st.pcs[t];
    ActKeepsKind(st, a);
    SubsetSize(Posts(st'), Posts(st));
    SubsetSize(Puts(st'), Puts(st));
  }

  lemma ActKeepsKind(st: State, a: Action)
    requires Enabled(st, a) && a.Act?
    ensures IsPost(Next(st, a).pcs[a.t]) ==> IsPost(st.pcs[a.t])
    ensures IsPut(Next(st, a).pcs[a.t]) ==> IsPut(st.pcs[a.t])
  {
  }

  lemma Extend(sts: seq<State>, acts: seq<Action>, p: nat, q: nat, a: Action, st': State)
    requires Built(sts, acts, p, q) && Enabled(sts[|acts|], a) && st' == Next(sts[|acts|], a)
    requires |Posts(st')| <= p && |Puts(st')| <= q && (a.Spawn? ==> !a.task.DeleteTask?)
    ensures Built(sts + [st'], acts + [a], p, q)
  {
  }

  lemma Do(sts: seq<State>, acts: seq<Action>, p: nat, q: nat, a: Action)
      returns (sts': seq<State>, acts': seq<Action>, st': State)
    requires Built(sts, acts, p, q) && a.Act? && Enabled(sts[|acts|], a)
    ensures acts <= acts' && |acts'| == |acts| + 1 && acts'[|acts|] == a && sts <= sts'
    ensures Built(sts', acts', p, q) && sts'[|acts'|] == st' && st' == Next(sts[|acts|], a)
  {
    st' := Next(sts[|acts|], a);
    ActInFlight(sts[|acts|], a);
    Extend(sts, acts, p, q, a, st');
    sts', acts' := sts + [st'], acts + [a];
  }

  lemma BeginInFlight(st: State, t: Tid, task: Task)
    requires t !in st.pcs && !task.DeleteTask?
    ensures var st' := Goto(st, t, FirstPc(task));
            && Posts(st') == (if task.PostTask? then Posts(st) + {t} else Posts(st))
            && Puts(st') == (if task.PostTask? then Puts(st) else Puts(st) + {t})
  {
  }

  // A request begins, for which there must be room.
  lemma Begin(sts: seq<State>, acts: seq<Action>, p: nat, q: nat, t: Tid, task: Task)
      returns (sts': seq<State>, acts': seq<Action>, st': State)
    requires Built(sts, acts, p, q) && Enabled(sts[|acts|], Spawn(t, task)) && !task.DeleteTask?
    requires if task.PostTask? then |Posts(sts[|acts|])| < p else |Puts(sts[|acts|])| < q
    ensures Built(sts', acts', p, q) && sts'[|acts'|] == st' && st' == Goto(sts[|acts|], t, FirstPc(task))
  {
    var st := sts[|acts|];
    st' := Next(st, Spawn(t, task));
    BeginInFlight(st, t, task);
    Extend(sts, acts, p, q, Spawn(t, task), st');
    sts', acts' := sts + [st'], acts + [Spawn(t, task)];
  }

  // A new POST, undisturbed, opens its directory.
  lemma PostComesToScan(sts: seq<State>, acts: seq<Action>, p: nat, q: nat, t: Tid, e: string)
      returns (sts': seq<State>, acts': seq<Action>)
    requires Built(sts, acts, p, q) && |Posts(sts[|acts|])| < p
    requires var st := sts[|acts|]; t !in st.pcs && st.holder.None? && e in st.dirs
    ensures Built(sts', acts', p, q)
    ensures var st := sts[|acts|];
            sts'[|acts'|] == st.(pcs := st.pcs[t := PostScan(e, st.dirs[e], 0)], holder := Some(t),
                                 ticket := st.ticket + 1)
  {
    var st := sts[|acts|];
    var st': State;
    var go := Act(t, "", true);
    sts', acts', st' := Begin(sts, acts, p, q, t, PostTask(e));
    sts', acts', st' := Do(sts', acts', p, q, go);
    assert st' == st.(pcs := st.pcs[t := PostLock(e)]);
    sts', acts', st' := Do(sts', acts', p, q, go);
    var held := st.(holder := Some(t), ticket := st.ticket + 1);
    assert st' == held.(pcs := st.pcs[t := PostOpenDir(e)]);
    sts', acts', st' := Do(sts', acts', p, q, go);
  }

  // If the directory holds one file, it comes to its fopen next.
  lemma PostComesToFopen(sts: seq<State>, acts: seq<Action>, p: nat, q: nat, t: Tid, e: string)
      returns (sts': seq<State>, acts': seq<Action>)
    requires Built(sts, acts, p, q) && |Posts(sts[|acts|])| < p
    requires var st := sts[|acts|]; t !in st.pcs && st.holder.None? && e in st.dirs && st.dirs[e] == {"1"}
    ensures Built(sts', acts', p, q)
    ensures var st := sts[|acts|];
            sts'[|acts'|] == st.(pcs := st.pcs[t := PostFopen(e, 2)], holder := Some(t), ticket := st.ticket + 1)
  {
    var held := sts[|acts|].(holder := Some(t), ticket := sts[|acts|].ticket + 1);
    var st: State;
    assert "1"[..0] == "" && Value("1") == 1 && {"1"} - {"1"} == {};
    sts', acts' := PostComesToScan(sts, acts, p, q, t, e);
    sts', acts', st := Do(sts', acts', p, q, Act(t, "1", true));
    assert st == held.(pcs := held.pcs[t := PostScan(e, {}, 1)]);
    sts', acts', st := Do(sts', acts', p, q, Act(t, "", true));
  }

  // A new PUT, undisturbed, stores its file and stands before its unlock.
  lemma PutStores(sts: seq<State>, acts: seq<Action>, p: nat, q: nat, t: Tid, e: string, n: string)
      returns (sts': seq<State>, acts': seq<Action>)
    requires Built(sts, acts, p, q) && |Puts(sts[|acts|])| < q && IsDigits(n)
    requires var st := sts[|acts|]; t !in st.pcs && st.holder.None? && e in st.dirs
    ensures Built(sts', acts', p, q)
    ensures var st := sts[|acts|];
            sts'[|acts'|] == st.(pcs := st.pcs[t := PutUnlock(e, n, true)], holder := Some(t),
                                 dirs := st.dirs[e := st.dirs[e] + {n}], ticket := st.ticket + 1)
  {
    var st := sts[|acts|];
    var st': State;
    var go := Act(t, "", true);
    sts', acts', st' := Begin(sts, acts, p, q, t, PutTask(e, n));
    assert st' == st.(pcs := st.pcs[t := PutCheck(e, n)]);
    sts', acts', st' := Do(sts', acts', p, q, go);
    assert st' == st.(pcs := st.pcs[t := PutLock(e, n)]);
    sts', acts', st' := Do(sts', acts', p, q, go);
    var held := st.(holder := Some(t), ticket := st.ticket + 1);
    assert st' == held.(pcs := st.pcs[t := PutFopen(e, n)]);
    sts', acts', st' := Do(sts', acts', p, q, go);
  }

  // A first PUT makes the directory and takes the mutex.
  lemma PutComesToFopen(e: string) returns (sts: seq<State>, acts: seq<Action>)
    ensures Built(sts, acts, 1, 1)
    ensures sts[|acts|] == State(map[0 := PutFopen(e, "1")], Some(0), map[e := {}], 1, [])
  {
    var st: State;
    var go := Act(0, "", true);
    assert Posts(INITIAL) == {} && Puts(INITIAL) == {};
    sts, acts, st := Begin([INITIAL], [], 1, 1, 0, PutTask(e, "1"));
    sts, acts, st := Do(sts, acts, 1, 1, go);
    assert st == State(map[0 := PutMkdir(e, "1")], None, map[], 0, []);
    sts, acts, st := Do(sts, acts, 1, 1, go);
    assert st == State(map[0 := PutLock(e, "1")], None, map[e := {}], 0, []);
    sts, acts, st := Do(sts, acts, 1, 1, go);
    assert st == State(map[0 := PutFopen(e, "1")], Some(0), map[e := {}], 1, []);
  }

  // It stores id 1, releases, and has its guard still to destroy.
  lemma PutComesToExit(e: string) returns (sts: seq<State>, acts: seq<Action>)
    ensures Built(sts, acts, 1, 1)
    ensures sts[|acts|] == State(map[0 := PutExit], None, map[e := {"1"}], 1, [])
  {
    var st: State;
    var go := Act(0, "", true);
    sts, acts := PutComesToFopen(e);
    sts, acts, st := Do(sts, acts, 1, 1, go);
    assert st.dirs[e] == {"1"};
    assert st == State(map[0 := PutUnlock(e, "1", true)], Some(0), map[e := {"1"}], 1, []);
    sts, acts, st := Do(sts, acts, 1, 1, go);
    assert st == State(map[0 := PutWrite(e, "1")], None, map[e := {"1"}], 1, []);
    sts, acts, st := Do(sts, acts, 1, 1, go);
    assert st == State(map[0 := PutExit], None, map[e := {"1"}], 1, []);
  }

  // A first POST makes the directory and scans it.
  lemma FirstPostComesToFopen(e: string) returns (sts: seq<State>, acts: seq<Action>)
    ensures Built(sts, acts, 2, 0)
    ensures sts[|acts|] == State(map[0 := PostFopen(e, 1)], Some(0), map[e := {}], 1, [])
  {
    var st: State;
    var go := Act(0, "", true);
    assert Posts(INITIAL) == {} && Puts(INITIAL) == {};
    sts, acts, st := Begin([INITIAL], [], 2, 0, 0, PostTask(e));
    sts, acts, st := Do(sts, acts, 2, 0, go);
    assert st == State(map[0 := PostMkdir(e)], None, map[], 0, []);
    sts, acts, st := Do(sts, acts, 2, 0, go);
    assert st == State(map[0 := PostLock(e)], None, map[e := {}], 0, []);
    sts, acts, st := Do(sts, acts, 2, 0, go);
    assert st == State(map[0 := PostOpenDir(e)], Some(0), map[e := {}], 1, []);
    sts, acts, st := Do(sts, acts, 2, 0, go);
    assert st == State(map[0 := PostScan(e, {}, 0)], Some(0), map[e := {}], 1, []);
    sts, acts, st := Do(sts, acts, 2, 0, go);
    assert st == State(map[0 := PostFopen(e, 1)], Some(0), map[e := {}], 1, []);
  }

  lemma FirstPostComesToExit(e: string) returns (sts: seq<State>, acts: seq<Action>)
    ensures Built(sts, acts, 2, 0)
    ensures sts[|acts|] == State(map[0 := PostExit], None, map[e := {"1"}], 1, [Grant(1, 0, e, 1)])
  {
    var st: State;
    var go := Act(0, "", true);
    sts, acts := FirstPostComesToFopen(e);
    assert Decimal(1) == "1";
    sts, acts, st := Do(sts, acts, 2, 0, go);
    assert st.dirs[e] == {"1"};
    var g := [Grant(1, 0, e, 1)];
    assert st == State(map[0 := PostUnlock(e, Some(1))], Some(0), map[e := {"1"}], 1, g);
    sts, acts, st := Do(sts, acts, 2, 0, go);
    assert st == State(map[0 := PostWrite(e, 1)], None, map[e := {"1"}], 1, g);
    sts, acts, st := Do(sts, acts, 2, 0, go);
    assert st == State(map[0 := PostExit], None, map[e := {"1"}], 1, g);
  }

  // ---- Two writers are too many ----

  // One POST beside one PUT: a second release by an earlier PUT lets a PUT store the id that the
  // POST has already chosen.
  lemma PostMeetsPut(e: string) returns (sts: seq<State>, acts: seq<Action>, i: nat)
    ensures Built(sts, acts, 1, 1) && i < |acts| && Overwrites(sts[i], acts[i])
  {
    sts, acts := PutComesToExit(e);
    assert Posts(sts[|acts|]) == {};
    sts, acts := PostComesToFopen(sts, acts, 1, 1, 1, e);
    var st: State;
    sts, acts, st := Do(sts, acts, 1, 1, Act(0, "", true));
    assert st == State(map[0 := Done, 1 := PostFopen(e, 2)], None, map[e := {"1"}], 2, []);
    assert Puts(st) == {};
    DecimalRoundTrip(2);
    sts, acts := PutStores(sts, acts, 1, 1, 2, e, Decimal(2));
    i := |acts|;
    st := sts[i];
    assert Files(st.dirs, e, Decimal(2)) && st.pcs[1] == PostFopen(e, 2);
    sts, acts, st := Do(sts, acts, 1, 1, Act(1, "", true));
  }

  // Two threads stand before the fopen of one id: both open it.
  lemma BothOpenIt(sts: seq<State>, acts: seq<Action>, p: nat, q: nat, e: string)
      returns (sts': seq<State>, acts': seq<Action>)
    requires Built(sts, acts, p, q)
    requires sts[|acts|].pcs.Keys >= {1, 2} && e in sts[|acts|].dirs
    requires sts[|acts|].pcs[1] == PostFopen(e, 2) && sts[|acts|].pcs[2] == PostFopen(e, 2)
    ensures Built(sts', acts', p, q) && |acts'| == |acts| + 2 && sts'[|acts|] == sts[|acts|]
    ensures BothOpen(sts', acts', |acts|, e, 2) && !IdsDistinct(sts'[|acts'|])
  {
    var i, st := |acts|, sts[|acts|];
    var st1, st2: State;
    sts', acts', st1 := Do(sts, acts, p, q, Act(1, "", true));
    assert st1.grants == st.grants + [Grant(st.ticket, 1, e, 2)] && st1.pcs[2] == PostFopen(e, 2);
    assert Files(st1.dirs, e, Decimal(2));
    sts', acts', st2 := Do(sts', acts', p, q, Act(2, "", true));
    assert st2.grants == st1.grants + [Grant(st1.ticket, 2, e, 2)];
    assert st2.grants[|st.grants|].id == st2.grants[|st.grants| + 1].id;
    assert sts'[i] == st && sts'[i + 1] == st1 && acts'[i] == Act(1, "", true);
  }

  // Two POSTs: a second release by an earlier one lets both scan at once, and both open the file of
  // one id, so that the second truncates what the first is given.
  lemma PostMeetsPost(e: string) returns (sts: seq<State>, acts: seq<Action>, i: nat)
    ensures Built(sts, acts, 2, 0) && |acts| == i + 2
    ensures !OneAtATime(sts[i]) && BothOpen(sts, acts, i, e, 2) && !IdsDistinct(sts[i + 2])
  {
    sts, acts := FirstPostComesToExit(e);
    assert Posts(sts[|acts|]) == {0};
    sts, acts := PostComesToFopen(sts, acts, 2, 0, 1, e);
    var st: State;
    sts, acts, st := Do(sts, acts, 2, 0, Act(0, "", true));
    assert st.pcs == map[0 := Done, 1 := PostFopen(e, 2)] && st.dirs == map[e := {"1"}];
    assert Posts(st) == {1};
    sts, acts := PostComesToFopen(sts, acts, 2, 0, 2, e);
    i := |acts|;
    assert Holds(sts[i].pcs[1]) && Holds(sts[i].pcs[2]);
    sts, acts := BothOpenIt(sts, acts, 2, 0, e);
  }

  lemma TwoPostsOpenOneFile(e: string)
    ensures exists sts, acts, i :: Run(sts, acts) && WritersWithin(sts, 2) && BothOpen(sts, acts, i, e, 2)
  {
    var sts, acts, i := PostMeetsPost(e);
  }

  // Two POSTs open the file of one id one after the other, and the second finds it there.
  ghost predicate BothOpen(sts: seq<State>, acts: seq<Action>, i: nat, e: string, id: nat)
    requires Run(sts, acts)
  {
    && i + 1 < |acts|
    && Opens(sts[i], acts[i]) && Overwrites(sts[i + 1], acts[i + 1]) && acts[i].t != acts[i + 1].t
    && sts[i].pcs[acts[i].t] == PostFopen(e, id) && sts[i + 1].pcs[acts[i + 1].t] == PostFopen(e, id)
  }

  // ---- The exact limits ----

  // No POST ever overwrites a file exactly if no POST is in flight, or a single one and no PUT.
  lemma OverwriteThreshold(p: nat, q: nat)
    ensures SafeWith(p, q) <==> p == 0 || (p == 1 && q == 0)
  {
    if p == 0 || (p == 1 && q == 0) {
      forall sts, acts | Run(sts, acts) && Within(sts, p, q) ensures NeverOverwrites(sts, acts) {
        if p == 0 { NoPostRun(sts, acts, q); } else { OneWriterRun(sts, acts); }
      }
    } else if p >= 2 {
      var sts, acts, i := PostMeetsPost("e");
      assert Within(sts, p, q) && !NeverOverwrites(sts, acts);
    } else {
      var sts, acts, i := PostMeetsPut("e");
      assert Within(sts, p, q) && !NeverOverwrites(sts, acts);
    }
  }

  // Whatever the kinds: POSTs are safe, the mutex excludes, and without DELETE ids are distinct, in
  // every run with at most b POSTs and PUTs in flight, exactly if b is at most one.
  lemma WriterThreshold(b: nat)
    ensures SafeUpTo(b) <==> b <= 1
    ensures ExclusiveUpTo(b) <==> b <= 1
    ensures DistinctUpTo(b) <==> b <= 1
  {
    if b <= 1 {
      forall sts, acts | Run(sts, acts) && WritersWithin(sts, b)
        ensures NeverOverwrites(sts, acts)
        ensures forall k :: 0 <= k < |sts| ==> OneAtATime(sts[k])
        ensures NoDelete(acts) ==> IdsDistinct(sts[|acts|])
      {
        assert WritersWithin(sts, 1);
        OneWriterRun(sts, acts);
      }
    } else {
      var sts, acts, i := PostMeetsPost("e");
      assert WritersWithin(sts, b) && !NeverOverwrites(sts, acts);
    }
  }

  // ---- In every run, whatever the mutex does ----

  predicate Scanning(st: State, t: Tid, e: string) {
    t in st.pcs && (st.pcs[t].PostScan? || st.pcs[t].PostFopen?) && st.pcs[t].e == e
  }

  // Thread t opens its directory at step d and is at its scan or fopen from then up to state i.
  ghost predicate ScansFrom(sts: seq<State>, acts: seq<Action>, d: nat, i: nat, t: Tid, e: string)
    requires |sts| == |acts| + 1
  {
    && d < i < |sts|
    && OpensDir(sts[d], acts[d], t, e)
    && forall k :: d < k <= i ==> Scanning(sts[k], t, e)
  }

  lemma ScanStepBack(st: State, a: Action, t: Tid, e: string)
    requires Enabled(st, a) && Scanning(Next(st, a), t, e)
    ensures Scanning(st, t, e) || OpensDir(st, a, t, e)
  {
  }

  predicate OpensDir(st: State, a: Action, t: Tid, e: string) {
    a.Act? && a.t == t && t in st.pcs && st.pcs[t] == PostOpenDir(e)
  }

  lemma RunStepBack(sts: seq<State>, acts: seq<Action>, i: nat, t: Tid, e: string)
    requires Run(sts, acts) && i < |sts| && Scanning(sts[i], t, e)
    ensures i > 0 && (Scanning(sts[i - 1], t, e) || OpensDir(sts[i - 1], acts[i - 1], t, e))
  {
    var st, a := sts[i - 1], acts[i - 1];
    assert Enabled(st, a) && sts[i] == Next(st, a);
    ScanStepBack(st, a, t, e);
  }

  lemma ScansOn(sts: seq<State>, acts: seq<Action>, d: nat, i: nat, t: Tid, e: string)
    requires |sts| == |acts| + 1 && 0 < i < |sts|
    requires ScansFrom(sts, acts, d, i - 1, t, e) && Scanning(sts[i], t, e)
    ensures ScansFrom(sts, acts, d, i, t, e)
  {
  }

  // Before each state in which the thread scans, it scanned already or opened its directory.
  ghost predicate StepsBack(sts: seq<State>, acts: seq<Action>, t: Tid, e: string)
    requires |sts| == |acts| + 1
  {
    forall j :: 0 <= j < |sts| && Scanning(sts[j], t, e) ==>
      j > 0 && (Scanning(sts[j - 1], t, e) || OpensDir(sts[j - 1], acts[j - 1], t, e))
  }

  lemma {:induction false} ScanStart(sts: seq<State>, acts: seq<Action>, i: nat, t: Tid, e: string) returns (d: nat)
    requires |sts| == |acts| + 1 && StepsBack(sts, acts, t, e) && i < |sts| && Scanning(sts[i], t, e)
    ensures ScansFrom(sts, acts, d, i, t, e)
    decreases i
  {
    if Scanning(sts[i - 1], t, e) {
      d := ScanStart(sts, acts, i - 1, t, e);
      ScansOn(sts, acts, d, i, t, e);
    } else {
      d := i - 1;
    }
  }

  // The scan has still to reach the name, or has counted it.
  predicate Counts(pc: Pc, n: string) {
    match pc
    case PostScan(_, todo, largest) => n in todo || Value(n) <= largest
    case PostFopen(_, id) => Value(n) < id
    case _ => false
  }

  lemma StillCounts(st: State, a: Action, t: Tid, e: string, n: string)
    requires Enabled(st, a) && Scanning(st, t, e) && Scanning(Next(st, a), t, e)
    requires Files(st.dirs, e, n) && Counts(st.pcs[t], n)
    ensures Counts(Next(st, a).pcs[t], n)
  {
  }

  // Another request's fopen at step k put the file there, and it stays until state i.
  ghost predicate PutThereAt(sts: seq<State>, acts: seq<Action>, k: nat, i: nat, t: Tid, e: string, n: string)
    requires Run(sts, acts)
  {
    && k < i < |sts|
    && acts[k].t != t && Creates(sts[k], acts[k], e, n)
    && forall m :: k < m <= i ==> Files(sts[m].dirs, e, n)
  }

  lemma {:induction false} CountedOrPutThere(sts: seq<State>, acts: seq<Action>, d: nat, i: nat, t: Tid,
                                             e: string, n: string)
    requires Run(sts, acts) && ScansFrom(sts, acts, d, i, t, e) && Files(sts[i].dirs, e, n)
    ensures Counts(sts[i].pcs[t], n) || exists k :: d < k && PutThereAt(sts, acts, k, i, t, e, n)
    decreases i
  {
    var st, a := sts[i - 1], acts[i - 1];
    assert Enabled(st, a) && sts[i] == Next(st, a);
    if i == d + 1 {
    } else if Files(st.dirs, e, n) {
      CountedOrPutThere(sts, acts, d, i - 1, t, e, n);
      if Counts(st.pcs[t], n) {
        StillCounts(st, a, t, e, n);
      } else {
        var k :| d < k && PutThereAt(sts, acts, k, i - 1, t, e, n);
        assert PutThereAt(sts, acts, k, i, t, e, n);
      }
    } else {
      DirsAfterStep(st, a);
      assert a.t != t by { assert Scanning(sts[i], t, e) && Scanning(st, t, e); }
      assert PutThereAt(sts, acts, i - 1, i, t, e, n);
    }
  }

  // A POST opens a file that is there exactly if another request's fopen put that very name there
  // after the POST had opened its directory, and it was not removed since.
  lemma OverwriteCause(sts: seq<State>, acts: seq<Action>, i: nat) returns (d: nat)
    requires Run(sts, acts) && i < |acts| && Opens(sts[i], acts[i])
    ensures var t := acts[i].t; var (e, n) := (sts[i].pcs[t].e, Decimal(sts[i].pcs[t].id));
            && ScansFrom(sts, acts, d, i, t, e)
            && (Overwrites(sts[i], acts[i]) <==> exists k :: d < k && PutThereAt(sts, acts, k, i, t, e, n))
  {
    var t := acts[i].t;
    var pc := sts[i].pcs[t];
    forall j: nat | j < |sts| && Scanning(sts[j], t, pc.e)
      ensures j > 0 && (Scanning(sts[j - 1], t, pc.e) || OpensDir(sts[j - 1], acts[j - 1], t, pc.e))
    {
      RunStepBack(sts, acts, j, t, pc.e);
    }
    d := ScanStart(sts, acts, i, t, pc.e);
    DecimalRoundTrip(pc.id);
    if Overwrites(sts[i], acts[i]) {
      CountedOrPutThere(sts, acts, d, i, t, pc.e, Decimal(pc.id));
    }
  }
}
