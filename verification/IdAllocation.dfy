// POST, PUT and DELETE as interleaved steps: the creation mutex guards the scan and the fopen,
// DELETE takes no lock, and each writer releases the mutex twice.
module IdAllocation {
  import opened Wrappers
  import opened FileIds

  type Tid = nat

  // The entity directories under the data directory, with the names of the files in each.
  type Dirs = map<string, set<string>>

  datatype Task = PostTask(e: string) | PutTask(e: string, n: string) | DeleteTask(e: string, n: string)

  // Where a thread is: each constructor stands just before the step it names. At an exit the lock
  // guard, which still counts itself the owner, is about to unlock the mutex again.
  datatype Pc =
    | PostCheck(e: string) | PostMkdir(e: string) | PostLock(e: string)
    | PostOpenDir(e: string) | PostScan(e: string, todo: set<string>, largest: nat) | PostFopen(e: string, id: nat)
    | PostUnlock(e: string, result: Option<nat>) | PostWrite(e: string, id: nat)
    | PutCheck(e: string, n: string) | PutMkdir(e: string, n: string) | PutLock(e: string, n: string)
    | PutFopen(e: string, n: string) | PutUnlock(e: string, n: string, ok: bool) | PutWrite(e: string, n: string)
    | DeleteCheck(e: string, n: string) | DeleteRemove(e: string, n: string)
    | DeleteIsEmpty(e: string) | DeleteRemoveAll(e: string)
    | PostExit | PutExit | Done

  // A POST that opened its file: which acquisition of the mutex it was, and the id it returns.
  datatype Grant = Grant(ticket: nat, t: Tid, e: string, id: nat)

  // `ticket` counts acquisitions of the mutex; the holder's is the current one.
  datatype State = State(pcs: map<Tid, Pc>, holder: Option<Tid>, dirs: Dirs, ticket: nat, grants: seq<Grant>)

  const INITIAL := State(map[], None, map[], 0, [])

  // `name` picks the next directory entry; `flag` decides what the environment decides: whether
  // fopen succeeds, whether a vanished entry is still returned, whether remove_all goes on.
  datatype Action = Spawn(t: Tid, task: Task) | Act(t: Tid, name: string, flag: bool)

  function FirstPc(task: Task): Pc {
    match task
    case PostTask(e) => PostCheck(e)
    case PutTask(e, n) => PutCheck(e, n)
    case DeleteTask(e, n) => DeleteCheck(e, n)
  }

  predicate Holds(pc: Pc) {
    pc.PostOpenDir? || pc.PostScan? || pc.PostFopen? || pc.PostUnlock? || pc.PutFopen? || pc.PutUnlock?
  }

  predicate AtExit(pc: Pc) { pc.PostExit? || pc.PutExit? }

  predicate Files(dirs: Dirs, e: string, n: string) { e in dirs && n in dirs[e] }

  predicate Enabled(st: State, a: Action) {
    match a
    case Spawn(t, task) => t !in st.pcs && (task.PutTask? ==> IsDigits(task.n))
    case Act(t, name, flag) =>
      t in st.pcs &&
      match st.pcs[t]
      case PostLock(_) => st.holder.None?
      case PutLock(_, _) => st.holder.None?
      case PostScan(e, todo, largest) =>
        // The entry is returned, or it has been removed meanwhile and is passed over.
        if todo == {} then largest < INT_MAX
        else name in todo && (flag || !Files(st.dirs, e, name))
      case DeleteRemoveAll(e) => flag ==> Files(st.dirs, e, name)
      case Done => false
      case _ => true
  }

  function Goto(st: State, t: Tid, pc: Pc): State {
    st.(pcs := st.pcs[t := pc])
  }

  function Mkdir(st: State, e: string): State {
    if e in st.dirs then st else st.(dirs := st.dirs[e := {}])
  }

  function AddFile(st: State, e: string, n: string): State
    requires e in st.dirs
  {
    st.(dirs := st.dirs[e := st.dirs[e] + {n}])
  }

  function Acquire(st: State, t: Tid): State {
    st.(holder := Some(t), ticket := st.ticket + 1)
  }

  // Whoever holds the mutex: unlock does not ask. An exception that leaves the scan releases once,
  // through the guard.
  function Release(st: State): State {
    st.(holder := None)
  }

  function Next(st: State, a: Action): State
    requires Enabled(st, a)
  {
    match a
    case Spawn(t, task) => Goto(st, t, FirstPc(task))
    case Act(t, name, flag) =>
      match st.pcs[t]
      case PostCheck(e) => Goto(st, t, if e in st.dirs then PostLock(e) else PostMkdir(e))
      case PostMkdir(e) => Goto(Mkdir(st, e), t, PostLock(e))
      case PostLock(e) => Goto(Acquire(st, t), t, PostOpenDir(e))
      case PostOpenDir(e) =>
        if e in st.dirs then Goto(st, t, PostScan(e, st.dirs[e], 0)) else Goto(Release(st), t, Done)
      case PostScan(e, todo, largest) =>
        if todo == {} then Goto(st, t, PostFopen(e, largest + 1))
        else if !flag then Goto(st, t, PostScan(e, todo - {name}, largest))
        else if Value(name) > INT_MAX then Goto(Release(st), t, Done)
        else Goto(st, t, PostScan(e, todo - {name}, if Value(name) > largest then Value(name) else largest))
      case PostFopen(e, id) =>
        if e in st.dirs && flag then
          var st' := AddFile(st, e, Decimal(id));
          Goto(st'.(grants := st'.grants + [Grant(st.ticket, t, e, id)]), t, PostUnlock(e, Some(id)))
        else Goto(st, t, PostUnlock(e, None))
      case PostUnlock(e, r) => Goto(Release(st), t, if r.Some? then PostWrite(e, r.value) else PostExit)
      case PostWrite(_, _) => Goto(st, t, PostExit)
      case PutCheck(e, n) => Goto(st, t, if e in st.dirs then PutLock(e, n) else PutMkdir(e, n))
      case PutMkdir(e, n) => Goto(Mkdir(st, e), t, PutLock(e, n))
      case PutLock(e, n) => Goto(Acquire(st, t), t, PutFopen(e, n))
      case PutFopen(e, n) =>
        if e in st.dirs && flag then Goto(AddFile(st, e, n), t, PutUnlock(e, n, true))
        else Goto(st, t, PutUnlock(e, n, false))
      case PutUnlock(e, n, ok) => Goto(Release(st), t, if ok then PutWrite(e, n) else PutExit)
      case PutWrite(_, _) => Goto(st, t, PutExit)
      case PostExit => Goto(Release(st), t, Done)
      case PutExit => Goto(Release(st), t, Done)
      case DeleteCheck(e, n) => Goto(st, t, if Files(st.dirs, e, n) then DeleteRemove(e, n) else Done)
      case DeleteRemove(e, n) =>
        Goto(if e in st.dirs then st.(dirs := st.dirs[e := st.dirs[e] - {n}]) else st, t, DeleteIsEmpty(e))
      case DeleteIsEmpty(e) => Goto(st, t, if e in st.dirs && st.dirs[e] == {} then DeleteRemoveAll(e) else Done)
      case DeleteRemoveAll(e) =>
        if flag then st.(dirs := st.dirs[e := st.dirs[e] - {name}])
        else Goto(if e in st.dirs && st.dirs[e] == {} then st.(dirs := st.dirs - {e}) else st, t, Done)
  }

  // ---- Safety with unlocked deletes ----

  // What the thread holding the mutex knows about the directory it scans.
  ghost predicate ScanKnows(dirs: Dirs, pc: Pc) {
    match pc
    case PostScan(e, todo, largest) => forall n :: Files(dirs, e, n) ==> n in todo || Value(n) <= largest
    case PostFopen(e, id) => forall n :: Files(dirs, e, n) ==> Value(n) < id
    case _ => true
  }

  // The recorded holder is the one thread between lock and unlock.
  ghost predicate HolderIsTrue(st: State) {
    && (forall t :: t in st.pcs ==> (Holds(st.pcs[t]) <==> st.holder == Some(t)))
    && (st.holder.Some? ==> st.holder.value in st.pcs)
  }

  ghost predicate Safe(st: State) {
    HolderIsTrue(st) && forall t :: t in st.pcs ==> ScanKnows(st.dirs, st.pcs[t])
  }

  // ---- What a step does to files and directories ----

  // The step's fopen puts the file there, or truncates it.
  predicate Creates(st: State, a: Action, e: string, n: string) {
    a.Act? && a.t in st.pcs && a.flag && e in st.dirs &&
    match st.pcs[a.t]
    case PostFopen(e', id) => e' == e && n == Decimal(id)
    case PutFopen(e', n') => e' == e && n == n'
    case _ => false
  }

  // The step removes the file of that name, by remove or by remove_all.
  predicate Removes(st: State, a: Action, e: string, n: string) {
    a.Act? && a.t in st.pcs &&
    match st.pcs[a.t]
    case DeleteRemove(e', n') => e' == e && n' == n
    case DeleteRemoveAll(e') => e' == e && a.flag && a.name == n
    case _ => false
  }

  predicate Makes(st: State, a: Action, e: string) {
    a.Act? && a.t in st.pcs && (st.pcs[a.t] == PostMkdir(e) || (st.pcs[a.t].PutMkdir? && st.pcs[a.t].e == e))
  }

  // The last step of remove_all, which only drops an empty directory.
  predicate Drops(st: State, a: Action, e: string) {
    a.Act? && a.t in st.pcs && st.pcs[a.t] == DeleteRemoveAll(e) && !a.flag && e in st.dirs && st.dirs[e] == {}
  }

  // Exactly which files and directories there are after a step.
  lemma DirsAfterStep(st: State, a: Action)
    requires Enabled(st, a)
    ensures forall e, n :: Files(Next(st, a).dirs, e, n)
              <==> Creates(st, a, e, n) || (Files(st.dirs, e, n) && !Removes(st, a, e, n))
    ensures forall e :: e in Next(st, a).dirs <==> Makes(st, a, e) || (e in st.dirs && !Drops(st, a, e))
  {
  }

  // A second release finds nobody between lock and unlock.
  ghost predicate Quiet(st: State, a: Action) {
    a.Act? && a.t in st.pcs && AtExit(st.pcs[a.t]) ==> forall t :: t in st.pcs ==> !Holds(st.pcs[t])
  }

  // A step keeps the record true exactly when it is no second release under another's lock.
  lemma HolderStep(st: State, a: Action)
    requires HolderIsTrue(st) && Enabled(st, a)
    ensures HolderIsTrue(Next(st, a)) <==> Quiet(st, a)
  {
    var st' := Next(st, a);
    if !Quiet(st, a) {
      var t :| t in st.pcs && Holds(st.pcs[t]);
      assert t in st'.pcs && Holds(st'.pcs[t]) && st'.holder.None?;
    } else if a.Act? && AtExit(st.pcs[a.t]) {
      assert st.holder.None?;
    }
  }

  lemma OwnScanStep(st: State, a: Action)
    requires Safe(st) && Enabled(st, a) && a.Act?
    ensures ScanKnows(Next(st, a).dirs, Next(st, a).pcs[a.t])
  {
    assert ScanKnows(st.dirs, st.pcs[a.t]);
  }

  lemma StepSafe(st: State, a: Action)
    requires Safe(st) && Enabled(st, a) && Quiet(st, a)
    ensures Safe(Next(st, a))
  {
    var st' := Next(st, a);
    HolderStep(st, a);
    if a.Act? { OwnScanStep(st, a); }
    forall t | t in st'.pcs ensures ScanKnows(st'.dirs, st'.pcs[t]) {
      if t != a.t {
        assert st'.pcs[t] == st.pcs[t] && ScanKnows(st.dirs, st.pcs[t]);
        if a.Act? && (st.pcs[a.t].PostFopen? || st.pcs[a.t].PutFopen?) {
          assert !Holds(st.pcs[t]);
        } else {
          DirsAfterStep(st, a);
        }
      }
    }
  }

  // ---- Names are numbers ----

  ghost predicate NamesAreDigits(st: State) {
    && (forall e, n :: Files(st.dirs, e, n) ==> IsDigits(n))
    && (forall t :: t in st.pcs ==> PutsDigits(st.pcs[t]) && ScansDigits(st.pcs[t]))
  }

  ghost predicate PutsDigits(pc: Pc) {
    pc.PutCheck? || pc.PutMkdir? || pc.PutLock? || pc.PutFopen? ==> IsDigits(pc.n)
  }

  ghost predicate ScansDigits(pc: Pc) {
    pc.PostScan? ==> forall n :: n in pc.todo ==> IsDigits(n)
  }

  lemma StepDigits(st: State, a: Action)
    requires NamesAreDigits(st) && Enabled(st, a)
    ensures NamesAreDigits(Next(st, a))
  {
    var st' := Next(st, a);
    if a.Act? {
      var pc := st.pcs[a.t];
      assert PutsDigits(pc) && ScansDigits(pc);
      if pc.PostFopen? { DecimalRoundTrip(pc.id); }
      forall e, n | Files(st'.dirs, e, n) ensures IsDigits(n) {
        if Files(st.dirs, e, n) {
        } else if pc.PostFopen? {
          assert n == Decimal(pc.id);
        } else if pc.PutFopen? {
          assert n == pc.n;
        } else {
          DirsAfterStep(st, a);
        }
      }
      if pc.PostOpenDir? && pc.e in st.dirs { assert forall n :: n in st.dirs[pc.e] ==> Files(st.dirs, pc.e, n); }
    }
    forall t | t in st'.pcs && t != a.t ensures PutsDigits(st'.pcs[t]) && ScansDigits(st'.pcs[t]) {
      assert PutsDigits(st.pcs[t]) && ScansDigits(st.pcs[t]);
    }
  }

  // ---- Grants ----

  // The mutex is held and the id of this acquisition is not decided yet.
  predicate Undecided(pc: Pc) { pc.PostOpenDir? || pc.PostScan? || pc.PostFopen? }

  // Grants are in order of acquisition, at most one to an acquisition.
  ghost predicate Ordered(st: State) {
    && (forall i, j :: 0 <= i < j < |st.grants| ==> st.grants[i].ticket < st.grants[j].ticket)
    && (forall i :: 0 <= i < |st.grants| ==> st.grants[i].ticket <= st.ticket)
    && (forall t :: t in st.pcs && Undecided(st.pcs[t]) ==> NotYetGranted(st))
  }

  ghost predicate NotYetGranted(st: State) {
    forall i :: 0 <= i < |st.grants| ==> st.grants[i].ticket < st.ticket
  }

  // Only a POST's fopen grants an id, to the ticket of the current acquisition.
  lemma NextGrants(st: State, a: Action)
    requires Enabled(st, a)
    ensures var st' := Next(st, a);
            && st'.ticket >= st.ticket
            && (st'.grants != st.grants ==>
                  && a.Act? && st.pcs[a.t].PostFopen? && st'.pcs[a.t].PostUnlock? && st'.ticket == st.ticket
                  && st'.grants == st.grants + [Grant(st.ticket, a.t, st.pcs[a.t].e, st.pcs[a.t].id)])
            && (a.Act? && Undecided(st'.pcs[a.t]) ==> st'.ticket > st.ticket || Undecided(st.pcs[a.t]))
  {
  }

  lemma OrderedStep(st: State, a: Action)
    requires HolderIsTrue(st) && Ordered(st) && Enabled(st, a)
    ensures Ordered(Next(st, a))
  {
    var st' := Next(st, a);
    NextGrants(st, a);
    if st'.grants != st.grants { assert NotYetGranted(st); }
    forall t | t in st'.pcs && Undecided(st'.pcs[t]) ensures NotYetGranted(st') {
      if t != a.t {
        assert st'.pcs[t] == st.pcs[t] && Holds(st.pcs[t]);
      }
    }
  }

  // ---- Runs ----

  ghost predicate Run(sts: seq<State>, acts: seq<Action>) {
    && |sts| == |acts| + 1
    && sts[0] == INITIAL
    && forall i :: 0 <= i < |acts| ==> Enabled(sts[i], acts[i]) && sts[i + 1] == Next(sts[i], acts[i])
  }

  // Step k creates the file and no step from there up to state i removes it.
  ghost predicate CreatedAndKept(sts: seq<State>, acts: seq<Action>, k: nat, i: nat, e: string, n: string)
    requires |sts| == |acts| + 1 && i < |sts|
  {
    k < i && Creates(sts[k], acts[k], e, n) && forall m :: k < m < i ==> !Removes(sts[m], acts[m], e, n)
  }

  ghost predicate MadeAndKept(sts: seq<State>, acts: seq<Action>, k: nat, i: nat, e: string)
    requires |sts| == |acts| + 1 && i < |sts|
  {
    k < i && Makes(sts[k], acts[k], e) && forall m :: k < m < i ==> !Drops(sts[m], acts[m], e)
  }

  // In every run a file is there exactly if some step created it and no later step removed it.
  lemma {:induction false} FileThereIff(sts: seq<State>, acts: seq<Action>, i: nat, e: string, n: string)
    requires Run(sts, acts) && i < |sts|
    ensures Files(sts[i].dirs, e, n) <==> exists k :: CreatedAndKept(sts, acts, k, i, e, n)
    decreases i
  {
    if i > 0 {
      var j := i - 1;
      FileThereIff(sts, acts, j, e, n);
      assert Enabled(sts[j], acts[j]) && sts[i] == Next(sts[j], acts[j]);
      DirsAfterStep(sts[j], acts[j]);
      if Creates(sts[j], acts[j], e, n) {
        assert CreatedAndKept(sts, acts, j, i, e, n);
      } else if Files(sts[i].dirs, e, n) {
        var k :| CreatedAndKept(sts, acts, k, j, e, n);
        assert CreatedAndKept(sts, acts, k, i, e, n);
      } else if k :| CreatedAndKept(sts, acts, k, i, e, n) {
        assert CreatedAndKept(sts, acts, k, j, e, n);
      }
    }
  }

  // A directory is there exactly if some step made it and no later step dropped it, empty.
  lemma {:induction false} DirThereIff(sts: seq<State>, acts: seq<Action>, i: nat, e: string)
    requires Run(sts, acts) && i < |sts|
    ensures e in sts[i].dirs <==> exists k :: MadeAndKept(sts, acts, k, i, e)
    decreases i
  {
    if i > 0 {
      var j := i - 1;
      DirThereIff(sts, acts, j, e);
      assert Enabled(sts[j], acts[j]) && sts[i] == Next(sts[j], acts[j]);
      DirsAfterStep(sts[j], acts[j]);
      if Makes(sts[j], acts[j], e) {
        assert MadeAndKept(sts, acts, j, i, e);
      } else if e in sts[i].dirs {
        var k :| MadeAndKept(sts, acts, k, j, e);
        assert MadeAndKept(sts, acts, k, i, e);
      } else if k :| MadeAndKept(sts, acts, k, i, e) {
        assert MadeAndKept(sts, acts, k, j, e);
      }
    }
  }

  // A thread that is not done can take its next step, unless it waits for the mutex or its scan has
  // reached INT_MAX.
  lemma CanStep(st: State, t: Tid)
    requires t in st.pcs && st.pcs[t] != Done
    requires st.pcs[t].PostLock? || st.pcs[t].PutLock? ==> st.holder.None?
    requires st.pcs[t].PostScan? && st.pcs[t].todo == {} ==> st.pcs[t].largest < INT_MAX
    ensures exists name, flag :: Enabled(st, Act(t, name, flag))
  {
    var pc := st.pcs[t];
    if pc.PostScan? && pc.todo != {} {
      var name :| name in pc.todo;
      assert Enabled(st, Act(t, name, true));
    } else {
      assert Enabled(st, Act(t, "", false));
    }
  }

  ghost predicate QuietUntil(sts: seq<State>, acts: seq<Action>, i: nat)
    requires |sts| == |acts| + 1 && i < |sts|
  {
    forall k :: 0 <= k < i ==> Quiet(sts[k], acts[k])
  }

  // The recorded holder is the thread between lock and unlock throughout a run exactly when every
  // second release in it is quiet.
  lemma {:induction false} HolderIff(sts: seq<State>, acts: seq<Action>, i: nat)
    requires Run(sts, acts) && i < |sts|
    ensures (forall k :: 0 <= k <= i ==> HolderIsTrue(sts[k])) <==> QuietUntil(sts, acts, i)
    decreases i
  {
    if i > 0 {
      HolderIff(sts, acts, i - 1);
      assert Enabled(sts[i - 1], acts[i - 1]);
      assert sts[i] == Next(sts[i - 1], acts[i - 1]);
      if HolderIsTrue(sts[i - 1]) { HolderStep(sts[i - 1], acts[i - 1]); }
    }
  }

  lemma {:induction false} RunSafe(sts: seq<State>, acts: seq<Action>, i: nat)
    requires Run(sts, acts) && i < |sts| && QuietUntil(sts, acts, i)
    ensures Safe(sts[i]) && NamesAreDigits(sts[i]) && Ordered(sts[i])
    decreases i
  {
    if i > 0 {
      RunSafe(sts, acts, i - 1);
      assert Enabled(sts[i - 1], acts[i - 1]);
      StepSafe(sts[i - 1], acts[i - 1]);
      StepDigits(sts[i - 1], acts[i - 1]);
      OrderedStep(sts[i - 1], acts[i - 1]);
    }
  }

  // The step at which a POST opens its file.
  predicate Opens(st: State, a: Action) {
    a.Act? && a.t in st.pcs && st.pcs[a.t].PostFopen? && a.flag && st.pcs[a.t].e in st.dirs
  }

  // In every run with any number of POST, PUT and DELETE threads, while second releases are quiet:
  // at most one thread is between lock and unlock, and when a POST opens its file every name in the
  // directory is a number below the id, so the file is new.
  lemma PostNeverOverwrites(sts: seq<State>, acts: seq<Action>, i: nat)
    requires Run(sts, acts) && i < |acts| && QuietUntil(sts, acts, i) && Opens(sts[i], acts[i])
    ensures var (e, id) := (sts[i].pcs[acts[i].t].e, sts[i].pcs[acts[i].t].id);
            && (forall n :: Files(sts[i].dirs, e, n) ==> IsDigits(n) && Value(n) < id)
            && !Files(sts[i].dirs, e, Decimal(id))
            && Files(sts[i + 1].dirs, e, Decimal(id))
    ensures forall t :: t in sts[i].pcs && Holds(sts[i].pcs[t]) ==> t == acts[i].t
  {
    RunSafe(sts, acts, i);
    assert Enabled(sts[i], acts[i]) && ScanKnows(sts[i].dirs, sts[i].pcs[acts[i].t]);
    DecimalRoundTrip(sts[i].pcs[acts[i].t].id);
  }

  // ---- Ids stay in the range of int ----

  // A number beyond int ends the scan in an exception, and the largest int has no successor.
  ghost predicate ScansInRange(st: State) {
    && (forall t :: t in st.pcs ==> PcInRange(st.pcs[t]))
    && (forall i :: 0 <= i < |st.grants| ==> 0 < st.grants[i].id <= INT_MAX)
  }

  predicate PcInRange(pc: Pc) {
    (pc.PostScan? ==> pc.largest <= INT_MAX) && (pc.PostFopen? ==> 0 < pc.id <= INT_MAX)
  }

  lemma StepInRange(st: State, a: Action)
    requires ScansInRange(st) && Enabled(st, a)
    ensures ScansInRange(Next(st, a))
  {
    NextGrants(st, a);
    if a.Act? { assert PcInRange(st.pcs[a.t]) && PcInRange(Next(st, a).pcs[a.t]); }
  }

  // In every run every id a POST is granted is positive and fits an int.
  lemma {:induction false} IdsInRange(sts: seq<State>, acts: seq<Action>, i: nat)
    requires Run(sts, acts) && i < |sts|
    ensures ScansInRange(sts[i])
    decreases i
  {
    if i > 0 {
      IdsInRange(sts, acts, i - 1);
      assert Enabled(sts[i - 1], acts[i - 1]) && sts[i] == Next(sts[i - 1], acts[i - 1]);
      StepInRange(sts[i - 1], acts[i - 1]);
    }
  }

  // ---- With DELETE ----

  lemma {:induction false} GoneIsRemoved(sts: seq<State>, acts: seq<Action>, i: nat, j: nat, e: string, n: string)
    returns (k: nat)
    requires Run(sts, acts) && i <= j < |sts| && Files(sts[i].dirs, e, n) && !Files(sts[j].dirs, e, n)
    ensures i <= k < j && Removes(sts[k], acts[k], e, n)
    decreases j - i
  {
    assert Enabled(sts[i], acts[i]) && sts[i + 1] == Next(sts[i], acts[i]);
    if Removes(sts[i], acts[i], e, n) {
      k := i;
    } else {
      DirsAfterStep(sts[i], acts[i]);
      k := GoneIsRemoved(sts, acts, i + 1, j, e, n);
    }
  }

  // With DELETE, ids of one entity increase in the order the files are opened, except that a later
  // POST may be given an id at most g only after a DELETE removed the file of id g in between.
  lemma ReissuedAfterDelete(sts: seq<State>, acts: seq<Action>, i: nat, j: nat)
    requires Run(sts, acts) && i < j < |acts| && QuietUntil(sts, acts, j)
    requires Opens(sts[i], acts[i]) && Opens(sts[j], acts[j])
    requires var g, h := sts[i].pcs[acts[i].t], sts[j].pcs[acts[j].t]; g.e == h.e && h.id <= g.id
    ensures var g := sts[i].pcs[acts[i].t];
            exists k :: i < k < j && Removes(sts[k], acts[k], g.e, Decimal(g.id))
  {
    var g := sts[i].pcs[acts[i].t];
    PostNeverOverwrites(sts, acts, i);
    PostNeverOverwrites(sts, acts, j);
    DecimalRoundTrip(g.id);
    var k := GoneIsRemoved(sts, acts, i + 1, j, g.e, Decimal(g.id));
  }

  // ---- Without DELETE ----

  ghost predicate NoDelete(acts: seq<Action>) {
    forall i :: 0 <= i < |acts| && acts[i].Spawn? ==> !acts[i].task.DeleteTask?
  }

  predicate IsDelete(pc: Pc) {
    pc.DeleteCheck? || pc.DeleteRemove? || pc.DeleteIsEmpty? || pc.DeleteRemoveAll?
  }

  // Every granted file is still there, and ids grow along the grants of an entity.
  ghost predicate Growing(st: State) {
    && (forall t :: t in st.pcs ==> !IsDelete(st.pcs[t]))
    && (forall i :: 0 <= i < |st.grants| ==> Files(st.dirs, st.grants[i].e, Decimal(st.grants[i].id)))
    && (forall i, j :: 0 <= i < j < |st.grants| && st.grants[i].e == st.grants[j].e ==>
          st.grants[i].id < st.grants[j].id)
  }

  lemma GrowingStep(st: State, a: Action)
    requires Safe(st) && Growing(st) && Enabled(st, a) && (a.Spawn? ==> !a.task.DeleteTask?)
    ensures Growing(Next(st, a))
  {
    var st' := Next(st, a);
    if a.Act? {
      assert !IsDelete(st.pcs[a.t]) && ScanKnows(st.dirs, st.pcs[a.t]);
      assert forall e, n :: Files(st.dirs, e, n) ==> Files(st'.dirs, e, n);
    }
    if st'.grants != st.grants {
      var g := st'.grants[|st.grants|];
      forall i | 0 <= i < |st.grants| && st.grants[i].e == g.e ensures st.grants[i].id < g.id {
        DecimalRoundTrip(st.grants[i].id);
      }
    }
  }

  lemma {:induction false} RunGrowing(sts: seq<State>, acts: seq<Action>, i: nat)
    requires Run(sts, acts) && NoDelete(acts) && i < |sts| && QuietUntil(sts, acts, i)
    ensures Growing(sts[i])
    decreases i
  {
    if i > 0 {
      RunGrowing(sts, acts, i - 1);
      RunSafe(sts, acts, i - 1);
      assert Enabled(sts[i - 1], acts[i - 1]);
      GrowingStep(sts[i - 1], acts[i - 1]);
    }
  }

  // In every run without DELETE whose second releases are quiet, the ids POST returns for one entity
  // strictly increase in the order in which the mutex was acquired, so no two are equal.
  lemma IdsIncrease(sts: seq<State>, acts: seq<Action>, g: Grant, h: Grant)
    requires Run(sts, acts) && NoDelete(acts) && QuietUntil(sts, acts, |acts|)
    requires var last := sts[|acts|]; g in last.grants && h in last.grants && g.e == h.e
    ensures g.ticket < h.ticket <==> g.id < h.id
    ensures g.id == h.id ==> g == h
  {
    RunSafe(sts, acts, |acts|);
    RunGrowing(sts, acts, |acts|);
    var gs := sts[|acts|].grants;
    var i :| 0 <= i < |gs| && gs[i] == g;
    var j :| 0 <= j < |gs| && gs[j] == h;
    if i < j {
      assert gs[i].ticket < gs[j].ticket && gs[i].id < gs[j].id;
    } else if j < i {
      assert gs[j].ticket < gs[i].ticket && gs[j].id < gs[i].id;
    }
  }
}
