// Sessions and the acceptor: objects owned only by the asynchronous operation pending on them,
// handled by a pool of threads, and freed with `delete this`.
module SessionLifecycle {

  type Id = nat

  // A pending operation on a session's socket.
  datatype Op = Read(s: Id) | Write(s: Id)

  // A handler that some thread is inside. `Tail` is handle_accept before its start_accept call,
  // `Fresh` is start_accept between new Session and async_accept.
  datatype AcceptFrame = HandleAccept(s: Id, error: bool) | Tail | Fresh(s: Id)

  datatype Frame = HandleRead(s: Id, error: bool) | HandleWrite(s: Id, error: bool)

  datatype Event = ReadStarted | WriteStarted

  datatype State = State(
    threads: nat,
    pendingAccepts: multiset<Id>,
    pending: multiset<Op>,
    accepting: multiset<AcceptFrame>,
    running: multiset<Frame>,
    returning: nat,  // handlers that have handed their session on or deleted it, and only return
    live: set<Id>,
    next: Id,
    deleted: multiset<Id>,
    trace: map<Id, seq<Event>>)

  // After the Server constructor: one session, waiting to be accepted.
  function Initial(threads: nat): State {
    State(threads, multiset{0}, multiset{}, multiset{}, multiset{}, 0, {0}, 1, multiset{}, map[])
  }

  function TraceOf(st: State, s: Id): seq<Event> {
    if s in st.trace then st.trace[s] else []
  }

  // async_read_some and async_write: the operation becomes pending.
  function Initiate(st: State, op: Op): State {
    st.(pending := st.pending + multiset{op},
        trace := st.trace[op.s := TraceOf(st, op.s) + [if op.Read? then ReadStarted else WriteStarted]])
  }

  function Delete(st: State, s: Id): State {
    st.(live := st.live - {s}, deleted := st.deleted + multiset{s})
  }

  datatype Action =
    | CompleteAccept(s: Id, error: bool)
    | Complete(op: Op, error: bool)
    | AcceptStep(a: AcceptFrame)
    | Step(f: Frame)
    | Return

  function Busy(st: State): int { |st.accepting| + |st.running| + st.returning }

  predicate Idle(st: State) { Busy(st) < st.threads }

  predicate Enabled(st: State, act: Action) {
    match act
    case CompleteAccept(s, _) => s in st.pendingAccepts && Idle(st)
    case Complete(op, _) => op in st.pending && Idle(st)
    case AcceptStep(a) => a in st.accepting
    case Step(f) => f in st.running
    case Return => st.returning > 0
  }

  function Next(st: State, act: Action): State
    requires Enabled(st, act)
  {
    match act
    case CompleteAccept(s, error) =>
      st.(pendingAccepts := st.pendingAccepts - multiset{s},
          accepting := st.accepting + multiset{HandleAccept(s, error)})
    case Complete(op, error) =>
      st.(pending := st.pending - multiset{op},
          running := st.running + multiset{if op.Read? then HandleRead(op.s, error) else HandleWrite(op.s, error)})
    case AcceptStep(a) =>
      var st' := st.(accepting := st.accepting - multiset{a});
      (match a
       case HandleAccept(s, error) =>
         var st'' := st'.(accepting := st'.accepting + multiset{Tail});
         if error then Delete(st'', s) else Initiate(st'', Read(s))
       case Tail =>
         st'.(accepting := st'.accepting + multiset{Fresh(st'.next)},
              live := st'.live + {st'.next}, next := st'.next + 1)
       case Fresh(s) =>
         st'.(pendingAccepts := st'.pendingAccepts + multiset{s}, returning := st'.returning + 1))
    case Step(f) =>
      var st' := st.(running := st.running - multiset{f}, returning := st.returning + 1);
      if f.error then Delete(st', f.s) else Initiate(st', if f.HandleRead? then Write(f.s) else Read(f.s))
    case Return =>
      st.(returning := st.returning - 1)
  }

  // ---- Ownership ----

  function AcceptOwners(st: State, s: Id): nat {
    st.pendingAccepts[s] + st.accepting[HandleAccept(s, false)] + st.accepting[HandleAccept(s, true)]
    + st.accepting[Fresh(s)]
  }

  function ReadOwners(st: State, s: Id): nat {
    st.pending[Read(s)] + st.running[HandleRead(s, false)] + st.running[HandleRead(s, true)]
  }

  function WriteOwners(st: State, s: Id): nat {
    st.pending[Write(s)] + st.running[HandleWrite(s, false)] + st.running[HandleWrite(s, true)]
  }

  // Everything that will touch the session again.
  function Owners(st: State, s: Id): nat {
    AcceptOwners(st, s) + ReadOwners(st, s) + WriteOwners(st, s)
  }

  // Reads and response writes alternate, starting with a read.
  ghost predicate Alternates(t: seq<Event>) {
    forall i :: 0 <= i < |t| ==> t[i] == if i % 2 == 0 then ReadStarted else WriteStarted
  }

  // One owner while the session lives; afterwards it has been deleted once and nothing refers to it.
  ghost predicate OwnedOnce(st: State, s: Id) {
    && Owners(st, s) == (if s in st.live then 1 else 0)
    && st.deleted[s] == (if s < st.next && s !in st.live then 1 else 0)
    && (s in st.live ==> s < st.next)
  }

  // What a session has started fits what it is waiting for.
  ghost predicate TraceFits(st: State, s: Id) {
    && Alternates(TraceOf(st, s))
    && (AcceptOwners(st, s) > 0 || s >= st.next ==> TraceOf(st, s) == [])
    && (ReadOwners(st, s) > 0 ==> |TraceOf(st, s)| % 2 == 1)
    && (WriteOwners(st, s) > 0 ==> TraceOf(st, s) != [] && |TraceOf(st, s)| % 2 == 0)
  }

  // One accept at a time, and no more handlers than threads.
  ghost predicate PoolSafe(st: State) {
    && |st.pendingAccepts| + |st.accepting| == 1
    && Busy(st) <= st.threads
  }

  ghost predicate Safe(st: State) {
    PoolSafe(st) && forall s: Id :: OwnedOnce(st, s) && TraceFits(st, s)
  }

  ghost predicate SafeFor(st: State, s: Id) {
    OwnedOnce(st, s) && TraceFits(st, s)
  }

  lemma TakenOut<T>(m: multiset<T>, x: T)
    requires x in m
    ensures |m - multiset{x}| == |m| - 1
  {
  }

  lemma PoolComplete(st: State, op: Op, error: bool)
    requires PoolSafe(st) && Enabled(st, Complete(op, error))
    ensures PoolSafe(Next(st, Complete(op, error)))
  {
  }

  lemma PoolAcceptStep(st: State, a: AcceptFrame)
    requires PoolSafe(st) && Enabled(st, AcceptStep(a))
    ensures PoolSafe(Next(st, AcceptStep(a)))
  {
    TakenOut(st.accepting, a);
  }

  lemma PoolHandler(st: State, f: Frame)
    requires PoolSafe(st) && Enabled(st, Step(f))
    ensures PoolSafe(Next(st, Step(f)))
  {
    TakenOut(st.running, f);
  }

  // A thread is busy from the completion it takes to its return, through every step of the handler.
  lemma StepBusy(st: State, act: Action)
    requires Enabled(st, act)
    ensures Busy(Next(st, act))
         == Busy(st) + if act.CompleteAccept? || act.Complete? then 1 else if act.Return? then -1 else 0
  {
    match act
    case AcceptStep(a) => TakenOut(st.accepting, a);
    case Step(f) => TakenOut(st.running, f);
    case _ =>
  }

  // A completion passes its session from the operation to the handler.
  lemma CompleteOwners(st: State, op: Op, error: bool, s: Id)
    requires Enabled(st, Complete(op, error))
    ensures var st' := Next(st, Complete(op, error));
            && AcceptOwners(st', s) == AcceptOwners(st, s)
            && ReadOwners(st', s) == ReadOwners(st, s)
            && WriteOwners(st', s) == WriteOwners(st, s)
  {
  }

  // A handler passes its session to the operation it starts, or deletes it.
  lemma ReadHandlerOwners(st: State, t: Id, error: bool, s: Id)
    requires Enabled(st, Step(HandleRead(t, error)))
    ensures var st' := Next(st, Step(HandleRead(t, error)));
            && AcceptOwners(st', s) == AcceptOwners(st, s)
            && ReadOwners(st', s) == ReadOwners(st, s) - (if s == t then 1 else 0)
            && WriteOwners(st', s) == WriteOwners(st, s) + (if s == t && !error then 1 else 0)
  {
    assert st.running[HandleRead(t, error)] > 0;
  }

  lemma WriteHandlerOwners(st: State, t: Id, error: bool, s: Id)
    requires Enabled(st, Step(HandleWrite(t, error)))
    ensures var st' := Next(st, Step(HandleWrite(t, error)));
            && AcceptOwners(st', s) == AcceptOwners(st, s)
            && ReadOwners(st', s) == ReadOwners(st, s) + (if s == t && !error then 1 else 0)
            && WriteOwners(st', s) == WriteOwners(st, s) - (if s == t then 1 else 0)
  {
    assert st.running[HandleWrite(t, error)] > 0;
  }

  lemma HandleAcceptOwners(st: State, t: Id, error: bool, s: Id)
    requires Enabled(st, AcceptStep(HandleAccept(t, error)))
    ensures var st' := Next(st, AcceptStep(HandleAccept(t, error)));
            && AcceptOwners(st', s) == AcceptOwners(st, s) - (if s == t then 1 else 0)
            && ReadOwners(st', s) == ReadOwners(st, s) + (if s == t && !error then 1 else 0)
            && WriteOwners(st', s) == WriteOwners(st, s)
  {
    assert st.accepting[HandleAccept(t, error)] > 0;
  }

  // ---- Each step keeps the invariant, one session at a time ----

  lemma CompleteAcceptSafe(st: State, t: Id, error: bool, s: Id)
    requires SafeFor(st, s) && Enabled(st, CompleteAccept(t, error))
    ensures SafeFor(Next(st, CompleteAccept(t, error)), s)
  {
  }

  lemma CompleteSafe(st: State, op: Op, error: bool, s: Id)
    requires SafeFor(st, s) && Enabled(st, Complete(op, error))
    ensures SafeFor(Next(st, Complete(op, error)), s)
  {
    CompleteOwners(st, op, error, s);
  }

  lemma HandleAcceptSafe(st: State, t: Id, error: bool, s: Id)
    requires SafeFor(st, s) && Enabled(st, AcceptStep(HandleAccept(t, error)))
    ensures SafeFor(Next(st, AcceptStep(HandleAccept(t, error))), s)
  {
    HandleAcceptOwners(st, t, error, s);
  }

  lemma TailSafe(st: State, s: Id)
    requires SafeFor(st, s) && Enabled(st, AcceptStep(Tail))
    ensures SafeFor(Next(st, AcceptStep(Tail)), s)
  {
  }

  lemma FreshSafe(st: State, t: Id, s: Id)
    requires SafeFor(st, s) && Enabled(st, AcceptStep(Fresh(t)))
    ensures SafeFor(Next(st, AcceptStep(Fresh(t))), s)
  {
    assert st.accepting[Fresh(t)] > 0;
    assert AcceptOwners(Next(st, AcceptStep(Fresh(t))), s) == AcceptOwners(st, s);
  }

  lemma ReadHandlerSafe(st: State, t: Id, error: bool, s: Id)
    requires SafeFor(st, s) && Enabled(st, Step(HandleRead(t, error)))
    ensures SafeFor(Next(st, Step(HandleRead(t, error))), s)
  {
    ReadHandlerOwners(st, t, error, s);
    assert ReadOwners(st, t) > 0;
  }

  lemma WriteHandlerSafe(st: State, t: Id, error: bool, s: Id)
    requires SafeFor(st, s) && Enabled(st, Step(HandleWrite(t, error)))
    ensures SafeFor(Next(st, Step(HandleWrite(t, error))), s)
  {
    WriteHandlerOwners(st, t, error, s);
    assert WriteOwners(st, t) > 0;
  }

  lemma StepSafeFor(st: State, act: Action, s: Id)
    requires SafeFor(st, s) && Enabled(st, act)
    ensures SafeFor(Next(st, act), s)
  {
    match act
    case CompleteAccept(t, error) => CompleteAcceptSafe(st, t, error, s);
    case Complete(op, error) => CompleteSafe(st, op, error, s);
    case AcceptStep(HandleAccept(t, error)) => HandleAcceptSafe(st, t, error, s);
    case AcceptStep(Tail) => TailSafe(st, s);
    case AcceptStep(Fresh(t)) => FreshSafe(st, t, s);
    case Step(HandleRead(t, error)) => ReadHandlerSafe(st, t, error, s);
    case Step(HandleWrite(t, error)) => WriteHandlerSafe(st, t, error, s);
    case Return =>
  }

  lemma StepSafe(st: State, act: Action)
    requires Safe(st) && Enabled(st, act)
    ensures Safe(Next(st, act))
  {
    var st' := Next(st, act);
    assert PoolSafe(st') by {
      match act
      case CompleteAccept(t, _) => TakenOut(st.pendingAccepts, t);
      case Complete(op, error) => PoolComplete(st, op, error);
      case AcceptStep(a) => PoolAcceptStep(st, a);
      case Step(f) => PoolHandler(st, f);
      case Return =>
    }
    forall s: Id ensures OwnedOnce(st', s) && TraceFits(st', s) {
      assert OwnedOnce(st, s) && TraceFits(st, s);
      StepSafeFor(st, act, s);
    }
  }

  // ---- Whole runs ----

  // Any schedule of the thread pool, with any outcome for each operation.
  ghost predicate Run(sts: seq<State>, acts: seq<Action>, threads: nat) {
    && |sts| == |acts| + 1
    && sts[0] == Initial(threads)
    && forall i :: 0 <= i < |acts| ==> Enabled(sts[i], acts[i]) && sts[i + 1] == Next(sts[i], acts[i])
  }

  // The sessions an action uses.
  function Touches(act: Action): set<Id> {
    match act
    case CompleteAccept(s, _) => {s}
    case Complete(op, _) => {op.s}
    case AcceptStep(a) => if a.Tail? then {} else {a.s}
    case Step(f) => {f.s}
    case Return => {}
  }

  lemma {:induction false} RunSafe(sts: seq<State>, acts: seq<Action>, threads: nat, i: nat)
    requires Run(sts, acts, threads) && i < |sts|
    ensures Safe(sts[i])
    decreases i
  {
    if i > 0 {
      RunSafe(sts, acts, threads, i - 1);
      assert Enabled(sts[i - 1], acts[i - 1]);
      StepSafe(sts[i - 1], acts[i - 1]);
    }
  }

  lemma TouchedIsLive(st: State, act: Action, s: Id)
    requires Safe(st) && Enabled(st, act) && s in Touches(act)
    ensures s in st.live
  {
    assert OwnedOnce(st, s);
  }

  // Whoever owns a session is its only owner: no other handler runs on it, nothing is pending on it.
  lemma HandlerIsAlone(st: State, f: Frame)
    requires Safe(st) && f in st.running
    ensures st.running[f] == 1 && forall g :: g in st.running && g.s == f.s ==> g == f
    ensures Read(f.s) !in st.pending && Write(f.s) !in st.pending && f.s !in st.pendingAccepts
  {
    assert OwnedOnce(st, f.s);
    forall g | g in st.running && g.s == f.s ensures g == f {
      assert g == (if g.HandleRead? then HandleRead(f.s, g.error) else HandleWrite(f.s, g.error));
      assert f == (if f.HandleRead? then HandleRead(f.s, f.error) else HandleWrite(f.s, f.error));
    }
  }

  // In every run, at every point: a live session has one owner and a dead one none, no session is
  // deleted twice, its reads alternate with its writes, one accept is pending or being handled, and
  // every outcome is accounted for.
  lemma {:induction false} EveryRunIsSafe(sts: seq<State>, acts: seq<Action>, threads: nat, i: nat, s: Id)
    requires Run(sts, acts, threads) && i < |sts|
    ensures Owners(sts[i], s) == (if s in sts[i].live then 1 else 0)
    ensures sts[i].deleted[s] <= 1
    ensures Alternates(TraceOf(sts[i], s))
    ensures |sts[i].pendingAccepts| + |sts[i].accepting| == 1
    ensures Accounted(sts[i], multiset(acts[..i]), s)
  {
    OutcomesAccounted(sts, acts, threads, i, s);
    RunSafe(sts, acts, threads, i);
    assert OwnedOnce(sts[i], s) && TraceFits(sts[i], s);
  }

  // In every run no completion or handler uses a session that has been deleted.
  lemma {:induction false} NoUseAfterDelete(sts: seq<State>, acts: seq<Action>, threads: nat, i: nat, s: Id)
    requires Run(sts, acts, threads) && i < |acts| && s in Touches(acts[i])
    ensures s in sts[i].live && sts[i].deleted[s] == 0
  {
    RunSafe(sts, acts, threads, i);
    assert Enabled(sts[i], acts[i]) && OwnedOnce(sts[i], s);
    TouchedIsLive(sts[i], acts[i], s);
  }

  // ---- What becomes of each outcome ----

  // The completions on the session, with and without error, among the actions taken.
  function GoodReads(done: multiset<Action>, s: Id): nat { done[Complete(Read(s), false)] }

  function GoodStarts(done: multiset<Action>, s: Id): nat {
    done[CompleteAccept(s, false)] + done[Complete(Write(s), false)]
  }

  function Failures(done: multiset<Action>, s: Id): nat {
    done[CompleteAccept(s, true)] + done[Complete(Read(s), true)] + done[Complete(Write(s), true)]
  }

  function Count(t: seq<Event>, e: Event): nat {
    if t == [] then 0 else Count(t[..|t| - 1], e) + if t[|t| - 1] == e then 1 else 0
  }

  // How many operations of the kind the session has started.
  function Started(st: State, s: Id, e: Event): nat { Count(TraceOf(st, s), e) }

  // Good reads in their handler, and responses started.
  function Reads(st: State, s: Id): nat {
    st.running[HandleRead(s, false)] + Started(st, s, WriteStarted)
  }

  // Good accepts and writes in their handler, and reads started.
  function Starts(st: State, s: Id): nat {
    st.accepting[HandleAccept(s, false)] + st.running[HandleWrite(s, false)] + Started(st, s, ReadStarted)
  }

  // Failures in their handler, and deletions.
  function Fails(st: State, s: Id): nat {
    st.accepting[HandleAccept(s, true)] + st.running[HandleRead(s, true)] + st.running[HandleWrite(s, true)]
    + st.deleted[s]
  }

  // Each good read is in its handler or has started one response; each good accept or write is in
  // its handler or has started one read; each failure is in its handler or has deleted the session.
  ghost predicate Accounted(st: State, done: multiset<Action>, s: Id) {
    GoodReads(done, s) == Reads(st, s) && GoodStarts(done, s) == Starts(st, s) && Failures(done, s) == Fails(st, s)
  }

  lemma CountSnoc(t: seq<Event>, last: Event, e: Event)
    ensures Count(t + [last], e) == Count(t, e) + if last == e then 1 else 0
  {
    assert (t + [last])[..|t|] == t;
  }

  lemma InitiateStarts(st: State, op: Op, s: Id, e: Event)
    ensures var event := if op.Read? then ReadStarted else WriteStarted;
            Started(Initiate(st, op), s, e) == Started(st, s, e) + if s == op.s && e == event then 1 else 0
  {
    CountSnoc(TraceOf(st, op.s), if op.Read? then ReadStarted else WriteStarted, e);
  }

  // A completion adds its outcome.
  lemma CompleteAcceptAdds(st: State, t: Id, error: bool, s: Id)
    requires Enabled(st, CompleteAccept(t, error))
    ensures var st' := Next(st, CompleteAccept(t, error));
            && Reads(st', s) == Reads(st, s)
            && Starts(st', s) == Starts(st, s) + (if s == t && !error then 1 else 0)
            && Fails(st', s) == Fails(st, s) + (if s == t && error then 1 else 0)
  {
    assert TraceOf(Next(st, CompleteAccept(t, error)), s) == TraceOf(st, s);
  }

  lemma ReadCompletionAdds(st: State, t: Id, error: bool, s: Id)
    requires Enabled(st, Complete(Read(t), error))
    ensures var st' := Next(st, Complete(Read(t), error));
            && Reads(st', s) == Reads(st, s) + (if s == t && !error then 1 else 0)
            && Starts(st', s) == Starts(st, s)
            && Fails(st', s) == Fails(st, s) + (if s == t && error then 1 else 0)
  {
    assert TraceOf(Next(st, Complete(Read(t), error)), s) == TraceOf(st, s);
  }

  lemma WriteCompletionAdds(st: State, t: Id, error: bool, s: Id)
    requires Enabled(st, Complete(Write(t), error))
    ensures var st' := Next(st, Complete(Write(t), error));
            && Reads(st', s) == Reads(st, s)
            && Starts(st', s) == Starts(st, s) + (if s == t && !error then 1 else 0)
            && Fails(st', s) == Fails(st, s) + (if s == t && error then 1 else 0)
  {
    assert TraceOf(Next(st, Complete(Write(t), error)), s) == TraceOf(st, s);
  }

  // A handler takes its outcome out, and puts in the operation it starts, or the deletion.
  lemma InitiateAdds(st: State, op: Op, s: Id)
    ensures var st' := Initiate(st, op);
            && Reads(st', s) == Reads(st, s) + (if op == Write(s) then 1 else 0)
            && Starts(st', s) == Starts(st, s) + (if op == Read(s) then 1 else 0)
            && Fails(st', s) == Fails(st, s)
  {
    InitiateStarts(st, op, s, ReadStarted);
    InitiateStarts(st, op, s, WriteStarted);
  }

  lemma DeleteAdds(st: State, t: Id, s: Id)
    ensures var st' := Delete(st, t);
            && Reads(st', s) == Reads(st, s) && Starts(st', s) == Starts(st, s)
            && Fails(st', s) == Fails(st, s) + (if s == t then 1 else 0)
  {
    assert TraceOf(Delete(st, t), s) == TraceOf(st, s);
  }

  function AcceptOut(st: State, a: AcceptFrame): State
    requires a in st.accepting
  {
    st.(accepting := st.accepting - multiset{a} + multiset{Tail})
  }

  lemma AcceptOutTakes(st: State, t: Id, error: bool, s: Id)
    requires HandleAccept(t, error) in st.accepting
    ensures var st' := AcceptOut(st, HandleAccept(t, error));
            && Reads(st', s) == Reads(st, s)
            && Starts(st', s) == Starts(st, s) - (if s == t && !error then 1 else 0)
            && Fails(st', s) == Fails(st, s) - (if s == t && error then 1 else 0)
  {
    assert TraceOf(AcceptOut(st, HandleAccept(t, error)), s) == TraceOf(st, s);
  }

  function HandlerOut(st: State, f: Frame): State
    requires f in st.running
  {
    st.(running := st.running - multiset{f}, returning := st.returning + 1)
  }

  lemma HandlerOutTakes(st: State, f: Frame, s: Id)
    requires f in st.running
    ensures var st' := HandlerOut(st, f);
            && Reads(st', s) == Reads(st, s) - (if f == HandleRead(s, false) then 1 else 0)
            && Starts(st', s) == Starts(st, s) - (if f == HandleWrite(s, false) then 1 else 0)
            && Fails(st', s) == Fails(st, s) - (if f.s == s && f.error then 1 else 0)
  {
    assert TraceOf(HandlerOut(st, f), s) == TraceOf(st, s);
    assert f.HandleRead? ==> f == HandleRead(f.s, f.error);
  }

  lemma HandleAcceptKeeps(st: State, t: Id, error: bool, s: Id)
    requires Enabled(st, AcceptStep(HandleAccept(t, error)))
    ensures var st' := Next(st, AcceptStep(HandleAccept(t, error)));
            Reads(st', s) == Reads(st, s) && Starts(st', s) == Starts(st, s) && Fails(st', s) == Fails(st, s)
  {
    var mid := AcceptOut(st, HandleAccept(t, error));
    AcceptOutTakes(st, t, error, s);
    if error { DeleteAdds(mid, t, s); } else { InitiateAdds(mid, Read(t), s); }
    assert Next(st, AcceptStep(HandleAccept(t, error))) == if error then Delete(mid, t) else Initiate(mid, Read(t));
  }

  lemma AcceptOnKeeps(st: State, a: AcceptFrame, s: Id)
    requires Enabled(st, AcceptStep(a)) && !a.HandleAccept?
    ensures var st' := Next(st, AcceptStep(a));
            Reads(st', s) == Reads(st, s) && Starts(st', s) == Starts(st, s) && Fails(st', s) == Fails(st, s)
  {
    assert TraceOf(Next(st, AcceptStep(a)), s) == TraceOf(st, s);
  }

  lemma HandlerKeeps(st: State, f: Frame, s: Id)
    requires Enabled(st, Step(f))
    ensures var st' := Next(st, Step(f));
            Reads(st', s) == Reads(st, s) && Starts(st', s) == Starts(st, s) && Fails(st', s) == Fails(st, s)
  {
    var mid := HandlerOut(st, f);
    var op := if f.HandleRead? then Write(f.s) else Read(f.s);
    HandlerOutTakes(st, f, s);
    if f.error { DeleteAdds(mid, f.s, s); } else { InitiateAdds(mid, op, s); }
    assert Next(st, Step(f)) == if f.error then Delete(mid, f.s) else Initiate(mid, op);
  }

  lemma ReturnKeeps(st: State, s: Id)
    requires Enabled(st, Return)
    ensures var st' := Next(st, Return);
            Reads(st', s) == Reads(st, s) && Starts(st', s) == Starts(st, s) && Fails(st', s) == Fails(st, s)
  {
    assert TraceOf(Next(st, Return), s) == TraceOf(st, s);
  }

  // One more completion is one more of its kind, and anything else is none.
  lemma OneMoreCompletion(done: multiset<Action>, act: Action, s: Id)
    ensures var more := done + multiset{act};
            && GoodReads(more, s) == GoodReads(done, s) + (if act == Complete(Read(s), false) then 1 else 0)
            && GoodStarts(more, s) == GoodStarts(done, s)
                 + (if act == Complete(Write(s), false) || act == CompleteAccept(s, false) then 1 else 0)
            && Failures(more, s) == Failures(done, s)
                 + (if act == Complete(Read(s), true) || act == Complete(Write(s), true)
                       || act == CompleteAccept(s, true) then 1 else 0)
  {
  }

  lemma StepAccounted(st: State, done: multiset<Action>, act: Action, s: Id)
    requires Accounted(st, done, s) && Enabled(st, act)
    ensures Accounted(Next(st, act), done + multiset{act}, s)
  {
    OneMoreCompletion(done, act, s);
    match act
    case CompleteAccept(t, error) => CompleteAcceptAdds(st, t, error, s);
    case Complete(Read(t), error) => ReadCompletionAdds(st, t, error, s);
    case Complete(Write(t), error) => WriteCompletionAdds(st, t, error, s);
    case AcceptStep(HandleAccept(t, error)) => HandleAcceptKeeps(st, t, error, s);
    case AcceptStep(a) => AcceptOnKeeps(st, a, s);
    case Step(f) => HandlerKeeps(st, f, s);
    case Return => ReturnKeeps(st, s);
  }

  lemma InitialAccounted(threads: nat, s: Id)
    ensures Accounted(Initial(threads), multiset{}, s)
  {
  }

  lemma RunStepAccounted(sts: seq<State>, acts: seq<Action>, threads: nat, i: nat, s: Id)
    requires Run(sts, acts, threads) && 0 < i < |sts| && Accounted(sts[i - 1], multiset(acts[..i - 1]), s)
    ensures Accounted(sts[i], multiset(acts[..i]), s)
  {
    var st, a := sts[i - 1], acts[i - 1];
    assert Enabled(st, a) && sts[i] == Next(st, a);
    StepAccounted(st, multiset(acts[..i - 1]), a, s);
    OneMoreDone(acts, i);
  }

  lemma OneMoreDone(acts: seq<Action>, i: nat)
    requires 0 < i <= |acts|
    ensures multiset(acts[..i]) == multiset(acts[..i - 1]) + multiset{acts[i - 1]}
  {
    assert acts[..i] == acts[..i - 1] + [acts[i - 1]];
  }

  // In every run, at every point: the responses started on a session are its good reads but one
  // still in the handler, the reads started are its good accepts and writes but one, and it has
  // been deleted exactly if an operation on it failed and the handler is through.
  lemma {:induction false} OutcomesAccounted(sts: seq<State>, acts: seq<Action>, threads: nat, i: nat, s: Id)
    requires Run(sts, acts, threads) && i < |sts|
    ensures Accounted(sts[i], multiset(acts[..i]), s)
    decreases i
  {
    if i == 0 {
      InitialAccounted(threads, s);
    } else {
      OutcomesAccounted(sts, acts, threads, i - 1, s);
      RunStepAccounted(sts, acts, threads, i, s);
    }
  }

  // No completion on the session failed before state i.
  ghost predicate NoFailure(acts: seq<Action>, i: nat, s: Id)
    requires i <= |acts|
  {
    forall k :: 0 <= k < i ==>
      acts[k] != CompleteAccept(s, true) && acts[k] != Complete(Read(s), true) && acts[k] != Complete(Write(s), true)
  }

  lemma FailuresIff(acts: seq<Action>, i: nat, s: Id)
    requires i <= |acts|
    ensures NoFailure(acts, i, s) <==> Failures(multiset(acts[..i]), s) == 0
  {
    var done := multiset(acts[..i]);
    forall a ensures a in done <==> exists k :: 0 <= k < i && acts[k] == a {
      assert a in done <==> a in acts[..i];
    }
  }

  // In every run a session that was created is deleted exactly if an operation on it has failed and
  // the handler of the failure is not still running.
  lemma DeletedIffFailed(sts: seq<State>, acts: seq<Action>, threads: nat, i: nat, s: Id)
    requires Run(sts, acts, threads) && i < |sts| && s < sts[i].next
    requires HandleAccept(s, true) !in sts[i].accepting
    requires HandleRead(s, true) !in sts[i].running && HandleWrite(s, true) !in sts[i].running
    ensures s !in sts[i].live <==> !NoFailure(acts, i, s)
  {
    OutcomesAccounted(sts, acts, threads, i, s);
    FailuresIff(acts, i, s);
    RunSafe(sts, acts, threads, i);
    assert OwnedOnce(sts[i], s);
  }

  // Without a failure it lives, whatever runs.
  lemma LivesWithoutFailure(sts: seq<State>, acts: seq<Action>, threads: nat, i: nat, s: Id)
    requires Run(sts, acts, threads) && i < |sts| && s < sts[i].next && NoFailure(acts, i, s)
    ensures s in sts[i].live
  {
    OutcomesAccounted(sts, acts, threads, i, s);
    FailuresIff(acts, i, s);
    RunSafe(sts, acts, threads, i);
    assert OwnedOnce(sts[i], s);
  }

  // An idle thread can take any pending operation to its completion, with either outcome, and every
  // handler can go on.
  lemma AnyOutcome(st: State, error: bool)
    ensures forall op :: op in st.pending && Busy(st) < st.threads ==> Enabled(st, Complete(op, error))
    ensures forall s :: s in st.pendingAccepts && Busy(st) < st.threads ==> Enabled(st, CompleteAccept(s, error))
    ensures forall f :: f in st.running ==> Enabled(st, Step(f))
    ensures forall a :: a in st.accepting ==> Enabled(st, AcceptStep(a))
  {
  }

  // With a thread in the pool there is always something that can happen.
  lemma NeverStuck(st: State)
    requires Safe(st) && st.threads > 0
    ensures exists act :: Enabled(st, act)
  {
    if st.returning > 0 {
      assert Enabled(st, Return);
    } else if |st.running| > 0 {
      var f :| f in st.running;
      assert Enabled(st, Step(f));
    } else if |st.accepting| > 0 {
      var a :| a in st.accepting;
      assert Enabled(st, AcceptStep(a));
    } else {
      var s :| s in st.pendingAccepts;
      assert Enabled(st, CompleteAccept(s, false));
    }
  }
}
