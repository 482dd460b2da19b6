/**
 How the cross-thread unwind ends. Every run makes at most 26 steps of the protocol for each call.
 All calls and handlers can be brought to their end exactly as long as no thread has been
 interrupted by the signal while it holds list_mutex_: such a thread's handler waits for the mutex
 the thread itself holds, for ever, and with it everyone who calls `UnwindThread`.
 */
module HandshakeProgress {
  import opened Basics
  import opened Handshake
  import opened HandshakeRuns

  // ---------------------------------------------------------------------------
  // Runs are bounded by their calls

  /** The protocol steps a call has still to make, with those of the handler it will wake. */
  function PhaseWeight(p: Phase): nat {
    match p
    case Idle => 0
    case Called => 26
    case HasMutex => 25
    case Searching => 24
    case Found => 23
    case GotEntry => 22
    case LockedEntry => 21
    case ResetWait => 20
    case InstalledHandler => 19
    case Signalled => 9
    case SawWake => 8
    case PutBackAction => 7
    case Unwinding => 6
    case Finished => 5
    case Removing => 4
    case UnlockedEntry => 3
    case Dropping => 2
    case Dropped => 1
    case KillFailed => 6
    case FailedRemoving => 5
    case FailedUnlockedEntry => 4
    case FailedDropping => 3
    case FailedDropped => 2
    case FailedReleasing => 1
  }

  function HandlerWeight(h: HandlerPhase): nat {
    match h
    case NotHandling => 0
    case Entered => 8
    case HandlerSearching => 7
    case HandlerFound => 6
    case HandlerGotEntry => 5
    case Copied => 4
    case Waiting => 3
    case Resumed => 2
    case HandlerMissed => 2
    case Leaving => 1
  }

  function ThreadWeight(t: Thread): nat {
    PhaseWeight(t.phase) + HandlerWeight(t.handler) + if t.pending then 9 else 0
  }

  function Weight(threads: map<Tid, Thread>, ids: seq<Tid>): nat {
    if ids == [] then 0
    else (if ids[0] in threads then ThreadWeight(threads[ids[0]]) else 0) + Weight(threads, ids[1..])
  }

  /** All threads, each once. */
  ghost predicate Lists(ids: seq<Tid>, s: State) {
    && (forall t :: t in ids <==> t in s.threads)
    && (forall i, j :: 0 <= i < j < |ids| ==> ids[i] != ids[j])
  }

  lemma {:induction false} WeightElsewhere(threads: map<Tid, Thread>, ids: seq<Tid>, u: Tid, me: Thread)
    requires u !in ids
    ensures Weight(threads[u := me], ids) == Weight(threads, ids)
  {
    if ids != [] {
      WeightElsewhere(threads, ids[1..], u, me);
    }
  }

  /** One thread's weight changes and the others' do not. */
  lemma {:induction false} WeightMoves(threads: map<Tid, Thread>, ids: seq<Tid>, u: Tid, me: Thread)
    requires u in ids && u in threads && forall i, j :: 0 <= i < j < |ids| ==> ids[i] != ids[j]
    ensures Weight(threads[u := me], ids) + ThreadWeight(threads[u]) == Weight(threads, ids) + ThreadWeight(me)
  {
    if ids[0] == u {
      WeightElsewhere(threads, ids[1..], u, me);
    } else {
      WeightMoves(threads, ids[1..], u, me);
    }
  }

  /** A step of the protocol itself: not a new call, and not a thread's own work. */
  predicate IsProtocol(a: Action) {
    !a.Call? && !a.Progress?
  }

  function Cost(a: Action): int {
    if a.Call? then 26 else if a.Progress? then 0 else -1
  }

  lemma CallStepWeight(s: State, a: Action)
    requires a.u in s.threads && (HasEntry(s.threads[a.u].phase) ==> s.threads[a.u].entry in s.entries)
    requires CallStep(s, a).Some?
    ensures ThreadWeight(CallStep(s, a).value.threads[a.u]) <= ThreadWeight(s.threads[a.u]) + Cost(a)
  {
    CallStepMovesPhase(s, a);
    CallStepPhaseWeight(s, a);
  }

  lemma CallStepMovesPhase(s: State, a: Action)
    requires a.u in s.threads && (HasEntry(s.threads[a.u].phase) ==> s.threads[a.u].entry in s.entries)
    requires CallStep(s, a).Some?
    ensures CallStep(s, a).value.threads[a.u].handler == s.threads[a.u].handler
    ensures CallStep(s, a).value.threads[a.u].pending == s.threads[a.u].pending
  {
  }

  lemma CallStepPhaseWeight(s: State, a: Action)
    requires a.u in s.threads && (HasEntry(s.threads[a.u].phase) ==> s.threads[a.u].entry in s.entries)
    requires CallStep(s, a).Some?
    ensures PhaseWeight(CallStep(s, a).value.threads[a.u].phase) <= PhaseWeight(s.threads[a.u].phase) + Cost(a)
  {
    if a.LockList? || a.UnlockList? {
      ListPhaseWeight(s.threads[a.u].phase);
    }
  }

  lemma ListPhaseWeight(p: Phase)
    ensures NeedsList(p) ==> PhaseWeight(WithList(p)) < PhaseWeight(p)
    ensures LeavesList(p) ==> PhaseWeight(AfterList(p)) < PhaseWeight(p)
  {
  }

  lemma EntryStepWeight(s: State, a: Action)
    requires a.u in s.threads && (HasEntry(s.threads[a.u].phase) ==> s.threads[a.u].entry in s.entries)
    requires EntryStep(s, a).Some?
    ensures ThreadWeight(EntryStep(s, a).value.threads[a.u]) < ThreadWeight(s.threads[a.u])
  {
  }

  lemma ListStepWeight(s: State, a: Action)
    requires a.u in s.threads && (HasEntry(s.threads[a.u].phase) ==> s.threads[a.u].entry in s.entries)
    requires ListStep(s, a).Some?
    ensures ThreadWeight(ListStep(s, a).value.threads[a.u]) < ThreadWeight(s.threads[a.u])
  {
  }

  lemma HandlerStepWeight(s: State, a: Action)
    requires a.u in s.threads && HandlerStep(s, a).Some?
    ensures ThreadWeight(HandlerStep(s, a).value.threads[a.u]) <= ThreadWeight(s.threads[a.u]) + Cost(a)
  {
  }

  /** Sending the signal hands nine steps over to the target. */
  lemma SendWeight(s: State, u: Tid, ids: seq<Tid>)
    requires u in s.threads && SendStep(s, u).Some? && Lists(ids, s)
    ensures Weight(SendStep(s, u).value.threads, ids) < Weight(s.threads, ids)
  {
    var t := s.threads[u].target;
    var sent := SetPhase(s, u, Signalled);
    WeightMoves(s.threads, ids, u, sent.threads[u]);
    WeightMoves(sent.threads, ids, t, SendStep(s, u).value.threads[t]);
  }

  /** A call brings 26 steps, and every step of the protocol takes one away. */
  lemma StepWeight(s: State, a: Action, s': State, ids: seq<Tid>)
    requires Next(s, a) == Some(s') && Lists(ids, s)
    ensures Lists(ids, s') && Weight(s'.threads, ids) <= Weight(s.threads, ids) + Cost(a)
  {
    if a.Kill? {
      SendWeight(s, a.u, ids);
    } else {
      if IsHandlerAction(a) {
        HandlerStepWeight(s, a);
      } else if IsListAction(a) {
        ListStepWeight(s, a);
      } else if IsEntryAction(a) {
        EntryStepWeight(s, a);
      } else {
        CallStepWeight(s, a);
      }
      WeightMoves(s.threads, ids, a.u, s'.threads[a.u]);
    }
  }

  lemma {:induction false} ListsOf(threads: set<Tid>) returns (ids: seq<Tid>)
    ensures forall t :: t in ids <==> t in threads
    ensures forall i, j :: 0 <= i < j < |ids| ==> ids[i] != ids[j]
  {
    if threads == {} {
      ids := [];
    } else {
      var t :| t in threads;
      var rest := ListsOf(threads - {t});
      ids := [t] + rest;
    }
  }

  function Calls(run: seq<Action>): nat {
    if run == [] then 0 else Calls(run[..|run| - 1]) + if run[|run| - 1].Call? then 1 else 0
  }

  function ProtocolSteps(run: seq<Action>): nat {
    if run == [] then 0 else ProtocolSteps(run[..|run| - 1]) + if IsProtocol(run[|run| - 1]) then 1 else 0
  }

  lemma {:induction false} RunWeight(step: Stepper, init: State, run: seq<Action>, ids: seq<Tid>)
    requires ExecuteWith(step, init, run).Some? && Lists(ids, init)
    requires forall s, a {:trigger step(s, a)} :: Lists(ids, s) && step(s, a).Some? ==>
      Lists(ids, step(s, a).value) && Weight(step(s, a).value.threads, ids) <= Weight(s.threads, ids) + Cost(a)
    ensures var s := ExecuteWith(step, init, run).value;
      Lists(ids, s) && Weight(s.threads, ids) + ProtocolSteps(run) <= Weight(init.threads, ids) + 26 * Calls(run)
  {
    if run != [] {
      RunWeight(step, init, run[..|run| - 1], ids);
    }
  }

  lemma {:induction false} IdleWeight(threads: map<Tid, Thread>, ids: seq<Tid>)
    requires forall t :: t in threads ==> IsDone(threads[t])
    ensures Weight(threads, ids) == 0
  {
    if ids != [] {
      IdleWeight(threads, ids[1..]);
    }
  }

  /** The thread is in no call and no handler, and no signal is on its way to it. */
  predicate IsDone(t: Thread) {
    t.phase.Idle? && t.handler.NotHandling? && !t.pending
  }

  /** A run makes at most 26 steps of the protocol for each call of `UnwindThread`, whatever the
      interleaving: nothing in it can go on for ever by itself. */
  lemma RunsAreBounded(init: State, run: seq<Action>)
    requires Init(init) && Execute(init, run).Some?
    ensures ProtocolSteps(run) <= 26 * Calls(run)
  {
    var ids := ListsOf(init.threads.Keys);
    var step: Stepper := (s, a) => Next(s, a);
    forall s, a | Lists(ids, s) && step(s, a).Some?
      ensures Lists(ids, step(s, a).value)
      ensures Weight(step(s, a).value.threads, ids) <= Weight(s.threads, ids) + Cost(a)
    {
      StepWeight(s, a, step(s, a).value, ids);
    }
    RunWeight(step, init, run, ids);
    IdleWeight(init.threads, ids);
  }

  // ---------------------------------------------------------------------------
  // A thread that has locked itself out

  /** The signal has interrupted the thread while it holds list_mutex_: its handler is about to lock
      the mutex the thread itself holds. */
  predicate LockedOut(s: State, t: Tid) {
    t in s.threads && s.threads[t].handler.Entered? && HoldsList(s.threads[t].phase)
  }

  /** What stays so from then on: the handler is at its Get, and the unwinder that sent the signal
      is in Wait(1) with g_sigaction_mutex held. */
  ghost predicate Stuck(s: State, t: Tid, w: Tid) {
    && Inv(s) && LockedOut(s, t) && s.threads[t].from == w && w in s.threads
    && s.threads[w].phase.Signalled? && s.sigMutex == Some(w)
  }

  lemma LockedOutIsStuck(s: State, t: Tid)
    requires Inv(s) && LockedOut(s, t)
    ensures Stuck(s, t, s.threads[t].from)
  {
    assert ThreadOk(s, t) && ThreadOk(s, s.threads[t].from) && MutexHolderOk(s, s.threads[t].from);
  }

  /** It can only happen inside the Remove at the end of a call: in Get, and after a failure, the
      thread holds g_sigaction_mutex and nobody else sends the signal. */
  lemma LockedOutInRemove(s: State, t: Tid)
    requires Inv(s) && LockedOut(s, t)
    ensures s.threads[t].phase.Dropping? || s.threads[t].phase.Dropped?
  {
    LockedOutIsStuck(s, t);
    assert ThreadOk(s, t) && MutexHolderOk(s, t);
  }

  lemma HandlerStepKeepsLockedOut(s: State, a: Action, t: Tid)
    requires LockedOut(s, t) && s.listMutex == Some(t) && a.u in s.threads && HandlerStep(s, a).Some?
    ensures LockedOut(HandlerStep(s, a).value, t)
    ensures HandlerStep(s, a).value.threads[t].from == s.threads[t].from
  {
  }

  /** A thread in its handler takes no step of its call. */
  lemma OtherStepKeepsLockedOut(s: State, a: Action, s': State, t: Tid)
    requires LockedOut(s, t) && MovesOnly(s, s', a.u) && s.threads[a.u].handler.NotHandling?
    ensures LockedOut(s', t) && s'.threads[t].from == s.threads[t].from
  {
  }

  /** Whoever could send a signal would hold g_sigaction_mutex, which the waiting sender holds. */
  lemma NobodySendsWhenLockedOut(s: State, u: Tid, t: Tid)
    requires Inv(s) && LockedOut(s, t) && u in s.threads
    ensures SendStep(s, u).None?
  {
    assert MutexHolderOk(s, u) && ThreadOk(s, u);
    LockedOutIsStuck(s, t);
  }

  lemma StepKeepsLockedOut(s: State, a: Action, s': State, t: Tid)
    requires Inv(s) && Next(s, a) == Some(s') && LockedOut(s, t)
    ensures LockedOut(s', t) && s'.threads[t].from == s.threads[t].from
  {
    NobodySendsWhenLockedOut(s, a.u, t);
    if IsHandlerAction(a) {
      assert ListHolderOk(s, t);
      HandlerStepKeepsLockedOut(s, a, t);
    } else {
      OtherStepKeepsLockedOut(s, a, s', t);
    }
  }

  /** Once a thread has locked itself out its round never ends, and no other call ever begins. */
  lemma LockedOutForEver(init: State, run: seq<Action>, more: seq<Action>, t: Tid)
    requires Init(init) && Execute(init, run).Some? && LockedOut(Execute(init, run).value, t)
    requires Execute(init, run + more).Some?
    ensures
      var w := Execute(init, run).value.threads[t].from;
      Stuck(Execute(init, run + more).value, t, w)
  {
    var s := Execute(init, run).value;
    var w := s.threads[t].from;
    var step: Stepper := (s, a) => Next(s, a);
    var p := (x: State) => Inv(x) && LockedOut(x, t) && x.threads[t].from == w;
    forall x, a | p(x) && step(x, a).Some?
      ensures p(step(x, a).value)
    {
      StepKeepsInv(x, a);
      StepKeepsLockedOut(x, a, Next(x, a).value, t);
    }
    RunKeepsInv(init, run);
    RunsOn(step, init, run, more);
    Persists(step, s, more, p);
    LockedOutIsStuck(Execute(init, run + more).value, t);
  }

  // ---------------------------------------------------------------------------
  // Who waits for whom

  /** A signal is on its way to the thread, or its handler has not made its last wake. */
  predicate Involved(t: Thread) {
    t.pending || Busy(t.handler)
  }

  predicate Below(s: State, rank: map<Tid, nat>, t: Tid)
    requires t in s.threads && rank.Keys == s.threads.Keys
  {
    var w := s.threads[t].from;
    Involved(s.threads[t]) && w in s.threads && Involved(s.threads[w]) ==> rank[t] < rank[w]
  }

  /** A thread that is stopped by a thread that is itself stopped ranks below it. */
  ghost predicate Ordered(s: State, rank: map<Tid, nat>, bound: nat) {
    && rank.Keys == s.threads.Keys
    && (forall t :: t in rank ==> rank[t] < bound)
    && (forall t {:trigger Below(s, rank, t)} :: t in s.threads ==> Below(s, rank, t))
  }

  /** No step but Kill involves a thread in a round. */
  ghost predicate NoneNewlyInvolved(s: State, s': State) {
    && s'.threads.Keys == s.threads.Keys
    && forall t :: t in s.threads && Involved(s'.threads[t]) ==>
         Involved(s.threads[t]) && s'.threads[t].from == s.threads[t].from
  }

  lemma HandlerInvolvesNone(s: State, a: Action)
    requires a.u in s.threads && HandlerStep(s, a).Some?
    ensures NoneNewlyInvolved(s, HandlerStep(s, a).value)
  {
  }

  /** The sender of a signal is in no round as a target: it holds the mutex, so nobody can have
      signalled it since it began to run. */
  lemma SenderIsNotInvolved(s: State, u: Tid)
    requires Inv(s) && u in s.threads && s.threads[u].phase.InstalledHandler? && s.threads[u].handler.NotHandling?
    ensures !Involved(s.threads[u])
  {
    assert ThreadOk(s, u) && MutexHolderOk(s, u);
    var w := s.threads[u].from;
    assert w in s.threads ==> ThreadOk(s, w) && MutexHolderOk(s, w);
  }

  lemma KillKeepsOrder(s: State, u: Tid, s': State, rank: map<Tid, nat>, bound: nat)
    requires Inv(s) && Next(s, Kill(u)) == Some(s') && Ordered(s, rank, bound)
    ensures Ordered(s', rank[s.threads[u].target := bound], bound + 1)
  {
    SenderIsNotInvolved(s, u);
    var rank' := rank[s.threads[u].target := bound];
    forall v | v in s'.threads
      ensures Below(s', rank', v)
    {
      assert Below(s, rank, v);
    }
  }

  lemma StepKeepsOrder(s: State, a: Action, s': State, rank: map<Tid, nat>, bound: nat)
    returns (rank': map<Tid, nat>, bound': nat)
    requires Inv(s) && Next(s, a) == Some(s') && Ordered(s, rank, bound)
    ensures Ordered(s', rank', bound')
  {
    if a.Kill? {
      rank', bound' := rank[s.threads[a.u].target := bound], bound + 1;
      KillKeepsOrder(s, a.u, s', rank, bound);
    } else {
      rank', bound' := rank, bound;
      if IsHandlerAction(a) {
        HandlerInvolvesNone(s, a);
      } else {
        assert MovesOnly(s, s', a.u);
      }
      assert NoneNewlyInvolved(s, s');
      forall v | v in s'.threads
        ensures Below(s', rank', v)
      {
        assert Below(s, rank, v);
      }
    }
  }

  ghost predicate IsOrdered(s: State) {
    exists rank, bound :: Ordered(s, rank, bound)
  }

  /** No thread is, round about, stopped by itself. */
  lemma RunKeepsOrder(init: State, run: seq<Action>)
    requires Init(init) && Execute(init, run).Some?
    ensures IsOrdered(Execute(init, run).value)
  {
    var step: Stepper := (s, a) => Next(s, a);
    var p := (s: State) => Inv(s) && IsOrdered(s);
    forall s, a | p(s) && step(s, a).Some?
      ensures p(step(s, a).value)
    {
      StepKeepsInv(s, a);
      var rank, bound :| Ordered(s, rank, bound);
      rank, bound := StepKeepsOrder(s, a, Next(s, a).value, rank, bound);
    }
    InitInv(init);
    assert Ordered(init, map t | t in init.threads :: 0, 1);
    Persists(step, init, run, p);
  }

  // ---------------------------------------------------------------------------
  // Some step is possible

  ghost predicate NobodyLockedOut(s: State) {
    forall t :: !LockedOut(s, t)
  }

  ghost predicate AllDone(s: State) {
    forall t :: t in s.threads ==> IsDone(s.threads[t])
  }

  /** A step of the protocol that is enabled and does not lock a thread out. */
  ghost predicate CanStep(s: State, a: Action) {
    IsProtocol(a) && Next(s, a).Some? && (a.Deliver? ==> !HoldsList(s.threads[a.u].phase))
  }

  lemma StepLocksNobodyOut(s: State, a: Action)
    requires Inv(s) && CanStep(s, a) && NobodyLockedOut(s)
    ensures NobodyLockedOut(Next(s, a).value)
  {
    var s' := Next(s, a).value;
    forall t
      ensures !LockedOut(s', t)
    {
      assert !LockedOut(s, t);
    }
  }

  /** Some round has an unwinder that is not itself stopped. */
  lemma OutermostRound(s: State, rank: map<Tid, nat>, bound: nat, t: Tid) returns (r: Tid)
    requires Inv(s) && Ordered(s, rank, bound) && t in s.threads && Involved(s.threads[t])
    ensures r in s.threads && Involved(s.threads[r])
    ensures s.threads[r].from in s.threads && !Involved(s.threads[s.threads[r].from])
    decreases bound - rank[t]
  {
    assert ThreadOk(s, t);
    var w := s.threads[t].from;
    if Involved(s.threads[w]) {
      assert Below(s, rank, t);
      r := OutermostRound(s, rank, bound, w);
    } else {
      r := t;
    }
  }

  /** Whoever holds list_mutex_ can move. */
  lemma ListHolderCanStep(s: State) returns (a: Action)
    requires Inv(s) && NobodyLockedOut(s) && s.listMutex.Some?
    ensures CanStep(s, a)
  {
    var h := s.listMutex.value;
    var me := s.threads[h];
    assert ThreadOk(s, h) && ListHolderOk(s, h) && !LockedOut(s, h);
    if HandlerHoldsList(me.handler) {
      a := if me.handler.HandlerSearching? then HandlerGet(h) else HandlerUnlockList(h);
    } else {
      a := match me.phase
        case Searching => Get(h)
        case Dropping => DropReference(h)
        case FailedDropping => DropReference(h)
        case _ => UnlockList(h);
    }
  }

  /** The handler of an involved thread can move, unless it waits for its unwinder. */
  lemma HandlerCanStep(s: State, t: Tid) returns (a: Action)
    requires Inv(s) && NobodyLockedOut(s)
    requires t in s.threads && Involved(s.threads[t]) && !s.threads[t].handler.Waiting?
    ensures CanStep(s, a)
  {
    var me := s.threads[t];
    assert ThreadOk(s, t) && ThreadOk(s, me.from) && MutexHolderOk(s, me.from) && ListHolderOk(s, t);
    if s.listMutex.Some? {
      a := ListHolderCanStep(s);
    } else {
      a := match me.handler
        case NotHandling => Deliver(t)
        case Entered => HandlerLockList(t)
        case HandlerGotEntry => HandlerCopy(t)
        case Copied => HandlerWake(t)
        case Resumed => HandlerWakeAgain(t)
        case _ => HandlerReturn(t);
    }
  }

  /** A handler in Wait(2) or its unwinder can move, if the unwinder is not stopped. */
  lemma WaitingRoundCanStep(s: State, t: Tid) returns (a: Action)
    requires Inv(s) && t in s.threads && s.threads[t].handler.Waiting?
    requires s.threads[t].from in s.threads && s.threads[s.threads[t].from].handler.NotHandling?
    ensures CanStep(s, a)
  {
    var w := s.threads[t].from;
    assert ThreadOk(s, t) && ThreadOk(s, w);
    a := match s.threads[w].phase
      case Signalled => Wait1(w)
      case SawWake => PutBack(w)
      case PutBackAction => UnlockMutex(w)
      case Unwinding => FinishUnwind(w)
      case _ => HandlerWait2(t);
  }

  ghost predicate NobodyStopped(s: State) {
    forall t :: t in s.threads ==> !Involved(s.threads[t]) && s.threads[t].handler.NotHandling?
  }

  /** When no thread is stopped, a thread that does not wait for a lock can move. */
  lemma UnwinderCanStep(s: State, u: Tid) returns (a: Action)
    requires Inv(s) && NobodyStopped(s) && u in s.threads && s.listMutex.None?
    requires !s.threads[u].phase.Idle? && !s.threads[u].phase.Called? && !s.threads[u].phase.GotEntry?
    ensures CanStep(s, a)
  {
    assert ThreadOk(s, u) && ListHolderOk(s, u);
    a := match s.threads[u].phase
      case LockedEntry => Reset(u)
      case ResetWait => Install(u)
      case InstalledHandler => Kill(u)
      case KillFailed => PutBackAfterKillFails(u)
      case Finished => Wait3(u)
      case Removing => UnlockEntry(u)
      case FailedRemoving => UnlockEntry(u)
      case FailedReleasing => Release(u)
      case _ => LockList(u);
  }

  /** When no thread is stopped, a thread that waits for a lock waits for one that can move. */
  lemma CallCanStep(s: State, u: Tid) returns (a: Action)
    requires Inv(s) && NobodyStopped(s) && u in s.threads && !s.threads[u].phase.Idle?
    ensures CanStep(s, a)
    decreases s.threads[u].phase.Called?
  {
    assert ThreadOk(s, u);
    var me := s.threads[u];
    if s.listMutex.Some? {
      a := ListHolderCanStep(s);
    } else if me.phase.Called? {
      if s.sigMutex.None? {
        a := LockMutex(u);
      } else {
        a := CallCanStep(s, s.sigMutex.value);
      }
    } else if me.phase.GotEntry? {
      if s.entries[me.entry].owner.None? {
        a := LockEntry(u);
      } else {
        assert EntryOk(s, me.entry);
        a := UnwinderCanStep(s, s.entries[me.entry].owner.value);
      }
    } else {
      a := UnwinderCanStep(s, u);
    }
  }

  /** As long as no thread has locked itself out and some thread is not done, some step of the
      protocol is possible, and not only one that locks a thread out. */
  lemma SomethingCanStep(s: State) returns (a: Action)
    requires Inv(s) && IsOrdered(s) && NobodyLockedOut(s) && !AllDone(s)
    ensures CanStep(s, a)
  {
    if v :| v in s.threads && s.threads[v].handler.Leaving? {
      a := HandlerReturn(v);
    } else if v :| v in s.threads && Involved(s.threads[v]) {
      var rank, bound :| Ordered(s, rank, bound);
      var r := OutermostRound(s, rank, bound, v);
      if s.threads[r].handler.Waiting? {
        a := WaitingRoundCanStep(s, r);
      } else {
        a := HandlerCanStep(s, r);
      }
    } else {
      var t :| t in s.threads && !IsDone(s.threads[t]);
      a := CallCanStep(s, t);
    }
  }

  // ---------------------------------------------------------------------------
  // When everything can be finished

  predicate OnlyProtocol(run: seq<Action>) {
    forall i :: 0 <= i < |run| ==> IsProtocol(run[i])
  }

  lemma FirstStep(s: State, a: Action, more: seq<Action>)
    requires Next(s, a).Some?
    ensures Execute(s, [a] + more) == Execute(Next(s, a).value, more)
  {
    var step: Stepper := (s, a) => Next(s, a);
    assert [a][..0] == [] && ExecuteWith(step, s, [a][..0]) == Some(s);
    RunsOn(step, s, [a], more);
  }

  /** A step towards the end that locks nobody out. */
  lemma FinishingStep(s: State, ids: seq<Tid>) returns (a: Action, s': State)
    requires Inv(s) && IsOrdered(s) && NobodyLockedOut(s) && Lists(ids, s) && !AllDone(s)
    ensures IsProtocol(a) && Next(s, a) == Some(s')
    ensures Inv(s') && IsOrdered(s') && NobodyLockedOut(s') && Lists(ids, s')
    ensures Weight(s'.threads, ids) < Weight(s.threads, ids)
  {
    a := SomethingCanStep(s);
    s' := Next(s, a).value;
    StepWeight(s, a, s', ids);
    StepKeepsInv(s, a);
    StepLocksNobodyOut(s, a);
    var rank, bound :| Ordered(s, rank, bound);
    rank, bound := StepKeepsOrder(s, a, s', rank, bound);
  }

  lemma StepThenFinish(s: State, a: Action, s': State, rest: seq<Action>)
    requires IsProtocol(a) && Next(s, a) == Some(s')
    requires OnlyProtocol(rest) && Execute(s', rest).Some? && AllDone(Execute(s', rest).value)
    ensures OnlyProtocol([a] + rest) && Execute(s, [a] + rest).Some? && AllDone(Execute(s, [a] + rest).value)
  {
    FirstStep(s, a, rest);
  }

  /** From any state in which no thread has locked itself out, all calls and handlers can end. */
  lemma {:induction false} CanFinish(s: State, ids: seq<Tid>) returns (more: seq<Action>)
    requires Inv(s) && IsOrdered(s) && NobodyLockedOut(s) && Lists(ids, s)
    ensures OnlyProtocol(more) && Execute(s, more).Some? && AllDone(Execute(s, more).value)
    decreases Weight(s.threads, ids)
  {
    if AllDone(s) {
      more := [];
    } else {
      var a, s' := FinishingStep(s, ids);
      var rest := CanFinish(s', ids);
      StepThenFinish(s, a, s', rest);
      more := [a] + rest;
    }
  }

  /** The steps `more`, none of them a new call, bring every call and every handler to its end. */
  ghost predicate Finishes(init: State, run: seq<Action>, more: seq<Action>) {
    OnlyProtocol(more) && Execute(init, run + more).Some? && AllDone(Execute(init, run + more).value)
  }

  /** After any run, all calls and handlers can be brought to their end if and only if no thread has
      been interrupted by the signal while it holds list_mutex_. */
  lemma FinishesExactly(init: State, run: seq<Action>)
    requires Init(init) && Execute(init, run).Some?
    ensures (exists more :: Finishes(init, run, more)) <==> NobodyLockedOut(Execute(init, run).value)
  {
    var s := Execute(init, run).value;
    if NobodyLockedOut(s) {
      RunKeepsInv(init, run);
      RunKeepsOrder(init, run);
      var ids := ListsOf(s.threads.Keys);
      var more := CanFinish(s, ids);
      RunsOn((s, a) => Next(s, a), init, run, more);
      assert Finishes(init, run, more);
    } else {
      var t :| LockedOut(s, t);
      forall more | Execute(init, run + more).Some?
        ensures !Finishes(init, run, more)
      {
        LockedOutForEver(init, run, more, t);
      }
    }
  }

  /** A run that has come to rest before all calls and handlers have ended has come to rest because
      a thread has locked itself out. */
  lemma DeadlockOnlyWhenLockedOut(init: State, run: seq<Action>)
    requires Init(init) && Execute(init, run).Some? && !AllDone(Execute(init, run).value)
    requires forall a :: IsProtocol(a) ==> Next(Execute(init, run).value, a).None?
    ensures exists t :: LockedOut(Execute(init, run).value, t)
  {
    var s := Execute(init, run).value;
    RunKeepsInv(init, run);
    RunKeepsOrder(init, run);
    if NobodyLockedOut(s) {
      var a := SomethingCanStep(s);
      assert false;
    }
  }
}
