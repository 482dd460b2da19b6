/**
 What the cross-thread unwind keeps over whole runs: the target is stopped while its context is
 read, the signal always meets its handler, every round wakes in the same order, and no entry is
 used after it is freed.
 */
module HandshakeRuns {
  import opened Basics
  import opened Handshake

  /** What only depends on there being steps takes them as a parameter. */
  type Stepper = (State, Action) -> Option<State>

  /** The state after `run`. None: some step of it is not enabled. */
  ghost function ExecuteWith(step: Stepper, init: State, run: seq<Action>): Option<State> {
    if run == [] then Some(init)
    else
      match ExecuteWith(step, init, run[..|run| - 1])
      case None => None
      case Some(s) => step(s, run[|run| - 1])
  }

  ghost function Execute(init: State, run: seq<Action>): Option<State> {
    ExecuteWith((s, a) => Next(s, a), init, run)
  }

  /** What every step keeps holds after every run. */
  lemma {:induction false} Persists(step: Stepper, init: State, run: seq<Action>, p: State -> bool)
    requires ExecuteWith(step, init, run).Some? && p(init)
    requires forall s, a {:trigger step(s, a)} :: p(s) && step(s, a).Some? ==> p(step(s, a).value)
    ensures p(ExecuteWith(step, init, run).value)
  {
    if run != [] {
      Persists(step, init, run[..|run| - 1], p);
    }
  }

  /** A run goes on from where its first part has led. */
  lemma {:induction false} RunsOn(step: Stepper, init: State, run: seq<Action>, more: seq<Action>)
    requires ExecuteWith(step, init, run).Some?
    ensures ExecuteWith(step, init, run + more) == ExecuteWith(step, ExecuteWith(step, init, run).value, more)
    decreases |more|
  {
    if more == [] {
      assert run + more == run;
    } else {
      assert (run + more)[..|run + more| - 1] == run + more[..|more| - 1];
      RunsOn(step, init, run, more[..|more| - 1]);
    }
  }

  lemma StepKeepsInv(s: State, a: Action)
    requires Inv(s) && Next(s, a).Some?
    ensures Inv(Next(s, a).value)
  {
    match a
    case Call(_, _) => CallKeepsInv(s, a);
    case InstallFails(_) | KillFails(_) => FailureKeepsInv(s, a);
    case Wait1(_) | Wait3(_) => WaitKeepsInv(s, a);
    case LockMutex(_) | UnlockMutex(_) | Release(_) => MutexKeepsInv(s, a);
    case Install(_) => InstallKeepsInv(s, a);
    case PutBack(_) | PutBackAfterKillFails(_) => PutBackKeepsInv(s, a);
    case LockList(_) => LockListKeepsInv(s, a);
    case UnlockList(_) => UnlockListKeepsInv(s, a);
    case Get(u) => GetKeepsInv(s, u);
    case LockEntry(u) => LockEntryKeepsInv(s, u);
    case Reset(u) => ResetKeepsInv(s, u);
    case Kill(u) => KillKeepsInv(s, u);
    case FinishUnwind(u) => FinishUnwindKeepsInv(s, u);
    case UnlockEntry(u) => UnlockEntryKeepsInv(s, u);
    case DropReference(u) => DropReferenceKeepsInv(s, u);
    case Deliver(u) => DeliverKeepsInv(s, u);
    case HandlerLockList(u) => HandlerLockListKeepsInv(s, u);
    case HandlerGet(u) => HandlerGetKeepsInv(s, u);
    case HandlerUnlockList(u) => HandlerUnlockListKeepsInv(s, u);
    case HandlerCopy(u) => HandlerCopyKeepsInv(s, u);
    case HandlerWake(u) => HandlerWakeKeepsInv(s, u);
    case HandlerWait2(u) => HandlerWait2KeepsInv(s, u);
    case HandlerWakeAgain(u) => HandlerWakeAgainKeepsInv(s, u);
    case HandlerReturn(_) | Progress(_, _) => QuietActionsKeepInv(s, a);
  }

  lemma RunKeepsInv(init: State, run: seq<Action>)
    requires Init(init) && Execute(init, run).Some?
    ensures Inv(Execute(init, run).value)
  {
    InitInv(init);
    InvHoldsOn(init, run);
  }

  lemma InvHoldsOn(s: State, run: seq<Action>)
    requires Inv(s) && Execute(s, run).Some?
    ensures Inv(Execute(s, run).value)
  {
    var step: Stepper := (s, a) => Next(s, a);
    forall s, a | Inv(s) && step(s, a).Some?
      ensures Inv(step(s, a).value)
    {
      StepKeepsInv(s, a);
    }
    Persists(step, s, run, x => Inv(x));
  }

  // ---------------------------------------------------------------------------
  // The context and the signal

  /** While an unwinder walks the stack, its target is blocked in Wait(2), the entry is live and
      holds the context the target is stopped in, and no other unwinder has this target. */
  lemma UnwindingIsSafe(init: State, run: seq<Action>, u: Tid)
    requires Init(init) && Execute(init, run).Some?
    requires var s := Execute(init, run).value; u in s.threads && s.threads[u].phase.Unwinding?
    ensures
      var s := Execute(init, run).value;
      var me := s.threads[u];
      && me.target in s.threads && me.entry in s.entries
      && s.threads[me.target].handler.Waiting? && s.threads[me.target].handlerEntry == me.entry
      && s.entries[me.entry].ucontext == s.threads[me.target].context
      && s.entries[me.entry].waitValue == 1
      && forall v :: v in s.threads && OwnsEntry(s.threads[v].phase) && s.threads[v].target == me.target ==> v == u
  {
    RunKeepsInv(init, run);
    var s := Execute(init, run).value;
    assert ThreadOk(s, u) && ThreadOk(s, s.threads[u].target);
    forall v | v in s.threads && OwnsEntry(s.threads[v].phase) && s.threads[v].target == s.threads[u].target
      ensures v == u
    {
      OwnersDiffer(s, u, v);
    }
  }

  /** Whoever could take the mutex finds the original signal action, and a signal that is under
      way always meets `SignalHandler`. */
  lemma SignalActionIsSafe(init: State, run: seq<Action>)
    requires Init(init) && Execute(init, run).Some?
    ensures
      var s := Execute(init, run).value;
      && (s.sigMutex.None? ==> s.disposition.Original?)
      && forall t :: t in s.threads && s.threads[t].pending ==> s.disposition.Handling?
  {
    RunKeepsInv(init, run);
    var s := Execute(init, run).value;
    forall t | t in s.threads && s.threads[t].pending
      ensures s.disposition.Handling?
    {
      assert ThreadOk(s, t) && ThreadOk(s, s.threads[t].from) && MutexHolderOk(s, s.threads[t].from);
    }
  }

  lemma SearchFinds(s: State, t: Tid)
    requires Inv(s) && Next(s, HandlerGet(t)).Some?
    ensures
      var s' := Next(s, HandlerGet(t)).value;
      t in s'.threads && s'.threads[t].handler.HandlerFound?
  {
    assert ThreadOk(s, t) && ThreadOk(s, s.threads[t].from);
    assert EntryOf(s, t, s.threads[s.threads[t].from].entry);
  }

  lemma FoundIsAwaited(s: State, t: Tid)
    requires Inv(s) && t in s.threads && s.threads[t].handler.HandlerFound?
    ensures s.threads[t].from in s.threads
    ensures var w := s.threads[s.threads[t].from]; w.phase.Signalled? && w.entry == s.threads[t].handlerEntry
  {
    assert ThreadOk(s, t) && ThreadOk(s, s.threads[t].from);
  }

  /** A handler always finds an entry, and it is the one its sender waits on. */
  lemma HandlerFindsEntry(init: State, run: seq<Action>, t: Tid)
    requires Init(init) && Execute(init, run + [HandlerGet(t)]).Some?
    ensures
      var s := Execute(init, run + [HandlerGet(t)]).value;
      && t in s.threads && s.threads[t].handler.HandlerFound?
      && s.threads[t].from in s.threads
      && var w := s.threads[s.threads[t].from]; w.phase.Signalled? && w.entry == s.threads[t].handlerEntry
  {
    var all := run + [HandlerGet(t)];
    assert all[..|all| - 1] == run;
    RunKeepsInv(init, run);
    RunKeepsInv(init, all);
    SearchFinds(Execute(init, run).value, t);
    FoundIsAwaited(Execute(init, all).value, t);
  }

  /** Nobody holds an entry that has been freed, and its reference count is the number of users
      it has. */
  lemma EntriesInUseAreLive(init: State, run: seq<Action>)
    requires Init(init) && Execute(init, run).Some?
    ensures
      var s := Execute(init, run).value;
      && (forall u :: u in s.threads && HasEntry(s.threads[u].phase) ==> s.threads[u].entry in s.entries)
      && (forall t :: t in s.threads && UsesEntry(s.threads[t].handler) ==> s.threads[t].handlerEntry in s.entries)
      && (forall e :: e in s.entries ==>
            s.entries[e].refCount == |s.entries[e].holders| + s.entries[e].handlerRefs >= 1)
  {
    RunKeepsInv(init, run);
    var s := Execute(init, run).value;
    forall u | u in s.threads
      ensures HasEntry(s.threads[u].phase) ==> s.threads[u].entry in s.entries
      ensures UsesEntry(s.threads[u].handler) ==> s.threads[u].handlerEntry in s.entries
    {
      assert ThreadOk(s, u);
    }
    forall e | e in s.entries
      ensures s.entries[e].refCount == |s.entries[e].holders| + s.entries[e].handlerRefs >= 1
    {
      assert EntryOk(s, e);
    }
  }

  lemma ListStepKeepsHandlerRefs(s: State, a: Action, s': State, e: EntryId)
    requires Inv(s) && Next(s, a) == Some(s') && IsListAction(a) && e in s.entries && s.entries[e].handlerRefs >= 1
    ensures e in s'.entries && s'.entries[e].handlerRefs >= s.entries[e].handlerRefs
  {
    assert EntryOk(s, e);
    assert ThreadOk(s, a.u);
    if a.DropReference? && s.threads[a.u].entry == e && s.entries[e].refCount <= 1 {
      LastReference(s, a.u, e);
    }
  }

  lemma HandlerStepKeepsHandlerRefs(s: State, a: Action, s': State, e: EntryId)
    requires Next(s, a) == Some(s') && IsHandlerAction(a) && e in s.entries
    ensures e in s'.entries && s'.entries[e].handlerRefs >= s.entries[e].handlerRefs
  {
  }

  lemma EntryStepKeepsHandlerRefs(s: State, a: Action, s': State, e: EntryId)
    requires Next(s, a) == Some(s') && IsEntryAction(a) && e in s.entries
    ensures e in s'.entries && s'.entries[e].handlerRefs == s.entries[e].handlerRefs
  {
  }

  lemma StepKeepsHandlerRefs(s: State, a: Action, s': State, e: EntryId)
    requires Inv(s) && Next(s, a) == Some(s') && e in s.entries && s.entries[e].handlerRefs >= 1
    ensures e in s'.entries && s'.entries[e].handlerRefs >= s.entries[e].handlerRefs
  {
    if IsListAction(a) {
      ListStepKeepsHandlerRefs(s, a, s', e);
    } else if IsHandlerAction(a) {
      HandlerStepKeepsHandlerRefs(s, a, s', e);
    } else if IsEntryAction(a) {
      EntryStepKeepsHandlerRefs(s, a, s', e);
    }
  }

  /** The handler never gives its reference back, so an entry that a handler has got once stays
      live for the rest of every run. */
  lemma HandlerEntryIsNeverFreed(init: State, run: seq<Action>, more: seq<Action>, e: EntryId)
    requires Init(init) && Execute(init, run).Some? && Execute(init, run + more).Some?
    requires var s := Execute(init, run).value; e in s.entries && s.entries[e].handlerRefs >= 1
    ensures var s := Execute(init, run + more).value; e in s.entries && s.entries[e].handlerRefs >= 1
  {
    var step: Stepper := (s, a) => Next(s, a);
    var p := (s: State) => Inv(s) && e in s.entries && s.entries[e].handlerRefs >= 1;
    forall s, a | p(s) && step(s, a).Some?
      ensures p(step(s, a).value)
    {
      StepKeepsInv(s, a);
      StepKeepsHandlerRefs(s, a, Next(s, a).value, e);
    }
    RunKeepsInv(init, run);
    RunsOn(step, init, run, more);
    Persists(step, Execute(init, run).value, more, p);
  }

  // ---------------------------------------------------------------------------
  // The order of the wakes

  /** What has happened to the wait value of an entry since its last reset. */
  datatype Round = Round(unwinder: Option<Tid>, wakes: seq<Action>)

  predicate Resets(s: State, a: Action, e: EntryId) {
    a.Reset? && a.u in s.threads && s.threads[a.u].entry == e
  }

  predicate Wakes(s: State, a: Action, e: EntryId) {
    && a.u in s.threads
    && (|| (a.FinishUnwind? && s.threads[a.u].entry == e)
        || ((a.HandlerWake? || a.HandlerWakeAgain?) && s.threads[a.u].handlerEntry == e))
  }

  /** The last round on entry `e` in a run, read off the run alone. */
  ghost function History(init: State, run: seq<Action>, e: EntryId): Round {
    if run == [] then Round(None, [])
    else
      var before, a := Execute(init, run[..|run| - 1]), run[|run| - 1];
      var h := History(init, run[..|run| - 1], e);
      if before.None? then h else NextRound(before.value, a, e, h)
  }

  /** The handler wakes, the unwinder wakes, the handler wakes. */
  function Script(u: Tid, t: Tid): seq<Action> {
    [HandlerWake(t), FinishUnwind(u), HandlerWakeAgain(t)]
  }

  predicate InRound(p: Phase) {
    OwnsEntry(p) && !p.LockedEntry?
  }

  /** The owner of the entry has reset the wait value. */
  predicate OwnedInRound(s: State, e: EntryId)
    requires e in s.entries
  {
    var owner := s.entries[e].owner;
    owner.Some? && owner.value in s.threads && InRound(s.threads[owner.value].phase)
  }

  ghost predicate HistoryOk(s: State, e: EntryId, h: Round) {
    && (e !in s.entries ==> e < s.nextId || h == Round(None, []))
    && (e in s.entries ==>
          var entry := s.entries[e];
          && |h.wakes| == entry.waitValue
          && (h.unwinder.None? ==> h.wakes == [])
          && (h.unwinder.Some? ==> h.wakes <= Script(h.unwinder.value, entry.tid))
          && (OwnedInRound(s, e) ==> h.unwinder == entry.owner))
  }

  /** What a step that neither resets nor wakes leaves of an entry. */
  ghost predicate LeavesEntry(s: State, s': State, e: EntryId) {
    && s'.nextId >= s.nextId && s'.threads.Keys == s.threads.Keys
    && (e in s'.entries ==>
          && (e !in s.entries ==> e == s.nextId && s'.entries[e].waitValue == 0 && s'.entries[e].owner.None?)
          && (e in s.entries ==>
                && s'.entries[e].tid == s.entries[e].tid && s'.entries[e].waitValue == s.entries[e].waitValue
                && (OwnedInRound(s', e) ==> OwnedInRound(s, e) && s'.entries[e].owner == s.entries[e].owner)))
    && (e !in s'.entries ==> e in s.entries || s'.nextId == s.nextId || e != s.nextId)
  }

  /** Only a reset starts a round. */
  lemma CallStepStartsNoRound(s: State, a: Action)
    requires a.u in s.threads && (HasEntry(s.threads[a.u].phase) ==> s.threads[a.u].entry in s.entries)
    requires CallStep(s, a).Some?
    ensures InRound(CallStep(s, a).value.threads[a.u].phase) ==> InRound(s.threads[a.u].phase)
  {
  }

  lemma PhaseStepLeavesEntry(s: State, a: Action, s': State, e: EntryId)
    requires Inv(s) && Next(s, a) == Some(s') && !IsHandlerAction(a) && !IsEntryAction(a) && !IsListAction(a)
    ensures LeavesEntry(s, s', e)
  {
    if !a.Kill? {
      CallStepStartsNoRound(s, a);
    }
  }

  lemma ListStepLeavesEntry(s: State, a: Action, s': State, e: EntryId)
    requires Inv(s) && Next(s, a) == Some(s') && IsListAction(a)
    ensures LeavesEntry(s, s', e)
  {
    assert ThreadOk(s, a.u);
    if e in s.entries {
      assert EntryOk(s, e);
    }
  }

  lemma EntryStepLeavesEntry(s: State, a: Action, s': State, e: EntryId)
    requires Inv(s) && Next(s, a) == Some(s') && IsEntryAction(a)
    requires !Resets(s, a, e) && !Wakes(s, a, e)
    ensures LeavesEntry(s, s', e)
  {
    assert ThreadOk(s, a.u);
    if e in s.entries {
      assert EntryOk(s, e);
    }
  }

  lemma HandlerLeavesEntry(s: State, a: Action, s': State, e: EntryId)
    requires Inv(s) && Next(s, a) == Some(s') && IsHandlerAction(a)
    requires !Resets(s, a, e) && !Wakes(s, a, e)
    ensures LeavesEntry(s, s', e)
  {
    assert ThreadOk(s, a.u);
    if e in s.entries {
      assert EntryOk(s, e);
    }
  }

  lemma StepLeavesEntry(s: State, a: Action, s': State, e: EntryId)
    requires Inv(s) && Next(s, a) == Some(s') && !Resets(s, a, e) && !Wakes(s, a, e)
    ensures LeavesEntry(s, s', e)
  {
    if IsHandlerAction(a) {
      HandlerLeavesEntry(s, a, s', e);
    } else if IsEntryAction(a) {
      EntryStepLeavesEntry(s, a, s', e);
    } else if IsListAction(a) {
      ListStepLeavesEntry(s, a, s', e);
    } else {
      PhaseStepLeavesEntry(s, a, s', e);
    }
  }

  // A wake is the next one of the script of the round.

  lemma UnwinderWakeFollowsScript(s: State, a: Action, s': State, e: EntryId, h: Round)
    requires Inv(s) && Next(s, a) == Some(s') && Wakes(s, a, e) && HistoryOk(s, e, h) && a.FinishUnwind?
    ensures HistoryOk(s', e, h.(wakes := h.wakes + [a]))
  {
    assert ThreadOk(s, a.u);
    assert a == Script(a.u, s.entries[e].tid)[|h.wakes|];
  }

  lemma HandlerWakeFollowsScript(s: State, a: Action, s': State, e: EntryId, h: Round)
    requires Inv(s) && Next(s, a) == Some(s') && Wakes(s, a, e) && HistoryOk(s, e, h) && IsHandlerAction(a)
    ensures HistoryOk(s', e, h.(wakes := h.wakes + [a]))
  {
    var u := s.threads[a.u].from;
    assert ThreadOk(s, a.u) && ThreadOk(s, u);
    assert a == Script(u, s.entries[e].tid)[|h.wakes|];
  }

  ghost function NextRound(s: State, a: Action, e: EntryId, h: Round): Round {
    if Resets(s, a, e) then Round(Some(a.u), [])
    else if Wakes(s, a, e) then h.(wakes := h.wakes + [a])
    else h
  }

  lemma StepKeepsHistory(s: State, a: Action, s': State, e: EntryId, h: Round)
    requires Inv(s) && Next(s, a) == Some(s') && HistoryOk(s, e, h)
    ensures HistoryOk(s', e, NextRound(s, a, e, h))
  {
    if Resets(s, a, e) {
      assert ThreadOk(s, a.u);
    } else if Wakes(s, a, e) {
      if a.FinishUnwind? {
        UnwinderWakeFollowsScript(s, a, s', e, h);
      } else {
        HandlerWakeFollowsScript(s, a, s', e, h);
      }
    } else {
      StepLeavesEntry(s, a, s', e);
      if e in s.entries {
        assert EntryOk(s, e);
      }
    }
  }

  lemma {:induction false} RunKeepsHistory(init: State, run: seq<Action>, e: EntryId)
    requires Init(init) && Execute(init, run).Some?
    ensures HistoryOk(Execute(init, run).value, e, History(init, run, e))
  {
    if run != [] {
      var before, a := run[..|run| - 1], run[|run| - 1];
      RunKeepsInv(init, before);
      RunKeepsHistory(init, before, e);
      StepKeepsHistory(Execute(init, before).value, a, Execute(init, run).value, e, History(init, before, e));
    }
  }

  /** In every run the wait value of an entry counts the wakes since its last reset, and these are
      in the order handler, unwinder, handler of one single round. The unwinder removes the entry
      only after all three. */
  lemma RoundsFollowScript(init: State, run: seq<Action>, e: EntryId)
    requires Init(init) && Execute(init, run).Some? && e in Execute(init, run).value.entries
    ensures
      var s := Execute(init, run).value;
      var h := History(init, run, e);
      && |h.wakes| == s.entries[e].waitValue
      && (h.unwinder.None? ==> h.wakes == [])
      && (h.unwinder.Some? ==> h.wakes <= Script(h.unwinder.value, s.entries[e].tid))
      && (forall u :: u in s.threads && InRound(s.threads[u].phase) && s.threads[u].entry == e ==>
            && h.unwinder == Some(u)
            && (s.threads[u].phase.Unwinding? ==> h.wakes == [HandlerWake(s.threads[u].target)])
            && (s.threads[u].phase.Removing? ==> h.wakes == Script(u, s.threads[u].target)))
  {
    RunKeepsInv(init, run);
    RunKeepsHistory(init, run, e);
    var s := Execute(init, run).value;
    var h := History(init, run, e);
    forall u | u in s.threads && InRound(s.threads[u].phase) && s.threads[u].entry == e
      ensures h.unwinder == Some(u)
      ensures s.threads[u].phase.Unwinding? ==> h.wakes == [HandlerWake(s.threads[u].target)]
      ensures s.threads[u].phase.Removing? ==> h.wakes == Script(u, s.threads[u].target)
    {
      assert ThreadOk(s, u);
    }
  }
}
