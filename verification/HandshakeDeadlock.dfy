/**
 A run that ends in a deadlock. Thread `u` has unwound thread `t` and is giving its entry back when
 `t` in turn unwinds `u`: the signal arrives while `u` holds list_mutex_, which its handler needs.
 */
module HandshakeDeadlock {
  import opened Basics
  import opened Handshake
  import opened HandshakeRuns
  import opened HandshakeProgress

  // ---------------------------------------------------------------------------
  // The run

  /** `u` calls `UnwindThread` on `t`, creates the entry and installs the handler. */
  function Calling(u: Tid, t: Tid): seq<Action> {
    [Call(u, t), LockMutex(u)] + [LockList(u), Get(u)] + [UnlockList(u), LockEntry(u)] + [Reset(u), Install(u)]
  }

  /** The signal reaches `t`, whose handler answers. */
  function Responding(u: Tid, t: Tid): seq<Action> {
    [Kill(u), Deliver(t)] + [HandlerLockList(t), HandlerGet(t)] + [HandlerUnlockList(t), HandlerCopy(t)]
    + [HandlerWake(t), Wait1(u)]
  }

  /** `u` unwinds `t` and lets it go. */
  function LettingGo(u: Tid, t: Tid): seq<Action> {
    [PutBack(u), UnlockMutex(u)] + [FinishUnwind(u), HandlerWait2(t)] + [HandlerWakeAgain(t), HandlerReturn(t)]
    + [Wait3(u), UnlockEntry(u)]
  }

  /** While `u` holds list_mutex_ inside `Remove`, the signal of `t` interrupts it. */
  function Interrupting(u: Tid, t: Tid): seq<Action> {
    [LockList(u), DropReference(u)] + [Kill(t), Deliver(u)]
  }

  function LockingOut(u: Tid, t: Tid): seq<Action> {
    Calling(u, t) + Responding(u, t) + LettingGo(u, t) + Calling(t, u) + Interrupting(u, t)
  }

  lemma TwoSteps(step: Stepper, s: State, a: Action, b: Action)
    requires step(s, a).Some?
    ensures ExecuteWith(step, s, [a, b]) == step(step(s, a).value, b)
  {
    assert [a, b][..1] == [a] && [a][..0] == [];
    assert ExecuteWith(step, s, [a]) == step(s, a);
  }

  /** Runs one after the other. */
  lemma InARow(step: Stepper, s0: State, run: seq<seq<Action>>, s: seq<State>)
    requires |run| == 4 && |s| == 4
    requires ExecuteWith(step, s0, run[0]) == Some(s[0]) && ExecuteWith(step, s[0], run[1]) == Some(s[1])
    requires ExecuteWith(step, s[1], run[2]) == Some(s[2]) && ExecuteWith(step, s[2], run[3]) == Some(s[3])
    ensures ExecuteWith(step, s0, run[0] + run[1] + run[2] + run[3]) == Some(s[3])
  {
    RunsOn(step, s0, run[0], run[1]);
    RunsOn(step, s0, run[0] + run[1], run[2]);
    RunsOn(step, s0, run[0] + run[1] + run[2], run[3]);
  }

  // ---------------------------------------------------------------------------
  // Where a call leads, up to the signal

  /** The second of two updates of a thread, or of an entry, is what remains. */
  lemma Overwrites()
    ensures forall m: map<Tid, Thread>, u, x, y {:trigger m[u := x][u := y]} :: m[u := x][u := y] == m[u := y]
    ensures forall m: map<EntryId, Entry>, e, x, y {:trigger m[e := x][e := y]} :: m[e := x][e := y] == m[e := y]
  {
  }

  ghost predicate NoEntry(s: State, t: Tid) {
    forall e :: e in s.entries ==> !EntryOf(s, t, e)
  }

  /** `u` is running, in phase `p`. */
  predicate Runs(s: State, u: Tid, p: Phase) {
    u in s.threads && s.threads[u].phase == p && s.threads[u].handler.NotHandling?
  }

  lemma CallLeads(s: State, u: Tid, t: Tid) returns (s': State)
    requires Runs(s, u, Idle) && t in s.threads && u != t && s.sigMutex.None?
    ensures s' == SetThread(s, u, s.threads[u].(phase := HasMutex, target := t)).(sigMutex := Some(u))
    ensures Execute(s, [Call(u, t), LockMutex(u)]) == Some(s')
  {
    Overwrites();
    TwoSteps((s, a) => Next(s, a), s, Call(u, t), LockMutex(u));
    s' := Next(Next(s, Call(u, t)).value, LockMutex(u)).value;
  }

  lemma GetLeads(s: State, u: Tid) returns (s': State)
    requires Runs(s, u, HasMutex) && s.listMutex.None? && NoEntry(s, s.threads[u].target)
    ensures s' == CreateEntry(s, u).(listMutex := Some(u))
    ensures Execute(s, [LockList(u), Get(u)]) == Some(s')
  {
    Overwrites();
    var t := s.threads[u].target;
    var s1 := SetPhase(s, u, Searching).(listMutex := Some(u));
    assert forall e :: e in s1.entries ==> EntryOf(s1, t, e) == EntryOf(s, t, e);
    TwoSteps((s, a) => Next(s, a), s, LockList(u), Get(u));
    s' := Next(s1, Get(u)).value;
  }

  lemma LockEntryLeads(s: State, u: Tid, e: EntryId) returns (s': State)
    requires Runs(s, u, Found) && s.threads[u].entry == e && e in s.entries && s.entries[e].owner.None?
    ensures s' == SetEntry(SetPhase(s, u, LockedEntry), e, s.entries[e].(owner := Some(u))).(listMutex := None)
    ensures Execute(s, [UnlockList(u), LockEntry(u)]) == Some(s')
  {
    Overwrites();
    TwoSteps((s, a) => Next(s, a), s, UnlockList(u), LockEntry(u));
    s' := Next(Next(s, UnlockList(u)).value, LockEntry(u)).value;
  }

  lemma InstallLeads(s: State, u: Tid, e: EntryId) returns (s': State)
    requires Runs(s, u, LockedEntry) && s.threads[u].entry == e && e in s.entries
    ensures s' == SetEntry(SetThread(s, u, s.threads[u].(phase := InstalledHandler, oldact := s.disposition)), e,
                           s.entries[e].(waitValue := 0)).(disposition := Handling)
    ensures Execute(s, [Reset(u), Install(u)]) == Some(s')
  {
    Overwrites();
    TwoSteps((s, a) => Next(s, a), s, Reset(u), Install(u));
    s' := Next(Next(s, Reset(u)).value, Install(u)).value;
  }

  lemma CallingLeads(s: State, u: Tid, t: Tid) returns (s': State)
    requires Runs(s, u, Idle) && t in s.threads && u != t && s.sigMutex.None? && s.listMutex.None? && NoEntry(s, t)
    ensures s'.threads == s.threads[u := s.threads[u].(phase := InstalledHandler, target := t, entry := s.nextId,
                                                       oldact := s.disposition)]
    ensures s'.entries == s.entries[s.nextId := Entry(t, 1, Some(u), 0, 0, {u}, 0)] && s'.nextId == s.nextId + 1
    ensures s'.sigMutex == Some(u) && s'.listMutex.None? && s'.disposition.Handling?
    ensures Execute(s, Calling(u, t)) == Some(s')
  {
    Overwrites();
    var s1 := CallLeads(s, u, t);
    assert NoEntry(s1, t) by {
      assert forall e :: e in s1.entries ==> EntryOf(s1, t, e) == EntryOf(s, t, e);
    }
    var s2 := GetLeads(s1, u);
    var s3 := LockEntryLeads(s2, u, s.nextId);
    s' := InstallLeads(s3, u, s.nextId);
    InARow((s, a) => Next(s, a), s,
           [[Call(u, t), LockMutex(u)], [LockList(u), Get(u)], [UnlockList(u), LockEntry(u)], [Reset(u), Install(u)]],
           [s1, s2, s3, s']);
  }

  // ---------------------------------------------------------------------------
  // Where the rest of its round leads

  /** The only entry is `e`, the one of `t`; `u` has it and is in phase `p`; the handler of `t` is in
      phase `h`. */
  ghost predicate Stage(s: State, u: Tid, t: Tid, e: EntryId, p: Phase, h: HandlerPhase, wait: nat) {
    && u in s.threads && t in s.threads && u != t
    && s.threads[u].phase == p && s.threads[u].target == t && s.threads[u].entry == e
    && s.threads[u].handler.NotHandling? && s.threads[u].oldact.Original?
    && s.threads[t].phase.Idle? && s.threads[t].handler == h && (UsesEntry(h) ==> s.threads[t].handlerEntry == e)
    && e in s.entries && s.entries[e].tid == t && s.entries[e].waitValue == wait && e < s.nextId
    && forall x :: x in s.entries ==> x == e
  }

  lemma SignalLeads(s: State, u: Tid, t: Tid, e: EntryId) returns (s': State)
    requires Stage(s, u, t, e, InstalledHandler, NotHandling, 0) && s.listMutex.None? && s.disposition.Handling?
    ensures Stage(s', u, t, e, Signalled, Entered, 0) && s'.listMutex.None?
    ensures Execute(s, [Kill(u), Deliver(t)]) == Some(s')
  {
    TwoSteps((s, a) => Next(s, a), s, Kill(u), Deliver(t));
    s' := Next(Next(s, Kill(u)).value, Deliver(t)).value;
  }

  lemma HandlerGetLeads(s: State, u: Tid, t: Tid, e: EntryId) returns (s': State)
    requires Stage(s, u, t, e, Signalled, Entered, 0) && s.listMutex.None?
    ensures Stage(s', u, t, e, Signalled, HandlerFound, 0)
    ensures Execute(s, [HandlerLockList(t), HandlerGet(t)]) == Some(s')
  {
    TwoSteps((s, a) => Next(s, a), s, HandlerLockList(t), HandlerGet(t));
    assert EntryOf(Next(s, HandlerLockList(t)).value, t, e);
    s' := Next(Next(s, HandlerLockList(t)).value, HandlerGet(t)).value;
  }

  lemma CopyLeads(s: State, u: Tid, t: Tid, e: EntryId) returns (s': State)
    requires Stage(s, u, t, e, Signalled, HandlerFound, 0)
    ensures Stage(s', u, t, e, Signalled, Copied, 0) && s'.listMutex.None?
    ensures Execute(s, [HandlerUnlockList(t), HandlerCopy(t)]) == Some(s')
  {
    TwoSteps((s, a) => Next(s, a), s, HandlerUnlockList(t), HandlerCopy(t));
    s' := Next(Next(s, HandlerUnlockList(t)).value, HandlerCopy(t)).value;
  }

  lemma WakeLeads(s: State, u: Tid, t: Tid, e: EntryId) returns (s': State)
    requires Stage(s, u, t, e, Signalled, Copied, 0)
    ensures Stage(s', u, t, e, SawWake, Waiting, 1) && s'.listMutex == s.listMutex
    ensures Execute(s, [HandlerWake(t), Wait1(u)]) == Some(s')
  {
    TwoSteps((s, a) => Next(s, a), s, HandlerWake(t), Wait1(u));
    s' := Next(Next(s, HandlerWake(t)).value, Wait1(u)).value;
  }

  lemma PutBackLeads(s: State, u: Tid, t: Tid, e: EntryId) returns (s': State)
    requires Stage(s, u, t, e, SawWake, Waiting, 1)
    ensures Stage(s', u, t, e, Unwinding, Waiting, 1) && s'.listMutex == s.listMutex
    ensures s'.sigMutex.None? && s'.disposition.Original?
    ensures Execute(s, [PutBack(u), UnlockMutex(u)]) == Some(s')
  {
    TwoSteps((s, a) => Next(s, a), s, PutBack(u), UnlockMutex(u));
    s' := Next(Next(s, PutBack(u)).value, UnlockMutex(u)).value;
  }

  lemma FinishLeads(s: State, u: Tid, t: Tid, e: EntryId) returns (s': State)
    requires Stage(s, u, t, e, Unwinding, Waiting, 1)
    ensures Stage(s', u, t, e, Finished, Resumed, 2)
    ensures s'.listMutex == s.listMutex && s'.sigMutex == s.sigMutex && s'.disposition == s.disposition
    ensures Execute(s, [FinishUnwind(u), HandlerWait2(t)]) == Some(s')
  {
    TwoSteps((s, a) => Next(s, a), s, FinishUnwind(u), HandlerWait2(t));
    s' := Next(Next(s, FinishUnwind(u)).value, HandlerWait2(t)).value;
  }

  lemma ReturnLeads(s: State, u: Tid, t: Tid, e: EntryId) returns (s': State)
    requires Stage(s, u, t, e, Finished, Resumed, 2)
    ensures Stage(s', u, t, e, Finished, NotHandling, 3)
    ensures s'.listMutex == s.listMutex && s'.sigMutex == s.sigMutex && s'.disposition == s.disposition
    ensures Execute(s, [HandlerWakeAgain(t), HandlerReturn(t)]) == Some(s')
  {
    TwoSteps((s, a) => Next(s, a), s, HandlerWakeAgain(t), HandlerReturn(t));
    s' := Next(Next(s, HandlerWakeAgain(t)).value, HandlerReturn(t)).value;
  }

  lemma UnlockLeads(s: State, u: Tid, t: Tid, e: EntryId) returns (s': State)
    requires Stage(s, u, t, e, Finished, NotHandling, 3)
    ensures Stage(s', u, t, e, UnlockedEntry, NotHandling, 3)
    ensures s'.listMutex == s.listMutex && s'.sigMutex == s.sigMutex && s'.disposition == s.disposition
    ensures Execute(s, [Wait3(u), UnlockEntry(u)]) == Some(s')
  {
    TwoSteps((s, a) => Next(s, a), s, Wait3(u), UnlockEntry(u));
    s' := Next(Next(s, Wait3(u)).value, UnlockEntry(u)).value;
  }

  lemma RespondingLeads(s: State, u: Tid, t: Tid, e: EntryId) returns (s': State)
    requires Stage(s, u, t, e, InstalledHandler, NotHandling, 0) && s.listMutex.None? && s.disposition.Handling?
    ensures Stage(s', u, t, e, SawWake, Waiting, 1) && s'.listMutex.None?
    ensures Execute(s, Responding(u, t)) == Some(s')
  {
    var s1 := SignalLeads(s, u, t, e);
    var s2 := HandlerGetLeads(s1, u, t, e);
    var s3 := CopyLeads(s2, u, t, e);
    s' := WakeLeads(s3, u, t, e);
    InARow((s, a) => Next(s, a), s,
           [[Kill(u), Deliver(t)], [HandlerLockList(t), HandlerGet(t)], [HandlerUnlockList(t), HandlerCopy(t)],
            [HandlerWake(t), Wait1(u)]],
           [s1, s2, s3, s']);
  }

  lemma LettingGoLeads(s: State, u: Tid, t: Tid, e: EntryId) returns (s': State)
    requires Stage(s, u, t, e, SawWake, Waiting, 1) && s.listMutex.None?
    ensures Stage(s', u, t, e, UnlockedEntry, NotHandling, 3)
    ensures s'.listMutex.None? && s'.sigMutex.None? && s'.disposition.Original?
    ensures Execute(s, LettingGo(u, t)) == Some(s')
  {
    var s1 := PutBackLeads(s, u, t, e);
    var s2 := FinishLeads(s1, u, t, e);
    var s3 := ReturnLeads(s2, u, t, e);
    s' := UnlockLeads(s3, u, t, e);
    InARow((s, a) => Next(s, a), s,
           [[PutBack(u), UnlockMutex(u)], [FinishUnwind(u), HandlerWait2(t)], [HandlerWakeAgain(t), HandlerReturn(t)],
            [Wait3(u), UnlockEntry(u)]],
           [s1, s2, s3, s']);
  }

  // ---------------------------------------------------------------------------
  // The interruption

  lemma DropLeads(s: State, u: Tid, e: EntryId) returns (s': State)
    requires Runs(s, u, UnlockedEntry) && s.threads[u].entry == e && e in s.entries && s.listMutex.None?
    ensures s' == Drop(SetPhase(s, u, Dropped), u, e).(listMutex := Some(u))
    ensures Execute(s, [LockList(u), DropReference(u)]) == Some(s')
  {
    Overwrites();
    TwoSteps((s, a) => Next(s, a), s, LockList(u), DropReference(u));
    s' := Next(Next(s, LockList(u)).value, DropReference(u)).value;
  }

  lemma KillLeads(s: State, u: Tid, t: Tid) returns (s': State)
    requires Runs(s, t, InstalledHandler) && s.threads[t].target == u && u != t && s.threads[t].entry in s.entries
    requires Runs(s, u, Dropped) && s.disposition.Handling?
    ensures LockedOut(s', u) && s'.threads[u].from == t
    ensures Execute(s, [Kill(t), Deliver(u)]) == Some(s')
  {
    TwoSteps((s, a) => Next(s, a), s, Kill(t), Deliver(u));
    s' := Next(Next(s, Kill(t)).value, Deliver(u)).value;
  }

  lemma InterruptingLeads(s: State, u: Tid, t: Tid, e: EntryId) returns (s': State)
    requires Runs(s, u, UnlockedEntry) && s.threads[u].entry == e && e in s.entries && s.listMutex.None?
    requires Runs(s, t, InstalledHandler) && s.threads[t].target == u && u != t && s.disposition.Handling?
    requires s.threads[t].entry in s.entries && s.threads[t].entry != e
    ensures LockedOut(s', u) && s'.threads[u].from == t
    ensures Execute(s, Interrupting(u, t)) == Some(s')
  {
    var s1 := DropLeads(s, u, e);
    s' := KillLeads(s1, u, t);
    RunsOn((s, a) => Next(s, a), s, [LockList(u), DropReference(u)], [Kill(t), Deliver(u)]);
  }

  /** For any two threads there is a run after which one of them has locked itself out, while the
      other waits for it. */
  lemma DeadlockIsReachable(init: State, u: Tid, t: Tid)
    requires Init(init) && u in init.threads && t in init.threads && u != t
    ensures Execute(init, LockingOut(u, t)).Some?
    ensures Stuck(Execute(init, LockingOut(u, t)).value, u, t)
  {
    var step: Stepper := (s, a) => Next(s, a);
    var e := init.nextId;
    var s1 := CallingLeads(init, u, t);
    var s2 := RespondingLeads(s1, u, t, e);
    var s3 := LettingGoLeads(s2, u, t, e);
    var s4 := CallingLeads(s3, t, u);
    var s5 := InterruptingLeads(s4, u, t, e);
    InARow(step, init, [Calling(u, t), Responding(u, t), LettingGo(u, t), Calling(t, u)], [s1, s2, s3, s4]);
    RunsOn(step, init, Calling(u, t) + Responding(u, t) + LettingGo(u, t) + Calling(t, u), Interrupting(u, t));
    RunKeepsInv(init, LockingOut(u, t));
    LockedOutIsStuck(s5, u);
  }
}
