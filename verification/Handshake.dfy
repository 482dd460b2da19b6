/**
 The cross-thread unwind of BacktraceCurrent.cpp and ThreadEntry.h as a protocol: any number
 of threads may call `UnwindThread` on each other, the target's signal handler answers through
 a shared `ThreadEntry`, and the steps interleave freely. Waits do not time out, and only
 `UnwindThread` sends the signal.
 */
module Handshake {
  import opened Basics

  type Tid = nat
  type EntryId = nat

  /** Where a thread is in `UnwindThread`. Each name says what has been done last. */
  datatype Phase =
    | Idle
    | Called              // about to lock g_sigaction_mutex
    | HasMutex            // in Get, about to lock list_mutex_
    | Searching           // in Get, about to search the list
    | Found               // in Get, about to unlock list_mutex_
    | GotEntry            // about to lock the entry
    | LockedEntry         // about to reset wait_value_
    | ResetWait           // about to install the handler
    | InstalledHandler    // about to send the signal
    | KillFailed          // about to put the old action back after tgkill failed
    | Signalled           // in Wait(1)
    | SawWake             // about to put the old action back
    | PutBackAction       // about to unlock g_sigaction_mutex
    | Unwinding           // in UnwindFromContext, about to call Wake
    | Finished            // in Wait(3)
    | Removing            // in Remove, about to unlock the entry
    | UnlockedEntry       // in Remove, about to lock list_mutex_
    | Dropping            // in Remove, about to drop the reference
    | Dropped             // in Remove, about to unlock list_mutex_
    | FailedRemoving      // the same four after a failure, with g_sigaction_mutex held
    | FailedUnlockedEntry
    | FailedDropping
    | FailedDropped
    | FailedReleasing     // about to unlock g_sigaction_mutex after a failure

  /** Where a thread is in `SignalHandler`. */
  datatype HandlerPhase =
    | NotHandling
    | Entered             // in Get, about to lock list_mutex_
    | HandlerSearching    // in Get, about to search the list
    | HandlerFound        // in Get, about to unlock list_mutex_
    | HandlerMissed       // the same when there is no entry
    | HandlerGotEntry     // about to copy the ucontext
    | Copied              // about to call Wake
    | Waiting             // in Wait(2)
    | Resumed             // about to call Wake
    | Leaving             // about to return

  datatype Disposition = Original | Handling

  /** `oldact` is the signal action found when the handler was installed, `from` the sender of the
      signal that is pending or being handled, and `context` the machine context the thread has
      outside the handler. */
  datatype Thread = Thread(phase: Phase, target: Tid, entry: EntryId, oldact: Disposition,
                           handler: HandlerPhase, handlerEntry: EntryId,
                           pending: bool, from: Tid, context: nat)

  /** A live `ThreadEntry`. `holders` are the unwinders that have it; `handlerRefs` counts the
      references taken by signal handlers, which are never dropped. */
  datatype Entry = Entry(tid: Tid, refCount: nat, owner: Option<Tid>, waitValue: nat, ucontext: nat,
                         holders: set<Tid>, handlerRefs: nat)

  /** `sigMutex` and `listMutex` are the holders of g_sigaction_mutex and list_mutex_. */
  datatype State = State(threads: map<Tid, Thread>, sigMutex: Option<Tid>, disposition: Disposition,
                         listMutex: Option<Tid>, entries: map<EntryId, Entry>, nextId: EntryId)

  datatype Action =
    | Call(u: Tid, target: Tid)
    | LockMutex(u: Tid)
    | LockList(u: Tid)
    | Get(u: Tid)
    | UnlockList(u: Tid)
    | LockEntry(u: Tid)
    | Reset(u: Tid)
    | Install(u: Tid)
    | InstallFails(u: Tid)
    | Kill(u: Tid)
    | KillFails(u: Tid)
    | PutBackAfterKillFails(u: Tid)
    | Wait1(u: Tid)
    | PutBack(u: Tid)
    | UnlockMutex(u: Tid)
    | FinishUnwind(u: Tid)
    | Wait3(u: Tid)
    | UnlockEntry(u: Tid)
    | DropReference(u: Tid)
    | Release(u: Tid)
    | Deliver(u: Tid)
    | HandlerLockList(u: Tid)
    | HandlerGet(u: Tid)
    | HandlerUnlockList(u: Tid)
    | HandlerCopy(u: Tid)
    | HandlerWake(u: Tid)
    | HandlerWait2(u: Tid)
    | HandlerWakeAgain(u: Tid)
    | HandlerReturn(u: Tid)
    | Progress(u: Tid, context: nat)

  // ---------------------------------------------------------------------------
  // Steps

  predicate HasEntry(p: Phase) {
    match p
    case Idle | Called | HasMutex | Searching => false
    case Dropped | FailedDropped | FailedReleasing => false
    case _ => true
  }

  /** About to lock list_mutex_. */
  predicate NeedsList(p: Phase) {
    p.HasMutex? || p.UnlockedEntry? || p.FailedUnlockedEntry?
  }

  function WithList(p: Phase): Phase {
    if p.HasMutex? then Searching else if p.UnlockedEntry? then Dropping else FailedDropping
  }

  /** About to unlock it. */
  predicate LeavesList(p: Phase) {
    p.Found? || p.Dropped? || p.FailedDropped?
  }

  function AfterList(p: Phase): Phase {
    if p.Found? then GotEntry else if p.Dropped? then Idle else FailedReleasing
  }

  function SetThread(s: State, u: Tid, t: Thread): State {
    s.(threads := s.threads[u := t])
  }

  function SetPhase(s: State, u: Tid, p: Phase): State
    requires u in s.threads
  {
    SetThread(s, u, s.threads[u].(phase := p))
  }

  function SetHandler(s: State, u: Tid, h: HandlerPhase): State
    requires u in s.threads
  {
    SetThread(s, u, s.threads[u].(handler := h))
  }

  function SetEntry(s: State, e: EntryId, entry: Entry): State {
    s.(entries := s.entries[e := entry])
  }

  function Bump(entry: Entry): Entry {
    entry.(waitValue := entry.waitValue + 1)
  }

  /** The live entry of a thread, if there is one. */
  predicate EntryOf(s: State, tid: Tid, e: EntryId) {
    e in s.entries && s.entries[e].tid == tid
  }

  /** What every step of a call leaves alone. */
  predicate MovesOnly(s: State, s': State, u: Tid) {
    && u in s.threads && u in s'.threads && s'.threads == s.threads[u := s'.threads[u]]
    && SameHandling(s.threads[u], s'.threads[u])
  }

  /** The same thread seen from its signal handler. */
  predicate SameHandling(a: Thread, b: Thread) {
    a.handler == b.handler && a.handlerEntry == b.handlerEntry && a.pending == b.pending && a.from == b.from
    && a.context == b.context
  }

  /** The same thread seen from its call of `UnwindThread`. */
  predicate SameUnwinding(a: Thread, b: Thread) {
    a.phase == b.phase && a.target == b.target && a.entry == b.entry && a.oldact == b.oldact
  }

  /** Steps of `UnwindThread` on the mutexes, the signal action and the waits. None: the step is
      not enabled. */
  function CallStep(s: State, a: Action): (r: Option<State>)
    requires a.u in s.threads && (HasEntry(s.threads[a.u].phase) ==> s.threads[a.u].entry in s.entries)
    ensures r.Some? ==> MovesOnly(s, r.value, a.u) && r.value.entries == s.entries && r.value.nextId == s.nextId
  {
    var u := a.u;
    var me := s.threads[u];
    match a
    case Call(_, target) =>
      if me.phase.Idle? && target != u && target in s.threads
      then Some(SetThread(s, u, me.(phase := Called, target := target))) else None
    case LockMutex(_) =>
      if me.phase.Called? && s.sigMutex.None?
      then Some(SetPhase(s, u, HasMutex).(sigMutex := Some(u))) else None
    case LockList(_) =>
      if NeedsList(me.phase) && s.listMutex.None?
      then Some(SetPhase(s, u, WithList(me.phase)).(listMutex := Some(u))) else None
    case UnlockList(_) =>
      if LeavesList(me.phase) then Some(SetPhase(s, u, AfterList(me.phase)).(listMutex := None)) else None
    case Install(_) =>
      if me.phase.ResetWait?
      then Some(SetThread(s, u, me.(phase := InstalledHandler, oldact := s.disposition)).(disposition := Handling))
      else None
    case InstallFails(_) =>
      if me.phase.ResetWait? then Some(SetPhase(s, u, FailedRemoving)) else None
    case KillFails(_) =>
      if me.phase.InstalledHandler? then Some(SetPhase(s, u, KillFailed)) else None
    case PutBackAfterKillFails(_) =>
      if me.phase.KillFailed? then Some(SetPhase(s, u, FailedRemoving).(disposition := me.oldact)) else None
    case Wait1(_) =>
      if me.phase.Signalled? && s.entries[me.entry].waitValue == 1 then Some(SetPhase(s, u, SawWake)) else None
    case PutBack(_) =>
      if me.phase.SawWake? then Some(SetPhase(s, u, PutBackAction).(disposition := me.oldact)) else None
    case UnlockMutex(_) =>
      if me.phase.PutBackAction? then Some(SetPhase(s, u, Unwinding).(sigMutex := None)) else None
    case Wait3(_) =>
      if me.phase.Finished? && s.entries[me.entry].waitValue == 3 then Some(SetPhase(s, u, Removing)) else None
    case Release(_) =>
      if me.phase.FailedReleasing? then Some(SetPhase(s, u, Idle).(sigMutex := None)) else None
    case _ => None
  }

  /** Steps of `UnwindThread` on its entry. */
  function EntryStep(s: State, a: Action): (r: Option<State>)
    requires a.u in s.threads && (HasEntry(s.threads[a.u].phase) ==> s.threads[a.u].entry in s.entries)
    ensures r.Some? ==> MovesOnly(s, r.value, a.u) && r.value.nextId == s.nextId
  {
    var u := a.u;
    var me := s.threads[u];
    match a
    case LockEntry(_) =>
      if me.phase.GotEntry? && s.entries[me.entry].owner.None?
      then Some(SetEntry(SetPhase(s, u, LockedEntry), me.entry, s.entries[me.entry].(owner := Some(u)))) else None
    case Reset(_) =>
      if me.phase.LockedEntry?
      then Some(SetEntry(SetPhase(s, u, ResetWait), me.entry, s.entries[me.entry].(waitValue := 0))) else None
    case FinishUnwind(_) =>
      if me.phase.Unwinding?
      then Some(SetEntry(SetPhase(s, u, Finished), me.entry, Bump(s.entries[me.entry]))) else None
    case UnlockEntry(_) =>
      if me.phase.Removing? || me.phase.FailedRemoving?
      then Some(SetEntry(SetPhase(s, u, if me.phase.Removing? then UnlockedEntry else FailedUnlockedEntry),
                         me.entry, s.entries[me.entry].(owner := None)))
      else None
    case _ => None
  }

  /** The signal is sent. */
  function SendStep(s: State, u: Tid): Option<State>
    requires u in s.threads
  {
    var me := s.threads[u];
    if me.phase.InstalledHandler? && me.target in s.threads && me.target != u
    then Some(SetThread(SetPhase(s, u, Signalled), me.target, s.threads[me.target].(pending := true, from := u)))
    else None
  }

  /** The steps of `UnwindThread` inside Get and Remove, with list_mutex_ held. */
  ghost function ListStep(s: State, a: Action): (r: Option<State>)
    requires a.u in s.threads && (HasEntry(s.threads[a.u].phase) ==> s.threads[a.u].entry in s.entries)
    ensures r.Some? ==> MovesOnly(s, r.value, a.u)
  {
    var u := a.u;
    var me := s.threads[u];
    match a
    case Get(_) =>
      if !me.phase.Searching? then None
      else if e :| e in s.entries && EntryOf(s, me.target, e) then Some(AddReference(s, u, e))
      else Some(CreateEntry(s, u))
    case DropReference(_) =>
      if me.phase.Dropping? || me.phase.FailedDropping?
      then Some(Drop(SetPhase(s, u, if me.phase.Dropping? then Dropped else FailedDropped), u, me.entry))
      else None
    case _ => None
  }

  /** `ThreadEntry::Get` by an unwinder when the entry exists. */
  function AddReference(s: State, u: Tid, e: EntryId): State
    requires u in s.threads && e in s.entries
  {
    var entry := s.entries[e];
    SetEntry(SetThread(s, u, s.threads[u].(phase := Found, entry := e)), e,
             entry.(refCount := entry.refCount + 1, holders := entry.holders + {u}))
  }

  /** `ThreadEntry::Get` by an unwinder when there is no entry yet. */
  function CreateEntry(s: State, u: Tid): State
    requires u in s.threads
  {
    SetEntry(SetThread(s, u, s.threads[u].(phase := Found, entry := s.nextId)), s.nextId,
             Entry(s.threads[u].target, 1, None, 0, 0, {u}, 0)).(nextId := s.nextId + 1)
  }

  /** The list part of `ThreadEntry::Remove`: the entry is freed with its last reference. */
  function Drop(s: State, u: Tid, e: EntryId): State
    requires e in s.entries
  {
    var entry := s.entries[e];
    if entry.refCount <= 1 then s.(entries := s.entries - {e})
    else SetEntry(s, e, entry.(refCount := entry.refCount - 1, holders := entry.holders - {u}))
  }

  /** A step of `SignalHandler` in thread `u`, or of the kernel delivering the signal. */
  ghost function HandlerStep(s: State, a: Action): (r: Option<State>)
    requires a.u in s.threads
    ensures r.Some? ==> var s' := r.value;
      && a.u in s'.threads && s'.threads == s.threads[a.u := s'.threads[a.u]]
      && SameUnwinding(s.threads[a.u], s'.threads[a.u]) && s'.nextId == s.nextId
  {
    var u := a.u;
    var me := s.threads[u];
    match a
    case Deliver(_) =>
      if me.pending && me.handler.NotHandling? && s.disposition.Handling?
      then Some(SetThread(s, u, me.(pending := false, handler := Entered))) else None
    case HandlerLockList(_) =>
      if me.handler.Entered? && s.listMutex.None?
      then Some(SetHandler(s, u, HandlerSearching).(listMutex := Some(u))) else None
    case HandlerUnlockList(_) =>
      if me.handler.HandlerFound? || me.handler.HandlerMissed?
      then Some(SetHandler(s, u, if me.handler.HandlerFound? then HandlerGotEntry else Leaving).(listMutex := None))
      else None
    case HandlerGet(_) =>
      if !me.handler.HandlerSearching? then None
      else if e :| e in s.entries && EntryOf(s, u, e) then
        var entry := s.entries[e];
        Some(SetEntry(SetThread(s, u, me.(handler := HandlerFound, handlerEntry := e)), e,
                      entry.(refCount := entry.refCount + 1, handlerRefs := entry.handlerRefs + 1)))
      else Some(SetHandler(s, u, HandlerMissed))
    case HandlerCopy(_) =>
      if me.handler.HandlerGotEntry? && me.handlerEntry in s.entries
      then Some(SetEntry(SetHandler(s, u, Copied), me.handlerEntry,
                         s.entries[me.handlerEntry].(ucontext := me.context)))
      else None
    case HandlerWake(_) =>
      if me.handler.Copied? && me.handlerEntry in s.entries
      then Some(SetEntry(SetHandler(s, u, Waiting), me.handlerEntry, Bump(s.entries[me.handlerEntry]))) else None
    case HandlerWait2(_) =>
      if me.handler.Waiting? && me.handlerEntry in s.entries && s.entries[me.handlerEntry].waitValue == 2
      then Some(SetHandler(s, u, Resumed)) else None
    case HandlerWakeAgain(_) =>
      if me.handler.Resumed? && me.handlerEntry in s.entries
      then Some(SetEntry(SetHandler(s, u, Leaving), me.handlerEntry, Bump(s.entries[me.handlerEntry]))) else None
    case HandlerReturn(_) =>
      if me.handler.Leaving? then Some(SetHandler(s, u, NotHandling)) else None
    case Progress(_, context) =>
      if me.handler.NotHandling? then Some(SetThread(s, u, me.(context := context))) else None
    case _ => None
  }

  predicate IsHandlerAction(a: Action) {
    match a
    case Deliver(_) | HandlerLockList(_) | HandlerGet(_) | HandlerUnlockList(_) => true
    case HandlerCopy(_) | HandlerWake(_) => true
    case HandlerWait2(_) | HandlerWakeAgain(_) | HandlerReturn(_) | Progress(_, _) => true
    case _ => false
  }

  /** The search in `ThreadEntry::Get` and the decrement in `Remove`. */
  predicate IsListAction(a: Action) {
    a.Get? || a.DropReference?
  }

  /** The steps of an unwinder on an entry it has. */
  predicate IsEntryAction(a: Action) {
    a.LockEntry? || a.Reset? || a.FinishUnwind? || a.UnlockEntry?
  }

  /** One step. A thread inside a signal handler takes none in its call. */
  ghost function Next(s: State, a: Action): Option<State> {
    if a.u !in s.threads then None
    else if IsHandlerAction(a) then HandlerStep(s, a)
    else
      var me := s.threads[a.u];
      if !me.handler.NotHandling? || (HasEntry(me.phase) && me.entry !in s.entries) then None
      else if IsListAction(a) then ListStep(s, a)
      else if IsEntryAction(a) then EntryStep(s, a)
      else if a.Kill? then SendStep(s, a.u)
      else CallStep(s, a)
  }

  // ---------------------------------------------------------------------------
  // The invariant

  predicate HoldsMutex(p: Phase) {
    match p
    case HasMutex | Searching | Found | GotEntry | LockedEntry | ResetWait | InstalledHandler | KillFailed => true
    case Signalled | SawWake | PutBackAction => true
    case FailedRemoving | FailedUnlockedEntry | FailedDropping | FailedDropped | FailedReleasing => true
    case _ => false
  }

  predicate HasInstalled(p: Phase) {
    p.InstalledHandler? || p.KillFailed? || p.Signalled? || p.SawWake?
  }

  predicate OwnsEntry(p: Phase) {
    match p
    case LockedEntry | ResetWait | InstalledHandler | KillFailed | Signalled | SawWake => true
    case PutBackAction | Unwinding | Finished | Removing | FailedRemoving => true
    case _ => false
  }

  /** From the signal to the final wait. */
  predicate Engaged(p: Phase) {
    p.Signalled? || p.SawWake? || p.PutBackAction? || p.Unwinding? || p.Finished?
  }

  /** The handler is between its delivery and its last Wake. */
  predicate Busy(h: HandlerPhase) {
    !h.NotHandling? && !h.Leaving?
  }

  predicate UsesEntry(h: HandlerPhase) {
    h.HandlerFound? || h.HandlerGotEntry? || Answered(h)
  }

  /** The handler has copied the context. */
  predicate Answered(h: HandlerPhase) {
    h.Copied? || h.Waiting? || h.Resumed?
  }

  /** Before its first Wake. */
  predicate Answering(h: HandlerPhase) {
    h.Entered? || h.HandlerSearching? || h.HandlerFound? || h.HandlerGotEntry? || h.Copied?
  }

  predicate HoldsList(p: Phase) {
    match p
    case Searching | Found | Dropping | Dropped | FailedDropping | FailedDropped => true
    case _ => false
  }

  predicate HandlerHoldsList(h: HandlerPhase) {
    h.HandlerSearching? || h.HandlerFound? || h.HandlerMissed?
  }

  /** In its call or in its handler, the thread holds list_mutex_. */
  predicate HasList(t: Thread) {
    HoldsList(t.phase) || HandlerHoldsList(t.handler)
  }

  /** A handler that interrupts a thread inside Get or Remove gets no further than its own Get. */
  predicate ListFits(t: Thread) {
    HoldsList(t.phase) ==> t.handler.NotHandling? || t.handler.Entered?
  }

  predicate ListHolderOk(s: State, u: Tid)
    requires u in s.threads
  {
    && (HasList(s.threads[u]) ==> s.listMutex == Some(u))
    && ListFits(s.threads[u])
  }

  ghost predicate ListOk(s: State) {
    && (s.listMutex.Some? ==> s.listMutex.value in s.threads && HasList(s.threads[s.listMutex.value]))
    && (forall u {:trigger ListHolderOk(s, u)} :: u in s.threads ==> ListHolderOk(s, u))
  }

  predicate MutexHolderOk(s: State, u: Tid)
    requires u in s.threads
  {
    && (HoldsMutex(s.threads[u].phase) ==> s.sigMutex == Some(u))
    && (HasInstalled(s.threads[u].phase) ==> s.threads[u].oldact.Original?)
  }

  /** g_sigaction_mutex and the signal action it protects. */
  ghost predicate MutexOk(s: State) {
    && (s.sigMutex.Some? ==> s.sigMutex.value in s.threads && HoldsMutex(s.threads[s.sigMutex.value].phase))
    && (forall u {:trigger MutexHolderOk(s, u)} :: u in s.threads ==> MutexHolderOk(s, u))
    && (s.disposition.Handling? <==> s.sigMutex.Some? && HasInstalled(s.threads[s.sigMutex.value].phase))
  }

  ghost predicate HolderOk(s: State, u: Tid)
    requires u in s.threads
  {
    var me := s.threads[u];
    && (me.phase.Idle? || (me.target in s.threads && me.target != u))
    && (HasEntry(me.phase) ==> EntryOf(s, me.target, me.entry) && u in s.entries[me.entry].holders)
    && (OwnsEntry(me.phase) ==> me.entry in s.entries && s.entries[me.entry].owner == Some(u))
  }

  ghost predicate EntryOk(s: State, e: EntryId)
    requires e in s.entries
  {
    var entry := s.entries[e];
    && e < s.nextId
    && entry.refCount == |entry.holders| + entry.handlerRefs >= 1
    && (forall u :: u in entry.holders ==>
          u in s.threads && HasEntry(s.threads[u].phase) && s.threads[u].entry == e)
    && (entry.owner.Some? ==>
          var u := entry.owner.value;
          u in s.threads && OwnsEntry(s.threads[u].phase) && s.threads[u].entry == e)
  }

  predicate SameTid(s: State, d: EntryId, e: EntryId)
    requires d in s.entries && e in s.entries
  {
    s.entries[d].tid == s.entries[e].tid
  }

  ghost predicate OneEntryPerThread(s: State) {
    forall d, e {:trigger SameTid(s, d, e)} :: d in s.entries && e in s.entries && SameTid(s, d, e) ==> d == e
  }

  /** What the wait value, the target's signal and the target's handler are in each phase of
      the unwinder that owns the entry. */
  predicate RoundOk(p: Phase, value: nat, pending: bool, h: HandlerPhase) {
    match p
    case ResetWait | InstalledHandler | KillFailed => value == 0
    case Signalled =>
      if pending then value == 0 && !Busy(h)
      else if h.Waiting? then value == 1
      else value == 0 && Answering(h)
    case SawWake | PutBackAction | Unwinding => value == 1 && !pending && h.Waiting?
    case Finished =>
      !pending && if h.Waiting? || h.Resumed? then value == 2 else value == 3 && !Busy(h)
    case Removing => value == 3
    case _ => true
  }

  /** The unwinder's side of a round. */
  ghost predicate UnwinderOk(s: State, u: Tid)
    requires u in s.threads && HolderOk(s, u)
  {
    var me := s.threads[u];
    OwnsEntry(me.phase) ==>
      var them := s.threads[me.target];
      && RoundOk(me.phase, s.entries[me.entry].waitValue, them.pending, them.handler)
      && (Engaged(me.phase) && (them.pending || Busy(them.handler)) ==> them.from == u)
      && (!Engaged(me.phase) ==> !them.pending && !Busy(them.handler))
  }

  /** The target's side of a round. */
  ghost predicate TargetOk(s: State, t: Tid)
    requires t in s.threads
  {
    var me := s.threads[t];
    && (me.pending || Busy(me.handler) ==>
          me.from in s.threads && s.threads[me.from].target == t && Engaged(s.threads[me.from].phase))
    && (UsesEntry(me.handler) ==>
          && me.from in s.threads && me.handlerEntry == s.threads[me.from].entry
          && me.handlerEntry in s.entries && s.entries[me.handlerEntry].handlerRefs >= 1
          && (Answered(me.handler) ==> s.entries[me.handlerEntry].ucontext == me.context))
  }

  /** The parts of the invariant that speak about thread `u`. */
  ghost predicate ThreadOk(s: State, u: Tid)
    requires u in s.threads
  {
    HolderOk(s, u) && UnwinderOk(s, u) && TargetOk(s, u)
  }

  ghost predicate Inv(s: State) {
    && MutexOk(s) && ListOk(s) && OneEntryPerThread(s)
    && (forall u {:trigger ThreadOk(s, u)} :: u in s.threads ==> ThreadOk(s, u))
    && (forall e {:trigger EntryOk(s, e)} :: e in s.entries ==> EntryOk(s, e))
  }

  /** No call is under way and there are no entries. */
  ghost predicate Init(s: State) {
    && s.sigMutex == None && s.disposition == Original && s.listMutex == None && s.entries == map[]
    && forall u :: u in s.threads ==>
         s.threads[u].phase.Idle? && s.threads[u].handler.NotHandling? && !s.threads[u].pending
  }

  lemma InitInv(s: State)
    requires Init(s)
    ensures Inv(s)
  {
  }

  // ---------------------------------------------------------------------------
  // Kinds of steps that keep it

  /** Two unwinders cannot both own an entry of the same target. */
  lemma OwnersDiffer(s: State, u: Tid, v: Tid)
    requires Inv(s) && u in s.threads && v in s.threads
    requires OwnsEntry(s.threads[u].phase) && OwnsEntry(s.threads[v].phase)
    requires s.threads[u].target == s.threads[v].target || s.threads[u].entry == s.threads[v].entry
    ensures u == v
  {
    assert ThreadOk(s, u) && ThreadOk(s, v);
    assert SameTid(s, s.threads[u].entry, s.threads[v].entry);
  }

  /** The same thread as far as the mutexes and the signal action go. */
  predicate SameClaims(a: Thread, b: Thread) {
    && HoldsMutex(a.phase) == HoldsMutex(b.phase) && HasInstalled(a.phase) == HasInstalled(b.phase)
    && a.oldact == b.oldact && HoldsList(a.phase) == HoldsList(b.phase)
  }

  predicate Quiet(t: Thread) {
    !t.pending && !Busy(t.handler)
  }

  /** A target that was engaged stays so, or is no longer involved. */
  predicate KeepsEngaged(s: State, was: Thread, me: Thread) {
    Engaged(was.phase) ==>
      (Engaged(me.phase) && me.target == was.target) || (was.target in s.threads && Quiet(s.threads[was.target]))
  }

  /** `v` keeps its place in its own call when nothing it looks at changes. */
  lemma KeepsUnwinding(s: State, s': State, v: Tid)
    requires v in s.threads && v in s'.threads && HolderOk(s, v) && UnwinderOk(s, v)
    requires s'.threads.Keys == s.threads.Keys && SameUnwinding(s.threads[v], s'.threads[v])
    requires var me := s.threads[v];
      && (HasEntry(me.phase) ==> me.entry in s'.entries && s.entries[me.entry].tid == s'.entries[me.entry].tid
                                 && v in s'.entries[me.entry].holders)
      && (OwnsEntry(me.phase) ==>
            && s'.entries[me.entry].owner == Some(v)
            && s'.entries[me.entry].waitValue == s.entries[me.entry].waitValue
            && SameRole(s.threads[me.target], s'.threads[me.target]))
    ensures HolderOk(s', v) && UnwinderOk(s', v)
  {
  }

  /** The same thread seen from the unwinder that targets it. */
  predicate SameRole(a: Thread, b: Thread) {
    && a.pending == b.pending && a.from == b.from
    && (a.handler == b.handler || (!Busy(a.handler) && !Busy(b.handler)))
  }

  /** `t` keeps its place in its handler when nothing it looks at changes. */
  lemma KeepsHandling(s: State, s': State, t: Tid)
    requires t in s.threads && t in s'.threads && TargetOk(s, t)
    requires s'.threads.Keys == s.threads.Keys && SameHandling(s.threads[t], s'.threads[t])
    requires var me := s.threads[t];
      && (me.pending || Busy(me.handler) ==>
            var w := s'.threads[me.from];
            w.target == t && Engaged(w.phase) && w.entry == s.threads[me.from].entry)
      && (UsesEntry(me.handler) ==>
            && me.handlerEntry in s'.entries
            && s'.entries[me.handlerEntry].handlerRefs >= s.entries[me.handlerEntry].handlerRefs
            && s'.entries[me.handlerEntry].ucontext == s.entries[me.handlerEntry].ucontext)
    ensures TargetOk(s', t)
  {
  }

  /** `e` stays sound when its threads keep their place. */
  lemma KeepsEntry(s: State, s': State, e: EntryId)
    requires e in s.entries && EntryOk(s, e) && e in s'.entries && s'.entries[e] == s.entries[e]
    requires s.nextId <= s'.nextId && s.threads.Keys == s'.threads.Keys
    requires forall v :: v in s.entries[e].holders && v in s'.threads && v in s.threads ==>
      (HasEntry(s.threads[v].phase) && s.threads[v].entry == e ==>
         HasEntry(s'.threads[v].phase) && s'.threads[v].entry == e)
    requires s.entries[e].owner.Some? && s.entries[e].owner.value in s.threads ==>
      var v := s.entries[e].owner.value;
      OwnsEntry(s.threads[v].phase) && s.threads[v].entry == e ==>
        OwnsEntry(s'.threads[v].phase) && s'.threads[v].entry == e
    ensures EntryOk(s', e)
  {
  }

  lemma KeepsOneEntry(s: State, s': State)
    requires OneEntryPerThread(s)
    requires forall e :: e in s'.entries ==> e in s.entries && s'.entries[e].tid == s.entries[e].tid
    ensures OneEntryPerThread(s')
  {
    forall d, e | d in s'.entries && e in s'.entries && SameTid(s', d, e)
      ensures d == e
    {
      assert SameTid(s, d, e);
    }
  }

  /** An unwinder moves on without touching its entry. */
  lemma PhaseStep(s: State, s': State, u: Tid, me: Thread)
    requires Inv(s) && u in s.threads
    requires s' == s.(threads := s.threads[u := me], sigMutex := s'.sigMutex, disposition := s'.disposition,
                      listMutex := s'.listMutex)
    requires var was := s.threads[u];
      && SameHandling(was, me) && was.entry == me.entry && (was.target == me.target || !HasEntry(was.phase))
      && HasEntry(was.phase) == HasEntry(me.phase) && OwnsEntry(was.phase) == OwnsEntry(me.phase)
      && KeepsEngaged(s, was, me)
    requires MutexOk(s') && ListOk(s') && HolderOk(s', u) && UnwinderOk(s', u)
    ensures Inv(s')
  {
    forall v | v in s'.threads
      ensures ThreadOk(s', v)
    {
      assert ThreadOk(s, v);
      if v != u {
        KeepsUnwinding(s, s', v);
      }
      KeepsHandling(s, s', v);
    }
    forall e | e in s'.entries
      ensures EntryOk(s', e)
    {
      assert EntryOk(s, e);
      KeepsEntry(s, s', e);
    }
    KeepsOneEntry(s, s');
  }

  /** An unwinder locks, resets, bumps or unlocks its own entry. */
  ghost predicate IsEntryStep(s: State, s': State, u: Tid, entry: Entry) {
    && u in s.threads && u in s'.threads && s.threads[u].entry in s.entries
    && var was, me := s.threads[u], s'.threads[u];
       var before := s.entries[was.entry];
       && s' == s.(threads := s.threads[u := me], entries := s.entries[me.entry := entry])
       && SameHandling(was, me) && was.entry == me.entry && was.target == me.target
       && HasEntry(was.phase) && HasEntry(me.phase) && KeepsEngaged(s, was, me) && SameClaims(was, me)
       && entry == before.(owner := entry.owner, waitValue := entry.waitValue)
       && (before.owner.None? || before.owner == Some(u))
       && entry.owner == if OwnsEntry(me.phase) then Some(u) else None
  }

  lemma EntryStepKeepsThread(s: State, s': State, u: Tid, entry: Entry, v: Tid)
    requires Inv(s) && IsEntryStep(s, s', u, entry) && HolderOk(s', u) && UnwinderOk(s', u) && v in s.threads
    ensures ThreadOk(s', v)
  {
    assert ThreadOk(s, v);
    if v != u {
      KeepsUnwinding(s, s', v);
    }
    KeepsHandling(s, s', v);
  }

  lemma EntryStepKeepsInv(s: State, s': State, u: Tid, entry: Entry)
    requires Inv(s) && IsEntryStep(s, s', u, entry) && HolderOk(s', u) && UnwinderOk(s', u)
    ensures Inv(s')
  {
    forall v | v in s'.threads
      ensures ThreadOk(s', v)
    {
      EntryStepKeepsThread(s, s', u, entry, v);
    }
    forall e | e in s'.entries
      ensures EntryOk(s', e)
    {
      assert EntryOk(s, e);
      if e != s.threads[u].entry {
        KeepsEntry(s, s', e);
      }
    }
    KeepsOneEntry(s, s');
    KeepsMutex(s, s', u);
    KeepsList(s, s', u);
  }

  /** The handler of an engaged target moves on, and may touch the entry of the round. */
  ghost predicate IsRoundStep(s: State, s': State, t: Tid, entry: Entry) {
    && t in s.threads && t in s'.threads && (s.threads[t].pending || Busy(s.threads[t].handler))
    && s.threads[t].from in s.threads && s.threads[s.threads[t].from].entry in s.entries
    && var w, me := s.threads[t].from, s'.threads[t];
       var e := s.threads[w].entry;
       var before := s.entries[e];
       && s' == s.(threads := s.threads[t := me], entries := s.entries[e := entry], listMutex := s'.listMutex)
       && SameUnwinding(s.threads[t], me) && me.from == w
       && entry == before.(waitValue := entry.waitValue, ucontext := entry.ucontext,
                           refCount := entry.refCount, handlerRefs := entry.handlerRefs)
       && entry.refCount == |entry.holders| + entry.handlerRefs && entry.handlerRefs >= before.handlerRefs
       && HolderOk(s', w) && UnwinderOk(s', w)
  }

  lemma RoundStepKeepsUnwinding(s: State, s': State, t: Tid, entry: Entry, v: Tid)
    requires Inv(s) && IsRoundStep(s, s', t, entry) && v in s.threads
    ensures HolderOk(s', v) && UnwinderOk(s', v)
  {
    var w := s.threads[t].from;
    assert ThreadOk(s, t) && ThreadOk(s, w) && ThreadOk(s, v);
    if v != w {
      if OwnsEntry(s.threads[v].phase) && (s.threads[v].target == t || s.threads[v].entry == s.threads[w].entry) {
        OwnersDiffer(s, v, w);
      }
      KeepsUnwinding(s, s', v);
    }
  }

  lemma RoundStepKeepsHandling(s: State, s': State, t: Tid, entry: Entry, v: Tid)
    requires Inv(s) && IsRoundStep(s, s', t, entry) && TargetOk(s', t) && v in s.threads
    ensures TargetOk(s', v)
  {
    var w := s.threads[t].from;
    assert ThreadOk(s, t) && ThreadOk(s, w) && ThreadOk(s, v);
    if v != t {
      if UsesEntry(s.threads[v].handler) && s.threads[v].handlerEntry == s.threads[w].entry {
        assert ThreadOk(s, s.threads[v].from);
        OwnersDiffer(s, s.threads[v].from, w);
      }
      KeepsHandling(s, s', v);
    }
  }

  lemma RoundStep(s: State, s': State, t: Tid, entry: Entry)
    requires Inv(s) && IsRoundStep(s, s', t, entry) && TargetOk(s', t) && ListOk(s')
    ensures Inv(s')
  {
    forall v | v in s'.threads
      ensures ThreadOk(s', v)
    {
      RoundStepKeepsUnwinding(s, s', t, entry, v);
      RoundStepKeepsHandling(s, s', t, entry, v);
    }
    forall d | d in s'.entries
      ensures EntryOk(s', d)
    {
      assert EntryOk(s, d);
      if d != s.threads[s.threads[t].from].entry {
        KeepsEntry(s, s', d);
      }
    }
    KeepsOneEntry(s, s');
    KeepsMutex(s, s', t);
  }

  /** A thread whose handler is not involved in a round changes its context or returns. */
  lemma QuietStep(s: State, s': State, t: Tid, me: Thread)
    requires Inv(s) && t in s.threads && s' == s.(threads := s.threads[t := me])
    requires var was := s.threads[t];
      && SameUnwinding(was, me) && !Busy(was.handler) && me.handler.NotHandling?
      && was.pending == me.pending && was.from == me.from
    ensures Inv(s')
  {
    forall v | v in s'.threads
      ensures ThreadOk(s', v)
    {
      assert ThreadOk(s, v);
      KeepsUnwinding(s, s', v);
      if v != t {
        KeepsHandling(s, s', v);
      }
    }
    forall d | d in s'.entries
      ensures EntryOk(s', d)
    {
      assert EntryOk(s, d);
      KeepsEntry(s, s', d);
    }
    KeepsOneEntry(s, s');
    KeepsMutex(s, s', t);
    KeepsList(s, s', t);
  }

  /** The mutex and the signal action stay sound when a thread keeps its claim on them. */
  lemma KeepsMutex(s: State, s': State, u: Tid)
    requires MutexOk(s) && u in s.threads && u in s'.threads && s'.threads == s.threads[u := s'.threads[u]]
    requires s'.sigMutex == s.sigMutex && s'.disposition == s.disposition
    requires HoldsMutex(s'.threads[u].phase) == HoldsMutex(s.threads[u].phase)
    requires HasInstalled(s'.threads[u].phase) == HasInstalled(s.threads[u].phase)
    requires s'.threads[u].oldact == s.threads[u].oldact
    ensures MutexOk(s')
  {
    forall v | v in s'.threads
      ensures MutexHolderOk(s', v)
    {
      assert MutexHolderOk(s, v);
    }
  }

  /** The mutex or the signal action changes. */
  lemma MovesMutex(s: State, s': State, u: Tid)
    requires MutexOk(s) && u in s.threads && u in s'.threads && s'.threads == s.threads[u := s'.threads[u]]
    requires s.sigMutex == Some(u) || s.sigMutex.None?
    requires s'.sigMutex == if HoldsMutex(s'.threads[u].phase) then Some(u) else None
    requires s'.disposition.Handling? <==> HoldsMutex(s'.threads[u].phase) && HasInstalled(s'.threads[u].phase)
    requires HasInstalled(s'.threads[u].phase) ==> s'.threads[u].oldact.Original?
    ensures MutexOk(s')
  {
    forall v | v in s'.threads
      ensures MutexHolderOk(s', v)
    {
      assert MutexHolderOk(s, v);
    }
  }

  /** A thread keeps its claim on the list. */
  lemma KeepsList(s: State, s': State, u: Tid)
    requires ListOk(s) && u in s.threads && u in s'.threads && s'.threads == s.threads[u := s'.threads[u]]
    requires s'.listMutex == s.listMutex && HasList(s'.threads[u]) == HasList(s.threads[u])
    requires ListFits(s.threads[u]) ==> ListFits(s'.threads[u])
    ensures ListOk(s')
  {
    assert ListHolderOk(s, u);
    forall v | v in s'.threads
      ensures ListHolderOk(s', v)
    {
      assert ListHolderOk(s, v);
    }
  }

  /** A thread locks or unlocks the list. */
  lemma MovesList(s: State, s': State, u: Tid)
    requires ListOk(s) && u in s.threads && u in s'.threads && s'.threads == s.threads[u := s'.threads[u]]
    requires s.listMutex == Some(u) || s.listMutex.None?
    requires s'.listMutex == if HasList(s'.threads[u]) then Some(u) else None
    requires ListFits(s'.threads[u])
    ensures ListOk(s')
  {
    forall v | v in s'.threads
      ensures ListHolderOk(s', v)
    {
      assert ListHolderOk(s, v);
    }
  }

  // ---------------------------------------------------------------------------
  // Every step keeps the invariant

  ghost predicate Keeps(s: State, a: Action) {
    Inv(s) && Next(s, a).Some? ==> Inv(Next(s, a).value)
  }

  lemma CallKeepsInv(s: State, a: Action)
    requires a.Call?
    ensures Keeps(s, a)
  {
    if Inv(s) && Next(s, a).Some? {
      var s' := Next(s, a).value;
      assert ThreadOk(s, a.u);
      KeepsMutex(s, s', a.u);
      KeepsList(s, s', a.u);
      PhaseStep(s, s', a.u, s'.threads[a.u]);
    }
  }

  /** sigaction or tgkill fails. */
  lemma FailureKeepsInv(s: State, a: Action)
    requires a.InstallFails? || a.KillFails?
    ensures Keeps(s, a)
  {
    if Inv(s) && Next(s, a).Some? {
      var s' := Next(s, a).value;
      assert ThreadOk(s, a.u);
      KeepsMutex(s, s', a.u);
      KeepsList(s, s', a.u);
      PhaseStep(s, s', a.u, s'.threads[a.u]);
    }
  }

  /** The unwinder's waits end. */
  lemma WaitKeepsInv(s: State, a: Action)
    requires a.Wait1? || a.Wait3?
    ensures Keeps(s, a)
  {
    if Inv(s) && Next(s, a).Some? {
      var s' := Next(s, a).value;
      assert ThreadOk(s, a.u);
      KeepsMutex(s, s', a.u);
      KeepsList(s, s', a.u);
      PhaseStep(s, s', a.u, s'.threads[a.u]);
    }
  }

  /** g_sigaction_mutex is locked or unlocked. */
  lemma MutexKeepsInv(s: State, a: Action)
    requires a.LockMutex? || a.UnlockMutex? || a.Release?
    ensures Keeps(s, a)
  {
    if Inv(s) && Next(s, a).Some? {
      var s' := Next(s, a).value;
      assert ThreadOk(s, a.u);
      assert MutexHolderOk(s, a.u);
      MovesMutex(s, s', a.u);
      KeepsList(s, s', a.u);
      PhaseStep(s, s', a.u, s'.threads[a.u]);
    }
  }

  /** The handler is installed, and the action it replaces is kept. */
  lemma InstallKeepsInv(s: State, a: Action)
    requires a.Install?
    ensures Keeps(s, a)
  {
    if Inv(s) && Next(s, a).Some? {
      var s' := Next(s, a).value;
      assert ThreadOk(s, a.u);
      assert MutexHolderOk(s, a.u);
      MovesMutex(s, s', a.u);
      KeepsList(s, s', a.u);
      PhaseStep(s, s', a.u, s'.threads[a.u]);
    }
  }

  /** The action found is put back. */
  lemma PutBackKeepsInv(s: State, a: Action)
    requires a.PutBack? || a.PutBackAfterKillFails?
    ensures Keeps(s, a)
  {
    if Inv(s) && Next(s, a).Some? {
      var s' := Next(s, a).value;
      assert ThreadOk(s, a.u);
      assert MutexHolderOk(s, a.u);
      MovesMutex(s, s', a.u);
      KeepsList(s, s', a.u);
      PhaseStep(s, s', a.u, s'.threads[a.u]);
    }
  }

  /** list_mutex_ is locked in a call. */
  lemma LockListKeepsInv(s: State, a: Action)
    requires a.LockList?
    ensures Keeps(s, a)
  {
    if Inv(s) && Next(s, a).Some? {
      var s' := Next(s, a).value;
      assert ThreadOk(s, a.u);
      KeepsMutex(s, s', a.u);
      assert ListHolderOk(s, a.u);
      MovesList(s, s', a.u);
      PhaseStep(s, s', a.u, s'.threads[a.u]);
    }
  }

  lemma UnlockListKeepsInv(s: State, a: Action)
    requires a.UnlockList?
    ensures Keeps(s, a)
  {
    if Inv(s) && Next(s, a).Some? {
      var s' := Next(s, a).value;
      assert ThreadOk(s, a.u);
      KeepsMutex(s, s', a.u);
      assert ListHolderOk(s, a.u);
      MovesList(s, s', a.u);
      PhaseStep(s, s', a.u, s'.threads[a.u]);
    }
  }

  /** An entry that nobody owns belongs to a thread that is in no round. */
  lemma UnownedIsQuiet(s: State, e: EntryId)
    requires Inv(s) && e in s.entries && s.entries[e].owner.None? && s.entries[e].tid in s.threads
    ensures Quiet(s.threads[s.entries[e].tid])
  {
    var t := s.entries[e].tid;
    assert ThreadOk(s, t);
    if !Quiet(s.threads[t]) {
      var w := s.threads[t].from;
      assert ThreadOk(s, w);
      assert SameTid(s, s.threads[w].entry, e);
      assert false;
    }
  }

  lemma LockEntryKeepsInv(s: State, u: Tid)
    ensures Keeps(s, LockEntry(u))
  {
    var a := LockEntry(u);
    if Inv(s) && Next(s, a).Some? {
      var s' := Next(s, a).value;
      var e := s.threads[u].entry;
      assert ThreadOk(s, u);
      UnownedIsQuiet(s, e);
      EntryStepKeepsInv(s, s', u, s'.entries[e]);
    }
  }

  lemma ResetKeepsInv(s: State, u: Tid)
    ensures Keeps(s, Reset(u))
  {
    var a := Reset(u);
    if Inv(s) && Next(s, a).Some? {
      var s' := Next(s, a).value;
      var e := s.threads[u].entry;
      assert ThreadOk(s, u);
      EntryStepKeepsInv(s, s', u, s'.entries[e]);
    }
  }

  lemma FinishUnwindKeepsInv(s: State, u: Tid)
    ensures Keeps(s, FinishUnwind(u))
  {
    var a := FinishUnwind(u);
    if Inv(s) && Next(s, a).Some? {
      var s' := Next(s, a).value;
      var e := s.threads[u].entry;
      assert ThreadOk(s, u);
      EntryStepKeepsInv(s, s', u, s'.entries[e]);
    }
  }

  lemma UnlockEntryKeepsInv(s: State, u: Tid)
    ensures Keeps(s, UnlockEntry(u))
  {
    var a := UnlockEntry(u);
    if Inv(s) && Next(s, a).Some? {
      var s' := Next(s, a).value;
      var e := s.threads[u].entry;
      assert ThreadOk(s, u);
      EntryStepKeepsInv(s, s', u, s'.entries[e]);
    }
  }

  lemma DeliverKeepsInv(s: State, t: Tid)
    ensures Keeps(s, Deliver(t))
  {
    var a := Deliver(t);
    if Inv(s) && Next(s, a).Some? {
      var s' := Next(s, a).value;
      assert ThreadOk(s, t);
      var w := s.threads[t].from;
      assert ThreadOk(s, w);
      var e := s.threads[w].entry;
      assert EntryOk(s, e);
      KeepsList(s, s', t);
      RoundStep(s, s', t, s'.entries[e]);
    }
  }

  lemma HandlerLockListKeepsInv(s: State, t: Tid)
    ensures Keeps(s, HandlerLockList(t))
  {
    var a := HandlerLockList(t);
    if Inv(s) && Next(s, a).Some? {
      var s' := Next(s, a).value;
      assert ThreadOk(s, t) && ListHolderOk(s, t);
      var w := s.threads[t].from;
      assert ThreadOk(s, w);
      var e := s.threads[w].entry;
      assert EntryOk(s, e);
      MovesList(s, s', t);
      RoundStep(s, s', t, s'.entries[e]);
    }
  }

  lemma HandlerUnlockListKeepsInv(s: State, t: Tid)
    ensures Keeps(s, HandlerUnlockList(t))
  {
    var a := HandlerUnlockList(t);
    if Inv(s) && Next(s, a).Some? {
      var s' := Next(s, a).value;
      assert ThreadOk(s, t) && ListHolderOk(s, t);
      var w := s.threads[t].from;
      assert ThreadOk(s, w);
      var e := s.threads[w].entry;
      assert EntryOk(s, e);
      MovesList(s, s', t);
      RoundStep(s, s', t, s'.entries[e]);
    }
  }

  /** The handler finds the entry of the round. */
  lemma HandlerGetKeepsInv(s: State, t: Tid)
    ensures Keeps(s, HandlerGet(t))
  {
    var a := HandlerGet(t);
    if Inv(s) && Next(s, a).Some? {
      var s' := Next(s, a).value;
      assert ThreadOk(s, t);
      var w := s.threads[t].from;
      assert ThreadOk(s, w);
      var e := s.threads[w].entry;
      assert EntryOk(s, e);
      assert EntryOf(s, t, e);
      var d := s'.threads[t].handlerEntry;
      assert d in s.entries && EntryOf(s, t, d);
      assert SameTid(s, d, e);
      KeepsList(s, s', t);
      RoundStep(s, s', t, s'.entries[e]);
    }
  }

  lemma HandlerCopyKeepsInv(s: State, t: Tid)
    ensures Keeps(s, HandlerCopy(t))
  {
    var a := HandlerCopy(t);
    if Inv(s) && Next(s, a).Some? {
      var s' := Next(s, a).value;
      assert ThreadOk(s, t);
      var w := s.threads[t].from;
      assert ThreadOk(s, w);
      var e := s.threads[w].entry;
      assert EntryOk(s, e);
      KeepsList(s, s', t);
      RoundStep(s, s', t, s'.entries[e]);
    }
  }

  lemma HandlerWakeKeepsInv(s: State, t: Tid)
    ensures Keeps(s, HandlerWake(t))
  {
    var a := HandlerWake(t);
    if Inv(s) && Next(s, a).Some? {
      var s' := Next(s, a).value;
      assert ThreadOk(s, t);
      var w := s.threads[t].from;
      assert ThreadOk(s, w);
      var e := s.threads[w].entry;
      assert EntryOk(s, e);
      KeepsList(s, s', t);
      RoundStep(s, s', t, s'.entries[e]);
    }
  }

  lemma HandlerWait2KeepsInv(s: State, t: Tid)
    ensures Keeps(s, HandlerWait2(t))
  {
    var a := HandlerWait2(t);
    if Inv(s) && Next(s, a).Some? {
      var s' := Next(s, a).value;
      assert ThreadOk(s, t);
      var w := s.threads[t].from;
      assert ThreadOk(s, w);
      var e := s.threads[w].entry;
      assert EntryOk(s, e);
      KeepsList(s, s', t);
      RoundStep(s, s', t, s'.entries[e]);
    }
  }

  lemma HandlerWakeAgainKeepsInv(s: State, t: Tid)
    ensures Keeps(s, HandlerWakeAgain(t))
  {
    var a := HandlerWakeAgain(t);
    if Inv(s) && Next(s, a).Some? {
      var s' := Next(s, a).value;
      assert ThreadOk(s, t);
      var w := s.threads[t].from;
      assert ThreadOk(s, w);
      var e := s.threads[w].entry;
      assert EntryOk(s, e);
      KeepsList(s, s', t);
      RoundStep(s, s', t, s'.entries[e]);
    }
  }

  lemma QuietActionsKeepInv(s: State, a: Action)
    requires a.HandlerReturn? || a.Progress?
    ensures Keeps(s, a)
  {
    if Inv(s) && Next(s, a).Some? {
      var s' := Next(s, a).value;
      QuietStep(s, s', a.u, s'.threads[a.u]);
    }
  }

  /** The signal goes to a thread that is in no round. */
  lemma KillKeepsThread(s: State, s': State, u: Tid, v: Tid)
    requires Inv(s) && u in s.threads && v in s.threads && Next(s, Kill(u)) == Some(s')
    ensures ThreadOk(s', v)
  {
    var t := s.threads[u].target;
    assert ThreadOk(s, u) && ThreadOk(s, t) && ThreadOk(s, v);
    if v != u {
      if OwnsEntry(s.threads[v].phase) && s.threads[v].target == t {
        OwnersDiffer(s, u, v);
      }
      KeepsUnwinding(s, s', v);
    }
    if v != t {
      KeepsHandling(s, s', v);
    }
  }

  lemma KillKeepsInv(s: State, u: Tid)
    ensures Keeps(s, Kill(u))
  {
    var a := Kill(u);
    if Inv(s) && Next(s, a).Some? {
      var s' := Next(s, a).value;
      var t := s.threads[u].target;
      var sent := SetPhase(s, u, Signalled);
      assert MutexHolderOk(s, u);
      MovesMutex(s, sent, u);
      KeepsMutex(sent, s', t);
      KeepsList(s, sent, u);
      KeepsList(sent, s', t);
      forall v | v in s'.threads
        ensures ThreadOk(s', v)
      {
        KillKeepsThread(s, s', u, v);
      }
      forall e | e in s'.entries
        ensures EntryOk(s', e)
      {
        assert EntryOk(s, e);
        KeepsEntry(s, s', e);
      }
      KeepsOneEntry(s, s');
    }
  }

  lemma AddReferenceKeepsThread(s: State, u: Tid, e: EntryId, v: Tid)
    requires Inv(s) && u in s.threads && v in s.threads
    requires s.threads[u].phase.Searching? && EntryOf(s, s.threads[u].target, e)
    ensures ThreadOk(AddReference(s, u, e), v)
  {
    var s' := AddReference(s, u, e);
    assert ThreadOk(s, u) && ThreadOk(s, v);
    if v != u {
      KeepsUnwinding(s, s', v);
    }
    KeepsHandling(s, s', v);
  }

  lemma AddReferenceKeepsEntry(s: State, u: Tid, e: EntryId, d: EntryId)
    requires Inv(s) && u in s.threads && e in s.entries && d in s.entries && s.threads[u].phase.Searching?
    ensures EntryOk(AddReference(s, u, e), d)
  {
    assert EntryOk(s, d);
    if d == e {
      assert u !in s.entries[e].holders;
    } else {
      KeepsEntry(s, AddReference(s, u, e), d);
    }
  }

  lemma AddReferenceKeepsInv(s: State, u: Tid, e: EntryId)
    requires Inv(s) && u in s.threads && s.threads[u].phase.Searching? && EntryOf(s, s.threads[u].target, e)
    ensures Inv(AddReference(s, u, e))
  {
    var s' := AddReference(s, u, e);
    forall v | v in s'.threads
      ensures ThreadOk(s', v)
    {
      AddReferenceKeepsThread(s, u, e, v);
    }
    forall d | d in s'.entries
      ensures EntryOk(s', d)
    {
      AddReferenceKeepsEntry(s, u, e, d);
    }
    KeepsOneEntry(s, s');
    KeepsMutex(s, s', u);
    KeepsList(s, s', u);
  }

  lemma CreateEntryKeepsInv(s: State, u: Tid)
    requires Inv(s) && u in s.threads && s.threads[u].phase.Searching?
    requires forall e :: e in s.entries ==> !EntryOf(s, s.threads[u].target, e)
    ensures Inv(CreateEntry(s, u))
  {
    var s' := CreateEntry(s, u);
    assert ThreadOk(s, u);
    KeepsMutex(s, s', u);
    KeepsList(s, s', u);
    forall v | v in s'.threads
      ensures ThreadOk(s', v)
    {
      assert ThreadOk(s, v);
      if v != u {
        if HasEntry(s.threads[v].phase) {
          assert EntryOk(s, s.threads[v].entry);
        }
        KeepsUnwinding(s, s', v);
      }
      if UsesEntry(s.threads[v].handler) {
        assert EntryOk(s, s.threads[v].handlerEntry);
      }
      KeepsHandling(s, s', v);
    }
    forall d | d in s'.entries
      ensures EntryOk(s', d)
    {
      if d != s.nextId {
        assert EntryOk(s, d);
        KeepsEntry(s, s', d);
      }
    }
    forall c, d | c in s'.entries && d in s'.entries && SameTid(s', c, d)
      ensures c == d
    {
      assert c != s.nextId ==> !EntryOf(s, s.threads[u].target, c);
      assert d != s.nextId ==> !EntryOf(s, s.threads[u].target, d);
      assert c != s.nextId && d != s.nextId ==> SameTid(s, c, d);
    }
  }

  lemma GetKeepsInv(s: State, u: Tid)
    ensures Keeps(s, Get(u))
  {
    var a := Get(u);
    if Inv(s) && Next(s, a).Some? {
      var s' := Next(s, a).value;
      if exists e :: e in s.entries && EntryOf(s, s.threads[u].target, e) {
        var e := s'.threads[u].entry;
        assert s' == AddReference(s, u, e);
        AddReferenceKeepsInv(s, u, e);
      } else {
        CreateEntryKeepsInv(s, u);
      }
    }
  }

  /** Only the last user of an entry frees it. */
  lemma LastReference(s: State, u: Tid, e: EntryId)
    requires Inv(s) && e in s.entries && u in s.entries[e].holders && s.entries[e].refCount <= 1
    ensures s.entries[e].holders == {u} && s.entries[e].handlerRefs == 0
  {
    var holders := s.entries[e].holders;
    assert EntryOk(s, e);
    assert holders == {u} + (holders - {u});
    assert |holders| == 1 + |holders - {u}|;
  }

  /** `u` drops its reference to its entry. */
  ghost predicate IsDrop(s: State, s': State, u: Tid) {
    && u in s.threads && (s.threads[u].phase.Dropping? || s.threads[u].phase.FailedDropping?)
    && s.threads[u].entry in s.entries
    && var phase := if s.threads[u].phase.Dropping? then Dropped else FailedDropped;
    s' == Drop(SetPhase(s, u, phase), u, s.threads[u].entry)
  }

  lemma DropKeepsUnwinding(s: State, s': State, u: Tid, v: Tid)
    requires Inv(s) && v in s.threads && IsDrop(s, s', u)
    ensures HolderOk(s', v) && UnwinderOk(s', v)
  {
    var e := s.threads[u].entry;
    assert ThreadOk(s, u) && ThreadOk(s, v);
    if s.entries[e].refCount <= 1 {
      LastReference(s, u, e);
    }
    if v != u {
      KeepsUnwinding(s, s', v);
    }
  }

  lemma DropKeepsHandling(s: State, s': State, u: Tid, v: Tid)
    requires Inv(s) && v in s.threads && IsDrop(s, s', u)
    ensures TargetOk(s', v)
  {
    var e := s.threads[u].entry;
    assert ThreadOk(s, u) && ThreadOk(s, v);
    if s.entries[e].refCount <= 1 {
      LastReference(s, u, e);
    }
    KeepsHandling(s, s', v);
  }

  lemma DropKeepsEntry(s: State, s': State, u: Tid, d: EntryId)
    requires Inv(s) && IsDrop(s, s', u) && d in s'.entries
    ensures EntryOk(s', d)
  {
    assert ThreadOk(s, u) && EntryOk(s, d);
    if d == s.threads[u].entry {
      DropLeavesEntry(s, s', u);
    } else {
      KeepsEntry(s, s', d);
    }
  }

  lemma DropLeavesEntry(s: State, s': State, u: Tid)
    requires IsDrop(s, s', u) && s.threads[u].entry in s'.entries && EntryOk(s, s.threads[u].entry)
    requires u in s.entries[s.threads[u].entry].holders && s.entries[s.threads[u].entry].owner != Some(u)
    ensures EntryOk(s', s.threads[u].entry)
  {
  }

  lemma DropKeepsInv(s: State, s': State, u: Tid)
    requires Inv(s) && IsDrop(s, s', u)
    ensures Inv(s')
  {
    KeepsMutex(s, s', u);
    KeepsList(s, s', u);
    KeepsOneEntry(s, s');
    forall v | v in s'.threads
      ensures ThreadOk(s', v)
    {
      DropKeepsUnwinding(s, s', u, v);
      DropKeepsHandling(s, s', u, v);
    }
    forall d | d in s'.entries
      ensures EntryOk(s', d)
    {
      DropKeepsEntry(s, s', u, d);
    }
  }

  lemma DropReferenceKeepsInv(s: State, u: Tid)
    ensures Keeps(s, DropReference(u))
  {
    if Inv(s) && Next(s, DropReference(u)).Some? {
      DropKeepsInv(s, Next(s, DropReference(u)).value, u);
    }
  }
}
