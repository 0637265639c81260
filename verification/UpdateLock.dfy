/** The update lock as an interleaved protocol: any number of updaters share one lock file,
    each system call is one step, and any process may die between two steps.

    The source opens the file exclusively and then writes its pid into it, and it reads the
    holder's pid, probes that process and then unlinks the file. Mutual exclusion rests on
    two conflicts being absent: nobody reads the file while it is being created, and nobody
    creates it between another's read and its unlink. */
module UpdateLock {
  import opened Wrappers

  type Pid = nat

  /** The file at the lock path: who created it, and whether the pid was written yet. */
  datatype LockFile = LockFile(creator: Pid, written: bool)

  datatype Phase =
    | Unborn
    | Trying                         // about to open the lock file exclusively
    | Created                        // opened it; pid not written yet
    | Colliding                      // the open failed because the file exists
    | Probed(holder: Option<Pid>)    // read the holder's pid, if any
    | Stealing                       // found the holder gone; about to unlink
    | Inside                         // running the update
    | Done                           // released, or gave up

  datatype State = State(lock: Option<LockFile>, phases: map<Pid, Phase>, dead: set<Pid>)

  datatype Event =
    | Start(p: Pid)
    | Create(p: Pid)
    | Write(p: Pid)
    | Collide(p: Pid)
    | Read(p: Pid)
    | Wait(p: Pid)
    | GiveUp(p: Pid)
    | FindGone(p: Pid)
    | Steal(p: Pid)
    | Release(p: Pid)
    | Die(p: Pid)

  function PhaseOf(s: State, p: Pid): Phase {
    if p in s.phases then s.phases[p] else Unborn
  }

  predicate Alive(s: State, p: Pid) {
    PhaseOf(s, p) != Unborn && p !in s.dead
  }

  predicate LiveInside(s: State, p: Pid) {
    Alive(s, p) && PhaseOf(s, p) == Inside
  }

  /** What reading the lock file yields: no pid when the file is gone or still empty. */
  function HolderOnDisk(s: State): Option<Pid> {
    if s.lock.Some? && s.lock.value.written then Some(s.lock.value.creator) else None
  }

  predicate HolderAlive(s: State, holder: Option<Pid>) {
    holder.Some? && Alive(s, holder.value)
  }

  predicate Enabled(s: State, e: Event) {
    match e
    case Start(p) => PhaseOf(s, p) == Unborn && p !in s.dead
    case Create(p) => Alive(s, p) && PhaseOf(s, p) == Trying && s.lock == None
    case Write(p) => Alive(s, p) && PhaseOf(s, p) == Created
    case Collide(p) => Alive(s, p) && PhaseOf(s, p) == Trying && s.lock.Some?
    case Read(p) => Alive(s, p) && PhaseOf(s, p) == Colliding
    case Wait(p) => Alive(s, p) && PhaseOf(s, p).Probed? && HolderAlive(s, PhaseOf(s, p).holder)
    case GiveUp(p) => Alive(s, p) && PhaseOf(s, p).Probed? && HolderAlive(s, PhaseOf(s, p).holder)
    case FindGone(p) => Alive(s, p) && PhaseOf(s, p).Probed? && !HolderAlive(s, PhaseOf(s, p).holder)
    case Steal(p) => Alive(s, p) && PhaseOf(s, p) == Stealing
    case Release(p) => Alive(s, p) && PhaseOf(s, p) == Inside
    case Die(p) => Alive(s, p)
  }

  function Move(s: State, p: Pid, phase: Phase): State {
    s.(phases := s.phases[p := phase])
  }

  function Next(s: State, e: Event): State {
    match e
    case Start(p) => Move(s, p, Trying)
    case Create(p) => Move(s, p, Created).(lock := Some(LockFile(p, false)))
    case Write(p) =>
      // The write goes through the descriptor: it misses the lock path if the file was unlinked.
      if s.lock.Some? && s.lock.value.creator == p
      then Move(s, p, Inside).(lock := Some(LockFile(p, true)))
      else Move(s, p, Inside)
    case Collide(p) => Move(s, p, Colliding)
    case Read(p) => Move(s, p, Probed(HolderOnDisk(s)))
    case Wait(p) => Move(s, p, Trying)
    case GiveUp(p) => Move(s, p, Done)
    case FindGone(p) => Move(s, p, Stealing)
    case Steal(p) => Move(s, p, Trying).(lock := None)
    case Release(p) => Move(s, p, Done).(lock := None)
    case Die(p) => s.(dead := s.dead + {p})
  }

  // ----- the two windows that must not be interleaved

  predicate InCreateWindow(s: State, p: Pid) {
    Alive(s, p) && PhaseOf(s, p) == Created
  }

  predicate InStealWindow(s: State, p: Pid) {
    Alive(s, p) && (PhaseOf(s, p).Probed? || PhaseOf(s, p) == Stealing)
  }

  /** Nobody reads the lock file while another live updater stands between its create and its
      write. Every other step may come in between. */
  ghost predicate NoReadWhileCreating(s: State, e: Event) {
    e.Read? ==> forall q: Pid :: q != e.p ==> !InCreateWindow(s, q)
  }

  /** Nobody creates the lock file while another live updater stands between its read of the holder
      and what it does about it: waiting, giving up or unlinking. Every other step may come in
      between, reads of other waiters and the release of the holder included. */
  ghost predicate NoCreateWhileDeciding(s: State, e: Event) {
    e.Create? ==> forall q: Pid :: q != e.p ==> !InStealWindow(s, q)
  }

  /** The state after the first `n` events. */
  function At(s: State, events: seq<Event>, n: nat): State
    requires n <= |events|
    decreases n
  {
    if n == 0 then s else Next(At(s, events, n - 1), events[n - 1])
  }

  ghost predicate Run(s: State, events: seq<Event>) {
    forall i :: 0 <= i < |events| ==> Enabled(At(s, events, i), events[i])
  }

  ghost predicate NoReadConflict(s: State, events: seq<Event>) {
    forall i :: 0 <= i < |events| ==> NoReadWhileCreating(At(s, events, i), events[i])
  }

  ghost predicate NoCreateConflict(s: State, events: seq<Event>) {
    forall i :: 0 <= i < |events| ==> NoCreateWhileDeciding(At(s, events, i), events[i])
  }

  ghost predicate ConflictFreeRun(s: State, events: seq<Event>) {
    Run(s, events) && NoReadConflict(s, events) && NoCreateConflict(s, events)
  }

  /** No updater yet; the lock file is absent or was left behind by a dead process. */
  predicate Initial(s: State) {
    && s.phases == map[]
    && (s.lock.Some? ==> s.lock.value.creator in s.dead)
  }

  // ----- the invariant

  /** A live process inside, or about to be, owns the file at the lock path. */
  ghost predicate OwnersHoldTheFile(s: State) {
    && (forall p: Pid :: LiveInside(s, p) ==> s.lock == Some(LockFile(p, true)))
    && (forall p: Pid :: InCreateWindow(s, p) ==> s.lock == Some(LockFile(p, false)))
  }

  /** A file with a live creator belongs to a process inside or in its create window. */
  predicate FileHasOwner(s: State) {
    s.lock.Some? ==>
      var c := s.lock.value.creator;
      && (PhaseOf(s, c) == Unborn ==> c in s.dead)
      && (Alive(s, c) ==> PhaseOf(s, c) == if s.lock.value.written then Inside else Created)
  }

  /** While there is a file, a probed pid is the one on disk, a live creator has written it, and a
      file about to be unlinked has no live creator. */
  ghost predicate ProbesAreFresh(s: State) {
    s.lock.Some? ==>
      forall p: Pid :: InStealWindow(s, p) ==>
        if PhaseOf(s, p).Probed?
        then PhaseOf(s, p).holder == HolderOnDisk(s) && (Alive(s, s.lock.value.creator) ==> s.lock.value.written)
        else !Alive(s, s.lock.value.creator)
  }

  ghost predicate Inv(s: State) {
    OwnersHoldTheFile(s) && FileHasOwner(s) && ProbesAreFresh(s)
  }

  ghost predicate ConflictFreeStep(s: State, e: Event) {
    Enabled(s, e) && NoReadWhileCreating(s, e) && NoCreateWhileDeciding(s, e)
  }

  /** A step changes nobody's phase but its own. */
  lemma OthersStay(s: State, e: Event)
    requires Enabled(s, e)
    ensures forall q: Pid :: q != e.p ==>
              && PhaseOf(Next(s, e), q) == PhaseOf(s, q)
              && (Alive(Next(s, e), q) <==> Alive(s, q))
    ensures forall q: Pid :: q != e.p ==> (LiveInside(Next(s, e), q) <==> LiveInside(s, q))
    ensures forall q: Pid :: q != e.p ==> (InCreateWindow(Next(s, e), q) <==> InCreateWindow(s, q))
    ensures forall q: Pid :: q != e.p ==> (InStealWindow(Next(s, e), q) <==> InStealWindow(s, q))
    ensures e.Die? ==> PhaseOf(Next(s, e), e.p) == PhaseOf(s, e.p) && !Alive(Next(s, e), e.p)
    ensures !e.Die? ==> Alive(Next(s, e), e.p)
  {
  }

  lemma OwnersStay(s: State, e: Event)
    requires Inv(s) && ConflictFreeStep(s, e)
    ensures OwnersHoldTheFile(Next(s, e))
  {
    OthersStay(s, e);
    assert e.Steal? ==> InStealWindow(s, e.p);
    assert e.Write? ==> InCreateWindow(s, e.p);
    assert e.Release? ==> LiveInside(s, e.p);
  }

  lemma FileKeepsOwner(s: State, e: Event)
    requires Inv(s) && ConflictFreeStep(s, e)
    ensures FileHasOwner(Next(s, e))
  {
    OthersStay(s, e);
  }

  lemma ProbesStayFresh(s: State, e: Event)
    requires Inv(s) && ConflictFreeStep(s, e)
    ensures ProbesAreFresh(Next(s, e))
  {
    OthersStay(s, e);
    assert e.Write? ==> InCreateWindow(s, e.p);
    assert e.FindGone? ==> InStealWindow(s, e.p);
    if e.Read? && s.lock.Some? && Alive(s, s.lock.value.creator) && !s.lock.value.written {
      assert InCreateWindow(s, s.lock.value.creator);
    }
  }

  lemma StepKeepsInv(s: State, e: Event)
    requires Inv(s) && ConflictFreeStep(s, e)
    ensures Inv(Next(s, e))
  {
    OwnersStay(s, e);
    FileKeepsOwner(s, e);
    ProbesStayFresh(s, e);
  }

  lemma {:induction false} RunKeepsInv(s: State, events: seq<Event>, n: nat)
    requires Inv(s) && ConflictFreeRun(s, events) && n <= |events|
    ensures Inv(At(s, events, n))
    decreases n
  {
    hide Inv, Next, Enabled, NoReadWhileCreating, NoCreateWhileDeciding;
    if n > 0 {
      RunKeepsInv(s, events, n - 1);
      StepKeepsInv(At(s, events, n - 1), events[n - 1]);
    }
  }

  /** In every interleaving of any number of updaters without the two conflicts, with deaths at any
      point, at most one live process is inside the lock, at every moment of the run. */
  lemma {:induction false} MutualExclusion(s: State, events: seq<Event>, n: nat, p: Pid, q: Pid)
    requires Initial(s) && ConflictFreeRun(s, events) && n <= |events|
    requires LiveInside(At(s, events, n), p) && LiveInside(At(s, events, n), q)
    ensures p == q
  {
    RunKeepsInv(s, events, n);
  }

  lemma HolderStays(s: State, e: Event, p: Pid)
    requires Inv(s) && ConflictFreeStep(s, e)
    requires LiveInside(s, p) && e.p != p
    ensures s.lock == Next(s, e).lock == Some(LockFile(p, true))
    ensures LiveInside(Next(s, e), p)
  {
    OthersStay(s, e);
    StepKeepsInv(s, e);
  }

  /** No step of anyone else takes the lock away from a live holder. */
  lemma {:induction false} LiveHolderKeepsTheLock(s: State, events: seq<Event>, n: nat, p: Pid)
    requires Initial(s) && ConflictFreeRun(s, events) && n < |events|
    requires LiveInside(At(s, events, n), p) && events[n].p != p
    ensures At(s, events, n).lock == Some(LockFile(p, true))
    ensures At(s, events, n + 1).lock == Some(LockFile(p, true))
    ensures LiveInside(At(s, events, n + 1), p)
  {
    RunKeepsInv(s, events, n);
    HolderStays(At(s, events, n), events[n], p);
  }

  // ----- single steps are enough

  /** Between its create and its write, no other updater takes a step. */
  ghost predicate CreateIsAtomic(s: State, e: Event) {
    e.Die? || forall q: Pid :: q != e.p ==> !InCreateWindow(s, q)
  }

  /** Between its read of the holder and what it does about it, no other updater takes a step. */
  ghost predicate StealIsAtomic(s: State, e: Event) {
    e.Die? || forall q: Pid :: q != e.p ==> !InStealWindow(s, q)
  }

  /** If create-and-write and read-to-decision are single steps there is no conflict, so exclusion
      holds; the converse fails, as when the holder releases while a waiter decides. */
  lemma {:induction false} SingleStepsExclude(s: State, events: seq<Event>, n: nat, p: Pid, q: Pid)
    requires Initial(s) && Run(s, events) && n <= |events|
    requires forall i :: 0 <= i < |events| ==>
               CreateIsAtomic(At(s, events, i), events[i]) && StealIsAtomic(At(s, events, i), events[i])
    requires LiveInside(At(s, events, n), p) && LiveInside(At(s, events, n), q)
    ensures ConflictFreeRun(s, events) && p == q
  {
    hide Next, Enabled, At, Initial, InCreateWindow, InStealWindow, Run;
    forall i | 0 <= i < |events|
      ensures NoReadWhileCreating(At(s, events, i), events[i]) && NoCreateWhileDeciding(At(s, events, i), events[i])
    {
      assert CreateIsAtomic(At(s, events, i), events[i]) && StealIsAtomic(At(s, events, i), events[i]);
    }
    MutualExclusion(s, events, n, p, q);
  }

  /** A holder may release while a waiter stands between its read and its decision. */
  lemma ReleaseIsNoConflict(s: State, p: Pid)
    requires LiveInside(s, p)
    ensures ConflictFreeStep(s, Release(p))
  {
  }

  // ----- progress: a lock left by a dead holder is taken over without waiting

  function Takeover(p: Pid): seq<Event> {
    [Collide(p), Read(p), FindGone(p), Steal(p), Create(p), Write(p)]
  }

  /** The takeover, state by state. */
  function TakeoverState(s: State, p: Pid, i: nat): State {
    if i == 0 then s
    else if i == 1 then Move(s, p, Colliding)
    else if i == 2 then Move(s, p, Probed(HolderOnDisk(s)))
    else if i == 3 then Move(s, p, Stealing)
    else if i == 4 then Move(s, p, Trying).(lock := None)
    else if i == 5 then Move(s, p, Created).(lock := Some(LockFile(p, false)))
    else Move(s, p, Inside).(lock := Some(LockFile(p, true)))
  }

  lemma TakeoverStep(s: State, p: Pid, i: nat)
    requires Alive(s, p) && PhaseOf(s, p) == Trying && i < 6
    requires s.lock.Some? && !Alive(s, s.lock.value.creator)
    requires forall q: Pid :: q != p ==> !InCreateWindow(s, q) && !InStealWindow(s, q)
    ensures Enabled(TakeoverState(s, p, i), Takeover(p)[i])
    ensures NoReadWhileCreating(TakeoverState(s, p, i), Takeover(p)[i])
    ensures NoCreateWhileDeciding(TakeoverState(s, p, i), Takeover(p)[i])
    ensures Next(TakeoverState(s, p, i), Takeover(p)[i]) == TakeoverState(s, p, i + 1)
  {
    var t := TakeoverState(s, p, i);
    forall q: Pid | q != p
      ensures !InCreateWindow(t, q) && !InStealWindow(t, q)
    {
      assert !InCreateWindow(s, q) && !InStealWindow(s, q);
    }
    if i == 0 {
    } else if i == 1 {
    } else if i == 2 {
    } else if i == 3 {
    } else if i == 4 {
    } else {
    }
  }

  lemma StaleLockIsTakenOver(s: State, p: Pid)
    requires Alive(s, p) && PhaseOf(s, p) == Trying
    requires s.lock.Some? && !Alive(s, s.lock.value.creator)
    requires forall q: Pid :: q != p ==> !InCreateWindow(s, q) && !InStealWindow(s, q)
    ensures ConflictFreeRun(s, Takeover(p))
    ensures LiveInside(At(s, Takeover(p), 6), p)
    ensures At(s, Takeover(p), 6).lock == Some(LockFile(p, true))
  {
    hide Enabled, Next, NoReadWhileCreating, NoCreateWhileDeciding, At, InCreateWindow, InStealWindow;
    var states := seq(7, i requires i >= 0 => TakeoverState(s, p, i));
    forall i | 0 <= i < 6 { TakeoverStep(s, p, i); }
    FollowsStates(s, Takeover(p), states);
  }

  /** A list of states that agrees with the events step by step is the run. */
  lemma FollowsStates(s: State, events: seq<Event>, states: seq<State>)
    requires |states| == |events| + 1 && states[0] == s
    requires forall i :: 0 <= i < |events| ==> Next(states[i], events[i]) == states[i + 1]
    ensures forall i :: 0 <= i <= |events| ==> At(s, events, i) == states[i]
  {
    for n := 0 to |events|
      invariant forall i :: 0 <= i <= n ==> At(s, events, i) == states[i]
    {
    }
  }

  /** A live updater is never stuck before it is done, and has no choice but how long to wait: the next
      step is fixed by its phase, by whether there is a file and by whether the holder it read is
      alive. Any live process may die at any time, and nothing else changes then. */
  lemma NextStepIsFixed(s: State, p: Pid)
    requires p in s.phases && s.phases[p] != Unborn && p !in s.dead
    ensures Enabled(s, Create(p)) <==> s.phases[p] == Trying && s.lock == None
    ensures Enabled(s, Collide(p)) <==> s.phases[p] == Trying && s.lock != None
    ensures Enabled(s, Write(p)) <==> s.phases[p] == Created
    ensures Enabled(s, Read(p)) <==> s.phases[p] == Colliding
    ensures Enabled(s, Wait(p)) <==> Enabled(s, GiveUp(p))
    ensures Enabled(s, Wait(p)) <==>
            exists holder :: s.phases[p] == Probed(Some(holder))
                             && holder in s.phases && s.phases[holder] != Unborn && holder !in s.dead
    ensures Enabled(s, FindGone(p)) <==> s.phases[p].Probed? && !Enabled(s, Wait(p))
    ensures Enabled(s, Steal(p)) <==> s.phases[p] == Stealing
    ensures Enabled(s, Release(p)) <==> s.phases[p] == Inside
    ensures !Enabled(s, Start(p))
    ensures Enabled(s, Die(p)) && Next(s, Die(p)) == State(s.lock, s.phases, s.dead + {p})
  {
  }

  /** The holder releases while another waits, and the other moves in. */
  function HandOver(p: Pid, w: Pid): seq<Event> {
    [Collide(w), Read(w), Wait(w), Release(p), Create(w), Write(w)]
  }

  function HandOverState(s: State, p: Pid, w: Pid, i: nat): State {
    if i == 0 then s
    else if i == 1 then Move(s, w, Colliding)
    else if i == 2 then Move(s, w, Probed(Some(p)))
    else if i == 3 then Move(s, w, Trying)
    else if i == 4 then Move(Move(s, w, Trying), p, Done).(lock := None)
    else if i == 5 then Move(Move(s, p, Done), w, Created).(lock := Some(LockFile(w, false)))
    else Move(Move(s, p, Done), w, Inside).(lock := Some(LockFile(w, true)))
  }

  lemma HandOverStep(s: State, p: Pid, w: Pid, i: nat)
    requires LiveInside(s, p) && s.lock == Some(LockFile(p, true)) && p != w
    requires Alive(s, w) && PhaseOf(s, w) == Trying && i < 6
    requires forall q: Pid :: !InCreateWindow(s, q) && !InStealWindow(s, q)
    ensures Enabled(HandOverState(s, p, w, i), HandOver(p, w)[i])
    ensures NoReadWhileCreating(HandOverState(s, p, w, i), HandOver(p, w)[i])
    ensures NoCreateWhileDeciding(HandOverState(s, p, w, i), HandOver(p, w)[i])
    ensures Next(HandOverState(s, p, w, i), HandOver(p, w)[i]) == HandOverState(s, p, w, i + 1)
  {
    var t := HandOverState(s, p, w, i);
    forall q: Pid | q != w
      ensures !InCreateWindow(t, q) && !InStealWindow(t, q)
    {
      assert !InCreateWindow(s, q) && !InStealWindow(s, q);
    }
    if i == 0 {
    } else if i == 1 {
    } else if i == 2 {
    } else if i == 3 {
    } else if i == 4 {
    } else {
    }
  }

  /** A lock that is held is handed over: the waiter tries again, and is inside once the holder has
      released. */
  lemma ReleasedLockIsHandedOver(s: State, p: Pid, w: Pid)
    requires LiveInside(s, p) && s.lock == Some(LockFile(p, true)) && p != w
    requires Alive(s, w) && PhaseOf(s, w) == Trying
    requires forall q: Pid :: !InCreateWindow(s, q) && !InStealWindow(s, q)
    ensures ConflictFreeRun(s, HandOver(p, w))
    ensures var end := At(s, HandOver(p, w), 6);
            end.lock == Some(LockFile(w, true)) && end.phases == s.phases[p := Done][w := Inside] && end.dead == s.dead
  {
    hide Enabled, Next, NoReadWhileCreating, NoCreateWhileDeciding, At, InCreateWindow, InStealWindow;
    var states := seq(7, i requires i >= 0 => HandOverState(s, p, w, i));
    forall i | 0 <= i < 6 { HandOverStep(s, p, w, i); }
    FollowsStates(s, HandOver(p, w), states);
  }

  /** A waiter that gives up leaves the holder and its lock as they are. */
  lemma WaiterGivesUp(s: State, p: Pid, w: Pid)
    requires LiveInside(s, p) && s.lock == Some(LockFile(p, true)) && p != w
    requires Alive(s, w) && PhaseOf(s, w) == Trying
    requires forall q: Pid :: !InCreateWindow(s, q)
    ensures ConflictFreeRun(s, [Collide(w), Read(w), GiveUp(w)])
    ensures At(s, [Collide(w), Read(w), GiveUp(w)], 3) == State(s.lock, s.phases[w := Done], s.dead)
  {
    var events := [Collide(w), Read(w), GiveUp(w)];
    var states := [s, Move(s, w, Colliding), Move(s, w, Probed(Some(p))), Move(s, w, Done)];
    forall q: Pid | q != w
      ensures !InCreateWindow(states[1], q)
    {
      assert !InCreateWindow(s, q);
    }
    assert Next(states[1], events[1]) == states[2];
    FollowsStates(s, events, states);
    assert Enabled(states[0], events[0]) && Enabled(states[1], events[1]) && Enabled(states[2], events[2]);
    hide Enabled, Next, At;
    forall i | 0 <= i < 3
      ensures Enabled(At(s, events, i), events[i])
      ensures NoReadWhileCreating(At(s, events, i), events[i]) && NoCreateWhileDeciding(At(s, events, i), events[i])
    {
      assert At(s, events, i) == states[i];
      assert i == 0 || i == 1 || i == 2;
    }
  }

  // ----- why both halves of the hypothesis are needed

  /** Step `i` of a run given state by state; only one of the two conflicts is avoided. */
  ghost predicate RaceStep(events: seq<Event>, states: seq<State>, i: nat, noCreateConflict: bool)
    requires i < |events| < |states|
  {
    && Enabled(states[i], events[i])
    && Next(states[i], events[i]) == states[i + 1]
    && (if noCreateConflict then NoCreateWhileDeciding(states[i], events[i])
        else NoReadWhileCreating(states[i], events[i]))
  }

  lemma RunOfStates(s: State, events: seq<Event>, states: seq<State>, final: State, noCreateConflict: bool)
    requires |states| == |events| + 1 && states[0] == s && states[|events|] == final
    requires forall i :: 0 <= i < |events| ==> RaceStep(events, states, i, noCreateConflict)
    ensures Run(s, events)
    ensures if noCreateConflict then NoCreateConflict(s, events) else NoReadConflict(s, events)
    ensures At(s, events, |events|) == final
  {
    forall i | 0 <= i < |events|
      ensures Next(states[i], events[i]) == states[i + 1]
    {
      assert RaceStep(events, states, i, noCreateConflict);
    }
    FollowsStates(s, events, states);
    forall i | 0 <= i < |events|
      ensures Enabled(At(s, events, i), events[i])
      ensures if noCreateConflict
              then NoCreateWhileDeciding(At(s, events, i), events[i])
              else NoReadWhileCreating(At(s, events, i), events[i])
    {
      assert RaceStep(events, states, i, noCreateConflict);
    }
  }

  const FRESH := State(None, map[], {})

  /** Process 1 is preempted between create and write; process 2 reads an empty file, takes it
      for stale and moves in; then process 1 resumes. */
  const EMPTY_FILE_RACE := [
    Start(1), Start(2), Create(1),
    Collide(2), Read(2), FindGone(2), Steal(2), Create(2), Write(2),
    Write(1)]

  const EMPTY_FILE_STATES := [
    FRESH,
    State(None, map[1 := Trying], {}),
    State(None, map[1 := Trying, 2 := Trying], {}),
    State(Some(LockFile(1, false)), map[1 := Created, 2 := Trying], {}),
    State(Some(LockFile(1, false)), map[1 := Created, 2 := Colliding], {}),
    State(Some(LockFile(1, false)), map[1 := Created, 2 := Probed(None)], {}),
    State(Some(LockFile(1, false)), map[1 := Created, 2 := Stealing], {}),
    State(None, map[1 := Created, 2 := Trying], {}),
    State(Some(LockFile(2, false)), map[1 := Created, 2 := Created], {}),
    State(Some(LockFile(2, true)), map[1 := Created, 2 := Inside], {}),
    State(Some(LockFile(2, true)), map[1 := Inside, 2 := Inside], {})]

  lemma EmptyFileIsFound(i: nat)
    requires i < 5
    ensures RaceStep(EMPTY_FILE_RACE, EMPTY_FILE_STATES, i, true)
  {
    if i == 0 {
    } else if i == 1 {
    } else if i == 2 {
    } else if i == 3 {
    } else {
    }
  }

  lemma EmptyFileIsStolen(i: nat)
    requires 5 <= i < 10
    ensures RaceStep(EMPTY_FILE_RACE, EMPTY_FILE_STATES, i, true)
  {
    if i == 5 {
    } else if i == 6 {
    } else if i == 7 {
    } else if i == 8 {
    } else {
    }
  }

  const BOTH_INSIDE := map[1 := Inside, 2 := Inside]

  lemma {:induction false} EmptyFileRuns()
    ensures Run(FRESH, EMPTY_FILE_RACE) && NoCreateConflict(FRESH, EMPTY_FILE_RACE)
    ensures At(FRESH, EMPTY_FILE_RACE, 10) == State(Some(LockFile(2, true)), BOTH_INSIDE, {})
  {
    forall i | 0 <= i < 10
      ensures RaceStep(EMPTY_FILE_RACE, EMPTY_FILE_STATES, i, true)
    {
      if i < 5 { EmptyFileIsFound(i); } else { EmptyFileIsStolen(i); }
    }
    RunOfStates(FRESH, EMPTY_FILE_RACE, EMPTY_FILE_STATES,
                State(Some(LockFile(2, true)), BOTH_INSIDE, {}), true);
  }

  /** With only the second conflict avoided, two live processes can be inside. */
  lemma {:induction false} CreateWindowBreaksExclusion()
    ensures Initial(FRESH)
    ensures Run(FRESH, EMPTY_FILE_RACE) && NoCreateConflict(FRESH, EMPTY_FILE_RACE)
    ensures LiveInside(At(FRESH, EMPTY_FILE_RACE, 10), 1) && LiveInside(At(FRESH, EMPTY_FILE_RACE, 10), 2)
  {
    hide Run, NoCreateConflict, At;
    EmptyFileRuns();
  }

  const LEFT_BEHIND := State(Some(LockFile(9, true)), map[], {9})

  /** Processes 1 and 2 both find the holder 9 gone; 1 steals and moves in; then 2 unlinks
      the lock of 1 and moves in as well. */
  const DOUBLE_STEAL_RACE := [
    Start(1), Start(2), Collide(1), Collide(2), Read(1), Read(2), FindGone(1), FindGone(2),
    Steal(1), Create(1), Write(1),
    Steal(2), Create(2), Write(2)]

  const STALE := Some(LockFile(9, true))

  const DOUBLE_STEAL_STATES := [
    LEFT_BEHIND,
    State(STALE, map[1 := Trying], {9}),
    State(STALE, map[1 := Trying, 2 := Trying], {9}),
    State(STALE, map[1 := Colliding, 2 := Trying], {9}),
    State(STALE, map[1 := Colliding, 2 := Colliding], {9}),
    State(STALE, map[1 := Probed(Some(9)), 2 := Colliding], {9}),
    State(STALE, map[1 := Probed(Some(9)), 2 := Probed(Some(9))], {9}),
    State(STALE, map[1 := Stealing, 2 := Probed(Some(9))], {9}),
    State(STALE, map[1 := Stealing, 2 := Stealing], {9}),
    State(None, map[1 := Trying, 2 := Stealing], {9}),
    State(Some(LockFile(1, false)), map[1 := Created, 2 := Stealing], {9}),
    State(Some(LockFile(1, true)), map[1 := Inside, 2 := Stealing], {9}),
    State(None, map[1 := Inside, 2 := Trying], {9}),
    State(Some(LockFile(2, false)), map[1 := Inside, 2 := Created], {9}),
    State(Some(LockFile(2, true)), map[1 := Inside, 2 := Inside], {9})]

  lemma BothCollide(i: nat)
    requires i < 4
    ensures RaceStep(DOUBLE_STEAL_RACE, DOUBLE_STEAL_STATES, i, false)
  {
    if i == 0 {
    } else if i == 1 {
    } else if i == 2 {
    } else {
    }
  }

  lemma BothFindTheHolderGone(i: nat)
    requires 4 <= i < 8
    ensures RaceStep(DOUBLE_STEAL_RACE, DOUBLE_STEAL_STATES, i, false)
  {
    if i == 4 {
    } else if i == 5 {
    } else if i == 6 {
    } else {
    }
  }

  lemma BothMoveIn(i: nat)
    requires 8 <= i < 14
    ensures RaceStep(DOUBLE_STEAL_RACE, DOUBLE_STEAL_STATES, i, false)
  {
    if i == 8 {
    } else if i == 9 {
    } else if i == 10 {
    } else if i == 11 {
    } else if i == 12 {
    } else {
    }
  }

  lemma {:induction false} DoubleStealRuns()
    ensures Run(LEFT_BEHIND, DOUBLE_STEAL_RACE) && NoReadConflict(LEFT_BEHIND, DOUBLE_STEAL_RACE)
    ensures At(LEFT_BEHIND, DOUBLE_STEAL_RACE, 14) == State(Some(LockFile(2, true)), BOTH_INSIDE, {9})
  {
    forall i | 0 <= i < 14
      ensures RaceStep(DOUBLE_STEAL_RACE, DOUBLE_STEAL_STATES, i, false)
    {
      if i < 4 { BothCollide(i); } else if i < 8 { BothFindTheHolderGone(i); } else { BothMoveIn(i); }
    }
    RunOfStates(LEFT_BEHIND, DOUBLE_STEAL_RACE, DOUBLE_STEAL_STATES,
                State(Some(LockFile(2, true)), BOTH_INSIDE, {9}), false);
  }

  /** With only the first conflict avoided, two live processes can be inside. */
  lemma {:induction false} StealWindowBreaksExclusion()
    ensures Initial(LEFT_BEHIND)
    ensures Run(LEFT_BEHIND, DOUBLE_STEAL_RACE) && NoReadConflict(LEFT_BEHIND, DOUBLE_STEAL_RACE)
    ensures LiveInside(At(LEFT_BEHIND, DOUBLE_STEAL_RACE, 14), 1)
    ensures LiveInside(At(LEFT_BEHIND, DOUBLE_STEAL_RACE, 14), 2)
  {
    hide Run, NoReadConflict, At;
    DoubleStealRuns();
  }
}
