/** Crash detection by polling panes: a target that was seen running an agent and is later seen at
    a shell is crashed, until it is cleared or its window goes away. */
module StatusDetector {
  import opened Strings
  import opened Wrappers

  datatype Status = Ready | Idle | Crashed

  datatype AgentState = AgentState(hash: string, changedAt: int, status: Status, wasRunning: bool)

  datatype Window = Window(index: nat, name: string)
  datatype Session = Session(name: string, windows: seq<Window>)

  /** A window of a session, addressed as "session:index". */
  datatype Agent = Agent(target: string, name: string, session: string)

  /** What a poll finds in a pane: the kind of command it runs and the hash of its screen. */
  datatype Pane = Pane(isAgent: bool, isShell: bool, hash: string)

  function TargetOf(session: string, index: nat): string {
    session + ":" + Dec(index)
  }

  function WindowsOf(session: string, windows: seq<Window>): seq<Agent> {
    if windows == [] then []
    else
      var w := windows[|windows| - 1];
      WindowsOf(session, windows[..|windows| - 1]) + [Agent(TargetOf(session, w.index), w.name, session)]
  }

  function AgentsOf(sessions: seq<Session>): seq<Agent> {
    if sessions == [] then []
    else
      var s := sessions[|sessions| - 1];
      AgentsOf(sessions[..|sessions| - 1]) + WindowsOf(s.name, s.windows)
  }

  /** The targets of the windows of some sessions. */
  function Targets(agents: seq<Agent>): set<string> {
    set i | 0 <= i < |agents| :: agents[i].target
  }

  lemma {:induction false} WindowsAre(session: string, windows: seq<Window>)
    ensures |WindowsOf(session, windows)| == |windows|
    ensures forall j :: 0 <= j < |windows| ==>
              WindowsOf(session, windows)[j]
              == Agent(session + ":" + Dec(windows[j].index), windows[j].name, session)
  {
    hide Dec;
    if windows != [] { WindowsAre(session, windows[..|windows| - 1]); }
  }

  /** The windows of all sessions, one session after the other. */
  lemma {:induction false} AgentsAre(before: seq<Session>, s: Session, after: seq<Session>)
    ensures AgentsOf([]) == [] && AgentsOf([s]) == WindowsOf(s.name, s.windows)
    ensures AgentsOf(before + [s] + after) == AgentsOf(before) + WindowsOf(s.name, s.windows) + AgentsOf(after)
  {
    hide WindowsOf;
    var all := before + [s] + after;
    assert AgentsOf([s]) == AgentsOf([]) + WindowsOf(s.name, s.windows);
    if after == [] {
      assert all[..|all| - 1] == before;
    } else {
      assert all[..|all| - 1] == before + [s] + after[..|after| - 1];
      AgentsAre(before, s, after[..|after| - 1]);
    }
  }

  predicate IsWindow(sessions: seq<Session>, i: nat, j: nat, target: string)
    requires i < |sessions| && j < |sessions[i].windows|
  {
    target == sessions[i].name + ":" + Dec(sessions[i].windows[j].index)
  }

  /** A target is live exactly when it is "session:index" for a window of a session. */
  lemma {:induction false} TargetIsListed(sessions: seq<Session>, t: string)
    ensures t in Targets(AgentsOf(sessions)) <==>
            exists i, j :: 0 <= i < |sessions| && 0 <= j < |sessions[i].windows| && IsWindow(sessions, i, j, t)
  {
    hide Dec;
    if sessions != [] {
      var init, s := sessions[..|sessions| - 1], sessions[|sessions| - 1];
      TargetIsListed(init, t);
      WindowsAre(s.name, s.windows);
      TargetsOfBoth(AgentsOf(init), WindowsOf(s.name, s.windows));
      if t in Targets(WindowsOf(s.name, s.windows)) {
        var j :| 0 <= j < |s.windows| && WindowsOf(s.name, s.windows)[j].target == t;
        assert IsWindow(sessions, |init|, j, t);
      }
      if t in Targets(AgentsOf(init)) {
        var i, j :| 0 <= i < |init| && 0 <= j < |init[i].windows| && IsWindow(init, i, j, t);
        assert IsWindow(sessions, i, j, t);
      }
      if i, j :| 0 <= i < |sessions| && 0 <= j < |sessions[i].windows| && IsWindow(sessions, i, j, t) {
        if i < |init| {
          assert IsWindow(init, i, j, t);
        } else {
          assert WindowsOf(s.name, s.windows)[j].target == t;
        }
      }
    }
  }

  lemma TargetsOfBoth(a: seq<Agent>, b: seq<Agent>)
    ensures Targets(a + b) == Targets(a) + Targets(b)
  {
    assert forall i :: 0 <= i < |a| ==> (a + b)[i] == a[i];
    assert forall i :: 0 <= i < |b| ==> (a + b)[|a| + i] == b[i];
  }

  function OracleOf(name: string): string {
    if |name| >= 7 && name[|name| - 7..] == "-oracle" then name[..|name| - 7] else name
  }

  /** A window's oracle is its name without the suffix "-oracle", if it has that. */
  lemma OracleIs(name: string, oracle: string)
    ensures OracleOf(oracle + "-oracle") == oracle
    ensures OracleOf(name) == oracle <==>
            name == oracle + "-oracle" || (name == oracle && !EndsIn(name, "-oracle"))
  {
    var long := oracle + "-oracle";
    assert long[|long| - 7..] == "-oracle" && long[..|long| - 7] == oracle;
    if |name| >= 7 && name[|name| - 7..] == "-oracle" {
      assert name == name[..|name| - 7] + "-oracle";
    }
    if EndsIn(name, "-oracle") {
      var front :| name == front + "-oracle";
      assert name[|name| - 7..] == "-oracle";
    }
  }

  ghost predicate EndsIn(s: string, suffix: string) {
    exists front :: s == front + suffix
  }

  // ----- one poll

  type States = map<string, AgentState>

  function Get(st: States, target: string): Option<AgentState> {
    if target in st then Some(st[target]) else None
  }

  predicate WasRunning(prev: Option<AgentState>) {
    prev.Some? && prev.value.wasRunning
  }

  /** The state a target is left in by a poll. */
  function Observe(prev: Option<AgentState>, pane: Pane, now: int): AgentState {
    if pane.isAgent then
      AgentState(if prev.Some? then prev.value.hash else "",
                 if prev.Some? && prev.value.changedAt != 0 then prev.value.changedAt else now,
                 if prev.Some? then prev.value.status else Ready,
                 true)
    else
      AgentState(pane.hash,
                 if prev.None? || pane.hash != prev.value.hash then now else prev.value.changedAt,
                 if pane.isShell && WasRunning(prev) then Crashed else Idle,
                 WasRunning(prev))
  }

  /** What a poll leaves, case by case: a running agent keeps what was known and is latched, a screen
      that changed is dated, and a shell is a crash exactly after an agent. */
  lemma ObservedIs(pane: Pane, now: int, hash: string, at: int, status: Status, was: bool)
    ensures pane.isAgent ==> Observe(None, pane, now) == AgentState("", now, Ready, true)
    ensures pane.isAgent ==>
              Observe(Some(AgentState(hash, at, status, was)), pane, now)
              == AgentState(hash, if at == 0 then now else at, status, true)
    ensures !pane.isAgent ==> Observe(None, pane, now) == AgentState(pane.hash, now, Idle, false)
    ensures !pane.isAgent && pane.isShell ==>
              Observe(Some(AgentState(hash, at, status, true)), pane, now)
              == AgentState(pane.hash, if hash == pane.hash then at else now, Crashed, true)
    ensures !pane.isAgent && !(pane.isShell && was) ==>
              Observe(Some(AgentState(hash, at, status, was)), pane, now)
              == AgentState(pane.hash, if hash == pane.hash then at else now, Idle, was)
  {
  }

  /** The states after one detection: every live target observed, every other one dropped. */
  function Detected(st: States, sessions: seq<Session>, panes: string -> Pane, now: int): States {
    if sessions == [] then st
    else map t | t in Targets(AgentsOf(sessions)) :: Observe(Get(st, t), panes(t), now)
  }

  function Cleared(st: States, target: string): States {
    if target in st then st[target := st[target].(wasRunning := false, status := Idle)] else st
  }

  function Pruned(st: States, sessions: seq<Session>): States {
    map t | t in st && t in Targets(AgentsOf(sessions)) :: st[t]
  }

  // ----- runs

  datatype Event =
    | Detect(sessions: seq<Session>, panes: string -> Pane, now: int)
    | ClearCrashed(target: string)
    | Prune(live: seq<Session>)

  function Next(st: States, e: Event): States {
    match e
    case Detect(sessions, panes, now) => Detected(st, sessions, panes, now)
    case ClearCrashed(target) => Cleared(st, target)
    case Prune(live) => Pruned(st, live)
  }

  function Run(es: seq<Event>): States {
    if es == [] then map[] else Next(Run(es[..|es| - 1]), es[|es| - 1])
  }

  /** The event polls the target. */
  predicate Polls(e: Event, t: string) {
    e.Detect? && t in Targets(AgentsOf(e.sessions))
  }

  predicate SeesAgent(e: Event, t: string) {
    Polls(e, t) && e.panes(t).isAgent
  }

  predicate SeesShell(e: Event, t: string) {
    Polls(e, t) && !e.panes(t).isAgent && e.panes(t).isShell
  }

  predicate SeesOther(e: Event, t: string) {
    Polls(e, t) && !e.panes(t).isAgent && !e.panes(t).isShell
  }

  /** The event clears the target or drops it. */
  predicate Resets(e: Event, t: string) {
    match e
    case Detect(sessions, _, _) => sessions != [] && t !in Targets(AgentsOf(sessions))
    case ClearCrashed(target) => target == t
    case Prune(live) => t !in Targets(AgentsOf(live))
  }

  /** The target was seen running an agent, and was neither cleared nor dropped since. */
  predicate SeenRunning(es: seq<Event>, t: string) {
    exists i :: 0 <= i < |es| && SeesAgent(es[i], t) && forall j :: i < j < |es| ==> !Resets(es[j], t)
  }

  /** The `i`-th event sees a crash, and no later one ends it by a clear, a drop or another command. */
  predicate CrashSeenAt(es: seq<Event>, t: string, i: nat)
    requires i < |es|
  {
    && SeesShell(es[i], t) && SeenRunning(es[..i], t)
    && forall j :: i < j < |es| ==> !Resets(es[j], t) && !SeesOther(es[j], t)
  }

  /** The target was seen at a shell after it had been seen running, and since then it was neither
      cleared, nor dropped, nor seen running anything but an agent or a shell. */
  predicate SeenCrashed(es: seq<Event>, t: string) {
    exists i :: 0 <= i < |es| && CrashSeenAt(es, t, i)
  }

  predicate IsCrashed(st: States, t: string) {
    t in st && st[t].status == Crashed
  }

  lemma NextLatch(st: States, e: Event, t: string)
    ensures WasRunning(Get(Next(st, e), t)) <==> SeesAgent(e, t) || (WasRunning(Get(st, t)) && !Resets(e, t))
    ensures IsCrashed(Next(st, e), t) <==>
            || (SeesShell(e, t) && WasRunning(Get(st, t)))
            || (IsCrashed(st, t) && !Resets(e, t) && !SeesOther(e, t) && !SeesShell(e, t))
  {
    hide AgentsOf;
    if e.Detect? && e.sessions == [] {
      assert t !in Targets(AgentsOf([])) by { NoWindows(); }
    }
  }

  lemma NoWindows()
    ensures AgentsOf([]) == []
  {
  }

  lemma SeenRunningGrows(es: seq<Event>, t: string)
    requires es != []
    ensures SeenRunning(es, t) <==>
            SeesAgent(es[|es| - 1], t) || (SeenRunning(es[..|es| - 1], t) && !Resets(es[|es| - 1], t))
  {
    hide SeesAgent, Resets;
    var init, e := es[..|es| - 1], es[|es| - 1];
    assert forall i :: 0 <= i < |init| ==> init[i] == es[i];
    if SeenRunning(init, t) && !Resets(e, t) {
      var i :| 0 <= i < |init| && SeesAgent(init[i], t) && forall j :: i < j < |init| ==> !Resets(init[j], t);
      assert SeesAgent(es[i], t) && forall j :: i < j < |es| ==> !Resets(es[j], t);
    }
    if SeenRunning(es, t) && !SeesAgent(e, t) {
      var i :| 0 <= i < |es| && SeesAgent(es[i], t) && forall j :: i < j < |es| ==> !Resets(es[j], t);
      assert SeesAgent(init[i], t);
    }
  }

  /** Over every run: the latch is set exactly when the target was seen running since its last
      clear or drop. */
  lemma {:induction false} LatchIsHistory(es: seq<Event>, t: string)
    ensures WasRunning(Get(Run(es), t)) <==> SeenRunning(es, t)
  {
    hide Next, SeesAgent, Resets;
    if es != [] {
      LatchIsHistory(es[..|es| - 1], t);
      NextLatch(Run(es[..|es| - 1]), es[|es| - 1], t);
      SeenRunningGrows(es, t);
    }
  }

  lemma CrashSeenAtGrows(es: seq<Event>, t: string, i: nat)
    requires i < |es|
    ensures var init, e := es[..|es| - 1], es[|es| - 1];
            CrashSeenAt(es, t, i) <==>
            if i == |init| then SeesShell(e, t) && SeenRunning(init, t)
            else CrashSeenAt(init, t, i) && !Resets(e, t) && !SeesOther(e, t)
  {
    hide SeesShell, SeesOther, Resets, SeenRunning;
    var init := es[..|es| - 1];
    if i < |init| {
      assert init[i] == es[i] && init[..i] == es[..i];
      assert forall j :: i < j < |init| ==> init[j] == es[j];
    }
  }

  lemma SeenCrashedGrows(es: seq<Event>, t: string)
    requires es != []
    ensures var init, e := es[..|es| - 1], es[|es| - 1];
            SeenCrashed(es, t) <==>
            || (SeesShell(e, t) && SeenRunning(init, t))
            || (SeenCrashed(init, t) && !Resets(e, t) && !SeesOther(e, t))
  {
    hide SeesShell, SeesOther, Resets, SeenRunning, CrashSeenAt;
    var init := es[..|es| - 1];
    CrashSeenAtGrows(es, t, |init|);
    if SeenCrashed(init, t) {
      var i :| 0 <= i < |init| && CrashSeenAt(init, t, i);
      CrashSeenAtGrows(es, t, i);
    }
    if SeenCrashed(es, t) {
      var i :| 0 <= i < |es| && CrashSeenAt(es, t, i);
      CrashSeenAtGrows(es, t, i);
    }
  }

  /** A target whose crash was seen had been running since its last clear or drop, and still counts
      as having been running. */
  lemma {:induction false} CrashedWasRunning(es: seq<Event>, t: string)
    requires SeenCrashed(es, t)
    ensures SeenRunning(es, t)
  {
    hide SeesShell, SeesOther, Resets, SeesAgent;
    var init, e := es[..|es| - 1], es[|es| - 1];
    SeenRunningGrows(es, t);
    SeenCrashedGrows(es, t);
    if SeenCrashed(init, t) && !Resets(e, t) && !SeesOther(e, t) {
      CrashedWasRunning(init, t);
    } else {
      assert !Resets(e, t) by { ShellIsNoReset(e, t); }
    }
  }

  lemma ShellIsNoReset(e: Event, t: string)
    requires SeesShell(e, t)
    ensures !Resets(e, t)
  {
  }

  /** Over every run: a target is crashed exactly when it was seen at a shell after having been
      seen running, with nothing since that would end the crash. An agent that comes back does
      not end it. */
  lemma {:induction false} CrashedIsHistory(es: seq<Event>, t: string)
    ensures IsCrashed(Run(es), t) <==> SeenCrashed(es, t)
  {
    hide Next, SeesAgent, SeesShell, SeesOther, Resets;
    if es != [] {
      var init, e := es[..|es| - 1], es[|es| - 1];
      CrashedIsHistory(init, t);
      LatchIsHistory(init, t);
      NextLatch(Run(init), e, t);
      SeenCrashedGrows(es, t);
      if SeenCrashed(init, t) { CrashedWasRunning(init, t); }
    }
  }

  /** A target that is crashed was seen running by an earlier poll, and neither cleared nor dropped
      since; and one seen at a shell after that is crashed at once. */
  lemma CrashNeedsARunningAgent(es: seq<Event>, e: Event, t: string)
    ensures IsCrashed(Run(es), t) ==> SeenRunning(es, t)
    ensures SeenRunning(es, t) && SeesShell(e, t) ==> IsCrashed(Run(es + [e]), t)
  {
    CrashedIsHistory(es, t);
    if SeenCrashed(es, t) { CrashedWasRunning(es, t); }
    LatchIsHistory(es, t);
    assert (es + [e])[..|es|] == es;
    NextLatch(Run(es), e, t);
  }

  /** The agent comes back, and the target is still reported as crashed: only a clear, a drop or
      another command ends a crash. */
  lemma ReturningAgentStaysCrashed(es: seq<Event>, e: Event, t: string)
    requires IsCrashed(Run(es), t) && SeesAgent(e, t)
    ensures IsCrashed(Run(es + [e]), t)
  {
    assert (es + [e])[..|es|] == es;
    NextLatch(Run(es), e, t);
  }

  // ----- the detector

  const REAL_FEED_TTL := 60_000
  const REAL_FEED_MAX_AGE := 3_600_000

  /** A recent event of the oracle's own hooks suppresses the detector's. */
  predicate HasRealFeed(seen: map<string, int>, oracle: string, now: int) {
    now - (if oracle in seen then seen[oracle] else 0) < REAL_FEED_TTL
  }

  function Oracles(agents: seq<Agent>): set<string> {
    set i | 0 <= i < |agents| :: OracleOf(agents[i].name)
  }

  function PrunedFeed(seen: map<string, int>, agents: seq<Agent>, now: int): map<string, int> {
    map o | o in seen && o in Oracles(agents) && now - seen[o] <= REAL_FEED_MAX_AGE :: seen[o]
  }

  /** Pruning forgets nothing that still counts: a live oracle's events are suppressed or not as
      before, at any later time, unless the clock is within a minute of its epoch. */
  lemma PruningKeepsSuppression(seen: map<string, int>, agents: seq<Agent>, now: int, oracle: string, later: int)
    requires oracle in Oracles(agents) && 60_000 <= now <= later
    ensures HasRealFeed(PrunedFeed(seen, agents, now), oracle, later) <==> HasRealFeed(seen, oracle, later)
  {
  }

  /** What happens to the hook events over time: one arrives, or the windows are pruned. */
  datatype FeedStep = Mark(oracle: string, now: int) | PruneFeed(agents: seq<Agent>, now: int)

  function FeedNext(seen: map<string, int>, step: FeedStep): map<string, int> {
    match step
    case Mark(oracle, now) => seen[oracle := now]
    case PruneFeed(agents, now) => PrunedFeed(seen, agents, now)
  }

  function FeedAfter(steps: seq<FeedStep>): map<string, int> {
    if steps == [] then map[] else FeedNext(FeedAfter(steps[..|steps| - 1]), steps[|steps| - 1])
  }

  /** The step forgets the oracle because no window of it is left. */
  predicate Forgets(step: FeedStep, oracle: string) {
    step.PruneFeed? && oracle !in Oracles(step.agents)
  }

  /** The step replaces the oracle's event of time `at`, or forgets it: no window of the oracle is
      left, or the event is more than an hour old. */
  ghost predicate Drops(step: FeedStep, oracle: string, at: int) {
    match step
    case Mark(o, _) => o == oracle
    case PruneFeed(agents, now) =>
      || now - at > 3_600_000
      || forall i :: 0 <= i < |agents| ==>
           agents[i].name != oracle + "-oracle" && (agents[i].name != oracle || EndsIn(oracle, "-oracle"))
  }

  ghost predicate KeptMark(steps: seq<FeedStep>, i: nat, oracle: string, at: int)
    requires i < |steps|
  {
    steps[i] == Mark(oracle, at) && forall j :: i < j < |steps| ==> !Drops(steps[j], oracle, at)
  }

  lemma OneFeedStep(seen: map<string, int>, step: FeedStep, oracle: string, at: int)
    ensures var then' := FeedNext(seen, step);
            (oracle in then' && then'[oracle] == at)
            <==> step == Mark(oracle, at) || (oracle in seen && seen[oracle] == at && !Drops(step, oracle, at))
  {
    hide OracleOf, EndsIn;
    if step.PruneFeed? {
      forall i | 0 <= i < |step.agents|
        ensures OracleOf(step.agents[i].name) == oracle <==>
                || step.agents[i].name == oracle + "-oracle"
                || (step.agents[i].name == oracle && !EndsIn(oracle, "-oracle"))
      {
        OracleIs(step.agents[i].name, oracle);
      }
    }
  }

  /** Over every run, by any clock: the event recorded for an oracle is its last one, unless a pruning
      since found no window of the oracle or the event more than an hour old. */
  lemma {:induction false} FeedIsHistory(steps: seq<FeedStep>, oracle: string, at: int)
    ensures (oracle in FeedAfter(steps) && FeedAfter(steps)[oracle] == at)
            <==> exists i :: 0 <= i < |steps| && KeptMark(steps, i, oracle, at)
  {
    hide Drops, FeedNext;
    if steps != [] {
      var init, last := steps[..|steps| - 1], steps[|steps| - 1];
      FeedIsHistory(init, oracle, at);
      OneFeedStep(FeedAfter(init), last, oracle, at);
      assert forall i :: 0 <= i < |init| ==> init[i] == steps[i];
      forall i | 0 <= i < |init|
        ensures KeptMark(steps, i, oracle, at) <==> KeptMark(init, i, oracle, at) && !Drops(last, oracle, at)
      {
      }
      assert KeptMark(steps, |init|, oracle, at) <==> last == Mark(oracle, at);
    }
  }

  /** The `i`-th step is an event of the oracle in the last minute, and no later step forgot it. */
  predicate FreshMark(steps: seq<FeedStep>, i: nat, oracle: string, later: int)
    requires i < |steps|
  {
    && steps[i].Mark? && steps[i].oracle == oracle && later - steps[i].now < 60_000
    && forall j :: i < j < |steps| ==> !Forgets(steps[j], oracle)
  }

  lemma FreshMarkBefore(steps: seq<FeedStep>, i: nat, oracle: string, later: int)
    requires i < |steps| - 1
    ensures FreshMark(steps, i, oracle, later)
            <==> FreshMark(steps[..|steps| - 1], i, oracle, later) && !Forgets(steps[|steps| - 1], oracle)
  {
    var init := steps[..|steps| - 1];
    assert forall j :: 0 <= j < |init| ==> init[j] == steps[j];
  }

  /** Over every run, the detector's events for an oracle are suppressed exactly within a minute of an
      event of its own hooks that was not forgotten since. The clock does not run backwards and is past
      the first minute of its epoch. */
  lemma {:induction false} SuppressedExactly(steps: seq<FeedStep>, oracle: string, later: int)
    requires 60_000 <= later && forall i :: 0 <= i < |steps| ==> 60_000 <= steps[i].now <= later
    requires forall i, j :: 0 <= i < j < |steps| ==> steps[i].now <= steps[j].now
    ensures HasRealFeed(FeedAfter(steps), oracle, later)
            <==> exists i :: 0 <= i < |steps| && FreshMark(steps, i, oracle, later)
  {
    if steps != [] {
      var init, last := steps[..|steps| - 1], steps[|steps| - 1];
      SuppressedExactly(init, oracle, later);
      forall i | 0 <= i < |init|
        ensures FreshMark(steps, i, oracle, later) <==> FreshMark(init, i, oracle, later) && !Forgets(last, oracle)
      {
        FreshMarkBefore(steps, i, oracle, later);
      }
      if last.PruneFeed? && !Forgets(last, oracle) {
        PruningKeepsSuppression(FeedAfter(init), last.agents, last.now, oracle, later);
      }
      assert FreshMark(steps, |init|, oracle, later) <==>
             last.Mark? && last.oracle == oracle && later - last.now < 60_000;
      assert (exists i :: 0 <= i < |init| && FreshMark(init, i, oracle, later)) && !Forgets(last, oracle) ==>
          exists i :: 0 <= i < |steps| && FreshMark(steps, i, oracle, later) by {
        if i :| 0 <= i < |init| && FreshMark(init, i, oracle, later) { FreshMarkBefore(steps, i, oracle, later); }
      }
    }
  }

  /** A status change that is reported to listeners. */
  datatype Change = Change(target: string, status: Status)

  /** The change reported for a polled window, if any: its status is another one than before, it
      does not run an agent, and its oracle's own hooks are silent. */
  function Reported(st: States, a: Agent, pane: Pane, now: int, seen: map<string, int>): Option<Change> {
    var prev := Get(st, a.target);
    var status := Observe(prev, pane, now).status;
    if !pane.isAgent && prev.Some? && status != prev.value.status && !HasRealFeed(seen, OracleOf(a.name), now)
    then Some(Change(a.target, status)) else None
  }

  /** The changes one detection reports: per target at most one, at its first window. */
  function ChangesOf(st: States, agents: seq<Agent>, panes: string -> Pane, now: int,
                     seen: map<string, int>): seq<Change> {
    if agents == [] then []
    else
      var init, a := agents[..|agents| - 1], agents[|agents| - 1];
      var change := if a.target in Targets(init) then None else Reported(st, a, panes(a.target), now, seen);
      ChangesOf(st, init, panes, now, seen) + if change.Some? then [change.value] else []
  }

  /** The change is due at the `i`-th window, the first of its target: the target is known and does not
      run an agent, the status is another one than before, crashed exactly at a shell after an agent,
      and the oracle's own hooks were silent for a minute. */
  predicate IsDue(st: States, agents: seq<Agent>, panes: string -> Pane, now: int, seen: map<string, int>,
                  i: nat, c: Change)
    requires i < |agents|
  {
    var a := agents[i];
    && c.target == a.target && a.target in st && !panes(a.target).isAgent
    && (forall k :: 0 <= k < i ==> agents[k].target != a.target)
    && c.status == (if panes(a.target).isShell && st[a.target].wasRunning then Crashed else Idle)
    && c.status != st[a.target].status
    && var oracle := OracleOf(a.name); now - (if oracle in seen then seen[oracle] else 0) >= 60_000
  }

  lemma DueIsReported(st: States, agents: seq<Agent>, panes: string -> Pane, now: int, seen: map<string, int>,
                      i: nat, c: Change)
    requires i < |agents|
    ensures IsDue(st, agents, panes, now, seen, i, c) <==>
            && agents[i].target !in Targets(agents[..i])
            && Reported(st, agents[i], panes(agents[i].target), now, seen) == Some(c)
  {
    hide OracleOf;
    assert forall k :: 0 <= k < i ==> agents[..i][k] == agents[k];
  }

  lemma DueEarlier(st: States, agents: seq<Agent>, panes: string -> Pane, now: int, seen: map<string, int>,
                   i: nat, c: Change)
    requires i < |agents| - 1
    ensures IsDue(st, agents, panes, now, seen, i, c)
            <==> IsDue(st, agents[..|agents| - 1], panes, now, seen, i, c)
  {
    hide OracleOf;
    assert forall k :: 0 <= k <= i ==> agents[..|agents| - 1][k] == agents[k];
  }

  predicate DueSomewhere(st: States, agents: seq<Agent>, panes: string -> Pane, now: int, seen: map<string, int>,
                         c: Change) {
    exists i :: 0 <= i < |agents| && IsDue(st, agents, panes, now, seen, i, c)
  }

  /** The two changes are due at windows in this order. */
  predicate DueBefore(st: States, agents: seq<Agent>, panes: string -> Pane, now: int, seen: map<string, int>,
                      c: Change, d: Change) {
    exists i, j :: 0 <= i < j < |agents| && IsDue(st, agents, panes, now, seen, i, c)
                   && IsDue(st, agents, panes, now, seen, j, d)
  }

  lemma DueGrows(st: States, agents: seq<Agent>, panes: string -> Pane, now: int, seen: map<string, int>,
                 c: Change, d: Change)
    requires agents != []
    ensures var n := |agents| - 1;
            && (DueSomewhere(st, agents, panes, now, seen, c) <==>
                DueSomewhere(st, agents[..n], panes, now, seen, c) || IsDue(st, agents, panes, now, seen, n, c))
            && (DueBefore(st, agents[..n], panes, now, seen, c, d) ==> DueBefore(st, agents, panes, now, seen, c, d))
            && (DueSomewhere(st, agents[..n], panes, now, seen, c) && IsDue(st, agents, panes, now, seen, n, d) ==>
                  DueBefore(st, agents, panes, now, seen, c, d))
  {
    hide IsDue;
    var init := agents[..|agents| - 1];
    forall i, x | 0 <= i < |init|
      ensures IsDue(st, agents, panes, now, seen, i, x) <==> IsDue(st, init, panes, now, seen, i, x)
    {
      DueEarlier(st, agents, panes, now, seen, i, x);
    }
  }

  lemma {:induction false} ChangesAreDueInOrder(st: States, agents: seq<Agent>, panes: string -> Pane, now: int,
                                                seen: map<string, int>)
    ensures var changes := ChangesOf(st, agents, panes, now, seen);
            && (forall c :: c in changes <==> DueSomewhere(st, agents, panes, now, seen, c))
            && (forall p, q :: 0 <= p < q < |changes| ==>
                  DueBefore(st, agents, panes, now, seen, changes[p], changes[q]))
  {
    var changes := ChangesOf(st, agents, panes, now, seen);
    if agents != [] {
      var n := |agents| - 1;
      var init := agents[..n];
      var earlier := ChangesOf(st, init, panes, now, seen);
      var change := if agents[n].target in Targets(init) then None
                    else Reported(st, agents[n], panes(agents[n].target), now, seen);
      assert changes == earlier + if change.Some? then [change.value] else [];
      ChangesAreDueInOrder(st, init, panes, now, seen);
      hide IsDue, DueSomewhere, DueBefore, Reported, Targets, ChangesOf;
      forall c ensures c in changes <==> DueSomewhere(st, agents, panes, now, seen, c) {
        DueIsReported(st, agents, panes, now, seen, n, c);
        DueGrows(st, agents, panes, now, seen, c, c);
      }
      forall p, q | 0 <= p < q < |changes|
        ensures DueBefore(st, agents, panes, now, seen, changes[p], changes[q])
      {
        assert changes[p] == earlier[p];
        DueIsReported(st, agents, panes, now, seen, n, changes[q]);
        DueGrows(st, agents, panes, now, seen, changes[p], changes[q]);
      }
    }
  }

  /** Exactly the changes that are due are reported, one per target and in window order. */
  lemma {:induction false} ChangesAreDue(st: States, agents: seq<Agent>, panes: string -> Pane, now: int,
                                         seen: map<string, int>, p: nat, q: nat)
    ensures var changes := ChangesOf(st, agents, panes, now, seen);
            && (forall c :: c in changes <==>
                  exists i :: 0 <= i < |agents| && IsDue(st, agents, panes, now, seen, i, c))
            && (p < q < |changes| ==>
                  exists i, j :: 0 <= i < j < |agents| && IsDue(st, agents, panes, now, seen, i, changes[p])
                                 && IsDue(st, agents, panes, now, seen, j, changes[q]))
  {
    hide IsDue, ChangesOf;
    var changes := ChangesOf(st, agents, panes, now, seen);
    ChangesAreDueInOrder(st, agents, panes, now, seen);
    if p < q < |changes| {
      assert DueBefore(st, agents, panes, now, seen, changes[p], changes[q]);
    }
  }

  /** The states after a loop over some windows. */
  function AfterPolls(st: States, agents: seq<Agent>, panes: string -> Pane, now: int): States {
    map t | t in st.Keys + Targets(agents) ::
      if t in Targets(agents) then Observe(Get(st, t), panes(t), now) else st[t]
  }

  lemma NothingPolled(st: States, panes: string -> Pane, now: int, seen: map<string, int>)
    ensures AfterPolls(st, [], panes, now) == st && ChangesOf(st, [], panes, now, seen) == []
  {
  }

  /** Polling the windows and dropping the others is one detection. */
  lemma PolledAndPruned(st: States, sessions: seq<Session>, panes: string -> Pane, now: int)
    requires sessions != []
    ensures Pruned(AfterPolls(st, AgentsOf(sessions), panes, now), sessions) == Detected(st, sessions, panes, now)
    ensures Detected(st, sessions, panes, now).Keys == Targets(AgentsOf(sessions))
  {
    hide AgentsOf, Targets, Observe;
  }

  lemma ObservedTwice(prev: Option<AgentState>, pane: Pane, now: int)
    ensures Observe(Some(Observe(prev, pane, now)), pane, now) == Observe(prev, pane, now)
  {
  }

  lemma TargetsGrow(agents: seq<Agent>, a: Agent)
    ensures Targets(agents + [a]) == Targets(agents) + {a.target}
  {
    var more := agents + [a];
    assert forall i :: 0 <= i < |agents| ==> more[i] == agents[i];
    assert more[|agents|] == a;
  }

  /** One more window: a target that came up before is observed again to no effect. */
  lemma OneMorePoll(st: States, agents: seq<Agent>, a: Agent, panes: string -> Pane, now: int, seen: map<string, int>)
    ensures var v, pane := AfterPolls(st, agents, panes, now), panes(a.target);
            && AfterPolls(st, agents + [a], panes, now) == v[a.target := Observe(Get(v, a.target), pane, now)]
            && ChangesOf(st, agents + [a], panes, now, seen)
               == ChangesOf(st, agents, panes, now, seen)
                  + if Reported(v, a, pane, now, seen).Some? then [Reported(v, a, pane, now, seen).value] else []
  {
    hide Targets, Observe;
    OneMoreState(st, agents, a, panes, now);
    OneMoreChange(st, agents, a, panes, now, seen);
  }

  lemma OneMoreState(st: States, agents: seq<Agent>, a: Agent, panes: string -> Pane, now: int)
    ensures var v, pane := AfterPolls(st, agents, panes, now), panes(a.target);
            AfterPolls(st, agents + [a], panes, now) == v[a.target := Observe(Get(v, a.target), pane, now)]
  {
    hide Targets, Observe;
    TargetsGrow(agents, a);
    ObservedTwice(Get(st, a.target), panes(a.target), now);
  }

  lemma OneMoreChange(st: States, agents: seq<Agent>, a: Agent, panes: string -> Pane, now: int, seen: map<string, int>)
    ensures var r := Reported(AfterPolls(st, agents, panes, now), a, panes(a.target), now, seen);
            ChangesOf(st, agents + [a], panes, now, seen)
            == ChangesOf(st, agents, panes, now, seen) + if r.Some? then [r.value] else []
  {
    hide Targets, Observe;
    assert (agents + [a])[..|agents|] == agents;
    ObservedTwice(Get(st, a.target), panes(a.target), now);
  }

  class Detector {
    var state: States
    var realFeedLastSeen: map<string, int>

    constructor ()
      ensures state == map[] && realFeedLastSeen == map[]
    {
      state, realFeedLastSeen := map[], map[];
    }

    method MarkRealFeedEvent(oracle: string, now: int)
      modifies this`realFeedLastSeen
      ensures realFeedLastSeen == old(realFeedLastSeen)[oracle := now]
    {
      realFeedLastSeen := realFeedLastSeen[oracle := now];
    }

    /** Updates the state of one polled window. */
    method Poll(a: Agent, pane: Pane, now: int) returns (change: Option<Change>)
      modifies this`state
      ensures state == old(state)[a.target := Observe(Get(old(state), a.target), pane, now)]
      ensures change == Reported(old(state), a, pane, now, realFeedLastSeen)
    {
      var prev := Get(state, a.target);
      if pane.isAgent {
        var hash := if prev.Some? then prev.value.hash else "";
        var changedAt := if prev.Some? && prev.value.changedAt != 0 then prev.value.changedAt else now;
        var kept := if prev.Some? then prev.value.status else Ready;
        state := state[a.target := AgentState(hash, changedAt, kept, true)];
        return None;
      }
      var status := if pane.isShell && WasRunning(prev) then Crashed else Idle;
      var changedAt := if prev.None? || pane.hash != prev.value.hash then now else prev.value.changedAt;
      state := state[a.target := AgentState(pane.hash, changedAt, status, WasRunning(prev))];
      change := None;
      if prev.Some? && status != prev.value.status {
        if !HasRealFeed(realFeedLastSeen, OracleOf(a.name), now) {
          change := Some(Change(a.target, status));
        }
      }
    }

    /** Polls the windows in order and collects the changes to report. */
    method PollAll(agents: seq<Agent>, panes: string -> Pane, now: int) returns (changes: seq<Change>)
      modifies this`state
      ensures state == AfterPolls(old(state), agents, panes, now)
      ensures changes == ChangesOf(old(state), agents, panes, now, realFeedLastSeen)
    {
      changes := [];
      NothingPolled(state, panes, now, realFeedLastSeen);
      assert agents[..0] == [];
      hide AfterPolls, ChangesOf, Observe, Reported;
      for i := 0 to |agents|
        invariant state == AfterPolls(old(state), agents[..i], panes, now)
        invariant changes == ChangesOf(old(state), agents[..i], panes, now, realFeedLastSeen)
      {
        assert agents[..i + 1] == agents[..i] + [agents[i]];
        OneMorePoll(old(state), agents[..i], agents[i], panes, now, realFeedLastSeen);
        var change := Poll(agents[i], panes(agents[i].target), now);
        if change.Some? { changes := changes + [change.value]; }
      }
      assert agents[..|agents|] == agents;
    }

    /** Polls every window once, then forgets the windows that are gone. */
    method Detect(sessions: seq<Session>, panes: string -> Pane, now: int, pruneTime: int)
      returns (changes: seq<Change>)
      modifies this
      ensures state == Detected(old(state), sessions, panes, now)
      ensures sessions != [] ==> state.Keys == Targets(AgentsOf(sessions))
      ensures changes == if sessions == [] then []
                         else ChangesOf(old(state), AgentsOf(sessions), panes, now, old(realFeedLastSeen))
      ensures realFeedLastSeen == if sessions == [] then old(realFeedLastSeen)
                                  else PrunedFeed(old(realFeedLastSeen), AgentsOf(sessions), pruneTime)
    {
      hide AgentsOf, Targets, Observe, ChangesOf, AfterPolls, Pruned, PrunedFeed;
      if sessions == [] { return []; }
      changes := PollAll(AgentsOf(sessions), panes, now);
      PolledAndPruned(old(state), sessions, panes, now);
      PruneState(sessions, pruneTime);
    }

    /** Forgets the targets that are not among the sessions, and the hook events of oracles that
        are gone or have been silent for an hour. */
    method PruneState(sessions: seq<Session>, now: int)
      modifies this
      ensures state == Pruned(old(state), sessions)
      ensures realFeedLastSeen == PrunedFeed(old(realFeedLastSeen), AgentsOf(sessions), now)
    {
      hide AgentsOf;
      var agents := AgentsOf(sessions);
      var keys := state.Keys;
      while keys != {}
        invariant keys <= state.Keys
        invariant forall t :: t in state <==> t in old(state) && (t in keys || t in Targets(agents))
        invariant forall t :: t in state ==> state[t] == old(state)[t]
        invariant realFeedLastSeen == old(realFeedLastSeen)
        decreases keys
      {
        var t :| t in keys;
        keys := keys - {t};
        if t !in Targets(agents) { state := state - {t}; }
      }
      var oracles := realFeedLastSeen.Keys;
      while oracles != {}
        invariant state == Pruned(old(state), sessions)
        invariant oracles <= realFeedLastSeen.Keys
        invariant forall o :: o in realFeedLastSeen <==>
                    o in old(realFeedLastSeen) &&
                    (o in oracles || (o in Oracles(agents) && now - old(realFeedLastSeen)[o] <= REAL_FEED_MAX_AGE))
        invariant forall o :: o in realFeedLastSeen ==> realFeedLastSeen[o] == old(realFeedLastSeen)[o]
        decreases oracles
      {
        var o :| o in oracles;
        oracles := oracles - {o};
        if o !in Oracles(agents) || now - realFeedLastSeen[o] > REAL_FEED_MAX_AGE {
          realFeedLastSeen := realFeedLastSeen - {o};
        }
      }
    }

    /** Clears a crash after a restart. */
    method ClearCrashed(target: string)
      modifies this`state
      ensures state == Cleared(old(state), target)
      ensures target !in old(state) ==> state == old(state)
      ensures forall hash, at, status, was ::
                target in old(state) && old(state)[target] == AgentState(hash, at, status, was) ==>
                  state == old(state)[target := AgentState(hash, at, Idle, false)]
    {
      if target in state {
        state := state[target := state[target].(wasRunning := false, status := Idle)];
      }
    }

    /** Appends the crashed windows of one session. */
    method CrashedOf(s: Session, before: seq<Agent>, found: seq<Agent>) returns (result: seq<Agent>)
      requires found == CrashedAmong(state, before)
      ensures result == CrashedAmong(state, before + WindowsOf(s.name, s.windows))
    {
      hide IsCrashed, WindowsOf, CrashedAmong, TargetOf;
      result := found;
      NoWindow(s.name, s.windows);
      assert before + [] == before;
      for j := 0 to |s.windows|
        invariant result == CrashedAmong(state, before + WindowsOf(s.name, s.windows[..j]))
      {
        var a := Agent(TargetOf(s.name, s.windows[j].index), s.windows[j].name, s.name);
        ghost var polled := before + WindowsOf(s.name, s.windows[..j]);
        WindowsGrow(s.name, s.windows, j);
        assert before + WindowsOf(s.name, s.windows[..j + 1]) == polled + [a];
        CrashedGrow(state, polled, a);
        if IsCrashed(state, a.target) {
          result := result + [a];
        }
      }
      assert s.windows[..|s.windows|] == s.windows;
    }

    /** Lists the windows whose target is crashed, in session and window order. */
    method GetCrashedAgents(sessions: seq<Session>) returns (result: seq<Agent>)
      ensures result == CrashedAmong(state, AgentsOf(sessions))
    {
      result := [];
      for i := 0 to |sessions|
        invariant result == CrashedAmong(state, AgentsOf(sessions[..i]))
      {
        assert sessions[..i + 1][..i] == sessions[..i];
        result := CrashedOf(sessions[i], AgentsOf(sessions[..i]), result);
      }
      assert sessions[..|sessions|] == sessions;
    }
  }

  /** The agents whose target is crashed, in order. */
  function CrashedAmong(st: States, agents: seq<Agent>): seq<Agent> {
    if agents == [] then []
    else
      var a := agents[|agents| - 1];
      CrashedAmong(st, agents[..|agents| - 1]) + if IsCrashed(st, a.target) then [a] else []
  }

  lemma CrashedGrow(st: States, agents: seq<Agent>, a: Agent)
    ensures CrashedAmong(st, agents + [a]) == CrashedAmong(st, agents) + if IsCrashed(st, a.target) then [a] else []
  {
    assert (agents + [a])[..|agents|] == agents;
  }

  lemma NoWindow(session: string, windows: seq<Window>)
    ensures WindowsOf(session, windows[..0]) == []
  {
  }

  lemma WindowsGrow(session: string, windows: seq<Window>, j: nat)
    requires j < |windows|
    ensures WindowsOf(session, windows[..j + 1])
            == WindowsOf(session, windows[..j]) + [Agent(TargetOf(session, windows[j].index), windows[j].name, session)]
  {
    assert windows[..j + 1][..j] == windows[..j];
  }
}
