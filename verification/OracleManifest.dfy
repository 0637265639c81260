/** The oracle manifest: several passes over independent registries fill one entry per oracle.
    Each pass is proved equal to a declarative, per-field precedence over the registries. */
module OracleManifest {
  import opened Strings
  import opened Wrappers

  datatype Source = Fleet | SessionMap | Agent | OraclesJson | Worktree

  datatype Window = Window(name: Option<string>, repo: Option<string>)

  datatype FleetSession = FleetSession(name: Option<string>, windows: seq<Window>)

  /** A fleet window together with the name of its session. */
  datatype FleetWindow = FleetWindow(session: Option<string>, name: Option<string>, repo: Option<string>)

  /** A key of a configuration map; the value is absent when it is not a string. */
  datatype Setting = Setting(key: string, value: Option<string>)

  /** One cached oracle. Lineage fields can be absent, null or a string. */
  datatype Oracle = Oracle(name: string, org: Option<string>, repo: Option<string>, localPath: Option<string>,
                           buddedFrom: Option<Option<string>>, buddedAt: Option<Option<string>>,
                           hasPsi: Option<bool>, hasFleetConfig: Option<bool>, federationNode: Option<string>)

  datatype Birth = Birth(iso: string, source: string, cachedAt: string)

  datatype WorktreeInfo = WorktreeInfo(path: Option<string>, tmuxWindow: Option<string>, mainRepo: Option<string>)

  datatype Entry = Entry(name: string, sources: seq<Source>, node: Option<string>,
                         session: Option<string>, window: Option<string>, repo: Option<string>,
                         localPath: Option<string>, sessionId: Option<string>,
                         buddedFrom: Option<Option<string>>, buddedAt: Option<Option<string>>,
                         born: Option<Birth>, hasPsi: Option<bool>, hasFleetConfig: Option<bool>)

  // ----- names

  const SUFFIX := "-oracle"

  predicate EndsWith(s: string, suffix: string) {
    |suffix| <= |s| && s[|s| - |suffix|..] == suffix
  }

  predicate IsText(s: Option<string>) {
    s.Some? && s.value != ""
  }

  /** The text, if there is any. */
  function Text(s: Option<string>): Option<string> {
    if IsText(s) then s else None
  }

  /** Absent and empty texts are none. */
  lemma TextIs(t: string)
    ensures Text(None) == None && Text(Some("")) == None && (t != "" ==> Text(Some(t)) == Some(t))
    ensures IsText(Some(t)) <==> Text(Some(t)) == Some(t)
  {
  }

  function Stripped(s: string): string
    requires EndsWith(s, SUFFIX)
  {
    s[..|s| - |SUFFIX|]
  }

  /** The oracle a window belongs to. */
  function NameFromWindow(window: Option<string>): Option<string> {
    if IsText(window) && EndsWith(window.value, SUFFIX) then Some(Stripped(window.value)) else None
  }

  /** The oracle a worktree belongs to: by its tmux window, else by its repository's name. */
  function OracleNameFromWorktree(wt: WorktreeInfo): Option<string> {
    if IsText(NameFromWindow(wt.tmuxWindow)) then NameFromWindow(wt.tmuxWindow)
    else if IsText(wt.mainRepo) then
      var parts := Split(wt.mainRepo.value, '/');
      var basename := parts[|parts| - 1];
      if EndsWith(basename, SUFFIX) then Some(Stripped(basename)) else None
    else None
  }

  lemma StrippedIs(n: string)
    ensures EndsWith(n + "-oracle", SUFFIX) && Stripped(n + "-oracle") == n
  {
  }

  /** A window "n-oracle" belongs to the oracle n, and any other window to none. */
  lemma WindowNames(n: string, window: string)
    ensures NameFromWindow(Some(n + "-oracle")) == Some(n) && NameFromWindow(None) == None
    ensures NameFromWindow(Some(window)).Some? ==> window == NameFromWindow(Some(window)).value + "-oracle"
  {
    StrippedIs(n);
  }

  /** A worktree belongs to the oracle of its window "n-oracle". */
  lemma WorktreeOfWindow(wt: WorktreeInfo, n: string)
    requires n != "" && wt.tmuxWindow == Some(n + "-oracle")
    ensures OracleNameFromWorktree(wt) == Some(n)
  {
    WindowNames(n, n + "-oracle");
  }

  /** Without such a window it belongs to the oracle of its repository ".../n-oracle", and otherwise to
      none. */
  lemma WorktreeOfRepository(wt: WorktreeInfo, path: string, last: string)
    requires forall m :: m != "" ==> wt.tmuxWindow != Some(m + "-oracle")
    requires '/' !in last
    ensures wt.mainRepo == None ==> OracleNameFromWorktree(wt) == None
    ensures wt.mainRepo == Some(path + "/" + last) || (wt.mainRepo == Some(last) && last != "") ==>
              && (forall n :: last == n + "-oracle" ==> OracleNameFromWorktree(wt) == Some(n))
              && ((forall n :: last != n + "-oracle") ==> OracleNameFromWorktree(wt) == None)
  {
    hide Split;
    if wt.tmuxWindow.Some? { WindowNames("", wt.tmuxWindow.value); }
    LastSegment(path, last);
    if EndsWith(last, SUFFIX) {
      assert last == Stripped(last) + "-oracle";
    }
    forall n | last == n + "-oracle"
      ensures EndsWith(last, SUFFIX) && Stripped(last) == n
    {
      StrippedIs(n);
    }
  }

  lemma LastSegment(path: string, last: string)
    ensures '/' !in last ==> Split(last, '/') == [last]
    ensures '/' !in last ==>
              Split(path + "/" + last, '/')[|Split(path + "/" + last, '/')| - 1] == last
  {
    if '/' !in last {
      SplitWithout(last, '/');
      SplitAcross(path, '/', last);
      assert path + ['/'] + last == path + "/" + last;
    }
  }

  predicate IsShortKey(k: string) {
    k != "" && !EndsWith(k, SUFFIX)
  }

  predicate IsSuffixKey(k: string) {
    k != "" && EndsWith(k, SUFFIX)
  }

  /** An agent key "n-oracle" is a suffixed one, and any other that is not empty a short one. */
  lemma KeysAre(k: string)
    ensures IsSuffixKey(k) <==> exists n :: k == n + "-oracle"
    ensures IsShortKey(k) <==> k != "" && forall n :: k != n + "-oracle"
  {
    if EndsWith(k, SUFFIX) {
      assert k == Stripped(k) + "-oracle";
    }
    forall n | k == n + "-oracle" ensures EndsWith(k, SUFFIX) { StrippedIs(n); }
  }

  // ----- the registries, and what each field is, name by name

  datatype Registries = Registries(windows: seq<FleetWindow>, sessions: seq<Setting>,
                                   shorts: seq<Setting>, suffixes: seq<Setting>, oracles: seq<Oracle>)

  const NOTHING := Registries([], [], [], [], [])

  predicate OfWindow(w: FleetWindow, n: string) {
    n != "" && NameFromWindow(w.name) == Some(n)
  }

  /** The first of the windows of oracle `n` for which `f` yields a text. */
  function FirstInFleet(ws: seq<FleetWindow>, n: string, f: FleetWindow -> Option<string>): Option<string> {
    if ws == [] then None
    else
      var init, last := ws[..|ws| - 1], ws[|ws| - 1];
      var r := FirstInFleet(init, n, f);
      if r.Some? then r else if OfWindow(last, n) then Text(f(last)) else None
  }

  predicate InFleet(ws: seq<FleetWindow>, n: string) {
    exists i :: 0 <= i < |ws| && OfWindow(ws[i], n)
  }

  predicate HasKey(ss: seq<Setting>, k: string) {
    exists i :: 0 <= i < |ss| && ss[i].key == k
  }

  /** The text under key `k`; in a map there is at most one. */
  function ValueAt(ss: seq<Setting>, k: string): Option<string> {
    if ss == [] then None
    else
      var last := ss[|ss| - 1];
      if last.key == k && IsText(last.value) then last.value else ValueAt(ss[..|ss| - 1], k)
  }

  function FirstValueAt(ss: seq<Setting>, k: string): Option<string> {
    if ss == [] then None
    else
      var last := ss[|ss| - 1];
      var r := FirstValueAt(ss[..|ss| - 1], k);
      if r.Some? then r else if last.key == k then Text(last.value) else None
  }

  predicate InOracles(os: seq<Oracle>, n: string) {
    exists i :: 0 <= i < |os| && os[i].name == n
  }

  /** The first defined value of a field among the cached oracles of that name. */
  function FirstInOracles<T>(os: seq<Oracle>, n: string, f: Oracle -> Option<T>): Option<T> {
    if os == [] then None
    else
      var last := os[|os| - 1];
      var r := FirstInOracles(os[..|os| - 1], n, f);
      if r.Some? then r else if last.name == n then f(last) else None
  }

  function RepoOf(o: Oracle): Option<string> {
    if IsText(o.org) && IsText(o.repo) then Some(o.org.value + "/" + o.repo.value) else None
  }

  function Or<T>(a: Option<T>, b: Option<T>): Option<T> {
    if a.Some? then a else b
  }

  function Only(cond: bool, src: Source): seq<Source> {
    if cond then [src] else []
  }

  /** Which oracles the manifest lists. */
  ghost predicate IsKnown(r: Registries, n: string) {
    InFleet(r.windows, n) || (n != "" && HasKey(r.sessions, n)) || HasKey(r.shorts, n)
    || HasKey(r.suffixes, n + SUFFIX) || InOracles(r.oracles, n)
  }

  /** The node: a short agent key, else "local" for a fleet oracle, else a suffixed agent key,
      else the cached federation node. */
  function NodeOf(r: Registries, n: string): Option<string> {
    Or(ValueAt(r.shorts, n),
       Or(if InFleet(r.windows, n) then Some("local") else None,
          Or(FirstValueAt(r.suffixes, n + SUFFIX),
             FirstInOracles(r.oracles, n, ORACLE_NODE))))
  }

  /** The sources that list the oracle, in the fixed order of the passes. */
  function SourcesOf(r: Registries, n: string): seq<Source> {
    Only(InFleet(r.windows, n), Fleet)
    + Only(n != "" && HasKey(r.sessions, n), SessionMap)
    + Only(HasKey(r.shorts, n) || HasKey(r.suffixes, n + SUFFIX), Agent)
    + Only(InOracles(r.oracles, n), OraclesJson)
  }

  function Expected(r: Registries, n: string): Entry {
    Entry(n, SourcesOf(r, n), NodeOf(r, n),
          FirstInFleet(r.windows, n, WINDOW_SESSION),
          FirstInFleet(r.windows, n, WINDOW_NAME),
          Or(FirstInFleet(r.windows, n, WINDOW_REPO), FirstInOracles(r.oracles, n, ORACLE_REPO)),
          FirstInOracles(r.oracles, n, ORACLE_PATH),
          if n == "" then None else ValueAt(r.sessions, n),
          FirstInOracles(r.oracles, n, ORACLE_FROM),
          FirstInOracles(r.oracles, n, ORACLE_AT),
          None,
          FirstInOracles(r.oracles, n, ORACLE_PSI),
          if InFleet(r.windows, n) then Some(true) else FirstInOracles(r.oracles, n, ORACLE_FLEET))
  }

  const WINDOW_SESSION: FleetWindow -> Option<string> := (w: FleetWindow) => w.session
  const WINDOW_NAME: FleetWindow -> Option<string> := (w: FleetWindow) => w.name
  const WINDOW_REPO: FleetWindow -> Option<string> := (w: FleetWindow) => w.repo
  const ORACLE_REPO: Oracle -> Option<string> := (o: Oracle) => RepoOf(o)
  const ORACLE_PATH: Oracle -> Option<string> := (o: Oracle) => Text(o.localPath)
  const ORACLE_FROM: Oracle -> Option<Option<string>> := (o: Oracle) => o.buddedFrom
  const ORACLE_AT: Oracle -> Option<Option<string>> := (o: Oracle) => o.buddedAt
  const ORACLE_PSI: Oracle -> Option<bool> := (o: Oracle) => o.hasPsi
  const ORACLE_FLEET: Oracle -> Option<bool> := (o: Oracle) => o.hasFleetConfig
  const ORACLE_NODE: Oracle -> Option<string> := (o: Oracle) => Text(o.federationNode)

  /** The table holds exactly the known oracles, each with the entry expected of it. */
  ghost predicate IsMerged(byName: map<string, Entry>, r: Registries) {
    forall n :: (n in byName <==> IsKnown(r, n)) && (n in byName ==> byName[n] == Expected(r, n))
  }

  // ----- one registry item at a time, as values

  function Fresh(n: string): Entry {
    Entry(n, [], None, None, None, None, None, None, None, None, None, None, None)
  }

  function Ensure(byName: map<string, Entry>, n: string): Entry {
    if n in byName then byName[n] else Fresh(n)
  }

  function AddSource(e: Entry, src: Source): Entry {
    if src in e.sources then e else e.(sources := e.sources + [src])
  }

  function AfterWindow(e: Entry, w: FleetWindow): Entry {
    AddSource(e, Fleet).(hasFleetConfig := Some(true),
                         session := Or(e.session, Text(w.session)),
                         window := Or(e.window, Text(w.name)),
                         repo := Or(e.repo, Text(w.repo)),
                         node := Or(e.node, Some("local")))
  }

  function AfterSession(e: Entry, s: Setting): Entry {
    AddSource(e, SessionMap).(sessionId := Or(Text(s.value), e.sessionId))
  }

  function AfterShort(e: Entry, s: Setting): Entry {
    AddSource(e, Agent).(node := Or(Text(s.value), e.node))
  }

  function AfterSuffix(e: Entry, s: Setting): Entry {
    AddSource(e, Agent).(node := Or(e.node, Text(s.value)))
  }

  function AfterOracle(e: Entry, o: Oracle): Entry {
    AddSource(e, OraclesJson).(repo := Or(e.repo, RepoOf(o)),
                               localPath := Or(e.localPath, Text(o.localPath)),
                               buddedFrom := Or(e.buddedFrom, o.buddedFrom),
                               buddedAt := Or(e.buddedAt, o.buddedAt),
                               hasPsi := Or(e.hasPsi, o.hasPsi),
                               hasFleetConfig := Or(e.hasFleetConfig, o.hasFleetConfig),
                               node := Or(e.node, Text(o.federationNode)))
  }

  // ----- how the specification grows by one item

  lemma FleetAppend(ws: seq<FleetWindow>, w: FleetWindow, n: string)
    ensures InFleet(ws + [w], n) <==> InFleet(ws, n) || OfWindow(w, n)
    ensures forall f: FleetWindow -> Option<string> ::
              FirstInFleet(ws + [w], n, f)
              == Or(FirstInFleet(ws, n, f), if OfWindow(w, n) then Text(f(w)) else None)
  {
    assert (ws + [w])[..|ws|] == ws;
    assert (ws + [w])[|ws|] == w;
    if InFleet(ws, n) {
      var i :| 0 <= i < |ws| && OfWindow(ws[i], n);
      assert (ws + [w])[i] == ws[i];
    }
  }

  lemma SettingAppend(ss: seq<Setting>, s: Setting, k: string)
    ensures HasKey(ss + [s], k) <==> HasKey(ss, k) || s.key == k
    ensures ValueAt(ss + [s], k) == if s.key == k then Or(Text(s.value), ValueAt(ss, k)) else ValueAt(ss, k)
    ensures FirstValueAt(ss + [s], k)
            == if s.key == k then Or(FirstValueAt(ss, k), Text(s.value)) else FirstValueAt(ss, k)
  {
    assert (ss + [s])[..|ss|] == ss;
    assert (ss + [s])[|ss|] == s;
    if HasKey(ss, k) {
      var i :| 0 <= i < |ss| && ss[i].key == k;
      assert (ss + [s])[i] == ss[i];
    }
  }

  lemma OraclesAppend<T>(os: seq<Oracle>, o: Oracle, n: string, f: Oracle -> Option<T>)
    ensures InOracles(os + [o], n) <==> InOracles(os, n) || o.name == n
    ensures FirstInOracles(os + [o], n, f) == Or(FirstInOracles(os, n, f), if o.name == n then f(o) else None)
  {
    assert (os + [o])[..|os|] == os;
    assert (os + [o])[|os|] == o;
    if InOracles(os, n) {
      var i :| 0 <= i < |os| && os[i].name == n;
      assert (os + [o])[i] == os[i];
    }
  }

  lemma {:induction false} NoFleetNoValue(ws: seq<FleetWindow>, n: string, f: FleetWindow -> Option<string>)
    requires !InFleet(ws, n)
    ensures FirstInFleet(ws, n, f) == None
  {
    if ws != [] {
      var init := ws[..|ws| - 1];
      assert forall i :: 0 <= i < |init| ==> init[i] == ws[i];
      NoFleetNoValue(init, n, f);
    }
  }

  lemma {:induction false} NoKeyNoValue(ss: seq<Setting>, k: string)
    requires !HasKey(ss, k)
    ensures ValueAt(ss, k) == None && FirstValueAt(ss, k) == None
  {
    if ss != [] {
      var init := ss[..|ss| - 1];
      assert forall i :: 0 <= i < |init| ==> init[i] == ss[i];
      NoKeyNoValue(init, k);
    }
  }

  lemma {:induction false} NoOracleNoValue<T>(os: seq<Oracle>, n: string, f: Oracle -> Option<T>)
    requires !InOracles(os, n)
    ensures FirstInOracles(os, n, f) == None
  {
    if os != [] {
      var init := os[..|os| - 1];
      assert forall i :: 0 <= i < |init| ==> init[i] == os[i];
      NoOracleNoValue(init, n, f);
    }
  }

  /** What is expected of an unknown oracle is an empty entry. */
  lemma UnknownIsFresh(r: Registries, n: string)
    requires !IsKnown(r, n)
    ensures Expected(r, n) == Fresh(n)
  {
    hide InFleet, HasKey, InOracles, OfWindow, FirstInFleet, FirstInOracles, ValueAt, FirstValueAt;
    NoFleetNoValue(r.windows, n, WINDOW_SESSION);
    NoFleetNoValue(r.windows, n, WINDOW_NAME);
    NoFleetNoValue(r.windows, n, WINDOW_REPO);
    NoKeyNoValue(r.shorts, n);
    NoKeyNoValue(r.suffixes, n + SUFFIX);
    if n != "" { NoKeyNoValue(r.sessions, n); }
    NoOracleNoValue(r.oracles, n, ORACLE_REPO);
    NoOracleNoValue(r.oracles, n, ORACLE_PATH);
    NoOracleNoValue(r.oracles, n, ORACLE_FROM);
    NoOracleNoValue(r.oracles, n, ORACLE_AT);
    NoOracleNoValue(r.oracles, n, ORACLE_PSI);
    NoOracleNoValue(r.oracles, n, ORACLE_FLEET);
    NoOracleNoValue(r.oracles, n, ORACLE_NODE);
  }

  lemma EnsureIsExpected(byName: map<string, Entry>, r: Registries, n: string)
    requires IsMerged(byName, r)
    ensures Ensure(byName, n) == Expected(r, n)
  {
    hide Expected, IsKnown;
    if n !in byName { UnknownIsFresh(r, n); }
  }

  /** Going from `r` to `s` changes what is expected of oracle `n` only: it becomes `e`. */
  ghost predicate Changes(r: Registries, s: Registries, n: string, e: Entry) {
    && Expected(s, n) == e
    && IsKnown(s, n)
    && forall m :: m != n ==> (IsKnown(s, m) <==> IsKnown(r, m)) && Expected(s, m) == Expected(r, m)
  }

  lemma Put(byName: map<string, Entry>, r: Registries, s: Registries, n: string, e: Entry)
    requires IsMerged(byName, r) && Changes(r, s, n, e)
    ensures IsMerged(byName[n := e], s)
  {
    hide Expected, IsKnown;
  }

  lemma {:induction false} WindowStepAt(r: Registries, w: FleetWindow, m: string)
    requires r.sessions == [] && r.shorts == [] && r.suffixes == [] && r.oracles == []
    ensures var s := r.(windows := r.windows + [w]);
            && (IsKnown(s, m) <==> IsKnown(r, m) || OfWindow(w, m))
            && Expected(s, m) == if OfWindow(w, m) then AfterWindow(Expected(r, m), w) else Expected(r, m)
  {
    hide InFleet, FirstInFleet, HasKey, ValueAt, OfWindow;
    FleetAppend(r.windows, w, m);
    NoneAtAll();
  }

  lemma {:induction false} WindowStep(r: Registries, w: FleetWindow, n: string)
    requires OfWindow(w, n)
    requires r.sessions == [] && r.shorts == [] && r.suffixes == [] && r.oracles == []
    ensures Changes(r, r.(windows := r.windows + [w]), n, AfterWindow(Expected(r, n), w))
  {
    hide IsKnown, Expected, AfterWindow, NameFromWindow;
    forall m { WindowStepAt(r, w, m); }
  }

  lemma ForeignWindowStep(byName: map<string, Entry>, r: Registries, w: FleetWindow)
    requires !IsText(NameFromWindow(w.name)) && IsMerged(byName, r)
    ensures IsMerged(byName, r.(windows := r.windows + [w]))
  {
    hide InFleet, FirstInFleet;
    var s := r.(windows := r.windows + [w]);
    forall m
      ensures Expected(s, m) == Expected(r, m) && (IsKnown(s, m) <==> IsKnown(r, m))
    {
      FleetAppend(r.windows, w, m);
    }
  }

  lemma SessionStep(r: Registries, x: Setting)
    requires x.key != "" && r.shorts == [] && r.suffixes == [] && r.oracles == []
    ensures Changes(r, r.(sessions := r.sessions + [x]), x.key, AfterSession(Expected(r, x.key), x))
  {
    hide InFleet, FirstInFleet, HasKey, ValueAt;
    forall k { SettingAppend(r.sessions, x, k); }
    NoneAtAll();
  }

  lemma NoneAtAll()
    ensures forall k :: !HasKey([], k) && ValueAt([], k) == None
  {
  }

  lemma EmptyKeyStep(byName: map<string, Entry>, r: Registries, x: Setting)
    requires x.key == "" && IsMerged(byName, r)
    ensures IsMerged(byName, r.(sessions := r.sessions + [x]))
  {
    hide InFleet, FirstInFleet, HasKey, ValueAt;
    var s := r.(sessions := r.sessions + [x]);
    forall m
      ensures Expected(s, m) == Expected(r, m) && (IsKnown(s, m) <==> IsKnown(r, m))
    {
      SettingAppend(r.sessions, x, m);
    }
  }

  lemma ShortNodeAt(r: Registries, x: Setting, m: string)
    ensures NodeOf(r.(shorts := r.shorts + [x]), m)
            == if m == x.key then Or(Text(x.value), NodeOf(r, m)) else NodeOf(r, m)
  {
    hide InFleet, FirstInFleet, HasKey, ValueAt, FirstValueAt, FirstInOracles;
    SettingAppend(r.shorts, x, m);
  }

  lemma ShortSourcesAt(r: Registries, x: Setting, m: string)
    requires r.suffixes == [] && r.oracles == []
    ensures SourcesOf(r.(shorts := r.shorts + [x]), m)
            == if m == x.key && Agent !in SourcesOf(r, m) then SourcesOf(r, m) + [Agent] else SourcesOf(r, m)
  {
    hide InFleet, HasKey, ValueAt, FirstValueAt;
    SettingAppend(r.shorts, x, m);
    NoneAtAll();
    var before := Only(InFleet(r.windows, m), Fleet) + Only(m != "" && HasKey(r.sessions, m), SessionMap);
    assert Agent !in before;
    assert before + [] == before;
  }

  lemma ShortStepAt(r: Registries, x: Setting, m: string)
    requires r.suffixes == [] && r.oracles == []
    ensures var s := r.(shorts := r.shorts + [x]);
            && (IsKnown(s, m) <==> IsKnown(r, m) || m == x.key)
            && Expected(s, m) == if m == x.key then AfterShort(Expected(r, m), x) else Expected(r, m)
  {
    hide InFleet, FirstInFleet, HasKey, ValueAt, FirstValueAt, FirstInOracles, InOracles, NodeOf, SourcesOf;
    ShortNodeAt(r, x, m);
    ShortSourcesAt(r, x, m);
    SettingAppend(r.shorts, x, m);
  }

  lemma {:induction false} ShortStep(r: Registries, x: Setting)
    requires r.suffixes == [] && r.oracles == []
    ensures Changes(r, r.(shorts := r.shorts + [x]), x.key, AfterShort(Expected(r, x.key), x))
  {
    hide IsKnown, Expected, AfterShort;
    var s := r.(shorts := r.shorts + [x]);
    forall m
      ensures IsKnown(s, m) <==> IsKnown(r, m) || m == x.key
      ensures Expected(s, m) == if m == x.key then AfterShort(Expected(r, m), x) else Expected(r, m)
    {
      ShortStepAt(r, x, m);
    }
  }

  lemma SuffixKey(k: string, n: string)
    requires EndsWith(k, SUFFIX)
    ensures n + SUFFIX == k <==> n == Stripped(k)
  {
    assert k == Stripped(k) + SUFFIX;
    if n + SUFFIX == k {
      assert n == (n + SUFFIX)[..|n|];
    }
  }

  lemma SuffixNodeAt(r: Registries, x: Setting, m: string)
    requires EndsWith(x.key, SUFFIX) && r.oracles == []
    ensures NodeOf(r.(suffixes := r.suffixes + [x]), m)
            == if m == Stripped(x.key) then Or(NodeOf(r, m), Text(x.value)) else NodeOf(r, m)
  {
    hide InFleet, HasKey, ValueAt, FirstValueAt, EndsWith, Stripped;
    SuffixKey(x.key, m);
    SettingAppend(r.suffixes, x, m + SUFFIX);
  }

  lemma SuffixSourcesAt(r: Registries, x: Setting, m: string)
    requires EndsWith(x.key, SUFFIX) && r.oracles == []
    ensures SourcesOf(r.(suffixes := r.suffixes + [x]), m)
            == if m == Stripped(x.key) && Agent !in SourcesOf(r, m) then SourcesOf(r, m) + [Agent] else SourcesOf(r, m)
  {
    hide InFleet, HasKey, ValueAt, FirstValueAt, EndsWith, Stripped;
    SuffixKey(x.key, m);
    SettingAppend(r.suffixes, x, m + SUFFIX);
    var before := Only(InFleet(r.windows, m), Fleet) + Only(m != "" && HasKey(r.sessions, m), SessionMap);
    assert Agent !in before;
    assert before + [] == before;
  }

  lemma SuffixStepAt(r: Registries, x: Setting, m: string)
    requires EndsWith(x.key, SUFFIX) && r.oracles == []
    ensures var s := r.(suffixes := r.suffixes + [x]);
            && (IsKnown(s, m) <==> IsKnown(r, m) || m == Stripped(x.key))
            && Expected(s, m) == if m == Stripped(x.key) then AfterSuffix(Expected(r, m), x) else Expected(r, m)
  {
    hide InFleet, FirstInFleet, HasKey, ValueAt, FirstValueAt, InOracles, FirstInOracles, EndsWith, Stripped, NodeOf,
         SourcesOf;
    SuffixKey(x.key, m);
    SuffixNodeAt(r, x, m);
    SuffixSourcesAt(r, x, m);
    SettingAppend(r.suffixes, x, m + SUFFIX);
  }

  lemma {:induction false} SuffixStep(r: Registries, x: Setting)
    requires EndsWith(x.key, SUFFIX) && r.oracles == []
    ensures Changes(r, r.(suffixes := r.suffixes + [x]), Stripped(x.key), AfterSuffix(Expected(r, Stripped(x.key)), x))
  {
    hide IsKnown, Expected, EndsWith, Stripped, AfterSuffix;
    var s := r.(suffixes := r.suffixes + [x]);
    forall m
      ensures IsKnown(s, m) <==> IsKnown(r, m) || m == Stripped(x.key)
      ensures Expected(s, m) == if m == Stripped(x.key) then AfterSuffix(Expected(r, m), x) else Expected(r, m)
    {
      SuffixStepAt(r, x, m);
    }
  }

  lemma OracleNodeAt(r: Registries, o: Oracle, m: string)
    ensures NodeOf(r.(oracles := r.oracles + [o]), m)
            == if m == o.name then Or(NodeOf(r, m), Text(o.federationNode)) else NodeOf(r, m)
  {
    hide InFleet, FirstInFleet, HasKey, ValueAt, FirstValueAt, InOracles, FirstInOracles;
    OraclesAppend(r.oracles, o, m, ORACLE_NODE);
  }

  lemma OracleSourcesAt(r: Registries, o: Oracle, m: string)
    ensures SourcesOf(r.(oracles := r.oracles + [o]), m)
            == if m == o.name && OraclesJson !in SourcesOf(r, m)
               then SourcesOf(r, m) + [OraclesJson] else SourcesOf(r, m)
  {
    hide InFleet, HasKey, InOracles, FirstInOracles;
    OraclesAppend(r.oracles, o, m, ORACLE_NODE);
    var before := Only(InFleet(r.windows, m), Fleet) + Only(m != "" && HasKey(r.sessions, m), SessionMap)
                  + Only(HasKey(r.shorts, m) || HasKey(r.suffixes, m + SUFFIX), Agent);
    assert OraclesJson !in before;
    assert before + [] == before;
  }

  lemma OracleStepAt(r: Registries, o: Oracle, m: string)
    ensures var s := r.(oracles := r.oracles + [o]);
            && (IsKnown(s, m) <==> IsKnown(r, m) || m == o.name)
            && Expected(s, m) == if m == o.name then AfterOracle(Expected(r, m), o) else Expected(r, m)
  {
    hide InFleet, FirstInFleet, HasKey, ValueAt, FirstValueAt, InOracles, FirstInOracles, NodeOf, SourcesOf;
    OracleNodeAt(r, o, m);
    OracleSourcesAt(r, o, m);
    OraclesAppend(r.oracles, o, m, ORACLE_REPO);
    OraclesAppend(r.oracles, o, m, ORACLE_PATH);
    OraclesAppend(r.oracles, o, m, ORACLE_FROM);
    OraclesAppend(r.oracles, o, m, ORACLE_AT);
    OraclesAppend(r.oracles, o, m, ORACLE_PSI);
    OraclesAppend(r.oracles, o, m, ORACLE_FLEET);
  }

  lemma {:induction false} OracleStep(r: Registries, o: Oracle)
    ensures Changes(r, r.(oracles := r.oracles + [o]), o.name, AfterOracle(Expected(r, o.name), o))
  {
    hide IsKnown, Expected, AfterOracle;
    var s := r.(oracles := r.oracles + [o]);
    forall m
      ensures IsKnown(s, m) <==> IsKnown(r, m) || m == o.name
      ensures Expected(s, m) == if m == o.name then AfterOracle(Expected(r, m), o) else Expected(r, m)
    {
      OracleStepAt(r, o, m);
    }
  }

  // ----- sorting by name, under any total order of names

  ghost predicate IsOrder(le: (string, string) -> bool) {
    && (forall a, b :: le(a, b) || le(b, a))
    && (forall a, b, c :: le(a, b) && le(b, c) ==> le(a, c))
  }

  ghost predicate SortedByName(s: seq<Entry>, le: (string, string) -> bool) {
    forall i, j :: 0 <= i < j < |s| ==> le(s[i].name, s[j].name)
  }

  ghost predicate UniqueNames(s: seq<Entry>) {
    forall i, j :: 0 <= i < j < |s| ==> s[i].name != s[j].name
  }

  function InsertByName(s: seq<Entry>, e: Entry, le: (string, string) -> bool): seq<Entry> {
    if s == [] then [e]
    else if le(s[|s| - 1].name, e.name) then s + [e]
    else InsertByName(s[..|s| - 1], e, le) + [s[|s| - 1]]
  }

  function SortByName(s: seq<Entry>, le: (string, string) -> bool): seq<Entry> {
    if s == [] then [] else InsertByName(SortByName(s[..|s| - 1], le), s[|s| - 1], le)
  }

  predicate NameIn(s: seq<Entry>, n: string) {
    exists i :: 0 <= i < |s| && s[i].name == n
  }

  /** Inserting keeps the order and the members; a new name stays unique. */
  lemma {:induction false} InsertIsSorted(s: seq<Entry>, e: Entry, le: (string, string) -> bool)
    requires IsOrder(le) && SortedByName(s, le)
    ensures SortedByName(InsertByName(s, e, le), le)
    ensures forall x :: x in InsertByName(s, e, le) <==> x in s || x == e
  {
    if s != [] && !le(s[|s| - 1].name, e.name) {
      var init, last := s[..|s| - 1], s[|s| - 1];
      assert s == init + [last];
      InsertIsSorted(init, e, le);
      var r := InsertByName(init, e, le);
      forall i | 0 <= i < |r|
        ensures le(r[i].name, last.name)
      {
        assert r[i] in r;
      }
    }
  }

  lemma {:induction false} InsertIsUnique(s: seq<Entry>, e: Entry, le: (string, string) -> bool)
    requires UniqueNames(s) && !NameIn(s, e.name)
    ensures UniqueNames(InsertByName(s, e, le))
    ensures forall n :: NameIn(InsertByName(s, e, le), n) ==> NameIn(s, n) || n == e.name
  {
    if s != [] && !le(s[|s| - 1].name, e.name) {
      var init, last := s[..|s| - 1], s[|s| - 1];
      assert forall i :: 0 <= i < |init| ==> init[i] == s[i];
      InsertIsUnique(init, e, le);
      var r := InsertByName(init, e, le);
      assert !NameIn(r, last.name);
      forall n | NameIn(r + [last], n)
        ensures NameIn(s, n) || n == e.name
      {
        if n != last.name { assert NameIn(r, n); }
      }
    }
  }

  lemma {:induction false} SortIsSorted(s: seq<Entry>, le: (string, string) -> bool)
    requires IsOrder(le) && UniqueNames(s)
    ensures SortedByName(SortByName(s, le), le)
    ensures UniqueNames(SortByName(s, le))
    ensures forall x :: x in SortByName(s, le) <==> x in s
    ensures forall n :: NameIn(SortByName(s, le), n) ==> NameIn(s, n)
  {
    if s != [] {
      var init, last := s[..|s| - 1], s[|s| - 1];
      assert s == init + [last];
      SortIsSorted(init, le);
      InsertIsSorted(SortByName(init, le), last, le);
      InsertIsUnique(SortByName(init, le), last, le);
    }
  }

  /** The table's entries in name order. */
  method SortedValues(byName: map<string, Entry>, le: (string, string) -> bool) returns (entries: seq<Entry>)
    requires IsOrder(le)
    requires forall n :: n in byName ==> byName[n].name == n
    ensures forall e :: e in entries <==> e.name in byName && byName[e.name] == e
    ensures UniqueNames(entries) && SortedByName(entries, le)
  {
    var values: seq<Entry> := [];
    var todo := byName.Keys;
    while todo != {}
      invariant todo <= byName.Keys
      invariant forall e :: e in values <==> e.name in byName && e.name !in todo && byName[e.name] == e
      invariant UniqueNames(values)
    {
      var n :| n in todo;
      values := values + [byName[n]];
      todo := todo - {n};
    }
    SortIsSorted(values, le);
    entries := SortByName(values, le);
  }

  // ----- the loader

  function WindowsOf(s: FleetSession): seq<FleetWindow> {
    seq(|s.windows|, i requires 0 <= i < |s.windows| => FleetWindow(s.name, s.windows[i].name, s.windows[i].repo))
  }

  function Flat(fleet: seq<FleetSession>): seq<FleetWindow> {
    if fleet == [] then [] else Flat(fleet[..|fleet| - 1]) + WindowsOf(fleet[|fleet| - 1])
  }

  function ShortKeys(agents: seq<Setting>): (r: seq<Setting>)
    ensures forall x :: x in r <==> x in agents && IsShortKey(x.key)
  {
    if agents == [] then []
    else
      var init, last := agents[..|agents| - 1], agents[|agents| - 1];
      assert agents == init + [last];
      ShortKeys(init) + if IsShortKey(last.key) then [last] else []
  }

  function SuffixKeys(agents: seq<Setting>): (r: seq<Setting>)
    ensures forall x :: x in r <==> x in agents && IsSuffixKey(x.key)
  {
    if agents == [] then []
    else
      var init, last := agents[..|agents| - 1], agents[|agents| - 1];
      assert agents == init + [last];
      SuffixKeys(init) + if IsSuffixKey(last.key) then [last] else []
  }

  function RegistriesOf(fleet: seq<FleetSession>, sessions: seq<Setting>, agents: seq<Setting>,
                        oracles: seq<Oracle>): Registries {
    Registries(Flat(fleet), sessions, ShortKeys(agents), SuffixKeys(agents), oracles)
  }

  function BirthFor(births: map<string, Birth>, n: string): Option<Birth> {
    if n in births then Some(births[n])
    else if n + SUFFIX in births then Some(births[n + SUFFIX])
    else None
  }

  /** The birth of an oracle is the one under its name, else the one under its name with the suffix. */
  lemma BirthIs(births: map<string, Birth>, n: string, b: Birth)
    ensures n in births && births[n] == b ==> BirthFor(births, n) == Some(b)
    ensures n !in births && n + "-oracle" in births && births[n + "-oracle"] == b ==> BirthFor(births, n) == Some(b)
    ensures n !in births && n + "-oracle" !in births ==> BirthFor(births, n) == None
  {
  }

  lemma EmptyIsMerged()
    ensures IsMerged(map[], NOTHING)
  {
  }

  /** Fills one entry from a fleet window: the first window of an oracle wins. */
  method MergeWindow(start: Entry, sessionName: Option<string>, w: Window) returns (e: Entry)
    ensures e == AfterWindow(start, FleetWindow(sessionName, w.name, w.repo))
  {
    var session, window, repo, node := start.session, start.window, start.repo, start.node;
    if IsText(sessionName) && session == None { session := sessionName; }
    if IsText(w.name) && window == None { window := w.name; }
    if IsText(w.repo) && repo == None { repo := w.repo; }
    if node == None { node := Some("local"); }
    e := AddSource(start, Fleet).(hasFleetConfig := Some(true), session := session, window := window, repo := repo,
                                  node := node);
  }

  method MergeFleet(fleet: seq<FleetSession>) returns (byName: map<string, Entry>)
    ensures IsMerged(byName, NOTHING.(windows := Flat(fleet)))
  {
    hide IsMerged, Expected, IsKnown, AfterWindow;
    byName := map[];
    EmptyIsMerged();
    for i := 0 to |fleet|
      invariant IsMerged(byName, NOTHING.(windows := Flat(fleet[..i])))
    {
      var sess := fleet[i];
      assert fleet[..i + 1][..i] == fleet[..i];
      ghost var before := Flat(fleet[..i]);
      assert before + WindowsOf(sess)[..0] == before;
      for j := 0 to |sess.windows|
        invariant IsMerged(byName, NOTHING.(windows := before + WindowsOf(sess)[..j]))
      {
        var w := sess.windows[j];
        ghost var r := NOTHING.(windows := before + WindowsOf(sess)[..j]);
        ghost var fw := WindowsOf(sess)[j];
        assert before + WindowsOf(sess)[..j + 1] == r.windows + [fw];
        var name := NameFromWindow(w.name);
        if !IsText(name) {
          ForeignWindowStep(byName, r, fw);
          continue;
        }
        var e := Ensure(byName, name.value);
        EnsureIsExpected(byName, r, name.value);
        e := MergeWindow(e, sess.name, w);
        WindowStep(r, fw, name.value);
        Put(byName, r, r.(windows := r.windows + [fw]), name.value, e);
        byName := byName[name.value := e];
      }
      assert WindowsOf(sess)[..|sess.windows|] == WindowsOf(sess);
    }
    assert fleet[..|fleet|] == fleet;
  }

  method MergeSessions(start: map<string, Entry>, ghost r: Registries, sessions: seq<Setting>)
    returns (byName: map<string, Entry>)
    requires IsMerged(start, r)
    requires r.sessions == [] && r.shorts == [] && r.suffixes == [] && r.oracles == []
    ensures IsMerged(byName, r.(sessions := sessions))
  {
    hide IsMerged, Expected, IsKnown;
    byName := start;
    assert r.(sessions := sessions[..0]) == r;
    for i := 0 to |sessions|
      invariant IsMerged(byName, r.(sessions := sessions[..i]))
    {
      var x := sessions[i];
      ghost var now := r.(sessions := sessions[..i]);
      assert sessions[..i + 1] == now.sessions + [x];
      if x.key == "" {
        EmptyKeyStep(byName, now, x);
        continue;
      }
      var e := AddSource(Ensure(byName, x.key), SessionMap);
      EnsureIsExpected(byName, now, x.key);
      if IsText(x.value) { e := e.(sessionId := x.value); }
      SessionStep(now, x);
      Put(byName, now, now.(sessions := now.sessions + [x]), x.key, e);
      byName := byName[x.key := e];
    }
    assert sessions[..|sessions|] == sessions;
  }

  /** Short keys first, then suffixed keys, which never replace a node. */
  method MergeAgents(start: map<string, Entry>, ghost r: Registries, agents: seq<Setting>)
    returns (byName: map<string, Entry>)
    requires IsMerged(start, r)
    requires r.shorts == [] && r.suffixes == [] && r.oracles == []
    ensures IsMerged(byName, r.(shorts := ShortKeys(agents), suffixes := SuffixKeys(agents)))
  {
    hide IsMerged, Expected, IsKnown;
    var shorts, suffixes := ShortKeys(agents), SuffixKeys(agents);
    byName := start;
    assert r.(shorts := shorts[..0]) == r;
    for i := 0 to |shorts|
      invariant IsMerged(byName, r.(shorts := shorts[..i]))
    {
      var x := shorts[i];
      ghost var now := r.(shorts := shorts[..i]);
      assert shorts[..i + 1] == now.shorts + [x];
      var e := AddSource(Ensure(byName, x.key), Agent);
      EnsureIsExpected(byName, now, x.key);
      if IsText(x.value) { e := e.(node := x.value); }
      ShortStep(now, x);
      Put(byName, now, now.(shorts := now.shorts + [x]), x.key, e);
      byName := byName[x.key := e];
    }
    assert shorts[..|shorts|] == shorts;
    ghost var mid := r.(shorts := shorts);
    assert mid.(suffixes := suffixes[..0]) == mid;
    for i := 0 to |suffixes|
      invariant IsMerged(byName, mid.(suffixes := suffixes[..i]))
    {
      var x := suffixes[i];
      assert x in suffixes;
      ghost var now := mid.(suffixes := suffixes[..i]);
      assert suffixes[..i + 1] == now.suffixes + [x];
      var name := Stripped(x.key);
      var e := AddSource(Ensure(byName, name), Agent);
      EnsureIsExpected(byName, now, name);
      if IsText(x.value) && (e.node == None || e.node == Some("local")) {
        if e.node == None { e := e.(node := x.value); }
      }
      SuffixStep(now, x);
      Put(byName, now, now.(suffixes := now.suffixes + [x]), name, e);
      byName := byName[name := e];
    }
    assert suffixes[..|suffixes|] == suffixes;
  }

  /** Fills from one cached oracle whatever no earlier pass has set. */
  method MergeOraclesJsonEntry(start: Entry, o: Oracle) returns (e: Entry)
    ensures e == AfterOracle(start, o)
  {
    hide AddSource;
    var repo, localPath, node := start.repo, start.localPath, start.node;
    if repo == None && IsText(o.org) && IsText(o.repo) { repo := Some(o.org.value + "/" + o.repo.value); }
    if localPath == None && IsText(o.localPath) { localPath := o.localPath; }
    if node == None && IsText(o.federationNode) { node := o.federationNode; }
    assert repo == Or(start.repo, RepoOf(o));
    assert localPath == Or(start.localPath, Text(o.localPath));
    assert node == Or(start.node, Text(o.federationNode));
    e := AddSource(start, OraclesJson).(repo := repo, localPath := localPath, node := node,
                                        buddedFrom := Or(start.buddedFrom, o.buddedFrom),
                                        buddedAt := Or(start.buddedAt, o.buddedAt),
                                        hasPsi := Or(start.hasPsi, o.hasPsi),
                                        hasFleetConfig := Or(start.hasFleetConfig, o.hasFleetConfig));
  }

  method MergeOracles(start: map<string, Entry>, ghost r: Registries, oracles: seq<Oracle>)
    returns (byName: map<string, Entry>)
    requires IsMerged(start, r) && r.oracles == []
    ensures IsMerged(byName, r.(oracles := oracles))
  {
    hide IsMerged, Expected, IsKnown, AfterOracle;
    byName := start;
    assert r.(oracles := oracles[..0]) == r;
    for i := 0 to |oracles|
      invariant IsMerged(byName, r.(oracles := oracles[..i]))
    {
      var o := oracles[i];
      ghost var now := r.(oracles := oracles[..i]);
      assert oracles[..i + 1] == now.oracles + [o];
      EnsureIsExpected(byName, now, o.name);
      var e := MergeOraclesJsonEntry(Ensure(byName, o.name), o);
      OracleStep(now, o);
      Put(byName, now, now.(oracles := now.oracles + [o]), o.name, e);
      byName := byName[o.name := e];
    }
    assert oracles[..|oracles|] == oracles;
  }

  /** Adds birth facts to listed oracles; it lists no new ones. */
  method AddBirths(start: map<string, Entry>, births: map<string, Birth>) returns (byName: map<string, Entry>)
    requires forall n :: n in start ==> start[n].name == n && start[n].born == None
    ensures byName == map n | n in start :: start[n].(born := BirthFor(births, n))
  {
    byName := start;
    var todo := start.Keys;
    while todo != {}
      invariant todo <= start.Keys && byName.Keys == start.Keys
      invariant forall n :: n in start ==>
                  byName[n] == if n in todo then start[n] else start[n].(born := BirthFor(births, n))
    {
      var n :| n in todo;
      var born := BirthFor(births, n);
      if born.Some? { byName := byName[n := byName[n].(born := born)]; }
      todo := todo - {n};
    }
  }

  /** What the loader has to return. */
  ghost predicate IsManifest(entries: seq<Entry>, r: Registries, births: map<string, Birth>,
                             le: (string, string) -> bool) {
    && (forall e :: e in entries <==> IsKnown(r, e.name) && e == Expected(r, e.name).(born := BirthFor(births, e.name)))
    && UniqueNames(entries)
    && SortedByName(entries, le)
  }

  method LoadManifest(fleet: seq<FleetSession>, sessions: seq<Setting>, agents: seq<Setting>, oracles: seq<Oracle>,
                      births: map<string, Birth>, le: (string, string) -> bool) returns (entries: seq<Entry>)
    requires IsOrder(le)
    ensures IsManifest(entries, RegistriesOf(fleet, sessions, agents, oracles), births, le)
  {
    hide Expected, IsKnown;
    ghost var r := NOTHING.(windows := Flat(fleet));
    var byName := MergeFleet(fleet);
    byName := MergeSessions(byName, r, sessions);
    r := r.(sessions := sessions);
    byName := MergeAgents(byName, r, agents);
    r := r.(shorts := ShortKeys(agents), suffixes := SuffixKeys(agents));
    byName := MergeOracles(byName, r, oracles);
    r := r.(oracles := oracles);
    forall n ensures Expected(r, n).name == n && Expected(r, n).born == None { ExpectedName(r, n); }
    byName := AddBirths(byName, births);
    entries := SortedValues(byName, le);
  }

  lemma ExpectedName(r: Registries, n: string)
    ensures Expected(r, n).name == n && Expected(r, n).born == None
  {
  }

  // ----- the order of the agent map does not matter

  ghost predicate DistinctKeys(ss: seq<Setting>) {
    forall i, j :: 0 <= i < j < |ss| ==> ss[i].key != ss[j].key
  }

  ghost predicate Holds(ss: seq<Setting>, k: string, v: string) {
    v != "" && Setting(k, Some(v)) in ss
  }

  /** In a map, the text under a key is the one stored there, from whichever end one looks. */
  lemma {:induction false} ValueIsStored(ss: seq<Setting>, k: string)
    requires DistinctKeys(ss)
    ensures ValueAt(ss, k) == FirstValueAt(ss, k)
    ensures forall v :: ValueAt(ss, k) == Some(v) <==> Holds(ss, k, v)
    ensures HasKey(ss, k) <==> exists x :: x in ss && x.key == k
  {
    if ss != [] {
      var init, last := ss[..|ss| - 1], ss[|ss| - 1];
      assert ss == init + [last];
      ValueIsStored(init, k);
      if last.key == k {
        assert forall x :: x in init ==> x.key != k;
      }
    }
  }

  lemma {:induction false} FilterKeepsDistinct(agents: seq<Setting>)
    requires DistinctKeys(agents)
    ensures DistinctKeys(ShortKeys(agents)) && DistinctKeys(SuffixKeys(agents))
  {
    if agents != [] {
      var init, last := agents[..|agents| - 1], agents[|agents| - 1];
      assert agents == init + [last];
      FilterKeepsDistinct(init);
      assert forall x :: x in init ==> x.key != last.key;
    }
  }

  lemma SameValues(a: seq<Setting>, b: seq<Setting>, k: string)
    requires DistinctKeys(a) && DistinctKeys(b)
    requires forall x :: x in a <==> x in b
    ensures ValueAt(a, k) == ValueAt(b, k) && FirstValueAt(a, k) == FirstValueAt(b, k)
    ensures HasKey(a, k) <==> HasKey(b, k)
  {
    ValueIsStored(a, k);
    ValueIsStored(b, k);
    if ValueAt(a, k).Some? {
      assert Holds(b, k, ValueAt(a, k).value);
    } else if ValueAt(b, k).Some? {
      assert Holds(a, k, ValueAt(b, k).value);
    }
  }

  /** Whatever order the agent map lists its keys in, every entry comes out the same. */
  lemma {:induction false} AgentOrderIsIrrelevant(fleet: seq<FleetSession>, sessions: seq<Setting>,
                                                  a: seq<Setting>, b: seq<Setting>,
                                                  oracles: seq<Oracle>, n: string)
    requires DistinctKeys(a) && DistinctKeys(b)
    requires forall x :: x in a <==> x in b
    ensures Expected(RegistriesOf(fleet, sessions, a, oracles), n)
            == Expected(RegistriesOf(fleet, sessions, b, oracles), n)
    ensures IsKnown(RegistriesOf(fleet, sessions, a, oracles), n)
            <==> IsKnown(RegistriesOf(fleet, sessions, b, oracles), n)
  {
    hide ValueAt, FirstValueAt, HasKey, InFleet, FirstInFleet, InOracles, FirstInOracles, DistinctKeys;
    FilterKeepsDistinct(a);
    FilterKeepsDistinct(b);
    SameValues(ShortKeys(a), ShortKeys(b), n);
    SameValues(SuffixKeys(a), SuffixKeys(b), n + SUFFIX);
  }

  predicate TellsApart(le: (string, string) -> bool, s: seq<Entry>) {
    forall i, j :: 0 <= i < |s| && 0 <= j < |s| && le(s[i].name, s[j].name) && le(s[j].name, s[i].name) ==>
      s[i].name == s[j].name
  }

  /** An order that tells the names apart leaves one way to sort them. */
  lemma {:induction false} SameMembersSameList(a: seq<Entry>, b: seq<Entry>, le: (string, string) -> bool)
    requires SortedByName(a, le) && SortedByName(b, le) && UniqueNames(a) && UniqueNames(b) && TellsApart(le, a)
    requires forall e :: e in a <==> e in b
    ensures a == b
  {
    assert b != [] ==> b[0] in b;
    if a != [] {
      FirstIsFirst(a, b, le);
      forall e
        ensures e in a[1..] <==> e in b[1..]
      {
        InRest(a, e);
        InRest(b, e);
      }
      SameMembersSameList(a[1..], b[1..], le);
      assert a == [a[0]] + a[1..] && b == [b[0]] + b[1..];
    }
  }

  lemma {:induction false} FirstIsFirst(a: seq<Entry>, b: seq<Entry>, le: (string, string) -> bool)
    requires SortedByName(a, le) && SortedByName(b, le) && UniqueNames(a) && TellsApart(le, a)
    requires a != [] && forall e :: e in a <==> e in b
    ensures b != [] && a[0] == b[0]
  {
    assert forall i :: 0 < i < |a| ==> le(a[0].name, a[i].name);
    assert forall i :: 0 < i < |b| ==> le(b[0].name, b[i].name);
    assert a[0] in b;
    var k :| 0 <= k < |b| && b[k] == a[0];
    assert b[0] in a;
    var l :| 0 <= l < |a| && a[l] == b[0];
  }

  lemma {:induction false} InRest(s: seq<Entry>, e: Entry)
    requires s != [] && UniqueNames(s)
    ensures e in s[1..] <==> e in s && e != s[0]
  {
    if e in s && e != s[0] {
      var k :| 0 <= k < |s| && s[k] == e;
      assert s[1..][k - 1] == e;
    }
    if e in s[1..] {
      var k :| 0 <= k < |s| - 1 && s[1..][k] == e;
      assert s[k + 1] == e;
    }
  }

  /** Nor does it show in the list: the members are the same, and the list is when the order by
      which it is sorted tells their names apart. */
  lemma {:induction false} AgentOrderNeverShows(fleet: seq<FleetSession>, sessions: seq<Setting>,
                                                a: seq<Setting>, b: seq<Setting>, oracles: seq<Oracle>,
                                                births: map<string, Birth>, le: (string, string) -> bool,
                                                x: seq<Entry>, y: seq<Entry>)
    requires DistinctKeys(a) && DistinctKeys(b)
    requires forall s :: s in a <==> s in b
    requires IsManifest(x, RegistriesOf(fleet, sessions, a, oracles), births, le)
    requires IsManifest(y, RegistriesOf(fleet, sessions, b, oracles), births, le)
    ensures forall e :: e in x <==> e in y
    ensures (forall e, f :: e in x && f in x && le(e.name, f.name) && le(f.name, e.name) ==> e.name == f.name) ==>
              x == y
  {
    hide Expected, IsKnown, RegistriesOf, DistinctKeys, SortedByName, UniqueNames, BirthFor;
    forall n { AgentOrderIsIrrelevant(fleet, sessions, a, b, oracles, n); }
    if forall e, f :: e in x && f in x && le(e.name, f.name) && le(f.name, e.name) ==> e.name == f.name {
      SameMembersSameList(x, y, le);
    }
  }

  /** The documented order of nodes, agent before fleet before cache, with a short agent key
      before a suffixed one. */
  function DocumentedNode(r: Registries, n: string): Option<string> {
    Or(Or(ValueAt(r.shorts, n), FirstValueAt(r.suffixes, n + SUFFIX)),
       Or(if InFleet(r.windows, n) then Some("local") else None, FirstInOracles(r.oracles, n, ORACLE_NODE)))
  }

  /** The loader follows the documented order except for a fleet oracle whose only agent key is
      a suffixed one with another node: there the fleet's "local" stays. */
  lemma DocumentedOrderHoldsUnless(r: Registries, n: string)
    ensures Expected(r, n).node == DocumentedNode(r, n) <==>
            !(InFleet(r.windows, n) && ValueAt(r.shorts, n) == None
              && FirstValueAt(r.suffixes, n + SUFFIX) !in {None, Some("local")})
  {
  }

  // ----- the asynchronous loader adds worktree facts

  predicate OfTree(wt: WorktreeInfo, n: string) {
    n != "" && OracleNameFromWorktree(wt) == Some(n)
  }

  predicate InTrees(ts: seq<WorktreeInfo>, n: string) {
    exists i :: 0 <= i < |ts| && OfTree(ts[i], n)
  }

  function FirstTreePath(ts: seq<WorktreeInfo>, n: string): Option<string> {
    if ts == [] then None
    else
      var last := ts[|ts| - 1];
      Or(FirstTreePath(ts[..|ts| - 1], n), if OfTree(last, n) then Text(last.path) else None)
  }

  /** An entry with the worktrees folded in: only `sources` and an unset path can change. */
  function WithTrees(e: Entry, ts: seq<WorktreeInfo>): Entry {
    if InTrees(ts, e.name)
    then AddSource(e, Worktree).(localPath := Or(e.localPath, FirstTreePath(ts, e.name)))
    else e
  }

  ghost predicate TreesMerged(byName: map<string, Entry>, base: map<string, Entry>, ts: seq<WorktreeInfo>) {
    forall n :: (n in byName <==> n in base || InTrees(ts, n))
             && (n in byName ==> byName[n] == WithTrees(Ensure(base, n), ts))
  }

  lemma TreesAppend(ts: seq<WorktreeInfo>, wt: WorktreeInfo, n: string)
    ensures InTrees(ts + [wt], n) <==> InTrees(ts, n) || OfTree(wt, n)
    ensures FirstTreePath(ts + [wt], n) == Or(FirstTreePath(ts, n), if OfTree(wt, n) then Text(wt.path) else None)
  {
    assert (ts + [wt])[..|ts|] == ts;
    assert (ts + [wt])[|ts|] == wt;
    if InTrees(ts, n) {
      var i :| 0 <= i < |ts| && OfTree(ts[i], n);
      assert (ts + [wt])[i] == ts[i];
    }
  }

  lemma {:induction false} NoTreeNoPath(ts: seq<WorktreeInfo>, n: string)
    requires !InTrees(ts, n)
    ensures FirstTreePath(ts, n) == None
  {
    if ts != [] {
      var init := ts[..|ts| - 1];
      assert forall i :: 0 <= i < |init| ==> init[i] == ts[i];
      NoTreeNoPath(init, n);
    }
  }

  lemma TreeStepAt(e: Entry, ts: seq<WorktreeInfo>, wt: WorktreeInfo)
    ensures WithTrees(e, ts + [wt])
            == if OfTree(wt, e.name)
               then AddSource(WithTrees(e, ts), Worktree).(localPath := Or(WithTrees(e, ts).localPath, Text(wt.path)))
               else WithTrees(e, ts)
  {
    hide InTrees, FirstTreePath, OfTree;
    TreesAppend(ts, wt, e.name);
    if !InTrees(ts, e.name) { NoTreeNoPath(ts, e.name); }
  }

  lemma TreeStep(byName: map<string, Entry>, base: map<string, Entry>, ts: seq<WorktreeInfo>, wt: WorktreeInfo)
    requires TreesMerged(byName, base, ts)
    requires forall n :: n in base ==> base[n].name == n
    ensures !IsText(OracleNameFromWorktree(wt)) ==> TreesMerged(byName, base, ts + [wt])
    ensures IsText(OracleNameFromWorktree(wt)) ==>
              var n := OracleNameFromWorktree(wt).value;
              var e := Ensure(byName, n);
              TreesMerged(byName[n := AddSource(e, Worktree).(localPath := Or(e.localPath, Text(wt.path)))], base,
                          ts + [wt])
  {
    hide InTrees, FirstTreePath, WithTrees, AddSource;
    forall n
      ensures InTrees(ts + [wt], n) <==> InTrees(ts, n) || OfTree(wt, n)
      ensures Ensure(base, n).name == n
      ensures n !in base && !InTrees(ts, n) ==> WithTrees(Ensure(base, n), ts) == Fresh(n)
    {
      TreesAppend(ts, wt, n);
      UntouchedByTrees(Ensure(base, n), ts);
    }
    forall n
      ensures WithTrees(Ensure(base, n), ts + [wt])
              == if OfTree(wt, n)
                 then AddSource(WithTrees(Ensure(base, n), ts), Worktree)
                      .(localPath := Or(WithTrees(Ensure(base, n), ts).localPath, Text(wt.path)))
                 else WithTrees(Ensure(base, n), ts)
    {
      TreeStepAt(Ensure(base, n), ts, wt);
    }
  }

  lemma UntouchedByTrees(e: Entry, ts: seq<WorktreeInfo>)
    ensures !InTrees(ts, e.name) ==> WithTrees(e, ts) == e
    ensures WithTrees(e, ts).name == e.name
  {
  }

  /** The manifest with worktrees: every base entry, changed only by the worktrees of its oracle,
      and one entry for every oracle that only worktrees know. A failed scan changes nothing. */
  method LoadManifestAsync(base: seq<Entry>, scan: Option<seq<WorktreeInfo>>, le: (string, string) -> bool)
    returns (entries: seq<Entry>)
    requires IsOrder(le) && UniqueNames(base)
    ensures scan == None ==> entries == base
    ensures scan.Some? ==>
              && UniqueNames(entries) && SortedByName(entries, le)
              && (forall b :: b in base ==> WithTrees(b, scan.value) in entries)
              && (forall e :: e in entries ==>
                    || (exists b :: b in base && e == WithTrees(b, scan.value))
                    || (!NameIn(base, e.name) && InTrees(scan.value, e.name)
                        && e == WithTrees(Fresh(e.name), scan.value)))
              && (forall n :: InTrees(scan.value, n) ==> NameIn(entries, n))
  {
    if scan == None {
      return base;
    }
    var table := TableOf(base);
    var byName := table;
    var ts := scan.value;
    NoTreesYet(table);
    for i := 0 to |ts|
      invariant TreesMerged(byName, table, ts[..i])
    {
      hide TreesMerged;
      TreeStep(byName, table, ts[..i], ts[i]);
      assert ts[..i + 1] == ts[..i] + [ts[i]];
      var name := OracleNameFromWorktree(ts[i]);
      if !IsText(name) {
        continue;
      }
      var e := Ensure(byName, name.value);
      var localPath := e.localPath;
      if localPath == None && IsText(ts[i].path) { localPath := ts[i].path; }
      e := AddSource(e, Worktree).(localPath := localPath);
      byName := byName[name.value := e];
    }
    assert ts[..|ts|] == ts;
    MergedTreesKeepNames(byName, table, ts);
    entries := SortedValues(byName, le);
    EntriesAreMerged(entries, byName, table, base, ts);
  }

  lemma NoTreesYet(table: map<string, Entry>)
    ensures TreesMerged(table, table, [])
  {
  }

  lemma MergedTreesKeepNames(byName: map<string, Entry>, table: map<string, Entry>, ts: seq<WorktreeInfo>)
    requires TreesMerged(byName, table, ts)
    requires forall n :: n in table ==> table[n].name == n
    ensures forall n :: n in byName ==> byName[n].name == n
  {
    forall n | n in byName ensures byName[n].name == n { UntouchedByTrees(Ensure(table, n), ts); }
  }

  lemma EntriesAreMerged(entries: seq<Entry>, byName: map<string, Entry>, table: map<string, Entry>, base: seq<Entry>,
                         ts: seq<WorktreeInfo>)
    requires TreesMerged(byName, table, ts)
    requires forall e :: e in entries <==> e.name in byName && byName[e.name] == e
    requires forall n :: n in byName ==> byName[n].name == n
    requires forall n :: n in table ==> table[n].name == n && table[n] in base
    requires forall b :: b in base ==> b.name in table && table[b.name] == b
    ensures forall b :: b in base ==> WithTrees(b, ts) in entries
    ensures forall e :: e in entries ==>
              || (exists b :: b in base && e == WithTrees(b, ts))
              || (!NameIn(base, e.name) && InTrees(ts, e.name) && e == WithTrees(Fresh(e.name), ts))
    ensures forall n :: InTrees(ts, n) ==> NameIn(entries, n)
  {
    hide WithTrees, InTrees;
    forall b | b in base
      ensures WithTrees(b, ts) in entries
    {
      UntouchedByTrees(b, ts);
      assert byName[b.name] == WithTrees(b, ts);
    }
    forall e | e in entries
      ensures || (exists b :: b in base && e == WithTrees(b, ts))
              || (!NameIn(base, e.name) && InTrees(ts, e.name) && e == WithTrees(Fresh(e.name), ts))
    {
      if e.name in table {
        assert table[e.name] in base && e == WithTrees(table[e.name], ts);
      }
    }
    forall n | InTrees(ts, n)
      ensures NameIn(entries, n)
    {
      assert byName[n] in entries;
    }
  }

  method TableOf(base: seq<Entry>) returns (table: map<string, Entry>)
    requires UniqueNames(base)
    ensures forall n :: n in table ==> table[n].name == n && table[n] in base
    ensures forall b :: b in base ==> b.name in table && table[b.name] == b
  {
    table := map[];
    for i := 0 to |base|
      invariant forall n :: n in table ==> table[n].name == n && table[n] in base[..i]
      invariant forall b :: b in base[..i] ==> b.name in table && table[b.name] == b
    {
      assert base[..i + 1] == base[..i] + [base[i]];
      assert forall b :: b in base[..i] ==> b.name != base[i].name;
      table := table[base[i].name := base[i]];
    }
    assert base[..|base|] == base;
  }
}
