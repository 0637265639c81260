/** The chain of one-shot migrations that re-enables default-active plugins when a configuration
    is loaded. Each migration fires once, leaves a marker, and may be opened by earlier markers. */
module ConfigMigration {
  import opened Wrappers

  datatype Settings = Settings(disabled: seq<string>, migrations: map<string, bool>)

  /** One migration: its marker and the plugins it re-enables. */
  datatype Step = Step(marker: string, names: set<string>)

  predicate Marked(s: Settings, marker: string) {
    marker in s.migrations && s.migrations[marker]
  }

  predicate DistinctMarkers(steps: seq<Step>) {
    forall i, j :: 0 <= i < j < |steps| ==> steps[i].marker != steps[j].marker
  }

  /** The entries of a list that are (or are not) among `names`, in order. */
  function Select(list: seq<string>, names: set<string>, among: bool): (r: seq<string>)
    ensures |r| <= |list|
    ensures forall x :: x in r <==> x in list && (x in names) == among
  {
    if list == [] then []
    else
      var rest := Select(list[..|list| - 1], names, among);
      if (list[|list| - 1] in names) == among then rest + [list[|list| - 1]] else rest
  }

  // ----- one step and the chain

  /** The list looks generated by the old profile bug: it is long, or an earlier step healed it. */
  predicate StaleProfile(steps: seq<Step>, i: nat, s: Settings)
    requires i < |steps|
  {
    |s.disabled| >= 20 || exists j :: 0 <= j < i && Marked(s, steps[j].marker)
  }

  predicate Fires(steps: seq<Step>, i: nat, s: Settings)
    requires i < |steps|
  {
    && !Marked(s, steps[i].marker)
    && |Select(s.disabled, steps[i].names, true)| >= (if i == 0 then 5 else 1)
    && StaleProfile(steps, i, s)
  }

  function Apply(steps: seq<Step>, i: nat, s: Settings): Settings
    requires i < |steps|
  {
    if Fires(steps, i, s)
    then Settings(Select(s.disabled, steps[i].names, false), s.migrations[steps[i].marker := true])
    else s
  }

  /** The first `n` steps, in order. */
  function Chain(steps: seq<Step>, n: nat, s: Settings): Settings
    requires n <= |steps|
  {
    if n == 0 then s else Apply(steps, n - 1, Chain(steps, n - 1, s))
  }

  function Migrated(steps: seq<Step>, s: Settings): Settings {
    Chain(steps, |steps|, s)
  }

  // ----- running the chain again

  lemma {:induction false} SelectOfSelect(list: seq<string>, a: set<string>, b: set<string>, among: bool)
    ensures |Select(Select(list, a, false), b, among)| <= |Select(list, b, among)|
    ensures Select(Select(list, a, false), b, false) == Select(list, a + b, false)
  {
    if list != [] {
      var init, last := list[..|list| - 1], list[|list| - 1];
      SelectOfSelect(init, a, b, among);
      if last !in a {
        var r := Select(list, a, false);
        assert r[..|r| - 1] == Select(init, a, false);
      }
    }
  }

  /** A step that cannot fire still cannot fire once a later step has been applied. */
  lemma LaterStepsDoNotReopen(steps: seq<Step>, i: nat, j: nat, s: Settings)
    requires DistinctMarkers(steps) && i < j < |steps| && !Fires(steps, i, s)
    ensures !Fires(steps, i, Apply(steps, j, s))
  {
    SelectOfSelect(s.disabled, steps[j].names, steps[i].names, true);
    var t := Apply(steps, j, s);
    assert forall l :: 0 <= l < j ==> Marked(t, steps[l].marker) == Marked(s, steps[l].marker);
  }

  /** After the first `k` steps none of them can fire again. */
  lemma {:induction false} DoneStepsAreDone(steps: seq<Step>, i: nat, k: nat, s: Settings)
    requires DistinctMarkers(steps) && i < k <= |steps|
    ensures !Fires(steps, i, Chain(steps, k, s))
    decreases k
  {
    if i < k - 1 {
      DoneStepsAreDone(steps, i, k - 1, s);
      LaterStepsDoNotReopen(steps, i, k - 1, Chain(steps, k - 1, s));
    }
  }

  /** Starting over from the result of the first `k` steps, a run ends where the whole run ends:
      whichever step's result was the last to be saved, loading it again loses nothing. */
  lemma {:induction false} ResumedRunAgrees(steps: seq<Step>, k: nat, n: nat, s: Settings)
    requires DistinctMarkers(steps) && k <= |steps| && n <= |steps|
    ensures Chain(steps, n, Chain(steps, k, s)) == Chain(steps, if n < k then k else n, s)
    decreases n
  {
    hide Fires;
    if n > 0 {
      ResumedRunAgrees(steps, k, n - 1, s);
      if n <= k {
        DoneStepsAreDone(steps, n - 1, k, s);
      }
    }
  }

  /** Migrating twice is migrating once, for every configuration. */
  lemma MigratedTwice(steps: seq<Step>, s: Settings)
    requires DistinctMarkers(steps)
    ensures Migrated(steps, Migrated(steps, s)) == Migrated(steps, s)
  {
    ResumedRunAgrees(steps, |steps|, |steps|, s);
  }

  // ----- what the chain removes

  /** The names a step re-enables: its own, if it fires. */
  function Healed(steps: seq<Step>, i: nat, s: Settings): set<string>
    requires i < |steps|
  {
    if Fires(steps, i, s) then steps[i].names else {}
  }

  /** The names re-enabled by the first `n` steps: those of the steps that fire when reached. */
  function Reenabled(steps: seq<Step>, n: nat, s: Settings): set<string>
    requires n <= |steps|
  {
    if n == 0 then {} else Reenabled(steps, n - 1, s) + Healed(steps, n - 1, Chain(steps, n - 1, s))
  }

  lemma {:induction false} SelectOfNothing(list: seq<string>)
    ensures Select(list, {}, false) == list
  {
    if list != [] { SelectOfNothing(list[..|list| - 1]); }
  }

  lemma ApplyDrops(steps: seq<Step>, i: nat, s: Settings)
    requires i < |steps|
    ensures Apply(steps, i, s).disabled == Select(s.disabled, Healed(steps, i, s), false)
  {
    hide Select;
    SelectOfNothing(s.disabled);
  }

  /** The chain drops the names of the steps that fire, each wherever it stands in the list, and
      nothing else: the other entries keep their order and their repetitions. */
  lemma {:induction false} ChainDropsExactly(steps: seq<Step>, n: nat, s: Settings)
    requires n <= |steps|
    ensures Chain(steps, n, s).disabled == Select(s.disabled, Reenabled(steps, n, s), false)
  {
    hide Apply, Healed, Select;
    if n == 0 {
      SelectOfNothing(s.disabled);
    } else {
      ChainDropsExactly(steps, n - 1, s);
      ApplyDrops(steps, n - 1, Chain(steps, n - 1, s));
      SelectOfSelect(s.disabled, Reenabled(steps, n - 1, s), Healed(steps, n - 1, Chain(steps, n - 1, s)), false);
    }
  }

  lemma MarkedByApply(steps: seq<Step>, i: nat, s: Settings, m: string)
    requires i < |steps|
    ensures Marked(Apply(steps, i, s), m) <==> Marked(s, m) || (steps[i].marker == m && Fires(steps, i, s))
  {
    hide Fires, Select;
  }

  /** Every marker that is set, or whose step fires, is set afterwards; no other one is. */
  lemma {:induction false} ChainMarksExactly(steps: seq<Step>, n: nat, s: Settings, m: string)
    requires n <= |steps|
    ensures Marked(Chain(steps, n, s), m) <==>
            Marked(s, m) || exists i :: 0 <= i < n && steps[i].marker == m && Fires(steps, i, Chain(steps, i, s))
  {
    hide Fires, Select;
    if n > 0 {
      ChainMarksExactly(steps, n - 1, s, m);
      MarkedByApply(steps, n - 1, Chain(steps, n - 1, s), m);
    }
  }

  /** A short list on which no migration has run is somebody's own choice: it is left alone. */
  lemma {:induction false} ShortManualListIsKept(steps: seq<Step>, n: nat, s: Settings)
    requires n <= |steps| && |s.disabled| < 20 && forall i :: 0 <= i < |steps| ==> !Marked(s, steps[i].marker)
    ensures Chain(steps, n, s) == s
  {
    if n > 0 { ShortManualListIsKept(steps, n - 1, s); }
  }

  /** Once the first marker is set, by this run or an earlier one, the chain leaves no name of a
      later step whose marker was not yet set. */
  lemma {:induction false} HealedListIsClean(steps: seq<Step>, n: nat, s: Settings, i: nat, name: string)
    requires DistinctMarkers(steps) && 0 < i < n <= |steps| && name in steps[i].names
    requires Marked(s, steps[0].marker) || Fires(steps, 0, s)
    requires !Marked(s, steps[i].marker)
    ensures name !in Chain(steps, n, s).disabled
    decreases n
  {
    if i < n - 1 {
      HealedListIsClean(steps, n - 1, s, i, name);
    } else {
      ChainMarksExactly(steps, i, s, steps[0].marker);
      ChainMarksExactly(steps, i, s, steps[i].marker);
      assert Chain(steps, 0, s) == s;
      var t := Chain(steps, i, s);
      if name in t.disabled {
        assert name in Select(t.disabled, steps[i].names, true);
        assert Fires(steps, i, t);
      }
    }
  }

  /** `name` is disabled, and every step that could re-enable it has had its turn. */
  predicate DisabledAgain(steps: seq<Step>, name: string, s: Settings) {
    name in s.disabled && forall i :: 0 <= i < |steps| && name in steps[i].names ==> Marked(s, steps[i].marker)
  }

  /** A name disabled again after its marker is set stays disabled through the chain. */
  lemma {:induction false} DisabledAgainStays(steps: seq<Step>, n: nat, name: string, s: Settings)
    requires n <= |steps| && DisabledAgain(steps, name, s)
    ensures DisabledAgain(steps, name, Chain(steps, n, s))
  {
    if n > 0 { DisabledAgainStays(steps, n - 1, name, s); }
  }

  // ----- loads and saves over the life of a configuration file

  /** What the file holds, and what the running process has cached of it. */
  datatype World = World(disk: Settings, cached: Option<Settings>)

  /** The first `n` steps on a loaded configuration: each one that fires writes the result to the
      file, and `writes` says which of these writes succeed. */
  function LoadSteps(steps: seq<Step>, n: nat, w: World, writes: seq<bool>): (r: World)
    requires n <= |steps| && w.cached.Some?
    ensures r.cached.Some?
  {
    if n == 0 then w
    else
      var v := LoadSteps(steps, n - 1, w, writes);
      var t := Apply(steps, n - 1, v.cached.value);
      World(if Fires(steps, n - 1, v.cached.value) && n - 1 < |writes| && writes[n - 1] then t else v.disk, Some(t))
  }

  function Loaded(steps: seq<Step>, w: World, writes: seq<bool>): (r: World)
    ensures r.cached.Some?
  {
    if w.cached.Some? then w else LoadSteps(steps, |steps|, World(w.disk, Some(w.disk)), writes)
  }

  /** Merges an update into the configuration and writes it; a failing write leaves all as loaded. */
  function Saved(steps: seq<Step>, w: World, update: Option<seq<string>>, ok: bool, before: seq<bool>,
                 after: seq<bool>): (r: World)
    ensures r.cached.Some?
  {
    var v := Loaded(steps, w, before);
    if !ok then v
    else
      var merged := if update.Some? then v.cached.value.(disabled := update.value) else v.cached.value;
      Loaded(steps, World(merged, None), after)
  }

  datatype Event =
    | Load(writes: seq<bool>)
    | Save(update: Option<seq<string>>, ok: bool, before: seq<bool>, after: seq<bool>)
    | Restart

  function Next(steps: seq<Step>, w: World, e: Event): World {
    match e
    case Load(writes) => Loaded(steps, w, writes)
    case Save(update, ok, before, after) => Saved(steps, w, update, ok, before, after)
    case Restart => World(w.disk, None)
  }

  function Run(steps: seq<Step>, w: World, es: seq<Event>): World {
    if es == [] then w else Next(steps, Run(steps, w, es[..|es| - 1]), es[|es| - 1])
  }

  /** The file holds the result of some number of the steps, whatever writes failed. */
  lemma {:induction false} FileHoldsAPrefix(steps: seq<Step>, n: nat, s: Settings, writes: seq<bool>)
    returns (k: nat)
    requires n <= |steps|
    ensures k <= n
    ensures LoadSteps(steps, n, World(s, Some(s)), writes) == World(Chain(steps, k, s), Some(Chain(steps, n, s)))
  {
    if n == 0 {
      k := 0;
    } else {
      k := FileHoldsAPrefix(steps, n - 1, s, writes);
      if Fires(steps, n - 1, Chain(steps, n - 1, s)) && n - 1 < |writes| && writes[n - 1] { k := n; }
    }
  }

  /** Between saves, `s` is what was last written by hand. */
  ghost predicate Settled(steps: seq<Step>, s: Settings, w: World) {
    && (exists k :: 0 <= k <= |steps| && w.disk == Chain(steps, k, s))
    && (w.cached.Some? ==> w.cached.value == Migrated(steps, s))
  }

  lemma LoadAgrees(steps: seq<Step>, s: Settings, w: World, writes: seq<bool>)
    requires DistinctMarkers(steps) && Settled(steps, s, w)
    ensures Settled(steps, s, Loaded(steps, w, writes))
    ensures Loaded(steps, w, writes).cached == Some(Migrated(steps, s))
  {
    hide Apply, Chain;
    if w.cached.None? {
      var k :| 0 <= k <= |steps| && w.disk == Chain(steps, k, s);
      var l := FileHoldsAPrefix(steps, |steps|, w.disk, writes);
      ResumedRunAgrees(steps, k, |steps|, s);
      ResumedRunAgrees(steps, k, l, s);
    }
  }

  /** However many processes load the file, and whichever of their writes fail, every one of them
      sees the same configuration: the migration of what was there at first. */
  lemma {:induction false} LoadsAgree(steps: seq<Step>, w: World, es: seq<Event>, writes: seq<bool>)
    requires DistinctMarkers(steps) && w.cached.None?
    requires forall i :: 0 <= i < |es| ==> !es[i].Save?
    ensures Settled(steps, w.disk, Run(steps, w, es))
    ensures Loaded(steps, Run(steps, w, es), writes).cached == Some(Migrated(steps, w.disk))
  {
    if es == [] {
      assert Chain(steps, 0, w.disk) == w.disk;
    } else {
      var e := es[|es| - 1];
      LoadsAgree(steps, w, es[..|es| - 1], if e.Load? then e.writes else []);
      LoadAgrees(steps, w.disk, Run(steps, w, es[..|es| - 1]), if e.Load? then e.writes else []);
    }
    LoadAgrees(steps, w.disk, Run(steps, w, es), writes);
  }

  predicate DisabledEverywhere(steps: seq<Step>, name: string, w: World) {
    DisabledAgain(steps, name, w.disk) && (w.cached.Some? ==> DisabledAgain(steps, name, w.cached.value))
  }

  lemma LoadKeepsDisabled(steps: seq<Step>, name: string, w: World, writes: seq<bool>)
    requires DisabledEverywhere(steps, name, w)
    ensures DisabledEverywhere(steps, name, Loaded(steps, w, writes))
  {
    if w.cached.None? {
      var k := FileHoldsAPrefix(steps, |steps|, w.disk, writes);
      DisabledAgainStays(steps, k, name, w.disk);
      DisabledAgainStays(steps, |steps|, name, w.disk);
    }
  }

  lemma RelistedStays(steps: seq<Step>, name: string, s: Settings, list: seq<string>)
    requires DisabledAgain(steps, name, s) && name in list
    ensures DisabledAgain(steps, name, s.(disabled := list))
  {
  }

  /** A name disabled again after its marker is set stays disabled, in the file and in memory,
      over any further loads, restarts and saves that do not themselves enable it. */
  lemma {:induction false} DisabledAgainForGood(steps: seq<Step>, name: string, w: World, es: seq<Event>)
    requires DisabledEverywhere(steps, name, w)
    requires forall i :: 0 <= i < |es| && es[i].Save? && es[i].update.Some? ==> name in es[i].update.value
    ensures DisabledEverywhere(steps, name, Run(steps, w, es))
  {
    hide Loaded, DisabledAgain;
    if es != [] {
      var init, e := es[..|es| - 1], es[|es| - 1];
      DisabledAgainForGood(steps, name, w, init);
      var v := Run(steps, w, init);
      match e {
        case Load(writes) => LoadKeepsDisabled(steps, name, v, writes);
        case Restart =>
        case Save(update, ok, before, after) =>
          LoadKeepsDisabled(steps, name, v, before);
          var l := Loaded(steps, v, before);
          var merged := if update.Some? then l.cached.value.(disabled := update.value) else l.cached.value;
          if update.Some? { RelistedStays(steps, name, l.cached.value, update.value); }
          LoadKeepsDisabled(steps, name, World(merged, None), after);
      }
    }
  }

  /** Disabling a name whose markers are set in the running configuration is for good: it is still
      disabled, in the file and in memory, after any loads, restarts and saves that keep it. */
  lemma DisablingAgainHolds(steps: seq<Step>, name: string, w: World, list: seq<string>, before: seq<bool>,
                            after: seq<bool>, es: seq<Event>)
    requires name in list
    requires forall i :: 0 <= i < |steps| && name in steps[i].names ==>
               Marked(Loaded(steps, w, before).cached.value, steps[i].marker)
    requires forall i :: 0 <= i < |es| && es[i].Save? && es[i].update.Some? ==> name in es[i].update.value
    ensures var end := Run(steps, Saved(steps, w, Some(list), true, before, after), es);
            && name in end.disk.disabled
            && (end.cached.Some? ==> name in end.cached.value.disabled)
            && forall i :: 0 <= i < |steps| && name in steps[i].names ==> Marked(end.disk, steps[i].marker)
  {
    var merged := Loaded(steps, w, before).cached.value.(disabled := list);
    LoadKeepsDisabled(steps, name, World(merged, None), after);
    DisabledAgainForGood(steps, name, Saved(steps, w, Some(list), true, before, after), es);
  }

  // ----- the configuration of this program

  /** The six migrations, oldest first. */
  const STEPS: seq<Step> := [
    Step("defaultActivePlugins1500",
         {"team", "fleet", "panes", "peers", "pair", "tmux", "kill", "plugin", "doctor", "inbox"}),
    Step("defaultActivePlugins1514", {"split"}),
    Step("defaultActivePlugins1523", {"shellenv"}),
    Step("defaultActivePlugins1524", {"completions"}),
    Step("defaultActivePlugins1531", {"learn", "find", "talk-to", "project", "workon", "cleanup"}),
    Step("defaultActivePlugins1854", {"view"})
  ]

  lemma MarkersAreDistinct()
    ensures DistinctMarkers(STEPS)
  {
    var p := |"defaultActivePlugins"|;
    assert STEPS[0].marker[p..] == "1500" && STEPS[1].marker[p..] == "1514" && STEPS[2].marker[p..] == "1523";
    assert STEPS[3].marker[p..] == "1524" && STEPS[4].marker[p..] == "1531" && STEPS[5].marker[p..] == "1854";
    assert STEPS[0].marker[p + 2] == '0' && STEPS[1].marker[p + 3] == '4' && STEPS[2].marker[p + 3] == '3';
  }

  /** The names that some migration re-enables. */
  const DEFAULT_ACTIVE := {
    "team", "fleet", "panes", "peers", "pair", "tmux", "kill", "plugin", "doctor", "inbox", "split", "shellenv",
    "completions", "learn", "find", "talk-to", "project", "workon", "cleanup", "view"
  }

  lemma {:induction false} StepsReenable(name: string)
    ensures name in DEFAULT_ACTIVE <==> exists i :: 0 <= i < |STEPS| && name in STEPS[i].names
  {
    assert name in DEFAULT_ACTIVE <==>
           || name in STEPS[0].names || name in STEPS[1].names || name in STEPS[2].names
           || name in STEPS[3].names || name in STEPS[4].names || name in STEPS[5].names;
  }

  /** An unmarked configuration that disables at least 20 plugins, five of them of the first step's,
      is left with no default-active name, and with all its other names. */
  lemma {:induction false} StaleProfileIsHealed(s: Settings, name: string)
    requires |s.disabled| >= 20 && |Select(s.disabled, STEPS[0].names, true)| >= 5
    requires forall i :: 0 <= i < |STEPS| ==> !Marked(s, STEPS[i].marker)
    ensures name in Migrated(STEPS, s).disabled <==> name in s.disabled && name !in DEFAULT_ACTIVE
  {
    hide Select;
    MarkersAreDistinct();
    StepsReenable(name);
    ChainDropsExactly(STEPS, |STEPS|, s);
    ReenabledAre(STEPS, |STEPS|, s, name);
    assert Fires(STEPS, 0, s);
    if name in DEFAULT_ACTIVE {
      var i :| 0 <= i < |STEPS| && name in STEPS[i].names;
      if i > 0 { HealedListIsClean(STEPS, |STEPS|, s, i, name); } else { FirstStepIsClean(s, name); }
    }
  }

  lemma {:induction false} ReenabledAre(steps: seq<Step>, n: nat, s: Settings, name: string)
    requires n <= |steps|
    ensures name in Reenabled(steps, n, s) ==> exists i :: 0 <= i < n && name in steps[i].names
  {
    hide Fires;
    if n > 0 { ReenabledAre(steps, n - 1, s, name); }
  }

  lemma {:induction false} FirstStepIsClean(s: Settings, name: string)
    requires Fires(STEPS, 0, s) && name in STEPS[0].names
    ensures name !in Migrated(STEPS, s).disabled
  {
    hide Select, Fires;
    assert Chain(STEPS, 0, s) == s;
    ChainDropsExactly(STEPS, |STEPS|, s);
    FirstIsReenabled(|STEPS|, s, name);
  }

  lemma {:induction false} FirstIsReenabled(n: nat, s: Settings, name: string)
    requires 0 < n <= |STEPS| && Fires(STEPS, 0, s) && name in STEPS[0].names
    ensures name in Reenabled(STEPS, n, s)
  {
    hide Fires;
    if n > 1 { FirstIsReenabled(n - 1, s, name); }
  }

  /** The configuration file and the copy of it that the process keeps. */
  class Config {
    var disk: Settings
    var loaded: bool
    var disabledPlugins: seq<string>
    var migrations: map<string, bool>

    ghost function View(): World
      reads this
    {
      World(disk, if loaded then Some(Settings(disabledPlugins, migrations)) else None)
    }

    /** Writes the loaded configuration to the file, if the write succeeds. */
    method PersistLoaded(ok: bool)
      requires loaded
      modifies this`disk
      ensures disk == if ok then Settings(disabledPlugins, migrations) else old(disk)
    {
      if ok {
        disk := Settings(disabledPlugins, migrations);
      }
    }

    predicate HasMarker(marker: string)
      reads this
    {
      marker in migrations && migrations[marker]
    }

    /** The first migration: it needs a long list with several of its names. */
    method MaybeMigrateDefaultActivePlugins(ok: bool)
      requires loaded
      modifies this`disk, this`disabledPlugins, this`migrations
      ensures View() == LoadSteps(STEPS, 1, old(View()), [ok])
    {
      assert old(View()) == LoadSteps(STEPS, 0, old(View()), [ok]);
      var step := STEPS[0];
      if HasMarker(step.marker) { return; }
      if |disabledPlugins| < 20 { return; }
      if |Select(disabledPlugins, step.names, true)| < 5 { return; }
      disabledPlugins := Select(disabledPlugins, step.names, false);
      migrations := migrations[step.marker := true];
      PersistLoaded(ok);
    }

    /** A later migration: it needs one of its names, and a long list or an earlier marker. */
    method MaybeMigrateFollowUp(i: nat, ok: bool)
      requires loaded && 0 < i < |STEPS|
      modifies this`disk, this`disabledPlugins, this`migrations
      ensures loaded
      ensures var was := old(Settings(disabledPlugins, migrations));
              var now := Settings(disabledPlugins, migrations);
              now == Apply(STEPS, i, was) && disk == if ok && Fires(STEPS, i, was) then now else old(disk)
    {
      var step := STEPS[i];
      if HasMarker(step.marker) { return; }
      if |Select(disabledPlugins, step.names, true)| == 0 { return; }
      var staleProfileShape := |disabledPlugins| >= 20;
      var j := 0;
      while !staleProfileShape && j < i
        invariant 0 <= j <= i
        invariant staleProfileShape ==> StaleProfile(STEPS, i, Settings(disabledPlugins, migrations))
        invariant !staleProfileShape ==> |disabledPlugins| < 20
        invariant !staleProfileShape ==> forall l :: 0 <= l < j ==> !HasMarker(STEPS[l].marker)
      {
        staleProfileShape := HasMarker(STEPS[j].marker);
        j := j + 1;
      }
      if !staleProfileShape { return; }
      disabledPlugins := Select(disabledPlugins, step.names, false);
      migrations := migrations[step.marker := true];
      PersistLoaded(ok);
    }

    /** Loads the file, unless it is loaded already, and runs the migrations in order. */
    method LoadConfig(writes: seq<bool>)
      modifies this
      ensures loaded && View() == Loaded(STEPS, old(View()), writes)
      ensures View() == Next(STEPS, old(View()), Load(writes))
    {
      hide Fires, Apply;
      if loaded { return; }
      loaded, disabledPlugins, migrations := true, disk.disabled, disk.migrations;
      ghost var start := View();
      MaybeMigrateDefaultActivePlugins(|writes| > 0 && writes[0]);
      for i := 1 to |STEPS|
        invariant loaded && View() == LoadSteps(STEPS, i, start, writes)
      {
        MaybeMigrateFollowUp(i, i < |writes| && writes[i]);
      }
    }

    /** Merges an update into the configuration, writes it and loads it afresh; if the write fails
        the loaded configuration is kept as it was. */
    method SaveConfig(update: Option<seq<string>>, ok: bool, before: seq<bool>, after: seq<bool>)
      modifies this
      ensures loaded && View() == Saved(STEPS, old(View()), update, ok, before, after)
      ensures View() == Next(STEPS, old(View()), Save(update, ok, before, after))
    {
      LoadConfig(before);
      if !ok { return; }
      disk := Settings(if update.Some? then update.value else disabledPlugins, migrations);
      ResetConfig();
      LoadConfig(after);
    }

    /** Drops the loaded copy, as a new process starts without one. */
    method ResetConfig()
      modifies this`loaded
      ensures View() == old(View()).(cached := None) == Next(STEPS, old(View()), Restart)
    {
      loaded := false;
    }
  }
}
