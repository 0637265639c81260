/** The plugin dependency walk: a depth-first search over a dependency graph that
    may have cycles and dangling names, and the enable plan built from it. */
module PluginDependencies {

  datatype Plugin = Plugin(name: string, deps: seq<string>, disabled: bool)

  datatype Status = Status(disabled: seq<string>, missing: seq<string>)

  /** The name index. A later plugin of the same name replaces an earlier one. */
  function ByName(plugins: seq<Plugin>): map<string, Plugin> {
    if plugins == [] then map[]
    else
      var last := plugins[|plugins| - 1];
      ByName(plugins[..|plugins| - 1])[last.name := last]
  }

  /** The index has an entry for every listed name and no other: the last plugin of that name. */
  lemma {:induction false} LastOfANameCounts(plugins: seq<Plugin>, name: string)
    ensures name in ByName(plugins) <==> exists i :: 0 <= i < |plugins| && plugins[i].name == name
    ensures forall i :: 0 <= i < |plugins| && plugins[i].name == name
                        && (forall j :: i < j < |plugins| ==> plugins[j].name != name) ==>
              name in ByName(plugins) && ByName(plugins)[name] == plugins[i]
  {
    if plugins != [] {
      var init := plugins[..|plugins| - 1];
      LastOfANameCounts(init, name);
      assert forall i :: 0 <= i < |init| ==> init[i] == plugins[i];
    }
  }

  function Children(g: map<string, Plugin>, name: string): seq<string> {
    if name in g then g[name].deps else []
  }

  // ----- the graph vocabulary the contracts are written in

  ghost predicate ReachesIn(g: map<string, Plugin>, from: string, to: string, steps: nat)
    decreases steps
  {
    if steps == 0 then from == to
    else exists c :: c in Children(g, from) && ReachesIn(g, c, to, steps - 1)
  }

  ghost predicate Reaches(g: map<string, Plugin>, from: string, to: string) {
    exists steps: nat :: ReachesIn(g, from, to, steps)
  }

  /** `from` depends on `to` through one or more declared dependencies. */
  ghost predicate DependsOn(g: map<string, Plugin>, from: string, to: string) {
    exists c :: c in Children(g, from) && Reaches(g, c, to)
  }

  ghost predicate ReachableFrom(g: map<string, Plugin>, roots: seq<string>, to: string) {
    exists r :: r in roots && Reaches(g, r, to)
  }

  predicate IsDisabled(g: map<string, Plugin>, name: string) {
    name in g && g[name].disabled
  }

  predicate NoDuplicates(s: seq<string>) {
    forall i, j :: 0 <= i < j < |s| ==> s[i] != s[j]
  }

  /** Every disabled plugin that the `i`-th listed plugin transitively depends on is listed before it. */
  ghost predicate AfterItsNeeds(g: map<string, Plugin>, list: seq<string>, i: nat)
    requires i < |list|
  {
    forall d :: DependsOn(g, list[i], d) && IsDisabled(g, d) ==> d in list[..i]
  }

  ghost predicate DependenciesFirst(g: map<string, Plugin>, list: seq<string>) {
    forall i :: 0 <= i < |list| ==> AfterItsNeeds(g, list, i)
  }

  /** A listed plugin that does not depend on itself comes after what it needs. */
  ghost predicate OrderedOffCycles(g: map<string, Plugin>, list: seq<string>) {
    forall i :: 0 <= i < |list| && !DependsOn(g, list[i], list[i]) ==> AfterItsNeeds(g, list, i)
  }

  /** What the walk from `roots` has to report. */
  ghost predicate IsStatus(g: map<string, Plugin>, roots: seq<string>, st: Status) {
    && NoDuplicates(st.missing)
    && NoDuplicates(st.disabled)
    && (forall x :: x in st.missing <==> ReachableFrom(g, roots, x) && x !in g)
    && (forall x :: x in st.disabled <==> ReachableFrom(g, roots, x) && IsDisabled(g, x))
  }

  // ----- facts about reachability

  lemma ReachesSelf(g: map<string, Plugin>, x: string)
    ensures Reaches(g, x, x)
  {
    assert ReachesIn(g, x, x, 0);
  }

  lemma ChildReaches(g: map<string, Plugin>, x: string, c: string, to: string)
    requires c in Children(g, x) && Reaches(g, c, to)
    ensures Reaches(g, x, to)
  {
    var n: nat :| ReachesIn(g, c, to, n);
    assert ReachesIn(g, x, to, n + 1);
  }

  lemma {:induction false} ReachesInTrans(g: map<string, Plugin>, a: string, b: string, c: string, n: nat)
    requires ReachesIn(g, a, b, n) && Reaches(g, b, c)
    ensures Reaches(g, a, c)
    decreases n
  {
    if n != 0 {
      var k :| k in Children(g, a) && ReachesIn(g, k, b, n - 1);
      ReachesInTrans(g, k, b, c, n - 1);
      ChildReaches(g, a, k, c);
    }
  }

  lemma ReachesTrans(g: map<string, Plugin>, a: string, b: string, c: string)
    requires Reaches(g, a, b) && Reaches(g, b, c)
    ensures Reaches(g, a, c)
  {
    var n: nat :| ReachesIn(g, a, b, n);
    ReachesInTrans(g, a, b, c, n);
  }

  lemma DependsOnChild(g: map<string, Plugin>, a: string, b: string, c: string)
    requires DependsOn(g, a, b) && c in Children(g, b)
    ensures DependsOn(g, a, c)
  {
    var k :| k in Children(g, a) && Reaches(g, k, b);
    ReachesSelf(g, c);
    ChildReaches(g, b, c, c);
    ReachesTrans(g, k, b, c);
  }

  /** A set closed under declared dependencies contains everything reachable from its members. */
  lemma {:induction false} ClosedContains(g: map<string, Plugin>, s: set<string>, from: string, to: string, n: nat)
    requires forall v, c :: v in s && c in Children(g, v) ==> c in s
    requires from in s && ReachesIn(g, from, to, n)
    ensures to in s
    decreases n
  {
    if n != 0 {
      var k :| k in Children(g, from) && ReachesIn(g, k, to, n - 1);
      ClosedContains(g, s, k, to, n - 1);
    }
  }

  lemma ClosedContainsReachable(g: map<string, Plugin>, s: set<string>, roots: seq<string>, to: string)
    requires forall v, c :: v in s && c in Children(g, v) ==> c in s
    requires forall r :: r in roots ==> r in s
    requires ReachableFrom(g, roots, to)
    ensures to in s
  {
    var r :| r in roots && Reaches(g, r, to);
    var n: nat :| ReachesIn(g, r, to, n);
    ClosedContains(g, s, r, to, n);
  }

  /** From a finished name, a path that meets no open name stays among finished names. */
  lemma {:induction false} StaysFinished(g: map<string, Plugin>, finished: set<string>, open: set<string>,
                                         from: string, to: string, n: nat)
    requires forall v, c :: v in finished && c in Children(g, v) ==> c in finished + open
    requires forall v :: v in open ==> !Reaches(g, from, v)
    requires from in finished && ReachesIn(g, from, to, n)
    ensures to in finished
    decreases n
  {
    if n != 0 {
      var k :| k in Children(g, from) && ReachesIn(g, k, to, n - 1);
      ReachesSelf(g, k);
      ChildReaches(g, from, k, k);
      assert k in finished + open;
      forall v | v in open
        ensures !Reaches(g, k, v)
      {
        if Reaches(g, k, v) { ChildReaches(g, from, k, v); }
      }
      StaysFinished(g, finished, open, k, to, n - 1);
    }
  }

  /** The names a walk from `roots` can meet: finite, whatever the shape of the graph. */
  ghost function Mentioned(g: map<string, Plugin>, roots: seq<string>): set<string> {
    (set r | r in roots) + (set v, c | v in g && c in g[v].deps :: c)
  }

  lemma ReachableIsMentioned(g: map<string, Plugin>, roots: seq<string>, to: string)
    requires ReachableFrom(g, roots, to)
    ensures to in Mentioned(g, roots)
  {
    ClosedContainsReachable(g, Mentioned(g, roots), roots, to);
  }

  // ----- the walk

  /** `stack` holds the names whose visit has started and not ended. The others that
      were seen are finished: they are reported, and their dependencies were seen. */
  ghost predicate WalkInv(g: map<string, Plugin>, seen: set<string>, st: Status, stack: set<string>,
                          universe: set<string>) {
    && stack <= seen <= universe
    && (forall v, c :: v in seen - stack && c in Children(g, v) ==> c in seen)
    && NoDuplicates(st.missing)
    && NoDuplicates(st.disabled)
    && (forall x :: x in st.missing <==> x in seen - stack && x !in g)
    && (forall x :: x in st.disabled <==> x in seen - stack && IsDisabled(g, x))
    && OrderedOffCycles(g, st.disabled)
  }

  lemma EnterKeepsInv(g: map<string, Plugin>, seen: set<string>, st: Status, stack: set<string>, universe: set<string>,
                      name: string)
    requires WalkInv(g, seen, st, stack, universe)
    requires name in universe - seen
    ensures WalkInv(g, seen + {name}, st, stack + {name}, universe)
  {
    assert seen + {name} - (stack + {name}) == seen - stack;
  }

  lemma DanglingNameKeepsInv(g: map<string, Plugin>, seen: set<string>, st: Status, stack: set<string>,
                             universe: set<string>, name: string)
    requires WalkInv(g, seen, st, stack, universe)
    requires name in universe - seen && name !in g
    ensures WalkInv(g, seen + {name}, st.(missing := st.missing + [name]), stack, universe)
  {
    assert seen + {name} - stack == seen - stack + {name};
  }

  function Report(g: map<string, Plugin>, st: Status, name: string): Status {
    if IsDisabled(g, name) then st.(disabled := st.disabled + [name]) else st
  }

  lemma LeaveKeepsInv(g: map<string, Plugin>, seen: set<string>, st: Status, stack: set<string>, universe: set<string>,
                      name: string)
    requires name in g && name in seen && name !in stack
    requires WalkInv(g, seen, st, stack + {name}, universe)
    requires forall c :: c in Children(g, name) ==> c in seen
    requires forall v :: v in stack ==> DependsOn(g, v, name)
    ensures WalkInv(g, seen, Report(g, st, name), stack, universe)
  {
    assert seen - stack == seen - (stack + {name}) + {name};
    LeaveKeepsOrder(g, seen, st, stack, universe, name);
    hide OrderedOffCycles;
  }

  /** When the visit of a name that does not depend on itself ends, every disabled plugin it
      depends on is already listed: no path leads from it back to a name under way. */
  lemma LeaveKeepsOrder(g: map<string, Plugin>, seen: set<string>, st: Status, stack: set<string>,
                        universe: set<string>, name: string)
    requires name in g && name in seen && name !in stack
    requires WalkInv(g, seen, st, stack + {name}, universe)
    requires forall c :: c in Children(g, name) ==> c in seen
    requires forall v :: v in stack ==> DependsOn(g, v, name)
    ensures OrderedOffCycles(g, Report(g, st, name).disabled)
  {
    var after := Report(g, st, name).disabled;
    forall i | 0 <= i < |after| && !DependsOn(g, after[i], after[i])
      ensures AfterItsNeeds(g, after, i)
    {
      if i < |st.disabled| {
        assert after[..i] == st.disabled[..i];
        assert AfterItsNeeds(g, st.disabled, i);
      } else {
        assert after[..i] == st.disabled;
        forall d | DependsOn(g, name, d) && IsDisabled(g, d)
          ensures d in st.disabled
        {
          NeedIsFinished(g, seen, st, stack, universe, name, d);
        }
      }
    }
  }

  lemma NeedIsFinished(g: map<string, Plugin>, seen: set<string>, st: Status, stack: set<string>, universe: set<string>,
                       name: string, d: string)
    requires WalkInv(g, seen, st, stack + {name}, universe)
    requires forall c :: c in Children(g, name) ==> c in seen
    requires forall v :: v in stack ==> DependsOn(g, v, name)
    requires DependsOn(g, name, d) && !DependsOn(g, name, name)
    ensures d in seen - (stack + {name})
  {
    var c :| c in Children(g, name) && Reaches(g, c, d);
    var n: nat :| ReachesIn(g, c, d, n);
    forall v | v in stack + {name}
      ensures !Reaches(g, c, v)
    {
      OpenReaches(g, stack, name, v);
      if Reaches(g, c, v) { ReachesTrans(g, c, v, name); }
    }
    ReachesSelf(g, c);
    StaysFinished(g, seen - (stack + {name}), stack + {name}, c, d, n);
  }

  lemma OpenReaches(g: map<string, Plugin>, stack: set<string>, name: string, v: string)
    requires v in stack ==> DependsOn(g, v, name)
    requires v in stack + {name}
    ensures Reaches(g, v, name)
  {
    if v == name {
      ReachesSelf(g, v);
    } else {
      var c :| c in Children(g, v) && Reaches(g, c, name);
      ChildReaches(g, v, c, name);
    }
  }

  /** The first `n` names of a list. */
  ghost function Firsts(s: seq<string>, n: nat): set<string>
    requires n <= |s|
  {
    set x | x in s[..n]
  }

  lemma FirstsNext(s: seq<string>, n: nat)
    requires n < |s|
    ensures Firsts(s, n + 1) == Firsts(s, n) + {s[n]}
  {
    assert s[..n + 1] == s[..n] + [s[n]];
  }

  /** The state of one walk. */
  class Walk {
    const byName: map<string, Plugin>
    var seen: set<string>
    var disabled: seq<string>
    var missing: seq<string>

    constructor (byName: map<string, Plugin>)
      ensures this.byName == byName
      ensures seen == {} && disabled == [] && missing == []
    {
      this.byName := byName;
      seen, disabled, missing := {}, [], [];
    }

    ghost function Reported(): Status
      reads this
    {
      Status(disabled, missing)
    }

    ghost predicate Inv(stack: set<string>, universe: set<string>)
      reads this
    {
      WalkInv(byName, seen, Reported(), stack, universe)
    }

    /** Visits `name`, with `stack` the names whose visit is under way and `universe`
        any set of names closed under dependencies. */
    method Visit(name: string, ghost stack: set<string>, ghost universe: set<string>)
      requires name in universe
      requires forall v, c :: v in universe && c in Children(byName, v) ==> c in universe
      requires forall v :: v in stack ==> DependsOn(byName, v, name)
      requires Inv(stack, universe)
      modifies this
      ensures Inv(stack, universe)
      ensures old(seen) + {name} <= seen
      ensures forall x :: x in seen - old(seen) ==> Reaches(byName, name, x)
      decreases universe - seen
    {
      if name in seen {
        return;
      }
      ReachesSelf(byName, name);
      if name !in byName {
        DanglingNameKeepsInv(byName, seen, Reported(), stack, universe, name);
        seen := seen + {name};
        missing := missing + [name];
        return;
      }
      EnterKeepsInv(byName, seen, Reported(), stack, universe, name);
      seen := seen + {name};
      var children := byName[name].deps;
      ghost var inner := stack + {name};
      for i := 0 to |children|
        invariant Inv(inner, universe)
        invariant old(seen) + {name} <= seen
        invariant Firsts(children, i) <= seen
        invariant forall x :: x in seen - old(seen) ==> Reaches(byName, name, x)
      {
        ghost var before := seen;
        StackDependsOnChild(byName, stack, name, children[i]);
        FirstsNext(children, i);
        Visit(children[i], inner, universe);
        forall x | x in seen - before
          ensures Reaches(byName, name, x)
        {
          ChildReaches(byName, name, children[i], x);
        }
      }
      LeaveKeepsInv(byName, seen, Reported(), stack, universe, name);
      if byName[name].disabled {
        disabled := disabled + [name];
      }
    }
  }

  lemma StackDependsOnChild(g: map<string, Plugin>, stack: set<string>, name: string, child: string)
    requires child in Children(g, name)
    requires forall v :: v in stack ==> DependsOn(g, v, name)
    ensures forall v :: v in stack + {name} ==> DependsOn(g, v, child)
  {
    ReachesSelf(g, child);
    forall v | v in stack
      ensures DependsOn(g, v, child)
    {
      DependsOnChild(g, v, name, child);
    }
  }

  /** The names reachable from `roots`, as the finite set the walk stays in. */
  ghost function Universe(g: map<string, Plugin>, roots: seq<string>): (u: set<string>)
    ensures forall x :: x in u <==> ReachableFrom(g, roots, x)
    ensures forall r :: r in roots ==> r in u
    ensures forall v, c :: v in u && c in Children(g, v) ==> c in u
  {
    var u := set x | x in Mentioned(g, roots) && ReachableFrom(g, roots, x);
    UniverseIsClosed(g, roots, u);
    u
  }

  lemma UniverseIsClosed(g: map<string, Plugin>, roots: seq<string>, u: set<string>)
    requires u == set x | x in Mentioned(g, roots) && ReachableFrom(g, roots, x)
    ensures forall x :: x in u <==> ReachableFrom(g, roots, x)
    ensures forall r :: r in roots ==> r in u
    ensures forall v, c :: v in u && c in Children(g, v) ==> c in u
  {
    forall x | ReachableFrom(g, roots, x) ensures x in u { ReachableIsMentioned(g, roots, x); }
    forall r | r in roots ensures r in u { ReachesSelf(g, r); }
    forall v, c | v in u && c in Children(g, v)
      ensures c in u
    {
      var r :| r in roots && Reaches(g, r, v);
      ReachesSelf(g, c);
      ChildReaches(g, v, c, c);
      ReachesTrans(g, r, v, c);
    }
  }

  /** A walk that has finished every root has met exactly what is reachable. */
  lemma {:induction false} ClosedIsAll(g: map<string, Plugin>, roots: seq<string>, seen: set<string>, st: Status)
    requires WalkInv(g, seen, st, {}, Universe(g, roots))
    requires forall r :: r in roots ==> r in seen
    ensures IsStatus(g, roots, st)
  {
    assert seen - {} == seen;
    forall x | ReachableFrom(g, roots, x)
      ensures x in seen
    {
      ClosedContainsReachable(g, seen, roots, x);
    }
  }

  /** In a list without duplicates, a disabled plugin that depends on itself cannot come after
      everything it needs. */
  lemma NoOrderOnACycle(g: map<string, Plugin>, list: seq<string>, i: nat)
    requires i < |list| && IsDisabled(g, list[i]) && DependsOn(g, list[i], list[i]) && NoDuplicates(list)
    ensures !AfterItsNeeds(g, list, i)
  {
    assert list[i] !in list[..i];
  }

  /** Off cycles the walk orders what it reports, and nothing can order the rest: a reported
      plugin comes after what it needs exactly when it does not depend on itself. */
  lemma OrderIsExact(g: map<string, Plugin>, roots: seq<string>, st: Status)
    requires IsStatus(g, roots, st) && OrderedOffCycles(g, st.disabled)
    ensures forall i :: 0 <= i < |st.disabled| ==>
              (AfterItsNeeds(g, st.disabled, i) <==> !DependsOn(g, st.disabled[i], st.disabled[i]))
    ensures DependenciesFirst(g, st.disabled)
            <==> forall x :: ReachableFrom(g, roots, x) && IsDisabled(g, x) ==> !DependsOn(g, x, x)
  {
    hide AfterItsNeeds, DependsOn, ReachableFrom;
    forall i | 0 <= i < |st.disabled| && DependsOn(g, st.disabled[i], st.disabled[i])
      ensures !AfterItsNeeds(g, st.disabled, i)
    {
      assert st.disabled[i] in st.disabled;
      NoOrderOnACycle(g, st.disabled, i);
    }
    forall x | ReachableFrom(g, roots, x) && IsDisabled(g, x)
      ensures exists i :: 0 <= i < |st.disabled| && st.disabled[i] == x
    {
      assert x in st.disabled;
    }
    assert forall i :: 0 <= i < |st.disabled| ==> st.disabled[i] in st.disabled;
  }

  /** Reports the missing and the disabled plugins among everything `plugin` transitively
      needs: exactly those, each once. On any graph, a reported plugin comes after what it needs
      exactly when it does not depend on itself. */
  method DependencyStatus(plugin: Plugin, plugins: seq<Plugin>) returns (st: Status)
    ensures IsStatus(ByName(plugins), plugin.deps, st)
    ensures forall i :: 0 <= i < |st.disabled| ==>
              (AfterItsNeeds(ByName(plugins), st.disabled, i)
               <==> !DependsOn(ByName(plugins), st.disabled[i], st.disabled[i]))
    ensures DependenciesFirst(ByName(plugins), st.disabled)
            <==> forall x :: ReachableFrom(ByName(plugins), plugin.deps, x) && IsDisabled(ByName(plugins), x) ==>
                   !DependsOn(ByName(plugins), x, x)
  {
    hide ByName, DependsOn, ReachableFrom, IsStatus, AfterItsNeeds;
    var g := ByName(plugins);
    var walk := new Walk(g);
    ghost var roots := plugin.deps;
    ghost var universe := Universe(g, roots);
    for i := 0 to |plugin.deps|
      invariant walk.Inv({}, universe)
      invariant Firsts(plugin.deps, i) <= walk.seen
    {
      FirstsNext(plugin.deps, i);
      walk.Visit(plugin.deps[i], {}, universe);
    }
    ClosedIsAll(g, roots, walk.seen, walk.Reported());
    OrderIsExact(g, roots, walk.Reported());
    st := Status(walk.disabled, walk.missing);
  }

  /** Keeps the first occurrence of every name. */
  function Dedupe(s: seq<string>): (r: seq<string>)
    ensures NoDuplicates(r)
    ensures forall x :: x in r <==> x in s
    ensures NoDuplicates(s) ==> r == s
  {
    if s == [] then []
    else
      var rest := Dedupe(s[..|s| - 1]);
      var last := s[|s| - 1];
      assert s == s[..|s| - 1] + [last];
      if last in rest then rest else rest + [last]
  }

  /** What a name of the plan needs first: for the plugin itself, what its own manifest reaches. */
  ghost predicate NeededBy(g: map<string, Plugin>, plugin: Plugin, name: string, d: string) {
    if name == plugin.name then ReachableFrom(g, plugin.deps, d) else DependsOn(g, name, d)
  }

  /** Every disabled plugin that the `i`-th name of a plan needs stands before it. */
  ghost predicate AfterItsNeedsInPlan(g: map<string, Plugin>, plugin: Plugin, plan: seq<string>, i: nat)
    requires i < |plan|
  {
    forall d :: NeededBy(g, plugin, plan[i], d) && IsDisabled(g, d) ==> d in plan[..i]
  }

  /** The names to enable so that `plugin` can run. On any graph, a name of the plan stands after
      what it needs exactly when it is not a disabled plugin that needs itself. */
  method EnablePlanFor(plugin: Plugin, plugins: seq<Plugin>, includeSelf: bool) returns (plan: seq<string>)
    ensures NoDuplicates(plan)
    ensures forall x :: x in plan <==>
                        || (ReachableFrom(ByName(plugins), plugin.deps, x) && IsDisabled(ByName(plugins), x))
                        || (includeSelf && plugin.disabled && x == plugin.name)
    ensures forall i :: 0 <= i < |plan| ==>
              (AfterItsNeedsInPlan(ByName(plugins), plugin, plan, i)
               <==> !(NeededBy(ByName(plugins), plugin, plan[i], plan[i]) && IsDisabled(ByName(plugins), plan[i])))
  {
    ghost var g := ByName(plugins);
    var st := DependencyStatus(plugin, plugins);
    plan := st.disabled;
    if includeSelf && plugin.disabled {
      plan := plan + [plugin.name];
    }
    plan := Dedupe(plan);
    hide ByName, DependsOn, ReachableFrom;
    PlanOf(st.disabled, plugin.name);
    forall i | 0 <= i < |plan|
      ensures AfterItsNeedsInPlan(g, plugin, plan, i)
              <==> !(NeededBy(g, plugin, plan[i], plan[i]) && IsDisabled(g, plan[i]))
    {
      PlanOrderIsExact(g, plugin, st, plan, i);
    }
  }

  lemma PlanOf(disabled: seq<string>, name: string)
    requires NoDuplicates(disabled)
    ensures Dedupe(disabled) == disabled
    ensures Dedupe(disabled + [name]) == if name in disabled then disabled else disabled + [name]
  {
    assert (disabled + [name])[..|disabled|] == disabled;
  }

  lemma PlanOrderIsExact(g: map<string, Plugin>, plugin: Plugin, st: Status, plan: seq<string>, i: nat)
    requires IsStatus(g, plugin.deps, st) && i < |plan|
    requires forall k :: 0 <= k < |st.disabled| ==>
               (AfterItsNeeds(g, st.disabled, k) <==> !DependsOn(g, st.disabled[k], st.disabled[k]))
    requires plan == st.disabled || (plan == st.disabled + [plugin.name] && plugin.name !in st.disabled)
    ensures AfterItsNeedsInPlan(g, plugin, plan, i)
            <==> !(NeededBy(g, plugin, plan[i], plan[i]) && IsDisabled(g, plan[i]))
  {
    hide DependsOn, ReachableFrom;
    if i < |st.disabled| {
      assert plan[..i] == st.disabled[..i] && plan[i] in st.disabled;
      assert plan[i] !in plan[..i];
      assert AfterItsNeeds(g, st.disabled, i) <==> !DependsOn(g, st.disabled[i], st.disabled[i]);
    } else {
      assert plan[..i] == st.disabled;
    }
  }

  // ----- enabling the plan

  function Enable(plugins: seq<Plugin>, names: seq<string>): seq<Plugin> {
    seq(|plugins|, i requires 0 <= i < |plugins| =>
      if plugins[i].name in names then plugins[i].(disabled := false) else plugins[i])
  }

  lemma {:induction false} EnableKeepsGraph(plugins: seq<Plugin>, names: seq<string>)
    ensures ByName(Enable(plugins, names)).Keys == ByName(plugins).Keys
    ensures forall x :: x in ByName(plugins) ==>
              && ByName(plugins)[x].name == x
              && ByName(Enable(plugins, names))[x].deps == ByName(plugins)[x].deps
              && (ByName(Enable(plugins, names))[x].disabled <==> ByName(plugins)[x].disabled && x !in names)
  {
    if plugins != [] {
      var n := |plugins| - 1;
      EnableKeepsGraph(plugins[..n], names);
      assert Enable(plugins, names)[..n] == Enable(plugins[..n], names);
    }
  }

  lemma {:induction false} SameEdgesSameReach(g: map<string, Plugin>, h: map<string, Plugin>, a: string, b: string,
                                              n: nat)
    requires forall x :: Children(g, x) == Children(h, x)
    ensures ReachesIn(g, a, b, n) <==> ReachesIn(h, a, b, n)
    decreases n
  {
    if n != 0 {
      forall c | c in Children(g, a)
        ensures ReachesIn(g, c, b, n - 1) <==> ReachesIn(h, c, b, n - 1)
      {
        SameEdgesSameReach(g, h, c, b, n - 1);
      }
    }
  }

  lemma SameEdgesSameReachable(g: map<string, Plugin>, h: map<string, Plugin>, roots: seq<string>, x: string)
    requires forall v :: Children(g, v) == Children(h, v)
    ensures ReachableFrom(g, roots, x) <==> ReachableFrom(h, roots, x)
  {
    forall r | r in roots
      ensures Reaches(g, r, x) <==> Reaches(h, r, x)
    {
      forall n: nat { SameEdgesSameReach(g, h, r, x, n); }
    }
  }

  lemma NonEmptyHasMember(s: seq<string>)
    requires s != []
    ensures exists x :: x in s
  {
    assert s[0] in s;
  }

  /** On any graph, cyclic or not: once the names of the first report are enabled, a second
      walk reports nothing disabled and the same missing names. */
  lemma EnablingThePlanIsEnough(plugin: Plugin, plugins: seq<Plugin>, plan: seq<string>, before: Status, after: Status)
    requires IsStatus(ByName(plugins), plugin.deps, before)
    requires forall x :: x in before.disabled ==> x in plan
    requires IsStatus(ByName(Enable(plugins, plan)), plugin.deps, after)
    ensures after.disabled == []
    ensures forall x :: x in after.missing <==> x in before.missing
  {
    var g, h := ByName(plugins), ByName(Enable(plugins, plan));
    EnableKeepsGraph(plugins, plan);
    forall x
      ensures ReachableFrom(g, plugin.deps, x) <==> ReachableFrom(h, plugin.deps, x)
    {
      SameEdgesSameReachable(g, h, plugin.deps, x);
    }
    assert forall x :: x !in after.disabled;
    if after.disabled != [] { NonEmptyHasMember(after.disabled); }
  }
}
