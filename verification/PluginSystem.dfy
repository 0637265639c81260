/** The plugin event pipeline: gates, filters, handlers and late hooks, registered per scope
    and per event name, with "*" for every event. Hooks are functions that may throw. */
module PluginSystem {
  import opened Wrappers

  datatype Event = Event(name: string, body: string)

  datatype GateOutcome = Passes | Blocks | GateThrows(message: string)

  datatype FilterOutcome = Becomes(event: Event) | FilterThrows(message: string)

  datatype HookOutcome = Returns | HookThrows(message: string)

  type Gate = Event -> GateOutcome
  type Filter = Event -> FilterOutcome
  type Handler = Event -> HookOutcome

  datatype Scope = Builtin | User

  datatype Scoped<F> = Scoped(fn: F, scope: Scope, name: Option<string>)

  type Table<F> = map<string, seq<Scoped<F>>>

  datatype Tables = Tables(gates: Table<Gate>, filters: Table<Filter>, handlers: Table<Handler>, lates: Table<Handler>)

  datatype Hook =
    | OnGate(gate: Gate)
    | OnFilter(filter: Filter)
    | OnHandle(handler: Handler)
    | OnLate(late: Handler)

  datatype Registration = Registration(event: string, hook: Hook)

  /** What a plugin does when it is loaded: the hooks it registers, then how it ends. */
  datatype Plugin = Plugin(registrations: seq<Registration>, ending: Ending)

  datatype Ending = WithTeardown | WithoutTeardown | PluginThrows

  /** One registered teardown; every registration has its own id. */
  datatype Teardown = Teardown(id: nat, scope: Scope)

  datatype PluginInfo = PluginInfo(name: string, source: Scope, events: nat, errors: nat,
                                   lastEvent: Option<string>, lastError: Option<string>)

  datatype State = State(tables: Tables, teardowns: seq<Teardown>, plugins: seq<PluginInfo>,
                         totalEvents: nat, totalErrors: nat, gated: nat,
                         ran: seq<nat>, nextTeardown: nat)

  // ----- tables

  function Get<F>(t: Table<F>, event: string): seq<Scoped<F>> {
    if event in t then t[event] else []
  }

  /** The hooks that apply to an event: its own first, then those for every event. */
  function HooksFor<F>(t: Table<F>, event: string): seq<Scoped<F>> {
    Get(t, event) + Get(t, "*")
  }

  function AddTo<F>(t: Table<F>, event: string, entry: Scoped<F>): Table<F> {
    t[event := Get(t, event) + [entry]]
  }

  /** The entries of other scopes, in order. */
  function Kept<F>(list: seq<Scoped<F>>, scope: Scope): (r: seq<Scoped<F>>)
    ensures |r| <= |list|
  {
    if list == [] then []
    else
      var rest := Kept(list[..|list| - 1], scope);
      var last := list[|list| - 1];
      if last.scope == scope then rest else rest + [last]
  }

  function Cleaned<F>(t: Table<F>, scope: Scope): Table<F> {
    map event | event in t && Kept(t[event], scope) != [] :: Kept(t[event], scope)
  }

  predicate NoEmptyLists<F>(t: Table<F>) {
    forall event :: event in t ==> t[event] != []
  }

  function Register(t: Tables, r: Registration, scope: Scope, name: Option<string>): Tables {
    match r.hook
    case OnGate(f) => t.(gates := AddTo(t.gates, r.event, Scoped(f, scope, name)))
    case OnFilter(f) => t.(filters := AddTo(t.filters, r.event, Scoped(f, scope, name)))
    case OnHandle(f) => t.(handlers := AddTo(t.handlers, r.event, Scoped(f, scope, name)))
    case OnLate(f) => t.(lates := AddTo(t.lates, r.event, Scoped(f, scope, name)))
  }

  /** A table with an entry added: the entry is the last of its event, and no other event is touched. */
  ghost predicate IsWithEntry<F>(after: Table<F>, t: Table<F>, event: string, entry: Scoped<F>) {
    && after.Keys == t.Keys + {event}
    && after[event] == (if event in t then t[event] else []) + [entry]
    && forall other :: other in t && other != event ==> after[other] == t[other]
  }

  lemma EntryIsAppended<F>(t: Table<F>, event: string, entry: Scoped<F>)
    ensures IsWithEntry(AddTo(t, event, entry), t, event, entry)
  {
  }

  /** A registered hook is the last of its event, in its own table only, and is known under the scope and
      plugin it was registered in. */
  lemma HookIsAppended(t: Tables, event: string, scope: Scope, name: Option<string>,
                       gate: Gate, filter: Filter, handler: Handler)
    ensures var g := Register(t, Registration(event, OnGate(gate)), scope, name);
            g == t.(gates := g.gates) && IsWithEntry(g.gates, t.gates, event, Scoped(gate, scope, name))
    ensures var f := Register(t, Registration(event, OnFilter(filter)), scope, name);
            f == t.(filters := f.filters) && IsWithEntry(f.filters, t.filters, event, Scoped(filter, scope, name))
    ensures var h := Register(t, Registration(event, OnHandle(handler)), scope, name);
            h == t.(handlers := h.handlers) && IsWithEntry(h.handlers, t.handlers, event, Scoped(handler, scope, name))
    ensures var l := Register(t, Registration(event, OnLate(handler)), scope, name);
            l == t.(lates := l.lates) && IsWithEntry(l.lates, t.lates, event, Scoped(handler, scope, name))
  {
    hide AddTo, IsWithEntry;
    EntryIsAppended(t.gates, event, Scoped(gate, scope, name));
    EntryIsAppended(t.filters, event, Scoped(filter, scope, name));
    EntryIsAppended(t.handlers, event, Scoped(handler, scope, name));
    EntryIsAppended(t.lates, event, Scoped(handler, scope, name));
  }

  function RegisterAll(t: Tables, rs: seq<Registration>, scope: Scope, name: Option<string>): Tables {
    if rs == [] then t
    else Register(RegisterAll(t, rs[..|rs| - 1], scope, name), rs[|rs| - 1], scope, name)
  }

  function CleanedTables(t: Tables, scope: Scope): Tables {
    Tables(Cleaned(t.gates, scope), Cleaned(t.filters, scope), Cleaned(t.handlers, scope), Cleaned(t.lates, scope))
  }

  // ----- teardowns

  function OfScope(ts: seq<Teardown>, scope: Scope): seq<nat> {
    if ts == [] then []
    else OfScope(ts[..|ts| - 1], scope) + (if ts[|ts| - 1].scope == scope then [ts[|ts| - 1].id] else [])
  }

  function NotOfScope(ts: seq<Teardown>, scope: Scope): seq<Teardown> {
    if ts == [] then []
    else NotOfScope(ts[..|ts| - 1], scope) + (if ts[|ts| - 1].scope == scope then [] else [ts[|ts| - 1]])
  }

  function Ids(ts: seq<Teardown>): seq<nat> {
    if ts == [] then [] else Ids(ts[..|ts| - 1]) + [ts[|ts| - 1].id]
  }

  // ----- errors

  /** A hook that threw: the plugin it belongs to, and the message. */
  datatype Failure = Failure(name: Option<string>, message: string)

  function Blame(plugins: seq<PluginInfo>, f: Failure): seq<PluginInfo> {
    if f.name == None || f.name == Some("") then plugins else BlameFirst(plugins, f.name.value, f.message)
  }

  /** Charges the first plugin of that name, if there is one. */
  function BlameFirst(plugins: seq<PluginInfo>, name: string, message: string): seq<PluginInfo> {
    if plugins == [] then []
    else if plugins[0].name == name then
      [plugins[0].(errors := plugins[0].errors + 1, lastError := Some(message))] + plugins[1..]
    else [plugins[0]] + BlameFirst(plugins[1..], name, message)
  }

  lemma {:induction false} BlamedAt(plugins: seq<PluginInfo>, i: nat, name: string, message: string)
    requires i <= |plugins| && forall j :: 0 <= j < i ==> plugins[j].name != name
    requires i < |plugins| ==> plugins[i].name == name
    ensures BlameFirst(plugins, name, message) ==
            if i == |plugins| then plugins
            else plugins[i := plugins[i].(errors := plugins[i].errors + 1, lastError := Some(message))]
  {
    if 0 < i {
      BlamedAt(plugins[1..], i - 1, name, message);
    }
  }

  function BlameAll(plugins: seq<PluginInfo>, fs: seq<Failure>): seq<PluginInfo> {
    if fs == [] then plugins else Blame(BlameAll(plugins, fs[..|fs| - 1]), fs[|fs| - 1])
  }

  function ErrorSum(plugins: seq<PluginInfo>): nat {
    if plugins == [] then 0 else plugins[0].errors + ErrorSum(plugins[1..])
  }

  predicate Listed(plugins: seq<PluginInfo>, f: Failure) {
    f.name.Some? && f.name.value != "" && exists i :: 0 <= i < |plugins| && plugins[i].name == f.name.value
  }

  function ListedCount(plugins: seq<PluginInfo>, fs: seq<Failure>): nat {
    if fs == [] then 0
    else ListedCount(plugins, fs[..|fs| - 1]) + (if Listed(plugins, fs[|fs| - 1]) then 1 else 0)
  }

  // ----- emit, as a specification

  /** The position of the first gate that blocks, or the number of gates. */
  function FirstBlock(gs: seq<Scoped<Gate>>, e: Event): (k: nat)
    ensures k <= |gs|
    ensures k < |gs| ==> gs[k].fn(e) == Blocks
    ensures forall i :: 0 <= i < k ==> gs[i].fn(e) != Blocks
  {
    if gs == [] then 0
    else
      var k := FirstBlock(gs[..|gs| - 1], e);
      if k < |gs| - 1 then k
      else if gs[|gs| - 1].fn(e) == Blocks then |gs| - 1 else |gs|
  }

  function GateFailures(gs: seq<Scoped<Gate>>, e: Event): seq<Failure> {
    if gs == [] then []
    else
      var last := gs[|gs| - 1];
      GateFailures(gs[..|gs| - 1], e) + Failed(last.name, MessageOfGate(last.fn(e)))
  }

  function MessageOfGate(o: GateOutcome): Option<string> {
    if o.GateThrows? then Some(o.message) else None
  }

  function MessageOfHook(o: HookOutcome): Option<string> {
    if o.HookThrows? then Some(o.message) else None
  }

  function MessageOfFilter(o: FilterOutcome): Option<string> {
    if o.FilterThrows? then Some(o.message) else None
  }

  function Failed(name: Option<string>, message: Option<string>): seq<Failure> {
    if message.Some? then [Failure(name, message.value)] else []
  }

  /** The event after the filters: each that does not throw replaces it. */
  function Filtered(fs: seq<Scoped<Filter>>, e: Event): Event {
    if fs == [] then e
    else
      var before := Filtered(fs[..|fs| - 1], e);
      match fs[|fs| - 1].fn(before)
      case Becomes(after) => after
      case FilterThrows(_) => before
  }

  function FilterFailures(fs: seq<Scoped<Filter>>, e: Event): seq<Failure> {
    if fs == [] then []
    else
      var last := fs[|fs| - 1];
      FilterFailures(fs[..|fs| - 1], e) + Failed(last.name, MessageOfFilter(last.fn(Filtered(fs[..|fs| - 1], e))))
  }

  /** Failures of the hooks that are not skipped, all called with the same event. */
  function HookFailures(hs: seq<Scoped<Handler>>, e: Event, skip: Option<string> -> bool): seq<Failure> {
    if hs == [] then []
    else
      var last := hs[|hs| - 1];
      HookFailures(hs[..|hs| - 1], e, skip) +
      (if skip(last.name) then [] else Failed(last.name, MessageOfHook(last.fn(e))))
  }

  datatype Phase = GatePhase | FilterPhase | HandlePhase | LatePhase

  /** One call of a hook: its phase, its position among the applicable hooks, what it was given. */
  datatype Call = Call(phase: Phase, index: nat, event: Event)

  function GateCalls(n: nat, e: Event): seq<Call> {
    seq(n, i requires i >= 0 => Call(GatePhase, i, e))
  }

  function FilterCalls(fs: seq<Scoped<Filter>>, e: Event): seq<Call> {
    seq(|fs|, i requires 0 <= i < |fs| => Call(FilterPhase, i, Filtered(fs[..i], e)))
  }

  function HookCalls(phase: Phase, hs: seq<Scoped<Handler>>, e: Event, skip: Option<string> -> bool): seq<Call> {
    if hs == [] then []
    else
      HookCalls(phase, hs[..|hs| - 1], e, skip) +
      (if skip(hs[|hs| - 1].name) then [] else [Call(phase, |hs| - 1, e)])
  }

  const NEVER: Option<string> -> bool := _ => false

  function Stamped(plugins: seq<PluginInfo>, total: nat, event: string): seq<PluginInfo> {
    seq(|plugins|, i requires 0 <= i < |plugins| => plugins[i].(events := total, lastEvent := Some(event)))
  }

  datatype Emission = Emission(delivered: bool, state: State, calls: seq<Call>, failures: seq<Failure>)

  function EmitSpec(s: State, e: Event, skip: (string, Option<string>) -> bool): Emission {
    var gs := HooksFor(s.tables.gates, e.name);
    var k := FirstBlock(gs, e);
    var counted := s.(totalEvents := s.totalEvents + 1);
    if k < |gs| then
      var failures := GateFailures(gs[..k], e);
      Emission(false, Charged(counted, failures).(gated := s.gated + 1), GateCalls(k + 1, e), failures)
    else
      var fs := HooksFor(s.tables.filters, e.name);
      var out := Filtered(fs, e);
      var hs := HooksFor(s.tables.handlers, out.name);
      var ls := HooksFor(s.tables.lates, out.name);
      var skipped := SkipFor(skip, out.name);
      var failures := GateFailures(gs, e) + FilterFailures(fs, e) +
                      HookFailures(hs, out, skipped) + HookFailures(ls, out, NEVER);
      var charged := Charged(counted, failures);
      Emission(true,
               charged.(plugins := Stamped(charged.plugins, s.totalEvents + 1, out.name)),
               GateCalls(|gs|, e) + FilterCalls(fs, e) +
               HookCalls(HandlePhase, hs, out, skipped) + HookCalls(LatePhase, ls, out, NEVER),
               failures)
  }

  function SkipFor(skip: (string, Option<string>) -> bool, event: string): Option<string> -> bool {
    name => skip(event, name)
  }

  function Charged(s: State, failures: seq<Failure>): State {
    s.(totalErrors := s.totalErrors + |failures|, plugins := BlameAll(s.plugins, failures))
  }

  // ----- what emit promises

  /** A blocked event: some applicable gate answers false, and only the gates up to the first
      such one are called. */
  lemma EmitBlocks(s: State, e: Event, skip: (string, Option<string>) -> bool)
    ensures var gs := HooksFor(s.tables.gates, e.name);
            !EmitSpec(s, e, skip).delivered <==> exists i :: 0 <= i < |gs| && gs[i].fn(e) == Blocks
    ensures !EmitSpec(s, e, skip).delivered ==>
              forall c :: c in EmitSpec(s, e, skip).calls <==>
                c.phase == GatePhase && c.event == e && c.index <= FirstBlock(HooksFor(s.tables.gates, e.name), e)
  {
    GateCallsAre(FirstBlock(HooksFor(s.tables.gates, e.name), e) + 1, e);
  }

  /** The hooks that apply to one event, phase by phase. */
  datatype Applicable = Applicable(gates: seq<Scoped<Gate>>, filters: seq<Scoped<Filter>>,
                                   handlers: seq<Scoped<Handler>>, lates: seq<Scoped<Handler>>)

  function ApplicableTo(s: State, e: Event): Applicable {
    var fs := HooksFor(s.tables.filters, e.name);
    var out := Filtered(fs, e);
    Applicable(HooksFor(s.tables.gates, e.name), fs, HooksFor(s.tables.handlers, out.name),
               HooksFor(s.tables.lates, out.name))
  }

  lemma {:induction false} FilteredAppend(a: seq<Scoped<Filter>>, b: seq<Scoped<Filter>>, e: Event)
    ensures Filtered(a + b, e) == Filtered(b, Filtered(a, e))
  {
    if b == [] {
      assert a + b == a;
    } else {
      assert (a + b)[..|a + b| - 1] == a + b[..|b| - 1];
      FilteredAppend(a, b[..|b| - 1], e);
    }
  }

  /** The hooks registered for the event's own name come before those for every event, in each phase,
      each list in its order; a name that nothing is registered for has none. The handlers and late
      hooks are those for the name that the filters leave, and what the filters leave is made by the
      filters for every event from what the event's own filters make. */
  lemma {:induction false} OwnHooksComeFirst(s: State, e: Event)
    ensures var t, h := s.tables, ApplicableTo(s, e);
            var out := Filtered(h.filters, e);
            && h.gates == (if e.name in t.gates then t.gates[e.name] else [])
                          + (if "*" in t.gates then t.gates["*"] else [])
            && h.filters == (if e.name in t.filters then t.filters[e.name] else [])
                            + (if "*" in t.filters then t.filters["*"] else [])
            && h.handlers == (if out.name in t.handlers then t.handlers[out.name] else [])
                             + (if "*" in t.handlers then t.handlers["*"] else [])
            && h.lates == (if out.name in t.lates then t.lates[out.name] else [])
                          + (if "*" in t.lates then t.lates["*"] else [])
            && out == Filtered(if "*" in t.filters then t.filters["*"] else [],
                               Filtered(if e.name in t.filters then t.filters[e.name] else [], e))
  {
    hide Filtered;
    var t := s.tables.filters;
    FilteredAppend(if e.name in t then t[e.name] else [], if "*" in t then t["*"] else [], e);
  }

  /** A filter that does not throw replaces the event, and one that throws leaves it. */
  lemma FilterReplacesUnlessItThrows(f: Scoped<Filter>, e: Event)
    ensures Filtered([], e) == e
    ensures forall out :: f.fn(e) == Becomes(out) ==> Filtered([f], e) == out
    ensures f.fn(e).FilterThrows? ==> Filtered([f], e) == e
  {
    assert [f][..0] == [];
  }

  function Rank(phase: Phase): nat {
    match phase
    case GatePhase => 0
    case FilterPhase => 1
    case HandlePhase => 2
    case LatePhase => 3
  }

  /** `a` is called before `b`: in an earlier phase, or earlier in the same one. */
  predicate CalledBefore(a: Call, b: Call) {
    Rank(a.phase) < Rank(b.phase) || (a.phase == b.phase && a.index < b.index)
  }

  predicate InCallOrder(calls: seq<Call>) {
    forall i, j :: 0 <= i < j < |calls| ==> CalledBefore(calls[i], calls[j])
  }

  lemma JoinedInOrder(a: seq<Call>, b: seq<Call>)
    requires InCallOrder(a) && InCallOrder(b)
    requires forall x, y :: x in a && y in b ==> CalledBefore(x, y)
    ensures InCallOrder(a + b)
  {
    hide CalledBefore;
    var s := a + b;
    forall i, j | 0 <= i < j < |s|
      ensures CalledBefore(s[i], s[j])
    {
      if j < |a| {
        assert CalledBefore(a[i], a[j]);
      } else if i < |a| {
        assert a[i] in a && b[j - |a|] in b;
      } else {
        assert CalledBefore(b[i - |a|], b[j - |a|]);
      }
    }
  }

  lemma {:induction false} HookCallsInOrder(phase: Phase, hs: seq<Scoped<Handler>>, e: Event,
                                            skip: Option<string> -> bool)
    ensures InCallOrder(HookCalls(phase, hs, e, skip))
    ensures forall c :: c in HookCalls(phase, hs, e, skip) ==> c.phase == phase && c.index < |hs|
  {
    if hs != [] {
      HookCallsInOrder(phase, hs[..|hs| - 1], e, skip);
    }
  }

  /** Every emission calls its hooks phase by phase, and in each phase in the order of its list. */
  lemma {:induction false} CallsAreInOrder(s: State, e: Event, skip: (string, Option<string>) -> bool)
    ensures var calls := EmitSpec(s, e, skip).calls;
            forall i, j :: 0 <= i < j < |calls| ==>
              || Rank(calls[i].phase) < Rank(calls[j].phase)
              || (calls[i].phase == calls[j].phase && calls[i].index < calls[j].index)
  {
    hide HookCalls, Filtered, HooksFor, GateFailures, FilterFailures, HookFailures, FirstBlock, Charged, Stamped;
    var h, r := ApplicableTo(s, e), EmitSpec(s, e, skip);
    if r.delivered {
      var out := Filtered(h.filters, e);
      var skipped := SkipFor(skip, out.name);
      var gates, filters := GateCalls(|h.gates|, e), FilterCalls(h.filters, e);
      var handled, late := HookCalls(HandlePhase, h.handlers, out, skipped), HookCalls(LatePhase, h.lates, out, NEVER);
      HookCallsInOrder(HandlePhase, h.handlers, out, skipped);
      HookCallsInOrder(LatePhase, h.lates, out, NEVER);
      JoinedInOrder(gates, filters);
      JoinedInOrder(gates + filters, handled);
      JoinedInOrder(gates + filters + handled, late);
    }
  }

  /** What a call of a delivered event is: every gate sees the event, every filter sees what the
      filters before it made of it, and every handler that is not skipped and every late hook
      sees what came out. */
  predicate IsDelivery(h: Applicable, e: Event, skip: (string, Option<string>) -> bool, c: Call) {
    match c.phase
    case GatePhase => c.index < |h.gates| && c.event == e
    case FilterPhase => c.index < |h.filters| && c.event == Filtered(h.filters[..c.index], e)
    case HandlePhase =>
      && c.index < |h.handlers| && c.event == Filtered(h.filters, e)
      && !skip(c.event.name, h.handlers[c.index].name)
    case LatePhase => c.index < |h.lates| && c.event == Filtered(h.filters, e)
  }

  /** The calls of a delivered event, phase by phase. */
  function DeliveryCalls(h: Applicable, e: Event, skip: (string, Option<string>) -> bool): seq<Call> {
    var out := Filtered(h.filters, e);
    GateCalls(|h.gates|, e) + FilterCalls(h.filters, e) +
    HookCalls(HandlePhase, h.handlers, out, SkipFor(skip, out.name)) + HookCalls(LatePhase, h.lates, out, NEVER)
  }

  lemma {:induction false} DeliveryCallsAre(h: Applicable, e: Event, skip: (string, Option<string>) -> bool)
    ensures forall c :: c in DeliveryCalls(h, e, skip) <==> IsDelivery(h, e, skip, c)
  {
    hide GateCalls, FilterCalls, HookCalls, Filtered;
    var out := Filtered(h.filters, e);
    GateCallsAre(|h.gates|, e);
    FilterCallsAre(h.filters, e);
    HookCallsAre(HandlePhase, h.handlers, out, SkipFor(skip, out.name));
    HookCallsAre(LatePhase, h.lates, out, NEVER);
    InFour(GateCalls(|h.gates|, e), FilterCalls(h.filters, e),
           HookCalls(HandlePhase, h.handlers, out, SkipFor(skip, out.name)), HookCalls(LatePhase, h.lates, out, NEVER));
  }

  /** A delivered event reaches exactly the hooks that apply to it, each with what it is to see. */
  lemma {:induction false} EmitDelivers(s: State, e: Event, skip: (string, Option<string>) -> bool)
    requires EmitSpec(s, e, skip).delivered
    ensures forall c :: c in EmitSpec(s, e, skip).calls <==>
              IsDelivery(ApplicableTo(s, e), e, skip, c)
  {
    hide GateCalls, FilterCalls, HookCalls, Filtered, IsDelivery, HooksFor, GateFailures, FilterFailures, HookFailures,
         FirstBlock, Charged, Stamped;
    DeliveryCallsAre(ApplicableTo(s, e), e, skip);
  }

  lemma InFour(a: seq<Call>, b: seq<Call>, c: seq<Call>, d: seq<Call>)
    ensures forall x :: x in a + b + c + d <==> x in a || x in b || x in c || x in d
  {
  }

  lemma GateCallsAre(n: nat, e: Event)
    ensures forall c :: c in GateCalls(n, e) <==> c.phase == GatePhase && c.event == e && c.index < n
  {
    forall c: Call | c.phase == GatePhase && c.event == e && c.index < n
      ensures c in GateCalls(n, e)
    {
      assert GateCalls(n, e)[c.index] == c;
    }
  }

  lemma FilterCallsAre(fs: seq<Scoped<Filter>>, e: Event)
    ensures forall c :: c in FilterCalls(fs, e) <==>
              c.phase == FilterPhase && c.index < |fs| && c.event == Filtered(fs[..c.index], e)
  {
    forall c: Call | c.phase == FilterPhase && c.index < |fs| && c.event == Filtered(fs[..c.index], e)
      ensures c in FilterCalls(fs, e)
    {
      assert FilterCalls(fs, e)[c.index] == c;
    }
  }

  lemma {:induction false} HookCallsAre(phase: Phase, hs: seq<Scoped<Handler>>, e: Event, skip: Option<string> -> bool)
    ensures forall c :: c in HookCalls(phase, hs, e, skip) <==>
              c.phase == phase && c.event == e && c.index < |hs| && !skip(hs[c.index].name)
  {
    if hs != [] {
      HookCallsAre(phase, hs[..|hs| - 1], e, skip);
    }
  }

  /** The failure a call ends in, if its hook throws. */
  function FailureOf(h: Applicable, c: Call): seq<Failure> {
    match c.phase
    case GatePhase =>
      if c.index < |h.gates| then Failed(h.gates[c.index].name, MessageOfGate(h.gates[c.index].fn(c.event))) else []
    case FilterPhase =>
      if c.index < |h.filters|
      then Failed(h.filters[c.index].name, MessageOfFilter(h.filters[c.index].fn(c.event))) else []
    case HandlePhase =>
      if c.index < |h.handlers|
      then Failed(h.handlers[c.index].name, MessageOfHook(h.handlers[c.index].fn(c.event))) else []
    case LatePhase =>
      if c.index < |h.lates| then Failed(h.lates[c.index].name, MessageOfHook(h.lates[c.index].fn(c.event))) else []
  }

  /** The message that the hook of a call throws, if it throws. */
  function Thrown(h: Applicable, c: Call): Option<string> {
    match c.phase
    case GatePhase =>
      if c.index >= |h.gates| then None else
        (match h.gates[c.index].fn(c.event) case GateThrows(message) => Some(message) case _ => None)
    case FilterPhase =>
      if c.index >= |h.filters| then None else
        (match h.filters[c.index].fn(c.event) case FilterThrows(message) => Some(message) case _ => None)
    case HandlePhase =>
      if c.index >= |h.handlers| then None else
        (match h.handlers[c.index].fn(c.event) case HookThrows(message) => Some(message) case _ => None)
    case LatePhase =>
      if c.index >= |h.lates| then None else
        (match h.lates[c.index].fn(c.event) case HookThrows(message) => Some(message) case _ => None)
  }

  /** A call leaves one failure, with the plugin and the message, exactly when its hook throws. */
  lemma FailsWhenItThrows(h: Applicable, c: Call)
    ensures Thrown(h, c) == None ==> FailureOf(h, c) == []
    ensures forall m :: Thrown(h, c) == Some(m) ==>
              match c.phase
              case GatePhase => FailureOf(h, c) == [Failure(h.gates[c.index].name, m)]
              case FilterPhase => FailureOf(h, c) == [Failure(h.filters[c.index].name, m)]
              case HandlePhase => FailureOf(h, c) == [Failure(h.handlers[c.index].name, m)]
              case LatePhase => FailureOf(h, c) == [Failure(h.lates[c.index].name, m)]
  {
  }

  function FailuresOf(h: Applicable, calls: seq<Call>): seq<Failure> {
    if calls == [] then [] else FailuresOf(h, calls[..|calls| - 1]) + FailureOf(h, calls[|calls| - 1])
  }

  /** How many of the calls threw. */
  function ThrowCount(h: Applicable, calls: seq<Call>): (n: nat)
    ensures n == |FailuresOf(h, calls)|
  {
    if calls == [] then 0
    else ThrowCount(h, calls[..|calls| - 1]) + if Thrown(h, calls[|calls| - 1]).Some? then 1 else 0
  }

  lemma {:induction false} FailuresAppend(h: Applicable, a: seq<Call>, b: seq<Call>)
    ensures FailuresOf(h, a + b) == FailuresOf(h, a) + FailuresOf(h, b)
  {
    hide FailureOf;
    if b == [] {
      assert a + b == a;
    } else {
      assert (a + b)[..|a + b| - 1] == a + b[..|b| - 1];
      FailuresAppend(h, a, b[..|b| - 1]);
    }
  }

  lemma {:induction false} GateFailuresAre(h: Applicable, n: nat, e: Event)
    requires n <= |h.gates|
    ensures FailuresOf(h, GateCalls(n, e)) == GateFailures(h.gates[..n], e)
  {
    if n > 0 {
      GateFailuresAre(h, n - 1, e);
      assert GateCalls(n, e)[..n - 1] == GateCalls(n - 1, e);
      assert h.gates[..n][..n - 1] == h.gates[..n - 1];
    }
  }

  lemma {:induction false} FilterFailuresAre(h: Applicable, fs: seq<Scoped<Filter>>, e: Event)
    requires fs <= h.filters
    ensures FailuresOf(h, FilterCalls(fs, e)) == FilterFailures(fs, e)
  {
    if fs != [] {
      var init := fs[..|fs| - 1];
      FilterFailuresAre(h, init, e);
      assert forall i :: 0 <= i < |init| ==> fs[..i] == init[..i];
      assert FilterCalls(fs, e)[..|init|] == FilterCalls(init, e);
    }
  }

  lemma OneFailure(h: Applicable, c: Call)
    ensures FailuresOf(h, [c]) == FailureOf(h, c) && FailuresOf(h, []) == []
  {
    hide FailureOf;
    assert [c][..0] == [];
  }

  lemma FailureOfHook(h: Applicable, phase: Phase, hs: seq<Scoped<Handler>>, e: Event)
    requires (phase == HandlePhase && hs <= h.handlers) || (phase == LatePhase && hs <= h.lates)
    requires hs != []
    ensures FailureOf(h, Call(phase, |hs| - 1, e)) == Failed(hs[|hs| - 1].name, MessageOfHook(hs[|hs| - 1].fn(e)))
  {
  }

  lemma {:induction false} HookFailuresAre(h: Applicable, phase: Phase, hs: seq<Scoped<Handler>>, e: Event,
                                          skip: Option<string> -> bool)
    requires (phase == HandlePhase && hs <= h.handlers) || (phase == LatePhase && hs <= h.lates)
    ensures FailuresOf(h, HookCalls(phase, hs, e, skip)) == HookFailures(hs, e, skip)
  {
    hide FailuresOf, FailureOf, Failed, MessageOfHook;
    if hs == [] {
      OneFailure(h, Call(phase, 0, e));
    } else {
      var call := Call(phase, |hs| - 1, e);
      OneFailure(h, call);
      var init := hs[..|hs| - 1];
      HookFailuresAre(h, phase, init, e, skip);
      FailureOfHook(h, phase, hs, e);
      FailuresAppend(h, HookCalls(phase, init, e, skip), if skip(hs[|hs| - 1].name) then [] else [call]);
    }
  }

  /** The recorded failures are those of the calls whose hook threw, in the order of the calls. */
  lemma FailuresAreThoseOfTheCalls(s: State, e: Event, skip: (string, Option<string>) -> bool)
    ensures var r := EmitSpec(s, e, skip);
            r.failures == FailuresOf(ApplicableTo(s, e), r.calls)
  {
    hide GateFailures, FilterFailures, HookFailures, GateCalls, FilterCalls, HookCalls, FailureOf, Filtered;
    var h := ApplicableTo(s, e);
    var k := FirstBlock(h.gates, e);
    if k < |h.gates| {
      BlockedGateDoesNotFail(h, k, e);
    } else {
      var out, skipped := Filtered(h.filters, e), SkipFor(skip, Filtered(h.filters, e).name);
      GateFailuresAre(h, k, e);
      assert h.gates[..k] == h.gates;
      FilterFailuresAre(h, h.filters, e);
      HookFailuresAre(h, HandlePhase, h.handlers, out, skipped);
      HookFailuresAre(h, LatePhase, h.lates, out, NEVER);
      var gates, filters := GateCalls(k, e), FilterCalls(h.filters, e);
      var handled := HookCalls(HandlePhase, h.handlers, out, skipped);
      FailuresAppend(h, gates + filters + handled, HookCalls(LatePhase, h.lates, out, NEVER));
      FailuresAppend(h, gates + filters, handled);
      FailuresAppend(h, gates, filters);
    }
  }

  lemma BlockedGateDoesNotFail(h: Applicable, k: nat, e: Event)
    requires k < |h.gates| && h.gates[k].fn(e) == Blocks
    ensures FailuresOf(h, GateCalls(k + 1, e)) == GateFailures(h.gates[..k], e)
  {
    GateFailuresAre(h, k, e);
    assert GateCalls(k + 1, e)[..k] == GateCalls(k, e);
  }

  /** The error counter grows by the number of calls whose hook threw, and the counters of the
      listed plugins grow together by the number of those whose hook belongs to a listed plugin. */
  lemma EmitChargesEveryFailure(s: State, e: Event, skip: (string, Option<string>) -> bool)
    ensures var r, h := EmitSpec(s, e, skip), ApplicableTo(s, e);
            && r.state.totalErrors == s.totalErrors + |r.failures|
            && r.state.totalErrors == s.totalErrors + ThrowCount(h, r.calls)
            && ErrorSum(r.state.plugins) == ErrorSum(s.plugins) + ListedCount(s.plugins, FailuresOf(h, r.calls))
  {
    hide FailuresOf, ThrowCount, ApplicableTo;
    var r := EmitSpec(s, e, skip);
    FailuresAreThoseOfTheCalls(s, e, skip);
    BlameAllSum(s.plugins, r.failures);
    StampedSum(BlameAll(s.plugins, r.failures), s.totalEvents + 1, r.state.plugins);
  }

  /** What an emission leaves of the counters and of the list of plugins. */
  lemma {:induction false} EmitCounts(s: State, e: Event, skip: (string, Option<string>) -> bool)
    ensures var r, out := EmitSpec(s, e, skip), Filtered(ApplicableTo(s, e).filters, e);
            && r.state.totalEvents == s.totalEvents + 1
            && r.state.gated == (if r.delivered then s.gated else s.gated + 1)
            && r.state == State(s.tables, s.teardowns, r.state.plugins, r.state.totalEvents, r.state.totalErrors,
                                r.state.gated, s.ran, s.nextTeardown)
            && |r.state.plugins| == |s.plugins|
            && (forall i :: 0 <= i < |s.plugins| ==>
                  && r.state.plugins[i].name == s.plugins[i].name && r.state.plugins[i].source == s.plugins[i].source
                  && (r.delivered ==>
                        && r.state.plugins[i].events == s.totalEvents + 1
                        && r.state.plugins[i].lastEvent == Some(out.name))
                  && (!r.delivered ==>
                        && r.state.plugins[i].events == s.plugins[i].events
                        && r.state.plugins[i].lastEvent == s.plugins[i].lastEvent))
  {
    hide GateFailures, FilterFailures, HookFailures, Filtered, FirstBlock, HooksFor, GateCalls, FilterCalls, HookCalls,
         BlameAll;
    BlameAllKeeps(s.plugins, EmitSpec(s, e, skip).failures);
  }

  lemma {:induction false} BlameAllKeeps(plugins: seq<PluginInfo>, fs: seq<Failure>)
    ensures var after := BlameAll(plugins, fs);
            && |after| == |plugins|
            && forall i :: 0 <= i < |plugins| ==>
                 after[i] == plugins[i].(errors := after[i].errors, lastError := after[i].lastError)
  {
    hide BlameFirst;
    if fs != [] {
      var before, f := BlameAll(plugins, fs[..|fs| - 1]), fs[|fs| - 1];
      BlameAllKeeps(plugins, fs[..|fs| - 1]);
      if f.name.Some? { BlameFirstKeeps(before, f.name.value, f.message); }
    }
  }

  lemma {:induction false} BlameFirstKeeps(plugins: seq<PluginInfo>, name: string, message: string)
    ensures var after := BlameFirst(plugins, name, message);
            && |after| == |plugins|
            && forall i :: 0 <= i < |plugins| ==>
                 after[i] == plugins[i].(errors := after[i].errors, lastError := after[i].lastError)
  {
    if plugins != [] { BlameFirstKeeps(plugins[1..], name, message); }
  }

  lemma {:induction false} StampedSum(plugins: seq<PluginInfo>, total: nat, after: seq<PluginInfo>)
    requires |after| == |plugins| && forall i :: 0 <= i < |plugins| ==> after[i].errors == plugins[i].errors
    ensures ErrorSum(after) == ErrorSum(plugins)
  {
    if plugins != [] { StampedSum(plugins[1..], total, after[1..]); }
  }

  lemma {:induction false} BlameFirstSum(plugins: seq<PluginInfo>, name: string, message: string)
    ensures |BlameFirst(plugins, name, message)| == |plugins|
    ensures forall i :: 0 <= i < |plugins| ==> BlameFirst(plugins, name, message)[i].name == plugins[i].name
    ensures ErrorSum(BlameFirst(plugins, name, message)) ==
            ErrorSum(plugins) + if exists i :: 0 <= i < |plugins| && plugins[i].name == name then 1 else 0
  {
    if plugins != [] && plugins[0].name != name {
      BlameFirstSum(plugins[1..], name, message);
      assert forall i :: 1 <= i < |plugins| ==> plugins[i] == plugins[1..][i - 1];
    }
  }

  lemma {:induction false} BlameAllSum(plugins: seq<PluginInfo>, fs: seq<Failure>)
    ensures |BlameAll(plugins, fs)| == |plugins|
    ensures forall i :: 0 <= i < |plugins| ==> BlameAll(plugins, fs)[i].name == plugins[i].name
    ensures ErrorSum(BlameAll(plugins, fs)) == ErrorSum(plugins) + ListedCount(plugins, fs)
  {
    if fs != [] {
      var n := |fs| - 1;
      BlameAllSum(plugins, fs[..n]);
      var before := BlameAll(plugins, fs[..n]);
      if fs[n].name.Some? {
        BlameFirstSum(before, fs[n].name.value, fs[n].message);
      }
      assert Listed(before, fs[n]) <==> Listed(plugins, fs[n]);
    }
  }

  // ----- loading and unloading, as a state machine

  datatype Op =
    | Load(plugin: Plugin, scope: Scope, name: Option<string>)
    | RegisterHook(registration: Registration)
    | RegisterInfo(info: PluginInfo)
    | UnloadScope(scope: Scope)
    | Destroy
    | Emit(event: Event)

  function UnloadSpec(s: State, scope: Scope): State {
    s.(tables := CleanedTables(s.tables, scope),
       teardowns := NotOfScope(s.teardowns, scope),
       plugins := InfosNotOf(s.plugins, scope),
       ran := s.ran + OfScope(s.teardowns, scope))
  }

  function InfosNotOf(plugins: seq<PluginInfo>, scope: Scope): seq<PluginInfo> {
    if plugins == [] then []
    else InfosNotOf(plugins[..|plugins| - 1], scope) +
         (if plugins[|plugins| - 1].source == scope then [] else [plugins[|plugins| - 1]])
  }

  /** Unloading keeps the entries of the other scopes, in their order. */
  lemma {:induction false} InfosAreByScope(plugins: seq<PluginInfo>, scope: Scope, info: PluginInfo)
    ensures InfosNotOf([], scope) == []
    ensures InfosNotOf(plugins + [info], scope)
            == if info.source == scope then InfosNotOf(plugins, scope) else InfosNotOf(plugins, scope) + [info]
  {
    assert (plugins + [info])[..|plugins|] == plugins;
  }

  function LoadSpec(s: State, plugin: Plugin, scope: Scope, name: Option<string>): State {
    var hooked := s.(tables := RegisterAll(s.tables, plugin.registrations, scope, name));
    if plugin.ending == WithTeardown
    then hooked.(teardowns := s.teardowns + [Teardown(s.nextTeardown, scope)], nextTeardown := s.nextTeardown + 1)
    else hooked
  }

  function Step(s: State, op: Op, skip: (string, Option<string>) -> bool): State {
    match op
    case Load(plugin, scope, name) => LoadSpec(s, plugin, scope, name)
    case RegisterHook(r) => s.(tables := Register(s.tables, r, User, None))
    case RegisterInfo(info) => s.(plugins := s.plugins + [info])
    case UnloadScope(scope) => UnloadSpec(s, scope)
    case Destroy => s.(teardowns := [], ran := s.ran + Ids(s.teardowns))
    case Emit(e) => EmitSpec(s, e, skip).state
  }

  lemma StepOfEmit(s: State, e: Event, skip: (string, Option<string>) -> bool)
    ensures Step(s, Emit(e), skip) == EmitSpec(s, e, skip).state
  {
  }

  lemma StepOfLoad(s: State, plugin: Plugin, scope: Scope, name: Option<string>,
                   skip: (string, Option<string>) -> bool)
    ensures Step(s, Load(plugin, scope, name), skip) == LoadSpec(s, plugin, scope, name)
  {
  }

  function Run(s: State, ops: seq<Op>, skip: (string, Option<string>) -> bool): State {
    if ops == [] then s else Step(Run(s, ops[..|ops| - 1], skip), ops[|ops| - 1], skip)
  }

  const EMPTY := State(Tables(map[], map[], map[], map[]), [], [], 0, 0, 0, [], 0)

  // ----- unloading a scope leaves no trace of it

  /** Does the operation register anything under `scope`? Outside a load the scope is `User`. */
  predicate Registers(op: Op, scope: Scope) {
    (op.Load? && op.scope == scope) || (op.RegisterHook? && scope == User)
  }

  /** The same history, had nothing ever been registered under `scope`. */
  function Never(ops: seq<Op>, scope: Scope): seq<Op> {
    if ops == [] then []
    else Never(ops[..|ops| - 1], scope) + (if Registers(ops[|ops| - 1], scope) then [] else [ops[|ops| - 1]])
  }

  lemma KeptAppend<F>(list: seq<Scoped<F>>, entry: Scoped<F>, scope: Scope)
    ensures Kept(list + [entry], scope) == Kept(list, scope) + if entry.scope == scope then [] else [entry]
  {
    assert (list + [entry])[..|list|] == list;
  }

  lemma GetCleaned<F>(t: Table<F>, scope: Scope, event: string)
    ensures Get(Cleaned(t, scope), event) == Kept(Get(t, event), scope)
  {
  }

  /** Tables without empty lists are equal when they agree on every event. */
  lemma SameTable<F>(a: Table<F>, b: Table<F>)
    requires NoEmptyLists(a) && NoEmptyLists(b)
    requires forall event :: Get(a, event) == Get(b, event)
    ensures a == b
  {
    forall event
      ensures event in a <==> event in b
      ensures event in a ==> a[event] == b[event]
    {
      assert Get(a, event) == Get(b, event);
    }
  }

  lemma CleanedAddTo<F>(t: Table<F>, event: string, entry: Scoped<F>, scope: Scope)
    ensures Cleaned(AddTo(t, event, entry), scope)
            == if entry.scope == scope then Cleaned(t, scope) else AddTo(Cleaned(t, scope), event, entry)
  {
    hide Kept;
    var left := Cleaned(AddTo(t, event, entry), scope);
    var right := if entry.scope == scope then Cleaned(t, scope) else AddTo(Cleaned(t, scope), event, entry);
    KeptAppend(Get(t, event), entry, scope);
    forall e
      ensures Get(left, e) == Get(right, e)
    {
      GetCleaned(AddTo(t, event, entry), scope, e);
      GetCleaned(t, scope, e);
    }
    SameTable(left, right);
  }

  lemma {:induction false} KeptCommutes<F>(list: seq<Scoped<F>>, a: Scope, b: Scope)
    ensures Kept(Kept(list, a), b) == Kept(Kept(list, b), a)
    ensures Kept(Kept(list, a), a) == Kept(list, a)
  {
    if list != [] {
      var init, last := list[..|list| - 1], list[|list| - 1];
      KeptCommutes(init, a, b);
      KeptAppend(Kept(init, a), last, b);
      KeptAppend(Kept(init, b), last, a);
      KeptAppend(Kept(init, a), last, a);
    }
  }

  lemma CleanedCommutes<F>(t: Table<F>, a: Scope, b: Scope)
    ensures Cleaned(Cleaned(t, a), b) == Cleaned(Cleaned(t, b), a)
  {
    var left, right := Cleaned(Cleaned(t, a), b), Cleaned(Cleaned(t, b), a);
    forall event
      ensures Get(left, event) == Get(right, event)
    {
      GetCleaned(Cleaned(t, a), b, event);
      GetCleaned(Cleaned(t, b), a, event);
      GetCleaned(t, a, event);
      GetCleaned(t, b, event);
      KeptCommutes(Get(t, event), a, b);
    }
    SameTable(left, right);
  }

  lemma {:induction false} RegisterCleaned(t: Tables, r: Registration, scope: Scope, name: Option<string>, gone: Scope)
    ensures CleanedTables(Register(t, r, scope, name), gone)
            == if scope == gone then CleanedTables(t, gone) else Register(CleanedTables(t, gone), r, scope, name)
  {
    hide Cleaned, AddTo, Kept;
    match r.hook {
      case OnGate(f) => CleanedAddTo(t.gates, r.event, Scoped(f, scope, name), gone);
      case OnFilter(f) => CleanedAddTo(t.filters, r.event, Scoped(f, scope, name), gone);
      case OnHandle(f) => CleanedAddTo(t.handlers, r.event, Scoped(f, scope, name), gone);
      case OnLate(f) => CleanedAddTo(t.lates, r.event, Scoped(f, scope, name), gone);
    }
  }

  lemma {:induction false} RegisterAllCleaned(t: Tables, rs: seq<Registration>, scope: Scope, name: Option<string>,
                                              gone: Scope)
    ensures CleanedTables(RegisterAll(t, rs, scope, name), gone)
            == if scope == gone then CleanedTables(t, gone) else RegisterAll(CleanedTables(t, gone), rs, scope, name)
  {
    if rs != [] {
      var init := rs[..|rs| - 1];
      RegisterAllCleaned(t, init, scope, name, gone);
      RegisterCleaned(RegisterAll(t, init, scope, name), rs[|rs| - 1], scope, name, gone);
    }
  }

  lemma EmitKeepsTables(s: State, e: Event, skip: (string, Option<string>) -> bool)
    ensures EmitSpec(s, e, skip).state.tables == s.tables
  {
  }

  /** Cleaning a scope commutes with every operation and undoes its registrations. */
  lemma {:induction false} StepCleaned(s: State, op: Op, skip: (string, Option<string>) -> bool, gone: Scope, u: State)
    requires u.tables == CleanedTables(s.tables, gone)
    ensures CleanedTables(Step(s, op, skip).tables, gone)
            == if Registers(op, gone) then u.tables else Step(u, op, skip).tables
  {
    match op {
      case Load(plugin, scope, name) => RegisterAllCleaned(s.tables, plugin.registrations, scope, name, gone);
      case RegisterHook(r) => RegisterCleaned(s.tables, r, User, None, gone);
      case RegisterInfo(_) =>
      case UnloadScope(scope) =>
        CleanedCommutes(s.tables.gates, scope, gone);
        CleanedCommutes(s.tables.filters, scope, gone);
        CleanedCommutes(s.tables.handlers, scope, gone);
        CleanedCommutes(s.tables.lates, scope, gone);
      case Destroy =>
      case Emit(e) =>
        EmitKeepsTables(s, e, skip);
        EmitKeepsTables(u, e, skip);
    }
  }

  lemma {:induction false} RunCleaned(ops: seq<Op>, skip: (string, Option<string>) -> bool, gone: Scope)
    ensures CleanedTables(Run(EMPTY, ops, skip).tables, gone) == Run(EMPTY, Never(ops, gone), skip).tables
  {
    if ops == [] {
    } else {
      var init, op := ops[..|ops| - 1], ops[|ops| - 1];
      RunCleaned(init, skip, gone);
      var s, u := Run(EMPTY, init, skip), Run(EMPTY, Never(init, gone), skip);
      StepCleaned(s, op, skip, gone, u);
      if !Registers(op, gone) {
        assert Never(ops, gone) == Never(init, gone) + [op];
        assert Never(ops, gone)[..|Never(ops, gone)| - 1] == Never(init, gone);
      } else {
        assert Never(ops, gone) == Never(init, gone);
      }
    }
  }

  /** After any history, unloading a scope leaves all four hook tables as if nothing had ever
      been registered under that scope: the same hooks in the same order, and no empty lists. */
  lemma UnloadLeavesNoTrace(ops: seq<Op>, skip: (string, Option<string>) -> bool, scope: Scope)
    ensures Run(EMPTY, ops + [UnloadScope(scope)], skip).tables == Run(EMPTY, Never(ops, scope), skip).tables
    ensures var t := Run(EMPTY, ops + [UnloadScope(scope)], skip).tables;
            && (forall event :: event in t.gates ==> t.gates[event] != [])
            && (forall event :: event in t.filters ==> t.filters[event] != [])
            && (forall event :: event in t.handlers ==> t.handlers[event] != [])
            && (forall event :: event in t.lates ==> t.lates[event] != [])
  {
    var all := ops + [UnloadScope(scope)];
    assert all[..|all| - 1] == ops;
    RunCleaned(ops, skip, scope);
  }

  // ----- every teardown runs at most once

  predicate Distinct(s: seq<nat>) {
    forall i, j :: 0 <= i < j < |s| ==> s[i] != s[j]
  }

  /** Each teardown ever registered is either still pending or has run, and never both or twice. */
  ghost predicate TeardownsCounted(s: State) {
    && Distinct(s.ran + Ids(s.teardowns))
    && forall id: nat :: id in s.ran + Ids(s.teardowns) <==> id < s.nextTeardown
  }

  lemma IdsAppend(ts: seq<Teardown>, last: Teardown)
    ensures Ids(ts + [last]) == Ids(ts) + [last.id]
  {
    assert (ts + [last])[..|ts|] == ts;
  }

  lemma MultisetStep(x: nat, all: seq<nat>, a: seq<nat>, b: seq<nat>, first: bool)
    requires multiset(all) == multiset(a) + multiset(b)
    ensures multiset(all + [x]) == multiset(a + if first then [x] else []) + multiset(b + if first then [] else [x])
  {
    assert a + [] == a && b + [] == b;
  }

  lemma DistinctAppend(s: seq<nat>, x: nat)
    requires Distinct(s) && x !in s
    ensures Distinct(s + [x])
  {
  }

  /** Unloading runs the teardowns of its scope and keeps the others, each list in its order. */
  lemma {:induction false} SplitIsByScope(ts: seq<Teardown>, scope: Scope, t: Teardown)
    ensures OfScope(ts + [t], scope) == if t.scope == scope then OfScope(ts, scope) + [t.id] else OfScope(ts, scope)
    ensures NotOfScope(ts + [t], scope)
            == if t.scope == scope then NotOfScope(ts, scope) else NotOfScope(ts, scope) + [t]
    ensures OfScope([], scope) == [] && NotOfScope([], scope) == []
  {
    assert (ts + [t])[..|ts|] == ts;
  }

  /** Splitting the pending teardowns by scope loses none and duplicates none. */
  lemma {:induction false} SplitByScope(ts: seq<Teardown>, scope: Scope)
    ensures multiset(Ids(ts)) == multiset(OfScope(ts, scope)) + multiset(Ids(NotOfScope(ts, scope)))
  {
    if ts != [] {
      var init, last := ts[..|ts| - 1], ts[|ts| - 1];
      SplitByScope(init, scope);
      var b := NotOfScope(init, scope);
      MultisetStep(last.id, Ids(init), OfScope(init, scope), Ids(b), last.scope == scope);
      if last.scope == scope {
        assert NotOfScope(ts, scope) == b;
      } else {
        IdsAppend(b, last);
      }
    }
  }

  lemma DistinctIsMultiplicity(s: seq<nat>)
    ensures Distinct(s) <==> forall x :: x in s ==> multiset(s)[x] == 1
  {
    if Distinct(s) {
      forall x | x in s ensures multiset(s)[x] == 1 { DistinctOnce(s, x); }
    } else {
      var i, j :| 0 <= i < j < |s| && s[i] == s[j];
      TwiceIsTwo(s, i, j);
    }
  }

  lemma {:induction false} DistinctOnce(s: seq<nat>, x: nat)
    requires Distinct(s)
    ensures multiset(s)[x] == if x in s then 1 else 0
  {
    if s != [] {
      var init := s[..|s| - 1];
      assert s == init + [s[|s| - 1]];
      DistinctOnce(init, x);
    }
  }

  lemma TwiceIsTwo(s: seq<nat>, i: nat, j: nat)
    requires i < j < |s| && s[i] == s[j]
    ensures multiset(s)[s[i]] >= 2
  {
    assert s == s[..j] + s[j..];
    assert s[i] in s[..j] && s[j] in s[j..] by { assert s[..j][i] == s[i]; assert s[j..][0] == s[j]; }
  }

  lemma SameMultisetSameCount(a: seq<nat>, b: seq<nat>)
    requires multiset(a) == multiset(b)
    ensures Distinct(a) <==> Distinct(b)
    ensures forall x :: x in a <==> x in b
  {
    forall x ensures x in a <==> x in b { assert x in a <==> x in multiset(a); }
    DistinctIsMultiplicity(a);
    DistinctIsMultiplicity(b);
  }

  lemma LoadKeepsCount(s: State, plugin: Plugin, scope: Scope, name: Option<string>)
    requires TeardownsCounted(s)
    ensures TeardownsCounted(LoadSpec(s, plugin, scope, name))
  {
    var t := LoadSpec(s, plugin, scope, name);
    if plugin.ending == WithTeardown {
      var before := s.ran + Ids(s.teardowns);
      IdsAppend(s.teardowns, Teardown(s.nextTeardown, scope));
      assert t.ran + Ids(t.teardowns) == before + [s.nextTeardown];
      DistinctAppend(before, s.nextTeardown);
      assert forall id :: id in before + [s.nextTeardown] <==> id in before || id == s.nextTeardown;
    }
  }

  lemma UnloadKeepsCount(s: State, scope: Scope)
    requires TeardownsCounted(s)
    ensures TeardownsCounted(UnloadSpec(s, scope))
  {
    var t := UnloadSpec(s, scope);
    SplitByScope(s.teardowns, scope);
    assert multiset(t.ran) == multiset(s.ran) + multiset(OfScope(s.teardowns, scope));
    SameMultisetSameCount(s.ran + Ids(s.teardowns), t.ran + Ids(t.teardowns));
  }

  lemma StepKeepsCount(s: State, op: Op, skip: (string, Option<string>) -> bool)
    requires TeardownsCounted(s)
    ensures TeardownsCounted(Step(s, op, skip))
  {
    match op {
      case Load(plugin, scope, name) =>
        LoadKeepsCount(s, plugin, scope, name);
        assert Step(s, op, skip) == LoadSpec(s, plugin, scope, name);
      case UnloadScope(scope) => UnloadKeepsCount(s, scope);
      case Destroy =>
        var t := Step(s, op, skip);
        assert t.ran + Ids(t.teardowns) == s.ran + Ids(s.teardowns);
      case RegisterHook(_) =>
      case RegisterInfo(_) =>
      case Emit(_) =>
    }
  }

  /** Over any run, no teardown runs twice, and one that ran is not pending any more. */
  lemma {:induction false} TeardownsRunAtMostOnce(ops: seq<Op>, skip: (string, Option<string>) -> bool)
    ensures TeardownsCounted(Run(EMPTY, ops, skip))
    ensures var ran := Run(EMPTY, ops, skip).ran; forall i, j :: 0 <= i < j < |ran| ==> ran[i] != ran[j]
  {
    if ops != [] {
      TeardownsRunAtMostOnce(ops[..|ops| - 1], skip);
      StepKeepsCount(Run(EMPTY, ops[..|ops| - 1], skip), ops[|ops| - 1], skip);
    }
    var s := Run(EMPTY, ops, skip);
    assert forall i :: 0 <= i < |s.ran| ==> s.ran[i] == (s.ran + Ids(s.teardowns))[i];
  }

  // ----- the system itself

  /** Drops a scope's entries from one table, list by list. */
  method Clean<F>(t: Table<F>, scope: Scope) returns (r: Table<F>)
    ensures r == Cleaned(t, scope)
  {
    r := t;
    var todo := t.Keys;
    while todo != {}
      invariant todo <= t.Keys
      invariant forall e :: e in r <==> e in t && (e in todo || Kept(t[e], scope) != [])
      invariant forall e :: e in r ==> r[e] == if e in todo then t[e] else Kept(t[e], scope)
    {
      var key :| key in todo;
      var kept := Kept(t[key], scope);
      if |kept| == 0 {
        r := r - {key};
      } else {
        r := r[key := kept];
      }
      todo := todo - {key};
    }
  }

  lemma BlameNone(plugins: seq<PluginInfo>)
    ensures BlameAll(plugins, []) == plugins
  {
  }

  lemma BlameAllAppend(plugins: seq<PluginInfo>, fs: seq<Failure>, f: Failure)
    ensures BlameAll(plugins, fs + [f]) == Blame(BlameAll(plugins, fs), f)
  {
    assert (fs + [f])[..|fs|] == fs;
  }

  class System {
    var gates: Table<Gate>
    var filters: Table<Filter>
    var handlers: Table<Handler>
    var lates: Table<Handler>
    var teardowns: seq<Teardown>
    var plugins: seq<PluginInfo>
    var totalEvents: nat
    var totalErrors: nat
    var gated: nat
    var currentScope: Scope
    var currentName: Option<string>
    const shouldSkip: (string, Option<string>) -> bool

    // which teardowns ran, in order, and how many were registered
    ghost var ran: seq<nat>
    var nextTeardown: nat

    constructor (shouldSkip: (string, Option<string>) -> bool)
      ensures Snapshot() == EMPTY && this.shouldSkip == shouldSkip && Idle()
    {
      gates, filters, handlers, lates := map[], map[], map[], map[];
      teardowns, plugins := [], [];
      totalEvents, totalErrors, gated := 0, 0, 0;
      currentScope, currentName := User, None;
      ran, nextTeardown := [], 0;
      this.shouldSkip := shouldSkip;
    }

    ghost function Snapshot(): State
      reads this
    {
      State(Tables(gates, filters, handlers, lates), teardowns, plugins,
                         totalEvents, totalErrors, gated, ran, nextTeardown)
    }

    /** Outside a load, hooks are registered under the user scope and no plugin name. */
    ghost predicate Idle()
      reads this
    {
      currentScope == User && currentName == None
    }

    /** Registers one hook in the current context. */
    method AddHook(r: Registration)
      modifies this
      ensures Snapshot() == old(Snapshot()).(tables := Register(old(Snapshot()).tables, r, currentScope, currentName))
      ensures Idle() ==> Snapshot() == Step(old(Snapshot()), RegisterHook(r), shouldSkip)
      ensures currentScope == old(currentScope) && currentName == old(currentName)
    {
      match r.hook
      case OnGate(f) => gates := AddTo(gates, r.event, Scoped(f, currentScope, currentName));
      case OnFilter(f) => filters := AddTo(filters, r.event, Scoped(f, currentScope, currentName));
      case OnHandle(f) => handlers := AddTo(handlers, r.event, Scoped(f, currentScope, currentName));
      case OnLate(f) => lates := AddTo(lates, r.event, Scoped(f, currentScope, currentName));
    }

    /** Lists a plugin, with nothing counted yet. */
    method RegisterPlugin(name: string, source: Scope)
      modifies this`plugins
      ensures Snapshot() == old(Snapshot()).(plugins := old(plugins) + [PluginInfo(name, source, 0, 0, None, None)])
      ensures Snapshot()
              == Step(old(Snapshot()), RegisterInfo(PluginInfo(name, source, 0, 0, None, None)), shouldSkip)
    {
      plugins := plugins + [PluginInfo(name, source, 0, 0, None, None)];
    }

    /** Runs a plugin's registrations in its own context and restores the previous context,
        also when the plugin throws. */
    method LoadPlugin(plugin: Plugin, scope: Scope, name: Option<string>) returns (threw: bool)
      modifies this
      ensures Snapshot() == LoadSpec(old(Snapshot()), plugin, scope, name)
      ensures Snapshot() == Step(old(Snapshot()), Load(plugin, scope, name), shouldSkip)
      ensures currentScope == old(currentScope) && currentName == old(currentName)
      ensures threw == (plugin.ending == PluginThrows)
    {
      hide Step, Register;
      StepOfLoad(Snapshot(), plugin, scope, name, shouldSkip);
      var prevScope, prevName := currentScope, currentName;
      currentScope, currentName := scope, name;
      var rs := plugin.registrations;
      for i := 0 to |rs|
        invariant currentScope == scope && currentName == name
        invariant Snapshot() == old(Snapshot()).(tables := RegisterAll(old(Snapshot()).tables, rs[..i], scope, name))
      {
        assert rs[..i + 1][..i] == rs[..i];
        AddHook(rs[i]);
      }
      assert rs[..|rs|] == rs;
      if plugin.ending == WithTeardown {
        teardowns := teardowns + [Teardown(nextTeardown, scope)];
        nextTeardown := nextTeardown + 1;
      }
      currentScope, currentName := prevScope, prevName;
      threw := plugin.ending == PluginThrows;
    }

    /** Runs the scope's teardowns once, in order, and keeps the others pending. */
    method RunTeardowns(scope: Scope)
      modifies this`teardowns, this`ran
      ensures teardowns == NotOfScope(old(teardowns), scope)
      ensures ran == old(ran) + OfScope(old(teardowns), scope)
    {
      var keep: seq<Teardown> := [];
      for i := 0 to |teardowns|
        invariant teardowns == old(teardowns)
        invariant keep == NotOfScope(teardowns[..i], scope)
        invariant ran == old(ran) + OfScope(teardowns[..i], scope)
      {
        assert teardowns[..i + 1][..i] == teardowns[..i];
        if teardowns[i].scope == scope {
          ran := ran + [teardowns[i].id];
        } else {
          keep := keep + [teardowns[i]];
        }
      }
      assert teardowns[..|teardowns|] == teardowns;
      teardowns := keep;
    }

    /** Runs the scope's teardowns and drops everything registered under it. */
    method Unload(scope: Scope)
      modifies this
      ensures Snapshot() == UnloadSpec(old(Snapshot()), scope)
      ensures Snapshot() == Step(old(Snapshot()), UnloadScope(scope), shouldSkip)
      ensures currentScope == old(currentScope) && currentName == old(currentName)
    {
      hide Cleaned, NotOfScope, OfScope, InfosNotOf;
      RunTeardowns(scope);
      gates := Clean(gates, scope);
      filters := Clean(filters, scope);
      handlers := Clean(handlers, scope);
      lates := Clean(lates, scope);
      plugins := InfosNotOf(plugins, scope);
    }

    /** Runs every pending teardown once. */
    method DestroyAll()
      modifies this
      ensures Snapshot() == old(Snapshot()).(teardowns := [], ran := old(ran) + Ids(old(teardowns)))
      ensures Snapshot() == Step(old(Snapshot()), Destroy, shouldSkip)
    {
      for i := 0 to |teardowns|
        invariant teardowns == old(teardowns)
        invariant Snapshot() == old(Snapshot()).(ran := old(ran) + Ids(teardowns[..i]))
      {
        assert teardowns[..i + 1][..i] == teardowns[..i];
        ran := ran + [teardowns[i].id];
      }
      assert teardowns[..|teardowns|] == teardowns;
      teardowns := [];
    }

    /** Counts a failure, and charges the first listed plugin of that name. */
    method RecordError(name: Option<string>, message: string)
      modifies this`totalErrors, this`plugins
      ensures totalErrors == old(totalErrors) + 1
      ensures plugins == Blame(old(plugins), Failure(name, message))
    {
      hide BlameFirst;
      totalErrors := totalErrors + 1;
      if name == None || name == Some("") {
        return;
      }
      for i := 0 to |plugins|
        invariant plugins == old(plugins) && totalErrors == old(totalErrors) + 1
        invariant forall j :: 0 <= j < i ==> plugins[j].name != name.value
      {
        if plugins[i].name == name.value {
          BlamedAt(plugins, i, name.value, message);
          plugins := plugins[i := plugins[i].(errors := plugins[i].errors + 1, lastError := Some(message))];
          return;
        }
      }
      BlamedAt(plugins, |plugins|, name.value, message);
    }

    /** Records the failure of a call, if it threw, keeping the running list of failures. */
    method Note(name: Option<string>, message: Option<string>, ghost before: seq<PluginInfo>,
                ghost failures: seq<Failure>)
      requires plugins == BlameAll(before, failures)
      modifies this`totalErrors, this`plugins
      ensures totalErrors == old(totalErrors) + |Failed(name, message)|
      ensures plugins == BlameAll(before, failures + Failed(name, message))
    {
      if message.Some? {
        RecordError(name, message.value);
        BlameAllAppend(before, failures, Failure(name, message.value));
      } else {
        assert failures + [] == failures;
      }
    }

    method EmitGates(e: Event) returns (blocked: bool, ghost calls: seq<Call>, ghost failures: seq<Failure>)
      modifies this`totalErrors, this`plugins
      ensures var gs := HooksFor(gates, e.name);
              var k := FirstBlock(gs, e);
              && blocked == (k < |gs|)
              && calls == GateCalls(if blocked then k + 1 else k, e)
              && failures == GateFailures(gs[..k], e)
              && totalErrors == old(totalErrors) + |failures|
              && plugins == BlameAll(old(plugins), failures)
    {
      hide HooksFor, BlameAll, Failed, MessageOfGate;
      BlameNone(plugins);
      var gs := HooksFor(gates, e.name);
      calls, failures := [], [];
      for i := 0 to |gs|
        invariant forall k :: 0 <= k < i ==> gs[k].fn(e) != Blocks
        invariant calls == GateCalls(i, e)
        invariant failures == GateFailures(gs[..i], e)
        invariant totalErrors == old(totalErrors) + |failures|
        invariant plugins == BlameAll(old(plugins), failures)
      {
        assert gs[..i + 1][..i] == gs[..i];
        var outcome := gs[i].fn(e);
        calls := calls + [Call(GatePhase, i, e)];
        if outcome == Blocks {
          return true, calls, failures;
        }
        Note(gs[i].name, MessageOfGate(outcome), old(plugins), failures);
        failures := failures + Failed(gs[i].name, MessageOfGate(outcome));
      }
      blocked := false;
    }

    method EmitFilters(e: Event, ghost before: seq<PluginInfo>, ghost earlier: seq<Failure>)
      returns (out: Event, ghost calls: seq<Call>, ghost failures: seq<Failure>)
      requires plugins == BlameAll(before, earlier)
      modifies this`totalErrors, this`plugins
      ensures var fs := HooksFor(filters, e.name);
              && out == Filtered(fs, e)
              && calls == FilterCalls(fs, e)
              && failures == FilterFailures(fs, e)
              && totalErrors == old(totalErrors) + |failures|
              && plugins == BlameAll(before, earlier + failures)
    {
      hide HooksFor, BlameAll, Failed;
      var fs := HooksFor(filters, e.name);
      out := e;
      calls, failures := [], [];
      assert earlier + [] == earlier;
      for i := 0 to |fs|
        invariant out == Filtered(fs[..i], e)
        invariant |calls| == i && forall k :: 0 <= k < i ==> calls[k] == Call(FilterPhase, k, Filtered(fs[..k], e))
        invariant failures == FilterFailures(fs[..i], e)
        invariant totalErrors == old(totalErrors) + |failures|
        invariant plugins == BlameAll(before, earlier + failures)
      {
        assert fs[..i + 1][..i] == fs[..i];
        var outcome := fs[i].fn(out);
        calls := calls + [Call(FilterPhase, i, out)];
        Note(fs[i].name, MessageOfFilter(outcome), before, earlier + failures);
        failures := failures + Failed(fs[i].name, MessageOfFilter(outcome));
        assert earlier + FilterFailures(fs[..i], e) + Failed(fs[i].name, MessageOfFilter(outcome))
               == earlier + failures;
        if outcome.Becomes? {
          out := outcome.event;
        }
      }
      assert fs[..|fs|] == fs;
    }

    method EmitHooks(phase: Phase, hs: seq<Scoped<Handler>>, e: Event, skip: Option<string> -> bool,
                     ghost before: seq<PluginInfo>, ghost earlier: seq<Failure>)
      returns (ghost calls: seq<Call>, ghost failures: seq<Failure>)
      requires plugins == BlameAll(before, earlier)
      modifies this`totalErrors, this`plugins
      ensures calls == HookCalls(phase, hs, e, skip)
      ensures failures == HookFailures(hs, e, skip)
      ensures totalErrors == old(totalErrors) + |failures|
      ensures plugins == BlameAll(before, earlier + failures)
    {
      hide BlameAll, Failed, MessageOfHook;
      calls, failures := [], [];
      assert earlier + [] == earlier;
      for i := 0 to |hs|
        invariant calls == HookCalls(phase, hs[..i], e, skip)
        invariant failures == HookFailures(hs[..i], e, skip)
        invariant totalErrors == old(totalErrors) + |failures|
        invariant plugins == BlameAll(before, earlier + failures)
      {
        assert hs[..i + 1][..i] == hs[..i];
        if skip(hs[i].name) {
          assert HookFailures(hs[..i], e, skip) + [] == failures;
          continue;
        }
        var outcome := hs[i].fn(e);
        calls := calls + [Call(phase, i, e)];
        Note(hs[i].name, MessageOfHook(outcome), before, earlier + failures);
        failures := failures + Failed(hs[i].name, MessageOfHook(outcome));
        assert earlier + HookFailures(hs[..i], e, skip) + Failed(hs[i].name, MessageOfHook(outcome))
               == earlier + failures;
      }
      assert hs[..|hs|] == hs;
    }

    /** Sends one event through the four phases. */
    method EmitEvent(e: Event) returns (delivered: bool, ghost calls: seq<Call>)
      modifies this
      ensures var r := EmitSpec(old(Snapshot()), e, shouldSkip);
              delivered == r.delivered && Snapshot() == r.state && calls == r.calls
      ensures Snapshot() == Step(old(Snapshot()), Emit(e), shouldSkip)
      ensures currentScope == old(currentScope) && currentName == old(currentName)
    {
      hide GateFailures, FilterFailures, HookFailures, BlameAll, HookCalls, Filtered, FirstBlock, GateCalls,
           FilterCalls, HooksFor, Stamped, Step;
      StepOfEmit(Snapshot(), e, shouldSkip);
      totalEvents := totalEvents + 1;
      ghost var before := plugins;
      var blocked, gateCalls, gateFailures := EmitGates(e);
      calls := gateCalls;
      if blocked {
        gated := gated + 1;
        return false, calls;
      }
      ghost var gs := HooksFor(gates, e.name);
      assert gs[..|gs|] == gs;
      var out, filterCalls, filterFailures := EmitFilters(e, before, gateFailures);
      ghost var failures := gateFailures + filterFailures;
      var handleCalls, handleFailures :=
        EmitHooks(HandlePhase, HooksFor(handlers, out.name), out, SkipFor(shouldSkip, out.name), before, failures);
      failures := failures + handleFailures;
      var lateCalls, lateFailures := EmitHooks(LatePhase, HooksFor(lates, out.name), out, NEVER, before, failures);
      calls := gateCalls + filterCalls + handleCalls + lateCalls;
      plugins := Stamped(plugins, totalEvents, out.name);
      delivered := true;
    }
  }
}
