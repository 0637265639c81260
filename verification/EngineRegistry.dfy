/** The engine's routing table: plugins register a path prefix under /api/, requests are routed to
    the longest registered prefix, and failures unbind a prefix. */
module EngineRegistry {
  import opened Strings
  import opened Wrappers

  // ----- prefixes

  predicate DoubleAt(s: string, i: int, c: char) {
    0 <= i < |s| - 1 && s[i] == c && s[i + 1] == c
  }

  /** The character occurs twice in a row. */
  predicate HasDouble(s: string, c: char) {
    exists i :: 0 <= i < |s| && DoubleAt(s, i, c)
  }

  function StripSlashes(s: string): string {
    if s != "" && s[|s| - 1] == '/' then StripSlashes(s[..|s| - 1]) else s
  }

  const API := "/api/"
  const ENGINE := "/api/_engine"

  function NormalizePrefix(prefix: string): Result<string> {
    var trimmed := Trim(prefix);
    if !(API <= trimmed) then Err("engine prefix must start with /api/")
    else if trimmed == API || |trimmed| <= |API| then Err("engine prefix must include a plugin path after /api/")
    else if ENGINE <= trimmed then Err("engine prefix may not bind /api/_engine")
    else if HasSpace(trimmed) || HasDouble(trimmed, '/') || HasDouble(trimmed, '.')
    then Err("engine prefix must be a clean absolute /api path")
    else Ok(StripSlashes(trimmed))
  }

  /** What a normalized prefix looks like, by segments: "/api" and at least one more, none empty,
      the first of them not starting with "_engine", no whitespace and no "..". */
  predicate IsNormal(p: string) {
    var parts := Split(p, '/');
    && |parts| >= 3 && parts[0] == "" && parts[1] == "api" && !("_engine" <= parts[2])
    && NonEmptyFrom(parts, 1)
    && (forall i :: 0 <= i < |p| ==> !IsSpace(p[i]))
    && (forall i :: 0 <= i < |p| - 1 ==> !(p[i] == '.' && p[i + 1] == '.'))
  }

  lemma DotsAreDouble(p: string)
    ensures HasDouble(p, '.') <==> exists i :: 0 <= i < |p| - 1 && p[i] == '.' && p[i + 1] == '.'
  {
    if i :| 0 <= i < |p| - 1 && p[i] == '.' && p[i + 1] == '.' {
      assert DoubleAt(p, i, '.');
    }
  }

  lemma {:induction false} SplitHead(s: string)
    ensures Split(s, '/')[0] == "" <==> s == "" || s[0] == '/'
  {
  }

  predicate NonEmptyFrom(parts: seq<string>, n: nat) {
    forall i :: n <= i < |parts| ==> parts[i] != ""
  }

  lemma DoubleAtFront(c: char, t: string)
    ensures HasDouble([c] + t, '/') <==> HasDouble(t, '/') || (t != "" && c == '/' && t[0] == '/')
  {
    var s := [c] + t;
    forall i | 0 <= i < |t| ensures DoubleAt(s, i + 1, '/') == DoubleAt(t, i, '/') {
      assert s[i + 1] == t[i];
    }
    if HasDouble(t, '/') {
      var i :| 0 <= i < |t| && DoubleAt(t, i, '/');
      assert DoubleAt(s, i + 1, '/');
    }
    if HasDouble(s, '/') {
      var i :| 0 <= i < |s| && DoubleAt(s, i, '/');
      if i > 0 {
        var k := i - 1;
        assert DoubleAt(s, k + 1, '/') == DoubleAt(t, k, '/');
      }
    }
    assert t != "" && c == '/' && t[0] == '/' ==> DoubleAt(s, 0, '/');
  }

  /** No segment after the first is empty exactly when slashes are single and none is last. */
  lemma {:induction false} NoEmptySegment(s: string)
    ensures NonEmptyFrom(Split(s, '/'), 1) <==> !HasDouble(s, '/') && (s == "" || s[|s| - 1] != '/')
  {
    if s != "" {
      var t := s[1..];
      NoEmptySegment(t);
      SplitHead(t);
      assert s == [s[0]] + t;
      DoubleAtFront(s[0], t);
      var rest := Split(t, '/');
      if s[0] == '/' {
        assert Split(s, '/') == [""] + rest;
        assert NonEmptyFrom([""] + rest, 1) <==> rest[0] != "" && NonEmptyFrom(rest, 1) by {
          assert forall i :: 0 <= i < |rest| ==> rest[i] == ([""] + rest)[i + 1];
          assert ([""] + rest)[1] == rest[0];
        }
      } else {
        var parts := [[s[0]] + rest[0]] + rest[1..];
        assert Split(s, '/') == parts;
        assert forall i :: 1 <= i < |rest| ==> rest[i] == parts[i];
        assert NonEmptyFrom(parts, 1) <==> NonEmptyFrom(rest, 1);
      }
    }
  }

  lemma {:induction false} FirstSegmentStarts(t: string, w: string)
    requires '/' !in w
    ensures w <= Split(t, '/')[0] <==> w <= t
  {
    if w != "" && t != "" {
      if t[0] == '/' {
        assert Split(t, '/')[0] == "";
      } else {
        var first := Split(t[1..], '/')[0];
        FirstSegmentStarts(t[1..], w[1..]);
        assert Split(t, '/')[0] == [t[0]] + first;
        assert w == [w[0]] + w[1..] && t == [t[0]] + t[1..];
        assert w <= [t[0]] + first <==> w[0] == t[0] && w[1..] <= first by {
          if w <= [t[0]] + first { assert w[1..] == ([t[0]] + first)[1..][..|w| - 1]; }
        }
        assert w <= t <==> w[0] == t[0] && w[1..] <= t[1..] by {
          if w <= t { assert w[1..] == t[1..][..|w| - 1]; }
        }
      }
    }
  }

  lemma ApiPathSegments(t: string)
    ensures Split(API + t, '/') == ["", "api"] + Split(t, '/')
  {
    var p := API + t;
    assert p == "" + ['/'] + ("api" + ['/'] + t);
    SplitAtFirst("", '/', "api" + ['/'] + t);
    SplitAtFirst("api", '/', t);
  }

  lemma SegmentsOfApi(parts: seq<string>)
    requires |parts| >= 3 && parts[0] == "" && parts[1] == "api"
    ensures Join(parts, '/') == API + Join(parts[2..], '/')
  {
    assert parts == ["", "api"] + parts[2..];
    JoinAcross(["", "api"], '/', parts[2..]);
    assert ["", "api"][..1] == [""];
    assert Join(["", "api"], '/') == "/api";
  }

  lemma ApiSegments(p: string)
    ensures API <= p <==> |Split(p, '/')| >= 3 && Split(p, '/')[0] == "" && Split(p, '/')[1] == "api"
    ensures API <= p ==> Split(p, '/') == ["", "api"] + Split(p[|API|..], '/')
    ensures ENGINE <= p <==> API <= p && "_engine" <= Split(p, '/')[2]
  {
    hide Split, Join;
    assert ENGINE == API + "_engine";
    if API <= p {
      var t := p[|API|..];
      assert p == API + t;
      ApiPathSegments(t);
      FirstSegmentStarts(t, "_engine");
      EngineTail(t);
    } else {
      assert ENGINE <= p ==> API <= p;
      var parts := Split(p, '/');
      if |parts| >= 3 && parts[0] == "" && parts[1] == "api" {
        JoinOfSplit(p, '/');
        SegmentsOfApi(parts);
        assert false;
      }
    }
  }

  lemma EngineTail(t: string)
    ensures ENGINE <= API + t <==> "_engine" <= t
  {
    if ENGINE <= API + t {
      assert ENGINE[|API|..] == (API + t)[|API|..][..7];
    }
    if "_engine" <= t {
      assert t == "_engine" + t[7..];
      assert API + t == ENGINE + t[7..];
    }
  }

  /** Stripping a path without doubled slashes removes at most one character. */
  lemma StripOnce(s: string)
    requires !HasDouble(s, '/')
    ensures StripSlashes(s) == if s != "" && s[|s| - 1] == '/' then s[..|s| - 1] else s
  {
    if |s| >= 2 {
      NotDoubleAt(s, |s| - 2);
    }
  }

  lemma NormalizedIsNormal(prefix: string)
    requires NormalizePrefix(prefix).Ok?
    ensures IsNormal(NormalizePrefix(prefix).value)
  {
    hide Split, Join, Trim, HasDouble, StripSlashes;
    var t, p := Trim(prefix), NormalizePrefix(prefix).value;
    StripOnce(t);
    PrefixIsCleanToo(t, |p|, '/');
    PrefixIsCleanToo(t, |p|, '.');
    assert t[..|p|] == p;
    NotDoubleAt(t, |API| - 1);
    assert API <= p;
    ApiSegments(p);
    NoEmptySegment(p);
    NotDoubleAt(t, |t| - 2);
    DotsAreDouble(p);
    assert ENGINE <= p ==> ENGINE <= t;
  }

  lemma PrefixIsCleanToo(s: string, n: nat, c: char)
    requires n <= |s|
    ensures HasDouble(s[..n], c) ==> HasDouble(s, c)
    ensures HasSpace(s[..n]) ==> HasSpace(s)
  {
    assert forall i :: DoubleAt(s[..n], i, c) ==> DoubleAt(s, i, c);
    if HasSpace(s[..n]) {
      var i :| 0 <= i < n && IsSpace(s[..n][i]);
      assert IsSpace(s[i]);
    }
  }

  lemma NotDoubleAt(t: string, i: nat)
    requires i + 1 < |t| && !HasDouble(t, '/')
    ensures t[i] != '/' || t[i + 1] != '/'
  {
    assert !DoubleAt(t, i, '/');
  }

  /** A normal prefix is left as it is. */
  lemma NormalIsFixed(p: string)
    requires IsNormal(p)
    ensures NormalizePrefix(p) == Ok(p)
  {
    hide Split, Join, Trim, HasDouble;
    CleanIsTrimmed(p);
    ApiSegments(p);
    NoEmptySegment(p);
    DotsAreDouble(p);
  }

  lemma SlashAtEnd(p: string)
    requires p != "" && p[|p| - 1] != '/'
    ensures forall c :: HasDouble(p + "/", c) <==> HasDouble(p, c)
    ensures HasSpace(p + "/") <==> HasSpace(p)
    ensures StripSlashes(p + "/") == p
  {
    var t := p + "/";
    assert t[..|p|] == p;
    forall c, i | 0 <= i < |t| ensures DoubleAt(t, i, c) <==> DoubleAt(p, i, c) {
    }
    assert forall c, i :: DoubleAt(p, i, c) ==> i < |t|;
    assert forall i :: 0 <= i < |p| ==> t[i] == p[i];
  }

  lemma EngineBeforeSlash(p: string)
    ensures ENGINE <= p + "/" ==> ENGINE <= p
  {
    var t := p + "/";
    if |p| >= |ENGINE| {
      assert t[..|ENGINE|] == p[..|ENGINE|];
    } else if |p| == 11 {
      assert t[11] == '/' && ENGINE[11] == 'e';
    }
  }

  /** An input is accepted exactly when, without the whitespace around it, it is a normal prefix or one
      followed by a slash; and that prefix is what comes back. */
  lemma NormalizesExactly(prefix: string, p: string)
    ensures NormalizePrefix(prefix) == Ok(p) <==> IsNormal(p) && (Trim(prefix) == p || Trim(prefix) == p + "/")
  {
    hide Split, Join, Trim, HasSpace, HasDouble, StripSlashes, IsNormal;
    var t := Trim(prefix);
    if NormalizePrefix(prefix) == Ok(p) {
      NormalizedIsNormal(prefix);
      StripOnce(t);
      if t != p { assert t == p + "/"; }
    }
    if IsNormal(p) {
      NormalIsFixed(p);
      CleanEnd(p);
      if t == p + "/" {
        SlashAtEnd(p);
        EngineBeforeSlash(p);
        assert t[..|API|] == p[..|API|];
      }
    }
  }

  lemma CleanEnd(p: string)
    requires IsNormal(p)
    ensures p != "" && p[|p| - 1] != '/' && API <= p && |p| > |API| && !(ENGINE <= p)
    ensures !HasSpace(p) && !HasDouble(p, '/') && !HasDouble(p, '.') && Trim(p) == p
  {
    hide Split, Join, Trim, HasDouble;
    CleanIsTrimmed(p);
    ApiSegments(p);
    NoEmptySegment(p);
    DotsAreDouble(p);
  }

  /** The prefixes that can be registered are exactly the normal ones. */
  lemma NormalPrefixesAreTheRange(p: string)
    ensures IsNormal(p) <==> exists prefix :: NormalizePrefix(prefix) == Ok(p)
  {
    hide IsNormal, NormalizePrefix;
    if IsNormal(p) { NormalIsFixed(p); }
    if prefix :| NormalizePrefix(prefix) == Ok(p) { NormalizedIsNormal(prefix); }
  }

  // ----- matching a path

  /** The path is the prefix itself or continues it with a slash. */
  predicate Matches(p: string, path: string) {
    path == p || p + "/" <= path
  }

  /** Matching is by whole segments: the prefix's segments are the first segments of the path. */
  lemma MatchesBySegments(p: string, path: string)
    ensures Matches(p, path) <==> Split(p, '/') <= Split(path, '/')
  {
    hide Split, Join;
    if p + "/" <= path {
      var rest := path[|p| + 1..];
      assert path == p + ['/'] + rest;
      SplitAcross(p, '/', rest);
    }
    if Split(p, '/') <= Split(path, '/') {
      SegmentPrefixMatches(p, path);
    }
  }

  lemma SegmentPrefixMatches(p: string, path: string)
    requires Split(p, '/') <= Split(path, '/')
    ensures Matches(p, path)
  {
    hide Split, Join;
    JoinOfSplit(p, '/');
    JoinOfSplit(path, '/');
    var rest := Split(path, '/')[|Split(p, '/')|..];
    assert Split(path, '/') == Split(p, '/') + rest;
    if rest != [] {
      JoinAcross(Split(p, '/'), '/', rest);
      assert path == p + "/" + Join(rest, '/');
    } else {
      assert Split(path, '/') == Split(p, '/');
    }
  }

  /** Two prefixes of the same length cannot both match a path. */
  lemma SameLengthSamePrefix(p: string, q: string, path: string)
    requires Matches(p, path) && Matches(q, path) && |p| == |q|
    ensures p == q
  {
    assert p == path[..|p|] && q == path[..|q|];
  }

  /** No path under /api/_engine, and none outside /api/, matches a normal prefix. */
  lemma GuardedPathsMatchNothing(p: string, path: string)
    requires IsNormal(p) && Matches(p, path)
    ensures API <= path && !(ENGINE <= path)
  {
    hide Split, HasSpace, HasDouble;
    MatchesBySegments(p, path);
    ApiSegments(p);
    ApiSegments(path);
  }

  // ----- the table

  datatype Details = Details(upstream: string, events: Option<seq<string>>, eventPath: Option<string>,
                             health: Option<string>, registeredAt: int)

  datatype Registration = Registration(plugin: string, prefix: string, details: Details)

  type Table = map<string, Registration>

  /** Each key is its entry's prefix, prefixes are normal, and each plugin owns at most one. */
  ghost predicate Inv(t: Table) {
    && (forall p :: p in t ==> t[p].prefix == p && IsNormal(p) && IsName(t[p].plugin))
    && (forall p, q :: p in t && q in t && t[p].plugin == t[q].plugin ==> p == q)
  }

  predicate IsName(plugin: string) {
    plugin != "" && forall i :: 0 <= i < |plugin| ==> 'a' <= plugin[i] <= 'z' || IsDigit(plugin[i]) || plugin[i] == '-'
  }

  lemma NamesAre(plugin: string)
    ensures IsName(plugin) <==>
            plugin != "" && forall i :: 0 <= i < |plugin| ==> plugin[i] in "abcdefghijklmnopqrstuvwxyz0123456789-"
  {
    var chars := "abcdefghijklmnopqrstuvwxyz0123456789-";
    assert forall k :: 0 <= k < 26 ==> chars[k] as int == 97 + k;
    assert forall k :: 26 <= k < 36 ==> chars[k] as int == 22 + k;
    assert chars[36] == '-';
    forall c: char ensures c in chars <==> 'a' <= c <= 'z' || IsDigit(c) || c == '-' {
      if 'a' <= c <= 'z' {
        assert chars[c as int - 97] == c;
      } else if IsDigit(c) {
        assert chars[c as int - 22] == c;
      }
    }
  }

  function Without(t: Table, plugin: string): Table {
    map p | p in t && t[p].plugin != plugin :: t[p]
  }

  const NAME_ERROR := "engine plugin must match /^[a-z0-9-]+$/"

  /** What registering produces: an error, or the entry that is stored. `details` is what the other
      fields of the request are normalized to, or the error that normalizing them raises. */
  function Request(plugin: string, prefix: string, details: Result<Details>): Result<Registration> {
    if !IsName(plugin) then Err(NAME_ERROR)
    else
      match NormalizePrefix(prefix)
      case Err(message) => Err(message)
      case Ok(p) =>
        match details
        case Err(message) => Err(message)
        case Ok(d) => Ok(Registration(plugin, p, d))
  }

  function Registered(t: Table, r: Result<Registration>): Table {
    if r.Ok? then Without(t, r.value.plugin)[r.value.prefix := r.value] else t
  }

  /** The prefix part of an unregistration; an empty prefix counts as none. */
  function PrefixRemoved(t: Table, prefix: Option<string>): Table {
    if prefix.Some? && prefix.value != "" && NormalizePrefix(prefix.value).Ok?
    then t - {NormalizePrefix(prefix.value).value} else t
  }

  function Unregistered(t: Table, plugin: Option<string>, prefix: Option<string>): Table {
    if prefix.Some? && prefix.value != "" && NormalizePrefix(prefix.value).Err? then t
    else
      var rest := PrefixRemoved(t, prefix);
      if plugin.Some? && plugin.value != "" && IsName(plugin.value) then Without(rest, plugin.value) else rest
  }

  // ----- runs

  /** `Failed` is a failed health check, delivery or proxied request of an entry that was looked up
      earlier, and may no longer be the one bound at its prefix. */
  datatype Event =
    | Register(plugin: string, prefix: string, details: Result<Details>)
    | Unregister(ofPlugin: Option<string>, atPrefix: Option<string>)
    | Failed(r: Registration)
    | Clear

  function Next(t: Table, e: Event): Table {
    match e
    case Register(plugin, prefix, details) => Registered(t, Request(plugin, prefix, details))
    case Unregister(plugin, prefix) => Unregistered(t, plugin, prefix)
    case Failed(r) => t - {r.prefix}
    case Clear => map[]
  }

  function Run(es: seq<Event>): Table {
    if es == [] then map[] else Next(Run(es[..|es| - 1]), es[|es| - 1])
  }

  lemma SubtableKeepsInv(t: Table, u: Table)
    requires Inv(t) && forall p :: p in u ==> p in t && u[p] == t[p]
    ensures Inv(u)
  {
    hide IsName, IsNormal;
  }

  lemma RegisteredKeepsInv(t: Table, r: Registration)
    requires Inv(t) && IsNormal(r.prefix) && IsName(r.plugin)
    ensures Inv(Registered(t, Ok(r)))
  {
    hide IsName, IsNormal;
  }

  lemma {:induction false} NextKeepsInv(t: Table, e: Event)
    requires Inv(t)
    ensures Inv(Next(t, e))
  {
    hide IsName, IsNormal, NormalizePrefix;
    match e {
      case Register(plugin, prefix, details) =>
        if Request(plugin, prefix, details).Ok? {
          NormalizedIsNormal(prefix);
          RegisteredKeepsInv(t, Request(plugin, prefix, details).value);
        }
      case _ =>
    }
  }

  lemma {:induction false} RunKeepsInv(es: seq<Event>)
    ensures Inv(Run(es))
  {
    hide Inv, Next;
    if es != [] {
      RunKeepsInv(es[..|es| - 1]);
      NextKeepsInv(Run(es[..|es| - 1]), es[|es| - 1]);
    } else {
      EmptyIsInv();
    }
  }

  lemma EmptyIsInv()
    ensures Inv(map[])
  {
  }

  /** The event binds `r`. */
  predicate Binds(e: Event, r: Registration) {
    e.Register? && Request(e.plugin, e.prefix, e.details) == Ok(r)
  }

  /** The event takes away the binding `r`, if there is one. */
  predicate Unbinds(e: Event, r: Registration) {
    match e
    case Register(plugin, prefix, details) =>
      var s := Request(plugin, prefix, details);
      s.Ok? && (s.value.plugin == r.plugin || s.value.prefix == r.prefix)
    case Unregister(plugin, prefix) =>
      if prefix.Some? && prefix.value != "" then
        && NormalizePrefix(prefix.value).Ok?
        && (NormalizePrefix(prefix.value).value == r.prefix || plugin == Some(r.plugin))
      else plugin == Some(r.plugin)
    case Failed(s) => s.prefix == r.prefix
    case Clear => true
  }

  /** The table is its history: an entry is bound exactly when it was registered and nothing since
      re-registered its plugin or its prefix, unregistered it, failed at its prefix or cleared. */
  lemma {:induction false} BoundSinceRegistered(es: seq<Event>, r: Registration)
    ensures (r.prefix in Run(es) && Run(es)[r.prefix] == r)
            <==> exists i :: 0 <= i < |es| && Binds(es[i], r) && forall j :: i < j < |es| ==> !Unbinds(es[j], r)
  {
    hide Binds, Unbinds, Next, Inv;
    if es != [] {
      var init, e := es[..|es| - 1], es[|es| - 1];
      BoundSinceRegistered(init, r);
      RunKeepsInv(init);
      LastEventDecides(Run(init), e, r);
      if exists i :: 0 <= i < |init| && Binds(init[i], r) && forall j :: i < j < |init| ==> !Unbinds(init[j], r) {
        var i :| 0 <= i < |init| && Binds(init[i], r) && forall j :: i < j < |init| ==> !Unbinds(init[j], r);
        assert Binds(es[i], r);
        assert !Unbinds(e, r) ==> forall j :: i < j < |es| ==> !Unbinds(es[j], r);
      }
      if exists i :: 0 <= i < |es| && Binds(es[i], r) && forall j :: i < j < |es| ==> !Unbinds(es[j], r) {
        var i :| 0 <= i < |es| && Binds(es[i], r) && forall j :: i < j < |es| ==> !Unbinds(es[j], r);
        if i < |init| {
          assert Binds(init[i], r);
          assert forall j :: i < j < |init| ==> init[j] == es[j];
        }
      }
    }
  }

  lemma LastEventDecides(t: Table, e: Event, r: Registration)
    requires Inv(t)
    ensures (r.prefix in Next(t, e) && Next(t, e)[r.prefix] == r)
            <==> Binds(e, r) || (r.prefix in t && t[r.prefix] == r && !Unbinds(e, r))
  {
    hide IsNormal, NormalizePrefix;
  }

  /** A failure removes nothing but the binding of the failed plugin exactly when its prefix is
      not bound to another plugin by now. */
  lemma FailureIsOwnExactlyWhenNotRebound(t: Table, r: Registration)
    ensures (forall p :: p in t && t[p].plugin != r.plugin ==> p in Next(t, Failed(r)))
            <==> (r.prefix in t ==> t[r.prefix].plugin == r.plugin)
  {
  }

  /** And runs get there: when another plugin takes the prefix while a check of the first one is
      under way, the failure of that check unbinds the newer entry and leaves nothing. */
  lemma {:induction false} StaleFailureUnbindsAnother(es: seq<Event>, a: Registration, b: Registration)
    requires a.plugin != b.plugin && a.prefix == b.prefix && IsNormal(a.prefix) && IsName(a.plugin) && IsName(b.plugin)
    ensures var first := Register(a.plugin, a.prefix, Ok(a.details));
            var second := Register(b.plugin, b.prefix, Ok(b.details));
            var taken := es + [first, second];
            && b.prefix in Run(taken) && Run(taken)[b.prefix] == b
            && b.prefix !in Run(taken + [Failed(a)])
            && !(forall p :: p in Run(taken) && Run(taken)[p].plugin != a.plugin ==> p in Run(taken + [Failed(a)]))
  {
    hide IsName, IsNormal, NormalizePrefix;
    NormalIsFixed(a.prefix);
    var first, second := Register(a.plugin, a.prefix, Ok(a.details)), Register(b.plugin, b.prefix, Ok(b.details));
    var taken := es + [first, second];
    assert taken[..|es| + 1] == es + [first];
    assert Run(taken) == Registered(Run(es + [first]), Ok(b));
    assert (taken + [Failed(a)])[..|taken|] == taken;
    assert Run(taken + [Failed(a)]) == Run(taken) - {a.prefix};
  }

  // ----- the registry

  /** `a` is sorted before `b`: longer first; `le` breaks ties. */
  predicate Before(a: Registration, b: Registration, le: (string, string) -> bool) {
    |a.prefix| > |b.prefix| || (|a.prefix| == |b.prefix| && le(a.prefix, b.prefix))
  }

  function Insert(s: seq<Registration>, r: Registration, le: (string, string) -> bool): seq<Registration> {
    if s == [] || Before(s[|s| - 1], r, le) then s + [r]
    else Insert(s[..|s| - 1], r, le) + [s[|s| - 1]]
  }

  function Sorted(s: seq<Registration>, le: (string, string) -> bool): seq<Registration> {
    if s == [] then [] else Insert(Sorted(s[..|s| - 1], le), s[|s| - 1], le)
  }

  predicate LongestFirst(s: seq<Registration>) {
    forall i, j :: 0 <= i < j < |s| ==> |s[i].prefix| >= |s[j].prefix|
  }

  lemma {:induction false} InsertKeepsLongestFirst(s: seq<Registration>, r: Registration, le: (string, string) -> bool)
    requires LongestFirst(s)
    ensures LongestFirst(Insert(s, r, le))
    ensures forall x :: x in Insert(s, r, le) <==> x in s || x == r
  {
    if !(s == [] || Before(s[|s| - 1], r, le)) {
      var init, last := s[..|s| - 1], s[|s| - 1];
      InsertKeepsLongestFirst(init, r, le);
      assert s == init + [last];
      var front := Insert(init, r, le);
      forall i | 0 <= i < |front| ensures |front[i].prefix| >= |last.prefix| {
        assert front[i] in front;
      }
    }
  }

  /** Whatever breaks ties, sorting puts the longest prefixes first and loses nothing. */
  lemma {:induction false} SortedIsLongestFirst(s: seq<Registration>, le: (string, string) -> bool)
    ensures LongestFirst(Sorted(s, le))
    ensures forall x :: x in Sorted(s, le) <==> x in s
  {
    if s != [] {
      var init, last := s[..|s| - 1], s[|s| - 1];
      SortedIsLongestFirst(init, le);
      InsertKeepsLongestFirst(Sorted(init, le), last, le);
      assert s == init + [last];
    }
  }

  /** The answer to a lookup: the one longest matching entry, or nothing when none matches. */
  ghost predicate IsLookup(t: Table, path: string, r: Option<Registration>) {
    match r
    case None => forall p :: p in t ==> !Matches(p, path)
    case Some(e) =>
      && e.prefix in t && t[e.prefix] == e && Matches(e.prefix, path)
      && forall p :: p in t && Matches(p, path) && p != e.prefix ==> |p| < |e.prefix|
  }

  /** The specification fixes the answer. */
  lemma LookupIsUnique(t: Table, path: string, r: Option<Registration>, s: Option<Registration>)
    requires IsLookup(t, path, r) && IsLookup(t, path, s)
    ensures r == s
  {
    hide Matches;
  }

  class Registry {
    var registrations: Table

    constructor ()
      ensures registrations == map[]
    {
      registrations := map[];
    }

    /** Registers a plugin: its older binding goes, and so does whatever was bound at the prefix. */
    method RegisterPlugin(plugin: string, prefix: string, details: Result<Details>) returns (r: Result<Registration>)
      requires Inv(registrations)
      modifies this
      ensures Inv(registrations)
      ensures r == Request(plugin, prefix, details)
      ensures registrations == Registered(old(registrations), r)
    {
      hide NormalizePrefix, IsNormal, IsName;
      if !IsName(plugin) { return Err(NAME_ERROR); }
      var p := NormalizePrefix(prefix);
      if p.Err? { return Err(p.message); }
      if details.Err? { return Err(details.message); }
      NormalizedIsNormal(prefix);
      var _ := RemoveOwned(plugin);
      r := Ok(Registration(plugin, p.value, details.value));
      registrations := registrations[p.value := r.value];
    }

    /** Deletes every entry of a plugin. */
    method RemoveOwned(plugin: string) returns (removed: bool)
      modifies this
      ensures registrations == Without(old(registrations), plugin)
      ensures removed <==> exists p :: p in old(registrations) && old(registrations)[p].plugin == plugin
    {
      removed := false;
      ghost var start := registrations;
      var keys := registrations.Keys;
      while keys != {}
        invariant keys <= registrations.Keys
        invariant forall p :: p in registrations <==> p in start && (p in keys || start[p].plugin != plugin)
        invariant forall p :: p in registrations ==> registrations[p] == start[p]
        invariant removed <==> exists p :: p in start && p !in keys && start[p].plugin == plugin
        decreases keys
      {
        var p :| p in keys;
        keys := keys - {p};
        if registrations[p].plugin == plugin {
          registrations := registrations - {p};
          removed := true;
        }
      }
    }

    /** Unregisters by prefix, by plugin or by both. A bad plugin name is an error only after the
        prefix has been removed. */
    method UnregisterPlugin(plugin: Option<string>, prefix: Option<string>) returns (r: Result<bool>)
      requires Inv(registrations)
      modifies this
      ensures Inv(registrations)
      ensures registrations == Unregistered(old(registrations), plugin, prefix)
      ensures r.Ok? ==> (r.value <==> registrations != old(registrations))
      ensures r.Err? <==>
              || (prefix.Some? && prefix.value != "" && NormalizePrefix(prefix.value).Err?)
              || (plugin.Some? && plugin.value != "" && !IsName(plugin.value))
    {
      hide NormalizePrefix, Inv, IsName;
      var removed := false;
      if prefix.Some? && prefix.value != "" {
        var p := NormalizePrefix(prefix.value);
        if p.Err? { return Err(p.message); }
        removed := p.value in registrations;
        registrations := registrations - {p.value};
      }
      SubtableKeepsInv(old(registrations), registrations);
      if plugin.Some? && plugin.value != "" {
        if !IsName(plugin.value) { return Err(NAME_ERROR); }
        var owned := RemoveOwned(plugin.value);
        SubtableKeepsInv(old(registrations), registrations);
        removed := removed || owned;
      }
      return Ok(removed);
    }

    /** A failure unbinds the prefix of the entry that was tried, whatever is bound there by now. */
    method Unbind(r: Registration)
      requires Inv(registrations)
      modifies this
      ensures Inv(registrations) && registrations == old(registrations) - {r.prefix}
    {
      registrations := registrations - {r.prefix};
    }

    /** Finds the entry for a path. Neither the early exits nor the way ties are broken show. */
    method Find(path: string, le: (string, string) -> bool) returns (r: Option<Registration>)
      requires Inv(registrations)
      ensures IsLookup(registrations, path, r)
    {
      hide IsNormal, Matches;
      if !(API <= path) || ENGINE <= path {
        forall p | p in registrations ensures !Matches(p, path) {
          if Matches(p, path) { GuardedPathsMatchNothing(p, path); }
        }
        return None;
      }
      var candidates: seq<Registration> := [];
      var keys := registrations.Keys;
      while keys != {}
        invariant keys <= registrations.Keys
        invariant forall x :: x in candidates <==>
                    && x.prefix in registrations && registrations[x.prefix] == x && x.prefix !in keys
                    && Matches(x.prefix, path)
        decreases keys
      {
        var p :| p in keys;
        keys := keys - {p};
        if Matches(p, path) { candidates := candidates + [registrations[p]]; }
      }
      SortedIsLongestFirst(candidates, le);
      var sorted := Sorted(candidates, le);
      if sorted == [] {
        forall p | p in registrations ensures !Matches(p, path) {
          assert registrations[p] !in sorted;
        }
        return None;
      }
      r := Some(sorted[0]);
      assert sorted[0] in sorted;
      forall p | p in registrations && Matches(p, path) && p != sorted[0].prefix
        ensures |p| < |sorted[0].prefix|
      {
        assert registrations[p] in sorted;
        if |p| == |sorted[0].prefix| { SameLengthSamePrefix(p, sorted[0].prefix, path); }
      }
    }
  }
}
