/** Per-peer request signing: a sender signs a canonical payload with its peer key, and a verifier
    that has cached the key decides whether to accept the request. */
module FederationAuth {
  import opened Strings
  import opened Wrappers

  type Byte = bv8

  predicate IsLowerHex(c: char) {
    IsDigit(c) || 'a' <= c <= 'f'
  }

  predicate IsHex(c: char) {
    IsLowerHex(c) || 'A' <= c <= 'F'
  }

  /** A SHA-256 digest in hexadecimal. */
  type Digest = s: string | |s| == 64 && forall i :: 0 <= i < |s| ==> IsLowerHex(s[i])
    witness seq(64, _ => '0')

  /** The primitives: HMAC-SHA256 of key and text, SHA-256, upper-casing, and ISO 8601 parsing. */
  datatype Env = Env(hmac: (string, string) -> Digest, sha256: seq<Byte> -> Digest,
                     upper: string -> string, parseIso: string -> Option<int>)

  const WINDOW_SEC := 300
  const MAX_SAFE := 9007199254740991

  // ----- signing

  /** The body hash of a request; no hash for an empty body. */
  function HashBody(env: Env, body: Option<seq<Byte>>): string {
    if body.None? || body.value == [] then "" else env.sha256(body.value)
  }

  /** An integer as JavaScript prints it. */
  function Printed(n: int): string {
    if n < 0 then "-" + Dec(-n) else Dec(n)
  }

  datatype SignRequest = SignRequest(peerKey: string, from: string, verb: string, path: string,
                                     timestamp: int, body: Option<seq<Byte>>)

  function SignRequestV3(env: Env, r: SignRequest): Result<Digest> {
    if r.peerKey == "" then Err("signRequestV3: peerKey is required")
    else if r.from == "" then Err("signRequestV3: fromAddress is required (<oracle>:<node>)")
    else
      var payload := env.upper(if r.verb == "" then "GET" else r.verb) + ":" + r.path + ":" + Printed(r.timestamp)
                     + ":" + HashBody(env, r.body) + ":" + r.from;
      Ok(env.hmac(r.peerKey, payload))
  }

  /** Header entries in order; a later entry of the same name, in any case, overrides. */
  type Headers = seq<(string, Option<string>)>

  function SignHeadersV3(env: Env, r: SignRequest): Result<Headers> {
    match SignRequestV3(env, r)
    case Err(message) => Err(message)
    case Ok(signature) =>
      Ok([("X-Maw-From", Some(r.from)), ("X-Maw-Signature-V3", Some(signature)),
          ("X-Maw-Timestamp", Some(Printed(r.timestamp))), ("X-Maw-Auth-Version", Some("v3"))])
  }

  // ----- verifying

  function LowerChar(c: char): char {
    if 'A' <= c <= 'Z' then (c as int + 32) as char else c
  }

  function Lower(s: string): (r: string)
    ensures |r| == |s|
  {
    seq(|s|, i requires 0 <= i < |s| => LowerChar(s[i]))
  }

  /** The header values by lower-case name. */
  function LowerKeys(h: Headers): map<string, Option<string>> {
    if h == [] then map[] else LowerKeys(h[..|h| - 1])[Lower(h[|h| - 1].0) := h[|h| - 1].1]
  }

  function GetHeader(h: Headers, name: string): Option<string> {
    var lc := LowerKeys(h);
    if Lower(name) in lc then lc[Lower(name)] else None
  }

  function BuildFromSignPayload(env: Env, from: string, timestamp: string, verb: string, path: string,
                                bodyHash: string): string {
    env.upper(verb) + ":" + path + ":" + timestamp + ":" + bodyHash + ":" + from
  }

  function BuildLegacyPayload(env: Env, from: string, signedAt: string, verb: string, path: string,
                              bodyHash: string): string {
    from + "\n" + signedAt + "\n" + env.upper(verb) + "\n" + path + "\n" + bodyHash
  }

  /** A run of digits whose value is a safe integer. */
  function ParseUnixSeconds(raw: string): Option<nat> {
    if IsNumeral(raw) && Val(raw) <= MAX_SAFE then Some(Val(raw)) else None
  }

  predicate AllHex(s: string) {
    s != "" && forall i :: 0 <= i < |s| ==> IsHex(s[i])
  }

  function HexVal(c: char): nat
    requires IsHex(c)
  {
    if IsDigit(c) then DigitVal(c) else if 'a' <= c then c as int - 'a' as int + 10 else c as int - 'A' as int + 10
  }

  /** The bytes that pairs of hexadecimal digits stand for. */
  function FromHex(s: string): seq<nat>
    requires |s| % 2 == 0 && forall i :: 0 <= i < |s| ==> IsHex(s[i])
  {
    if s == "" then [] else [16 * HexVal(s[0]) + HexVal(s[1])] + FromHex(s[2..])
  }

  predicate VerifyHmacSig(env: Env, secret: string, payload: string, signatureHex: string) {
    AllHex(signatureHex) &&
    var expected: string := env.hmac(secret, payload);
    |expected| == |signatureHex| && FromHex(expected) == FromHex(signatureHex)
  }

  datatype Decision =
    | AcceptLegacy
    | AcceptTofuRecord(from: string)
    | AcceptVerified(from: string)
    | RefuseUnsigned(from: string)
    | RefuseMismatch(from: string)
    | RefuseSkew(from: string, delta: nat)
    | RefuseMalformed(reason: string)

  predicate IsRefusal(d: Decision) {
    d.RefuseUnsigned? || d.RefuseMismatch? || d.RefuseSkew? || d.RefuseMalformed?
  }

  datatype Incoming = Incoming(verb: string, path: string, headers: Headers, body: Option<seq<Byte>>)

  function Header(q: Incoming, name: string): string {
    var value := GetHeader(q.headers, name);
    if value.Some? then Trim(value.value) else ""
  }

  function From(q: Incoming): string { Header(q, "x-maw-from") }

  predicate HasV3Sig(q: Incoming) {
    From(q) != "" && Header(q, "x-maw-signature-v3") != "" && Header(q, "x-maw-timestamp") != ""
  }

  predicate HasLegacySig(q: Incoming) {
    From(q) != "" && Header(q, "x-maw-signature") != "" && Header(q, "x-maw-signed-at") != ""
  }

  /** The cached key of a sender, if there is one and it is not empty. */
  function Cached(lookup: string -> Option<string>, from: string): Option<string> {
    if from != "" && lookup(from).Some? && lookup(from).value != "" then lookup(from) else None
  }

  function Abs(n: int): nat { if n < 0 then -n else n }

  function VerifyRequest(env: Env, q: Incoming, lookup: string -> Option<string>, now: int): Decision {
    var from := From(q);
    var cached := Cached(lookup, from);
    var signed := HasV3Sig(q) || HasLegacySig(q);
    if cached.None? && !signed then AcceptLegacy
    else if cached.None? && signed then AcceptTofuRecord(from)
    else if !signed then RefuseUnsigned(from)
    else
      var timestamp := Header(q, "x-maw-timestamp");
      var signedAt := Header(q, "x-maw-signed-at");
      var signedAtSec: Option<int> := if HasV3Sig(q) then ParseUnixSeconds(timestamp) else env.parseIso(signedAt);
      if signedAtSec.None? then RefuseMalformed(if HasV3Sig(q) then "invalid-timestamp" else "invalid-signed-at")
      else
        var delta := Abs(now - signedAtSec.value);
        if delta > WINDOW_SEC then RefuseSkew(from, delta)
        else
          var bodyHash := HashBody(env, q.body);
          var payload :=
            if HasV3Sig(q) then BuildFromSignPayload(env, from, timestamp, q.verb, q.path, bodyHash)
            else BuildLegacyPayload(env, from, signedAt, q.verb, q.path, bodyHash);
          var sig := if HasV3Sig(q) then Header(q, "x-maw-signature-v3") else Header(q, "x-maw-signature");
          if !VerifyHmacSig(env, cached.value, payload, sig) then RefuseMismatch(from) else AcceptVerified(from)
  }

  // ----- signatures

  /** The hexadecimal digits and their values. */
  lemma HexDigitsAre(c: char, k: nat)
    requires k < 16
    ensures IsLowerHex(c) <==> c in "0123456789abcdef"
    ensures IsHex(c) <==> c in "0123456789abcdef" || c in "ABCDEF"
    ensures HexVal("0123456789abcdef"[k]) == k && HexVal("0123456789ABCDEF"[k]) == k
  {
    var low, up := "0123456789abcdef", "0123456789ABCDEF";
    assert forall i :: 0 <= i < 10 ==> low[i] as int == 48 + i && up[i] as int == 48 + i;
    assert forall i :: 10 <= i < 16 ==> low[i] as int == 87 + i && up[i] as int == 55 + i;
    if IsDigit(c) {
      assert low[c as int - 48] == c;
    } else if IsLowerHex(c) {
      assert low[c as int - 87] == c;
    }
  }

  lemma SameDigit(c: char, d: char)
    requires IsHex(c) && IsHex(d)
    ensures HexVal(c) == HexVal(d) <==> LowerChar(c) == LowerChar(d)
    ensures HexVal(c) < 16 && HexVal(d) < 16
  {
  }

  lemma {:induction false} SamePair(a: char, b: char, v: string, c: char, d: char, w: string)
    ensures [a, b] + v == [c, d] + w <==> a == c && b == d && v == w
  {
    var s, t := [a, b] + v, [c, d] + w;
    assert s[0] == a && s[1] == b && s[2..] == v;
    assert t[0] == c && t[1] == d && t[2..] == w;
  }

  /** Lower-casing two strings agrees exactly when it agrees on their first pair and on the rest. */
  lemma {:induction false} LowerByPairs(a: string, b: string)
    requires |a| >= 2 && |b| >= 2
    ensures Lower(a) == Lower(b) <==>
            LowerChar(a[0]) == LowerChar(b[0]) && LowerChar(a[1]) == LowerChar(b[1]) && Lower(a[2..]) == Lower(b[2..])
  {
    hide LowerChar;
    assert Lower(a) == [LowerChar(a[0]), LowerChar(a[1])] + Lower(a[2..]);
    assert Lower(b) == [LowerChar(b[0]), LowerChar(b[1])] + Lower(b[2..]);
    hide Lower;
    SamePair(LowerChar(a[0]), LowerChar(a[1]), Lower(a[2..]), LowerChar(b[0]), LowerChar(b[1]), Lower(b[2..]));
  }

  lemma {:induction false} SameHead(m: nat, v: seq<nat>, n: nat, w: seq<nat>)
    ensures [m] + v == [n] + w <==> m == n && v == w
  {
    assert ([m] + v)[0] == m && ([m] + v)[1..] == v;
    assert ([n] + w)[0] == n && ([n] + w)[1..] == w;
  }

  lemma SameByte(x: nat, y: nat, u: nat, v: nat)
    requires y < 16 && v < 16
    ensures 16 * x + y == 16 * u + v <==> x == u && y == v
  {
  }

  lemma {:induction false} FromHexStep(s: string)
    requires |s| % 2 == 0 && |s| >= 2 && forall i :: 0 <= i < |s| ==> IsHex(s[i])
    ensures FromHex(s) == [16 * HexVal(s[0]) + HexVal(s[1])] + FromHex(s[2..])
  {
    hide IsHex, HexVal;
  }

  /** Decoding two strings agrees exactly when it agrees on their first byte and on the rest. */
  lemma {:induction false} BytesByPairs(a: string, b: string)
    requires |a| % 2 == 0 && |b| % 2 == 0 && |a| >= 2 && |b| >= 2
    requires forall i :: 0 <= i < |a| ==> IsHex(a[i])
    requires forall i :: 0 <= i < |b| ==> IsHex(b[i])
    ensures FromHex(a) == FromHex(b) <==>
            && 16 * HexVal(a[0]) + HexVal(a[1]) == 16 * HexVal(b[0]) + HexVal(b[1])
            && FromHex(a[2..]) == FromHex(b[2..])
  {
    hide IsHex, HexVal, FromHex;
    FromHexStep(a);
    FromHexStep(b);
    SameHead(16 * HexVal(a[0]) + HexVal(a[1]), FromHex(a[2..]), 16 * HexVal(b[0]) + HexVal(b[1]), FromHex(b[2..]));
  }

  lemma {:induction false} SameBytesSameDigits(a: string, b: string)
    requires |a| == |b| && |a| % 2 == 0
    requires forall i :: 0 <= i < |a| ==> IsHex(a[i]) && IsHex(b[i])
    ensures FromHex(a) == FromHex(b) <==> Lower(a) == Lower(b)
  {
    hide IsHex, HexVal, LowerChar, Lower, FromHex;
    if a == "" {
      assert b == "";
    } else {
      SameBytesSameDigits(a[2..], b[2..]);
      SameDigit(a[0], b[0]);
      SameDigit(a[1], b[1]);
      SameByte(HexVal(a[0]), HexVal(a[1]), HexVal(b[0]), HexVal(b[1]));
      BytesByPairs(a, b);
      LowerByPairs(a, b);
    }
  }

  /** A signature is good exactly when it is the digest, up to the case of its letters. */
  lemma SignatureIsTheDigest(env: Env, secret: string, payload: string, sig: string)
    ensures VerifyHmacSig(env, secret, payload, sig) <==> Lower(sig) == env.hmac(secret, payload)
  {
    var expected: string := env.hmac(secret, payload);
    assert Lower(expected) == expected;
    if Lower(sig) == expected {
      forall i | 0 <= i < |sig| ensures IsHex(sig[i]) {
        assert Lower(sig)[i] == expected[i];
      }
    }
    if AllHex(sig) && |sig| == 64 {
      SameBytesSameDigits(expected, sig);
    }
  }

  // ----- the payload

  lemma FirstColon(a: string, b: string, c: string, d: string)
    requires ':' !in a && ':' !in c && a + ":" + b == c + ":" + d
    ensures a == c && b == d
  {
    var s, t := a + ":" + b, c + ":" + d;
    assert s[|a|] == ':' && t[|c|] == ':';
    assert forall i :: 0 <= i < |a| ==> s[i] == a[i];
    assert forall i :: 0 <= i < |c| ==> t[i] == c[i];
    assert |a| == |c|;
    assert a == s[..|a|] && c == t[..|c|] && b == s[|a| + 1..] && d == t[|c| + 1..];
  }

  /** The segments of a payload: those of the path and the sender among the other fields. */
  lemma PayloadSegments(env: Env, from: string, ts: string, verb: string, path: string, hash: string)
    requires ':' !in env.upper(verb) && ':' !in ts && ':' !in hash
    ensures Split(BuildFromSignPayload(env, from, ts, verb, path, hash), ':')
            == [env.upper(verb)] + Split(path, ':') + [ts, hash] + Split(from, ':')
  {
    hide Split;
    var v := env.upper(verb);
    var tail := ts + [':'] + (hash + [':'] + from);
    assert BuildFromSignPayload(env, from, ts, verb, path, hash) == v + [':'] + (path + [':'] + tail);
    SplitAtFirst(v, ':', path + [':'] + tail);
    SplitAcross(path, ':', tail);
    SplitAtFirst(ts, ':', hash + [':'] + from);
    SplitAtFirst(hash, ':', from);
    assert [ts] + ([hash] + Split(from, ':')) == [ts, hash] + Split(from, ':');
  }

  lemma SamePieces(v: string, a: seq<string>, t: string, h: string, b: seq<string>,
                   v': string, a': seq<string>, t': string, h': string, b': seq<string>)
    requires [v] + a + [t, h] + b == [v'] + a' + [t', h'] + b' && |a| == |a'|
    ensures v == v' && a == a' && t == t' && h == h' && b == b'
  {
    var s, s', n := [v] + a + [t, h] + b, [v'] + a' + [t', h'] + b', |a|;
    assert s[0] == v && s[1..n + 1] == a && s[n + 1] == t && s[n + 2] == h && s[n + 3..] == b;
    assert s'[0] == v' && s'[1..n + 1] == a' && s'[n + 1] == t' && s'[n + 2] == h' && s'[n + 3..] == b';
  }

  /** Two equal payloads have equal fields exactly when their paths contain equally many colons;
      method, timestamp and body hash contain none. */
  lemma PayloadIsExact(env: Env, from: string, ts: string, verb: string, path: string, hash: string,
                       from': string, ts': string, verb': string, path': string, hash': string)
    requires ':' !in env.upper(verb) && ':' !in ts && ':' !in hash
    requires ':' !in env.upper(verb') && ':' !in ts' && ':' !in hash'
    requires BuildFromSignPayload(env, from, ts, verb, path, hash)
             == BuildFromSignPayload(env, from', ts', verb', path', hash')
    ensures (env.upper(verb) == env.upper(verb') && path == path' && ts == ts' && hash == hash' && from == from')
            <==> |Split(path, ':')| == |Split(path', ':')|
  {
    hide Split, Join, BuildFromSignPayload;
    PayloadSegments(env, from, ts, verb, path, hash);
    PayloadSegments(env, from', ts', verb', path', hash');
    if |Split(path, ':')| == |Split(path', ':')| {
      SamePieces(env.upper(verb), Split(path, ':'), ts, hash, Split(from, ':'),
                 env.upper(verb'), Split(path', ':'), ts', hash', Split(from', ':'));
      JoinOfSplit(path, ':');
      JoinOfSplit(path', ':');
      JoinOfSplit(from, ':');
      JoinOfSplit(from', ':');
    }
  }

  /** So the payload determines its fields when none but the sender contains a colon. */
  lemma PayloadIsInjective(env: Env, from: string, ts: string, verb: string, path: string, hash: string,
                           from': string, ts': string, verb': string, path': string, hash': string)
    requires ':' !in env.upper(verb) && ':' !in path && ':' !in ts && ':' !in hash
    requires ':' !in env.upper(verb') && ':' !in path' && ':' !in ts' && ':' !in hash'
    requires BuildFromSignPayload(env, from, ts, verb, path, hash)
             == BuildFromSignPayload(env, from', ts', verb', path', hash')
    ensures env.upper(verb) == env.upper(verb') && path == path' && ts == ts' && hash == hash' && from == from'
  {
    hide Split, BuildFromSignPayload;
    SplitWithout(path, ':');
    SplitWithout(path', ':');
    PayloadIsExact(env, from, ts, verb, path, hash, from', ts', verb', path', hash');
  }

  /** With a colon in the path it does not, once sender and timestamp may change too: here two
      payloads of different paths, times and senders coincide. */
  lemma PathColonIsAmbiguous(env: Env, verb: string)
    ensures BuildFromSignPayload(env, "oracle:node", "5", verb, "/a:7:", "")
            == BuildFromSignPayload(env, "5::oracle:node", "7", verb, "/a", "")
  {
    assert "/a:7:" + ":" + "5" + ":" + "" + ":" + "oracle:node" == "/a" + ":" + "7" + ":" + "" + ":" + "5::oracle:node";
    assert BuildFromSignPayload(env, "oracle:node", "5", verb, "/a:7:", "")
           == env.upper(verb) + ":" + ("/a:7:" + ":" + "5" + ":" + "" + ":" + "oracle:node");
    assert BuildFromSignPayload(env, "5::oracle:node", "7", verb, "/a", "")
           == env.upper(verb) + ":" + ("/a" + ":" + "7" + ":" + "" + ":" + "5::oracle:node");
  }

  lemma LastColon(a: string, b: string, c: string, d: string)
    requires ':' !in b && ':' !in d && a + ":" + b == c + ":" + d
    ensures a == c && b == d
  {
    var s, t := a + ":" + b, c + ":" + d;
    assert s[|a|] == ':' && t[|c|] == ':';
    assert forall i :: |a| < i < |s| ==> s[i] == b[i - |a| - 1];
    assert forall i :: |c| < i < |t| ==> t[i] == d[i - |c| - 1];
    assert |a| == |c|;
    assert a == s[..|a|] && c == t[..|c|] && b == s[|a| + 1..] && d == t[|c| + 1..];
  }

  lemma SameSuffix(a: string, c: string, suffix: string)
    requires a + suffix == c + suffix
    ensures a == c
  {
    assert |a| == |c|;
    assert a == (a + suffix)[..|a|] && c == (c + suffix)[..|c|];
  }

  /** The part of the payload that names the request: method and path. */
  function Target(env: Env, verb: string, path: string): string {
    env.upper(verb) + ":" + path
  }

  /** For one sender and one timestamp the payload determines method and path, taken together,
      and the body hash, whatever colons they contain. */
  lemma PayloadFixesRequest(env: Env, from: string, ts: string, verb: string, path: string, hash: string,
                            verb': string, path': string, hash': string)
    requires ':' !in hash && ':' !in hash'
    requires BuildFromSignPayload(env, from, ts, verb, path, hash)
             == BuildFromSignPayload(env, from, ts, verb', path', hash')
    ensures Target(env, verb, path) == Target(env, verb', path') && hash == hash'
  {
    var t, t' := Target(env, verb, path), Target(env, verb', path');
    assert BuildFromSignPayload(env, from, ts, verb, path, hash) == (t + ":" + ts + ":" + hash) + (":" + from);
    assert BuildFromSignPayload(env, from, ts, verb', path', hash') == (t' + ":" + ts + ":" + hash') + (":" + from);
    SameSuffix(t + ":" + ts + ":" + hash, t' + ":" + ts + ":" + hash', ":" + from);
    LastColon(t + ":" + ts, hash, t' + ":" + ts, hash');
    assert t + ":" + ts == t + (":" + ts) && t' + ":" + ts == t' + (":" + ts);
    SameSuffix(t, t', ":" + ts);
  }

  /** Methods without a colon, as every HTTP method is, are told apart from their paths. */
  lemma TargetFixesMethodAndPath(env: Env, verb: string, path: string, verb': string, path': string)
    requires ':' !in env.upper(verb) && ':' !in env.upper(verb')
    ensures Target(env, verb, path) == Target(env, verb', path')
            <==> env.upper(verb) == env.upper(verb') && path == path'
  {
    if Target(env, verb, path) == Target(env, verb', path') {
      FirstColon(env.upper(verb), path, env.upper(verb'), path');
    }
  }

  // ----- headers

  /** A header's value is that of the last entry with its name, in any case. */
  lemma {:induction false} LastEntryCounts(h: Headers, i: nat, name: string)
    requires i < |h| && Lower(h[i].0) == Lower(name)
    requires forall j :: i < j < |h| ==> Lower(h[j].0) != Lower(name)
    ensures GetHeader(h, name) == h[i].1
  {
    if i < |h| - 1 { LastEntryCounts(h[..|h| - 1], i, name); }
  }

  const SIGNED_NAMES := {"x-maw-from", "x-maw-signature-v3", "x-maw-timestamp"}

  lemma FromInLowerCase()
    ensures Lower("X-Maw-From") == "x-maw-from" && Lower("x-maw-from") == "x-maw-from"
  {
  }

  lemma SignatureInLowerCase()
    ensures Lower("X-Maw-Signature-V3") == "x-maw-signature-v3" && Lower("x-maw-signature-v3") == "x-maw-signature-v3"
  {
  }

  lemma TimestampInLowerCase()
    ensures Lower("X-Maw-Timestamp") == "x-maw-timestamp" && Lower("x-maw-timestamp") == "x-maw-timestamp"
  {
  }

  lemma VersionInLowerCase()
    ensures Lower("X-Maw-Auth-Version") == "x-maw-auth-version" && Lower("x-maw-auth-version") == "x-maw-auth-version"
  {
  }

  /** Other headers may come before, and any of other names after. */
  predicate Carries(env: Env, r: SignRequest, h: Headers, before: Headers, after: Headers) {
    && SignHeadersV3(env, r).Ok? && h == before + SignHeadersV3(env, r).value + after
    && forall i :: 0 <= i < |after| ==> Lower(after[i].0) !in SIGNED_NAMES
  }

  lemma SignedHeadersAreRead(env: Env, r: SignRequest, q: Incoming, before: Headers, after: Headers)
    requires Carries(env, r, q.headers, before, after)
    ensures From(q) == Trim(r.from)
    ensures Header(q, "x-maw-signature-v3") == Trim(SignRequestV3(env, r).value)
    ensures Header(q, "x-maw-timestamp") == Trim(Printed(r.timestamp))
    ensures (forall i :: 0 <= i < |after| ==> Lower(after[i].0) != "x-maw-auth-version") ==>
              Header(q, "x-maw-auth-version") == "v3"
  {
    hide Lower, Trim, SignRequestV3, GetHeader;
    FromInLowerCase();
    SignatureInLowerCase();
    TimestampInLowerCase();
    VersionInLowerCase();
    var h, n := q.headers, |before|;
    assert h[n].0 == "X-Maw-From" && h[n + 1].0 == "X-Maw-Signature-V3" && h[n + 2].0 == "X-Maw-Timestamp"
           && h[n + 3].0 == "X-Maw-Auth-Version";
    assert forall j :: n + 4 <= j < |h| ==> h[j] == after[j - n - 4];
    assert forall j :: n + 4 <= j < |h| ==> Lower(h[j].0) !in SIGNED_NAMES;
    LastEntryCounts(h, n, "x-maw-from");
    LastEntryCounts(h, n + 1, "x-maw-signature-v3");
    LastEntryCounts(h, n + 2, "x-maw-timestamp");
    if forall i :: 0 <= i < |after| ==> Lower(after[i].0) != "x-maw-auth-version" {
      LastEntryCounts(h, n + 3, "x-maw-auth-version");
      CleanIsTrimmed("v3");
    }
  }

  // ----- signing and verifying meet

  lemma PrintedIsPlain(n: int)
    ensures Trim(Printed(n)) == Printed(n) && ':' !in Printed(n) && Printed(n) != ""
    ensures IsNumeral(Printed(n)) <==> n >= 0
    ensures n >= 0 ==> Val(Printed(n)) == n
  {
    if n >= 0 { ValOfDec(n); }
    assert n < 0 ==> Printed(n)[0] == '-';
    assert forall i :: 0 <= i < |Printed(n)| ==> IsDigit(Printed(n)[i]) || Printed(n)[i] == '-';
    CleanIsTrimmed(Printed(n));
  }

  lemma DigestIsPlain(d: Digest)
    ensures Trim(d) == d && ':' !in d
  {
    CleanIsTrimmed(d);
  }

  lemma BodyHashIsPlain(env: Env, body: Option<seq<Byte>>)
    ensures ':' !in HashBody(env, body)
  {
    if body.Some? && body.value != [] { DigestIsPlain(env.sha256(body.value)); }
  }

  /** The method a request is signed for. */
  function SignedVerb(r: SignRequest): string {
    if r.verb == "" then "GET" else r.verb
  }

  /** The payload that a request was signed with. */
  function SignedPayload(env: Env, r: SignRequest): string {
    BuildFromSignPayload(env, r.from, Printed(r.timestamp), SignedVerb(r), r.path, HashBody(env, r.body))
  }

  /** The payload that a request arriving with the headers of `r` is checked against. */
  function CheckedPayload(env: Env, r: SignRequest, q: Incoming): string {
    BuildFromSignPayload(env, r.from, Printed(r.timestamp), q.verb, q.path, HashBody(env, q.body))
  }

  /** A sender that can sign, known to the verifier under the key it signs with. */
  predicate KnownSender(r: SignRequest, lookup: string -> Option<string>) {
    r.peerKey != "" && r.from != "" && Trim(r.from) == r.from && lookup(r.from) == Some(r.peerKey)
  }

  /** What becomes of a request that carries the headers signed for `r`. */
  lemma SignedOutcome(env: Env, r: SignRequest, q: Incoming, before: Headers, after: Headers,
                      lookup: string -> Option<string>, now: int)
    requires KnownSender(r, lookup) && Carries(env, r, q.headers, before, after) && r.timestamp <= MAX_SAFE
    ensures VerifyRequest(env, q, lookup, now) ==
            if r.timestamp < 0 then RefuseMalformed("invalid-timestamp")
            else if Abs(now - r.timestamp) > WINDOW_SEC then RefuseSkew(r.from, Abs(now - r.timestamp))
            else if env.hmac(r.peerKey, SignedPayload(env, r)) == env.hmac(r.peerKey, CheckedPayload(env, r, q))
            then AcceptVerified(r.from)
            else RefuseMismatch(r.from)
  {
    hide Trim, Header, VerifyHmacSig, Lower, Carries;
    SignedHeadersAreRead(env, r, q, before, after);
    PrintedIsPlain(r.timestamp);
    var sig: Digest := env.hmac(r.peerKey, SignedPayload(env, r));
    assert SignRequestV3(env, r) == Ok(sig);
    DigestIsPlain(sig);
    SignatureIsTheDigest(env, r.peerKey, CheckedPayload(env, r, q), sig);
    LowerDigest(sig);
  }

  lemma LowerDigest(d: Digest)
    ensures Lower(d) == d
  {
  }

  /** Signed headers are accepted under the cached key exactly when the clocks differ by at most
      300 seconds and the time is not negative, for every request with a method. */
  lemma SignedIsAccepted(env: Env, r: SignRequest, q: Incoming, before: Headers, after: Headers,
                         lookup: string -> Option<string>, now: int)
    requires r.peerKey != "" && r.from != "" && Trim(r.from) == r.from && lookup(r.from) == Some(r.peerKey)
    requires q.headers == before + SignHeadersV3(env, r).value + after
    requires forall i :: 0 <= i < |after| ==>
               Lower(after[i].0) !in {"x-maw-from", "x-maw-signature-v3", "x-maw-timestamp"}
    requires q.verb == r.verb && q.path == r.path && q.body == r.body && r.verb != ""
    requires r.timestamp <= 9007199254740991
    ensures VerifyRequest(env, q, lookup, now) == AcceptVerified(r.from)
            <==> 0 <= r.timestamp && -300 <= now - r.timestamp <= 300
    ensures KnownSender(r, lookup) && Carries(env, r, q.headers, before, after)
  {
    SignedOutcome(env, r, q, before, after, lookup, now);
  }

  /** Without a method the signer signs for GET and the verifier checks the empty method: the
      request is refused, unless the two digests happen to be the same. */
  lemma NoMethodIsMismatched(env: Env, r: SignRequest, q: Incoming, before: Headers, after: Headers,
                             lookup: string -> Option<string>, now: int)
    requires KnownSender(r, lookup) && Carries(env, r, q.headers, before, after)
    requires q.verb == r.verb && q.path == r.path && q.body == r.body && r.verb == ""
    requires 0 <= r.timestamp <= MAX_SAFE && Abs(now - r.timestamp) <= WINDOW_SEC
    ensures VerifyRequest(env, q, lookup, now) == RefuseMismatch(r.from)
            <==> env.hmac(r.peerKey, SignedPayload(env, r.(verb := "GET")))
                 != env.hmac(r.peerKey, CheckedPayload(env, r, q.(verb := "")))
  {
    SignedOutcome(env, r, q, before, after, lookup, now);
  }

  /** The two bodies are both absent or empty, or have the same digest. */
  predicate SameBody(env: Env, a: Option<seq<Byte>>, b: Option<seq<Byte>>) {
    if a == None || a == Some([]) then b == None || b == Some([])
    else b != None && b != Some([]) && env.sha256(a.value) == env.sha256(b.value)
  }

  lemma SameHashSameBody(env: Env, a: Option<seq<Byte>>, b: Option<seq<Byte>>)
    ensures HashBody(env, a) == HashBody(env, b) <==> SameBody(env, a, b)
  {
  }

  /** Headers signed for one request do not serve another: as long as the digest tells the two
      payloads apart, the request is accepted exactly with the same method and path, whatever colons
      it contains, and a body of the same digest; an absent and an empty body are the same. */
  lemma OtherRequestIsRefused(env: Env, r: SignRequest, q: Incoming, before: Headers, after: Headers,
                              lookup: string -> Option<string>, now: int)
    requires KnownSender(r, lookup) && Carries(env, r, q.headers, before, after)
    requires 0 <= r.timestamp <= MAX_SAFE && Abs(now - r.timestamp) <= WINDOW_SEC
    requires env.hmac(r.peerKey, SignedPayload(env, r)) == env.hmac(r.peerKey, CheckedPayload(env, r, q))
             ==> SignedPayload(env, r) == CheckedPayload(env, r, q)
    ensures VerifyRequest(env, q, lookup, now) ==
            if Target(env, q.verb, q.path) == Target(env, SignedVerb(r), r.path)
               && SameBody(env, q.body, r.body)
            then AcceptVerified(r.from) else RefuseMismatch(r.from)
    ensures ':' !in env.upper(q.verb) && ':' !in env.upper(SignedVerb(r)) ==>
              (VerifyRequest(env, q, lookup, now).AcceptVerified?
               <==> && env.upper(q.verb) == env.upper(SignedVerb(r)) && q.path == r.path
                    && SameBody(env, q.body, r.body))
  {
    hide VerifyRequest, KnownSender, Carries, HashBody;
    SignedOutcome(env, r, q, before, after, lookup, now);
    BodyHashIsPlain(env, r.body);
    BodyHashIsPlain(env, q.body);
    SameHashSameBody(env, q.body, r.body);
    if SignedPayload(env, r) == CheckedPayload(env, r, q) {
      PayloadFixesRequest(env, r.from, Printed(r.timestamp), SignedVerb(r), r.path, HashBody(env, r.body),
                          q.verb, q.path, HashBody(env, q.body));
    }
    if ':' !in env.upper(q.verb) && ':' !in env.upper(SignedVerb(r)) {
      TargetFixesMethodAndPath(env, q.verb, q.path, SignedVerb(r), r.path);
    }
  }

  // ----- the decision on any request

  /** The text that stands for a body in a payload. */
  lemma BodyText(env: Env, body: Option<seq<Byte>>)
    ensures body == None || body == Some([]) ==> HashBody(env, body) == ""
    ensures body != None && body != Some([]) ==> HashBody(env, body) == env.sha256(body.value)
  {
  }

  /** What is signed: method, path, seconds, body hash and sender, with colons between; the method in
      upper case, and the hash left out for an empty body. */
  lemma {:induction false} SignedText(env: Env, r: SignRequest)
    requires r.peerKey != "" && r.from != "" && r.verb != "" && r.timestamp >= 0
    ensures r.body == None || r.body == Some([]) ==>
              SignRequestV3(env, r)
              == Ok(env.hmac(r.peerKey, env.upper(r.verb) + ":" + r.path + ":" + Dec(r.timestamp) + "::" + r.from))
    ensures r.body != None && r.body != Some([]) ==>
              SignRequestV3(env, r)
              == Ok(env.hmac(r.peerKey, env.upper(r.verb) + ":" + r.path + ":" + Dec(r.timestamp) + ":"
                                        + env.sha256(r.body.value) + ":" + r.from))
  {
    hide Dec;
    BodyText(env, r.body);
    var front := env.upper(r.verb) + ":" + r.path + ":" + Dec(r.timestamp);
    assert front + ":" + "" + ":" + r.from == front + "::" + r.from;
  }

  /** What a request carries, trimmed, under the five names that matter. */
  datatype Carried = Carried(from: string, sig: string, ts: string, legacySig: string, signedAt: string)

  function CarriedBy(q: Incoming): Carried {
    Carried(Header(q, "x-maw-from"), Header(q, "x-maw-signature-v3"), Header(q, "x-maw-timestamp"),
            Header(q, "x-maw-signature"), Header(q, "x-maw-signed-at"))
  }

  /** A header is the trimmed value of the last entry of its name, and empty if there is none. */
  lemma {:induction false} HeaderIs(q: Incoming, name: string, i: nat)
    ensures (forall j :: 0 <= j < |q.headers| ==> Lower(q.headers[j].0) != Lower(name)) ==> Header(q, name) == ""
    ensures i < |q.headers| && Lower(q.headers[i].0) == Lower(name)
            && (forall j :: i < j < |q.headers| ==> Lower(q.headers[j].0) != Lower(name)) ==>
              Header(q, name) == if q.headers[i].1.Some? then Trim(q.headers[i].1.value) else ""
  {
    hide Lower, Trim;
    if forall j :: 0 <= j < |q.headers| ==> Lower(q.headers[j].0) != Lower(name) { NoEntryNoHeader(q.headers, name); }
    if i < |q.headers| && Lower(q.headers[i].0) == Lower(name)
       && forall j :: i < j < |q.headers| ==> Lower(q.headers[j].0) != Lower(name) {
      LastEntryCounts(q.headers, i, name);
    }
  }

  lemma {:induction false} NoEntryNoHeader(h: Headers, name: string)
    requires forall j :: 0 <= j < |h| ==> Lower(h[j].0) != Lower(name)
    ensures GetHeader(h, name) == None
  {
    hide Lower;
    if h != [] { NoEntryNoHeader(h[..|h| - 1], name); }
  }

  /** The letters A to Z are lowered, and nothing else is changed. */
  lemma LowerCharIs(k: nat, c: char)
    ensures k < 26 ==> LowerChar("ABCDEFGHIJKLMNOPQRSTUVWXYZ"[k]) == "abcdefghijklmnopqrstuvwxyz"[k]
    ensures c !in "ABCDEFGHIJKLMNOPQRSTUVWXYZ" ==> LowerChar(c) == c
  {
    var up := "ABCDEFGHIJKLMNOPQRSTUVWXYZ";
    assert forall i :: 0 <= i < 26 ==> up[i] as int == 65 + i;
    assert forall i :: 0 <= i < 26 ==> "abcdefghijklmnopqrstuvwxyz"[i] as int == 97 + i;
    if 'A' <= c <= 'Z' {
      assert up[c as int - 65] == c;
    }
  }

  /** A signature of the current form: sender, signature and seconds are there. */
  predicate CarriesV3(c: Carried) {
    c.from != "" && c.sig != "" && c.ts != ""
  }

  predicate CarriesLegacy(c: Carried) {
    c.from != "" && c.legacySig != "" && c.signedAt != ""
  }

  /** The seconds are digits, safe, and within 300 of now. */
  predicate IsRecent(ts: string, now: int) {
    IsNumeral(ts) && Val(ts) <= 9007199254740991 && -300 <= now - Val(ts) <= 300
  }

  /** The signature is that of method, path, seconds, body and sender under the key. */
  predicate IsSignedV3(env: Env, q: Incoming, key: string) {
    var c := CarriedBy(q);
    Lower(c.sig) == env.hmac(key, env.upper(q.verb) + ":" + q.path + ":" + c.ts + ":"
                                  + (if q.body == None || q.body == Some([]) then "" else env.sha256(q.body.value))
                                  + ":" + c.from)
  }

  predicate IsSignedLegacy(env: Env, q: Incoming, key: string) {
    var c := CarriedBy(q);
    Lower(c.legacySig)
    == env.hmac(key, c.from + "\n" + c.signedAt + "\n" + env.upper(q.verb) + "\n" + q.path + "\n"
                     + (if q.body == None || q.body == Some([]) then "" else env.sha256(q.body.value)))
  }

  /** The key that is known of a sender; an empty key is none. */
  predicate HasKey(lookup: string -> Option<string>, from: string, key: string) {
    from != "" && key != "" && lookup(from) == Some(key)
  }

  /** The truth table for a sender with no known key, and for a request without a signature. */
  lemma {:induction false} UnknownOrUnsigned(env: Env, q: Incoming, lookup: string -> Option<string>, now: int)
    ensures var c, d := CarriedBy(q), VerifyRequest(env, q, lookup, now);
            && ((forall key :: !HasKey(lookup, c.from, key)) ==>
                  d == if CarriesV3(c) || CarriesLegacy(c) then AcceptTofuRecord(c.from) else AcceptLegacy)
            && ((exists key :: HasKey(lookup, c.from, key)) && !CarriesV3(c) && !CarriesLegacy(c) ==>
                  d == RefuseUnsigned(c.from))
  {
    hide Header, VerifyHmacSig, HashBody, BuildFromSignPayload, BuildLegacyPayload, ParseUnixSeconds;
    var from := From(q);
    if Cached(lookup, from).Some? {
      assert HasKey(lookup, from, lookup(from).value);
    }
  }

  /** The truth table for a sender with a known key that signs in the current form. */
  lemma {:induction false} KnownSignsV3(env: Env, q: Incoming, lookup: string -> Option<string>, now: int, key: string)
    requires HasKey(lookup, CarriedBy(q).from, key) && CarriesV3(CarriedBy(q))
    ensures var c, d := CarriedBy(q), VerifyRequest(env, q, lookup, now);
            && (!(IsNumeral(c.ts) && Val(c.ts) <= 9007199254740991) ==> d == RefuseMalformed("invalid-timestamp"))
            && (IsNumeral(c.ts) && Val(c.ts) <= 9007199254740991 && !IsRecent(c.ts, now) ==>
                  d == RefuseSkew(c.from, if now >= Val(c.ts) then now - Val(c.ts) else Val(c.ts) - now))
            && (IsRecent(c.ts, now) ==>
                  d == if IsSignedV3(env, q, key) then AcceptVerified(c.from) else RefuseMismatch(c.from))
  {
    hide Header, VerifyHmacSig, HashBody, BuildLegacyPayload, Lower;
    var c, hash := CarriedBy(q), HashBody(env, q.body);
    BodyText(env, q.body);
    SignatureIsTheDigest(env, key, BuildFromSignPayload(env, c.from, c.ts, q.verb, q.path, hash), c.sig);
  }

  /** The truth table for a sender with a known key that signs in the legacy form only. */
  lemma {:induction false} KnownSignsLegacy(env: Env, q: Incoming, lookup: string -> Option<string>, now: int,
                                            key: string)
    requires HasKey(lookup, CarriedBy(q).from, key) && !CarriesV3(CarriedBy(q)) && CarriesLegacy(CarriedBy(q))
    ensures var c, d := CarriedBy(q), VerifyRequest(env, q, lookup, now);
            match env.parseIso(c.signedAt)
            case None => d == RefuseMalformed("invalid-signed-at")
            case Some(at) =>
              if now - at > 300 then d == RefuseSkew(c.from, now - at)
              else if at - now > 300 then d == RefuseSkew(c.from, at - now)
              else d == if IsSignedLegacy(env, q, key) then AcceptVerified(c.from) else RefuseMismatch(c.from)
  {
    hide Header, VerifyHmacSig, HashBody, BuildFromSignPayload, Lower;
    var c, hash := CarriedBy(q), HashBody(env, q.body);
    BodyText(env, q.body);
    SignatureIsTheDigest(env, key, BuildLegacyPayload(env, c.from, c.signedAt, q.verb, q.path, hash), c.legacySig);
  }

  /** A genuine signature made within 300 seconds; the legacy form counts only where the current one
      is absent. */
  predicate IsGenuine(env: Env, q: Incoming, now: int, key: string) {
    var c := CarriedBy(q);
    if CarriesV3(c) then IsRecent(c.ts, now) && IsSignedV3(env, q, key)
    else
      && CarriesLegacy(c) && env.parseIso(c.signedAt).Some? && -300 <= now - env.parseIso(c.signedAt).value <= 300
      && IsSignedLegacy(env, q, key)
  }

  /** So a sender whose key is known is accepted exactly with a genuine recent signature, and a sender
      with no known key is never refused. */
  lemma {:induction false} CachedSenderMustSign(env: Env, q: Incoming, lookup: string -> Option<string>, now: int)
    ensures var c, d := CarriedBy(q), VerifyRequest(env, q, lookup, now);
            && ((forall key :: !HasKey(lookup, c.from, key)) ==> !IsRefusal(d))
            && (forall key :: HasKey(lookup, c.from, key) ==>
                  if IsGenuine(env, q, now, key) then d == AcceptVerified(c.from) else IsRefusal(d))
  {
    hide VerifyRequest, CarriedBy, CarriesV3, CarriesLegacy, IsSignedV3, IsSignedLegacy;
    var c, d := CarriedBy(q), VerifyRequest(env, q, lookup, now);
    UnknownOrUnsigned(env, q, lookup, now);
    forall key | HasKey(lookup, c.from, key)
      ensures if IsGenuine(env, q, now, key) then d == AcceptVerified(c.from) else IsRefusal(d)
    {
      if CarriesV3(c) {
        KnownSignsV3(env, q, lookup, now, key);
      } else if CarriesLegacy(c) {
        KnownSignsLegacy(env, q, lookup, now, key);
      }
    }
  }
}
