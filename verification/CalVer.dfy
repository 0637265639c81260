/** Calendar versions: the base from the clock, the anti-downgrade rule against package.json
    and tags, and what a sequence of cuts can and cannot do to the version order. */
module CalVer {
  import opened Strings
  import opened Wrappers

  /** A calendar base YY.M.D. */
  datatype Base = Base(yy: nat, m: nat, d: nat)

  datatype Channel = Alpha | Beta

  datatype Version =
    | Stable(base: Base)
    | Cut(base: Base, channel: Channel, stamp: nat)

  datatype Clock = Clock(year: nat, month: nat, day: nat, hour: nat, minute: nat)

  function Show(b: Base): string {
    Dec(b.yy) + "." + Dec(b.m) + "." + Dec(b.d)
  }

  function ChannelName(c: Channel): string {
    match c case Alpha => "alpha" case Beta => "beta"
  }

  function Print(v: Version): string {
    match v
    case Stable(b) => Show(b)
    case Cut(b, c, n) => CutPrefix(Show(b), c) + Dec(n)
  }

  /** What a cut on this base and channel starts with. */
  function CutPrefix(base: string, channel: Channel): string {
    base + "-" + ChannelName(channel) + "."
  }

  // ----- calendar arithmetic (ECMA-262, section 21.4.1)

  predicate Leap(y: nat) {
    y % 4 == 0 && (y % 100 != 0 || y % 400 == 0)
  }

  function DaysIn(y: nat, m: nat): nat
    requires 1 <= m <= 12
  {
    if m == 2 then (if Leap(y) then 29 else 28)
    else if m == 4 || m == 6 || m == 9 || m == 11 then 30
    else 31
  }

  predicate RealDate(y: nat, m: nat, d: nat) {
    1 <= m <= 12 && 1 <= d <= DaysIn(y, m)
  }

  function DaysInYear(y: nat): nat {
    if Leap(y) then 366 else 365
  }

  /** Days from 1970-01-01 to the first day of the year. */
  function DayFromYear(y: nat): nat
    requires y >= 1970
  {
    if y == 1970 then 0 else DayFromYear(y - 1) + DaysInYear(y - 1)
  }

  /** The closed form the standard gives for it. */
  lemma {:induction false} DayFromYearClosedForm(y: nat)
    requires y >= 1970
    ensures DayFromYear(y) == 365 * (y - 1970) + (y - 1969) / 4 - (y - 1901) / 100 + (y - 1601) / 400
  {
    if y > 1970 {
      var x := y - 1;
      DayFromYearClosedForm(x);
      Fourth(x);
      Hundredth(x);
      FourHundredth(x);
      LeapNumbers(x);
    }
  }

  lemma Fourth(x: nat)
    ensures (x - 1968) / 4 - (x - 1969) / 4 == if x % 4 == 0 then 1 else 0
  {
  }

  lemma Hundredth(x: nat)
    ensures (x - 1900) / 100 - (x - 1901) / 100 == if x % 100 == 0 then 1 else 0
  {
  }

  lemma FourHundredth(x: nat)
    ensures (x - 1600) / 400 - (x - 1601) / 400 == if x % 400 == 0 then 1 else 0
  {
  }

  lemma FourDivides(k: nat)
    ensures 4 * k % 4 == 0
  {
  }

  lemma HundredDivides(k: nat)
    ensures 100 * k % 100 == 0
  {
  }

  lemma CenturiesAreFourths(x: nat)
    ensures x % 100 == 0 ==> x % 4 == 0
    ensures x % 400 == 0 ==> x % 100 == 0
  {
    FourDivides(25 * (x / 100));
    HundredDivides(4 * (x / 400));
  }

  lemma LeapNumbers(x: nat)
    ensures (if Leap(x) then 1 else 0)
            == (if x % 4 == 0 then 1 else 0) - (if x % 100 == 0 then 1 else 0) + (if x % 400 == 0 then 1 else 0)
  {
    CenturiesAreFourths(x);
  }

  /** Days of the year before month `m`; 13 stands for the whole year. */
  function DaysBefore(y: nat, m: nat): nat
    requires 1 <= m <= 13
  {
    if m == 1 then 0 else DaysBefore(y, m - 1) + DaysIn(y, m - 1)
  }

  /** The day number of a date whose day may overflow its month. */
  function MakeDay(y: nat, m: nat, d: nat): int
    requires 1 <= m <= 12 && y >= 1970
  {
    DayFromYear(y) + DaysBefore(y, m) + d - 1
  }

  lemma YearLength(y: nat)
    ensures DaysBefore(y, 13) == DaysInYear(y)
  {
    MonthStarts(y);
  }

  lemma MonthStarts(y: nat)
    ensures var f := if Leap(y) then 1 else 0;
            && DaysBefore(y, 2) == 31 && DaysBefore(y, 3) == 59 + f && DaysBefore(y, 4) == 90 + f
            && DaysBefore(y, 5) == 120 + f && DaysBefore(y, 6) == 151 + f && DaysBefore(y, 7) == 181 + f
            && DaysBefore(y, 8) == 212 + f && DaysBefore(y, 9) == 243 + f && DaysBefore(y, 10) == 273 + f
            && DaysBefore(y, 11) == 304 + f && DaysBefore(y, 12) == 334 + f && DaysBefore(y, 13) == 365 + f
  {
    assert DaysBefore(y, 3) == DaysBefore(y, 2) + DaysIn(y, 2);
    assert DaysBefore(y, 5) == DaysBefore(y, 4) + DaysIn(y, 4);
    assert DaysBefore(y, 7) == DaysBefore(y, 6) + DaysIn(y, 6);
    assert DaysBefore(y, 9) == DaysBefore(y, 8) + DaysIn(y, 8);
    assert DaysBefore(y, 11) == DaysBefore(y, 10) + DaysIn(y, 10);
  }

  datatype Date = Date(y: nat, m: nat, d: nat)

  /** The year of a day number, searched upwards from a year that is not too late. */
  function YearOf(t: int, from: nat): (y: nat)
    requires from >= 1970 && DayFromYear(from) <= t
    ensures y >= from && DayFromYear(y) <= t < DayFromYear(y + 1)
    decreases t - DayFromYear(from)
  {
    if t < DayFromYear(from + 1) then from else YearOf(t, from + 1)
  }

  function MonthOf(y: nat, day: nat, from: nat): (m: nat)
    requires 1 <= from <= 12 && DaysBefore(y, from) <= day < DaysBefore(y, 13)
    ensures 1 <= m <= 12 && DaysBefore(y, m) <= day < DaysBefore(y, m + 1)
    decreases 12 - from
  {
    if day < DaysBefore(y, from + 1) then from else MonthOf(y, day, from + 1)
  }

  /** The date of a day number, given a year that is not too late. */
  function DateOf(t: int, from: nat): (r: Date)
    requires from >= 1970 && DayFromYear(from) <= t
    ensures r.y >= from && RealDate(r.y, r.m, r.d) && MakeDay(r.y, r.m, r.d) == t
  {
    var y := YearOf(t, from);
    YearLength(y);
    var day := t - DayFromYear(y);
    var m := MonthOf(y, day, 1);
    Date(y, m, day - DaysBefore(y, m) + 1)
  }

  lemma {:induction false} YearsGrow(y: nat, z: nat)
    requires 1970 <= y <= z
    ensures DayFromYear(y) <= DayFromYear(z)
    ensures y < z ==> DayFromYear(y + 1) <= DayFromYear(z)
    decreases z - y
  {
    if y < z { YearsGrow(y + 1, z); }
  }

  lemma {:induction false} MonthsGrow(y: nat, m: nat, n: nat)
    requires 1 <= m <= n <= 13
    ensures DaysBefore(y, m) <= DaysBefore(y, n)
    ensures m < n ==> DaysBefore(y, m + 1) <= DaysBefore(y, n)
    decreases n - m
  {
    if m < n { MonthsGrow(y, m + 1, n); }
  }

  /** Day numbers of real dates follow the order of dates, so they determine the date. */
  lemma EarlierDateEarlierDay(a: Date, b: Date)
    requires a.y >= 1970 && RealDate(a.y, a.m, a.d) && b.y >= 1970 && RealDate(b.y, b.m, b.d)
    requires a.y < b.y || (a.y == b.y && (a.m < b.m || (a.m == b.m && a.d < b.d)))
    ensures MakeDay(a.y, a.m, a.d) < MakeDay(b.y, b.m, b.d)
  {
    if a.y < b.y {
      YearsGrow(a.y, b.y);
      YearLength(a.y);
      MonthsGrow(a.y, a.m, 13);
      if a.m < 13 { assert DaysBefore(a.y, a.m + 1) == DaysBefore(a.y, a.m) + DaysIn(a.y, a.m); }
    } else if a.m < b.m {
      MonthsGrow(a.y, a.m, b.m);
    }
  }

  /** Every real date comes back from its day number. */
  lemma DateOfMakeDay(y: nat, m: nat, d: nat, from: nat)
    requires 1970 <= from <= y && RealDate(y, m, d)
    ensures DayFromYear(from) <= MakeDay(y, m, d)
    ensures DateOf(MakeDay(y, m, d), from) == Date(y, m, d)
  {
    YearsGrow(from, y);
    var a, b := DateOf(MakeDay(y, m, d), from), Date(y, m, d);
    if a != b {
      if a.y < b.y || (a.y == b.y && (a.m < b.m || (a.m == b.m && a.d < b.d))) {
        EarlierDateEarlierDay(a, b);
      } else {
        EarlierDateEarlierDay(b, a);
      }
    }
  }

  // ----- parsing bases

  function Parts(s: string): seq<string> {
    Split(s, '.')
  }

  /** Dot-separated numerals: what every caller passes on as a base. */
  predicate Numeric(s: string) {
    forall i :: 0 <= i < |Parts(s)| ==> IsNumeral(Parts(s)[i])
  }

  function BaseOf(s: string): Base
    requires Numeric(s) && |Parts(s)| == 3
  {
    Base(Val(Parts(s)[0]), Val(Parts(s)[1]), Val(Parts(s)[2]))
  }

  predicate Before(a: Base, b: Base) {
    a.yy < b.yy || (a.yy == b.yy && (a.m < b.m || (a.m == b.m && a.d < b.d)))
  }

  /** Sign of the comparison: negative, zero, positive. */
  function Compare(a: Base, b: Base): int {
    if a.yy != b.yy then a.yy - b.yy
    else if a.m != b.m then a.m - b.m
    else a.d - b.d
  }

  lemma CompareIsOrder(a: Base, b: Base)
    ensures Compare(a, b) < 0 <==> Before(a, b)
    ensures Compare(a, b) == 0 <==> a == b
    ensures Compare(a, b) > 0 <==> Before(b, a)
  {
  }

  /** The integer that text starts with, after whitespace and a sign; none is not a number. */
  function ParseInt(s: string): Option<int> {
    var t := TrimStart(s);
    var signed := t != "" && (t[0] == '-' || t[0] == '+');
    var digits := if signed then t[1..] else t;
    if DigitRun(digits) == 0 then None
    else
      DigitRunIsLongest(digits);
      var n: int := Val(digits[..DigitRun(digits)]);
      Some(if signed && t[0] == '-' then -n else n)
  }

  lemma ParseIntOfNumeral(s: string)
    requires IsNumeral(s)
    ensures ParseInt(s) == Some(Val(s))
  {
    assert s + "" == s;
    DigitRunOf(s, "");
    assert s[..|s|] == s;
    assert IsDigit(s[0]);
  }

  /** A numeral with or without a sign is its number, whatever follows and whatever whitespace comes
      before. */
  lemma {:induction false} ParseIntIs(space: string, n: string, rest: string)
    requires (forall c :: c in space ==> IsSpace(c)) && IsNumeral(n) && (rest == "" || !IsDigit(rest[0]))
    ensures ParseInt(space + (n + rest)) == Some(Val(n))
    ensures ParseInt(space + ("+" + (n + rest))) == Some(Val(n))
    ensures var minus: int := 0 - Val(n); ParseInt(space + ("-" + (n + rest))) == Some(minus)
  {
    hide Val, DigitRun, TrimStart, IsSpace;
    var t := n + rest;
    assert IsDigit(t[0]) && t[0] == n[0];
    DigitRunOf(n, rest);
    assert t[..|n|] == n && DigitRun(t) == |n| && |n| > 0;
    assert ("+" + t)[1..] == t && ("-" + t)[1..] == t;
    DigitIsNoSpace(t[0]);
    DigitIsNoSpace('+');
    DigitIsNoSpace('-');
    TrimStartOf(space, t);
    TrimStartOf(space, "+" + t);
    TrimStartOf(space, "-" + t);
  }

  lemma DigitIsNoSpace(c: char)
    requires IsDigit(c) || c == '+' || c == '-'
    ensures !IsSpace(c)
  {
  }

  /** A text that starts with no digit and no sign, after whitespace, has no number. */
  lemma {:induction false} NoNumber(space: string, rest: string)
    requires forall c :: c in space ==> IsSpace(c)
    requires rest == "" || !(IsDigit(rest[0]) || rest[0] == '+' || rest[0] == '-' || IsSpace(rest[0]))
    ensures ParseInt(space + rest) == None
  {
    TrimStartOf(space, rest);
  }

  lemma {:induction false} TrimStartOf(space: string, t: string)
    requires (forall c :: c in space ==> IsSpace(c)) && (t == "" || !IsSpace(t[0]))
    ensures TrimStart(space + t) == t
  {
    if space == "" {
      assert space + t == t;
    } else {
      assert space[0] in space && (space + t)[1..] == space[1..] + t;
      TrimStartOf(space[1..], t);
    }
  }

  predicate SameNumber(a: string, b: string) {
    ParseInt(a).Some? && ParseInt(a) == ParseInt(b)
  }

  /** The difference of two parsed integers; not a number when either is not. */
  function Difference(a: string, b: string): Option<int> {
    if ParseInt(a).Some? && ParseInt(b).Some? then Some(ParseInt(a).value - ParseInt(b).value) else None
  }

  /** The first segment that differs decides; segments that are not numbers always differ. */
  method CompareBases(a: string, b: string) returns (r: Result<Option<int>>)
    ensures r.Err? <==> |Parts(a)| != 3 || |Parts(b)| != 3
    ensures r.Ok? ==> (r.value == Some(0) <==> forall k :: 0 <= k < 3 ==> SameNumber(Parts(a)[k], Parts(b)[k]))
    ensures r.Ok? ==>
              (forall k :: 0 <= k < 3 && !SameNumber(Parts(a)[k], Parts(b)[k])
                           && (forall l :: 0 <= l < k ==> SameNumber(Parts(a)[l], Parts(b)[l])) ==>
                             r.value == Difference(Parts(a)[k], Parts(b)[k]))
    ensures r.Ok? && Numeric(a) && Numeric(b) ==>
              && r.value == Some(Compare(BaseOf(a), BaseOf(b)))
              && (r.value.value < 0 <==> Before(BaseOf(a), BaseOf(b)))
              && (r.value.value == 0 <==> BaseOf(a) == BaseOf(b))
  {
    hide ParseInt, Split;
    var pa, pb := Parts(a), Parts(b);
    if |pa| != 3 || |pb| != 3 {
      return Err("compareBases expects YY.M.D");
    }
    if Numeric(a) && Numeric(b) {
      forall k | 0 <= k < 3
        ensures SameNumber(pa[k], pb[k]) <==> Val(pa[k]) == Val(pb[k])
        ensures Difference(pa[k], pb[k]) == Some(Val(pa[k]) as int - Val(pb[k]))
      {
        ParseIntOfNumeral(pa[k]);
        ParseIntOfNumeral(pb[k]);
      }
    }
    hide SameNumber, Difference, Val;
    for i := 0 to 3
      invariant forall k :: 0 <= k < i ==> SameNumber(pa[k], pb[k])
    {
      if !SameNumber(pa[i], pb[i]) {
        return Ok(Difference(pa[i], pb[i]));
      }
    }
    return Ok(Some(0));
  }

  /** The guard's month table: February has 29 days in every year. */
  function TableDays(m: nat): nat
    requires 1 <= m <= 12
  {
    [0, 31, 29, 31, 30, 31, 30, 31, 31, 30, 31, 30, 31][m]
  }

  predicate ValidBase(b: Base) {
    1 <= b.m <= 12 && 1 <= b.d <= TableDays(b.m)
  }

  predicate IsValidCalendarDate(s: string)
    requires Numeric(s)
  {
    |Parts(s)| == 3 && ValidBase(BaseOf(s))
  }

  lemma ValidUpToLeapDay(b: Base)
    ensures ValidBase(b) <==> RealDate(2000 + b.yy, b.m, b.d) || (b.m == 2 && b.d == 29)
  {
  }

  predicate IsLineEnd(c: char) {
    c == '\n' || c == '\r' || c == '\U{2028}' || c == '\U{2029}'
  }

  /** What may follow a base: nothing, or a suffix on the same line. */
  predicate IsSuffix(tail: string) {
    tail == "" || ((tail[0] == '-' || tail[0] == '+') && forall i :: 1 <= i < |tail| ==> !IsLineEnd(tail[i]))
  }

  function StripV(version: string): string {
    if version != "" && version[0] == 'v' then version[1..] else version
  }

  function Triple(x: string, y: string, z: string): string {
    x + "." + y + "." + z
  }

  datatype Scan = Scan(numeral: string, rest: string)

  /** The longest numeral at the start of `s`, followed by a dot if `dot` is set. */
  function ScanNumeral(s: string, dot: bool): Option<Scan> {
    var n := DigitRun(s);
    if n == 0 then None
    else if !dot then Some(Scan(s[..n], s[n..]))
    else if n < |s| && s[n] == '.' then Some(Scan(s[..n], s[n + 1..]))
    else None
  }

  function ExtractBase(version: string): Option<string> {
    match ScanNumeral(StripV(version), true)
    case None => None
    case Some(yy) =>
      match ScanNumeral(yy.rest, true)
      case None => None
      case Some(mo) =>
        match ScanNumeral(mo.rest, false)
        case None => None
        case Some(da) => if IsSuffix(da.rest) then Some(Triple(yy.numeral, mo.numeral, da.numeral)) else None
  }

  lemma ScanIsSplit(s: string, dot: bool)
    requires ScanNumeral(s, dot).Some?
    ensures var r := ScanNumeral(s, dot).value;
            IsNumeral(r.numeral) && s == r.numeral + (if dot then "." else "") + r.rest
  {
    DigitRunIsLongest(s);
  }

  lemma ScanDotted(x: string, rest: string)
    requires IsNumeral(x)
    ensures ScanNumeral(x + "." + rest, true) == Some(Scan(x, rest))
  {
    assert x + "." + rest == x + ("." + rest);
    DigitRunOf(x, "." + rest);
  }

  lemma ScanLast(x: string, rest: string)
    requires IsNumeral(x) && (rest == "" || !IsDigit(rest[0]))
    ensures ScanNumeral(x + rest, false) == Some(Scan(x, rest))
  {
    DigitRunOf(x, rest);
  }

  lemma TripleReassociates(x: string, y: string, z: string, tail: string)
    ensures Triple(x, y, z) + tail == x + "." + (y + "." + (z + tail))
  {
  }

  /** Extraction recognises exactly the triples of numerals that end there or go on with "-" or "+" and
      the rest of one line. */
  lemma ExtractBaseOfTriple(x: string, y: string, z: string, tail: string)
    requires IsNumeral(x) && IsNumeral(y) && IsNumeral(z)
    requires tail == "" || !IsDigit(tail[0])
    ensures ExtractBase(x + "." + y + "." + z + tail) ==
            if tail == "" || ((tail[0] == '-' || tail[0] == '+')
                              && forall i :: 1 <= i < |tail| ==> tail[i] !in {'\n', '\r', '\U{2028}', '\U{2029}'})
            then Some(Triple(x, y, z)) else None
    ensures ExtractBase("v" + (x + "." + y + "." + z + tail)) == ExtractBase(x + "." + y + "." + z + tail)
  {
    var s := Triple(x, y, z) + tail;
    assert ("v" + s)[1..] == s;
    TripleReassociates(x, y, z, tail);
    assert StripV(s) == s by { assert IsDigit(s[0]); }
    ScanDotted(x, y + "." + (z + tail));
    ScanDotted(y, z + tail);
    ScanLast(z, tail);
  }

  lemma ExtractBaseParts(version: string) returns (x: string, y: string, z: string, tail: string)
    requires ExtractBase(version).Some?
    ensures IsNumeral(x) && IsNumeral(y) && IsNumeral(z) && IsSuffix(tail)
    ensures StripV(version) == Triple(x, y, z) + tail
    ensures ExtractBase(version) == Some(Triple(x, y, z))
  {
    var yy := ScanNumeral(StripV(version), true).value;
    var mo := ScanNumeral(yy.rest, true).value;
    var da := ScanNumeral(mo.rest, false).value;
    ScanIsSplit(StripV(version), true);
    ScanIsSplit(yy.rest, true);
    ScanIsSplit(mo.rest, false);
    x, y, z, tail := yy.numeral, mo.numeral, da.numeral, da.rest;
    assert mo.rest == z + tail;
    TripleReassociates(x, y, z, tail);
  }

  lemma ExtractBaseSound(version: string)
    requires ExtractBase(version).Some?
    ensures var b := ExtractBase(version).value;
            && b <= StripV(version) && IsSuffix(StripV(version)[|b|..])
            && Numeric(b) && |Parts(b)| == 3
  {
    var x, y, z, tail := ExtractBaseParts(version);
    PartsOfTriple(x, y, z);
  }

  lemma PartsOfTriple(x: string, y: string, z: string)
    requires IsNumeral(x) && IsNumeral(y) && IsNumeral(z)
    ensures Parts(Triple(x, y, z)) == [x, y, z] && Numeric(Triple(x, y, z))
  {
    assert Triple(x, y, z) == x + ['.'] + (y + ['.'] + z);
    SplitAtFirst(x, '.', y + ['.'] + z);
    SplitAtFirst(y, '.', z);
    SplitWithout(z, '.');
  }

  lemma ShowParses(b: Base)
    ensures Numeric(Show(b)) && |Parts(Show(b))| == 3 && BaseOf(Show(b)) == b
  {
    PartsOfTriple(Dec(b.yy), Dec(b.m), Dec(b.d));
    assert Show(b) == Triple(Dec(b.yy), Dec(b.m), Dec(b.d));
    ValOfDec(b.yy);
    ValOfDec(b.m);
    ValOfDec(b.d);
  }

  // ----- the base of the next cut

  predicate RealClock(now: Clock) {
    RealDate(now.year, now.month, now.day) && now.hour < 24 && now.minute < 60
  }

  lemma ClockIs(now: Clock)
    ensures RealClock(now) <==> RealDate(now.year, now.month, now.day) && now.hour < 24 && now.minute < 60
  {
  }

  function Today(now: Clock): Base {
    Base(now.year % 100, now.month, now.day)
  }

  function DateBase(now: Clock): string {
    Show(Today(now))
  }

  function EffectiveBase(today: string, packageVersion: string): Result<string>
    requires Numeric(today) && |Parts(today)| == 3
  {
    match ExtractBase(packageVersion)
    case None => Ok(today)
    case Some(b) =>
      ExtractBaseSound(packageVersion);
      if !IsValidCalendarDate(b) then Err("ghost date in package.json")
      else if Compare(BaseOf(b), BaseOf(today)) > 0 then Ok(b)
      else Ok(today)
  }

  /** A date as a base: the year loses its century. */
  function Shorten(date: Date): Base {
    Base(date.y % 100, date.m, date.d)
  }

  lemma ShortYear(y: nat)
    ensures 2000 <= y <= 2099 ==> y % 100 == y - 2000
    ensures y % 100 <= 99
  {
  }

  function NextBase(b: Base): Base
    requires ValidBase(b)
  {
    var y := 2000 + b.yy;
    Shorten(DateOf(MakeDay(y, b.m, b.d + 1), y))
  }

  function NextCalendarBase(base: string): Result<string>
    requires Numeric(base)
  {
    if !IsValidCalendarDate(base) then Err("nextCalendarBase expects a real YY.M.D date")
    else Ok(Show(NextBase(BaseOf(base))))
  }

  /** The number after `prefix`, or -1. */
  function NumberAfter(prefix: string, s: string): int {
    if prefix <= s && IsNumeral(s[|prefix|..]) then Val(s[|prefix|..]) else -1
  }

  function MaxNFromPackageJson(base: string, channel: Channel, packageVersion: string): int {
    NumberAfter(CutPrefix(base, channel), StripV(packageVersion))
  }

  function TagN(base: string, channel: Channel, tag: string): int {
    NumberAfter("v" + CutPrefix(base, channel), tag)
  }

  function Max(a: int, b: int): int {
    if a < b then b else a
  }

  function MaxTagN(base: string, channel: Channel, tags: seq<string>): int {
    if tags == [] then -1
    else Max(MaxTagN(base, channel, tags[..|tags| - 1]), TagN(base, channel, tags[|tags| - 1]))
  }

  /** The largest number among the tags of this base and channel, or -1. */
  method MaxNFromTags(base: string, channel: Channel, tags: seq<string>) returns (max: int)
    ensures max == MaxTagN(base, channel, tags)
    ensures forall i :: 0 <= i < |tags| ==> TagN(base, channel, tags[i]) <= max
    ensures max == -1 || exists i :: 0 <= i < |tags| && TagN(base, channel, tags[i]) == max
  {
    hide CutPrefix, Val;
    var prefix := "v" + CutPrefix(base, channel);
    max := -1;
    for i := 0 to |tags|
      invariant max == MaxTagN(base, channel, tags[..i])
      invariant max >= -1
      invariant forall k :: 0 <= k < i ==> TagN(base, channel, tags[k]) <= max
      invariant max == -1 || exists k :: 0 <= k < i && TagN(base, channel, tags[k]) == max
    {
      assert tags[..i + 1][..i] == tags[..i];
      if prefix <= tags[i] {
        var rest := tags[i][|prefix|..];
        if IsNumeral(rest) {
          var n := Val(rest);
          if n > max {
            max := n;
          }
        }
      }
    }
    assert tags[..|tags|] == tags;
  }

  function Stamp(now: Clock): nat {
    now.hour * 100 + now.minute
  }

  function HhmmStamp(now: Clock): string {
    Dec(Stamp(now))
  }

  function ComputeVersion(stable: bool, channel: Channel, now: Clock, tags: seq<string>,
                          packageVersion: string): Result<string> {
    ShowParses(Today(now));
    if stable then Ok(DateBase(now))
    else
      match EffectiveBase(DateBase(now), packageVersion)
      case Err(e) => Err(e)
      case Ok(base) =>
        var stamp := Val(HhmmStamp(now));
        var maxExisting := Max(MaxTagN(base, channel, tags), MaxNFromPackageJson(base, channel, packageVersion));
        BasesAreNumeric(DateBase(now), packageVersion);
        match (if stamp > maxExisting then Ok(base) else NextCalendarBase(base))
        case Err(e) => Err(e)
        case Ok(versionBase) => Ok(CutPrefix(versionBase, channel) + Dec(stamp))
  }

  lemma BasesAreNumeric(today: string, packageVersion: string)
    requires Numeric(today) && |Parts(today)| == 3
    ensures EffectiveBase(today, packageVersion).Ok? ==> Numeric(EffectiveBase(today, packageVersion).value)
  {
    if ExtractBase(packageVersion).Some? { ExtractBaseSound(packageVersion); }
  }

  // ----- the next calendar base

  /** The last and the first day of a two-digit century. */
  const LAST := Base(99, 12, 31)
  const FIRST := Base(0, 1, 1)

  function DayAfter(y: nat, m: nat, d: nat): Date
    requires 1 <= m <= 12
  {
    if d < DaysIn(y, m) then Date(y, m, d + 1)
    else if m == 12 then Date(y + 1, 1, 1)
    else Date(y, m + 1, 1 + d - DaysIn(y, m))
  }

  lemma DayAfterIsOneLater(y: nat, m: nat, d: nat)
    requires y >= 1970 && 1 <= m <= 12 && 1 <= d <= TableDays(m)
    ensures var next := DayAfter(y, m, d);
            && RealDate(next.y, next.m, next.d)
            && MakeDay(next.y, next.m, next.d) == MakeDay(y, m, d + 1)
  {
    if m == 12 && d == 31 {
      YearLength(y);
      assert DaysBefore(y, 13) == DaysBefore(y, 12) + 31;
    } else if d >= DaysIn(y, m) {
      assert DaysBefore(y, m + 1) == DaysBefore(y, m) + DaysIn(y, m);
    }
  }

  lemma DateOfNext(y: nat, m: nat, d: nat)
    requires y >= 1970 && 1 <= m <= 12 && 1 <= d <= TableDays(m)
    ensures DayFromYear(y) <= MakeDay(y, m, d + 1)
    ensures DateOf(MakeDay(y, m, d + 1), y) == DayAfter(y, m, d)
  {
    var next := DayAfter(y, m, d);
    DayAfterIsOneLater(y, m, d);
    DateOfMakeDay(next.y, next.m, next.d, y);
  }

  /** Rolling forward gives the calendar's next day; the ghost date Feb 29 goes to Mar 2. */
  lemma NextDateIs(b: Base)
    requires ValidBase(b)
    ensures NextBase(b) == Shorten(DayAfter(2000 + b.yy, b.m, b.d))
  {
    hide MakeDay, DateOf, DayAfter, TableDays;
    DateOfNext(2000 + b.yy, b.m, b.d);
  }

  /** For every real date up to 2099-12-30 the result is the real date one day later. */
  lemma NextBaseIsTheNextDay(b: Base)
    requires RealDate(2000 + b.yy, b.m, b.d) && b.yy <= 99 && b != LAST
    ensures var n := NextBase(b);
            && RealDate(2000 + n.yy, n.m, n.d)
            && MakeDay(2000 + n.yy, n.m, n.d) == MakeDay(2000 + b.yy, b.m, b.d) + 1
  {
    hide NextBase;
    ValidUpToLeapDay(b);
    var y := 2000 + b.yy;
    var next := DayAfter(y, b.m, b.d);
    NextDateIs(b);
    DayAfterIsOneLater(y, b.m, b.d);
    ShortYear(next.y);
    assert 2000 + NextBase(b).yy == next.y;
  }

  /** For every accepted base the result is accepted, and it is later exactly when the base
      lies before the end of the two-digit century. */
  lemma {:induction false} NextBaseIsLater(b: Base)
    requires ValidBase(b)
    ensures ValidBase(NextBase(b))
    ensures Before(b, NextBase(b)) <==> Before(b, LAST)
    ensures !Before(b, LAST) ==> Before(NextBase(b), b)
    ensures b == LAST ==> NextBase(b) == FIRST
  {
    NextDateIs(b);
    DayAfterIsLater(b, Shorten(DayAfter(2000 + b.yy, b.m, b.d)));
  }

  lemma DayAfterIsLater(b: Base, n: Base)
    requires ValidBase(b) && n == Shorten(DayAfter(2000 + b.yy, b.m, b.d))
    ensures ValidBase(n)
    ensures Before(b, n) <==> Before(b, LAST)
    ensures !Before(b, LAST) ==> Before(n, b)
    ensures b == LAST ==> n == FIRST
  {
    ShortYear(DayAfter(2000 + b.yy, b.m, b.d).y);
  }

  lemma {:induction false} NextCalendarBaseShows(b: Base)
    requires ValidBase(b)
    ensures Numeric(Show(b)) && NextCalendarBase(Show(b)) == Ok(Show(NextBase(b)))
  {
    ShowParses(b);
  }

  // ----- printed versions parse back

  function CutSuffix(c: Channel, number: string): string {
    "-" + ChannelName(c) + "." + number
  }

  lemma CutSuffixIsSuffix(base: string, c: Channel, number: string)
    requires IsNumeral(number)
    ensures IsSuffix(CutSuffix(c, number)) && CutSuffix(c, number)[0] == '-'
    ensures CutPrefix(base, c) + number == base + CutSuffix(c, number)
  {
  }

  lemma PrintedBaseParses(v: Version)
    ensures ExtractBase(Print(v)) == Some(Show(v.base))
    ensures StripV(Print(v)) == Print(v)
  {
    var x, y, z := Dec(v.base.yy), Dec(v.base.m), Dec(v.base.d);
    assert Show(v.base) == Triple(x, y, z);
    assert IsDigit(Print(v)[0]);
    match v {
      case Stable(b) =>
        ExtractBaseOfTriple(x, y, z, "");
        assert Print(v) == Triple(x, y, z) + "";
      case Cut(b, c, n) =>
        CutSuffixIsSuffix(Triple(x, y, z), c, Dec(n));
        ExtractBaseOfTriple(x, y, z, CutSuffix(c, Dec(n)));
    }
  }

  lemma {:induction false} StampOfOwnChannel(base: string, c: Channel, n: nat)
    ensures NumberAfter(CutPrefix(base, c), CutPrefix(base, c) + Dec(n)) == n
  {
    hide CutPrefix, Dec, Val;
    ValOfDec(n);
    assert (CutPrefix(base, c) + Dec(n))[|CutPrefix(base, c)|..] == Dec(n);
  }

  lemma {:induction false} NoStampOfOtherChannel(base: string, c: Channel, other: Channel, number: string)
    requires c != other
    ensures NumberAfter(CutPrefix(base, c), CutPrefix(base, other) + number) == -1
  {
    var prefix, printed := CutPrefix(base, c), CutPrefix(base, other) + number;
    assert prefix[|base| + 1] == ChannelName(c)[0] && printed[|base| + 1] == ChannelName(other)[0];
  }

  lemma {:induction false} NoStampWhenStable(base: string, c: Channel)
    ensures NumberAfter(CutPrefix(base, c), base) == -1
  {
    assert |CutPrefix(base, c)| > |base|;
  }

  /** The number read back is the stamp for the version's own channel and -1 for the other,
      and -1 for a stable version. */
  lemma {:induction false} PrintedStampParses(v: Version, c: Channel)
    ensures MaxNFromPackageJson(Show(v.base), c, Print(v)) == if v.Cut? && v.channel == c then v.stamp else -1
  {
    hide Show, CutPrefix, Dec, NumberAfter, StripV, ExtractBase;
    PrintedBaseParses(v);
    match v {
      case Stable(base) => NoStampWhenStable(Show(base), c);
      case Cut(base, channel, n) =>
        if channel == c {
          StampOfOwnChannel(Show(base), c, n);
        } else {
          NoStampOfOtherChannel(Show(base), c, channel, Dec(n));
        }
    }
  }

  // ----- what one cut produces

  /** The base a cut starts from, on values. */
  function StartBase(now: Clock, last: Base): Base {
    if Before(Today(now), last) then last else Today(now)
  }

  /** The largest number already taken for the starting base. */
  function Taken(channel: Channel, now: Clock, tags: seq<string>, last: Version): int {
    var base := StartBase(now, last.base);
    Max(MaxTagN(Show(base), channel, tags),
        MaxNFromPackageJson(Show(base), channel, Print(last)))
  }

  function NextCut(channel: Channel, now: Clock, tags: seq<string>, last: Version): Version
    requires RealClock(now) && ValidBase(last.base)
  {
    TodayIsValid(now);
    var base := StartBase(now, last.base);
    Cut(if Stamp(now) > Taken(channel, now, tags, last) then base else NextBase(base), channel, Stamp(now))
  }

  lemma TodayIsValid(now: Clock)
    requires RealClock(now)
    ensures ValidBase(Today(now))
  {
  }

  /** From a canonically printed version with a real base, a cut never fails: the ghost-date
      guard does not fire, and the result is the print of the next cut. */
  lemma {:induction false} CutSucceeds(channel: Channel, now: Clock, tags: seq<string>, last: Version)
    requires RealClock(now) && ValidBase(last.base)
    ensures ComputeVersion(false, channel, now, tags, Print(last)) == Ok(Print(NextCut(channel, now, tags, last)))
  {
    hide RealClock, MaxTagN, MaxNFromPackageJson, Show, Today, NextBase, EffectiveBase, NextCalendarBase, Dec, Split,
         Before, ValidBase;
    TodayIsValid(now);
    var start := StartBase(now, last.base);
    EffectiveBaseShows(now, last);
    ValOfDec(Stamp(now));
    NextCalendarBaseShows(start);
  }

  /** The next cut has a base the guard accepts, and the stamp of a real time of day. */
  lemma {:induction false} CutIsReal(channel: Channel, now: Clock, tags: seq<string>, last: Version)
    requires RealClock(now) && ValidBase(last.base)
    ensures ValidBase(NextCut(channel, now, tags, last).base)
    ensures NextCut(channel, now, tags, last).stamp / 100 == now.hour < 24
    ensures NextCut(channel, now, tags, last).stamp % 100 == now.minute < 60
  {
    hide RealClock, NextBase, Taken, Today;
    TodayIsValid(now);
    NextBaseIsLater(StartBase(now, last.base));
    ClockIsReal(now);
    StampParts(now.hour, now.minute);
  }

  lemma ClockIsReal(now: Clock)
    requires RealClock(now)
    ensures now.hour < 24 && now.minute < 60
  {
  }

  lemma StampParts(hour: nat, minute: nat)
    requires minute < 60
    ensures (hour * 100 + minute) / 100 == hour && (hour * 100 + minute) % 100 == minute
  {
  }

  lemma EffectiveBaseShows(now: Clock, last: Version)
    requires RealClock(now) && ValidBase(last.base)
    ensures Numeric(DateBase(now)) && |Parts(DateBase(now))| == 3
    ensures EffectiveBase(DateBase(now), Print(last)) == Ok(Show(StartBase(now, last.base)))
  {
    ShowParses(Today(now));
    ShowParses(last.base);
    PrintedBaseParses(last);
    CompareIsOrder(last.base, Today(now));
  }

  // ----- the order of versions (Semantic Versioning 2.0.0, section 11)

  predicate Less(v: Version, w: Version) {
    Before(v.base, w.base) ||
    (v.base == w.base && v.Cut? &&
     (w.Stable? || (v.channel == Alpha && w.channel == Beta) || (v.channel == w.channel && v.stamp < w.stamp)))
  }

  /** Before the wrap: the cut does not have to roll past the last day of the century. */
  predicate NoWrap(channel: Channel, now: Clock, tags: seq<string>, last: Version) {
    Stamp(now) > Taken(channel, now, tags, last) || Before(StartBase(now, last.base), LAST)
  }

  lemma StartBaseIsLatest(now: Clock, last: Base)
    ensures StartBase(now, last) == last || (Before(last, StartBase(now, last)) && StartBase(now, last).yy <= 99)
  {
  }

  /** Whatever the clock and the tags say, a cut on the same channel is later, unless it has to
      roll over the end of the century; then it lands on 0.1.1 or, from a year past 99, on an
      earlier base, and is later only than a smaller stamp on 0.1.1 itself. */
  lemma CutIsLaterOnItsChannel(channel: Channel, now: Clock, tags: seq<string>, last: Version)
    requires RealClock(now) && ValidBase(last.base)
    requires last.Cut? && last.channel == channel
    ensures Less(last, NextCut(channel, now, tags, last)) <==>
            NoWrap(channel, now, tags, last) || (last.base == FIRST && last.stamp < Stamp(now))
  {
    hide RealClock, NextBase, MaxTagN, MaxNFromPackageJson, Show, Print, Today, DaysIn;
    var start := StartBase(now, last.base);
    var taken := Taken(channel, now, tags, last);
    TodayIsValid(now);
    NextBaseIsLater(start);
    StartBaseIsLatest(now, last.base);
    PrintedStampParses(last, channel);
    CutOrder(last, start, NextBase(start), Stamp(now), taken);
  }

  lemma CutOrder(last: Version, start: Base, rolled: Base, stamp: nat, taken: int)
    requires last.Cut? && ValidBase(last.base) && ValidBase(start)
    requires start == last.base || (Before(last.base, start) && start.yy <= 99)
    requires start == last.base ==> taken >= last.stamp
    requires Before(start, LAST) ==> Before(start, rolled)
    requires !Before(start, LAST) ==> Before(rolled, start)
    requires start == LAST ==> rolled == FIRST
    ensures Less(last, Cut(if stamp > taken then start else rolled, last.channel, stamp)) <==>
            stamp > taken || Before(start, LAST) || (last.base == FIRST && last.stamp < stamp)
  {
  }

  /** Across channels and after a stable cut: a cut is later than the last version exactly when
      its base is later or, on the same base, the last one was an alpha and this is a beta, or
      both are on one channel and nothing wraps. A stable version and a beta on the same base
      are not overtaken. */
  lemma {:induction false} CutIsLater(channel: Channel, now: Clock, tags: seq<string>, last: Version)
    requires RealClock(now) && ValidBase(last.base)
    requires NoWrap(channel, now, tags, last)
    ensures var next := NextCut(channel, now, tags, last);
            Less(last, next) <==>
              || Before(last.base, next.base)
              || (last.Cut? && (last.channel == channel || last.channel == Alpha))
    ensures !Before(NextCut(channel, now, tags, last).base, last.base)
  {
    hide RealClock, NextBase, MaxTagN, MaxNFromPackageJson, Show, Print, Today, DaysIn;
    var start := StartBase(now, last.base);
    TodayIsValid(now);
    NextBaseIsLater(start);
    StartBaseIsLatest(now, last.base);
    PrintedStampParses(last, channel);
    CutOrderAcross(last, channel, start, NextBase(start), Stamp(now), Taken(channel, now, tags, last));
  }

  lemma CutOrderAcross(last: Version, channel: Channel, start: Base, rolled: Base, stamp: nat, taken: int)
    requires start == last.base || Before(last.base, start)
    requires start == last.base && last.Cut? && last.channel == channel ==> taken >= last.stamp
    requires stamp > taken || Before(start, rolled)
    ensures var base := if stamp > taken then start else rolled;
            && !Before(base, last.base)
            && (Less(last, Cut(base, channel, stamp)) <==>
                Before(last.base, base) || (last.Cut? && (last.channel == channel || last.channel == Alpha)))
  {
  }

  // ----- a whole history of cuts on one channel

  datatype Moment = Moment(now: Clock, tags: seq<string>)

  /** One run of the script under any clock and tags: `last` is in package.json, `next` replaces it. */
  ghost predicate Cuts(channel: Channel, moment: Moment, last: Version, next: Version) {
    RealClock(moment.now) && ValidBase(last.base) && next == NextCut(channel, moment.now, moment.tags, last)
  }

  /** The versions written by successive runs on one channel. */
  ghost predicate IsHistory(channel: Channel, moments: seq<Moment>, versions: seq<Version>) {
    && |versions| == |moments| + 1
    && versions[0].Cut? && versions[0].channel == channel
    && forall k {:trigger moments[k]} :: 0 <= k < |moments| ==> Cuts(channel, moments[k], versions[k], versions[k + 1])
  }

  /** A step of a history is what the script computes from the printed version, and the
      requirement on the base it starts from is met by the base it writes. */
  lemma {:induction false} HistoryStepIsComputed(channel: Channel, moment: Moment, last: Version, next: Version)
    requires Cuts(channel, moment, last, next)
    ensures ComputeVersion(false, channel, moment.now, moment.tags, Print(last)) == Ok(Print(next))
    ensures ValidBase(next.base)
    ensures next.Cut? && next.channel == channel && next.stamp / 100 < 24 && next.stamp % 100 < 60
  {
    hide ComputeVersion, Taken, NextBase;
    CutSucceeds(channel, moment.now, moment.tags, last);
    CutIsReal(channel, moment.now, moment.tags, last);
  }

  /** None of the cuts has to roll over the end of the century. */
  ghost predicate NeverWraps(channel: Channel, moments: seq<Moment>, versions: seq<Version>) {
    |versions| == |moments| + 1 &&
    forall k {:trigger moments[k]} :: 0 <= k < |moments| ==>
      NoWrap(channel, moments[k].now, moments[k].tags, versions[k])
  }

  lemma {:induction false} CutGrows(channel: Channel, moment: Moment, last: Version, next: Version)
    requires Cuts(channel, moment, last, next) && NoWrap(channel, moment.now, moment.tags, last)
    requires last.Cut? && last.channel == channel
    ensures Less(last, next)
  {
    CutIsLaterOnItsChannel(channel, moment.now, moment.tags, last);
  }

  lemma HistoryStepGrows(channel: Channel, moments: seq<Moment>, versions: seq<Version>, n: nat)
    requires IsHistory(channel, moments, versions) && NeverWraps(channel, moments, versions)
    requires n < |moments|
    ensures Less(versions[n], versions[n + 1])
  {
    assert n > 0 ==> Cuts(channel, moments[n - 1], versions[n - 1], versions[n]);
    CutGrows(channel, moments[n], versions[n], versions[n + 1]);
  }

  lemma LessTrans(u: Version, v: Version, w: Version)
    requires Less(u, v) && Less(v, w)
    ensures Less(u, w)
  {
  }

  predicate LessThanNext(versions: seq<Version>, k: nat)
    requires k < |versions| - 1
  {
    Less(versions[k], versions[k + 1])
  }

  lemma {:induction false} StepwiseGrowth(versions: seq<Version>, i: nat, j: nat)
    requires forall k :: 0 <= k < |versions| - 1 ==> LessThanNext(versions, k)
    requires i < j < |versions|
    ensures Less(versions[i], versions[j])
    decreases j
  {
    assert LessThanNext(versions, j - 1);
    if i < j - 1 {
      StepwiseGrowth(versions, i, j - 1);
      LessTrans(versions[i], versions[j - 1], versions[j]);
    }
  }

  /** Under any clock, even one running backwards, the versions of one channel only grow, as
      long as no cut rolls over the end of the century. */
  lemma HistoryGrows(channel: Channel, moments: seq<Moment>, versions: seq<Version>, i: nat, j: nat)
    requires IsHistory(channel, moments, versions) && NeverWraps(channel, moments, versions)
    requires i < j <= |moments|
    ensures Less(versions[i], versions[j])
  {
    forall k | 0 <= k < |versions| - 1
      ensures LessThanNext(versions, k)
    {
      HistoryStepGrows(channel, moments, versions, k);
    }
    StepwiseGrowth(versions, i, j);
  }

  // ----- any package version at all

  /** The base that is read from a package version, if there is one. */
  function PackageBase(version: string): Option<Base> {
    if ExtractBase(version).Some? then
      ExtractBaseSound(version);
      Some(BaseOf(ExtractBase(version).value))
    else None
  }

  predicate HasGhostDate(version: string) {
    PackageBase(version).Some? && !ValidBase(PackageBase(version).value)
  }

  /** The later of today's base and the package's. */
  function StartOf(now: Clock, version: string): Base {
    if PackageBase(version).Some? then StartBase(now, PackageBase(version).value) else Today(now)
  }

  lemma NextOfStart(text: string, start: Base)
    requires Numeric(text) && |Parts(text)| == 3 && BaseOf(text) == start && ValidBase(start)
    ensures NextCalendarBase(text) == Ok(Show(NextBase(start)))
  {
  }

  lemma {:induction false} EffectiveBaseIsLatest(now: Clock, version: string)
    requires RealClock(now)
    ensures Numeric(DateBase(now)) && |Parts(DateBase(now))| == 3
    ensures EffectiveBase(DateBase(now), version).Err? <==> HasGhostDate(version)
    ensures !HasGhostDate(version) ==>
              var base := EffectiveBase(DateBase(now), version).value;
              && Numeric(base) && |Parts(base)| == 3
              && BaseOf(base) == StartOf(now, version) && ValidBase(StartOf(now, version))
  {
    hide ExtractBase, Show, Today, RealClock;
    ShowParses(Today(now));
    TodayIsValid(now);
    if ExtractBase(version).Some? {
      ExtractBaseSound(version);
      CompareIsOrder(PackageBase(version).value, Today(now));
    }
  }

  /** The largest number already taken for the base that a cut starts from. */
  function TakenFor(channel: Channel, now: Clock, tags: seq<string>, version: string): int {
    ShowParses(Today(now));
    match EffectiveBase(DateBase(now), version)
    case Err(_) => -1
    case Ok(base) => Max(MaxTagN(base, channel, tags), MaxNFromPackageJson(base, channel, version))
  }

  /** Whatever stands in package.json: a cut fails exactly when it carries a ghost date. Otherwise the
      base it is written with is real for the guard, and is before neither today's nor the package's,
      unless the cut has to roll over the end of the century. */
  lemma {:induction false} NoVersionIsUndercut(channel: Channel, now: Clock, tags: seq<string>, version: string)
    returns (base: string)
    requires RealDate(now.year, now.month, now.day) && now.hour < 24 && now.minute < 60
    ensures ComputeVersion(false, channel, now, tags, version).Err? <==> HasGhostDate(version)
    ensures !HasGhostDate(version) ==>
              && Numeric(base) && |Parts(base)| == 3 && ValidBase(BaseOf(base))
              && ComputeVersion(false, channel, now, tags, version) == Ok(CutPrefix(base, channel) + Dec(Stamp(now)))
              && (!Before(BaseOf(base), StartOf(now, version))
                  <==> Stamp(now) > TakenFor(channel, now, tags, version) || Before(StartOf(now, version), LAST))
    ensures !HasGhostDate(version) && !Before(BaseOf(base), StartOf(now, version)) ==>
              && !Before(BaseOf(base), Base(now.year % 100, now.month, now.day))
              && (PackageBase(version).Some? ==> !Before(BaseOf(base), PackageBase(version).value))
  {
    hide RealClock, MaxTagN, MaxNFromPackageJson, Show, NextBase, EffectiveBase, Dec, Split, ValidBase,
         HasGhostDate, PackageBase, CutPrefix;
    base := "";
    assert RealClock(now) by { ClockIs(now); }
    EffectiveBaseIsLatest(now, version);
    ValOfDec(Stamp(now));
    if !HasGhostDate(version) {
      var text, start := EffectiveBase(DateBase(now), version).value, StartOf(now, version);
      ShowParses(NextBase(start));
      NextOfStart(text, start);
      NextBaseIsLater(start);
      base := if Stamp(now) > TakenFor(channel, now, tags, version) then text else Show(NextBase(start));
    }
  }

  // ----- the version on a given day and time

  function DateText(now: Clock): string {
    Dec(now.year % 100) + "." + Dec(now.month) + "." + Dec(now.day)
  }

  function ChannelText(channel: Channel): string {
    if channel.Alpha? then "-alpha." else "-beta."
  }

  /** A number at least as large as the time of day is in use on this day and channel, by a tag or in
      package.json. */
  ghost predicate TimeIsTaken(channel: Channel, now: Clock, tags: seq<string>, version: string) {
    exists number ::
      && IsNumeral(number) && Val(number) >= now.hour * 100 + now.minute
      && (|| "v" + DateText(now) + ChannelText(channel) + number in tags
          || version == DateText(now) + ChannelText(channel) + number
          || version == "v" + DateText(now) + ChannelText(channel) + number)
  }

  /** The package carries no base, or a real one that is not after the date. */
  predicate NotAfterDate(now: Clock, version: string) {
    match PackageBase(version)
    case None => true
    case Some(b) =>
      && 1 <= b.m <= 12 && 1 <= b.d <= TableDays(b.m)
      && (|| b.yy < now.year % 100
          || (b.yy == now.year % 100 && (b.m < now.month || (b.m == now.month && b.d <= now.day))))
  }

  /** A stable cut is the date, whatever tags and package.json say. */
  lemma {:induction false} StableIsTheDate(now: Clock, channel: Channel, tags: seq<string>, version: string)
    ensures ComputeVersion(true, channel, now, tags, version) == Ok(DateText(now))
  {
    hide Dec;
  }

  /** The number after a prefix is the one that is written there. */
  lemma {:induction false} NumberAfterIsText(prefix: string, text: string)
    ensures NumberAfter(prefix, text) >= 0 ==>
              exists number :: IsNumeral(number) && text == prefix + number && Val(number) == NumberAfter(prefix, text)
    ensures forall number :: IsNumeral(number) && text == prefix + number ==> NumberAfter(prefix, text) == Val(number)
  {
    hide Val, IsNumeral;
    if prefix <= text {
      assert text == prefix + text[|prefix|..];
    }
    forall number | text == prefix + number
      ensures text[|prefix|..] == number
    {
    }
  }

  lemma {:induction false} CutPrefixIs(base: string, channel: Channel)
    ensures CutPrefix(base, channel) == base + ChannelText(channel)
  {
  }

  lemma {:induction false} PrefixIsText(channel: Channel, now: Clock)
    ensures CutPrefix(DateText(now), channel) == DateText(now) + ChannelText(channel)
    ensures "v" + CutPrefix(DateText(now), channel) == "v" + DateText(now) + ChannelText(channel)
    ensures IsDigit(CutPrefix(DateText(now), channel)[0])
  {
    assert IsDigit(DateText(now)[0]);
    hide DateText;
  }

  /** A text that begins with a digit is what a version says with or without its "v". */
  lemma StrippedIs(version: string, text: string)
    requires text != "" && IsDigit(text[0])
    ensures StripV(version) == text <==> version == text || version == "v" + text
  {
    assert ("v" + text)[1..] == text;
  }

  lemma {:induction false} MaxTagIsATag(base: string, channel: Channel, tags: seq<string>)
    ensures forall tag :: tag in tags ==> TagN(base, channel, tag) <= MaxTagN(base, channel, tags)
    ensures MaxTagN(base, channel, tags) >= 0 ==>
              exists tag :: tag in tags && TagN(base, channel, tag) == MaxTagN(base, channel, tags)
  {
    hide TagN;
    if tags != [] {
      var init, last := tags[..|tags| - 1], tags[|tags| - 1];
      MaxTagIsATag(base, channel, init);
      assert tags == init + [last];
    }
  }

  lemma {:induction false} TagsTakeTheTime(channel: Channel, now: Clock, tags: seq<string>, stamp: nat)
    ensures stamp <= MaxTagN(DateText(now), channel, tags) <==>
            exists number :: IsNumeral(number) && Val(number) >= stamp
                             && "v" + DateText(now) + ChannelText(channel) + number in tags
  {
    hide DateText, ChannelText, Val, NumberAfter, MaxTagN, CutPrefix;
    var date, prefix := DateText(now), "v" + DateText(now) + ChannelText(channel);
    PrefixIsText(channel, now);
    MaxTagIsATag(date, channel, tags);
    forall tag { NumberAfterIsText(prefix, tag); }
    if stamp <= MaxTagN(date, channel, tags) {
      var tag :| tag in tags && TagN(date, channel, tag) == MaxTagN(date, channel, tags);
      var number :| IsNumeral(number) && tag == prefix + number && Val(number) == NumberAfter(prefix, tag);
    }
    forall number | IsNumeral(number) && Val(number) >= stamp && prefix + number in tags
      ensures stamp <= MaxTagN(date, channel, tags)
    {
      assert TagN(date, channel, prefix + number) == Val(number);
    }
  }

  lemma {:induction false} PackageTakesTheTime(channel: Channel, now: Clock, version: string, stamp: nat)
    ensures stamp <= MaxNFromPackageJson(DateText(now), channel, version) <==>
            exists number :: IsNumeral(number) && Val(number) >= stamp
              && (|| version == DateText(now) + ChannelText(channel) + number
                  || version == "v" + DateText(now) + ChannelText(channel) + number)
  {
    var prefix := DateText(now) + ChannelText(channel);
    PrefixIsText(channel, now);
    assert IsDigit(prefix[0]) && prefix != "";
    hide DateText, ChannelText, Val, NumberAfter, IsNumeral, CutPrefix, StripV, IsDigit;
    NumberAfterIsText(prefix, StripV(version));
    forall number
      ensures StripV(version) == prefix + number
              <==> version == prefix + number || version == "v" + DateText(now) + ChannelText(channel) + number
    {
      assert (prefix + number)[0] == prefix[0];
      StrippedIs(version, prefix + number);
      assert "v" + (prefix + number) == "v" + DateText(now) + ChannelText(channel) + number;
    }
    if stamp <= MaxNFromPackageJson(DateText(now), channel, version) {
      var number :| IsNumeral(number) && StripV(version) == prefix + number
                    && Val(number) == NumberAfter(prefix, StripV(version));
    }
  }

  /** The time of day is taken exactly when it is not above the largest number found. */
  lemma {:induction false} TakenByText(channel: Channel, now: Clock, tags: seq<string>, version: string)
    ensures TimeIsTaken(channel, now, tags, version) <==>
            now.hour * 100 + now.minute
            <= Max(MaxTagN(DateText(now), channel, tags), MaxNFromPackageJson(DateText(now), channel, version))
  {
    hide DateText, ChannelText, Val, MaxTagN, MaxNFromPackageJson, IsNumeral;
    TagsTakeTheTime(channel, now, tags, now.hour * 100 + now.minute);
    PackageTakesTheTime(channel, now, version, now.hour * 100 + now.minute);
  }

  /** On a given day and time, a package that is not ahead of the date gives the version of that day
      and time, unless the time is taken; then it gives the day after, at that time. */
  lemma {:induction false} CutIsOnTheDate(channel: Channel, now: Clock, tags: seq<string>, version: string)
    requires RealDate(now.year, now.month, now.day) && now.hour < 24 && now.minute < 60
    requires var b := PackageBase(version);
             b == None || (&& 1 <= b.value.m <= 12 && 1 <= b.value.d <= TableDays(b.value.m)
                           && !Before(Base(now.year % 100, now.month, now.day), b.value))
    ensures ComputeVersion(false, channel, now, tags, version) ==
            Ok((if TimeIsTaken(channel, now, tags, version)
                then Show(NextBase(Base(now.year % 100, now.month, now.day))) else DateText(now))
               + ChannelText(channel) + Dec(now.hour * 100 + now.minute))
  {
    hide RealClock, ComputeVersion, NextBase, Dec, TimeIsTaken, DateText, ChannelText, CutPrefix, Show, ValidBase;
    assert RealClock(now) by { ClockIs(now); }
    EffectiveBaseIsDate(now, version);
    CutFromTheDate(channel, now, tags, version);
    PrefixIsText(channel, now);
    CutPrefixIs(Show(NextBase(Base(now.year % 100, now.month, now.day))), channel);
  }

  lemma {:induction false} CutFromTheDate(channel: Channel, now: Clock, tags: seq<string>, version: string)
    requires RealClock(now) && NotAfterDate(now, version)
    ensures ValidBase(Base(now.year % 100, now.month, now.day))
    ensures ComputeVersion(false, channel, now, tags, version) ==
            Ok(CutPrefix(if TimeIsTaken(channel, now, tags, version)
                         then Show(NextBase(Base(now.year % 100, now.month, now.day))) else DateText(now), channel)
               + Dec(now.hour * 100 + now.minute))
  {
    hide RealClock, MaxTagN, MaxNFromPackageJson, NextBase, Dec, Split, TimeIsTaken, EffectiveBase, CutPrefix, DateText,
         Show;
    EffectiveBaseIsDate(now, version);
    TakenByText(channel, now, tags, version);
    ValOfDec(now.hour * 100 + now.minute);
    NextOfStart(DateText(now), Base(now.year % 100, now.month, now.day));
  }

  lemma {:induction false} EffectiveBaseIsDate(now: Clock, version: string)
    requires RealClock(now) && NotAfterDate(now, version)
    ensures DateBase(now) == DateText(now) && Numeric(DateText(now)) && |Parts(DateText(now))| == 3
    ensures BaseOf(DateText(now)) == Base(now.year % 100, now.month, now.day)
    ensures ValidBase(BaseOf(DateText(now)))
    ensures EffectiveBase(DateBase(now), version) == Ok(DateText(now))
  {
    hide ExtractBase, RealClock, Dec, Split;
    ShowParses(Today(now));
    TodayIsValid(now);
    if ExtractBase(version).Some? {
      ExtractBaseSound(version);
      CompareIsOrder(PackageBase(version).value, Today(now));
    }
  }

  // ----- where the increase stops: versions that are not printed canonically

  /** A package version whose base is spelled in any way, leading zeros included. */
  datatype Spelled = Spelled(x: string, y: string, z: string, channel: Channel, number: string)
  {
    predicate Valid() {
      IsNumeral(x) && IsNumeral(y) && IsNumeral(z) && IsNumeral(number)
    }

    function Spelling(): string {
      Triple(x, y, z)
    }

    function Text(): string {
      CutPrefix(Spelling(), channel) + number
    }

    /** The version it stands for. */
    function Meaning(): Version
      requires Valid()
    {
      Cut(Base(Val(x), Val(y), Val(z)), channel, Val(number))
    }
  }

  lemma {:induction false} SpelledParses(p: Spelled)
    requires p.Valid()
    ensures StripV(p.Text()) == p.Text() && ExtractBase(p.Text()) == Some(p.Spelling())
    ensures Numeric(p.Spelling()) && |Parts(p.Spelling())| == 3 && BaseOf(p.Spelling()) == p.Meaning().base
  {
    CutSuffixIsSuffix(p.Spelling(), p.channel, p.number);
    ExtractBaseOfTriple(p.x, p.y, p.z, CutSuffix(p.channel, p.number));
    assert p.Text()[0] == p.x[0] && IsDigit(p.x[0]);
    PartsOfTriple(p.x, p.y, p.z);
  }

  /** The number is found under the spelling of the version itself and under no other one, not even
      the canonical spelling of the same base. */
  lemma {:induction false} NumberIsFoundByItsSpelling(p: Spelled, q: Spelled)
    requires p.Valid() && q.Valid()
    ensures MaxNFromPackageJson(q.Spelling(), p.channel, p.Text())
            == if q.Spelling() == p.Spelling() then Val(p.number) else -1
  {
    hide Val, StripV, ExtractBase, Triple;
    SpelledParses(p);
    var prefix := CutPrefix(q.Spelling(), p.channel);
    if q.Spelling() == p.Spelling() {
      assert p.Text()[|prefix|..] == p.number;
    } else if prefix <= p.Text() && IsNumeral(p.Text()[|prefix|..]) {
      var other := q.(channel := p.channel, number := p.Text()[|prefix|..]);
      assert other.Text() == p.Text();
      SpelledParses(other);
    }
  }

  function Canonical(b: Base, c: Channel, number: string): Spelled {
    Spelled(Dec(b.yy), Dec(b.m), Dec(b.d), c, number)
  }

  lemma CanonicalIsShown(b: Base, c: Channel, number: string)
    requires IsNumeral(number)
    ensures Canonical(b, c, number).Valid() && Canonical(b, c, number).Spelling() == Show(b)
  {
  }

  /** The text of the base a cut starts from: the package's own spelling when it is later. */
  function StartText(now: Clock, p: Spelled): string
    requires p.Valid()
  {
    if Before(Today(now), p.Meaning().base) then p.Spelling() else DateBase(now)
  }

  lemma {:induction false} EffectiveBaseIsStart(now: Clock, p: Spelled)
    requires p.Valid() && ValidBase(p.Meaning().base)
    ensures Numeric(DateBase(now)) && |Parts(DateBase(now))| == 3
    ensures EffectiveBase(DateBase(now), p.Text()) == Ok(StartText(now, p))
    ensures Numeric(StartText(now, p)) && |Parts(StartText(now, p))| == 3
    ensures BaseOf(StartText(now, p)) == StartBase(now, p.Meaning().base)
  {
    hide ExtractBase, Val, Show, Triple, Today;
    SpelledParses(p);
    ShowParses(Today(now));
    CompareIsOrder(p.Meaning().base, Today(now));
  }

  /** The largest number already taken for the base a cut starts from. */
  function SpelledTaken(now: Clock, tags: seq<string>, p: Spelled): int
    requires p.Valid()
  {
    Max(MaxTagN(StartText(now, p), p.channel, tags), MaxNFromPackageJson(StartText(now, p), p.channel, p.Text()))
  }

  /** The version's own number counts as taken unless its base is today's in another spelling. */
  lemma {:induction false} OwnNumberIsTaken(now: Clock, p: Spelled)
    requires p.Valid()
    ensures MaxNFromPackageJson(StartText(now, p), p.channel, p.Text())
            == if StartText(now, p) == p.Spelling() then Val(p.number) else -1
  {
    hide Val, MaxNFromPackageJson, Triple, Show;
    var today := Canonical(Today(now), p.channel, p.number);
    CanonicalIsShown(Today(now), p.channel, p.number);
    NumberIsFoundByItsSpelling(p, p);
    NumberIsFoundByItsSpelling(p, today);
  }

  /** The base that a cut from a spelled version is written with, as text. */
  function SpelledResult(now: Clock, tags: seq<string>, p: Spelled): string
    requires p.Valid() && ValidBase(StartBase(now, p.Meaning().base))
  {
    if Stamp(now) > SpelledTaken(now, tags, p) then StartText(now, p)
    else Show(NextBase(StartBase(now, p.Meaning().base)))
  }

  lemma StartBaseIsValid(now: Clock, last: Base)
    requires RealClock(now) && ValidBase(last)
    ensures ValidBase(StartBase(now, last))
  {
    TodayIsValid(now);
  }

  lemma {:induction false} SpelledCutIsComputed(now: Clock, tags: seq<string>, p: Spelled)
    requires RealClock(now) && p.Valid() && ValidBase(p.Meaning().base)
    ensures ValidBase(StartBase(now, p.Meaning().base))
    ensures var s := SpelledResult(now, tags, p);
            && Numeric(s) && |Parts(s)| == 3
            && BaseOf(s) == (if Stamp(now) > SpelledTaken(now, tags, p) then StartBase(now, p.Meaning().base)
                             else NextBase(StartBase(now, p.Meaning().base)))
            && ComputeVersion(false, p.channel, now, tags, p.Text()) == Ok(CutPrefix(s, p.channel) + Dec(Stamp(now)))
  {
    hide RealClock, MaxTagN, MaxNFromPackageJson, Show, Today, NextBase, EffectiveBase, Dec, Split, Before, ValidBase,
         Val, StartText, CutPrefix;
    var start := StartBase(now, p.Meaning().base);
    StartBaseIsValid(now, p.Meaning().base);
    EffectiveBaseIsStart(now, p);
    ValOfDec(Stamp(now));
    ShowParses(NextBase(start));
    NextOfStart(StartText(now, p), start);
  }

  /** From any spelling of a valid base, under any clock and tags, a cut is computed. Unless it has
      to roll over the end of the century it is later, except exactly when the base is today's in
      a spelling that is not canonical and the stamp, though larger than any tag's, is not larger
      than the number in package.json. */
  lemma {:induction false} SpelledCutIsLater(now: Clock, tags: seq<string>, p: Spelled)
    requires RealClock(now) && p.Valid() && ValidBase(p.Meaning().base)
    ensures ValidBase(StartBase(now, p.Meaning().base))
    ensures var s := SpelledResult(now, tags, p);
            && Numeric(s) && |Parts(s)| == 3
            && ComputeVersion(false, p.channel, now, tags, p.Text()) == Ok(CutPrefix(s, p.channel) + Dec(Stamp(now)))
    ensures Stamp(now) > SpelledTaken(now, tags, p) || Before(StartBase(now, p.Meaning().base), LAST) ==>
              (Less(p.Meaning(), Cut(BaseOf(SpelledResult(now, tags, p)), p.channel, Stamp(now))) <==>
               !(&& p.Meaning().base == Today(now) && p.Spelling() != DateBase(now)
                 && MaxTagN(DateBase(now), p.channel, tags) < Stamp(now) <= p.Meaning().stamp))
  {
    hide RealClock, ComputeVersion, NextBase, MaxTagN, MaxNFromPackageJson, Show, Today, Val, CutPrefix, Dec, Split,
         Triple, DateBase, ValidBase;
    SpelledCutIsComputed(now, tags, p);
    OwnNumberIsTaken(now, p);
    NextBaseIsLater(StartBase(now, p.Meaning().base));
    StartBaseIsLatest(now, p.Meaning().base);
    SameTextSameBase(now, p);
  }

  lemma {:induction false} SameTextSameBase(now: Clock, p: Spelled)
    requires p.Valid()
    ensures p.Spelling() == DateBase(now) ==> p.Meaning().base == Today(now)
  {
    hide Val, Show, Triple;
    SpelledParses(p);
    ShowParses(Today(now));
  }

  /** So with 26.04.18-alpha.929 in package.json, an untagged cut on that day can have any smaller
      stamp, and then it is not later. */
  lemma {:induction false} OtherSpellingCanGoBackwards(now: Clock, p: Spelled)
    requires RealClock(now) && p.Valid()
    requires p.Meaning().base == Today(now) && p.Spelling() != DateBase(now)
    ensures ComputeVersion(false, p.channel, now, [], p.Text()) == Ok(Print(Cut(Today(now), p.channel, Stamp(now))))
    ensures Less(p.Meaning(), Cut(Today(now), p.channel, Stamp(now))) <==> Stamp(now) > p.Meaning().stamp
  {
    hide RealClock, ComputeVersion, MaxNFromPackageJson, Show, Today, Val, Triple, NextBase;
    TodayIsValid(now);
    SpelledCutIsComputed(now, [], p);
    OwnNumberIsTaken(now, p);
    assert StartText(now, p) == DateBase(now);
  }
}
