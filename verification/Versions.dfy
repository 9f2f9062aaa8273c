/** Hybrid-logical-clock versions: their total order and their text form
    (backend/internal/model/version.go). */
module Versions {
  import opened Ordering

  const MAX_INT64: int := 0x7FFF_FFFF_FFFF_FFFF
  const MAX_UINT64: int := 0xFFFF_FFFF_FFFF_FFFF

  type Int64 = x: int | -0x8000_0000_0000_0000 <= x <= MAX_INT64
  type UInt64 = x: int | 0 <= x <= MAX_UINT64

  datatype Version = Version(physical: Int64, logical: UInt64, origin: string)

  const ZERO_VERSION := Version(0, 0, "")

  /** What a Go int64 holds after arithmetic that may overflow. */
  function WrapInt64(x: int): (r: Int64)
    ensures -0x8000_0000_0000_0000 <= x <= MAX_INT64 ==> r == x
  {
    (x + 0x8000_0000_0000_0000) % 0x1_0000_0000_0000_0000 - 0x8000_0000_0000_0000
  }

  /** time.Time.Sub saturates at the ends of int64. */
  function Saturate(x: int): Int64 {
    if x > MAX_INT64 then MAX_INT64 else if x < -0x8000_0000_0000_0000 then -0x8000_0000_0000_0000 else x
  }

  /** What a Go uint64 holds after arithmetic that may overflow. */
  function WrapUInt64(x: int): (r: UInt64)
    ensures 0 <= x <= MAX_UINT64 ==> r == x
  {
    x % 0x1_0000_0000_0000_0000
  }

  const MAX_IDENTIFIER := 128
  const MAX_EVENT_ID := 192

  predicate IdentifierChar(c: char) {
    c > ' ' && c != '/' && c != '\\' && c as int != 127
  }

  predicate ValidIdentifier(s: string, max: nat) {
    s != "" && |s| <= max && forall c :: c in s ==> IdentifierChar(c)
  }

  predicate ValidVersion(v: Version) {
    v.physical > 0 && ValidIdentifier(v.origin, MAX_IDENTIFIER)
  }

  // ---- Order -------------------------------------------------------------

  function CompareVersion(a: Version, b: Version): (c: int)
    ensures -1 <= c <= 1
    ensures c == 0 <==> a == b
  {
    if a.physical < b.physical then -1
    else if a.physical > b.physical then 1
    else if a.logical < b.logical then -1
    else if a.logical > b.logical then 1
    else CompareStrings(a.origin, b.origin)
  }

  predicate Before(a: Version, b: Version) { CompareVersion(a, b) < 0 }

  predicate AtMost(a: Version, b: Version) { CompareVersion(a, b) <= 0 }

  lemma VersionsAntisymmetric(a: Version, b: Version)
    ensures CompareVersion(a, b) == -CompareVersion(b, a)
  {
    StringsAntisymmetric(a.origin, b.origin);
  }

  lemma VersionsTransitive(a: Version, b: Version, c: Version)
    requires AtMost(a, b) && AtMost(b, c)
    ensures AtMost(a, c)
    ensures Before(a, b) || Before(b, c) ==> Before(a, c)
  {
    VersionsAntisymmetric(a, b);
    VersionsAntisymmetric(b, c);
    if a.physical == b.physical == c.physical && a.logical == b.logical == c.logical {
      StringsTransitive(a.origin, b.origin, c.origin);
      if CompareStrings(a.origin, c.origin) == 0 {
        StringsAntisymmetric(a.origin, b.origin);
      }
    }
  }

  /** Earlier in milliseconds, else in the counter, else by node id in dictionary order. */
  ghost predicate Older(a: Version, b: Version) {
    || a.physical < b.physical
    || (a.physical == b.physical && a.logical < b.logical)
    || (a.physical == b.physical && a.logical == b.logical && Precedes(a.origin, b.origin))
  }

  /** What the comparison decides, in fields and characters. */
  lemma VersionOrder(a: Version, b: Version)
    ensures Before(a, b) <==> Older(a, b)
    ensures CompareVersion(a, b) > 0 <==> Older(b, a)
    ensures AtMost(a, b) <==> a == b || Older(a, b)
  {
    StringsInDictionaryOrder(a.origin, b.origin);
  }

  // ---- Text form ---------------------------------------------------------

  predicate Digit(c: char) { '0' <= c <= '9' }

  function DigitChar(d: nat): (c: char)
    requires d < 10
    ensures Digit(c)
  {
    '0' + d as char
  }

  /** strconv.FormatUint in base 10. */
  function FormatNat(n: nat): (s: string)
    ensures s != "" && forall c :: c in s ==> Digit(c)
  {
    if n < 10 then [DigitChar(n)] else FormatNat(n / 10) + [DigitChar(n % 10)]
  }

  function FormatInt(n: int): string {
    if n < 0 then "-" + FormatNat(-n) else FormatNat(n)
  }

  /** Base-10 digits only; no sign, no separators. */
  function ParseDigits(s: string): Option<nat> {
    if s == "" then None
    else if !Digit(s[|s| - 1]) then None
    else
      var d := s[|s| - 1] as int - '0' as int;
      if |s| == 1 then Some(d)
      else match ParseDigits(s[..|s| - 1])
        case None => None
        case Some(high) => Some(high * 10 + d)
  }

  /** strconv.ParseUint(s, 10, 64). */
  function ParseUInt64(s: string): Option<UInt64> {
    match ParseDigits(s)
    case None => None
    case Some(n) => if n <= MAX_UINT64 then Some(n) else None
  }

  /** strconv.ParseInt(s, 10, 64): one optional sign, then digits. */
  function ParseInt64(s: string): Option<Int64> {
    if s == "" then None
    else
      var signed := s[0] == '-' || s[0] == '+';
      match ParseDigits(if signed then s[1..] else s)
      case None => None
      case Some(n) =>
        var magnitude: int := n;
        var value := if s[0] == '-' then -magnitude else magnitude;
        if -0x8000_0000_0000_0000 <= value <= MAX_INT64 then Some(value) else None
  }

  function VersionString(v: Version): string {
    FormatInt(v.physical) + "-" + FormatNat(v.logical) + "-" + v.origin
  }

  /** Index of the first dash, or the length when there is none. */
  function FirstDash(s: string): (i: nat)
    ensures i <= |s|
    ensures i < |s| ==> s[i] == '-'
    ensures forall k :: 0 <= k < i ==> s[k] != '-'
  {
    if s == "" || s[0] == '-' then 0
    else
      var i := FirstDash(s[1..]);
      assert forall k :: 0 < k < i + 1 ==> s[k] == s[1..][k - 1];
      i + 1
  }

  function FromParts(p: string, l: string, origin: string): Option<Version> {
    match ParseInt64(p)
    case None => None
    case Some(physical) =>
      match ParseUInt64(l)
      case None => None
      case Some(logical) =>
        var v := Version(physical, logical, origin);
        if ValidVersion(v) then Some(v) else None
  }

  function ParseRest(p: string, rest: string): Option<Version> {
    var j := FirstDash(rest);
    if j == |rest| then None else FromParts(p, rest[..j], rest[j + 1..])
  }

  /** strings.SplitN(s, "-", 3) must give three parts: only the first two dashes
      are structural. */
  function ParseVersion(s: string): Option<Version> {
    var i := FirstDash(s);
    if i == |s| then None else ParseRest(s[..i], s[i + 1..])
  }

  lemma {:induction false} ParsesWhatItFormats(n: nat)
    ensures ParseDigits(FormatNat(n)) == Some(n)
  {
    if n >= 10 {
      ParsesWhatItFormats(n / 10);
      var s := FormatNat(n);
      assert s[..|s| - 1] == FormatNat(n / 10);
    }
  }

  lemma SplitsAtFirstDash(digits: string, rest: string)
    requires forall c :: c in digits ==> Digit(c)
    ensures FirstDash(digits + "-" + rest) == |digits|
    ensures (digits + "-" + rest)[..|digits|] == digits
    ensures (digits + "-" + rest)[|digits| + 1..] == rest
  {
    var s := digits + "-" + rest;
    forall k | 0 <= k < |digits|
      ensures s[k] != '-'
    {
      assert digits[k] in digits;
    }
    assert s[|digits|] == '-';
  }

  /** Printing then parsing gives the version back, whatever dashes its node id
      holds and however large its counters are. */
  lemma VersionRoundTrip(v: Version)
    requires ValidVersion(v)
    ensures ParseVersion(VersionString(v)) == Some(v)
  {
    var physical, logical := FormatNat(v.physical), FormatNat(v.logical);
    var rest := logical + "-" + v.origin;
    assert VersionString(v) == physical + "-" + rest;
    SplitsAtFirstDash(physical, rest);
    SplitsAtFirstDash(logical, v.origin);
    ParsesWhatItFormats(v.physical);
    ParsesWhatItFormats(v.logical);
    assert physical[0] in physical;
  }

  /** So two valid versions with the same text are the same version. */
  lemma VersionStringInjective(a: Version, b: Version)
    requires ValidVersion(a) && ValidVersion(b)
    requires VersionString(a) == VersionString(b)
    ensures a == b
  {
    VersionRoundTrip(a);
    VersionRoundTrip(b);
  }

  /** Physical time, counter and node id, in that order, in base ten. */
  lemma VersionTextExample()
    ensures VersionString(Version(120, 4, "node-a")) == "120-4-node-a"
    ensures ParseVersion("120-4-node-a") == Some(Version(120, 4, "node-a"))
  {
    assert FormatNat(12) == "1" + "2" && FormatNat(120) == "12" + "0";
    assert VersionString(Version(120, 4, "node-a")) == "120-4-node-a";
    VersionRoundTrip(Version(120, 4, "node-a"));
  }

  lemma {:induction false} DigitsParse(s: string)
    ensures ParseDigits(s).Some? <==> s != "" && forall c :: c in s ==> Digit(c)
  {
    if s != "" {
      var init, last := s[..|s| - 1], s[|s| - 1];
      assert s == init + [last];
      DigitsParse(init);
    }
  }

  predicate NoDash(s: string) { forall i :: 0 <= i < |s| ==> s[i] != '-' }

  /** A text is read as a version exactly when it is two numbers and a valid node id joined
      by dashes, in that order, and the version they make is valid. */
  ghost predicate Reads(s: string, p: string, l: string, v: Version) {
    && NoDash(p) && NoDash(l) && s == p + "-" + l + "-" + v.origin
    && ParseInt64(p) == Some(v.physical) && ParseUInt64(l) == Some(v.logical)
  }

  lemma SplitsAtTheDash(p: string, rest: string)
    requires NoDash(p)
    ensures FirstDash(p + "-" + rest) == |p|
    ensures (p + "-" + rest)[..|p|] == p && (p + "-" + rest)[|p| + 1..] == rest
  {
    var s := p + "-" + rest;
    assert s[|p|] == '-' && forall k :: 0 <= k < |p| ==> s[k] == p[k];
  }

  lemma PartsDecide(p: string, l: string, origin: string, v: Version)
    ensures FromParts(p, l, origin) == Some(v)
      <==> ValidVersion(v) && v.origin == origin
           && ParseInt64(p) == Some(v.physical) && ParseUInt64(l) == Some(v.logical)
  {}

  lemma Associates(p: string, l: string, origin: string)
    ensures p + "-" + (l + "-" + origin) == p + "-" + l + "-" + origin
  {}

  lemma CutAtFirst(s: string, i: nat)
    requires i == FirstDash(s) < |s|
    ensures ParseVersion(s) == ParseRest(s[..i], s[i + 1..])
  {}

  lemma CutAtSecond(p: string, rest: string, j: nat)
    requires j == FirstDash(rest) < |rest|
    ensures ParseRest(p, rest) == FromParts(p, rest[..j], rest[j + 1..])
  {}

  lemma ReadTextParses(s: string, p: string, l: string, v: Version)
    requires Reads(s, p, l, v) && ValidVersion(v)
    ensures ParseVersion(s) == Some(v)
  {
    var rest := l + "-" + v.origin;
    Associates(p, l, v.origin);
    SplitsAtTheDash(p, rest);
    SplitsAtTheDash(l, v.origin);
    CutAtFirst(s, |p|);
    CutAtSecond(p, rest, |l|);
    PartsDecide(p, l, v.origin, v);
  }

  lemma JoinsAtTheDash(s: string, i: nat)
    requires i < |s| && s[i] == '-'
    ensures s == s[..i] + "-" + s[i + 1..]
  {}

  lemma RestIsRead(p: string, rest: string, v: Version) returns (l: string)
    requires ParseRest(p, rest) == Some(v)
    ensures ValidVersion(v) && NoDash(l) && rest == l + "-" + v.origin
    ensures ParseInt64(p) == Some(v.physical) && ParseUInt64(l) == Some(v.logical)
  {
    var j := FirstDash(rest);
    l := rest[..j];
    CutAtSecond(p, rest, j);
    PartsDecide(p, l, rest[j + 1..], v);
    JoinsAtTheDash(rest, j);
  }

  lemma ParsedTextIsRead(s: string, v: Version) returns (p: string, l: string)
    requires ParseVersion(s) == Some(v)
    ensures ValidVersion(v) && Reads(s, p, l, v)
  {
    var i := FirstDash(s);
    p := s[..i];
    CutAtFirst(s, i);
    l := RestIsRead(p, s[i + 1..], v);
    JoinsAtTheDash(s, i);
    Associates(p, l, v.origin);
  }

  lemma ParsesExactly(s: string, v: Version)
    ensures ParseVersion(s) == Some(v) <==> ValidVersion(v) && exists p, l :: Reads(s, p, l, v)
  {
    if ParseVersion(s) == Some(v) {
      var p, l := ParsedTextIsRead(s, v);
      assert Reads(s, p, l, v);
    }
    if ValidVersion(v) && exists p, l :: Reads(s, p, l, v) {
      var p, l :| Reads(s, p, l, v);
      ReadTextParses(s, p, l, v);
    }
  }
}
