// Identifiers that become chunks of a key: device ids, command ids, port numbers and org slugs.
module Ids {
  import opened Wrappers
  import opened Chunks

  predicate LowerHex(c: char) { '0' <= c <= '9' || 'a' <= c <= 'f' }

  function LowerChar(c: char): char { if 'A' <= c <= 'Z' then c + ' ' else c }

  function Lower(s: string): (r: string)
    ensures |r| == |s| && forall i :: 0 <= i < |s| ==> r[i] == LowerChar(s[i])
  {
    seq(|s|, i requires 0 <= i < |s| => LowerChar(s[i]))
  }

  predicate AllHex(s: string) { forall i :: 0 <= i < |s| ==> LowerHex(s[i]) }

  lemma LowerTwice(s: string)
    ensures Lower(Lower(s)) == Lower(s)
  {
  }

  lemma LowerOfHex(s: string)
    requires AllHex(s)
    ensures Lower(s) == s
  {
  }

  /** `d` is the lower-case spelling of the hexadecimal digit `c`. */
  predicate SameHexDigit(c: char, d: char) {
    if 'A' <= c <= 'F' then d as int == c as int - 'A' as int + 'a' as int else d == c
  }

  // ---- device ids ----

  predicate ValidZid(z: string) { 2 <= |z| <= 32 && AllHex(z) }

  /** Accepts exactly 2 to 32 hexadecimal digits of either case, and returns them with `A` to `F` in lower case. */
  function NewZid(raw: string): (r: Option<string>)
    ensures r.Some? <==>
      2 <= |raw| <= 32 &&
      forall i :: 0 <= i < |raw| ==> '0' <= raw[i] <= '9' || 'a' <= raw[i] <= 'f' || 'A' <= raw[i] <= 'F'
    ensures r.Some? ==> |r.value| == |raw| && forall i :: 0 <= i < |raw| ==> SameHexDigit(raw[i], r.value[i])
    ensures r.Some? <==> ValidZid(Lower(raw))
    ensures r.Some? ==> r.value == Lower(raw)
  {
    var s := Lower(raw);
    if |s| < 2 || |s| > 32 then None
    else if !AllHex(s) then None
    else Some(s)
  }

  /** A device id reads back as itself, and only the lower-case spelling is its own printed form. */
  lemma ZidRoundTrip(raw: string)
    ensures ValidZid(raw) <==> NewZid(raw) == Some(raw)
    ensures NewZid(raw).Some? ==> NewZid(NewZid(raw).value) == NewZid(raw)
  {
    LowerTwice(raw);
    if ValidZid(raw) { LowerOfHex(raw); }
  }

  // ---- command ids ----

  /** A UUID as its 32 lower-case hexadecimal digits. */
  predicate ValidUuid(u: string) { |u| == 32 && AllHex(u) }

  function ShowUuid(u: string): (s: string)
    requires ValidUuid(u)
    ensures |s| == 36
  {
    u[..8] + "-" + u[8..12] + "-" + u[12..16] + "-" + u[16..20] + "-" + u[20..]
  }

  predicate Hyphenated(s: string) {
    |s| == 36 && s[8] == '-' && s[13] == '-' && s[18] == '-' && s[23] == '-'
  }

  function Unhyphen(s: string): string
    requires Hyphenated(s)
  {
    s[..8] + s[9..13] + s[14..18] + s[19..23] + s[24..]
  }

  function HexOrNone(s: string): Option<string> {
    if AllHex(Lower(s)) then Some(Lower(s)) else None
  }

  function ParseHyphenated(s: string): Option<string> {
    if Hyphenated(s) then HexOrNone(Unhyphen(s)) else None
  }

  /** `Uuid::parse_str`: plain, hyphenated, braced or URN spelling, upper or lower case. */
  function ParseUuid(s: string): Option<string> {
    if |s| == 32 then HexOrNone(s)
    else if |s| == 36 then ParseHyphenated(s)
    else if |s| == 38 && s[0] == '{' && s[37] == '}' then ParseHyphenated(s[1..37])
    else if |s| == 45 && s[..9] == "urn:uuid:" then ParseHyphenated(s[9..])
    else None
  }

  /** `t` is the hyphenated spelling of `u`, in either case. */
  predicate SpellsHyphenated(t: string, u: string) {
    && |t| == 36 && |u| == 32 && t[8] == t[13] == t[18] == t[23] == '-'
    && Lower(t[..8] + t[9..13] + t[14..18] + t[19..23] + t[24..]) == u
  }

  /** The spellings of a UUID that parse: its 32 digits, those with hyphens, and these in braces or after
      `urn:uuid:`, the digits in either case. */
  lemma UuidSpellingsIff(s: string, u: string)
    requires ValidUuid(u)
    ensures ParseUuid(s) == Some(u) <==>
      || Lower(s) == u
      || SpellsHyphenated(s, u)
      || (|s| == 38 && s[0] == '{' && s[37] == '}' && SpellsHyphenated(s[1..37], u))
      || ("urn:uuid:" <= s && SpellsHyphenated(s[9..], u))
  {
    if "urn:uuid:" <= s { assert s[..9] == "urn:uuid:"; }
    HyphenatedIff(s, u);
    if |s| == 38 { HyphenatedIff(s[1..37], u); }
    if |s| == 45 { HyphenatedIff(s[9..], u); }
  }

  lemma HyphenatedIff(t: string, u: string)
    requires ValidUuid(u)
    ensures ParseHyphenated(t) == Some(u) <==> SpellsHyphenated(t, u)
  {
  }

  lemma ParsedUuidIsValid(s: string)
    requires ParseUuid(s).Some?
    ensures ValidUuid(ParseUuid(s).value)
  {
  }

  lemma UnhyphenShown(u: string)
    requires ValidUuid(u)
    ensures Hyphenated(ShowUuid(u)) && Unhyphen(ShowUuid(u)) == u
  {
    var s := ShowUuid(u);
    assert s[..8] == u[..8] && s[9..13] == u[8..12] && s[14..18] == u[12..16];
    assert s[19..23] == u[16..20] && s[24..] == u[20..];
  }

  /** Cutting the hyphens out and putting them back changes nothing. */
  lemma Rehyphen(s: string)
    requires Hyphenated(s)
    ensures var d := Unhyphen(s);
            d[..8] + "-" + d[8..12] + "-" + d[12..16] + "-" + d[16..20] + "-" + d[20..] == s
  {
    var d := Unhyphen(s);
    assert d[..8] == s[..8] && d[8..12] == s[9..13] && d[12..16] == s[14..18];
    assert d[16..20] == s[19..23] && d[20..] == s[24..];
  }

  lemma UuidRoundTrip(u: string)
    requires ValidUuid(u)
    ensures ParseUuid(ShowUuid(u)) == Some(u)
  {
    UnhyphenShown(u);
    LowerOfHex(u);
  }

  lemma LowerOfUnhyphen(s: string)
    requires Hyphenated(s)
    ensures Lower(Unhyphen(s)) == Unhyphen(s) <==> Lower(s) == s
  {
    var d := Unhyphen(s);
    Rehyphen(s);
    if Lower(d) == d {
      forall i | 0 <= i < 36 ensures LowerChar(s[i]) == s[i] {
        var k := if i < 8 then i else if i < 13 then i - 1 else if i < 18 then i - 2 else if i < 23 then i - 3 else i - 4;
        assert s[i] == '-' || s[i] == d[k];
      }
    }
    if Lower(s) == s {
      forall k | 0 <= k < 32 ensures LowerChar(d[k]) == d[k] {
        var i := if k < 8 then k else if k < 12 then k + 1 else if k < 16 then k + 2 else if k < 20 then k + 3 else k + 4;
        assert d[k] == s[i] == Lower(s)[i];
      }
    }
  }

  /** Of all the spellings that parse, exactly one is printed back: lower case, hyphenated, bare. */
  lemma UuidPrintedIff(s: string)
    requires ParseUuid(s).Some?
    ensures ValidUuid(ParseUuid(s).value)
    ensures ShowUuid(ParseUuid(s).value) == s <==> |s| == 36 && Lower(s) == s
  {
    ParsedUuidIsValid(s);
    var u := ParseUuid(s).value;
    if |s| == 36 {
      LowerOfUnhyphen(s);
      Rehyphen(s);
      UnhyphenShown(u);
    }
  }

  lemma ShownUuidIsOneChunk(u: string)
    requires ValidUuid(u)
    ensures '/' !in ShowUuid(u) && '*' !in ShowUuid(u)
  {
    var s := ShowUuid(u);
    forall i | 0 <= i < |s| ensures s[i] == '-' || LowerHex(s[i]) {
    }
  }

  // ---- port numbers ----

  function Digit(n: nat): (c: char)
    requires n < 10
    ensures '0' <= c <= '9' && c as int == '0' as int + n
  {
    '0' + n as char
  }

  function Decimal(n: nat): (s: string)
    ensures s != "" && forall i :: 0 <= i < |s| ==> '0' <= s[i] <= '9'
  {
    if n < 10 then [Digit(n)] else Decimal(n / 10) + [Digit(n % 10)]
  }

  /** The number some decimal digits stand for. */
  function NumberOf(s: string): int {
    if s == "" then 0 else 10 * NumberOf(s[..|s| - 1]) + (s[|s| - 1] as int - '0' as int)
  }

  /** The printed number reads back, and has no leading zero. */
  lemma {:induction false} DecimalReadsBack(n: nat)
    ensures NumberOf(Decimal(n)) == n && (Decimal(n)[0] == '0' <==> n == 0)
  {
    if n < 10 {
      assert Decimal(n)[..0] == "";
    } else {
      var s := Decimal(n);
      DecimalReadsBack(n / 10);
      assert s[..|s| - 1] == Decimal(n / 10);
    }
  }

  lemma {:induction false} DecimalInjective(m: nat, n: nat)
    requires Decimal(m) == Decimal(n)
    ensures m == n
  {
    var s := Decimal(m);
    assert m % 10 == s[|s| - 1] as int - '0' as int == n % 10;
    if m >= 10 && n >= 10 {
      assert Decimal(m / 10) == s[..|s| - 1] == Decimal(n / 10);
      DecimalInjective(m / 10, n / 10);
    }
  }

  // ---- org slugs ----

  predicate SlugStart(c: char) { 'a' <= c <= 'z' || '0' <= c <= '9' }

  predicate SlugChar(c: char) { SlugStart(c) || c == '-' }

  /** `[a-z0-9][a-z0-9-]*`, at most 63 characters. */
  predicate ValidSlug(s: string) {
    1 <= |s| <= 63 && SlugStart(s[0]) && forall i :: 0 <= i < |s| ==> SlugChar(s[i])
  }

  method ValidateSlug(slug: string) returns (ok: bool)
    ensures ok <==>
      && 1 <= |slug| <= 63 && slug[0] != '-'
      && forall i :: 0 <= i < |slug| ==> 'a' <= slug[i] <= 'z' || '0' <= slug[i] <= '9' || slug[i] == '-'
    ensures ok <==> ValidSlug(slug)
  {
    if |slug| == 0 || |slug| > 63 { return false; }
    if !SlugStart(slug[0]) { return false; }
    var i := 1;
    while i < |slug|
      invariant 1 <= i <= |slug|
      invariant forall j :: 0 <= j < i ==> SlugChar(slug[j])
    {
      if !SlugChar(slug[i]) { return false; }
      i := i + 1;
    }
    return true;
  }
}
