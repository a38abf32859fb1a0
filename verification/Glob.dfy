// The topic matcher of the live stream, byte by byte, and the database's GLOB, character by
// character.
module Glob {
  import opened Wrappers
  import opened Utf8

  const STAR: int := 42
  const ANY: int := 63

  /** `inner` of the stream's matcher. */
  predicate GlobMatch(p: Bytes, v: Bytes)
    decreases |p| + |v|
  {
    if p == [] then v == []
    else if p[0] == STAR then
      if GlobMatch(p[1..], v) then true
      else if v == [] then false
      else GlobMatch(p, v[1..])
    else if p[0] == ANY then v != [] && GlobMatch(p[1..], v[1..])
    else v != [] && v[0] == p[0] && GlobMatch(p[1..], v[1..])
  }

  // ---- what matching means ----

  /** The strings one pattern byte stands for. */
  predicate InLanguage(b: int, segment: Bytes) {
    if b == STAR then true else if b == ANY then |segment| == 1 else segment == [b]
  }

  function Concat(segments: seq<Bytes>): Bytes {
    if segments == [] then [] else segments[0] + Concat(segments[1..])
  }

  /** `segments` cuts `v` into one piece per pattern byte, each in that byte's language. */
  predicate Cuts(p: Bytes, v: Bytes, segments: seq<Bytes>) {
    && |segments| == |p| && Concat(segments) == v
    && forall i :: 0 <= i < |p| ==> InLanguage(p[i], segments[i])
  }

  lemma {:induction false} MatchHasCut(p: Bytes, v: Bytes)
    requires GlobMatch(p, v)
    ensures exists segments :: Cuts(p, v, segments)
    decreases |p| + |v|
  {
    if p == [] {
      assert Cuts(p, v, []);
    } else if p[0] == STAR && !GlobMatch(p[1..], v) {
      MatchHasCut(p, v[1..]);
      var s :| Cuts(p, v[1..], s);
      var t := [[v[0]] + s[0]] + s[1..];
      assert Concat(t) == [v[0]] + Concat(s);
      assert Cuts(p, v, t);
    } else {
      var n := if p[0] == STAR then 0 else 1;
      MatchHasCut(p[1..], v[n..]);
      var s :| Cuts(p[1..], v[n..], s);
      var t := [v[..n]] + s;
      assert t[1..] == s && Concat(t) == v;
      assert Cuts(p, v, t);
    }
  }

  lemma {:induction false} StarSkips(p: Bytes, u: Bytes, v: Bytes)
    requires p != [] && p[0] == STAR && GlobMatch(p[1..], v)
    ensures GlobMatch(p, u + v)
    decreases |u|
  {
    if u == [] {
      assert u + v == v;
    } else {
      StarSkips(p, u[1..], v);
      assert (u + v)[1..] == u[1..] + v;
    }
  }

  lemma {:induction false} CutMatches(p: Bytes, v: Bytes, segments: seq<Bytes>)
    requires Cuts(p, v, segments)
    ensures GlobMatch(p, v)
  {
    if p != [] {
      var rest := Concat(segments[1..]);
      assert v == segments[0] + rest && InLanguage(p[0], segments[0]);
      assert Cuts(p[1..], rest, segments[1..]);
      CutMatches(p[1..], rest, segments[1..]);
      if p[0] == STAR { StarSkips(p, segments[0], rest); } else { assert v[1..] == rest; }
    }
  }

  /** The matcher accepts exactly the strings that can be cut to fit the pattern. */
  lemma GlobMatchIff(p: Bytes, v: Bytes)
    ensures GlobMatch(p, v) <==> exists segments :: Cuts(p, v, segments)
  {
    if GlobMatch(p, v) { MatchHasCut(p, v); }
    if segments :| Cuts(p, v, segments) { CutMatches(p, v, segments); }
  }

  lemma {:induction false} MatchAppend(p: Bytes, v: Bytes, q: Bytes, w: Bytes)
    requires GlobMatch(p, v) && GlobMatch(q, w)
    ensures GlobMatch(p + q, v + w)
    decreases |p| + |v|
  {
    if p == [] {
      assert p + q == q && v + w == w;
    } else {
      assert (p + q)[1..] == p[1..] + q;
      if p[0] == STAR && GlobMatch(p[1..], v) {
        MatchAppend(p[1..], v, q, w);
      } else {
        assert (v + w)[1..] == v[1..] + w;
        MatchAppend(if p[0] == STAR then p else p[1..], v[1..], q, w);
      }
    }
  }

  lemma {:induction false} MatchSplit(p: Bytes, q: Bytes, v: Bytes) returns (k: nat)
    requires GlobMatch(p + q, v)
    ensures k <= |v| && GlobMatch(p, v[..k]) && GlobMatch(q, v[k..])
    decreases |p| + |v|
  {
    if p == [] {
      assert p + q == q && v[0..] == v;
      k := 0;
    } else {
      assert (p + q)[1..] == p[1..] + q;
      if p[0] == STAR && GlobMatch(p[1..] + q, v) {
        k := MatchSplit(p[1..], q, v);
      } else {
        k := MatchSplit(if p[0] == STAR then p else p[1..], q, v[1..]);
        assert v[..k + 1][1..] == v[1..][..k] && v[k + 1..] == v[1..][k..];
        k := k + 1;
      }
    }
  }

  /** Matching distributes over concatenating patterns. */
  lemma MatchConcatIff(p: Bytes, q: Bytes, v: Bytes)
    ensures GlobMatch(p + q, v) <==> exists k :: 0 <= k <= |v| && GlobMatch(p, v[..k]) && GlobMatch(q, v[k..])
  {
    hide GlobMatch;
    if GlobMatch(p + q, v) {
      var k := MatchSplit(p, q, v);
    }
    if k :| 0 <= k <= |v| && GlobMatch(p, v[..k]) && GlobMatch(q, v[k..]) {
      MatchAppend(p, v[..k], q, v[k..]);
      assert v[..k] + v[k..] == v;
    }
  }

  // ---- the database's GLOB operator ----

  /** Inside a `[...]` set: was `c` seen, and what follows the closing bracket. */
  function ScanSet(p: string, c: char, prior: Option<char>, seen: bool): (r: Option<(bool, string)>)
    ensures r.Some? ==> |r.value.1| < |p|
  {
    if p == "" then None
    else if p[0] == ']' then Some((seen, p[1..]))
    else if p[0] == '-' && |p| > 1 && p[1] != ']' && prior.Some? then
      ScanSet(p[2..], c, None, seen || prior.value <= c <= p[1])
    else ScanSet(p[1..], c, Some(p[0]), seen || c == p[0])
  }

  /** One `[...]` set, the opening bracket already read: does `c` fit, and what follows. */
  function MatchSet(p: string, c: char): (r: Option<(bool, string)>)
    ensures r.Some? ==> |r.value.1| < |p|
  {
    var invert := p != "" && p[0] == '^';
    var q := if invert then p[1..] else p;
    var r := if q != "" && q[0] == ']' then ScanSet(q[1..], c, None, c == ']') else ScanSet(q, c, None, false);
    match r
    case None => None
    case Some((seen, rest)) => Some((seen != invert, rest))
  }

  /** GLOB on strings that hold no U+0000. */
  predicate GlobText(p: string, v: string)
    decreases |p| + |v|
  {
    if p == "" then v == ""
    else if p[0] == '*' then GlobText(p[1..], v) || (v != "" && GlobText(p, v[1..]))
    else if p[0] == '?' then v != "" && GlobText(p[1..], v[1..])
    else if p[0] == '[' then
      v != "" &&
      match MatchSet(p[1..], v[0])
      case None => false
      case Some((fits, rest)) => fits && GlobText(rest, v[1..])
    else v != "" && v[0] == p[0] && GlobText(p[1..], v[1..])
  }

  // ---- what a set means ----

  datatype SetItem = One(c: char) | Span(lo: char, hi: char)

  function ItemsText(items: seq<SetItem>): string {
    if items == [] then ""
    else (match items[0] case One(c) => [c] case Span(lo, hi) => [lo, '-', hi]) + ItemsText(items[1..])
  }

  /** Items that read back as themselves: a `-` or `]` would be taken as syntax. */
  predicate PlainItems(items: seq<SetItem>) {
    forall i :: 0 <= i < |items| ==>
      match items[i]
      case One(c) => c != ']' && c != '-'
      case Span(lo, hi) => lo != ']' && lo != '-' && hi != ']'
  }

  /** A single character, or one from `lo` to `hi`; the lower end always, even of an empty range. */
  predicate Covers(item: SetItem, c: char) {
    match item case One(x) => c == x case Span(lo, hi) => c == lo || (lo <= c && c <= hi)
  }

  predicate CoveredBy(items: seq<SetItem>, c: char) { exists i :: 0 <= i < |items| && Covers(items[i], c) }

  lemma {:induction false} ScanReadsItems(items: seq<SetItem>, rest: string, c: char, prior: Option<char>, seen: bool)
    requires PlainItems(items)
    ensures ScanSet(ItemsText(items) + "]" + rest, c, prior, seen) == Some((seen || CoveredBy(items, c), rest))
  {
    var p := ItemsText(items) + "]" + rest;
    if items == [] {
      assert p == "]" + rest && p[1..] == rest;
    } else {
      var q := ItemsText(items[1..]) + "]" + rest;
      CoveredFirst(items, c);
      match items[0] {
        case One(x) =>
          assert p == [x] + q && p[1..] == q;
          ScanReadsItems(items[1..], rest, c, Some(x), seen || c == x);
        case Span(lo, hi) =>
          assert p == [lo, '-', hi] + q && p[1..] == ['-', hi] + q && p[1..][2..] == q;
          ScanReadsItems(items[1..], rest, c, None, (seen || c == lo) || lo <= c <= hi);
      }
    }
  }

  lemma CoveredFirst(items: seq<SetItem>, c: char)
    requires items != []
    ensures CoveredBy(items, c) <==> Covers(items[0], c) || CoveredBy(items[1..], c)
  {
    if i :| 0 <= i < |items| && Covers(items[i], c) {
      if i > 0 { assert Covers(items[1..][i - 1], c); }
    }
    if i :| 0 <= i < |items| - 1 && Covers(items[1..][i], c) { assert Covers(items[i + 1], c); }
  }

  /** A closed set takes one character: one of its items or, after `^`, none of them. A `]` that comes first is
      an item, not the end. */
  lemma SetMeans(inverted: bool, closing: bool, items: seq<SetItem>, rest: string, v: string)
    requires PlainItems(items) && (items != [] || closing)
    requires !inverted && !closing ==> items[0] != One('^') && !(items[0].Span? && items[0].lo == '^')
    ensures var p := "[" + (if inverted then "^" else "") + (if closing then "]" else "") + ItemsText(items) + "]" + rest;
      GlobText(p, v) <==>
        v != "" && (((closing && v[0] == ']') || CoveredBy(items, v[0])) != inverted) && GlobText(rest, v[1..])
  {
    var p := "[" + (if inverted then "^" else "") + (if closing then "]" else "") + ItemsText(items) + "]" + rest;
    SetText(inverted, closing, items, rest);
    if v != "" {
      MatchSetMeans(inverted, closing, items, rest, v[0]);
    }
    hide MatchSet, ItemsText, CoveredBy;
  }

  /** What follows the opening bracket. */
  function SetBody(inverted: bool, closing: bool, items: seq<SetItem>, rest: string): string {
    (if inverted then "^" else "") + ((if closing then "]" else "") + (ItemsText(items) + "]" + rest))
  }

  lemma SetText(inverted: bool, closing: bool, items: seq<SetItem>, rest: string)
    ensures var p := "[" + (if inverted then "^" else "") + (if closing then "]" else "") + ItemsText(items) + "]" + rest;
      p[0] == '[' && p[1..] == SetBody(inverted, closing, items, rest)
  {
    hide ItemsText;
  }

  lemma MatchSetMeans(inverted: bool, closing: bool, items: seq<SetItem>, rest: string, c: char)
    requires PlainItems(items) && (items != [] || closing)
    requires !inverted && !closing ==> items[0] != One('^') && !(items[0].Span? && items[0].lo == '^')
    ensures MatchSet(SetBody(inverted, closing, items, rest), c) ==
            Some((((closing && c == ']') || CoveredBy(items, c)) != inverted, rest))
  {
    var body := ItemsText(items) + "]" + rest;
    var q, p := (if closing then "]" else "") + body, SetBody(inverted, closing, items, rest);
    ScanReadsItems(items, rest, c, None, closing && c == ']');
    if items != [] { FirstOfItems(items, rest); }
    hide ItemsText, CoveredBy, ScanSet, PlainItems;
    if inverted { assert p[0] == '^' && p[1..] == q; } else { assert p == q; }
    if closing { assert q[0] == ']' && q[1..] == body; } else { assert q == body; }
  }

  lemma FirstOfItems(items: seq<SetItem>, rest: string)
    requires PlainItems(items) && items != []
    ensures var body := ItemsText(items) + "]" + rest;
      body != "" && body[0] == (match items[0] case One(c) => c case Span(lo, _) => lo) && body[0] != ']'
  {
  }

  /** A set that is never closed takes nothing. */
  lemma OpenSetTakesNothing(t: string, v: string)
    requires ']' !in t
    ensures !GlobText("[" + t, v) && !GlobText("[]" + t, v) && !GlobText("[^]" + t, v)
  {
    assert ("[" + t)[1..] == t && ("[]" + t)[1..] == "]" + t && ("[^]" + t)[1..] == "^]" + t;
    assert ("]" + t)[1..] == t && ("^]" + t)[1..] == "]" + t;
    if v != "" {
      NeverCloses(t, v[0], None, false);
      NeverCloses(t, v[0], None, v[0] == ']');
      if t != "" { NeverCloses(t[1..], v[0], None, false); }
    }
  }

  lemma {:induction false} NeverCloses(t: string, c: char, prior: Option<char>, seen: bool)
    requires ']' !in t
    ensures ScanSet(t, c, prior, seen).None?
  {
    if t != "" {
      assert t[0] in t;
      if t[0] == '-' && |t| > 1 && t[1] != ']' && prior.Some? {
        NeverCloses(t[2..], c, None, seen || prior.value <= c <= t[1]);
      } else {
        NeverCloses(t[1..], c, Some(t[0]), seen || c == t[0]);
      }
    }
  }

  function UntilNul(s: string): (r: string)
    ensures |r| <= |s|
  {
    if s == "" || s[0] == '\0' then "" else [s[0]] + UntilNul(s[1..])
  }

  predicate NulFree(s: string) { '\0' !in s }

  /** GLOB as SQLite has it: pattern and value both end at their first U+0000. */
  predicate SqlGlob(p: string, v: string) { GlobText(UntilNul(p), UntilNul(v)) }

  lemma {:induction false} UntilNulKeeps(s: string)
    requires NulFree(s)
    ensures UntilNul(s) == s
  {
    if s != "" { UntilNulKeeps(s[1..]); }
  }

  lemma NoNuls(p: string, v: string)
    requires NulFree(p) && NulFree(v)
    ensures SqlGlob(p, v) <==> GlobText(p, v)
  {
    UntilNulKeeps(p);
    UntilNulKeeps(v);
  }

  // ---- the two matchers agree ----

  lemma {:induction false} LiteralRun(u: Bytes, q: Bytes, w: Bytes)
    requires STAR !in u && ANY !in u
    ensures GlobMatch(u + q, w) <==> u <= w && GlobMatch(q, w[|u|..])
  {
    if u == [] {
      assert u + q == q && w[0..] == w;
    } else if w != [] && w[0] == u[0] {
      LiteralRun(u[1..], q, w[1..]);
      assert (u + q)[1..] == u[1..] + q;
      assert u[1..] <= w[1..] <==> u <= w;
      assert u <= w ==> w[1..][|u[1..]|..] == w[|u|..];
    }
  }

  lemma {:induction false} StarAbsorbs(p: Bytes, u: Bytes, v: Bytes)
    requires p != [] && p[0] == STAR && GlobMatch(p, v)
    ensures GlobMatch(p, u + v)
  {
    if u == [] {
      assert u + v == v;
    } else {
      StarAbsorbs(p, u[1..], v);
      assert (u + v)[1..] == u[1..] + v;
    }
  }

  /** A match that starts inside a character can only be a `*` taking the rest of it. */
  lemma {:induction false} StrayBytes(p: string, k: Bytes, w: Bytes)
    requires k != [] && (forall i :: 0 <= i < |k| ==> Continuation(k[i]))
    requires '?' !in p && GlobMatch(Encode(p), k + w)
    ensures p != "" && p[0] == '*' && GlobMatch(Encode(p), w)
    decreases |p| + |k|
  {
    hide EncodeChar;
    if p != "" {
      EncodeCons(p);
      EncodedChar(p[0]);
      assert (k + w)[0] == k[0] && (k + w)[1..] == k[1..] + w;
      if p[0] == '*' {
        assert Encode(p)[1..] == Encode(p[1..]);
        if GlobMatch(Encode(p[1..]), k + w) {
          StrayBytes(p[1..], k, w);
        } else if |k| == 1 {
          assert k[1..] + w == w;
        } else {
          StrayBytes(p, k[1..], w);
        }
      }
    }
  }

  lemma AgreeOnStar(p: string, v: string)
    requires p != "" && p[0] == '*' && v != "" && ('?' !in p || Ascii(v))
    ensures GlobMatch(Encode(p), Encode(v)[1..]) <==> GlobMatch(Encode(p), Encode(v[1..]))
  {
    hide EncodeChar, GlobMatch;
    EncodeCons(v);
    EncodeCons(p);
    EncodedChar(p[0]);
    EncodedChar(v[0]);
    var k, w := EncodeChar(v[0])[1..], Encode(v[1..]);
    if k == [] {
      assert k + w == w;
    } else {
      if GlobMatch(Encode(p), k + w) { StrayBytes(p, k, w); }
      if GlobMatch(Encode(p), w) { StarAbsorbs(Encode(p), k, w); }
    }
  }

  lemma AgreeOnLiteral(p: string, v: string)
    requires p != "" && p[0] != '*' && p[0] != '?'
    ensures GlobMatch(Encode(p), Encode(v)) <==>
            v != "" && v[0] == p[0] && GlobMatch(Encode(p[1..]), Encode(v[1..]))
  {
    hide EncodeChar, GlobMatch;
    EncodeCons(p);
    EncodedChar(p[0]);
    var u := EncodeChar(p[0]);
    LiteralRun(u, Encode(p[1..]), Encode(v));
    if v != "" {
      EncodeCons(v);
      if u <= Encode(v) { EncodePrefixFree(p[0], v[0], Encode(v[1..])); }
      if v[0] == p[0] { assert Encode(v)[|u|..] == Encode(v[1..]); }
    }
  }

  /** The stream's matcher, character by character: a `[` is an ordinary character to it. */
  predicate CharGlob(p: string, v: string)
    decreases |p| + |v|
  {
    if p == "" then v == ""
    else if p[0] == '*' then CharGlob(p[1..], v) || (v != "" && CharGlob(p, v[1..]))
    else if p[0] == '?' then v != "" && CharGlob(p[1..], v[1..])
    else v != "" && v[0] == p[0] && CharGlob(p[1..], v[1..])
  }

  /** The byte matcher works on whole characters, on every value if the pattern has no `?` and on every
      ASCII value otherwise. */
  lemma {:induction false} BytesAreChars(p: string, v: string)
    requires '?' !in p || Ascii(v)
    ensures GlobMatch(Encode(p), Encode(v)) <==> CharGlob(p, v)
    decreases |p| + |v|
  {
    hide EncodeChar;
    if p == "" {
      if v != "" { EncodeCons(v); }
    } else {
      EncodeCons(p);
      EncodedChar(p[0]);
      if p[0] == '*' {
        assert Encode(p)[1..] == Encode(p[1..]);
        BytesAreChars(p[1..], v);
        if v != "" {
          EncodeCons(v);
          AgreeOnStar(p, v);
          BytesAreChars(p, v[1..]);
        }
      } else if p[0] == '?' {
        assert Encode(p)[1..] == Encode(p[1..]);
        if v != "" {
          EncodeCons(v);
          EncodedChar(v[0]);
          assert Encode(v)[1..] == Encode(v[1..]);
          BytesAreChars(p[1..], v[1..]);
        }
      } else {
        AgreeOnLiteral(p, v);
        if v != "" { BytesAreChars(p[1..], v[1..]); }
      }
    }
  }

  lemma {:induction false} NoSetsAgree(p: string, v: string)
    requires '[' !in p
    ensures CharGlob(p, v) <==> GlobText(p, v)
    decreases |p| + |v|
  {
    if p != "" {
      NoSetsAgree(p[1..], v);
      if v != "" {
        NoSetsAgree(p, v[1..]);
        NoSetsAgree(p[1..], v[1..]);
      }
    }
  }

  /** The stream's byte matcher is the database's GLOB for every pattern without `[`, on every
      value if the pattern has no `?` and on every ASCII value otherwise. */
  lemma GlobAgrees(p: string, v: string)
    requires '[' !in p && ('?' !in p || Ascii(v)) && NulFree(p) && NulFree(v)
    ensures GlobMatch(Encode(p), Encode(v)) <==> SqlGlob(p, v)
  {
    BytesAreChars(p, v);
    NoSetsAgree(p, v);
    NoNuls(p, v);
  }

  // ---- a set always makes a difference ---------------------------------------------------------------

  /** The pattern without its stars: the stream accepts it, and nothing of fewer bytes. */
  function NoStars(p: string): string {
    if p == "" then "" else if p[0] == '*' then NoStars(p[1..]) else [p[0]] + NoStars(p[1..])
  }

  lemma {:induction false} NoStarsMatches(p: string)
    ensures GlobMatch(Encode(p), Encode(NoStars(p)))
  {
    hide EncodeChar;
    if p != "" {
      NoStarsMatches(p[1..]);
      EncodeCons(p);
      EncodedChar(p[0]);
      var v := NoStars(p);
      if p[0] == '*' {
        assert Encode(p)[1..] == Encode(p[1..]);
      } else {
        assert v[1..] == NoStars(p[1..]);
        EncodeCons(v);
        if p[0] == '?' {
          assert Encode(p)[1..] == Encode(p[1..]) && Encode(v)[1..] == Encode(v[1..]);
        } else {
          AgreeOnLiteral(p, v);
        }
      }
    }
  }

  lemma {:induction false} StreamNeedsBytes(p: string, b: Bytes)
    requires GlobMatch(Encode(p), b)
    ensures |b| >= |Encode(NoStars(p))|
    decreases |p| + |b|
  {
    hide EncodeChar;
    if p == "" {
      EncodeNothing();
    } else {
      EncodeCons(p);
      EncodedChar(p[0]);
      var v := NoStars(p);
      if p[0] == '*' {
        assert Encode(p)[1..] == Encode(p[1..]);
        if GlobMatch(Encode(p[1..]), b) { StreamNeedsBytes(p[1..], b); } else { StreamNeedsBytes(p, b[1..]); }
      } else {
        assert v[1..] == NoStars(p[1..]);
        EncodeCons(v);
        if p[0] == '?' {
          assert Encode(p)[1..] == Encode(p[1..]);
          StreamNeedsBytes(p[1..], b[1..]);
        } else {
          var u := EncodeChar(p[0]);
          LiteralRun(u, Encode(p[1..]), b);
          StreamNeedsBytes(p[1..], b[|u|..]);
        }
      }
    }
  }

  lemma {:induction false} SetIsLong(p: string, c: char, prior: Option<char>, seen: bool)
    requires ScanSet(p, c, prior, seen).Some?
    ensures |NoStars(p)| >= 1 + |NoStars(ScanSet(p, c, prior, seen).value.1)|
  {
    if p[0] == ']' {
    } else if p[0] == '-' && |p| > 1 && p[1] != ']' && prior.Some? {
      assert p[1..][1..] == p[2..];
      SetIsLong(p[2..], c, None, seen || prior.value <= c <= p[1]);
    } else {
      SetIsLong(p[1..], c, Some(p[0]), seen || c == p[0]);
    }
  }

  lemma MatchSetIsLong(p: string, c: char)
    requires MatchSet(p, c).Some?
    ensures |NoStars(p)| >= 1 + |NoStars(MatchSet(p, c).value.1)|
  {
    var q := if p != "" && p[0] == '^' then p[1..] else p;
    assert |NoStars(p)| >= |NoStars(q)|;
    if q != "" && q[0] == ']' {
      SetIsLong(q[1..], c, None, c == ']');
    } else {
      SetIsLong(q, c, None, false);
    }
  }

  /** Whatever GLOB accepts, it also accepts with what the stars took left out: something no longer than the
      pattern without its stars, and strictly shorter if the pattern has a set. */
  lemma {:induction false} GlobAcceptsShort(p: string, v: string) returns (w: string)
    requires GlobText(p, v)
    ensures GlobText(p, w) && |w| <= |NoStars(p)| && ('[' in p ==> |w| < |NoStars(p)|)
    ensures |Encode(v)| - |Encode(w)| >= |v| - |w|
    ensures forall c :: c in w ==> c in v
    decreases |p| + |v|
  {
    hide EncodeChar, Encode;
    if p == "" {
      w := "";
    } else if p[0] == '*' && GlobText(p[1..], v) {
      w := GlobAcceptsShort(p[1..], v);
    } else {
      EncodeCons(v);
      if p[0] == '*' {
        w := GlobAcceptsShort(p, v[1..]);
      } else {
        var rest := p[1..];
        if p[0] == '[' {
          rest := MatchSet(p[1..], v[0]).value.1;
          MatchSetIsLong(p[1..], v[0]);
        }
        var u := GlobAcceptsShort(rest, v[1..]);
        w := [v[0]] + u;
        assert w[1..] == u;
        EncodeCons(w);
      }
    }
  }

  /** A value on which the two differ, made of characters of the pattern. */
  lemma SetDiffers(p: string) returns (v: string)
    requires '[' in p && NulFree(p)
    ensures GlobMatch(Encode(p), Encode(v)) != SqlGlob(p, v) && NulFree(v) && forall c :: c in v ==> c in p
  {
    NoStarsMatches(p);
    NoStarsFrom(p);
    v := NoStars(p);
    if GlobText(p, v) {
      var w := GlobAcceptsShort(p, v);
      if GlobMatch(Encode(p), Encode(w)) { StreamNeedsBytes(p, Encode(w)); }
      v := w;
    }
    NoNuls(p, v);
  }

  lemma {:induction false} NoStarsFrom(p: string)
    ensures forall c :: c in NoStars(p) ==> c in p
  {
    if p != "" {
      NoStarsFrom(p[1..]);
    }
  }

  /** A pattern without `?` means the same to both on every value exactly when it has no `[`. */
  lemma GlobAgreesIff(p: string)
    requires '?' !in p && NulFree(p)
    ensures (forall v | NulFree(v) :: GlobMatch(Encode(p), Encode(v)) <==> SqlGlob(p, v)) <==> '[' !in p
  {
    if '[' in p {
      var v := SetDiffers(p);
    } else {
      forall v | NulFree(v) ensures GlobMatch(Encode(p), Encode(v)) <==> SqlGlob(p, v) {
        GlobAgrees(p, v);
      }
    }
  }

  /** An ASCII pattern, `?` and all, means the same to both on every ASCII value exactly when it has no
      `[`. */
  lemma GlobAgreesOnAsciiIff(p: string)
    requires Ascii(p) && NulFree(p)
    ensures (forall v | NulFree(v) && Ascii(v) :: GlobMatch(Encode(p), Encode(v)) <==> SqlGlob(p, v)) <==> '[' !in p
  {
    if '[' in p {
      var v := SetDiffers(p);
      assert forall i :: 0 <= i < |v| ==> v[i] in p;
      assert Ascii(v);
    } else {
      forall v | NulFree(v) && Ascii(v) ensures GlobMatch(Encode(p), Encode(v)) <==> SqlGlob(p, v) {
        GlobAgrees(p, v);
      }
    }
  }

  /** Against other values a `?` can make a difference, as it stands for one byte, and need not. */
  lemma AnyByteIsNotAnyChar()
    ensures SqlGlob("?", "\U{e9}") && !GlobMatch(Encode("?"), Encode("\U{e9}"))
    ensures SqlGlob("?*", "\U{e9}") && GlobMatch(Encode("?*"), Encode("\U{e9}"))
  {
    var v := "\U{e9}";
    NoNuls("?", v);
    NoNuls("?*", v);
    var b := Encode(v);
    assert v[1..] == "" && |b| == 2;
    assert Encode("?") == [ANY] && [ANY][1..] == [] && b[1..] != [];
    assert "?"[1..] == "" && "?*"[1..] == "*" && "*"[1..] == "";
    assert Encode("*") == [STAR] && Encode("?*") == [ANY, STAR] && [ANY, STAR][1..] == [STAR] && [STAR][1..] == [];
    StarSkips([STAR], b[1..], []);
    assert b[1..] + [] == b[1..];
  }
}
