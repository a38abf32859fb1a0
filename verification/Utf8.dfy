// UTF-8: the encoding, and decoding with replacement characters as `String::from_utf8_lossy` does it.
module Utf8 {

  type Bytes = seq<int>

  function EncodeChar(c: char): (r: Bytes)
    ensures r != []
  {
    var n := c as int;
    if n < 0x80 then [n]
    else if n < 0x800 then [0xC0 + n / 64, 0x80 + n % 64]
    else if n < 0x1_0000 then [0xE0 + n / 4096, 0x80 + n / 64 % 64, 0x80 + n % 64]
    else [0xF0 + n / 262144, 0x80 + n / 4096 % 64, 0x80 + n / 64 % 64, 0x80 + n % 64]
  }

  function Encode(s: string): Bytes {
    if s == "" then [] else EncodeChar(s[0]) + Encode(s[1..])
  }

  predicate Continuation(b: int) { 0x80 <= b < 0xC0 }

  lemma EncodedChar(c: char)
    ensures var r := EncodeChar(c);
            && !Continuation(r[0]) && (r[0] < 0x80 <==> c as int < 0x80) && (c as int < 0x80 ==> r == [c as int])
            && forall i :: 1 <= i < |r| ==> Continuation(r[i])
  {
  }

  function DecodeChar(r: Bytes): int
    requires r != []
  {
    if |r| == 1 then r[0]
    else if |r| == 2 then (r[0] - 0xC0) * 64 + (r[1] - 0x80)
    else if |r| == 3 then (r[0] - 0xE0) * 4096 + (r[1] - 0x80) * 64 + (r[2] - 0x80)
    else if |r| == 4 then (r[0] - 0xF0) * 262144 + (r[1] - 0x80) * 4096 + (r[2] - 0x80) * 64 + (r[3] - 0x80)
    else 0
  }

  function LengthFromLead(b: int): nat {
    if b < 0x80 then 1 else if b < 0xE0 then 2 else if b < 0xF0 then 3 else 4
  }

  lemma CharRoundTrip(c: char)
    ensures DecodeChar(EncodeChar(c)) == c as int
    ensures |EncodeChar(c)| == LengthFromLead(EncodeChar(c)[0])
  {
    var n := c as int;
    assert n / 4096 == n / 64 / 64 && n / 262144 == n / 4096 / 64;
  }

  /** No character's encoding begins another's. */
  lemma EncodePrefixFree(c: char, d: char, rest: Bytes)
    requires EncodeChar(c) <= EncodeChar(d) + rest
    ensures c == d
  {
    hide EncodeChar;
    var r, s := EncodeChar(c), EncodeChar(d);
    CharRoundTrip(c);
    CharRoundTrip(d);
    assert r[0] == (s + rest)[0] == s[0];
    assert r == (s + rest)[..|r|] == s;
  }

  /** The property White_Space of the Unicode Character Database. */
  predicate IsWhite(c: char) {
    || '\t' <= c <= '\r' || c == ' ' || c == '\U{85}' || c == '\U{A0}' || c == '\U{1680}'
    || '\U{2000}' <= c <= '\U{200A}' || c == '\U{2028}' || c == '\U{2029}' || c == '\U{202F}'
    || c == '\U{205F}' || c == '\U{3000}'
  }

  predicate Ascii(s: string) { forall i :: 0 <= i < |s| ==> s[i] as int < 0x80 }

  lemma EncodeCons(s: string)
    requires s != ""
    ensures Encode(s) == EncodeChar(s[0]) + Encode(s[1..])
    ensures Encode(s)[0] == EncodeChar(s[0])[0] && Encode(s)[1..] == EncodeChar(s[0])[1..] + Encode(s[1..])
  {
  }

  // ---- decoding ----------------------------------------------------------------------------------

  /** Length of the sequence a lead byte announces, 0 for a byte that can lead none (Unicode Standard,
      table 3-7). */
  function Width(b: int): nat {
    if 0 <= b < 0x80 then 1
    else if 0xC2 <= b <= 0xDF then 2
    else if 0xE0 <= b <= 0xEF then 3
    else if 0xF0 <= b <= 0xF4 then 4
    else 0
  }

  /** May `b` follow lead byte `a`? */
  predicate Second(a: int, b: int) {
    && Continuation(b)
    && (a == 0xE0 ==> b >= 0xA0) && (a == 0xED ==> b <= 0x9F)
    && (a == 0xF0 ==> b >= 0x90) && (a == 0xF4 ==> b <= 0x8F)
  }

  /** How far the decoder gets at the front of `b`: over a whole character, or over the longest part that
      could have begun one. */
  datatype Unit = Whole(n: nat) | Broken(n: nat)

  function Front(b: Bytes): (u: Unit)
    requires b != []
    ensures 1 <= u.n <= |b|
  {
    var w := Width(b[0]);
    if w == 0 then Broken(1)
    else if w == 1 then Whole(1)
    else if |b| < 2 || !Second(b[0], b[1]) then Broken(1)
    else if w == 2 then Whole(2)
    else if |b| < 3 || !Continuation(b[2]) then Broken(2)
    else if w == 3 then Whole(3)
    else if |b| < 4 || !Continuation(b[3]) then Broken(3)
    else Whole(4)
  }

  lemma WholeIsChar(b: Bytes)
    requires b != [] && Front(b).Whole?
    ensures var r := b[..Front(b).n]; var n := DecodeChar(r); 0 <= n < 0xD800 || 0xE000 <= n < 0x11_0000
  {
  }

  /** A whole sequence is the encoding of the character it decodes to. */
  lemma WholeIsEncoded(b: Bytes)
    requires b != [] && Front(b).Whole?
    ensures var r := b[..Front(b).n]; var n := DecodeChar(r);
      (0 <= n < 0xD800 || 0xE000 <= n < 0x11_0000) && EncodeChar(n as char) == r
  {
    WholeIsChar(b);
    var r := b[..Front(b).n];
    assert |r| == Width(r[0]) && (|r| > 1 ==> Second(r[0], r[1])) && forall i :: 1 <= i < |r| ==> Continuation(r[i]);
    hide Front;
    EncodedBack(r);
  }

  lemma EncodedBack(r: Bytes)
    requires r != [] && |r| == Width(r[0]) && (|r| > 1 ==> Second(r[0], r[1]))
    requires forall i :: 1 <= i < |r| ==> Continuation(r[i])
    requires var n := DecodeChar(r); 0 <= n < 0xD800 || 0xE000 <= n < 0x11_0000
    ensures EncodeChar(DecodeChar(r) as char) == r
  {
    var n := DecodeChar(r);
    if |r| == 2 {
      assert n / 64 == r[0] - 0xC0 && n % 64 == r[1] - 0x80;
    } else if |r| == 3 {
      var m := (r[0] - 0xE0) * 64 + (r[1] - 0x80);
      assert n == m * 64 + (r[2] - 0x80) && n / 64 == m && m / 64 == r[0] - 0xE0 && n / 4096 == m / 64;
    } else if |r| == 4 {
      var k := (r[0] - 0xF0) * 64 + (r[1] - 0x80);
      var m := k * 64 + (r[2] - 0x80);
      assert n == m * 64 + (r[3] - 0x80) && n / 64 == m && m / 64 == k && k / 64 == r[0] - 0xF0;
      assert n / 4096 == m / 64 && n / 262144 == k / 64;
    }
  }

  function CharOf(n: int): char
    requires 0 <= n < 0xD800 || 0xE000 <= n < 0x11_0000
  {
    n as char
  }

  function Lossy(b: Bytes): string {
    if b == [] then ""
    else
      var u := Front(b);
      (if u.Whole? then WholeIsChar(b); [CharOf(DecodeChar(b[..u.n]))] else "\U{FFFD}") + Lossy(b[u.n..])
  }

  lemma FrontOfEncoded(c: char, rest: Bytes)
    ensures Front(EncodeChar(c) + rest) == Whole(|EncodeChar(c)|)
  {
    var r := EncodeChar(c);
    var b := r + rest;
    assert b[0] == r[0] && (|r| >= 2 ==> b[1] == r[1]) && (|r| >= 3 ==> b[2] == r[2]) && (|r| == 4 ==> b[3] == r[3]);
    EncodedBytes(c);
    hide EncodeChar;
  }

  lemma EncodedBytes(c: char)
    ensures var r := EncodeChar(c);
            && |r| == Width(r[0]) && |r| <= 4
            && (|r| >= 2 ==> Second(r[0], r[1])) && (|r| >= 3 ==> Continuation(r[2])) && (|r| == 4 ==> Continuation(r[3]))
  {
  }

  lemma LossyWhole(b: Bytes)
    requires b != [] && Front(b).Whole?
    ensures var n, code := Front(b).n, DecodeChar(b[..Front(b).n]);
            && (0 <= code < 0xD800 || 0xE000 <= code < 0x11_0000)
            && Lossy(b) == [CharOf(code)] + Lossy(b[n..])
  {
    hide Front, DecodeChar;
    WholeIsChar(b);
  }

  /** Encoded text decodes to itself, whatever follows it. */
  lemma {:induction false} LossyEncoded(s: string, rest: Bytes)
    ensures Lossy(Encode(s) + rest) == s + Lossy(rest)
  {
    hide EncodeChar, Front, DecodeChar, Lossy, Encode;
    if s == "" {
      EncodeNothing();
      assert Encode(s) + rest == rest;
    } else {
      LossyFirst(s, rest);
      LossyEncoded(s[1..], rest);
      Regroup(s, Lossy(rest));
    }
  }

  lemma EncodeNothing()
    ensures Encode("") == []
  {
  }

  lemma Regroup(s: string, u: string)
    requires s != ""
    ensures [s[0]] + (s[1..] + u) == s + u
  {
  }

  lemma LossyFirst(s: string, rest: Bytes)
    requires s != ""
    ensures Lossy(Encode(s) + rest) == [s[0]] + Lossy(Encode(s[1..]) + rest)
  {
    hide EncodeChar, Front, DecodeChar, Lossy, Encode;
    var r, tail := EncodeChar(s[0]), Encode(s[1..]) + rest;
    EncodeCons(s);
    assert Encode(s) + rest == r + tail;
    FrontOfEncoded(s[0], tail);
    CharRoundTrip(s[0]);
    LossyWhole(r + tail);
    assert (r + tail)[..|r|] == r && (r + tail)[|r|..] == tail;
  }

  // ---- counting characters -------------------------------------------------------------------------

  /** Bytes that are not continuation bytes. */
  function Leads(b: Bytes): nat {
    if b == [] then 0 else Leads(b[..|b| - 1]) + if Continuation(b[|b| - 1]) then 0 else 1
  }

  lemma {:induction false} LeadsAppend(a: Bytes, b: Bytes)
    ensures Leads(a + b) == Leads(a) + Leads(b)
  {
    if b == [] {
      assert a + b == a;
    } else {
      var front := b[..|b| - 1];
      LeadsAppend(a, front);
      assert (a + b)[..|a + b| - 1] == a + front;
    }
  }

  lemma {:induction false} LeadsNone(b: Bytes)
    requires forall i :: 0 <= i < |b| ==> Continuation(b[i])
    ensures Leads(b) == 0
  {
    if b != [] { LeadsNone(b[..|b| - 1]); }
  }

  lemma LeadsOne(b: Bytes)
    requires b != [] && forall i :: 1 <= i < |b| ==> Continuation(b[i])
    ensures Leads(b) == if Continuation(b[0]) then 0 else 1
  {
    assert b == [b[0]] + b[1..] && [b[0]][..0] == [];
    LeadsAppend([b[0]], b[1..]);
    LeadsNone(b[1..]);
  }

  lemma {:induction false} LeadsEncoded(s: string)
    ensures Leads(Encode(s)) == |s|
  {
    hide EncodeChar;
    if s != "" {
      EncodeCons(s);
      EncodedChar(s[0]);
      LeadsOne(EncodeChar(s[0]));
      LeadsAppend(EncodeChar(s[0]), Encode(s[1..]));
      LeadsEncoded(s[1..]);
    }
  }

  lemma FrontTail(b: Bytes)
    requires b != []
    ensures forall i :: 1 <= i < Front(b).n ==> Continuation(b[i])
    ensures Continuation(b[0]) ==> Front(b) == Broken(1)
  {
  }

  /** Every lead byte gives at least one character, and a continuation byte in front one more. */
  lemma {:induction false} LossyLength(b: Bytes)
    ensures |Lossy(b)| >= Leads(b) + if b != [] && Continuation(b[0]) then 1 else 0
  {
    if b != [] {
      var n := Front(b).n;
      FrontTail(b);
      LeadsOne(b[..n]);
      LeadsAppend(b[..n], b[n..]);
      assert b == b[..n] + b[n..];
      LossyLength(b[n..]);
    }
  }

  // ---- chunks -----------------------------------------------------------------------------------------

  function Flatten(chunks: seq<Bytes>): Bytes {
    if chunks == [] then [] else Flatten(chunks[..|chunks| - 1]) + chunks[|chunks| - 1]
  }

  /** Every chunk decoded on its own. */
  function Decoded(chunks: seq<Bytes>): string {
    if chunks == [] then "" else Decoded(chunks[..|chunks| - 1]) + Lossy(chunks[|chunks| - 1])
  }

  /** No chunk begins inside a character. */
  predicate CutBetweenChars(chunks: seq<Bytes>) {
    forall i :: 0 <= i < |chunks| && chunks[i] != [] ==> !Continuation(chunks[i][0])
  }

  lemma {:induction false} CutAtBoundary(s: string, a: Bytes, b: Bytes) returns (k: nat)
    requires Encode(s) == a + b && (b == [] || !Continuation(b[0]))
    ensures k <= |s| && a == Encode(s[..k]) && b == Encode(s[k..])
  {
    hide EncodeChar;
    k := 0;
    if a == [] {
      assert s[0..] == s && a + b == b;
    } else if s != "" {
      EncodeCons(s);
      EncodedChar(s[0]);
      var r := EncodeChar(s[0]);
      CharFits(r, Encode(s[1..]), a, b);
      assert a == r + a[|r|..];
      assert Encode(s[1..]) == a[|r|..] + b;
      k := CutAtBoundary(s[1..], a[|r|..], b);
      EncodeCons(s[..k + 1]);
      assert s[..k + 1][1..] == s[1..][..k] && s[k + 1..] == s[1..][k..];
      k := k + 1;
    }
  }

  lemma LossyNone()
    ensures Lossy([]) == ""
  {
  }

  /** A cut that is not in front of a continuation byte does not go through the first character. */
  lemma CharFits(r: Bytes, tail: Bytes, a: Bytes, b: Bytes)
    requires r + tail == a + b && a != [] && (b == [] || !Continuation(b[0]))
    requires forall i :: 1 <= i < |r| ==> Continuation(r[i])
    ensures |r| <= |a| && a[..|r|] == r && tail == a[|r|..] + b
  {
    var all := r + tail;
    assert b != [] ==> all[|a|] == b[0];
    assert forall i :: 0 <= i < |r| ==> all[i] == r[i];
    assert (a + b)[..|r|] == (r + tail)[..|r|] == r;
    assert (a + b)[|r|..] == (r + tail)[|r|..] == tail;
  }

  lemma LossyText(s: string)
    ensures Lossy(Encode(s)) == s
  {
    LossyEncoded(s, []);
    assert Encode(s) + [] == Encode(s);
    hide Lossy, Encode;
    LossyNone();
    assert s + "" == s;
  }

  lemma EncodedNothing(s: string)
    requires Encode(s) == []
    ensures s == ""
  {
    if s != "" { EncodeCons(s); }
  }

  lemma DecodedLast(chunks: seq<Bytes>)
    requires chunks != []
    ensures var front, last := chunks[..|chunks| - 1], chunks[|chunks| - 1];
            && Decoded(chunks) == Decoded(front) + Lossy(last) && Flatten(chunks) == Flatten(front) + last
            && (CutBetweenChars(chunks) <==> CutBetweenChars(front) && (last == [] || !Continuation(last[0])))
  {
    hide Lossy;
  }

  lemma NoChunks()
    ensures Flatten([]) == [] && Decoded([]) == ""
  {
  }

  lemma {:induction false} BetweenCharsDecodes(s: string, chunks: seq<Bytes>)
    requires Flatten(chunks) == Encode(s) && CutBetweenChars(chunks)
    ensures Decoded(chunks) == s
    decreases |chunks|
  {
    hide Encode, Lossy, Flatten, Decoded, CutBetweenChars;
    NoChunks();
    if chunks == [] {
      EncodedNothing(s);
    } else {
      var front, last := chunks[..|chunks| - 1], chunks[|chunks| - 1];
      DecodedLast(chunks);
      var k := CutAtBoundary(s, Flatten(front), last);
      BetweenCharsDecodes(s[..k], front);
      LossyText(s[k..]);
      assert s == s[..k] + s[k..];
    }
  }

  lemma {:induction false} DecodedLength(chunks: seq<Bytes>)
    ensures |Decoded(chunks)| >= Leads(Flatten(chunks)) + if CutBetweenChars(chunks) then 0 else 1
    decreases |chunks|
  {
    if chunks != [] {
      hide Lossy, Flatten, Decoded, CutBetweenChars, Leads;
      var front, last := chunks[..|chunks| - 1], chunks[|chunks| - 1];
      DecodedLast(chunks);
      DecodedLength(front);
      LossyLength(last);
      LeadsAppend(Flatten(front), last);
    }
  }

  /** Decoding chunk by chunk gives the text back exactly when no chunk begins inside a character. */
  lemma ChunksDecodeIff(s: string, chunks: seq<Bytes>)
    requires Flatten(chunks) == Encode(s)
    ensures Decoded(chunks) == s <==> CutBetweenChars(chunks)
  {
    if CutBetweenChars(chunks) {
      BetweenCharsDecodes(s, chunks);
    } else {
      DecodedLength(chunks);
      LeadsEncoded(s);
    }
  }

  lemma {:induction false} FlattenMember(chunks: seq<Bytes>, i: nat, j: nat)
    requires i < |chunks| && j < |chunks[i]|
    ensures chunks[i][j] in Flatten(chunks)
    decreases |chunks|
  {
    if i < |chunks| - 1 { FlattenMember(chunks[..|chunks| - 1], i, j); }
  }

  lemma {:induction false} AsciiBytes(s: string)
    requires Ascii(s)
    ensures forall i :: 0 <= i < |Encode(s)| ==> !Continuation(Encode(s)[i])
  {
    if s != "" {
      EncodeCons(s);
      AsciiBytes(s[1..]);
    }
  }

  /** For ASCII text every way of cutting is between characters. */
  lemma AsciiCuts(s: string, chunks: seq<Bytes>)
    requires Ascii(s) && Flatten(chunks) == Encode(s)
    ensures CutBetweenChars(chunks)
  {
    AsciiBytes(s);
    forall i | 0 <= i < |chunks| && chunks[i] != [] ensures !Continuation(chunks[i][0]) {
      FlattenMember(chunks, i, 0);
    }
  }

  /** A two-byte character cut in half comes out as two replacement characters. */
  lemma CutInHalf()
    ensures var chunks := [[0xC3], [0xA9]];
      && Flatten(chunks) == Encode("\U{e9}") && !CutBetweenChars(chunks)
      && Decoded(chunks) == "\U{fffd}\U{fffd}"
  {
    var chunks: seq<Bytes> := [[0xC3], [0xA9]];
    EncodeCons("\U{e9}");
    assert "\U{e9}"[1..] == "" && Encode("") == [];
    assert chunks[1..] == [[0xA9]] && [[0xA9]][1..] == [];
    assert Continuation(chunks[1][0]);
    assert chunks[..1] == [[0xC3]] && chunks[..1][..0] == [];
    assert Lossy([0xC3]) == "\U{fffd}" && Lossy([0xA9]) == "\U{fffd}";
  }
}
