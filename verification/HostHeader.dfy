// The Host header of a request: which line it is read from, what is cut off it, and when the bytes
// read so far fix it.
module HostHeader {
  import opened Wrappers
  import Utf8

  type Byte = int

  const CR: Byte := 13
  const LF: Byte := 10

  // ---- Parsing --------------------------------------------------------------------------------

  predicate ValidUtf8(b: seq<Byte>) {
    b == [] || (Utf8.Front(b).Whole? && ValidUtf8(b[Utf8.Front(b).n..]))
  }

  /** Position of the leftmost CRLF. */
  function FindCrlf(b: seq<Byte>): (r: Option<nat>)
    ensures r.Some? ==> r.value + 2 <= |b| && b[r.value] == CR && b[r.value + 1] == LF
    ensures forall j :: 0 <= j < |b| - 1 && (r.Some? ==> j < r.value) ==> !(b[j] == CR && b[j + 1] == LF)
  {
    if |b| < 2 then None
    else if b[0] == CR && b[1] == LF then Some(0)
    else match FindCrlf(b[1..]) case Some(i) => Some(i + 1) case None => None
  }

  predicate IsSpace(b: Byte) { 9 <= b <= 13 || b == 32 }

  predicate TwoByteSpace(a: Byte, b: Byte) { a == 0xC2 && (b == 0x85 || b == 0xA0) }

  predicate ThreeByteSpace(a: Byte, b: Byte, c: Byte) {
    || (a == 0xE1 && b == 0x9A && c == 0x80)
    || (a == 0xE2 && b == 0x80 && (0x80 <= c <= 0x8A || c == 0xA8 || c == 0xA9 || c == 0xAF))
    || (a == 0xE2 && b == 0x81 && c == 0x9F)
    || (a == 0xE3 && b == 0x80 && c == 0x80)
  }

  /** Length of the white-space character `b` starts with, 0 for none (property White_Space of the
      Unicode Character Database, encoded in UTF-8). */
  function SpaceAtStart(b: seq<Byte>): (n: nat)
    ensures n <= |b|
  {
    if b != [] && IsSpace(b[0]) then 1
    else if |b| >= 2 && TwoByteSpace(b[0], b[1]) then 2
    else if |b| >= 3 && ThreeByteSpace(b[0], b[1], b[2]) then 3
    else 0
  }

  /** Length of the white-space character `b` ends with, 0 for none. */
  function SpaceAtEnd(b: seq<Byte>): (n: nat)
    ensures n <= |b|
  {
    if b != [] && IsSpace(b[|b| - 1]) then 1
    else if |b| >= 2 && TwoByteSpace(b[|b| - 2], b[|b| - 1]) then 2
    else if |b| >= 3 && ThreeByteSpace(b[|b| - 3], b[|b| - 2], b[|b| - 1]) then 3
    else 0
  }

  function TrimStart(b: seq<Byte>): seq<Byte> {
    if SpaceAtStart(b) > 0 then TrimStart(b[SpaceAtStart(b)..]) else b
  }

  function TrimEnd(b: seq<Byte>): seq<Byte> {
    if SpaceAtEnd(b) > 0 then TrimEnd(b[..|b| - SpaceAtEnd(b)]) else b
  }

  function Trim(b: seq<Byte>): seq<Byte> {
    TrimEnd(TrimStart(b))
  }

  const HOST_TITLE: seq<Byte> := [0x48, 0x6F, 0x73, 0x74, 0x3A]
  const HOST_LOWER: seq<Byte> := [0x68, 0x6F, 0x73, 0x74, 0x3A]
  const HOST_UPPER: seq<Byte> := [0x48, 0x4F, 0x53, 0x54, 0x3A]

  predicate IsHostLine(line: seq<Byte>) {
    |line| >= 5 && (line[..5] == HOST_TITLE || line[..5] == HOST_LOWER || line[..5] == HOST_UPPER)
  }

  /** The loop over `split("\r\n")`: stop at an empty line, take the first Host line. */
  function ScanHost(b: seq<Byte>): Option<seq<Byte>>
    decreases |b|
  {
    match FindCrlf(b)
    case None => if IsHostLine(b) then Some(Trim(b[5..])) else None
    case Some(i) =>
      if i == 0 then None
      else if IsHostLine(b[..i]) then Some(Trim(b[..i][5..]))
      else ScanHost(b[i + 2..])
  }

  function ParseHostHeader(b: seq<Byte>): Option<seq<Byte>> {
    if ValidUtf8(b) then ScanHost(b) else None
  }

  /** The line `ScanHost` takes the host from ends in CRLF. */
  predicate HostLineTerminated(b: seq<Byte>)
    decreases |b|
  {
    match FindCrlf(b)
    case None => false
    case Some(i) => i > 0 && (IsHostLine(b[..i]) || HostLineTerminated(b[i + 2..]))
  }

  predicate BlankLineAt(b: seq<Byte>, i: int) {
    0 <= i && i + 4 <= |b| && b[i] == CR && b[i + 1] == LF && b[i + 2] == CR && b[i + 3] == LF
  }

  predicate HasDoubleCrlf(b: seq<Byte>) {
    exists i :: 0 <= i < |b| && BlankLineAt(b, i)
  }

  // ---- When is the host final? ------------------------------------------------------------------

  lemma {:induction false} CrlfExtends(b: seq<Byte>, e: seq<Byte>)
    requires FindCrlf(b).Some?
    ensures FindCrlf(b + e) == FindCrlf(b)
  {
    if !(b[0] == CR && b[1] == LF) {
      CrlfExtends(b[1..], e);
      assert (b + e)[1..] == b[1..] + e;
    }
  }

  /** Once the Host line is terminated, nothing that follows changes the host. */
  lemma {:induction false} TerminatedHostIsFinal(b: seq<Byte>, e: seq<Byte>)
    requires HostLineTerminated(b)
    ensures ScanHost(b).Some? && ScanHost(b + e) == ScanHost(b)
    decreases |b|
  {
    CrlfExtends(b, e);
    var i := FindCrlf(b).value;
    assert (b + e)[..i] == b[..i] && (b + e)[i + 2..] == b[i + 2..] + e;
    if !IsHostLine(b[..i]) {
      TerminatedHostIsFinal(b[i + 2..], e);
    }
  }

  /** An ASCII character that is not white space. */
  predicate Plain(x: Byte) { 0 <= x < 0x80 && !IsSpace(x) }

  lemma TrimEndPlain(b: seq<Byte>, x: Byte)
    requires Plain(x)
    ensures TrimEnd(b + [x]) == b + [x]
  {
    assert (b + [x])[|b|] == x;
  }

  lemma {:induction false} TrimStartSnoc(b: seq<Byte>, x: Byte)
    requires Plain(x)
    ensures TrimStart(b + [x]) == TrimStart(b) + [x]
  {
    var n := SpaceAtStart(b);
    assert SpaceAtStart(b + [x]) == n;
    if n > 0 {
      assert (b + [x])[n..] == b[n..] + [x];
      TrimStartSnoc(b[n..], x);
    }
  }

  lemma {:induction false} TrimEndShortens(b: seq<Byte>)
    ensures |TrimEnd(b)| <= |b|
  {
    if SpaceAtEnd(b) > 0 {
      TrimEndShortens(b[..|b| - SpaceAtEnd(b)]);
    }
  }

  /** A letter after an unterminated host line always changes the host. */
  lemma TrimGrows(b: seq<Byte>, x: Byte)
    requires Plain(x)
    ensures Trim(b + [x]) != Trim(b)
  {
    TrimStartSnoc(b, x);
    TrimEndPlain(TrimStart(b), x);
    TrimEndShortens(TrimStart(b));
  }

  lemma {:induction false} NoCrlfSnoc(b: seq<Byte>, x: Byte)
    requires FindCrlf(b).None? && x != LF
    ensures FindCrlf(b + [x]).None?
  {
    assert forall j :: 0 <= j < |b| ==> (b + [x])[j] == b[j];
  }

  lemma ScanLast(b: seq<Byte>)
    requires FindCrlf(b).None?
    ensures ScanHost(b) == (if IsHostLine(b) then Some(Trim(b[5..])) else None) && !HostLineTerminated(b)
  {
    hide FindCrlf, IsHostLine, Trim;
  }

  lemma ScanNext(b: seq<Byte>, i: nat)
    requires FindCrlf(b) == Some(i)
    ensures i + 2 <= |b| && i <= |b|
    ensures i > 0 && !IsHostLine(b[..i]) ==>
              ScanHost(b) == ScanHost(b[i + 2..]) && HostLineTerminated(b) == HostLineTerminated(b[i + 2..])
    ensures i == 0 ==> ScanHost(b).None?
    ensures i > 0 && IsHostLine(b[..i]) ==> HostLineTerminated(b)
  {
    hide FindCrlf, IsHostLine, Trim;
  }

  lemma {:induction false} OpenHostGrows(b: seq<Byte>, x: Byte)
    requires ScanHost(b).Some? && !HostLineTerminated(b) && Plain(x)
    ensures ScanHost(b + [x]) != ScanHost(b)
    decreases |b|
  {
    hide ScanHost, HostLineTerminated, FindCrlf, Trim;
    match FindCrlf(b) {
      case None =>
        NoCrlfSnoc(b, x);
        ScanLast(b);
        ScanLast(b + [x]);
        assert (b + [x])[..5] == b[..5] && (b + [x])[5..] == b[5..] + [x];
        TrimGrows(b[5..], x);
      case Some(i) =>
        CrlfExtends(b, [x]);
        ScanNext(b, i);
        ScanNext(b + [x], i);
        assert (b + [x])[..i] == b[..i] && (b + [x])[i + 2..] == b[i + 2..] + [x];
        OpenHostGrows(b[i + 2..], x);
    }
  }

  lemma FrontSnoc(b: seq<Byte>, x: Byte)
    requires b != [] && Utf8.Front(b).Whole?
    ensures Utf8.Front(b + [x]) == Utf8.Front(b)
  {
    var n := Utf8.Front(b).n;
    assert forall i :: 0 <= i < n ==> (b + [x])[i] == b[i];
  }

  lemma {:induction false} Utf8Snoc(b: seq<Byte>, x: Byte)
    requires ValidUtf8(b) && 0 <= x < 0x80
    ensures ValidUtf8(b + [x])
    decreases |b|
  {
    if b != [] {
      var n := Utf8.Front(b).n;
      Utf8Snoc(b[n..], x);
      FrontSnoc(b, x);
      assert (b + [x])[n..] == b[n..] + [x];
    } else {
      assert b + [x] == [x] && [x][1..] == [];
    }
  }

  /** With the encoding check of the parser: once the Host line is terminated, more bytes either give
      the same host or, if they break the encoding, none. */
  lemma ParsedHostIsFinal(b: seq<Byte>, e: seq<Byte>)
    requires HostLineTerminated(b) && ValidUtf8(b)
    ensures ParseHostHeader(b).Some?
    ensures ParseHostHeader(b + e) == if ValidUtf8(b + e) then ParseHostHeader(b) else None
  {
    TerminatedHostIsFinal(b, e);
  }

  /** The host parsed from the bytes so far is final, whatever follows, exactly when its line is
      already terminated. The router does not wait for that. */
  lemma HostIsFinalIff(b: seq<Byte>)
    requires ParseHostHeader(b).Some?
    ensures (forall e :: ValidUtf8(b + e) ==> ParseHostHeader(b + e) == ParseHostHeader(b))
       <==> HostLineTerminated(b)
  {
    if HostLineTerminated(b) {
      forall e | ValidUtf8(b + e) ensures ParseHostHeader(b + e) == ParseHostHeader(b) {
        TerminatedHostIsFinal(b, e);
      }
    } else {
      var x: Byte := 0x78;
      OpenHostGrows(b, x);
      Utf8Snoc(b, x);
    }
  }

  /** Two ways of cutting one stream that both stop after a terminated Host line scan the same host, and so
      the parser gives the same answer for both exactly when its encoding check does. */
  lemma CutsAgree(stream: seq<Byte>, a: seq<Byte>, b: seq<Byte>)
    requires a <= stream && b <= stream
    requires HostLineTerminated(a) && HostLineTerminated(b)
    ensures ScanHost(a) == ScanHost(b)
    ensures ParseHostHeader(a) == ParseHostHeader(b) <==> (ValidUtf8(a) <==> ValidUtf8(b))
  {
    assert stream == a + stream[|a|..] && stream == b + stream[|b|..];
    TerminatedHostIsFinal(a, stream[|a|..]);
    TerminatedHostIsFinal(b, stream[|b|..]);
  }

  lemma TrimSpaceA()
    ensures Trim([32, 0x61]) == [0x61]
  {
    var b: seq<Byte> := [32, 0x61];
    assert SpaceAtStart(b) == 1 && b[1..] == [0x61];
    assert TrimStart([0x61]) == [0x61] && TrimEnd([0x61]) == [0x61];
  }

  lemma SeenHasNoCrlf()
    ensures FindCrlf(HOST_TITLE + [32, 0x61]).None?
  {
    assert forall j :: 0 <= j < 7 ==> (HOST_TITLE + [32, 0x61])[j] != CR;
  }

  /** "Host: a" read first and "b" later gives host "a", not "ab". */
  lemma CutInsideHostValue()
    ensures var seen := HOST_TITLE + [32, 0x61];
      ParseHostHeader(seen) == Some([0x61]) && ParseHostHeader(seen + [0x62]) != Some([0x61])
  {
    hide FindCrlf, Trim, ScanHost, HostLineTerminated;
    var seen := HOST_TITLE + [32, 0x61];
    SeenHasNoCrlf();
    TrimSpaceA();
    ScanLast(seen);
    assert seen[..5] == HOST_TITLE && seen[5..] == [32, 0x61];
    AsciiIsUtf8(seen);
    OpenHostGrows(seen, 0x62);
    Utf8Snoc(seen, 0x62);
  }

  lemma {:induction false} AsciiIsUtf8(b: seq<Byte>)
    requires forall i :: 0 <= i < |b| ==> 0 <= b[i] < 0x80
    ensures ValidUtf8(b)
  {
    if b != [] {
      AsciiIsUtf8(b[1..]);
    }
  }

  // ---- What the host of some bytes is, in its own terms ---------------------------------------------------

  predicate CrlfAt(b: seq<Byte>, j: int) { 0 <= j && j + 2 <= |b| && b[j] == 13 && b[j + 1] == 10 }

  /** A blank line, whose line before it has ended. */
  predicate BlankLine(b: seq<Byte>, i: int) { CrlfAt(b, i) && CrlfAt(b, i + 2) }

  predicate BeginsLine(b: seq<Byte>, i: int) { i == 0 || CrlfAt(b, i - 2) }

  predicate EndsLine(b: seq<Byte>, j: int) { j == |b| || CrlfAt(b, j) }

  predicate Unbroken(b: seq<Byte>, i: int, j: int) { forall k :: i <= k < j ==> !CrlfAt(b, k) }

  /** `b[i..j]` is one of the pieces between line breaks. */
  predicate LineIs(b: seq<Byte>, i: int, j: int) {
    0 <= i <= j <= |b| && BeginsLine(b, i) && EndsLine(b, j) && Unbroken(b, i, j)
  }

  /** The line begins with `Host:`, `host:` or `HOST:`. */
  predicate NamesHost(line: seq<Byte>) {
    || [72, 111, 115, 116, 58] <= line
    || [104, 111, 115, 116, 58] <= line
    || [72, 79, 83, 84, 58] <= line
  }

  /** The first line that names the host, with no empty line before it. */
  ghost predicate HostLine(b: seq<Byte>, i: int, j: int) {
    && LineIs(b, i, j) && NamesHost(b[i..j])
    && forall k, l :: LineIs(b, k, l) && l < i ==> k < l && !NamesHost(b[k..l])
  }

  /** The encoding of nothing but white space. */
  ghost predicate Blank(b: seq<Byte>) {
    exists s :: (forall i :: 0 <= i < |s| ==> Utf8.IsWhite(s[i])) && Utf8.Encode(s) == b
  }

  ghost predicate BeginsWhite(b: seq<Byte>) { exists c :: Utf8.IsWhite(c) && Utf8.EncodeChar(c) <= b }

  predicate EndsWith(b: seq<Byte>, e: seq<Byte>) { |e| <= |b| && b[|b| - |e|..] == e }

  ghost predicate EndsWhite(b: seq<Byte>) { exists c :: Utf8.IsWhite(c) && EndsWith(b, Utf8.EncodeChar(c)) }

  /** `h` is `v` without the white space at both ends. */
  ghost predicate Stripped(v: seq<Byte>, h: seq<Byte>) {
    && (exists u, w :: Blank(u) && Blank(w) && v == u + h + w)
    && !BeginsWhite(h) && !EndsWhite(h)
  }

  /** The bytes are text, and `h` is what its first Host line names. */
  ghost predicate FindsHost(b: seq<Byte>, h: seq<Byte>) {
    && (exists s :: Utf8.Encode(s) == b)
    && exists i, j :: HostLine(b, i, j) && Stripped(b[i..j][5..], h)
  }

  // ---- the encoding check ----

  lemma {:induction false} ValidIsEncoded(b: seq<Byte>) returns (s: string)
    requires ValidUtf8(b)
    ensures Utf8.Encode(s) == b
  {
    hide Utf8.EncodeChar, Utf8.DecodeChar;
    if b == [] {
      s := "";
    } else {
      var n := Utf8.Front(b).n;
      Utf8.WholeIsEncoded(b);
      var rest := ValidIsEncoded(b[n..]);
      s := [Utf8.DecodeChar(b[..n]) as char] + rest;
      Utf8.EncodeCons(s);
      assert s[1..] == rest && b == b[..n] + b[n..];
    }
  }

  lemma {:induction false} EncodedIsValid(s: string)
    ensures ValidUtf8(Utf8.Encode(s))
  {
    hide Utf8.EncodeChar, Utf8.DecodeChar, Utf8.Front;
    if s != "" {
      EncodedIsValid(s[1..]);
      Utf8.EncodeCons(s);
      var r, rest := Utf8.EncodeChar(s[0]), Utf8.Encode(s[1..]);
      Utf8.FrontOfEncoded(s[0], rest);
      assert (r + rest)[|r|..] == rest;
    } else {
      Utf8.EncodeNothing();
    }
  }

  // ---- white space ----

  lemma SpaceIsWhite(b: seq<Byte>) returns (c: char)
    requires SpaceAtStart(b) > 0
    ensures Utf8.IsWhite(c) && Utf8.EncodeChar(c) == b[..SpaceAtStart(b)]
  {
    if IsSpace(b[0]) {
      c := b[0] as char;
    } else if |b| >= 2 && TwoByteSpace(b[0], b[1]) {
      c := if b[1] == 0x85 then '\U{85}' else '\U{A0}';
    } else if b[0] == 0xE1 {
      c := '\U{1680}';
    } else if b[0] == 0xE3 {
      c := '\U{3000}';
    } else if b[1] == 0x81 {
      c := '\U{205F}';
    } else {
      c := (0x2000 + b[2] - 0x80) as char;
    }
  }

  lemma WhiteIsSpace(c: char, rest: seq<Byte>)
    requires Utf8.IsWhite(c)
    ensures SpaceAtStart(Utf8.EncodeChar(c) + rest) == |Utf8.EncodeChar(c)|
  {
    var r := Utf8.EncodeChar(c);
    assert (r + rest)[0] == r[0] && (|r| >= 2 ==> (r + rest)[1] == r[1]) && (|r| >= 3 ==> (r + rest)[2] == r[2]);
  }

  lemma EndIsWhite(b: seq<Byte>) returns (c: char)
    requires SpaceAtEnd(b) > 0
    ensures Utf8.IsWhite(c) && EndsWith(b, Utf8.EncodeChar(c)) && |Utf8.EncodeChar(c)| == SpaceAtEnd(b)
  {
    var n := SpaceAtEnd(b);
    var e := b[|b| - n..];
    assert SpaceAtStart(e) == n;
    c := SpaceIsWhite(e);
    assert e[..n] == e;
  }

  lemma WhiteIsEnd(c: char, front: seq<Byte>)
    requires Utf8.IsWhite(c)
    ensures SpaceAtEnd(front + Utf8.EncodeChar(c)) == |Utf8.EncodeChar(c)|
  {
    var r := Utf8.EncodeChar(c);
    var b := front + r;
    assert b[|b| - 1] == r[|r| - 1] && (|r| >= 2 ==> b[|b| - 2] == r[|r| - 2]) && (|r| >= 3 ==> b[|b| - 3] == r[|r| - 3]);
  }

  lemma BlankNone()
    ensures Blank([])
  {
    Utf8.EncodeNothing();
  }

  lemma BlankCons(c: char, u: seq<Byte>)
    requires Utf8.IsWhite(c) && Blank(u)
    ensures Blank(Utf8.EncodeChar(c) + u)
  {
    hide Utf8.EncodeChar, Utf8.IsWhite;
    var s :| (forall i :: 0 <= i < |s| ==> Utf8.IsWhite(s[i])) && Utf8.Encode(s) == u;
    var t := [c] + s;
    Utf8.EncodeCons(t);
    assert t[1..] == s;
  }

  lemma {:induction false} BlankSnoc(u: seq<Byte>, c: char)
    requires Utf8.IsWhite(c) && Blank(u)
    ensures Blank(u + Utf8.EncodeChar(c))
  {
    hide Utf8.EncodeChar, Utf8.IsWhite;
    var s :| (forall i :: 0 <= i < |s| ==> Utf8.IsWhite(s[i])) && Utf8.Encode(s) == u;
    EncodeSnoc(s, c);
    assert forall i :: 0 <= i < |s + [c]| ==> Utf8.IsWhite((s + [c])[i]);
  }

  lemma {:induction false} EncodeSnoc(s: string, c: char)
    ensures Utf8.Encode(s + [c]) == Utf8.Encode(s) + Utf8.EncodeChar(c)
  {
    hide Utf8.EncodeChar;
    Utf8.EncodeCons(s + [c]);
    Utf8.EncodeNothing();
    if s == "" {
      assert (s + [c])[1..] == "";
    } else {
      EncodeSnoc(s[1..], c);
      Utf8.EncodeCons(s);
      assert (s + [c])[1..] == s[1..] + [c];
    }
  }

  /** What trimming takes off is white space, and it takes all of it. */
  lemma {:induction false} TrimStartStrips(v: seq<Byte>) returns (u: seq<Byte>)
    ensures Blank(u) && v == u + TrimStart(v) && SpaceAtStart(TrimStart(v)) == 0
    decreases |v|
  {
    hide Utf8.EncodeChar, Utf8.IsWhite, Blank, SpaceAtStart;
    var n := SpaceAtStart(v);
    if n > 0 {
      var c := SpaceIsWhite(v);
      u := TrimStartStrips(v[n..]);
      BlankCons(c, u);
      u := v[..n] + u;
    } else {
      BlankNone();
      u := [];
    }
  }

  lemma {:induction false} TrimEndStrips(v: seq<Byte>) returns (w: seq<Byte>)
    ensures Blank(w) && v == TrimEnd(v) + w && SpaceAtEnd(TrimEnd(v)) == 0
    decreases |v|
  {
    hide Utf8.EncodeChar, Utf8.IsWhite, Blank, SpaceAtEnd;
    var n := SpaceAtEnd(v);
    if n > 0 {
      var c := EndIsWhite(v);
      var front := v[..|v| - n];
      w := TrimEndStrips(front);
      BlankSnoc(w, c);
      assert v == front + v[|v| - n..];
      w := w + v[|v| - n..];
    } else {
      BlankNone();
      w := [];
    }
  }

  /** A value that begins with no white space still begins with none after its end is trimmed. */
  lemma {:induction false} TrimEndKeepsStart(v: seq<Byte>)
    requires SpaceAtStart(v) == 0
    ensures SpaceAtStart(TrimEnd(v)) == 0
    decreases |v|
  {
    if SpaceAtEnd(v) > 0 {
      var front := v[..|v| - SpaceAtEnd(v)];
      assert SpaceAtStart(front) == 0;
      TrimEndKeepsStart(front);
    }
  }

  lemma BeginsIsSpace(h: seq<Byte>)
    requires BeginsWhite(h)
    ensures SpaceAtStart(h) > 0
  {
    hide Utf8.EncodeChar, Utf8.IsWhite, SpaceAtStart;
    var c :| Utf8.IsWhite(c) && Utf8.EncodeChar(c) <= h;
    var r := Utf8.EncodeChar(c);
    WhiteIsSpace(c, h[|r|..]);
    assert r + h[|r|..] == h;
  }

  lemma EndsIsSpace(h: seq<Byte>)
    requires EndsWhite(h)
    ensures SpaceAtEnd(h) > 0
  {
    hide Utf8.EncodeChar, Utf8.IsWhite, SpaceAtEnd;
    var c :| Utf8.IsWhite(c) && EndsWith(h, Utf8.EncodeChar(c));
    var r := Utf8.EncodeChar(c);
    WhiteIsEnd(c, h[..|h| - |r|]);
    assert h[..|h| - |r|] + r == h;
  }

  lemma NoSpaceIsNotWhite(h: seq<Byte>)
    requires SpaceAtStart(h) == 0 && SpaceAtEnd(h) == 0
    ensures !BeginsWhite(h) && !EndsWhite(h)
  {
    hide SpaceAtStart, SpaceAtEnd, BeginsWhite, EndsWhite;
    if BeginsWhite(h) { BeginsIsSpace(h); }
    if EndsWhite(h) { EndsIsSpace(h); }
  }

  lemma TrimStrips(v: seq<Byte>)
    ensures Stripped(v, Trim(v))
  {
    hide Blank, TrimStart, TrimEnd, SpaceAtStart, SpaceAtEnd, BeginsWhite, EndsWhite;
    var u := TrimStartStrips(v);
    var m := TrimStart(v);
    var w := TrimEndStrips(m);
    TrimEndKeepsStart(m);
    NoSpaceIsNotWhite(Trim(v));
    assert v == u + Trim(v) + w;
  }

  // ---- only one value is left after stripping ----

  lemma {:induction false} TrimStartBlank(s: string, x: seq<Byte>)
    requires forall i :: 0 <= i < |s| ==> Utf8.IsWhite(s[i])
    ensures TrimStart(Utf8.Encode(s) + x) == TrimStart(x)
  {
    hide Utf8.EncodeChar, Utf8.IsWhite, SpaceAtStart;
    if s == "" {
      Utf8.EncodeNothing();
      assert Utf8.Encode(s) + x == x;
    } else {
      Utf8.EncodeCons(s);
      var r, rest := Utf8.EncodeChar(s[0]), Utf8.Encode(s[1..]);
      assert Utf8.Encode(s) + x == r + (rest + x);
      WhiteIsSpace(s[0], rest + x);
      assert (r + (rest + x))[|r|..] == rest + x;
      TrimStartBlank(s[1..], x);
    }
  }

  lemma {:induction false} TrimEndBlank(x: seq<Byte>, s: string)
    requires forall i :: 0 <= i < |s| ==> Utf8.IsWhite(s[i])
    ensures TrimEnd(x + Utf8.Encode(s)) == TrimEnd(x)
    decreases |s|
  {
    hide Utf8.EncodeChar, Utf8.IsWhite, SpaceAtEnd;
    if s == "" {
      Utf8.EncodeNothing();
      assert x + Utf8.Encode(s) == x;
    } else {
      var front, c := s[..|s| - 1], s[|s| - 1];
      assert s == front + [c];
      EncodeSnoc(front, c);
      var r, y := Utf8.EncodeChar(c), x + Utf8.Encode(front);
      assert x + Utf8.Encode(s) == y + r;
      WhiteIsEnd(c, y);
      assert (y + r)[..|y|] == y;
      TrimEndBlank(x, front);
    }
  }

  /** A blank tail does not begin white space in what comes before it. */
  lemma StartsInFront(h: seq<Byte>, s: string)
    requires h != [] && SpaceAtStart(h) == 0
    ensures SpaceAtStart(h + Utf8.Encode(s)) == 0
  {
    var w := Utf8.Encode(s);
    if s != "" {
      Utf8.EncodeCons(s);
      Utf8.EncodedChar(s[0]);
      assert !Utf8.Continuation(w[0]);
    } else {
      Utf8.EncodeNothing();
      assert h + w == h;
    }
    hide Utf8.EncodeChar, Utf8.Encode;
    assert forall i :: 0 <= i < |h| ==> (h + w)[i] == h[i];
    assert |h + w| > |h| ==> (h + w)[|h|] == w[0];
  }

  lemma NotWhiteIsNoSpace(h: seq<Byte>)
    requires !BeginsWhite(h) && !EndsWhite(h)
    ensures SpaceAtStart(h) == 0 && SpaceAtEnd(h) == 0
  {
    hide Utf8.EncodeChar, Utf8.IsWhite, SpaceAtStart, SpaceAtEnd;
    if SpaceAtStart(h) > 0 { var c := SpaceIsWhite(h); }
    if SpaceAtEnd(h) > 0 { var c := EndIsWhite(h); }
  }

  lemma StrippedIsTrim(v: seq<Byte>, h: seq<Byte>)
    requires Stripped(v, h)
    ensures h == Trim(v)
  {
    hide Utf8.EncodeChar, Utf8.Encode, Utf8.IsWhite, SpaceAtStart, SpaceAtEnd, TrimStart, TrimEnd;
    var u, w :| Blank(u) && Blank(w) && v == u + h + w;
    var s :| (forall i :: 0 <= i < |s| ==> Utf8.IsWhite(s[i])) && Utf8.Encode(s) == u;
    var t :| (forall i :: 0 <= i < |t| ==> Utf8.IsWhite(t[i])) && Utf8.Encode(t) == w;
    NotWhiteIsNoSpace(h);
    assert v == u + (h + w);
    TrimStartBlank(s, h + w);
    NoSpaceStays(h);
    if h == [] {
      assert h + w == w && w == w + [];
      TrimStartBlank(t, []);
    } else {
      StartsInFront(h, t);
      NoSpaceAtStart(h + w);
      TrimEndBlank(h, t);
    }
  }

  lemma NoSpaceAtStart(b: seq<Byte>)
    requires SpaceAtStart(b) == 0
    ensures TrimStart(b) == b
  {
  }

  lemma NoSpaceStays(h: seq<Byte>)
    requires SpaceAtStart(h) == 0 && SpaceAtEnd(h) == 0
    ensures TrimStart(h) == h && TrimEnd(h) == h && TrimStart([]) == [] && TrimEnd([]) == []
  {
  }

  // ---- lines ----

  lemma FirstCrlf(b: seq<Byte>)
    ensures match FindCrlf(b)
      case None => forall k :: !CrlfAt(b, k)
      case Some(e) => CrlfAt(b, e) && forall k :: k < e ==> !CrlfAt(b, k)
  {
  }

  lemma CrlfShift(b: seq<Byte>, o: nat, k: int)
    requires 2 <= o <= |b| && CrlfAt(b, o - 2)
    ensures k >= 0 ==> (CrlfAt(b[o..], k) <==> CrlfAt(b, k + o))
    ensures !CrlfAt(b, o - 1) && !CrlfAt(b[o..], -1)
  {
  }

  lemma UnbrokenShift(b: seq<Byte>, o: nat, i: int, j: int)
    requires 2 <= o <= |b| && CrlfAt(b, o - 2) && 0 <= i
    ensures Unbroken(b[o..], i, j) <==> Unbroken(b, i + o, j + o)
  {
    hide CrlfAt;
    var t := b[o..];
    if Unbroken(b, i + o, j + o) {
      forall k | i <= k < j ensures !CrlfAt(t, k) {
        CrlfShift(b, o, k);
        assert i + o <= k + o < j + o;
      }
    }
    if Unbroken(t, i, j) {
      forall k | i + o <= k < j + o ensures !CrlfAt(b, k) {
        CrlfShift(b, o, k - o);
        assert i <= k - o < j;
      }
    }
  }

  lemma BeginsShift(b: seq<Byte>, o: nat, i: int)
    requires 2 <= o <= |b| && CrlfAt(b, o - 2) && 0 <= i
    ensures BeginsLine(b[o..], i) <==> BeginsLine(b, i + o)
  {
    CrlfShift(b, o, i - 2);
  }

  lemma EndsShift(b: seq<Byte>, o: nat, j: int)
    requires 2 <= o <= |b| && CrlfAt(b, o - 2) && 0 <= j
    ensures EndsLine(b[o..], j) <==> EndsLine(b, j + o)
  {
    CrlfShift(b, o, j);
    hide CrlfAt;
  }

  /** Lines after a line break, seen from there. */
  lemma LineShift(b: seq<Byte>, o: nat, i: int, j: int)
    requires 2 <= o <= |b| && CrlfAt(b, o - 2)
    ensures LineIs(b[o..], i, j) <==> i >= 0 && LineIs(b, i + o, j + o)
    ensures 0 <= i <= j <= |b| - o ==> b[o..][i..j] == b[i + o..j + o]
  {
    hide CrlfAt, BeginsLine, EndsLine, Unbroken;
    if 0 <= i <= j {
      UnbrokenShift(b, o, i, j);
      BeginsShift(b, o, i);
      EndsShift(b, o, j);
    }
  }

  lemma PrefixOfFive(p: seq<Byte>, line: seq<Byte>)
    requires |p| == 5
    ensures p <= line <==> |line| >= 5 && line[..5] == p
  {
  }

  lemma NamesHostIff(line: seq<Byte>)
    ensures NamesHost(line) <==> IsHostLine(line)
  {
    PrefixOfFive([72, 111, 115, 116, 58], line);
    PrefixOfFive([104, 111, 115, 116, 58], line);
    PrefixOfFive([72, 79, 83, 84, 58], line);
  }

  /** One turn of the loop over the lines, in terms of line breaks. */
  lemma ScanStep(b: seq<Byte>)
    ensures match FindCrlf(b)
      case None => (forall k :: !CrlfAt(b, k)) && ScanHost(b) == if NamesHost(b) then Some(Trim(b[5..])) else None
      case Some(e) =>
        && e + 2 <= |b| && CrlfAt(b, e) && (forall k :: k < e ==> !CrlfAt(b, k))
        && ScanHost(b) ==
           if e == 0 then None else if NamesHost(b[..e]) then Some(Trim(b[..e][5..])) else ScanHost(b[e + 2..])
    ensures NamesHost(b) ==> |b| >= 5
  {
    hide Trim, FindCrlf, IsHostLine;
    FirstCrlf(b);
    NamesHostIff(b);
    NamesAtLeastFive(b);
    match FindCrlf(b)
    case None =>
    case Some(e) =>
      NamesHostIff(b[..e]);
      NamesAtLeastFive(b[..e]);
  }

  lemma NamesAtLeastFive(line: seq<Byte>)
    ensures NamesHost(line) ==> |line| >= 5
  {
  }

  lemma OnlyLine(b: seq<Byte>)
    requires forall k :: !CrlfAt(b, k)
    ensures NamesHost(b) ==> HostLine(b, 0, |b|)
    ensures forall i, j :: HostLine(b, i, j) ==> i == 0 && j == |b| && NamesHost(b)
  {
    hide NamesHost;
    assert b[0..|b|] == b;
  }

  lemma FirstLine(b: seq<Byte>, e: nat)
    requires e + 2 <= |b| && CrlfAt(b, e) && forall k :: k < e ==> !CrlfAt(b, k)
    ensures LineIs(b, 0, e) && b[0..e] == b[..e]
    ensures NamesHost(b[..e]) ==> HostLine(b, 0, e)
    ensures forall i, j :: HostLine(b, i, j) ==>
              if i == 0 then j == e && NamesHost(b[..e]) else i >= e + 2 && 0 < e && !NamesHost(b[..e])
  {
    hide NamesHost;
    assert LineIs(b, 0, e) && b[0..e] == b[..e];
    forall i, j | HostLine(b, i, j)
      ensures if i == 0 then j == e && NamesHost(b[..e]) else i >= e + 2 && 0 < e && !NamesHost(b[..e])
    {
      if i == 0 { LineEnd(b, 0, e, j); } else { assert CrlfAt(b, i - 2) && e < i; }
    }
  }

  /** A line has one end. */
  lemma LineEnd(b: seq<Byte>, i: int, j: int, l: int)
    requires LineIs(b, i, j) && LineIs(b, i, l)
    ensures j == l
  {
    assert j < l ==> CrlfAt(b, j);
    assert l < j ==> CrlfAt(b, l);
  }

  /** The loop over the lines takes its host from the first Host line before any empty one. */
  lemma {:induction false} ScanFinds(b: seq<Byte>) returns (i: int, j: int)
    requires ScanHost(b).Some?
    ensures HostLine(b, i, j) && ScanHost(b) == Some(HostValue(b, i, j))
    decreases |b|
  {
    ScanStep(b);
    hide Trim, FindCrlf, IsHostLine, ScanHost, HostLine, NamesHost, LineIs;
    match FindCrlf(b)
    case None =>
      OnlyLine(b);
      i, j := 0, |b|;
      ValueOf(b, 0, |b|);
      assert b[0..|b|] == b;
    case Some(e) =>
      FirstLine(b, e);
      if NamesHost(b[..e]) {
        i, j := 0, e;
        ValueOf(b, 0, e);
      } else {
        i, j := ScanFinds(b[e + 2..]);
        ValueOf(b[e + 2..], i, j);
        HostLineShift(b, e, i, j);
        ValueOf(b, i + e + 2, j + e + 2);
        SliceShift(b, e + 2, i + e + 2, j + e + 2);
        i, j := i + e + 2, j + e + 2;
      }
  }

  lemma {:induction false} FindsScan(b: seq<Byte>, i: int, j: int)
    requires HostLine(b, i, j)
    ensures ScanHost(b) == Some(HostValue(b, i, j))
    decreases |b|
  {
    ScanStep(b);
    hide Trim, FindCrlf, IsHostLine, ScanHost, HostLine, NamesHost, LineIs;
    ValueOf(b, i, j);
    match FindCrlf(b)
    case None =>
      OnlyLine(b);
      assert b[0..|b|] == b;
    case Some(e) =>
      FirstLine(b, e);
      if i > 0 {
        var o := e + 2;
        HostLineShift(b, e, i - o, j - o);
        FindsScan(b[o..], i - o, j - o);
        ValueOf(b[o..], i - o, j - o);
        SliceShift(b, o, i, j);
      }
  }

  /** The value on a Host line. */
  ghost function HostValue(b: seq<Byte>, i: int, j: int): seq<Byte>
    requires HostLine(b, i, j)
  {
    Trim(b[i..j][5..])
  }

  lemma ValueOf(b: seq<Byte>, i: int, j: int)
    requires HostLine(b, i, j)
    ensures 0 <= i <= j <= |b| && j - i >= 5 && HostValue(b, i, j) == Trim(b[i..j][5..])
  {
  }

  lemma HostLineShift(b: seq<Byte>, e: nat, i: int, j: int)
    requires 0 < e && e + 2 <= |b| && CrlfAt(b, e) && (forall k :: k < e ==> !CrlfAt(b, k)) && !NamesHost(b[..e])
    ensures i >= 0 ==> (HostLine(b[e + 2..], i, j) <==> HostLine(b, i + e + 2, j + e + 2))
    ensures HostLine(b[e + 2..], i, j) ==> i >= 0
  {
    hide CrlfAt, LineIs, NamesHost, HostLine;
    HostLineBounds(b[e + 2..], i, j);
    if HostLine(b[e + 2..], i, j) { HostLineLater(b, e, i, j); }
    if i >= 0 && HostLine(b, i + e + 2, j + e + 2) { HostLineEarlier(b, e, i, j); }
  }

  lemma HostLineBounds(b: seq<Byte>, i: int, j: int)
    ensures HostLine(b, i, j) ==> 0 <= i <= j <= |b|
  {
    hide CrlfAt, NamesHost;
  }

  lemma HostLineLater(b: seq<Byte>, e: nat, i: int, j: int)
    requires 0 < e && e + 2 <= |b| && CrlfAt(b, e) && (forall k :: k < e ==> !CrlfAt(b, k)) && !NamesHost(b[..e])
    requires HostLine(b[e + 2..], i, j)
    ensures HostLine(b, i + e + 2, j + e + 2)
  {
    hide CrlfAt, LineIs, NamesHost;
    HostLineIsLine(b[e + 2..], i, j);
    LineShift(b, e + 2, i, j);
    LineBounds(b, i + e + 2, j + e + 2);
    forall k, l | LineIs(b, k, l) && l < i + e + 2 ensures k < l && 0 <= k && l <= |b| && !NamesHost(b[k..l]) {
      LineBounds(b, k, l);
      LineBefore(b, e, i, j, k, l);
    }
  }

  lemma LineBounds(b: seq<Byte>, k: int, l: int)
    requires LineIs(b, k, l)
    ensures 0 <= k <= l <= |b|
  {
  }

  lemma HostLineIsLine(b: seq<Byte>, i: int, j: int)
    requires HostLine(b, i, j)
    ensures LineIs(b, i, j) && 0 <= i <= j <= |b| && NamesHost(b[i..j])
  {
    hide CrlfAt, NamesHost;
  }

  /** No line before a Host line found past the first line break is empty or names the host. */
  lemma LineBefore(b: seq<Byte>, e: nat, i: int, j: int, k: int, l: int)
    requires 0 < e && e + 2 <= |b| && CrlfAt(b, e) && (forall k :: k < e ==> !CrlfAt(b, k)) && !NamesHost(b[..e])
    requires HostLine(b[e + 2..], i, j) && LineIs(b, k, l) && l < i + e + 2
    ensures 0 <= k < l <= |b| && !NamesHost(b[k..l])
  {
    FirstIsLine(b, e);
    LineStart(b, e, k, l);
    LineBounds(b, k, l);
    hide CrlfAt, NamesHost, LineIs, HostLine;
    if k == 0 {
      LineEnd(b, 0, e, l);
    } else {
      LineShift(b, e + 2, k - e - 2, l - e - 2);
      EarlierLine(b[e + 2..], i, j, k - e - 2, l - e - 2);
    }
  }

  lemma FirstIsLine(b: seq<Byte>, e: nat)
    requires e + 2 <= |b| && CrlfAt(b, e) && forall k :: k < e ==> !CrlfAt(b, k)
    ensures LineIs(b, 0, e) && b[0..e] == b[..e]
  {
  }

  lemma EarlierLine(b: seq<Byte>, i: int, j: int, k: int, l: int)
    requires HostLine(b, i, j) && LineIs(b, k, l) && l < i
    ensures 0 <= k < l <= |b| && !NamesHost(b[k..l])
  {
    hide NamesHost, CrlfAt, BeginsLine, EndsLine, Unbroken;
  }

  lemma SliceShift(b: seq<Byte>, o: nat, i: int, j: int)
    requires o <= i <= j <= |b|
    ensures b[o..][i - o..j - o] == b[i..j]
  {
  }

  lemma LineStart(b: seq<Byte>, e: nat, k: int, l: int)
    requires e + 2 <= |b| && CrlfAt(b, e) && (forall m :: m < e ==> !CrlfAt(b, m)) && LineIs(b, k, l)
    ensures k == 0 || k >= e + 2
  {
    hide CrlfAt;
    if k > 0 { assert CrlfAt(b, k - 2); }
  }

  lemma HostLineEarlier(b: seq<Byte>, e: nat, i: int, j: int)
    requires 0 < e && e + 2 <= |b| && CrlfAt(b, e) && i >= 0 && HostLine(b, i + e + 2, j + e + 2)
    ensures HostLine(b[e + 2..], i, j)
  {
    hide CrlfAt, NamesHost;
    var o, t := e + 2, b[e + 2..];
    LineShift(b, o, i, j);
    forall k, l | LineIs(t, k, l) && l < i ensures k < l && !NamesHost(t[k..l]) {
      LineShift(b, o, k, l);
      assert LineIs(b, k + o, l + o);
    }
  }

  /** For any bytes: the parser answers with exactly the host the text names. */
  lemma ParsedHostIff(b: seq<Byte>, h: seq<Byte>)
    ensures ParseHostHeader(b) == Some(h) <==> FindsHost(b, h)
  {
    hide ValidUtf8, ScanHost, Trim, Stripped, Utf8.Encode;
    if ParseHostHeader(b) == Some(h) {
      var s := ValidIsEncoded(b);
      var i, j := ScanFinds(b);
      ValueOf(b, i, j);
      TrimStrips(b[i..j][5..]);
    }
    if FindsHost(b, h) {
      var s :| Utf8.Encode(s) == b;
      EncodedIsValid(s);
      var i, j :| HostLine(b, i, j) && Stripped(b[i..j][5..], h);
      FindsScan(b, i, j);
      StrippedIsTrim(b[i..j][5..], h);
    }
  }
}
