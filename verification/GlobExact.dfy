// Exactly which patterns mean the same to the stream's byte matcher and to the database's GLOB on
// every value, `?` included.
module GlobExact {
  import opened Utf8
  import opened Glob

  /** A pattern as literals and runs of wildcards: `q` question marks, and whether a star is among them. */
  datatype Tok<T> = Lit(s: seq<T>) | Run(q: nat, star: bool)

  predicate Fits<T(==)>(ts: seq<Tok<T>>, v: seq<T>) {
    if ts == [] then v == []
    else match ts[0]
      case Lit(s) => s <= v && Fits(ts[1..], v[|s|..])
      case Run(q, star) =>
        if star then exists k :: q <= k <= |v| && Fits(ts[1..], v[k..]) else q <= |v| && Fits(ts[1..], v[q..])
  }

  function Star<T>(ts: seq<Tok<T>>): seq<Tok<T>> {
    if ts != [] && ts[0].Run? then [Run(ts[0].q, true)] + ts[1..] else [Run(0, true)] + ts
  }

  function Any<T>(ts: seq<Tok<T>>): seq<Tok<T>> {
    if ts != [] && ts[0].Run? then [Run(ts[0].q + 1, ts[0].star)] + ts[1..] else [Run(1, false)] + ts
  }

  predicate Takes<T(==)>(t: Tok<T>, v: seq<T>) {
    match t case Lit(s) => v == s case Run(q, star) => if star then q <= |v| else |v| == q
  }

  lemma FitsFirst<T>(ts: seq<Tok<T>>, v: seq<T>) returns (n: nat)
    requires ts != [] && Fits(ts, v)
    ensures n <= |v| && Takes(ts[0], v[..n]) && Fits(ts[1..], v[n..])
  {
    match ts[0]
    case Lit(s) => n := |s|;
    case Run(q, star) =>
      n := q;
      if star { n :| q <= n <= |v| && Fits(ts[1..], v[n..]); }
  }

  lemma FitsCons<T>(ts: seq<Tok<T>>, v: seq<T>, n: nat)
    requires ts != [] && n <= |v| && Takes(ts[0], v[..n]) && Fits(ts[1..], v[n..])
    ensures Fits(ts, v)
  {
  }

  lemma StarFits<T>(ts: seq<Tok<T>>, v: seq<T>)
    ensures Fits(Star(ts), v) <==> exists k :: 0 <= k <= |v| && Fits(ts, v[k..])
  {
    if ts != [] && ts[0].Run? {
      assert Star(ts)[1..] == ts[1..];
      if k :| 0 <= k <= |v| && Fits(ts, v[k..]) { StarFitsRun(ts, v, k); }
      if Fits(Star(ts), v) { var k := RunFitsStar(ts, v); }
    } else {
      assert Star(ts)[1..] == ts;
    }
  }

  lemma StarFitsRun<T>(ts: seq<Tok<T>>, v: seq<T>, k: nat)
    requires ts != [] && ts[0].Run? && k <= |v| && Fits(ts, v[k..])
    ensures Fits(Star(ts), v)
  {
    hide Fits;
    var n := FitsFirst(ts, v[k..]);
    assert v[k..][n..] == v[k + n..] && Star(ts)[1..] == ts[1..];
    FitsCons(Star(ts), v, k + n);
  }

  lemma RunFitsStar<T>(ts: seq<Tok<T>>, v: seq<T>) returns (k: nat)
    requires ts != [] && ts[0].Run? && Fits(Star(ts), v)
    ensures k <= |v| && Fits(ts, v[k..])
  {
    hide Fits;
    assert Star(ts)[1..] == ts[1..];
    var n := FitsFirst(Star(ts), v);
    var q := ts[0].q;
    k := n - q;
    assert v[k..][q..] == v[n..];
    FitsCons(ts, v[k..], q);
  }

  lemma AnyFits<T>(ts: seq<Tok<T>>, v: seq<T>)
    ensures Fits(Any(ts), v) <==> v != [] && Fits(ts, v[1..])
  {
    if ts != [] && ts[0].Run? {
      var q, rest := ts[0].q, ts[1..];
      assert Any(ts)[1..] == rest;
      if v != [] {
        assert forall k :: 0 <= k <= |v| - 1 ==> v[1..][k..] == v[k + 1..];
        if ts[0].star && Fits(Any(ts), v) {
          var k :| q + 1 <= k <= |v| && Fits(rest, v[k..]);
          assert v[1..][k - 1..] == v[k..];
        }
        if ts[0].star && Fits(ts, v[1..]) {
          var k :| q <= k <= |v[1..]| && Fits(rest, v[1..][k..]);
          assert v[1..][k..] == v[k + 1..];
        }
      }
    } else {
      assert Any(ts)[1..] == ts;
    }
  }

  // ---- patterns as tokens ----------------------------------------------------------------------------

  function Toks(p: string): seq<Tok<char>> {
    if p == "" then []
    else if p[0] == '*' then Star(Toks(p[1..]))
    else if p[0] == '?' then Any(Toks(p[1..]))
    else [Lit([p[0]])] + Toks(p[1..])
  }

  /** The same tokens over bytes. */
  function Bytewise(ts: seq<Tok<char>>): (r: seq<Tok<int>>)
    ensures |r| == |ts|
    ensures forall i :: 0 <= i < |ts| ==>
              r[i] == match ts[i] case Lit(s) => Lit(Encode(s)) case Run(q, star) => Run(q, star)
  {
    seq(|ts|, i requires 0 <= i < |ts| => match ts[i] case Lit(s) => Lit(Encode(s)) case Run(q, star) => Run(q, star))
  }

  lemma {:induction false} CharGlobFits(p: string, v: string)
    ensures CharGlob(p, v) <==> Fits(Toks(p), v)
    decreases |p| + |v|
  {
    if p != "" {
      if p[0] == '*' {
        StarFits(Toks(p[1..]), v);
        CharGlobFits(p[1..], v);
        assert v[0..] == v;
        if v != "" {
          CharGlobFits(p, v[1..]);
          StarFits(Toks(p[1..]), v[1..]);
          assert forall k :: 0 <= k <= |v| - 1 ==> v[1..][k..] == v[k + 1..];
          if k :| 0 <= k <= |v| && Fits(Toks(p[1..]), v[k..]) {
            if k > 0 { assert v[1..][k - 1..] == v[k..]; }
          }
        }
      } else if p[0] == '?' {
        AnyFits(Toks(p[1..]), v);
        if v != "" { CharGlobFits(p[1..], v[1..]); }
      } else {
        assert ([Lit([p[0]])] + Toks(p[1..]))[1..] == Toks(p[1..]);
        if v != "" {
          CharGlobFits(p[1..], v[1..]);
          assert [p[0]] <= v <==> v[0] == p[0];
        }
      }
    }
  }

  lemma BytewiseStar(ts: seq<Tok<char>>)
    ensures Bytewise(Star(ts)) == Star(Bytewise(ts)) && Bytewise(Any(ts)) == Any(Bytewise(ts))
  {
    var r := Bytewise(ts);
    assert ts != [] ==> Bytewise(Star(ts))[1..] == Star(r)[1..];
  }

  lemma BytewiseCons(t: Tok<char>, ts: seq<Tok<char>>)
    ensures Bytewise([t] + ts) == Bytewise([t]) + Bytewise(ts) && Bytewise([t] + ts)[1..] == Bytewise(ts)
  {
    hide Encode, Bytewise;
    var all := [t] + ts;
    assert all[0] == t && forall i :: 1 <= i < |all| ==> all[i] == ts[i - 1];
    assert forall i :: 1 <= i < |all| ==> Bytewise(all)[i] == Bytewise(ts)[i - 1];
    assert Bytewise(all)[0] == Bytewise([t])[0];
  }

  lemma EncodeOne(c: char)
    ensures Encode([c]) == EncodeChar(c)
  {
    EncodeCons([c]);
    assert [c][1..] == "" && Encode("") == [];
  }

  lemma {:induction false} ByteGlobFits(p: string, b: Bytes)
    ensures GlobMatch(Encode(p), b) <==> Fits(Bytewise(Toks(p)), b)
    decreases |p| + |b|, 1
  {
    if p != "" {
      hide EncodeChar, Encode, GlobMatch, Fits;
      if p[0] == '*' {
        BytewiseStar(Toks(p[1..]));
        ByteStarFits(p, b);
      } else if p[0] == '?' {
        ByteAnyFits(p, b);
      } else {
        ByteLitFits(p, b);
      }
    }
  }

  lemma {:induction false} ByteAnyFits(p: string, b: Bytes)
    requires p != "" && p[0] == '?'
    ensures GlobMatch(Encode(p), b) <==> Fits(Bytewise(Toks(p)), b)
    decreases |p| + |b|, 0
  {
    hide EncodeChar, Encode, Fits;
    EncodeCons(p);
    EncodedChar(p[0]);
    BytewiseStar(Toks(p[1..]));
    assert Encode(p)[1..] == Encode(p[1..]);
    AnyFits(Bytewise(Toks(p[1..])), b);
    if b != [] { ByteGlobFits(p[1..], b[1..]); }
  }

  lemma {:induction false} ByteLitFits(p: string, b: Bytes)
    requires p != "" && p[0] != '*' && p[0] != '?'
    ensures GlobMatch(Encode(p), b) <==> Fits(Bytewise(Toks(p)), b)
    decreases |p| + |b|, 0
  {
    hide EncodeChar, Encode, GlobMatch;
    EncodeCons(p);
    EncodedChar(p[0]);
    var u, rest := EncodeChar(p[0]), Toks(p[1..]);
    LiteralRun(u, Encode(p[1..]), b);
    BytewiseCons(Lit([p[0]]), rest);
    EncodeOne(p[0]);
    assert Toks(p) == [Lit([p[0]])] + rest;
    hide Toks;
    if u <= b { ByteGlobFits(p[1..], b[|u|..]); }
  }

  lemma {:induction false} ByteStarFits(p: string, b: Bytes)
    requires p != "" && p[0] == '*'
    ensures GlobMatch(Encode(p), b) <==> Fits(Star(Bytewise(Toks(p[1..]))), b)
    decreases |p| + |b|, 0
  {
    hide EncodeChar;
    EncodeCons(p);
    EncodedChar('*');
    assert Encode(p)[1..] == Encode(p[1..]);
    var r := Bytewise(Toks(p[1..]));
    StarFits(r, b);
    ByteGlobFits(p[1..], b);
    assert b[0..] == b;
    if b != [] {
      ByteStarFits(p, b[1..]);
      StarFits(r, b[1..]);
      assert forall k :: 0 <= k <= |b| - 1 ==> b[1..][k..] == b[k + 1..];
      if k :| 0 <= k <= |b| && Fits(r, b[k..]) {
        if k > 0 { assert b[1..][k - 1..] == b[k..]; }
      }
    }
  }

  // ---- what tokens of a pattern look like --------------------------------------------------------------

  /** Single-character literals, no empty run, no two runs in a row. */
  predicate Canonical(ts: seq<Tok<char>>) {
    && (forall i :: 0 <= i < |ts| ==> match ts[i] case Lit(s) => |s| == 1 case Run(q, star) => q > 0 || star)
    && forall i :: 0 <= i < |ts| - 1 ==> !(ts[i].Run? && ts[i + 1].Run?)
  }

  lemma {:induction false} ToksCanonical(p: string)
    ensures Canonical(Toks(p))
  {
    if p != "" {
      ToksCanonical(p[1..]);
      var ts, all := Toks(p[1..]), Toks(p);
      if (p[0] == '*' || p[0] == '?') && ts != [] && ts[0].Run? {
        assert forall i :: 1 <= i < |all| ==> all[i] == ts[i];
      } else {
        assert forall i :: 1 <= i < |all| ==> all[i] == ts[i - 1];
      }
    }
  }

  lemma CanonicalTail(ts: seq<Tok<char>>)
    requires Canonical(ts) && ts != []
    ensures Canonical(ts[1..])
    ensures ts[0].Lit? ==> |ts[0].s| == 1
    ensures ts[0].Run? && ts[1..] != [] ==> ts[1..][0].Lit?
  {
    var r := ts[1..];
    assert forall i :: 0 <= i < |r| ==> r[i] == ts[i + 1];
  }

  /** A run of wildcards means the same in bytes and in characters: no `?` in it, or one `?` beside a
      `*`, which together ask for something rather than nothing. */
  predicate RunOk(t: Tok<char>) { t.Run? ==> t.q == 0 || (t.q == 1 && t.star) }

  /** Every longest run of wildcards in the pattern is of that kind. */
  predicate WildcardsOk(p: string) { forall i :: 0 <= i < |Toks(p)| ==> RunOk(Toks(p)[i]) }

  // ---- cutting an encoded string anywhere ---------------------------------------------------------------

  predicate Stray(k: Bytes) { forall i :: 0 <= i < |k| ==> Continuation(k[i]) }

  lemma CutAfterFirst(u: Bytes, w: Bytes, m: nat)
    requires |u| <= m <= |u + w|
    ensures (u + w)[m..] == w[m - |u|..]
  {
  }

  /** From byte `m` on: some bytes of a character already begun, then whole characters from `j` on. */
  lemma {:induction false} CutAnywhere(v: string, m: nat) returns (j: nat, k: Bytes)
    requires m <= |Encode(v)|
    ensures j <= |v| && Encode(v)[m..] == k + Encode(v[j..]) && Stray(k)
  {
    hide EncodeChar, Encode;
    if m == 0 {
      j, k := 0, [];
      assert v[0..] == v;
    } else {
      EncodeNothing();
      EncodeCons(v);
      EncodedChar(v[0]);
      var r := EncodeChar(v[0]);
      if m < |r| {
        j, k := 1, r[m..];
      } else {
        CutAfterFirst(r, Encode(v[1..]), m);
        j, k := CutAnywhere(v[1..], m - |r|);
        assert v[j + 1..] == v[1..][j..];
        j := j + 1;
      }
    }
  }

  lemma {:induction false} EncodeSplit(v: string, j: nat)
    requires j <= |v|
    ensures Encode(v) == Encode(v[..j]) + Encode(v[j..]) && |Encode(v[..j])| >= j
  {
    hide EncodeChar, Encode;
    EncodeNothing();
    if j == 0 {
      assert v[..0] == "" && v[0..] == v;
    } else {
      EncodeCons(v);
      EncodeCons(v[..j]);
      EncodeSplit(v[1..], j - 1);
      assert v[..j][1..] == v[1..][..j - 1] && v[j..] == v[1..][j - 1..];
    }
  }

  /** A literal can only match at the beginning of a character, and then it is that character. */
  lemma LitLands(c: char, k: Bytes, w: string)
    requires Stray(k) && EncodeChar(c) <= k + Encode(w)
    ensures k == [] && w != "" && w[0] == c && (k + Encode(w))[|EncodeChar(c)|..] == Encode(w[1..])
  {
    hide EncodeChar, Encode;
    EncodedChar(c);
    EncodeNothing();
    assert (k + Encode(w))[0] == EncodeChar(c)[0];
    assert k == [] && k + Encode(w) == Encode(w);
    EncodeCons(w);
    EncodePrefixFree(c, w[0], Encode(w[1..]));
  }

  lemma BytewiseTail(ts: seq<Tok<char>>)
    requires ts != []
    ensures Bytewise(ts)[1..] == Bytewise(ts[1..])
    ensures ts[0].Lit? && |ts[0].s| == 1 ==> Bytewise(ts)[0] == Lit(EncodeChar(ts[0].s[0]))
  {
    if ts[0].Lit? && |ts[0].s| == 1 {
      EncodeOne(ts[0].s[0]);
      assert ts[0].s == [ts[0].s[0]];
    }
  }

  // ---- when every run is of that kind, bytes and characters agree ----------------------------------------

  lemma StrayNeedsRun(ts: seq<Tok<char>>, k: Bytes, w: string)
    requires Stray(k) && Fits(Bytewise(ts), k + Encode(w)) && (ts != [] ==> ts[0].Lit? && |ts[0].s| == 1)
    ensures k == []
  {
    hide EncodeChar, Encode, Bytewise;
    if ts != [] {
      BytewiseTail(ts);
      LitLands(ts[0].s[0], k, w);
    }
  }

  lemma {:induction false} BytesFit(ts: seq<Tok<char>>, v: string)
    requires Canonical(ts) && forall i :: 0 <= i < |ts| ==> RunOk(ts[i])
    ensures Fits(Bytewise(ts), Encode(v)) <==> Fits(ts, v)
    decreases |ts|, 1
  {
    hide EncodeChar, Encode, Bytewise;
    EncodeNothing();
    if ts == [] {
      if Encode(v) == [] { EncodedNothing(v); }
    } else {
      BytewiseTail(ts);
      CanonicalTail(ts);
      if ts[0].Lit? {
        LitBytesFit(ts, v);
      } else {
        RunBytesFit(ts, v);
      }
    }
  }

  lemma {:induction false} LitBytesFit(ts: seq<Tok<char>>, v: string)
    requires Canonical(ts) && (forall i :: 0 <= i < |ts| ==> RunOk(ts[i])) && ts != [] && ts[0].Lit?
    ensures Fits(Bytewise(ts), Encode(v)) <==> Fits(ts, v)
    decreases |ts|, 0
  {
    hide EncodeChar, Encode, Bytewise;
    BytewiseTail(ts);
    CanonicalTail(ts);
    var c := ts[0].s[0];
    var u := EncodeChar(c);
    assert u <= Encode(v) ==> [] + Encode(v) == Encode(v);
    if u <= Encode(v) { LitLands(c, [], v); }
    if v != "" && v[0] == c {
      EncodeCons(v);
      assert Encode(v)[|u|..] == Encode(v[1..]);
      assert [c] <= v;
      BytesFit(ts[1..], v[1..]);
    }
  }

  lemma {:induction false} RunBytesFit(ts: seq<Tok<char>>, v: string)
    requires Canonical(ts) && (forall i :: 0 <= i < |ts| ==> RunOk(ts[i])) && ts != [] && ts[0].Run?
    ensures Fits(Bytewise(ts), Encode(v)) <==> Fits(ts, v)
    decreases |ts|, 0
  {
    hide EncodeChar, Encode, Bytewise;
    BytewiseTail(ts);
    CanonicalTail(ts);
    var q, rest := ts[0].q, ts[1..];
    assert ts[0].star && q <= 1;
    if Fits(Bytewise(ts), Encode(v)) {
      var m :| q <= m <= |Encode(v)| && Fits(Bytewise(rest), Encode(v)[m..]);
      var j := CutBeforeLiteral(rest, v, m);
      BytesFit(rest, v[j..]);
    }
    if Fits(ts, v) {
      var j :| q <= j <= |v| && Fits(rest, v[j..]);
      BytesFit(rest, v[j..]);
      var m := CutBetween(v, j);
    }
  }

  /** What follows a run begins at a character. */
  lemma CutBeforeLiteral(ts: seq<Tok<char>>, v: string, m: nat) returns (j: nat)
    requires ts != [] ==> ts[0].Lit? && |ts[0].s| == 1
    requires m <= |Encode(v)| && Fits(Bytewise(ts), Encode(v)[m..])
    ensures j <= |v| && Encode(v)[m..] == Encode(v[j..]) && m == |Encode(v[..j])| && (m > 0 ==> j > 0)
  {
    hide EncodeChar, Encode, Bytewise, Fits;
    var k: Bytes;
    j, k := CutAnywhere(v, m);
    StrayNeedsRun(ts, k, v[j..]);
    assert k + Encode(v[j..]) == Encode(v[j..]);
    EncodeSplit(v, j);
    EncodeNothing();
    assert j == 0 ==> v[..j] == "";
  }

  lemma CutBetween(v: string, j: nat) returns (m: nat)
    requires j <= |v|
    ensures j <= m <= |Encode(v)| && Encode(v)[m..] == Encode(v[j..])
  {
    hide EncodeChar, Encode;
    EncodeSplit(v, j);
    m := |Encode(v[..j])|;
  }

  // ---- a value on which they differ ------------------------------------------------------------------------

  function Repeat(x: char, n: nat): (r: string)
    ensures |r| == n && forall i :: 0 <= i < n ==> r[i] == x
  {
    seq(n, i => x)
  }

  /** How many characters a run is given: as many as it has `?`s or, if `less`, one fewer where that still
      makes enough bytes. */
  function Given(q: nat, less: bool): nat { if less && q >= 2 then q - 1 else q }

  /** The pattern with `x`s for its wildcards. */
  function Fill(ts: seq<Tok<char>>, x: char, less: bool): string {
    if ts == [] then ""
    else (match ts[0] case Lit(s) => s case Run(q, star) => Repeat(x, Given(q, less))) + Fill(ts[1..], x, less)
  }

  lemma {:induction false} FillAppend(a: seq<Tok<char>>, b: seq<Tok<char>>, x: char, less: bool)
    ensures Fill(a + b, x, less) == Fill(a, x, less) + Fill(b, x, less)
  {
    if a == [] {
      assert a + b == b;
    } else {
      assert (a + b)[1..] == a[1..] + b;
      FillAppend(a[1..], b, x, less);
    }
  }

  lemma {:induction false} FillFits(ts: seq<Tok<char>>, x: char)
    ensures Fits(ts, Fill(ts, x, false))
  {
    if ts != [] {
      FillFits(ts[1..], x);
      var v, rest := Fill(ts, x, false), Fill(ts[1..], x, false);
      assert v[|v| - |rest|..] == rest;
      if ts[0].Lit? { assert v == ts[0].s + rest; }
    }
  }

  lemma {:induction false} FitsNeedsLength(ts: seq<Tok<char>>, v: string, x: char)
    requires Fits(ts, v)
    ensures |v| >= |Fill(ts, x, false)|
  {
    if ts != [] {
      match ts[0]
      case Lit(s) => FitsNeedsLength(ts[1..], v[|s|..], x);
      case Run(q, star) =>
        var k :| q <= k <= |v| && Fits(ts[1..], v[k..]);
        FitsNeedsLength(ts[1..], v[k..], x);
    }
  }

  lemma {:induction false} EncodeAppend(s: string, t: string)
    ensures Encode(s + t) == Encode(s) + Encode(t)
  {
    EncodeSplit(s + t, |s|);
    assert (s + t)[..|s|] == s && (s + t)[|s|..] == t;
  }

  lemma {:induction false} RepeatBytes(x: char, n: nat)
    requires |EncodeChar(x)| == 2
    ensures |Encode(Repeat(x, n))| == 2 * n
  {
    hide EncodeChar, Encode;
    EncodeNothing();
    if n > 0 {
      var r := Repeat(x, n);
      assert r[1..] == Repeat(x, n - 1);
      EncodeCons(r);
      RepeatBytes(x, n - 1);
    } else {
      assert Repeat(x, 0) == "";
    }
  }

  // ---- a run of `*` and two or more `?` ----------------------------------------------------------------------

  /** Half as many two-byte characters are bytes enough for a run. */
  lemma {:induction false} LessFitsBytes(ts: seq<Tok<char>>, x: char)
    requires |EncodeChar(x)| == 2 && forall i :: 0 <= i < |ts| && ts[i].Run? ==> ts[i].star
    ensures Fits(Bytewise(ts), Encode(Fill(ts, x, true)))
  {
    hide EncodeChar, Encode, Bytewise;
    EncodeNothing();
    if ts != [] {
      LessFitsBytes(ts[1..], x);
      var v, rest := Fill(ts, x, true), Fill(ts[1..], x, true);
      var first := v[..|v| - |rest|];
      assert Bytewise(ts)[1..] == Bytewise(ts[1..]) by { BytewiseTail(ts); }
      assert v == first + rest;
      EncodeAppend(first, rest);
      assert Encode(v)[|Encode(first)|..] == Encode(rest);
      match ts[0]
      case Lit(s) => assert first == s;
      case Run(q, star) =>
        assert first == Repeat(x, Given(q, true));
        RepeatBytes(x, Given(q, true));
    }
  }

  lemma {:induction false} LessIsShorter(ts: seq<Tok<char>>, x: char, i: nat)
    requires i < |ts| && ts[i].Run? && ts[i].q >= 2
    ensures |Fill(ts, x, true)| < |Fill(ts, x, false)|
  {
    LessIsNotLonger(ts[1..], x);
    if i > 0 { LessIsShorter(ts[1..], x, i - 1); }
  }

  lemma {:induction false} LessIsNotLonger(ts: seq<Tok<char>>, x: char)
    ensures |Fill(ts, x, true)| <= |Fill(ts, x, false)|
  {
    if ts != [] { LessIsNotLonger(ts[1..], x); }
  }

  // ---- a run of `?` alone --------------------------------------------------------------------------------------

  function Others(v: string, x: char): nat {
    if v == "" then 0 else (if v[0] == x then 0 else 1) + Others(v[1..], x)
  }

  lemma {:induction false} OthersAppend(a: string, b: string, x: char)
    ensures Others(a + b, x) == Others(a, x) + Others(b, x)
  {
    if a == "" {
      assert a + b == b;
    } else {
      assert (a + b)[1..] == a[1..] + b;
      OthersAppend(a[1..], b, x);
    }
  }

  lemma {:induction false} OthersIn(v: string, x: char, i: nat)
    requires i < |v| && v[i] != x
    ensures Others(v, x) >= 1
  {
    if i > 0 { OthersIn(v[1..], x, i - 1); }
  }

  lemma {:induction false} OthersNone(x: char, n: nat)
    ensures Others(Repeat(x, n), x) == 0
  {
    if n > 0 {
      assert Repeat(x, n)[1..] == Repeat(x, n - 1);
      OthersNone(x, n - 1);
    }
  }

  /** Whatever fits in bytes holds the pattern's own characters other than `x`. */
  lemma {:induction false} FitsNeedsOthers(ts: seq<Tok<char>>, k: Bytes, w: string, x: char)
    requires Canonical(ts) && Stray(k) && Fits(Bytewise(ts), k + Encode(w))
    ensures Others(w, x) >= Others(Fill(ts, x, false), x)
  {
    hide EncodeChar, Encode, Bytewise;
    if ts != [] {
      BytewiseTail(ts);
      CanonicalTail(ts);
      var rest := Fill(ts[1..], x, false);
      match ts[0]
      case Lit(s) =>
        LitLands(s[0], k, w);
        assert [] + Encode(w[1..]) == Encode(w[1..]);
        FitsNeedsOthers(ts[1..], [], w[1..], x);
        assert Fill(ts, x, false)[1..] == rest;
      case Run(q, star) =>
        var m :| q <= m <= |k + Encode(w)| && Fits(Bytewise(ts[1..]), (k + Encode(w))[m..]);
        var j, k' := CutStray(k, w, m);
        FitsNeedsOthers(ts[1..], k', w[j..], x);
        assert w == w[..j] + w[j..];
        OthersAppend(w[..j], w[j..], x);
        OthersNone(x, q);
        OthersAppend(Repeat(x, q), rest, x);
    }
  }

  lemma CutStray(k: Bytes, w: string, m: nat) returns (j: nat, k': Bytes)
    requires Stray(k) && m <= |k + Encode(w)|
    ensures j <= |w| && Stray(k') && (k + Encode(w))[m..] == k' + Encode(w[j..])
  {
    hide EncodeChar, Encode;
    if m <= |k| {
      j, k' := 0, k[m..];
      assert w[0..] == w;
    } else {
      CutAfterFirst(k, Encode(w), m);
      j, k' := CutAnywhere(w, m - |k|);
    }
  }

  lemma {:induction false} FitsAppend<T>(a: seq<Tok<T>>, b: seq<Tok<T>>, v: seq<T>) returns (k: nat)
    requires Fits(a + b, v)
    ensures k <= |v| && Fits(a, v[..k]) && Fits(b, v[k..])
  {
    if a == [] {
      assert a + b == b && v[0..] == v;
      k := 0;
    } else {
      hide Fits, Takes;
      assert (a + b)[1..] == a[1..] + b;
      var n := FitsFirst(a + b, v);
      k := FitsAppend(a[1..], b, v[n..]);
      assert v[..n + k][..n] == v[..n] && v[..n + k][n..] == v[n..][..k] && v[n..][k..] == v[n + k..];
      FitsCons(a, v[..n + k], n);
      k := n + k;
    }
  }

  /** What a pattern that ends in a literal takes ends with that character. */
  lemma TakenByLeft(a: seq<Tok<char>>, c: char, v: string, m: nat) returns (i: nat)
    requires m <= |Encode(v)| && Fits(Bytewise(a + [Lit([c])]), Encode(v)[..m])
    ensures 0 < i <= |v| && v[i - 1] == c && m == |Encode(v[..i])|
  {
    hide EncodeChar, Encode, Bytewise;
    var l: seq<Tok<char>> := [Lit([c])];
    var b := Encode(v)[..m];
    assert Bytewise(a + l) == Bytewise(a) + Bytewise(l);
    var n := FitsAppend(Bytewise(a), Bytewise(l), b);
    BytewiseTail(l);
    var u := EncodeChar(c);
    assert Bytewise(l)[1..] == [] && u == b[n..];
    var j, k := CutAnywhere(v, n);
    assert u == Encode(v)[n..][..|u|];
    LitLands(c, k, v[j..]);
    i := j + 1;
    assert v[j..][1..] == v[i..];
    EncodeSplit(v, i);
  }

  /** Between two literals other than `x` (or the ends of the pattern) a run of `?` cannot take `x`s of two bytes:
      the literals hold every other character in its place. */
  lemma ExactRunDiffers(a: seq<Tok<char>>, q: nat, b: seq<Tok<char>>, x: char)
    requires Canonical(a) && Canonical(b) && q > 0 && |EncodeChar(x)| == 2
    requires a != [] ==> a[|a| - 1].Lit? && a[|a| - 1].s != [x]
    requires b != [] ==> b[0].Lit? && b[0].s != [x]
    ensures var ts := a + [Run(q, false)] + b; !Fits(Bytewise(ts), Encode(Fill(ts, x, false)))
  {
    hide EncodeChar, Encode, Bytewise, Fits, Fill, Others, Takes;
    var ts := a + [Run(q, false)] + b;
    var v := Fill(ts, x, false);
    if Fits(Bytewise(ts), Encode(v)) {
      var i, j := RunBetween(a, q, b, v);
      CutsForced(a, q, b, x, i, j);
      assert v[i..j] == Repeat(x, q);
      RepeatBytes(x, q);
      assert false;
    }
  }

  lemma BytewiseAppend(a: seq<Tok<char>>, b: seq<Tok<char>>)
    ensures Bytewise(a + b) == Bytewise(a) + Bytewise(b)
  {
  }

  /** If the bytes of `v` fit, the run takes whole characters, `v[i..j]`, between the characters beside it. */
  lemma RunBetween(a: seq<Tok<char>>, q: nat, b: seq<Tok<char>>, v: string) returns (i: nat, j: nat)
    requires Canonical(a) && Canonical(b)
    requires a != [] ==> a[|a| - 1].Lit?
    requires b != [] ==> b[0].Lit?
    requires Fits(Bytewise(a + [Run(q, false)] + b), Encode(v))
    ensures i <= j <= |v| && |Encode(v[i..j])| == q
    ensures Fits(Bytewise(a), Encode(v[..i])) && Fits(Bytewise(b), Encode(v[j..]))
    ensures if a == [] then i == 0 else i > 0 && a[|a| - 1].s == [v[i - 1]]
    ensures if b == [] then j == |v| else j < |v| && b[0].s == [v[j]]
  {
    hide EncodeChar, Encode, Bytewise, Fits;
    var run: seq<Tok<char>> := [Run(q, false)];
    var e := Encode(v);
    BytewiseAppend(a + run, b);
    BytewiseAppend(a, run);
    var n := FitsAppend(Bytewise(a + run), Bytewise(b), e);
    var m := FitsAppend(Bytewise(a), Bytewise(run), e[..n]);
    assert e[..n][..m] == e[..m];
    assert n - m == q by { RunTakes(q, e[..n][m..]); }
    i := CutOnLeft(a, v, m);
    j := CutOnRight(b, v, n);
    EncodeSplit(v, i);
    EncodeSplit(v, j);
    if j < i { MoreBytes(v, j, i); }
    assert v[..j] == v[..i] + v[i..j];
    EncodeAppend(v[..i], v[i..j]);
    assert e[..m] == Encode(v[..i]);
  }

  lemma MoreBytes(v: string, i: nat, j: nat)
    requires i < j <= |v|
    ensures |Encode(v[..i])| < |Encode(v[..j])|
  {
    hide EncodeChar, Encode;
    assert v[..j] == v[..i] + v[i..j] && v[i..j][..j - i] == v[i..j];
    EncodeAppend(v[..i], v[i..j]);
    EncodeSplit(v[i..j], j - i);
  }

  lemma RunTakes(q: nat, b: Bytes)
    requires Fits(Bytewise([Run(q, false)]), b)
    ensures |b| == q
  {
    var run: seq<Tok<char>> := [Run(q, false)];
    assert Bytewise(run)[1..] == [];
  }

  lemma CutOnLeft(a: seq<Tok<char>>, v: string, m: nat) returns (i: nat)
    requires Canonical(a) && (a != [] ==> a[|a| - 1].Lit?)
    requires m <= |Encode(v)| && Fits(Bytewise(a), Encode(v)[..m])
    ensures i <= |v| && m == |Encode(v[..i])|
    ensures if a == [] then i == 0 else i > 0 && a[|a| - 1].s == [v[i - 1]]
  {
    hide EncodeChar, Encode, Bytewise;
    if a == [] {
      i := 0;
      EncodeNothing();
      assert v[..0] == "" && Bytewise(a) == [];
    } else {
      var s := a[|a| - 1].s;
      assert s == [s[0]] && a == a[..|a| - 1] + [Lit([s[0]])];
      i := TakenByLeft(a[..|a| - 1], s[0], v, m);
    }
  }

  lemma CutOnRight(b: seq<Tok<char>>, v: string, n: nat) returns (j: nat)
    requires Canonical(b) && (b != [] ==> b[0].Lit?)
    requires n <= |Encode(v)| && Fits(Bytewise(b), Encode(v)[n..])
    ensures j <= |v| && n == |Encode(v[..j])| && Encode(v)[n..] == Encode(v[j..])
    ensures if b == [] then j == |v| else j < |v| && b[0].s == [v[j]]
  {
    hide EncodeChar, Encode, Bytewise;
    j := CutBeforeLiteral(b, v, n);
    if b == [] {
      EncodedNothing(v[j..]);
    } else {
      BytewiseTail(b);
      assert [] + Encode(v[j..]) == Encode(v[j..]);
      LitLands(b[0].s[0], [], v[j..]);
    }
  }

  /** Cutting the filled pattern so that both sides hold their literals is cutting it where it was put together. */
  lemma CutsForced(a: seq<Tok<char>>, q: nat, b: seq<Tok<char>>, x: char, i: nat, j: nat)
    requires Canonical(a) && Canonical(b)
    requires a != [] ==> a[|a| - 1].Lit? && a[|a| - 1].s != [x]
    requires b != [] ==> b[0].Lit? && b[0].s != [x]
    requires var v := Fill(a + [Run(q, false)] + b, x, false);
             && i <= j <= |v|
             && Fits(Bytewise(a), Encode(v[..i])) && Fits(Bytewise(b), Encode(v[j..]))
             && (if a == [] then i == 0 else i > 0 && a[|a| - 1].s == [v[i - 1]])
             && if b == [] then j == |v| else j < |v| && b[0].s == [v[j]]
    ensures i == |Fill(a, x, false)| && j == i + q
    ensures Fill(a + [Run(q, false)] + b, x, false)[i..j] == Repeat(x, q)
  {
    hide EncodeChar, Encode, Bytewise, Fits, Fill, Others;
    var v := Fill(a + [Run(q, false)] + b, x, false);
    var l, r, mid := Fill(a, x, false), Fill(b, x, false), Repeat(x, q);
    FillParts(a, q, b, x);
    assert v[..|l|] == l && v[|l| + q..] == r && v[|l|..|l| + q] == mid;
    assert [] + Encode(v[..i]) == Encode(v[..i]) && [] + Encode(v[j..]) == Encode(v[j..]);
    FitsNeedsOthers(a, [], v[..i], x);
    FitsNeedsOthers(b, [], v[j..], x);
    OthersOfParts(v, i, j, x);
    OthersOfParts(v, |l|, |l| + q, x);
    OthersNone(x, q);
    SameEnd(v, i, |l|, x);
    SameBegin(v, j, |l| + q, x);
  }

  lemma OthersOfParts(v: string, i: nat, j: nat, x: char)
    requires i <= j <= |v|
    ensures Others(v, x) == Others(v[..i], x) + Others(v[i..j], x) + Others(v[j..], x)
  {
    hide Others;
    assert v == v[..i] + v[i..j] + v[j..];
    OthersAppend(v[..i] + v[i..j], v[j..], x);
    OthersAppend(v[..i], v[i..j], x);
  }

  lemma FillParts(a: seq<Tok<char>>, q: nat, b: seq<Tok<char>>, x: char)
    requires Canonical(a) && Canonical(b)
    requires a != [] ==> a[|a| - 1].Lit?
    requires b != [] ==> b[0].Lit?
    ensures var l, r := Fill(a, x, false), Fill(b, x, false);
      && Fill(a + [Run(q, false)] + b, x, false) == l + Repeat(x, q) + r
      && (if a == [] then l == "" else l != "" && a[|a| - 1].s == [l[|l| - 1]])
      && if b == [] then r == "" else r != "" && b[0].s == [r[0]]
  {
    var run: seq<Tok<char>> := [Run(q, false)];
    FillAppend(a + run, b, x, false);
    FillAppend(a, run, x, false);
    FillRun(q, x);
    hide Fill;
    if a != [] { FillEnd(a, x); } else { FillNone(x); }
    if b != [] { FillBegin(b, x); } else { FillNone(x); }
  }

  lemma FillNone(x: char)
    ensures Fill([], x, false) == ""
  {
  }

  lemma FillRun(q: nat, x: char)
    ensures Fill([Run(q, false)], x, false) == Repeat(x, q)
  {
    var run: seq<Tok<char>> := [Run(q, false)];
    assert run[1..] == [];
  }

  lemma FillBegin(b: seq<Tok<char>>, x: char)
    requires Canonical(b) && b != [] && b[0].Lit?
    ensures var r := Fill(b, x, false); r != "" && b[0].s == [r[0]]
  {
  }

  lemma FillEnd(a: seq<Tok<char>>, x: char)
    requires Canonical(a) && a != [] && a[|a| - 1].Lit?
    ensures var l := Fill(a, x, false); l != "" && a[|a| - 1].s == [l[|l| - 1]]
  {
    var last := a[|a| - 1..];
    assert a == a[..|a| - 1] + last && last[1..] == [];
    FillAppend(a[..|a| - 1], last, x, false);
  }

  lemma OthersUpTo(v: string, i: nat, j: nat, x: char)
    requires i < j <= |v| && v[j - 1] != x
    ensures Others(v[..i], x) < Others(v[..j], x)
  {
    hide Others;
    assert v[..j] == v[..i] + v[i..j];
    OthersAppend(v[..i], v[i..j], x);
    OthersIn(v[i..j], x, j - i - 1);
  }

  lemma SameEnd(v: string, i: nat, j: nat, x: char)
    requires i <= |v| && j <= |v| && Others(v[..i], x) == Others(v[..j], x)
    requires (i > 0 ==> v[i - 1] != x) && (j > 0 ==> v[j - 1] != x)
    ensures i == j
  {
    hide Others;
    if i < j { OthersUpTo(v, i, j, x); } else if j < i { OthersUpTo(v, j, i, x); }
  }

  lemma OthersFrom(v: string, i: nat, j: nat, x: char)
    requires i < j <= |v| && v[i] != x
    ensures Others(v[i..], x) > Others(v[j..], x)
  {
    hide Others;
    assert v[i..] == v[i..j] + v[j..];
    OthersAppend(v[i..j], v[j..], x);
    OthersIn(v[i..j], x, 0);
  }

  lemma SameBegin(v: string, i: nat, j: nat, x: char)
    requires i <= |v| && j <= |v| && Others(v[i..], x) == Others(v[j..], x)
    requires (i < |v| ==> v[i] != x) && (j < |v| ==> v[j] != x)
    ensures i == j
  {
    hide Others;
    if i < j { OthersFrom(v, i, j, x); } else if j < i { OthersFrom(v, j, i, x); }
  }

  // ---- the exact condition ---------------------------------------------------------------------------------------

  lemma CanonicalAround(ts: seq<Tok<char>>, i: nat)
    requires Canonical(ts) && i < |ts| && ts[i].Run?
    ensures Canonical(ts[..i]) && Canonical(ts[i + 1..])
    ensures (i > 0 ==> ts[i - 1].Lit?) && (i + 1 < |ts| ==> ts[i + 1].Lit?)
  {
    var b := ts[i + 1..];
    assert forall k :: 0 <= k < |b| ==> b[k] == ts[i + 1 + k];
    if i > 0 { assert ts[i - 1 + 1].Run?; }
  }

  lemma ExactRunAt(ts: seq<Tok<char>>, i: nat, x: char)
    requires Canonical(ts) && i < |ts| && ts[i].Run? && !ts[i].star && |EncodeChar(x)| == 2
    requires (i > 0 ==> ts[i - 1] != Lit([x])) && (i + 1 < |ts| ==> ts[i + 1] != Lit([x]))
    ensures !Fits(Bytewise(ts), Encode(Fill(ts, x, false)))
  {
    hide Encode, EncodeChar, Bytewise, Fits, Fill;
    CanonicalAround(ts, i);
    var a, b := ts[..i], ts[i + 1..];
    assert ts == a + [Run(ts[i].q, false)] + b;
    assert ts[i].q > 0;
    hide Canonical;
    ExactRunDiffers(a, ts[i].q, b, x);
  }

  predicate LitsFree(ts: seq<Tok<char>>) { forall i :: 0 <= i < |ts| && ts[i].Lit? ==> NulFree(ts[i].s) }

  lemma {:induction false} ToksFree(p: string)
    requires NulFree(p)
    ensures LitsFree(Toks(p))
  {
    if p != "" {
      ToksFree(p[1..]);
      var ts, all := Toks(p[1..]), Toks(p);
      if (p[0] == '*' || p[0] == '?') && ts != [] && ts[0].Run? {
        assert forall i :: 1 <= i < |all| ==> all[i] == ts[i];
      } else {
        assert forall i :: 1 <= i < |all| ==> all[i] == ts[i - 1];
      }
    }
  }

  lemma {:induction false} FillFree(ts: seq<Tok<char>>, x: char, less: bool)
    requires LitsFree(ts) && x != '\0'
    ensures NulFree(Fill(ts, x, less))
  {
    if ts != [] { FillFree(ts[1..], x, less); }
  }

  /** A value on which bytes and characters differ. */
  lemma RunDiffers(p: string) returns (v: string)
    requires !WildcardsOk(p) && NulFree(p)
    ensures GlobMatch(Encode(p), Encode(v)) != CharGlob(p, v) && NulFree(v)
  {
    hide Encode, EncodeChar, Bytewise, Fits, Fill, CharGlob, GlobMatch, Toks, LitsFree, NulFree;
    var ts := Toks(p);
    ToksCanonical(p);
    ToksFree(p);
    if i :| 0 <= i < |ts| && ts[i].Run? && !ts[i].star {
      var x := Apart(ts, i);
      v := Fill(ts, x, false);
      FillFree(ts, x, false);
      ByteGlobFits(p, Encode(v));
      CharGlobFits(p, v);
      FillFits(ts, x);
      ExactRunAt(ts, i, x);
    } else {
      var i :| 0 <= i < |ts| && !RunOk(ts[i]);
      var x := '\U{e9}';
      assert |EncodeChar(x)| == 2 by { TwoBytes(x); }
      v := Fill(ts, x, true);
      FillFree(ts, x, true);
      ByteGlobFits(p, Encode(v));
      CharGlobFits(p, v);
      LessFitsBytes(ts, x);
      LessIsShorter(ts, x, i);
      if Fits(ts, v) { FitsNeedsLength(ts, v, x); }
    }
  }

  lemma TwoBytes(x: char)
    requires 0x80 <= x as int < 0x800
    ensures |EncodeChar(x)| == 2
  {
  }

  /** A two-byte character other than the literals beside the run at `i`. */
  lemma Apart(ts: seq<Tok<char>>, i: nat) returns (x: char)
    requires i < |ts|
    ensures |EncodeChar(x)| == 2 && x != '\0'
    ensures (i > 0 ==> ts[i - 1] != Lit([x])) && (i + 1 < |ts| ==> ts[i + 1] != Lit([x]))
  {
    var c, d, e := '\U{e8}', '\U{e9}', '\U{ea}';
    TwoBytes(c);
    TwoBytes(d);
    TwoBytes(e);
    assert [c][0] != [d][0] && [d][0] != [e][0] && [c][0] != [e][0];
    var near := (if i > 0 then {ts[i - 1]} else {}) + if i + 1 < |ts| then {ts[i + 1]} else {};
    x := if Lit([c]) !in near then c else if Lit([d]) !in near then d else e;
  }

  lemma RunsAgree(p: string, v: string)
    requires WildcardsOk(p)
    ensures GlobMatch(Encode(p), Encode(v)) <==> CharGlob(p, v)
  {
    hide Encode, EncodeChar, Bytewise, Fits, CharGlob, GlobMatch, Toks;
    ToksCanonical(p);
    ByteGlobFits(p, Encode(v));
    CharGlobFits(p, v);
    BytesFit(Toks(p), v);
  }

  lemma AgreeOn(p: string, v: string)
    requires '[' !in p && WildcardsOk(p) && NulFree(p) && NulFree(v)
    ensures GlobMatch(Encode(p), Encode(v)) <==> SqlGlob(p, v)
  {
    RunsAgree(p, v);
    NoSetsAgree(p, v);
    NoNuls(p, v);
  }

  lemma DifferOn(p: string) returns (v: string)
    requires ('[' in p || !WildcardsOk(p)) && NulFree(p)
    ensures NulFree(v) && GlobMatch(Encode(p), Encode(v)) != SqlGlob(p, v)
  {
    if '[' in p {
      v := SetDiffers(p);
    } else {
      v := RunDiffers(p);
      NoSetsAgree(p, v);
      NoNuls(p, v);
    }
  }

  /** Without U+0000 in either, the stream's byte matcher and the database's GLOB mean the same by a pattern
      on every value exactly when it has no `[` and every longest run of wildcards in it is stars only or
      one `?` with stars. */
  lemma AgreeEverywhereIff(p: string)
    requires NulFree(p)
    ensures (forall v | NulFree(v) :: GlobMatch(Encode(p), Encode(v)) <==> SqlGlob(p, v)) <==>
            '[' !in p && WildcardsOk(p)
  {
    if '[' !in p && WildcardsOk(p) {
      forall v | NulFree(v) ensures GlobMatch(Encode(p), Encode(v)) <==> SqlGlob(p, v) {
        AgreeOn(p, v);
      }
    } else {
      var v := DifferOn(p);
    }
  }
}
