// The two glob matchers on strings that may hold U+0000, where the database's comparison stops and the
// stream's goes on.
module GlobNul {
  import opened Utf8
  import opened Glob

  predicate Literal(s: string) { '*' !in s && '?' !in s && '[' !in s && NulFree(s) }

  predicate AllStars(s: string) { forall i :: 0 <= i < |s| ==> s[i] == '*' }

  /** Ordinary characters and then at least one `*`. */
  predicate LiteralThenStars(p: string) {
    exists i :: 0 <= i < |p| && Literal(p[..i]) && AllStars(p[i..])
  }

  // ---- a literal and stars ask for a prefix ------------------------------------------------------------

  lemma {:induction false} StarsTakeAll(p: string, v: string)
    requires p != "" && AllStars(p)
    ensures CharGlob(p, v)
    decreases |p| + |v|
  {
    if |p| > 1 {
      StarsTakeAll(p[1..], v);
    } else if v != "" {
      StarsTakeAll(p, v[1..]);
    }
  }

  lemma {:induction false} PrefixMatches(p: string, i: nat, v: string)
    requires i < |p| && Literal(p[..i]) && AllStars(p[i..])
    ensures CharGlob(p, v) <==> p[..i] <= v
    decreases i
  {
    if i == 0 {
      assert p[0..] == p;
      StarsTakeAll(p, v);
    } else {
      assert p[..i][0] == p[0] && p[1..][..i - 1] == p[..i][1..] && p[1..][i - 1..] == p[i..];
      assert p[0] in p[..i];
      if v != "" && v[0] == p[0] {
        PrefixMatches(p[1..], i - 1, v[1..]);
        assert p[..i] <= v <==> p[..i][1..] <= v[1..];
      }
    }
  }

  lemma {:induction false} PrefixBeforeNul(l: string, v: string)
    requires NulFree(l)
    ensures l <= v <==> l <= UntilNul(v)
  {
    if l != "" && v != "" && v[0] == l[0] {
      PrefixBeforeNul(l[1..], v[1..]);
      assert v[0] != '\0';
      assert l <= v <==> l[1..] <= v[1..];
      assert l <= UntilNul(v) <==> l[1..] <= UntilNul(v)[1..];
    }
  }

  lemma PrefixAgrees(p: string, v: string)
    requires LiteralThenStars(p)
    ensures GlobMatch(Encode(p), Encode(v)) <==> SqlGlob(p, v)
  {
    var i :| 0 <= i < |p| && Literal(p[..i]) && AllStars(p[i..]);
    assert p == p[..i] + p[i..];
    assert forall c :: c in p ==> c in p[..i] || c == '*';
    UntilNulKeeps(p);
    BytesAreChars(p, v);
    NoSetsAgree(p, UntilNul(v));
    PrefixMatches(p, i, v);
    PrefixMatches(p, i, UntilNul(v));
    PrefixBeforeNul(p[..i], v);
  }

  // ---- any other pattern is caught by a U+0000 ------------------------------------------------------------

  lemma {:induction false} NoStarsKeeps(p: string, c: char)
    requires c in p && c != '*'
    ensures c in NoStars(p)
  {
    if p[0] != c { NoStarsKeeps(p[1..], c); }
  }

  lemma {:induction false} NulShortens(v: string)
    ensures NulFree(UntilNul(v)) && (!NulFree(v) ==> |Encode(UntilNul(v))| < |Encode(v)|)
  {
    hide EncodeChar, Encode;
    if v != "" {
      EncodeCons(v);
      if v[0] == '\0' {
        EncodeNothing();
      } else {
        NulShortens(v[1..]);
        var u := UntilNul(v);
        assert u[1..] == UntilNul(v[1..]);
        EncodeCons(u);
      }
    }
  }

  /** A pattern that holds U+0000 itself. */
  lemma NulInPattern(p: string) returns (v: string)
    requires !NulFree(p)
    ensures GlobMatch(Encode(p), Encode(v)) != SqlGlob(p, v)
  {
    v := NoStars(p);
    NoStarsMatches(p);
    if SqlGlob(p, v) {
      NoStarsKeeps(p, '\0');
      NulShortens(v);
      var w := UntilNul(v);
      UntilNulKeeps(w);
      if GlobMatch(Encode(p), Encode(w)) { StreamNeedsBytes(p, Encode(w)); }
      v := w;
    }
  }

  lemma {:induction false} CharsNeedLength(p: string, v: string)
    requires CharGlob(p, v)
    ensures |v| >= |NoStars(p)|
    decreases |p| + |v|
  {
    if p != "" {
      if p[0] == '*' {
        if CharGlob(p[1..], v) { CharsNeedLength(p[1..], v); } else { CharsNeedLength(p, v[1..]); }
      } else {
        CharsNeedLength(p[1..], v[1..]);
      }
    }
  }

  lemma {:induction false} LiteralMatches(p: string, v: string)
    requires Literal(p)
    ensures CharGlob(p, v) <==> v == p
  {
    if p != "" {
      assert p[0] in p;
      if v != "" {
        LiteralMatches(p[1..], v[1..]);
        assert v == p <==> v[0] == p[0] && v[1..] == p[1..];
      }
    }
  }

  /** Where the first wildcard stands. */
  lemma {:induction false} FirstWildcard(p: string) returns (i: nat)
    requires '[' !in p && NulFree(p)
    ensures i <= |p| && Literal(p[..i]) && (i < |p| ==> p[i] == '*' || p[i] == '?')
  {
    if p == "" || p[0] == '*' || p[0] == '?' {
      i := 0;
    } else {
      i := FirstWildcard(p[1..]);
      assert p[..i + 1] == [p[0]] + p[1..][..i];
      i := i + 1;
    }
  }

  lemma {:induction false} AfterLiteral(l: string, q: string, w: string)
    requires Literal(l) && GlobMatch(Encode(q), Encode(w))
    ensures GlobMatch(Encode(l + q), Encode(l + w))
  {
    hide Encode, EncodeChar, GlobMatch;
    if l == "" {
      assert l + q == q && l + w == w;
    } else {
      assert l[0] in l;
      AfterLiteral(l[1..], q, w);
      assert (l + q)[1..] == l[1..] + q && (l + w)[1..] == l[1..] + w;
      AgreeOnLiteral(l + q, l + w);
    }
  }

  lemma WildcardTakesNul(q: string)
    requires q != "" && (q[0] == '*' || q[0] == '?')
    ensures GlobMatch(Encode(q), Encode("\0" + NoStars(q[1..])))
  {
    hide EncodeChar;
    var w := "\0" + NoStars(q[1..]);
    assert w[1..] == NoStars(q[1..]);
    NoStarsMatches(q[1..]);
    EncodeCons(q);
    EncodedChar(q[0]);
    EncodeCons(w);
    EncodedChar('\0');
    assert Encode(q)[1..] == Encode(q[1..]);
    assert Encode(w) == [0] + Encode(w[1..]) && Encode(w)[1..] == Encode(w[1..]);
    if q[0] == '*' { StarSkips(Encode(q), [0], Encode(w[1..])); }
  }

  lemma {:induction false} StopsAtNul(l: string, rest: string)
    requires NulFree(l)
    ensures UntilNul(l + "\0" + rest) == l
  {
    if l != "" {
      StopsAtNul(l[1..], rest);
      assert (l + "\0" + rest)[1..] == l[1..] + "\0" + rest;
    }
  }

  lemma {:induction false} NoStarsLength(l: string, q: string)
    requires Literal(l)
    ensures |NoStars(l + q)| == |l| + |NoStars(q)|
  {
    if l == "" {
      assert l + q == q;
    } else {
      assert l[0] in l;
      NoStarsLength(l[1..], q);
      assert (l + q)[1..] == l[1..] + q;
    }
  }

  lemma {:induction false} OnlyStars(q: string)
    requires NoStars(q) == ""
    ensures AllStars(q)
  {
    if q != "" {
      OnlyStars(q[1..]);
      assert forall i :: 1 <= i < |q| ==> q[i] == q[1..][i - 1];
    }
  }

  /** Ordinary characters alone: the value with a U+0000 after them passes GLOB only. */
  lemma LiteralDiffers(p: string) returns (v: string)
    requires Literal(p)
    ensures GlobMatch(Encode(p), Encode(v)) != SqlGlob(p, v)
  {
    v := p + "\0";
    assert v == p + "\0" + "";
    StopsAtNul(p, "");
    UntilNulKeeps(p);
    BytesAreChars(p, v);
    LiteralMatches(p, v);
    LiteralMatches(p, p);
    NoSetsAgree(p, p);
    assert |v| != |p|;
  }

  /** A wildcard with more to match from it on: with a U+0000 in its place the value passes the stream only. */
  lemma WildcardDiffers(p: string, i: nat) returns (v: string)
    requires '[' !in p && NulFree(p) && i < |p| && Literal(p[..i]) && (p[i] == '*' || p[i] == '?')
    requires !LiteralThenStars(p)
    ensures GlobMatch(Encode(p), Encode(v)) != SqlGlob(p, v)
  {
    hide GlobMatch, Encode, EncodeChar, GlobText, CharGlob;
    var l, q := p[..i], p[i..];
    assert p == l + q && q[1..] == p[i + 1..];
    v := l + ("\0" + NoStars(q[1..]));
    WildcardTakesNul(q);
    AfterLiteral(l, q, "\0" + NoStars(q[1..]));
    assert v == l + "\0" + NoStars(q[1..]);
    StopsAtNul(l, NoStars(q[1..]));
    UntilNulKeeps(p);
    NoSetsAgree(p, l);
    NoStarsLength(l, q);
    if NoStars(q) == "" { OnlyStars(q); }
    if CharGlob(p, l) { CharsNeedLength(p, l); }
  }

  /** For every pattern: on every value whatever, U+0000 in it or not, the two matchers agree exactly when the
      pattern is ordinary characters and then stars, at least one, that is, asks for a prefix. */
  lemma AgreeOnAllIff(p: string)
    ensures (forall v :: GlobMatch(Encode(p), Encode(v)) <==> SqlGlob(p, v)) <==> LiteralThenStars(p)
  {
    if LiteralThenStars(p) {
      forall v ensures GlobMatch(Encode(p), Encode(v)) <==> SqlGlob(p, v) {
        PrefixAgrees(p, v);
      }
    } else {
      var v := DifferSomewhere(p);
    }
  }

  lemma DifferSomewhere(p: string) returns (v: string)
    requires !LiteralThenStars(p)
    ensures GlobMatch(Encode(p), Encode(v)) != SqlGlob(p, v)
  {
    hide LiteralThenStars;
    if !NulFree(p) {
      v := NulInPattern(p);
    } else if '[' in p {
      v := SetDiffers(p);
    } else {
      var i := FirstWildcard(p);
      if i == |p| {
        assert p[..i] == p;
        v := LiteralDiffers(p);
      } else {
        v := WildcardDiffers(p, i);
      }
    }
  }
}
