// Splitting a string at a separator and joining it again.
module Chunks {

  function Split(s: string, c: char): (r: seq<string>)
    ensures |r| >= 1
  {
    if s == "" then [""]
    else
      var r := Split(s[1..], c);
      if s[0] == c then [""] + r else [[s[0]] + r[0]] + r[1..]
  }

  function Join(parts: seq<string>, c: char): string
    requires parts != []
  {
    if |parts| == 1 then parts[0] else parts[0] + [c] + Join(parts[1..], c)
  }

  function Replace(s: string, a: char, b: char): (r: string)
    ensures |r| == |s| && forall i :: 0 <= i < |s| ==> r[i] == if s[i] == a then b else s[i]
  {
    seq(|s|, i requires 0 <= i < |s| => if s[i] == a then b else s[i])
  }

  predicate Lacks(parts: seq<string>, c: char) {
    forall p :: p in parts ==> c !in p
  }

  lemma {:induction false} SplitLacks(s: string, c: char)
    ensures Lacks(Split(s, c), c)
    ensures forall p, d :: p in Split(s, c) && d in p ==> d in s
  {
    if s != "" {
      SplitLacks(s[1..], c);
      var r := Split(s[1..], c);
      assert r == [r[0]] + r[1..];
      forall p, d | p in Split(s, c) && d in p ensures d in s && d != c {
        assert p == "" || p == [s[0]] + r[0] || p in r;
      }
    }
  }

  lemma JoinCons(p: string, parts: seq<string>, c: char)
    requires parts != []
    ensures Join([p] + parts, c) == p + [c] + Join(parts, c)
  {
    assert ([p] + parts)[1..] == parts;
  }

  lemma {:induction false} JoinSplit(s: string, c: char)
    ensures Join(Split(s, c), c) == s
  {
    if s != "" {
      var r := Split(s[1..], c);
      JoinSplit(s[1..], c);
      if s[0] == c {
        JoinCons("", r, c);
        assert s == [c] + s[1..];
      } else {
        var head := [s[0]] + r[0];
        assert s == [s[0]] + s[1..];
        if |r| == 1 {
          assert r[1..] == [];
        } else {
          JoinCons(head, r[1..], c);
          assert r == [r[0]] + r[1..];
          JoinCons(r[0], r[1..], c);
          assert head + [c] + Join(r[1..], c) == [s[0]] + (r[0] + [c] + Join(r[1..], c));
        }
      }
    }
  }

  lemma {:induction false} SplitAt(p: string, rest: string, c: char)
    requires c !in p
    ensures Split(p + [c] + rest, c) == [p] + Split(rest, c)
  {
    var s := p + [c] + rest;
    if p == "" {
      assert s == [c] + rest && s[1..] == rest;
    } else {
      SplitAt(p[1..], rest, c);
      assert s[1..] == p[1..] + [c] + rest;
      assert [p[0]] + p[1..] == p;
      assert ([p[1..]] + Split(rest, c))[1..] == Split(rest, c);
    }
  }

  lemma {:induction false} SplitWhole(p: string, c: char)
    requires c !in p
    ensures Split(p, c) == [p]
  {
    if p != "" {
      SplitWhole(p[1..], c);
      assert [p[0]] + p[1..] == p;
    }
  }

  lemma {:induction false} SplitJoin(parts: seq<string>, c: char)
    requires parts != [] && Lacks(parts, c)
    ensures Split(Join(parts, c), c) == parts
  {
    if |parts| == 1 {
      SplitWhole(parts[0], c);
    } else {
      SplitJoin(parts[1..], c);
      SplitAt(parts[0], Join(parts[1..], c), c);
      assert parts == [parts[0]] + parts[1..];
    }
  }

  /** Replacing a separator by another joins the same parts with the other. */
  lemma {:induction false} ReplaceJoins(parts: seq<string>, a: char, b: char)
    requires parts != [] && Lacks(parts, a)
    ensures Replace(Join(parts, a), a, b) == Join(parts, b)
  {
    if |parts| > 1 {
      var tail := Join(parts[1..], a);
      ReplaceJoins(parts[1..], a, b);
      ReplaceConcat(parts[0], [a] + tail, a, b);
      ReplaceConcat([a], tail, a, b);
      ReplaceNone(parts[0], a, b);
      assert parts[0] + [a] + tail == parts[0] + ([a] + tail);
      assert Replace([a], a, b) == [b];
      assert parts[0] + ([b] + Join(parts[1..], b)) == parts[0] + [b] + Join(parts[1..], b);
    } else {
      ReplaceNone(parts[0], a, b);
    }
  }

  lemma ReplaceConcat(s: string, t: string, a: char, b: char)
    ensures Replace(s + t, a, b) == Replace(s, a, b) + Replace(t, a, b)
  {
  }

  lemma ReplaceNone(s: string, a: char, b: char)
    requires a !in s
    ensures Replace(s, a, b) == s
  {
  }

  /** A string is unchanged by a replacement exactly when the character is absent. */
  lemma ReplaceSameIff(s: string, a: char, b: char)
    requires a != b
    ensures Replace(s, a, b) == s <==> a !in s
  {
    if a in s {
      var i :| 0 <= i < |s| && s[i] == a;
      assert Replace(s, a, b)[i] == b;
    }
  }
}
