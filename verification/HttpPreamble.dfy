// The HTTP host router: read from the socket until a Host header can be parsed out of the bytes so
// far, then forward those bytes into the bridge ahead of everything read later.
module HttpPreamble {
  import opened Wrappers
  import Bridge
  import opened HostHeader

  const HEADER_LIMIT: nat := 8 * 1024
  const READ_BUF: nat := 8 * 1024

  // ---- What one read is answered with -----------------------------------------------------------

  /** What one read is answered with, given everything read so far; `None` is to read on. */
  function AnswerTo(b: seq<Byte>): Option<Verdict> {
    match ParseHostHeader(b)
    case Some(host) => Some(Route(host))
    case None => if HasDoubleCrlf(b) then Some(MissingHost) else None
  }

  /** With a terminated Host line in hand a connection is routed exactly when everything read so far is
      UTF-8, body included, and refused for want of a host exactly when it is not and the headers are over. */
  lemma TerminatedHostRoutedIff(b: seq<Byte>)
    requires HostLineTerminated(b)
    ensures ScanHost(b).Some?
    ensures AnswerTo(b) == Some(Route(ScanHost(b).value)) <==> ValidUtf8(b)
    ensures AnswerTo(b) == Some(MissingHost) <==> !ValidUtf8(b) && HasDoubleCrlf(b)
  {
    hide FindCrlf, Trim, IsHostLine, ValidUtf8, HasDoubleCrlf, ScanHost, HostLineTerminated;
    assert b + [] == b;
    TerminatedHostIsFinal(b, []);
  }

  const SMALL_REQUEST: seq<Byte> := HOST_TITLE + [0x61, CR, LF, CR, LF]

  lemma SmallRequestEnds(e: seq<Byte>)
    ensures HasDoubleCrlf(SMALL_REQUEST + e)
  {
    assert BlankLineAt(SMALL_REQUEST + e, 6);
  }

  lemma SmallRequestHasHost()
    ensures HostLineTerminated(SMALL_REQUEST) && ScanHost(SMALL_REQUEST) == Some([0x61])
  {
    hide Trim, ValidUtf8;
    var b := SMALL_REQUEST;
    assert b[5] == 0x61 && b[6] == CR && b[7] == LF && |b| == 10;
    assert FindCrlf(b) == Some(6) by {
      assert forall j :: 0 <= j < 6 ==> b[j] != CR;
    }
    assert b[..6][..5] == HOST_TITLE && b[..6][5..] == [0x61];
    TrimA();
  }

  lemma TrimA()
    ensures Trim([0x61]) == [0x61]
  {
    assert TrimStart([0x61]) == [0x61] && TrimEnd([0x61]) == [0x61];
  }

  lemma {:induction false} BadByteBreaks(b: seq<Byte>)
    requires forall i :: 0 <= i < |b| ==> 0 <= b[i] < 0x80
    ensures !ValidUtf8(b + [0xFF])
  {
    if b == [] {
      assert b + [0xFF] == [0xFF];
    } else {
      BadByteBreaks(b[1..]);
      assert (b + [0xFF])[1..] == b[1..] + [0xFF];
    }
  }

  /** "Host: a" and a blank line are routed; the same with a body byte that is not UTF-8 in the same read is
      refused as if it had no host. */
  lemma BodyByteLosesHost()
    ensures AnswerTo(SMALL_REQUEST) == Some(Route([0x61])) && AnswerTo(SMALL_REQUEST + [0xFF]) == Some(MissingHost)
  {
    hide ValidUtf8, ScanHost, HostLineTerminated, HasDoubleCrlf, AnswerTo;
    var b := SMALL_REQUEST;
    SmallRequestHasHost();
    SmallRequestEnds([0xFF]);
    AsciiIsUtf8(b);
    BadByteBreaks(b);
    TerminatedHostRoutedIff(b);
    TerminatedHostExtends(b, [0xFF]);
    TerminatedHostRoutedIff(b + [0xFF]);
  }

  lemma {:induction false} TerminatedHostExtends(b: seq<Byte>, e: seq<Byte>)
    requires HostLineTerminated(b)
    ensures HostLineTerminated(b + e)
    decreases |b|
  {
    CrlfExtends(b, e);
    var i := FindCrlf(b).value;
    assert (b + e)[..i] == b[..i] && (b + e)[i + 2..] == b[i + 2..] + e;
    if !IsHostLine(b[..i]) {
      TerminatedHostExtends(b[i + 2..], e);
    }
  }

  // ---- The read loop ----------------------------------------------------------------------------

  datatype Verdict = Route(host: seq<Byte>) | TooLarge | ClosedEarly | MissingHost

  function Joined(chunks: seq<seq<Byte>>): seq<Byte> {
    if chunks == [] then [] else Joined(chunks[..|chunks| - 1]) + chunks[|chunks| - 1]
  }

  lemma JoinedTake(chunks: seq<seq<Byte>>, n: nat)
    requires n <= |chunks|
    ensures Joined(chunks[..n]) == if n == 0 then [] else Joined(chunks[..n - 1]) + chunks[n - 1]
  {
    assert n > 0 ==> chunks[..n][..n - 1] == chunks[..n - 1];
  }

  /** The loop goes on from these bytes: no host yet, and the headers are not over. */
  predicate Undecided(prefix: seq<Byte>) {
    ParseHostHeader(prefix).None? && !HasDoubleCrlf(prefix)
  }

  /** No host can be found in these bytes, and the headers are not over. */
  ghost predicate StillWaiting(b: seq<Byte>) {
    (forall h :: !FindsHost(b, h)) && forall i :: !BlankLine(b, i)
  }

  lemma AnswerMeans(b: seq<Byte>)
    ensures match AnswerTo(b)
      case Some(Route(h)) => FindsHost(b, h)
      case Some(_) => AnswerTo(b) == Some(MissingHost) && (forall h :: !FindsHost(b, h)) && exists i :: BlankLine(b, i)
      case None => StillWaiting(b)
    ensures Undecided(b) <==> AnswerTo(b).None?
  {
    hide ParseHostHeader, FindsHost;
    forall h ensures ParseHostHeader(b) == Some(h) <==> FindsHost(b, h) {
      ParsedHostIff(b, h);
    }
    BlankLinesAgree(b);
  }

  lemma BlankLinesAgree(b: seq<Byte>)
    ensures HasDoubleCrlf(b) <==> exists i :: BlankLine(b, i)
  {
    if i :| BlankLine(b, i) { assert BlankLineAt(b, i); }
    if HasDoubleCrlf(b) {
      var i :| 0 <= i < |b| && BlankLineAt(b, i);
      assert BlankLine(b, i);
    }
  }

  /** `chunks[i]` is what the i-th read returns; after the last of them the peer has closed. The loop routes
      as soon as what it has read names a host, refuses once a blank line has come without one, and until
      then reads on. */
  method ReadPreamble(chunks: seq<seq<Byte>>) returns (v: Verdict, prefix: seq<Byte>, used: nat)
    requires forall i :: 0 <= i < |chunks| ==> 0 < |chunks[i]| <= READ_BUF
    ensures used <= |chunks| && used <= 8193 && prefix == Joined(chunks[..used])
    ensures |prefix| <= 16_384
    ensures forall k :: 0 < k < used ==> StillWaiting(Joined(chunks[..k])) && |Joined(chunks[..k])| <= 8192
    ensures match v
      case Route(h) => used > 0 && FindsHost(prefix, h)
      case MissingHost => used > 0 && (forall h :: !FindsHost(prefix, h)) && exists i :: BlankLine(prefix, i)
      case TooLarge => |prefix| > 8192 && StillWaiting(prefix)
      case ClosedEarly => used == |chunks| && |prefix| <= 8192 && (used > 0 ==> StillWaiting(prefix))
    ensures v.Route? || v.MissingHost? ==> AnswerTo(prefix) == Some(v)
  {
    hide ParseHostHeader, HasDoubleCrlf, BlankLineAt, Joined, FindsHost, BlankLine, StillWaiting, AnswerTo;
    prefix, used := [], 0;
    assert Joined(chunks[..0]) == [] by { JoinedTake(chunks, 0); }
    while true
      invariant used <= |chunks| && prefix == Joined(chunks[..used]) && used <= |prefix|
      invariant used <= HEADER_LIMIT + 1 && |prefix| <= HEADER_LIMIT + READ_BUF
      invariant used > 0 ==> StillWaiting(prefix)
      invariant forall k :: 0 < k < used ==> StillWaiting(Joined(chunks[..k])) && |Joined(chunks[..k])| <= HEADER_LIMIT
      decreases HEADER_LIMIT + 1 - |prefix|
    {
      if |prefix| > HEADER_LIMIT { return TooLarge, prefix, used; }
      if used == |chunks| { return ClosedEarly, prefix, used; }
      JoinedTake(chunks, used + 1);
      prefix := prefix + chunks[used];
      used := used + 1;
      AnswerMeans(prefix);
      AnswerIs(prefix);
      var host := ParseHostHeader(prefix);
      if host.Some? { return Route(host.value), prefix, used; }
      var done := FindDoubleCrlf(prefix);
      if done.Some? { return MissingHost, prefix, used; }
    }
  }

  lemma AnswerIs(b: seq<Byte>)
    ensures AnswerTo(b) == match ParseHostHeader(b)
      case Some(host) => Some(Route(host))
      case None => if HasDoubleCrlf(b) then Some(MissingHost) else None
  {
    hide ParseHostHeader, HasDoubleCrlf;
  }

  /** `buf.windows(4).position(…)`. */
  method FindDoubleCrlf(b: seq<Byte>) returns (r: Option<nat>)
    ensures r.Some? <==> HasDoubleCrlf(b)
    ensures r.Some? <==> exists i :: BlankLine(b, i)
    ensures r.Some? ==> BlankLine(b, r.value) && forall j :: j < r.value ==> !BlankLine(b, j)
  {
    var i := 0;
    while i + 4 <= |b|
      invariant forall j :: 0 <= j < i ==> !BlankLineAt(b, j)
      invariant forall j :: j < i ==> !BlankLine(b, j)
    {
      if BlankLineAt(b, i) {
        assert BlankLine(b, i);
        return Some(i);
      }
      i := i + 1;
    }
    r := None;
  }

  // ---- Forwarding the prefix ----------------------------------------------------------------------

  lemma {:induction false} ReadGrows(f: Bridge.Flow, ls: seq<Bridge.FlowLabel>)
    ensures f.read <= Bridge.RunFlow(f, ls).read && f.puts <= Bridge.RunFlow(f, ls).puts
    decreases |ls|
  {
    if ls != [] {
      hide Bridge.FlowStep;
      ReadGrows(f, ls[..|ls| - 1]);
      PutsGrow(Bridge.RunFlow(f, ls[..|ls| - 1]), ls[|ls| - 1]);
    }
  }

  /** The prefix is put like one more read, whatever happened before and happens later: the payloads
      published start with it and continue with the later reads in order, and the near counter includes
      it. If the device had subscribed nothing is lost, so what reaches the device's socket starts with
      the prefix; otherwise the prefix itself is lost. */
  lemma PrefixGoesFirst(before: seq<Bridge.FlowLabel>, prefix: seq<Byte>, ls: seq<Bridge.FlowLabel>)
    requires 0 < |prefix| <= HEADER_LIMIT + READ_BUF
    requires var f := Bridge.RunFlow(Bridge.InitFlow(), before); f.tx == Bridge.Reading && f.read == [] && f.puts == []
    ensures var f := Bridge.RunFlow(Bridge.InitFlow(), before);
      var g := Bridge.RunFlow(AfterPrefix(f, prefix), ls);
      && g.puts != [] && g.puts[0] == prefix && prefix <= g.read
      && Bridge.Concat(g.puts) + Bridge.Pending(g) == g.read && g.up == |g.read|
      && (g.lost == 0 <==> f.declared)
      && (f.declared ==> g.written <= g.read && (|g.written| >= |prefix| ==> prefix <= g.written))
  {
    hide Bridge.Concat, Bridge.FarInv, Bridge.FlowStep, Bridge.NearInv, AfterPrefix, Bridge.RunFlow;
    var f := Bridge.RunFlow(Bridge.InitFlow(), before);
    StartInv();
    Bridge.RunKeepsInv(Bridge.InitFlow(), before);
    var f0 := PrefixPut(f, prefix);
    Bridge.RunKeepsInv(f0, ls);
    ReadGrows(f0, ls);
    LostKept(f0, ls);
    var g := Bridge.RunFlow(f0, ls);
    NearFacts(g);
    Bridge.FlowIsABlock(g);
  }

  function AfterPrefix(f: Bridge.Flow, prefix: seq<Byte>): Bridge.Flow {
    Bridge.FlowStep(Bridge.FlowStep(f, Bridge.Read(prefix)), Bridge.PutOk)
  }

  lemma NearFacts(g: Bridge.Flow)
    requires Bridge.FlowInv(g)
    ensures Bridge.Concat(g.puts) + Bridge.Pending(g) == g.read && g.up == |g.read|
  {
    hide Bridge.Concat, Bridge.FarInv;
  }

  lemma StartInv()
    ensures Bridge.FlowInv(Bridge.InitFlow())
  {
    hide Bridge.FlowInv;
    Bridge.EmptyFlowInv(Bridge.InitFlow());
  }

  lemma PrefixPut(f: Bridge.Flow, prefix: seq<Byte>) returns (f0: Bridge.Flow)
    requires 0 < |prefix| <= HEADER_LIMIT + READ_BUF
    requires Bridge.FlowInv(f) && f.tx == Bridge.Reading && f.read == [] && f.puts == []
    ensures f0 == AfterPrefix(f, prefix)
    ensures Bridge.FlowInv(f0) && f0.puts == [prefix] && f0.read == prefix
    ensures f0.declared == f.declared && f0.lost == if f.declared then 0 else 1
  {
    var f1 := Bridge.FlowStep(f, Bridge.Read(prefix));
    f0 := Bridge.FlowStep(f1, Bridge.PutOk);
    PrefixSteps(f, prefix);
    Bridge.ChannelPart(f);
    hide Bridge.FlowStep, Bridge.FlowInv;
    Bridge.FlowStepInv(f, Bridge.Read(prefix));
    Bridge.FlowStepInv(f1, Bridge.PutOk);
  }

  lemma PrefixSteps(f: Bridge.Flow, prefix: seq<Byte>)
    requires 0 < |prefix| <= Bridge.READ_BUF
    requires f.tx == Bridge.Reading && f.read == [] && f.puts == []
    ensures var f0 := AfterPrefix(f, prefix);
      && f0.puts == [prefix] && f0.read == prefix && f0.declared == f.declared
      && f0.lost == if f.declared then f.lost else f.lost + 1
  {
    assert [] + [prefix] == [prefix] && [] + prefix == prefix;
  }

  /** What is lost stays lost, and nothing more is once the subscriber exists. */
  lemma {:induction false} LostKept(f: Bridge.Flow, ls: seq<Bridge.FlowLabel>)
    requires Bridge.FlowInv(f)
    ensures var g := Bridge.RunFlow(f, ls);
      g.lost >= f.lost && (f.declared ==> g.declared && g.lost == f.lost)
    decreases |ls|
  {
    hide Bridge.FlowStep, Bridge.NearInv, Bridge.FarInv, Bridge.Concat, Bridge.Received;
    if ls != [] {
      var front, l := ls[..|ls| - 1], ls[|ls| - 1];
      LostKept(f, front);
      Bridge.RunKeepsInv(f, front);
      var mid := Bridge.RunFlow(f, front);
      Bridge.ChannelPart(mid);
      Bridge.LossNeedsPut(mid, l);
      Bridge.PutsNeedTx(mid, l);
      PutsGrow(mid, l);
    }
  }

  lemma PutsGrow(f: Bridge.Flow, l: Bridge.FlowLabel)
    ensures f.puts <= Bridge.FlowStep(f, l).puts && f.read <= Bridge.FlowStep(f, l).read
  {
  }
}
