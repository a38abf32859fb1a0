// Zenoh keys: every builder, the three parsers, and how far each undoes the other.
module KeyExpr {
  import opened Wrappers
  import opened Chunks
  import opened Ids

  /** What a key addresses under one device's `hackline/<org>/<zid>/` subtree. */
  datatype Subject =
    | Connect(port: nat)
    | Info
    | Health
    | StreamGw(request: string)
    | StreamDev(request: string)
    | MsgEvent(topic: string)
    | MsgLog(topic: string)
    | MsgCmd(topic: string)
    | MsgCmdAck(cmdId: string)
    | MsgApi(topic: string)

  datatype MsgKind = Event | Log

  datatype Msg = Msg(org: string, zid: string, kind: MsgKind, topic: string)

  datatype Ack = Ack(org: string, zid: string, cmdId: string)

  datatype Device = Device(org: string, zid: string)

  predicate WellFormed(w: Subject) {
    match w
    case StreamGw(r) => ValidUuid(r)
    case StreamDev(r) => ValidUuid(r)
    case MsgCmdAck(c) => ValidUuid(c)
    case _ => true
  }

  // ---- builders ----

  function TopicSuffix(topic: string): string { Replace(topic, '.', '/') }

  function Base(org: string, zid: string): string { "hackline/" + org + "/" + zid + "/" }

  function Tail(w: Subject): string
    requires WellFormed(w)
  {
    match w
    case Connect(port) => "tcp/" + Decimal(port) + "/connect"
    case Info => "info"
    case Health => "health"
    case StreamGw(r) => "stream/" + ShowUuid(r) + "/gw"
    case StreamDev(r) => "stream/" + ShowUuid(r) + "/dev"
    case MsgEvent(t) => "msg/event/" + TopicSuffix(t)
    case MsgLog(t) => "msg/log/" + TopicSuffix(t)
    case MsgCmd(t) => "msg/cmd/" + TopicSuffix(t)
    case MsgCmdAck(c) => "msg/cmd-ack/" + ShowUuid(c)
    case MsgApi(t) => "msg/api/" + TopicSuffix(t)
  }

  function Build(org: string, zid: string, w: Subject): string
    requires WellFormed(w)
  {
    Base(org, zid) + Tail(w)
  }

  // ---- parsers ----

  function ParseHealth(ke: string): Option<Device> {
    var p := Split(ke, '/');
    if p[0] != "hackline" || |p| < 4 || p[3] != "health" || |p| > 4 then None
    else match NewZid(p[2])
      case None => None
      case Some(z) => Some(Device(p[1], z))
  }

  function ParseMsgCmdAck(ke: string): Option<Ack> {
    var p := Split(ke, '/');
    if p[0] != "hackline" || |p| < 5 || p[3] != "msg" || p[4] != "cmd-ack" || |p| != 6 then None
    else match (NewZid(p[2]), ParseUuid(p[5]))
      case (Some(z), Some(u)) => Some(Ack(p[1], z, u))
      case _ => None
  }

  function KindOf(chunk: string): Option<MsgKind> {
    if chunk == "event" then Some(Event) else if chunk == "log" then Some(Log) else None
  }

  function ParseMsg(ke: string): Option<Msg> {
    var p := Split(ke, '/');
    if p[0] != "hackline" || |p| < 5 || p[3] != "msg" then None
    else match (KindOf(p[4]), NewZid(p[2]))
      case (Some(k), Some(z)) => if |p| == 5 then None else Some(Msg(p[1], z, k, Join(p[5..], '.')))
      case _ => None
  }

  // ---- the chunks a built key splits into ----

  function TailChunks(w: Subject): (r: seq<string>)
    requires WellFormed(w)
  {
    match w
    case Connect(port) => ["tcp", Decimal(port), "connect"]
    case Info => ["info"]
    case Health => ["health"]
    case StreamGw(r) => ["stream", ShowUuid(r), "gw"]
    case StreamDev(r) => ["stream", ShowUuid(r), "dev"]
    case MsgEvent(t) => ["msg", "event"] + Split(TopicSuffix(t), '/')
    case MsgLog(t) => ["msg", "log"] + Split(TopicSuffix(t), '/')
    case MsgCmd(t) => ["msg", "cmd"] + Split(TopicSuffix(t), '/')
    case MsgCmdAck(c) => ["msg", "cmd-ack", ShowUuid(c)]
    case MsgApi(t) => ["msg", "api"] + Split(TopicSuffix(t), '/')
  }

  lemma SplitTwo(a: string, b: string, rest: string)
    requires '/' !in a && '/' !in b
    ensures Split(a + "/" + b + "/" + rest, '/') == [a, b] + Split(rest, '/')
  {
    assert a + "/" + b + "/" + rest == a + ['/'] + (b + ['/'] + rest);
    SplitAt(a, b + ['/'] + rest, '/');
    SplitAt(b, rest, '/');
    assert [a] + ([b] + Split(rest, '/')) == [a, b] + Split(rest, '/');
  }

  lemma SplitThree(a: string, b: string, c: string)
    requires '/' !in a && '/' !in b && '/' !in c
    ensures Split(a + "/" + b + "/" + c, '/') == [a, b, c]
  {
    SplitTwo(a, b, c);
    SplitWhole(c, '/');
  }

  lemma SplitMsg(kind: string, rest: string)
    requires '/' !in kind
    ensures Split("msg/" + kind + "/" + rest, '/') == ["msg", kind] + Split(rest, '/')
  {
    assert "msg/" + kind + "/" + rest == "msg" + "/" + kind + "/" + rest;
    SplitTwo("msg", kind, rest);
  }

  lemma SplitStream(request: string, side: string)
    requires ValidUuid(request) && '/' !in side
    ensures Split("stream/" + ShowUuid(request) + "/" + side, '/') == ["stream", ShowUuid(request), side]
  {
    ShownUuidIsOneChunk(request);
    assert "stream/" + ShowUuid(request) + "/" + side == "stream" + "/" + ShowUuid(request) + "/" + side;
    SplitThree("stream", ShowUuid(request), side);
  }

  lemma SplitMsgTail(w: Subject)
    requires WellFormed(w) && (w.MsgEvent? || w.MsgLog? || w.MsgCmd? || w.MsgApi?)
    ensures Split(Tail(w), '/') == TailChunks(w)
  {
    hide Split, TopicSuffix;
    match w
    case MsgEvent(t) =>
      SplitMsg("event", TopicSuffix(t));
      assert Tail(w) == "msg/" + "event" + "/" + TopicSuffix(t);
    case MsgLog(t) =>
      SplitMsg("log", TopicSuffix(t));
      assert Tail(w) == "msg/" + "log" + "/" + TopicSuffix(t);
    case MsgCmd(t) =>
      SplitMsg("cmd", TopicSuffix(t));
      assert Tail(w) == "msg/" + "cmd" + "/" + TopicSuffix(t);
    case MsgApi(t) =>
      SplitMsg("api", TopicSuffix(t));
      assert Tail(w) == "msg/" + "api" + "/" + TopicSuffix(t);
  }

  lemma SplitAckTail(c: string)
    requires ValidUuid(c)
    ensures Split("msg/" + "cmd-ack" + "/" + ShowUuid(c), '/') == ["msg", "cmd-ack", ShowUuid(c)]
  {
    hide Split, ShowUuid, ValidUuid;
    SplitMsg("cmd-ack", ShowUuid(c));
    ShownUuidIsOneChunk(c);
    SplitWhole(ShowUuid(c), '/');
  }

  lemma SplitTail(w: Subject)
    requires WellFormed(w)
    ensures Split(Tail(w), '/') == TailChunks(w)
  {
    hide Split, ShowUuid, Decimal, TopicSuffix, ValidUuid;
    match w
    case Connect(port) =>
      assert Tail(w) == "tcp" + "/" + Decimal(port) + "/" + "connect";
      SplitThree("tcp", Decimal(port), "connect");
    case Info => SplitWhole("info", '/');
    case Health => SplitWhole("health", '/');
    case StreamGw(r) =>
      SplitStream(r, "gw");
      assert Tail(w) == "stream/" + ShowUuid(r) + "/" + "gw";
    case StreamDev(r) =>
      SplitStream(r, "dev");
      assert Tail(w) == "stream/" + ShowUuid(r) + "/" + "dev";
    case MsgCmdAck(c) =>
      SplitAckTail(c);
      assert Tail(w) == "msg/" + "cmd-ack" + "/" + ShowUuid(c);
    case _ => SplitMsgTail(w);
  }

  lemma ZidIsOneChunk(zid: string)
    requires ValidZid(zid)
    ensures '/' !in zid && '*' !in zid
  {
    assert forall i :: 0 <= i < |zid| ==> LowerHex(zid[i]);
  }

  lemma SplitKey(org: string, zid: string, w: Subject)
    requires '/' !in org && ValidZid(zid) && WellFormed(w)
    ensures Split(Build(org, zid, w), '/') == ["hackline", org, zid] + TailChunks(w)
  {
    hide Split, Tail, TailChunks, WellFormed;
    ZidIsOneChunk(zid);
    SplitTail(w);
    var rest := zid + ['/'] + Tail(w);
    assert Build(org, zid, w) == "hackline" + "/" + org + "/" + rest;
    SplitTwo("hackline", org, rest);
    SplitAt(zid, Tail(w), '/');
    assert ["hackline", org] + ([zid] + TailChunks(w)) == ["hackline", org, zid] + TailChunks(w);
  }

  lemma JoinTopic(topic: string)
    ensures Join(Split(TopicSuffix(topic), '/'), '.') == Replace(topic, '/', '.')
  {
    var parts := Split(TopicSuffix(topic), '/');
    JoinSplit(TopicSuffix(topic), '/');
    SplitLacks(TopicSuffix(topic), '/');
    ReplaceJoins(parts, '/', '.');
    assert Replace(TopicSuffix(topic), '/', '.') == Replace(topic, '/', '.');
  }

  // ---- parsing what was built ----

  /** The message parser takes exactly event and log keys, and reads back what was put in,
      with every `/` of the topic turned into a `.`. */
  lemma MsgOfBuilt(org: string, zid: string, w: Subject)
    requires '/' !in org && ValidZid(zid) && WellFormed(w)
    ensures ParseMsg(Build(org, zid, w)) ==
            match w {
              case MsgEvent(t) => Some(Msg(org, zid, Event, Replace(t, '/', '.')))
              case MsgLog(t) => Some(Msg(org, zid, Log, Replace(t, '/', '.')))
              case _ => None
            }
  {
    hide Split, Build, Join, Replace;
    SplitKey(org, zid, w);
    ZidRoundTrip(zid);
    match w
    case MsgEvent(t) => JoinTopic(t); assert Split(Build(org, zid, w), '/')[5..] == Split(TopicSuffix(t), '/');
    case MsgLog(t) => JoinTopic(t); assert Split(Build(org, zid, w), '/')[5..] == Split(TopicSuffix(t), '/');
    case _ =>
  }

  /** The round trip holds for exactly the topics without `/`. */
  lemma MsgRoundTripIff(org: string, zid: string, topic: string)
    requires '/' !in org && ValidZid(zid)
    ensures ParseMsg(Build(org, zid, MsgEvent(topic))) == Some(Msg(org, zid, Event, topic)) <==> '/' !in topic
    ensures ParseMsg(Build(org, zid, MsgLog(topic))) == Some(Msg(org, zid, Log, topic)) <==> '/' !in topic
  {
    MsgOfBuilt(org, zid, MsgEvent(topic));
    MsgOfBuilt(org, zid, MsgLog(topic));
    ReplaceSameIff(topic, '/', '.');
  }

  lemma HealthOfBuilt(org: string, zid: string, w: Subject)
    requires '/' !in org && ValidZid(zid) && WellFormed(w)
    ensures ParseHealth(Build(org, zid, w)) == if w.Health? then Some(Device(org, zid)) else None
  {
    hide Split, Build;
    SplitKey(org, zid, w);
    ZidRoundTrip(zid);
  }

  lemma AckOfBuilt(org: string, zid: string, w: Subject)
    requires '/' !in org && ValidZid(zid) && WellFormed(w)
    ensures ParseMsgCmdAck(Build(org, zid, w)) == if w.MsgCmdAck? then Some(Ack(org, zid, w.cmdId)) else None
  {
    hide Split, Build, ParseUuid, ShowUuid;
    SplitKey(org, zid, w);
    ZidRoundTrip(zid);
    if w.MsgCmdAck? { UuidRoundTrip(w.cmdId); }
  }

  /** No key at all, built or foreign, is taken by two of the three parsers. */
  lemma ParsersAreDisjoint(ke: string)
    ensures !(ParseMsg(ke).Some? && ParseMsgCmdAck(ke).Some?)
    ensures !(ParseMsg(ke).Some? && ParseHealth(ke).Some?)
    ensures !(ParseMsgCmdAck(ke).Some? && ParseHealth(ke).Some?)
  {
    hide Split, Join;
  }

  // ---- two builders never collide ----

  /** Topics that build the same key: equal once `/` and `.` are not told apart. */
  predicate SameSubject(v: Subject, w: Subject) {
    match (v, w)
    case (MsgEvent(s), MsgEvent(t)) => TopicSuffix(s) == TopicSuffix(t)
    case (MsgLog(s), MsgLog(t)) => TopicSuffix(s) == TopicSuffix(t)
    case (MsgCmd(s), MsgCmd(t)) => TopicSuffix(s) == TopicSuffix(t)
    case (MsgApi(s), MsgApi(t)) => TopicSuffix(s) == TopicSuffix(t)
    case _ => v == w
  }

  lemma SuffixOfChunks(s: string, t: string, a: seq<string>)
    requires a + Split(TopicSuffix(s), '/') == a + Split(TopicSuffix(t), '/')
    ensures TopicSuffix(s) == TopicSuffix(t)
  {
    var p, q := Split(TopicSuffix(s), '/'), Split(TopicSuffix(t), '/');
    assert p == (a + p)[|a|..] && q == (a + q)[|a|..];
    JoinSplit(TopicSuffix(s), '/');
    JoinSplit(TopicSuffix(t), '/');
  }

  lemma TailChunksInjective(v: Subject, w: Subject)
    requires WellFormed(v) && WellFormed(w)
    requires TailChunks(v) == TailChunks(w)
    ensures SameSubject(v, w)
  {
    hide Split, ShowUuid, Decimal, TopicSuffix, ValidUuid;
    var p, q := TailChunks(v), TailChunks(w);
    assert p[0] == q[0] && (|p| > 1 ==> p[1] == q[1]) && (|p| > 2 ==> p[2] == q[2]);
    match (v, w)
    case (Connect(m), Connect(n)) => DecimalInjective(m, n);
    case (StreamGw(r), StreamGw(s)) => UuidRoundTrip(r); UuidRoundTrip(s);
    case (StreamDev(r), StreamDev(s)) => UuidRoundTrip(r); UuidRoundTrip(s);
    case (MsgCmdAck(r), MsgCmdAck(s)) => UuidRoundTrip(r); UuidRoundTrip(s);
    case (MsgEvent(s), MsgEvent(t)) => SuffixOfChunks(s, t, ["msg", "event"]);
    case (MsgLog(s), MsgLog(t)) => SuffixOfChunks(s, t, ["msg", "log"]);
    case (MsgCmd(s), MsgCmd(t)) => SuffixOfChunks(s, t, ["msg", "cmd"]);
    case (MsgApi(s), MsgApi(t)) => SuffixOfChunks(s, t, ["msg", "api"]);
    case _ =>
  }

  lemma SameSubjectSameTail(v: Subject, w: Subject)
    requires WellFormed(v) && WellFormed(w) && SameSubject(v, w)
    ensures Tail(v) == Tail(w)
  {
  }

  /** Two keys are equal exactly when org, device and subject are; for topics that hold no `/`
      the subjects are then equal outright. */
  lemma BuildInjectiveIff(o1: string, z1: string, v: Subject, o2: string, z2: string, w: Subject)
    requires '/' !in o1 && '/' !in o2 && ValidZid(z1) && ValidZid(z2) && WellFormed(v) && WellFormed(w)
    ensures Build(o1, z1, v) == Build(o2, z2, w) <==> o1 == o2 && z1 == z2 && SameSubject(v, w)
  {
    hide Split, Tail, TailChunks, SameSubject, WellFormed;
    if Build(o1, z1, v) == Build(o2, z2, w) {
      SplitKey(o1, z1, v);
      SplitKey(o2, z2, w);
      var p, q := ["hackline", o1, z1] + TailChunks(v), ["hackline", o2, z2] + TailChunks(w);
      assert p == q;
      assert p[1] == o1 && q[1] == o2 && p[2] == z1 && q[2] == z2;
      assert TailChunks(v) == p[3..] && TailChunks(w) == q[3..];
      TailChunksInjective(v, w);
    }
    if o1 == o2 && z1 == z2 && SameSubject(v, w) { SameSubjectSameTail(v, w); }
  }

  lemma SameSuffixSameTopic(s: string, t: string)
    requires '/' !in s && '/' !in t && TopicSuffix(s) == TopicSuffix(t)
    ensures s == t
  {
    forall i | 0 <= i < |s| ensures s[i] == t[i] {
      assert TopicSuffix(s)[i] == TopicSuffix(t)[i];
    }
  }

  // ---- building again what was parsed ----

  function SubjectOf(m: Msg): Subject { if m.kind == Event then MsgEvent(m.topic) else MsgLog(m.topic) }

  /** The chunks of a parsed message key. */
  lemma ParsedMsgShape(ke: string)
    requires ParseMsg(ke).Some?
    ensures var p, m := Split(ke, '/'), ParseMsg(ke).value;
            && |p| >= 6 && Lacks(p, '/')
            && p == ["hackline", m.org, p[2], "msg", if m.kind == Event then "event" else "log"] + p[5..]
            && m.zid == Lower(p[2]) && ValidZid(m.zid) && m.topic == Join(p[5..], '.')
  {
    hide Split, Join, Lower, ValidZid;
    SplitLacks(ke, '/');
  }

  lemma SuffixOfJoined(parts: seq<string>)
    requires parts != [] && Lacks(parts, '/')
    ensures TopicSuffix(Join(parts, '.')) == Join(parts, '/') <==> Lacks(parts, '.')
    ensures Replace(Join(parts, '.'), '/', '.') == Join(parts, '.')
  {
    JoinLacks(parts, '.', '/');
    ReplaceNone(Join(parts, '.'), '/', '.');
    if Lacks(parts, '.') { ReplaceJoins(parts, '.', '/'); }
    if !Lacks(parts, '.') { JoinKeepsChar(parts, '/', '.'); }
    assert '.' !in TopicSuffix(Join(parts, '.'));
  }

  lemma {:induction false} JoinLacks(parts: seq<string>, c: char, d: char)
    requires parts != [] && Lacks(parts, d) && c != d
    ensures d !in Join(parts, c)
  {
    if |parts| > 1 { JoinLacks(parts[1..], c, d); }
  }

  lemma {:induction false} JoinKeepsChar(parts: seq<string>, c: char, d: char)
    requires parts != [] && !Lacks(parts, d)
    ensures d in Join(parts, c)
  {
    if |parts| > 1 && d !in parts[0] {
      var p :| p in parts && d in p;
      assert p in parts[1..];
      JoinKeepsChar(parts[1..], c, d);
    }
  }

  /** Parsing, building and parsing again is parsing once. */
  lemma MsgParseBuildParse(ke: string)
    requires ParseMsg(ke).Some?
    ensures var m := ParseMsg(ke).value;
            ValidZid(m.zid) && ParseMsg(Build(m.org, m.zid, SubjectOf(m))) == ParseMsg(ke)
  {
    hide Split, Join, ParseMsg, Build, TopicSuffix, ValidZid;
    ParsedMsgShape(ke);
    var p, m := Split(ke, '/'), ParseMsg(ke).value;
    assert m.org == p[1];
    SuffixOfJoined(p[5..]);
    MsgOfBuilt(m.org, m.zid, SubjectOf(m));
  }

  /** The rebuilt key is the original one exactly when the id chunk was already lower-case and no
      topic chunk holds a `.`. */
  lemma MsgRebuildIff(ke: string)
    requires ParseMsg(ke).Some?
    ensures var p, m := Split(ke, '/'), ParseMsg(ke).value;
            |p| >= 6 && (Build(m.org, m.zid, SubjectOf(m)) == ke <==> Lower(p[2]) == p[2] && Lacks(p[5..], '.'))
  {
    hide Split, Join, ParseMsg, Build, ValidZid, TailChunks;
    ParsedMsgShape(ke);
    var p, m := Split(ke, '/'), ParseMsg(ke).value;
    var again := Build(m.org, m.zid, SubjectOf(m));
    assert m.org == p[1];
    SplitKey(m.org, m.zid, SubjectOf(m));
    SuffixOfJoined(p[5..]);
    SplitJoin(p[5..], '/');
    JoinSplit(TopicSuffix(m.topic), '/');
    JoinSplit(ke, '/');
    JoinSplit(again, '/');
    RebuiltChunks(p, m, Split(again, '/'));
  }

  lemma RebuiltChunks(p: seq<string>, m: Msg, q: seq<string>)
    requires |p| >= 6 && Lacks(p, '/')
    requires p == ["hackline", m.org, p[2], "msg", if m.kind == Event then "event" else "log"] + p[5..]
    requires q == ["hackline", m.org, m.zid] + TailChunks(SubjectOf(m))
    requires m.zid == Lower(p[2]) && m.topic == Join(p[5..], '.')
    ensures q == p <==> Lower(p[2]) == p[2] && Lacks(p[5..], '.')
  {
    hide Split, Join, Lower, TopicSuffix;
    var rest := p[5..];
    var kind := if m.kind == Event then "event" else "log";
    assert q == ["hackline", m.org, m.zid, "msg", kind] + Split(TopicSuffix(m.topic), '/');
    assert q[5..] == Split(TopicSuffix(m.topic), '/') && q[2] == m.zid;
    SuffixOfJoined(rest);
    SplitJoin(rest, '/');
    JoinSplit(TopicSuffix(m.topic), '/');
    assert q[5..] == rest <==> Lacks(rest, '.');
    assert p[2] == q[2] && q[5..] == rest ==> p == q;
  }

  /** An ack key is rebuilt exactly when its device id is lower-case and its command id is in the
      printed form; a health key when its device id is lower-case. */
  lemma AckRebuildIff(ke: string)
    requires ParseMsgCmdAck(ke).Some?
    ensures var p, a := Split(ke, '/'), ParseMsgCmdAck(ke).value;
            && |p| == 6 && ValidUuid(a.cmdId) && ValidZid(a.zid)
            && ParseMsgCmdAck(Build(a.org, a.zid, MsgCmdAck(a.cmdId))) == Some(a)
            && (Build(a.org, a.zid, MsgCmdAck(a.cmdId)) == ke <==>
                Lower(p[2]) == p[2] && |p[5]| == 36 && Lower(p[5]) == p[5])
  {
    hide Split, Join, ShowUuid, ParseUuid, Build;
    var p, a := Split(ke, '/'), ParseMsgCmdAck(ke).value;
    SplitLacks(ke, '/');
    assert p[1] in p;
    ParsedUuidIsValid(p[5]);
    var w := MsgCmdAck(a.cmdId);
    SplitKey(a.org, a.zid, w);
    AckOfBuilt(a.org, a.zid, w);
    UuidPrintedIff(p[5]);
    JoinSplit(ke, '/');
    JoinSplit(Build(a.org, a.zid, w), '/');
    var q := ["hackline", a.org, a.zid, "msg", "cmd-ack", ShowUuid(a.cmdId)];
    assert Split(Build(a.org, a.zid, w), '/') == q;
    assert p == ["hackline", a.org, p[2], "msg", "cmd-ack", p[5]];
    assert q == p <==> q[2] == p[2] && q[5] == p[5];
  }

  lemma HealthRebuildIff(ke: string)
    requires ParseHealth(ke).Some?
    ensures var p, d := Split(ke, '/'), ParseHealth(ke).value;
            && |p| == 4 && ValidZid(d.zid)
            && ParseHealth(Build(d.org, d.zid, Health)) == Some(d)
            && (Build(d.org, d.zid, Health) == ke <==> Lower(p[2]) == p[2])
  {
    hide Split, Join, Build;
    var p, d := Split(ke, '/'), ParseHealth(ke).value;
    SplitLacks(ke, '/');
    assert p[1] in p;
    SplitKey(d.org, d.zid, Health);
    HealthOfBuilt(d.org, d.zid, Health);
    JoinSplit(ke, '/');
    JoinSplit(Build(d.org, d.zid, Health), '/');
    var q := ["hackline", d.org, d.zid, "health"];
    assert Split(Build(d.org, d.zid, Health), '/') == q;
    assert p == ["hackline", d.org, p[2], "health"];
    assert q == p <==> q[2] == p[2];
  }
}
