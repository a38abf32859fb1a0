// The device side: topic validation before publishing, the command stream and its acks.
module ClientSdk {
  import opened Wrappers
  import opened Chunks
  import opened Ids
  import opened KeyExpr

  // ---- topics ----

  /** Every dot is followed by a character other than a dot. */
  predicate DotsFollowed(t: string) {
    forall i :: 0 <= i < |t| && t[i] == '.' ==> i + 1 < |t| && t[i + 1] != '.'
  }

  /** Dots separate non-empty segments: none at either end, no two in a row. */
  predicate DotsSeparate(t: string) { t != "" && t[0] != '.' && DotsFollowed(t) }

  /** What may be published: separated segments and nothing the key syntax reserves. */
  predicate ValidTopic(t: string) { DotsSeparate(t) && '/' !in t && '*' !in t }

  /** What may be subscribed to: the same with wildcards. */
  predicate ValidSubscription(t: string) { DotsSeparate(t) && '/' !in t }

  predicate NoneEmpty(parts: seq<string>) { forall i :: 0 <= i < |parts| ==> parts[i] != "" }

  lemma FirstChunkEmptyIff(t: string, c: char)
    ensures Split(t, c)[0] == "" <==> t == "" || t[0] == c
  {
  }

  lemma NoneEmptyCons(parts: seq<string>)
    requires parts != []
    ensures NoneEmpty(parts) <==> parts[0] != "" && NoneEmpty(parts[1..])
  {
    forall i | 0 <= i < |parts| ensures i > 0 ==> parts[i] == parts[1..][i - 1] {
    }
  }

  lemma DotsFollowedCons(t: string)
    requires t != ""
    ensures DotsFollowed(t) <==> DotsFollowed(t[1..]) && (t[0] == '.' ==> |t| > 1 && t[1] != '.')
  {
    var u := t[1..];
    if DotsFollowed(t) {
      assert forall i :: 0 <= i < |u| && u[i] == '.' ==> t[i + 1] == '.';
    }
    assert forall i :: 0 < i < |t| ==> t[i] == u[i - 1];
  }

  lemma {:induction false} LaterChunksEmptyIff(t: string)
    ensures NoneEmpty(Split(t, '.')[1..]) <==> DotsFollowed(t)
  {
    if t != "" {
      var r := Split(t[1..], '.');
      LaterChunksEmptyIff(t[1..]);
      DotsFollowedCons(t);
      if t[0] == '.' {
        assert Split(t, '.')[1..] == r;
        NoneEmptyCons(r);
        FirstChunkEmptyIff(t[1..], '.');
      } else {
        assert Split(t, '.')[1..] == r[1..];
      }
    }
  }

  /** The loop's segment test, character by character. */
  lemma NoneEmptyIff(t: string)
    ensures NoneEmpty(Split(t, '.')) <==> DotsSeparate(t)
  {
    NoneEmptyCons(Split(t, '.'));
    FirstChunkEmptyIff(t, '.');
    LaterChunksEmptyIff(t);
  }

  lemma InSomeChunkIff(t: string, c: char)
    requires c != '.'
    ensures Lacks(Split(t, '.'), c) <==> c !in t
  {
    SplitLacks(t, '.');
    JoinSplit(t, '.');
    if Lacks(Split(t, '.'), c) { JoinLacks(Split(t, '.'), '.', c); }
  }

  method ValidateTopicSubscribe(topic: string) returns (ok: bool)
    ensures ok <==> ValidSubscription(topic)
  {
    var segs := Split(topic, '.');
    NoneEmptyIff(topic);
    InSomeChunkIff(topic, '/');
    if topic == "" { return false; }
    for i := 0 to |segs|
      invariant forall j :: 0 <= j < i ==> segs[j] != "" && '/' !in segs[j]
    {
      if segs[i] == "" { return false; }
      if '/' in segs[i] { return false; }
    }
    return true;
  }

  method ValidateTopic(topic: string) returns (ok: bool)
    ensures ok <==> ValidTopic(topic)
  {
    var segs := Split(topic, '.');
    NoneEmptyIff(topic);
    InSomeChunkIff(topic, '/');
    InSomeChunkIff(topic, '*');
    if topic == "" { return false; }
    for i := 0 to |segs|
      invariant forall j :: 0 <= j < i ==> segs[j] != "" && '/' !in segs[j] && '*' !in segs[j]
    {
      if segs[i] == "" { return false; }
      if '/' in segs[i] || '*' in segs[i] { return false; }
    }
    return true;
  }

  /** A concrete key: no empty chunk and no wildcard. */
  predicate ConcreteKey(ke: string) { NoneEmpty(Split(ke, '/')) && '*' !in ke }

  lemma SlugIsOneChunk(org: string)
    requires ValidSlug(org)
    ensures '/' !in org && '*' !in org && org != ""
  {
    assert forall i :: 0 <= i < |org| ==> SlugChar(org[i]);
  }

  lemma SuffixChunks(topic: string)
    requires '/' !in topic
    ensures Split(TopicSuffix(topic), '/') == Split(topic, '.')
  {
    JoinSplit(topic, '.');
    SplitLacks(topic, '.');
    var parts := Split(topic, '.');
    ReplaceJoins(parts, '.', '/');
    assert Lacks(parts, '/');
    SplitJoin(parts, '/');
  }

  lemma NoneEmptyAfter(a: seq<string>, b: seq<string>)
    requires NoneEmpty(a)
    ensures NoneEmpty(a + b) <==> NoneEmpty(b)
  {
    forall i | 0 <= i < |b| ensures (a + b)[|a| + i] == b[i] {
    }
  }

  /** The validated topics are exactly those whose event key is a concrete key that the gateway
      parses back to that topic. */
  lemma ValidTopicIff(org: string, zid: string, topic: string)
    requires ValidSlug(org) && ValidZid(zid)
    ensures var ke := Build(org, zid, MsgEvent(topic));
            ValidTopic(topic) <==> ConcreteKey(ke) && ParseMsg(ke) == Some(Msg(org, zid, Event, topic))
  {
    hide Split, ParseMsg, ValidSlug, ValidZid, DotsFollowed, SlugChar, NoneEmpty;
    SlugIsOneChunk(org);
    ZidIsOneChunk(zid);
    MsgRoundTripIff(org, zid, topic);
    if '/' !in topic {
      SuffixChunks(topic);
      SplitKey(org, zid, MsgEvent(topic));
      NoneEmptyIff(topic);
      EventKeyNoneEmpty(org, zid, topic);
      EventKeyWildcard(org, zid, topic);
    }
  }

  lemma EventKeyNoneEmpty(org: string, zid: string, topic: string)
    requires ValidSlug(org) && ValidZid(zid) && '/' !in topic
    ensures NoneEmpty(Split(Build(org, zid, MsgEvent(topic)), '/')) <==> NoneEmpty(Split(topic, '.'))
  {
    hide Split, LowerHex, SlugChar;
    SlugIsOneChunk(org);
    SuffixChunks(topic);
    SplitKey(org, zid, MsgEvent(topic));
    var front := ["hackline", org, zid, "msg", "event"];
    NoneEmptyAfter(front, Split(topic, '.'));
    assert Split(Build(org, zid, MsgEvent(topic)), '/') == front + Split(topic, '.');
  }

  lemma EventKeyWildcard(org: string, zid: string, topic: string)
    requires ValidSlug(org) && ValidZid(zid)
    ensures '*' in Build(org, zid, MsgEvent(topic)) <==> '*' in topic
  {
    hide ValidSlug, ValidZid;
    SlugIsOneChunk(org);
    ZidIsOneChunk(zid);
    var t := TopicSuffix(topic);
    assert '*' in t <==> '*' in topic by {
      if '*' in t { var i :| 0 <= i < |t| && t[i] == '*'; assert topic[i] == '*'; }
      if '*' in topic { var i :| 0 <= i < |topic| && topic[i] == '*'; assert t[i] == '*'; }
    }
    assert Build(org, zid, MsgEvent(topic)) == "hackline/" + org + "/" + zid + "/" + ("msg/event/" + t);
  }

  // ---- commands ----

  /** The body of a received sample, as far as the device reads it. */
  datatype Body = Envelope(cmdId: string) | Undecodable

  datatype CmdHandle = CmdHandle(org: string, zid: string, cmdId: string)

  /** An ack as it goes on the wire: the key and the command id inside the body. */
  datatype AckSample = AckSample(key: string, bodyId: string)

  /** One device's command subscription: what is queued when the subscriber closes. */
  class CmdStream {
    const org: string
    const zid: string
    var inbox: seq<Body>
    var published: seq<AckSample>

    constructor (org: string, zid: string, inbox: seq<Body>)
      ensures this.org == org && this.zid == zid && this.inbox == inbox && published == []
    {
      this.org, this.zid, this.inbox, this.published := org, zid, inbox, [];
    }

    /** Yields the first decodable command and uses up everything through it; yields nothing only
        when no decodable one is left. */
    method Recv() returns (r: Option<CmdHandle>)
      modifies this`inbox
      ensures r.None? <==> forall i :: 0 <= i < |old(inbox)| ==> old(inbox)[i].Undecodable?
      ensures r.None? ==> inbox == []
      ensures r.Some? ==>
                exists n :: && 0 <= n < |old(inbox)| && old(inbox)[n].Envelope?
                            && (forall i :: 0 <= i < n ==> old(inbox)[i].Undecodable?)
                            && r.value == CmdHandle(org, zid, old(inbox)[n].cmdId)
                            && inbox == old(inbox)[n + 1..]
    {
      ghost var n := 0;
      while inbox != []
        invariant n <= |old(inbox)| && inbox == old(inbox)[n..]
        invariant forall i :: 0 <= i < n ==> old(inbox)[i].Undecodable?
        decreases |inbox|
      {
        var sample := inbox[0];
        inbox := inbox[1..];
        if sample.Envelope? {
          assert sample == old(inbox)[n];
          return Some(CmdHandle(org, zid, sample.cmdId));
        }
        n := n + 1;
      }
      return None;
    }

    /** One more sample goes out; its key and its body both name the handle's command, so the gateway's
        gate lets it through for that command. */
    method AckWith(h: CmdHandle)
      requires ValidUuid(h.cmdId)
      modifies this`published
      ensures |published| == |old(published)| + 1 && published[..|old(published)|] == old(published)
      ensures var s := published[|old(published)|];
        && s.bodyId == h.cmdId
        && ('/' !in h.org && ValidZid(h.zid) ==>
              ParseMsgCmdAck(s.key) == Some(Ack(h.org, h.zid, h.cmdId)) && AckedCommand(s) == Some(h.cmdId))
    {
      hide ParseMsgCmdAck, Build;
      var ke := Build(h.org, h.zid, MsgCmdAck(h.cmdId));
      published := published + [AckSample(ke, h.cmdId)];
      if '/' !in h.org && ValidZid(h.zid) { AckOfBuilt(h.org, h.zid, MsgCmdAck(h.cmdId)); }
    }
  }

  /** The gateway's gate in front of `record_ack`: which command, if any, a sample acknowledges. */
  function AckedCommand(s: AckSample): Option<string> {
    match ParseMsgCmdAck(s.key)
    case None => None
    case Some(a) => if s.bodyId != a.cmdId then None else Some(a.cmdId)
  }

  /** A handle's own ack passes the gate for its own command; with the key of one handle and the
      body of another it passes only when both name the same command. */
  lemma AckGateIff(h: CmdHandle, body: string)
    requires '/' !in h.org && ValidZid(h.zid) && ValidUuid(h.cmdId)
    ensures AckedCommand(AckSample(Build(h.org, h.zid, MsgCmdAck(h.cmdId)), body)) ==
            if body == h.cmdId then Some(h.cmdId) else None
  {
    hide ParseMsgCmdAck, Build;
    AckOfBuilt(h.org, h.zid, MsgCmdAck(h.cmdId));
  }
}
