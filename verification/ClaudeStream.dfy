// The stream callback of the Claude CLI runner: text, session id, the events offered to the
// caller, and the log of tool calls, where a call is closed by the next call or by the end of the
// stream.
module ClaudeStream {
  import opened Wrappers

  const NS_PER_MS: nat := 1_000_000

  /** A tool block reads the clock twice, in nanoseconds: `seen` to close the call before it, then
      `at` to start its own. */
  datatype Block = TextBlock(text: string) | ToolBlock(name: string, seen: nat, at: nat) | OtherBlock

  datatype ClaudeEvent =
    | System(session: Option<string>)
    | Assistant(blocks: seq<Block>)
    | Finished
    | OtherEvent

  /** Events handed to the caller's channel. */
  datatype Offer = Connected | TextOffer(text: string) | ToolOffer(name: string) | Done | Error(msg: string)

  datatype Ending = CancelledMidStream | StreamOk | StreamFailed(msg: string)

  datatype Call = Call(name: string, durationMs: nat)

  datatype Start = Start(name: string, seen: nat, at: nat)

  datatype Outcome = Outcome(text: string, session: Option<string>, calls: seq<Call>, toolCalls: nat,
                             error: Option<string>)

  // ---- Specification ----------------------------------------------------------------------------

  function BlocksOf(evs: seq<ClaudeEvent>): seq<Block> {
    if evs == [] then []
    else BlocksOf(evs[..|evs| - 1]) + match evs[|evs| - 1] case Assistant(bs) => bs case _ => []
  }

  /** Every tool use of the stream, in order. */
  function Starts(bs: seq<Block>): seq<Start> {
    if bs == [] then []
    else Starts(bs[..|bs| - 1]) +
         match bs[|bs| - 1] case ToolBlock(n, seen, at) => [Start(n, seen, at)] case _ => []
  }

  function Texts(bs: seq<Block>): string {
    if bs == [] then ""
    else Texts(bs[..|bs| - 1]) + match bs[|bs| - 1] case TextBlock(t) => t case _ => ""
  }

  function Elapsed(from: nat, to: nat): nat {
    if to < from then 0 else (to - from) / NS_PER_MS
  }

  /** The calls closed by a later start: each runs from its own start to the next one. */
  function Closed(ss: seq<Start>): (cs: seq<Call>)
    ensures |cs| == if ss == [] then 0 else |ss| - 1
    ensures forall k :: 0 <= k < |cs| ==> cs[k] == Call(ss[k].name, Elapsed(ss[k].at, ss[k + 1].seen))
  {
    if |ss| <= 1 then []
    else Closed(ss[..|ss| - 1]) + [Call(ss[|ss| - 2].name, Elapsed(ss[|ss| - 2].at, ss[|ss| - 1].seen))]
  }

  /** The whole log: the closed calls and, unless the run was cancelled, the one still open. */
  function LogOf(ss: seq<Start>, ending: Ending, now: nat): seq<Call> {
    if ending.CancelledMidStream? || ss == [] then Closed(ss)
    else Closed(ss) + [Call(ss[|ss| - 1].name, Elapsed(ss[|ss| - 1].at, now))]
  }

  /** A call that ran from `from` to `to`, in whole milliseconds, none if the clock says it ended first. */
  predicate Lasted(ms: nat, from: nat, to: nat) {
    if to < from then ms == 0 else ms * 1_000_000 <= to - from < (ms + 1) * 1_000_000
  }

  /** The log of a stream that started these tool uses: one call for each, in order, under its name, from its
      start to the next use or to the end; a cancelled run leaves out the last. */
  predicate LogOfStarts(calls: seq<Call>, ss: seq<Start>, ending: Ending, now: nat) {
    && |calls| == (if ending.CancelledMidStream? && ss != [] then |ss| - 1 else |ss|)
    && forall k :: 0 <= k < |calls| ==>
         && calls[k].name == ss[k].name
         && Lasted(calls[k].durationMs, ss[k].at, if k + 1 < |ss| then ss[k + 1].seen else now)
  }

  lemma ElapsedLasts(from: nat, to: nat)
    ensures Lasted(Elapsed(from, to), from, to)
  {
  }

  lemma LogIsOfStarts(ss: seq<Start>, ending: Ending, now: nat)
    ensures LogOfStarts(LogOf(ss, ending, now), ss, ending, now)
  {
    hide Elapsed, Lasted;
    var calls := LogOf(ss, ending, now);
    forall k | 0 <= k < |calls|
      ensures calls[k].name == ss[k].name
      ensures Lasted(calls[k].durationMs, ss[k].at, if k + 1 < |ss| then ss[k + 1].seen else now)
    {
      ElapsedLasts(ss[k].at, if k + 1 < |ss| then ss[k + 1].seen else now);
    }
  }

  function LastSession(evs: seq<ClaudeEvent>): Option<string> {
    if evs == [] then None
    else match evs[|evs| - 1]
      case System(Some(s)) => Some(s)
      case _ => LastSession(evs[..|evs| - 1])
  }

  function OfferedFor(b: Block): seq<Offer> {
    match b
    case TextBlock(t) => [TextOffer(t)]
    case ToolBlock(n, _, _) => [ToolOffer(n)]
    case OtherBlock => []
  }

  function OfferedBlocks(bs: seq<Block>): seq<Offer> {
    if bs == [] then [] else OfferedBlocks(bs[..|bs| - 1]) + OfferedFor(bs[|bs| - 1])
  }

  predicate SawSystem(evs: seq<ClaudeEvent>) { exists i :: 0 <= i < |evs| && evs[i].System? }

  /** What the callback offers, in order: Connected for the first system event only. */
  function Offered(evs: seq<ClaudeEvent>): seq<Offer> {
    if evs == [] then []
    else
      var front := evs[..|evs| - 1];
      Offered(front) +
      match evs[|evs| - 1]
      case System(_) => if SawSystem(front) then [] else [Connected]
      case Assistant(bs) => OfferedBlocks(bs)
      case Finished => [Done]
      case OtherEvent => []
  }

  /** What a channel takes that has room for the i-th `try_send` exactly when `room(i)`. */
  function Kept(os: seq<Offer>, room: nat -> bool): seq<Offer> {
    if os == [] then []
    else Kept(os[..|os| - 1], room) + if room(|os| - 1) then [os[|os| - 1]] else []
  }

  lemma KeptSnoc(os: seq<Offer>, o: Offer, room: nat -> bool)
    ensures Kept(os + [o], room) == Kept(os, room) + if room(|os|) then [o] else []
  {
    assert (os + [o])[..|os|] == os;
  }

  /** Nothing is lost exactly when there was room for every offer. */
  lemma {:induction false} KeptAllIff(os: seq<Offer>, room: nat -> bool)
    ensures |Kept(os, room)| <= |os|
    ensures Kept(os, room) == os <==> forall i :: 0 <= i < |os| ==> room(i)
  {
    if os != [] {
      var front := os[..|os| - 1];
      KeptAllIff(front, room);
      assert os == front + [os[|os| - 1]];
      if Kept(os, room) == os {
        assert room(|os| - 1);
        assert Kept(front, room) == Kept(os, room)[..|os| - 1];
      }
    }
  }

  lemma BlockSnoc(bs: seq<Block>, b: Block)
    ensures Texts(bs + [b]) == if b.TextBlock? then Texts(bs) + b.text else Texts(bs)
    ensures Starts(bs + [b]) == if b.ToolBlock? then Starts(bs) + [Start(b.name, b.seen, b.at)] else Starts(bs)
    ensures OfferedBlocks(bs + [b]) == OfferedBlocks(bs) + OfferedFor(b)
  {
    assert (bs + [b])[..|bs|] == bs;
  }

  lemma OfferedSnoc(bs: seq<Block>, b: Block)
    ensures OfferedBlocks(bs + [b]) == OfferedBlocks(bs) + OfferedFor(b)
  {
    hide Texts, Starts, OfferedBlocks;
    BlockSnoc(bs, b);
  }

  lemma NothingOffered()
    ensures OfferedBlocks([]) == []
  {
  }

  lemma ClosedSnoc(ss: seq<Start>, s: Start)
    ensures Closed(ss + [s]) ==
      if ss == [] then [] else Closed(ss) + [Call(ss[|ss| - 1].name, Elapsed(ss[|ss| - 1].at, s.seen))]
  {
    assert (ss + [s])[..|ss|] == ss;
  }

  lemma EventSnoc(evs: seq<ClaudeEvent>, e: ClaudeEvent)
    ensures BlocksOf(evs + [e]) == if e.Assistant? then BlocksOf(evs) + e.blocks else BlocksOf(evs)
    ensures LastSession(evs + [e]) == if e.System? && e.session.Some? then e.session else LastSession(evs)
    ensures SawSystem(evs + [e]) <==> SawSystem(evs) || e.System?
    ensures Offered(evs + [e]) == Offered(evs) +
      match e
      case System(_) => if SawSystem(evs) then [] else [Connected]
      case Assistant(bs) => OfferedBlocks(bs)
      case Finished => [Done]
      case OtherEvent => []
  {
    assert (evs + [e])[..|evs|] == evs;
    if SawSystem(evs) {
      var i :| 0 <= i < |evs| && evs[i].System?;
      assert (evs + [e])[i].System?;
    }
    if e.System? { assert (evs + [e])[|evs|].System?; }
  }

  // ---- The callback -----------------------------------------------------------------------------

  class Recorder {
    var text: string
    var calls: seq<Call>
    var open: Option<Start>
    var session: Option<string>
    var connected: bool
    const room: nat -> bool // whether the channel has room for the i-th offer
    var offers: seq<Offer>
    var delivered: seq<Offer>
    ghost var seen: seq<ClaudeEvent>
    ghost var blocks: seq<Block>

    /** The recorder has recorded exactly the blocks seen. */
    ghost predicate Recorded()
      reads `text, `calls, `open, `blocks
    {
      && text == Texts(blocks)
      && calls == Closed(Starts(blocks))
      && open == (if Starts(blocks) == [] then None else Some(Starts(blocks)[|Starts(blocks)| - 1]))
    }

    ghost predicate Valid()
      reads this
    {
      && Recorded() && blocks == BlocksOf(seen)
      && session == LastSession(seen)
      && connected == SawSystem(seen)
      && offers == Offered(seen) && delivered == Kept(offers, room)
    }

    constructor (room: nat -> bool)
      ensures Valid() && seen == [] && this.room == room
    {
      this.room, delivered := room, [];
      text, calls, open, session, connected := "", [], None, None, false;
      offers, seen, blocks := [], [], [];
    }

    /** `try_send`: an offer for which the channel has no room is dropped. */
    method Emit(o: Offer)
      requires delivered == Kept(offers, room)
      modifies `offers, `delivered
      ensures offers == old(offers) + [o] && delivered == Kept(offers, room)
    {
      KeptSnoc(offers, o, room);
      if room(|offers|) { delivered := delivered + [o]; }
      offers := offers + [o];
    }

    /** One content block. A tool use closes the call before it. */
    method OnBlock(b: Block)
      requires Recorded() && delivered == Kept(offers, room)
      modifies `text, `calls, `open, `offers, `delivered, `blocks
      ensures Recorded() && blocks == old(blocks) + [b] && offers == old(offers) + OfferedFor(b)
      ensures delivered == Kept(offers, room)
    {
      hide Starts, Texts, Closed, OfferedBlocks, Kept;
      BlockSnoc(blocks, b);
      ghost var ss := Starts(blocks);
      blocks := blocks + [b];
      match b {
        case TextBlock(t) =>
          text := text + t;
          Emit(TextOffer(t));
        case ToolBlock(name, seenAt, at) =>
          ClosedSnoc(ss, Start(name, seenAt, at));
          if open.Some? {
            calls := calls + [Call(open.value.name, Elapsed(open.value.at, seenAt))];
          }
          Emit(ToolOffer(name));
          open := Some(Start(name, seenAt, at));
        case OtherBlock =>
      }
    }

    method OnBlocks(bs: seq<Block>)
      requires Recorded() && delivered == Kept(offers, room)
      modifies `text, `calls, `open, `offers, `delivered, `blocks
      ensures Recorded() && blocks == old(blocks) + bs && offers == old(offers) + OfferedBlocks(bs)
      ensures delivered == Kept(offers, room)
    {
      hide Recorded, OfferedFor, OfferedBlocks, Kept;
      assert OfferedBlocks(bs[..0]) == [] by { NothingOffered(); }
      for i := 0 to |bs|
        invariant Recorded() && blocks == old(blocks) + bs[..i] && offers == old(offers) + OfferedBlocks(bs[..i])
        invariant delivered == Kept(offers, room)
      {
        OnBlock(bs[i]);
        OfferedSnoc(bs[..i], bs[i]);
        assert bs[..i + 1] == bs[..i] + [bs[i]];
      }
      assert bs[..|bs|] == bs;
    }

    method OnEvent(e: ClaudeEvent)
      requires Valid()
      modifies this
      ensures Valid() && seen == old(seen) + [e]
    {
      hide Recorded, BlocksOf, LastSession, Offered, OfferedBlocks, SawSystem, Kept;
      EventSnoc(seen, e);
      match e {
        case System(s) =>
          if s.Some? { session := s; }
          if !connected {
            connected := true;
            Emit(Connected);
          }
        case Assistant(bs) => OnBlocks(bs);
        case Finished => Emit(Done);
        case OtherEvent =>
      }
      seen := seen + [e];
    }

    /** The close-out. Every tool use of the stream has one entry in the log, in order, running to the
        next use or to the end; a cancelled run leaves out the call that was still open. */
    method Finish(ending: Ending, now: nat) returns (r: Outcome)
      requires Valid()
      modifies this`calls, this`delivered
      ensures r.calls == LogOf(Starts(BlocksOf(seen)), ending, now) && r.toolCalls == |r.calls|
      ensures LogOfStarts(r.calls, Starts(BlocksOf(seen)), ending, now)
      ensures r.text == Texts(BlocksOf(seen)) && r.session == LastSession(seen)
      ensures delivered == Kept(Offered(seen), room) + match ending case StreamFailed(m) => [Error(m)] case _ => []
      ensures r.error == match ending
        case CancelledMidStream => Some("cancelled")
        case StreamOk => None
        case StreamFailed(m) => Some(m)
    {
      LogIsOfStarts(Starts(BlocksOf(seen)), ending, now);
      hide Texts, LastSession, Offered, Kept, BlocksOf, Starts, Closed, Elapsed, SawSystem, LogOfStarts;
      if ending.CancelledMidStream? {
        return Outcome(text, session, calls, |calls|, Some("cancelled"));
      }
      if open.Some? {
        calls := calls + [Call(open.value.name, Elapsed(open.value.at, now))];
      }
      var error := None;
      if ending.StreamFailed? {
        delivered := delivered + [Error(ending.msg)];
        error := Some(ending.msg);
      }
      r := Outcome(text, session, calls, |calls|, error);
    }
  }

  /** The callback on a whole stream, then the close-out. What is recorded does not depend on what the
      channel had room for; what is delivered does, except a final error, which waits for room. */
  method RunCallback(evs: seq<ClaudeEvent>, ending: Ending, now: nat, room: nat -> bool)
    returns (r: Outcome, delivered: seq<Offer>)
    ensures r.calls == LogOf(Starts(BlocksOf(evs)), ending, now) && r.toolCalls == |r.calls|
    ensures LogOfStarts(r.calls, Starts(BlocksOf(evs)), ending, now)
    ensures r.text == Texts(BlocksOf(evs)) && r.session == LastSession(evs)
    ensures delivered == Kept(Offered(evs), room) + match ending case StreamFailed(m) => [Error(m)] case _ => []
  {
    hide BlocksOf, Starts, Texts, Closed, LastSession, Offered, LogOf, Kept, LogOfStarts;
    var rec := new Recorder(room);
    for i := 0 to |evs|
      invariant rec.Valid() && fresh(rec) && rec.seen == evs[..i]
    {
      rec.OnEvent(evs[i]);
      assert evs[..i + 1] == evs[..i] + [evs[i]];
    }
    assert evs[..|evs|] == evs;
    r := rec.Finish(ending, now);
    delivered := rec.delivered;
  }

  // ---- What the log accounts for --------------------------------------------------------------

  function ToolNames(os: seq<Offer>): seq<string> {
    if os == [] then []
    else ToolNames(os[..|os| - 1]) + match os[|os| - 1] case ToolOffer(n) => [n] case _ => []
  }

  function NamesOf(cs: seq<Call>): seq<string> { seq(|cs|, i requires 0 <= i < |cs| => cs[i].name) }

  function StartNames(ss: seq<Start>): seq<string> { seq(|ss|, i requires 0 <= i < |ss| => ss[i].name) }

  lemma {:induction false} ToolNamesAppend(a: seq<Offer>, b: seq<Offer>)
    ensures ToolNames(a + b) == ToolNames(a) + ToolNames(b)
  {
    if b == [] {
      assert a + b == a;
    } else {
      var front := b[..|b| - 1];
      ToolNamesAppend(a, front);
      assert (a + b)[..|a + b| - 1] == a + front;
    }
  }

  lemma NamesOfOne(b: Block)
    ensures ToolNames(OfferedFor(b)) == if b.ToolBlock? then [b.name] else []
    ensures ToolNames(OfferedBlocks([])) == StartNames(Starts([]))
  {
    assert OfferedFor(b) != [] ==> OfferedFor(b)[..0] == [];
  }

  lemma {:induction false} BlocksNameTools(bs: seq<Block>)
    ensures ToolNames(OfferedBlocks(bs)) == StartNames(Starts(bs))
  {
    hide OfferedBlocks, OfferedFor, Starts, StartNames, ToolNames;
    NamesOfOne(OtherBlock);
    if bs != [] {
      var front, b := bs[..|bs| - 1], bs[|bs| - 1];
      BlocksNameTools(front);
      assert bs == front + [b];
      BlockSnoc(front, b);
      NamesOfOne(b);
      ToolNamesAppend(OfferedBlocks(front), OfferedFor(b));
      if b.ToolBlock? {
        StartNamesAppend(Starts(front), [Start(b.name, b.seen, b.at)]);
        assert StartNames([Start(b.name, b.seen, b.at)]) == [b.name] by { OneStartName(b.name, b.seen, b.at); }
      }
    }
  }

  lemma OneStartName(name: string, seen: nat, at: nat)
    ensures StartNames([Start(name, seen, at)]) == [name]
  {
  }

  lemma {:induction false} StartsAppend(a: seq<Block>, b: seq<Block>)
    ensures Starts(a + b) == Starts(a) + Starts(b)
  {
    if b == [] {
      assert a + b == a;
    } else {
      StartsAppend(a, b[..|b| - 1]);
      assert (a + b)[..|a + b| - 1] == a + b[..|b| - 1];
    }
  }

  lemma NoToolNames()
    ensures ToolNames([]) == [] && ToolNames([Connected]) == [] && ToolNames([Done]) == []
    ensures ToolNames(Offered([])) == StartNames(Starts(BlocksOf([])))
  {
    assert [Connected][..0] == [] && [Done][..0] == [];
  }

  lemma StartNamesAppend(a: seq<Start>, b: seq<Start>)
    ensures StartNames(a + b) == StartNames(a) + StartNames(b)
  {
  }

  lemma {:induction false} OffersNameTools(evs: seq<ClaudeEvent>)
    ensures ToolNames(Offered(evs)) == StartNames(Starts(BlocksOf(evs)))
  {
    hide Offered, OfferedBlocks, Starts, BlocksOf, ToolNames, SawSystem, StartNames;
    NoToolNames();
    if evs != [] {
      var front, e := evs[..|evs| - 1], evs[|evs| - 1];
      OffersNameTools(front);
      assert evs == front + [e];
      EventSnoc(front, e);
      match e {
        case Assistant(bs) =>
          ToolNamesAppend(Offered(front), OfferedBlocks(bs));
          BlocksNameTools(bs);
          StartsAppend(BlocksOf(front), bs);
          StartNamesAppend(Starts(BlocksOf(front)), Starts(bs));
        case System(_) => ToolNamesAppend(Offered(front), if SawSystem(front) then [] else [Connected]);
        case Finished => ToolNamesAppend(Offered(front), [Done]);
        case OtherEvent => ToolNamesAppend(Offered(front), []);
      }
    }
  }

  lemma LogNames(ss: seq<Start>, ending: Ending, now: nat)
    ensures var names := StartNames(ss);
      NamesOf(LogOf(ss, ending, now)) ==
        if ending.CancelledMidStream? && names != [] then names[..|names| - 1] else names
  {
    var cs, names := LogOf(ss, ending, now), StartNames(ss);
    forall i | 0 <= i < |cs| ensures i < |ss| && cs[i].name == ss[i].name {
      assert i < |Closed(ss)| ==> Closed(ss)[i] == Call(ss[i].name, Elapsed(ss[i].at, ss[i + 1].seen));
    }
    assert NamesOf(cs) == names[..|cs|];
    assert names[..|names|] == names;
  }

  /** The log names exactly the tools offered, in order; a cancelled run lacks the last of them. */
  lemma LogNamesOfferedTools(evs: seq<ClaudeEvent>, ending: Ending, now: nat)
    ensures var log, tools := LogOf(Starts(BlocksOf(evs)), ending, now), ToolNames(Offered(evs));
      NamesOf(log) == if ending.CancelledMidStream? && tools != [] then tools[..|tools| - 1] else tools
  {
    hide Starts, BlocksOf, Offered, ToolNames, LogOf, NamesOf, StartNames;
    OffersNameTools(evs);
    LogNames(Starts(BlocksOf(evs)), ending, now);
  }

  // ---- Accounting of time -------------------------------------------------------------------------

  function TotalMs(cs: seq<Call>): nat {
    if cs == [] then 0 else TotalMs(cs[..|cs| - 1]) + cs[|cs| - 1].durationMs
  }

  /** The clock does not run backwards. */
  predicate InTime(ss: seq<Start>) {
    (forall k :: 0 <= k < |ss| ==> ss[k].seen <= ss[k].at) &&
    forall k :: 0 <= k < |ss| - 1 ==> ss[k].at <= ss[k + 1].seen
  }

  /** Time spent between closing one call and starting the next. */
  function Gaps(ss: seq<Start>): int {
    if |ss| <= 1 then 0 else Gaps(ss[..|ss| - 1]) + (ss[|ss| - 1].at - ss[|ss| - 1].seen)
  }

  /** Calls never overlap: the logged durations and the gaps together stay within the time from the
      first start to the last, and fall short of it by less than a millisecond a call. */
  lemma {:induction false} CallsDoNotOverlap(ss: seq<Start>)
    requires ss != [] && InTime(ss)
    ensures Gaps(ss) >= 0
    ensures TotalMs(Closed(ss)) * NS_PER_MS + Gaps(ss) <= ss[|ss| - 1].at - ss[0].at
    ensures ss[|ss| - 1].at - ss[0].at <= (TotalMs(Closed(ss)) + |Closed(ss)|) * NS_PER_MS + Gaps(ss)
  {
    if |ss| > 1 {
      var init := ss[..|ss| - 1];
      CallsDoNotOverlap(init);
      var last := Call(ss[|ss| - 2].name, Elapsed(ss[|ss| - 2].at, ss[|ss| - 1].seen));
      assert Closed(ss) == Closed(init) + [last];
      assert (Closed(init) + [last])[..|Closed(init)|] == Closed(init);
      assert ss[|ss| - 2].at <= ss[|ss| - 1].seen <= ss[|ss| - 1].at;
    }
  }
}
