// The streaming loop of the Anthropic runner: content blocks arrive interleaved by index, tool
// inputs arrive as JSON fragments, and the loop reassembles them while forwarding events.
module AnthropicStream {
  import opened Wrappers

  datatype StreamEvent =
    | MessageStart(inputTokens: nat)
    | ToolStart(index: nat, id: string, name: string, seed: string) // seed is "" for null and {}
    | OtherStart(index: nat)
    | TextDelta(index: nat, text: string)
    | JsonDelta(index: nat, part: string)
    | OtherDelta(index: nat)
    | BlockStop(index: nat)
    | MessageDelta(outputTokens: Option<nat>)
    | MessageStop
    | StreamError(msg: string)
    | OtherEvent

  /** What the select yields: an event, a receive error, or the cancellation. */
  datatype Item = Ev(ev: StreamEvent) | RecvError(msg: string) | Cancellation

  datatype Input = EmptyObject | Parsed(json: string) | Unparsable(raw: string)

  datatype ToolUse = ToolUse(id: string, name: string, input: Input)

  datatype Emitted =
    | Connected
    | Text(content: string)
    | Tool(use: ToolUse)
    | Done(inputTokens: nat, outputTokens: nat)
    | Error(msg: string)

  datatype RunResult = RunResult(
    text: string, toolUses: seq<ToolUse>, toolCalls: nat,
    inputTokens: nat, outputTokens: nat, error: Option<string>)

  datatype Pending = Pending(id: string, name: string, json: string)

  /** Which strings are JSON, as `serde_json::from_str` decides, and which are only white space. */
  datatype JsonReader = JsonReader(valid: string -> bool, blank: string -> bool)

  function ToInput(rd: JsonReader, json: string): Input {
    if rd.blank(json) then EmptyObject else if rd.valid(json) then Parsed(json) else Unparsable(json)
  }

  function Finish(rd: JsonReader, p: Pending): ToolUse {
    ToolUse(p.id, p.name, ToInput(rd, p.json))
  }

  function Last<T>(s: seq<T>): T requires s != [] { s[|s| - 1] }

  function Init<T>(s: seq<T>): seq<T> requires s != [] { s[..|s| - 1] }

  // ---- Specification: what each index has assembled after some events ----------------------------

  /** The tool being assembled at index `i`, looking at events of that index only. */
  function InHand(evs: seq<StreamEvent>, i: nat): Option<Pending> {
    if evs == [] then None
    else match Last(evs)
      case ToolStart(j, id, name, seed) => if j == i then Some(Pending(id, name, seed)) else InHand(Init(evs), i)
      case JsonDelta(j, part) =>
        (match InHand(Init(evs), i)
         case Some(p) => Some(if j == i then p.(json := p.json + part) else p)
         case None => None)
      case BlockStop(j) => if j == i then None else InHand(Init(evs), i)
      case _ => InHand(Init(evs), i)
  }

  /** The tools finished so far, in the order of their stops. */
  function ToolsOf(rd: JsonReader, evs: seq<StreamEvent>): seq<ToolUse> {
    if evs == [] then []
    else ToolsOf(rd, Init(evs)) + Stopped(rd, Init(evs), Last(evs))
  }

  function Stopped(rd: JsonReader, before: seq<StreamEvent>, ev: StreamEvent): seq<ToolUse> {
    match ev
    case BlockStop(i) => (match InHand(before, i) case Some(p) => [Finish(rd, p)] case None => [])
    case _ => []
  }

  function TextOf(evs: seq<StreamEvent>): string {
    if evs == [] then ""
    else TextOf(Init(evs)) + match Last(evs) case TextDelta(_, t) => t case _ => ""
  }

  /** The JSON fragments of index `i`, concatenated. */
  function Fragments(evs: seq<StreamEvent>, i: nat): string {
    if evs == [] then ""
    else Fragments(Init(evs), i) + match Last(evs) case JsonDelta(j, part) => (if j == i then part else "") case _ => ""
  }

  predicate Delimits(ev: StreamEvent, i: nat) {
    (ev.ToolStart? || ev.BlockStop?) && ev.index == i
  }

  predicate OpenedAt(evs: seq<StreamEvent>, i: nat, k: nat, p: Pending) {
    && k < |evs| && evs[k].ToolStart?
    && evs[k].index == i && evs[k].id == p.id && evs[k].name == p.name
    && (forall m :: k < m < |evs| ==> !Delimits(evs[m], i))
    && p.json == evs[k].seed + Fragments(evs[k + 1..], i)
  }

  /** A tool is in hand exactly when its index has been started and not started again or stopped
      since; it then holds its seed followed by exactly the fragments of its own index since. */
  lemma {:induction false} InHandIff(evs: seq<StreamEvent>, i: nat, p: Pending)
    ensures InHand(evs, i) == Some(p) <==>
      exists k :: 0 <= k < |evs| && OpenedAt(evs, i, k, p)
  {
    if InHand(evs, i) == Some(p) {
      var k := OpeningOf(evs, i, p);
    }
    if k :| 0 <= k < |evs| && OpenedAt(evs, i, k, p) {
      OpenedIsInHand(evs, i, k, p);
    }
  }

  lemma {:induction false} OpeningOf(evs: seq<StreamEvent>, i: nat, p: Pending) returns (k: nat)
    requires InHand(evs, i) == Some(p)
    ensures k < |evs| && OpenedAt(evs, i, k, p)
  {
    var init, last := Init(evs), Last(evs);
    if last.ToolStart? && last.index == i {
      k := |evs| - 1;
      assert evs[k + 1..] == [];
    } else {
      var p' := InHand(init, i).value;
      k := OpeningOf(init, i, p');
      StaysOpen(init, last, i, k, p', p);
      assert evs == init + [last];
    }
  }

  /** An event that does not delimit index `i` leaves its tool open, with its own fragment added. */
  lemma StaysOpen(evs: seq<StreamEvent>, ev: StreamEvent, i: nat, k: nat, p: Pending, p': Pending)
    requires OpenedAt(evs, i, k, p) && !Delimits(ev, i)
    requires p' == p.(json := p'.json)
    requires p'.json == p.json + match ev case JsonDelta(j, part) => (if j == i then part else "") case _ => ""
    ensures OpenedAt(evs + [ev], i, k, p')
  {
    hide Fragments;
    var more, tail := evs + [ev], Fragments(evs[k + 1..], i);
    FragmentsSnoc(evs[k + 1..], ev, i);
    assert more[k + 1..] == evs[k + 1..] + [ev];
    assert more[k] == evs[k];
    forall m | k < m < |more| ensures !Delimits(more[m], i) {
      if m < |evs| { assert more[m] == evs[m]; }
    }
    assert forall t :: evs[k].seed + tail + t == evs[k].seed + (tail + t);
  }

  lemma FragmentsSnoc(evs: seq<StreamEvent>, ev: StreamEvent, i: nat)
    ensures Fragments(evs + [ev], i) == Fragments(evs, i) +
      match ev case JsonDelta(j, part) => (if j == i then part else "") case _ => ""
  {
    assert Init(evs + [ev]) == evs;
  }

  lemma {:induction false} OpenedIsInHand(evs: seq<StreamEvent>, i: nat, k: nat, p: Pending)
    requires k < |evs| && OpenedAt(evs, i, k, p)
    ensures InHand(evs, i) == Some(p)
    decreases |evs|
  {
    var init, last := Init(evs), Last(evs);
    if k == |evs| - 1 {
      assert evs[k + 1..] == [];
      assert evs[k].seed + "" == evs[k].seed;
    } else {
      var p' := p.(json := init[k].seed + Fragments(init[k + 1..], i));
      FragmentsSnoc(init[k + 1..], last, i);
      assert evs[k + 1..] == init[k + 1..] + [last];
      assert forall m :: k < m < |init| ==> evs[m] == init[m];
      assert OpenedAt(init, i, k, p');
      OpenedIsInHand(init, i, k, p');
      assert !Delimits(evs[|evs| - 1], i);
      var grown := Fragments(init[k + 1..], i);
      if last.JsonDelta? && last.index == i {
        assert init[k].seed + (grown + last.part) == p'.json + last.part;
      } else {
        assert grown + "" == grown;
      }
    }
  }

  // ---- Interleaving ---------------------------------------------------------------------------

  predicate Concerns(ev: StreamEvent, i: nat) {
    (ev.ToolStart? || ev.JsonDelta? || ev.BlockStop?) && ev.index == i
  }

  /** The events of one index, in order. */
  function Only(evs: seq<StreamEvent>, i: nat): seq<StreamEvent> {
    if evs == [] then []
    else Only(Init(evs), i) + (if Concerns(Last(evs), i) then [Last(evs)] else [])
  }

  /** The tools finished at index `i`. */
  function ToolsAt(rd: JsonReader, evs: seq<StreamEvent>, i: nat): seq<ToolUse> {
    if evs == [] then []
    else ToolsAt(rd, Init(evs), i) + (if Last(evs) == BlockStop(i) then Stopped(rd, Init(evs), Last(evs)) else [])
  }

  lemma {:induction false} HandSeesOwnIndex(evs: seq<StreamEvent>, i: nat)
    ensures InHand(Only(evs, i), i) == InHand(evs, i)
  {
    if evs != [] {
      HandSeesOwnIndex(Init(evs), i);
      if Concerns(Last(evs), i) {
        assert Init(Only(evs, i)) == Only(Init(evs), i);
      } else {
        assert Only(evs, i) == Only(Init(evs), i);
        OtherIndexKeepsHand(Init(evs), Last(evs), i);
        assert evs == Init(evs) + [Last(evs)];
      }
    }
  }

  lemma OtherIndexKeepsHand(evs: seq<StreamEvent>, ev: StreamEvent, i: nat)
    requires !Concerns(ev, i)
    ensures InHand(evs + [ev], i) == InHand(evs, i)
  {
    assert Init(evs + [ev]) == evs;
  }

  lemma {:induction false} ToolsSeeOwnIndex(rd: JsonReader, evs: seq<StreamEvent>, i: nat)
    ensures ToolsAt(rd, Only(evs, i), i) == ToolsAt(rd, evs, i)
  {
    if evs != [] {
      ToolsSeeOwnIndex(rd, Init(evs), i);
      HandSeesOwnIndex(Init(evs), i);
      if Concerns(Last(evs), i) {
        assert Init(Only(evs, i)) == Only(Init(evs), i);
      } else {
        assert Only(evs, i) == Only(Init(evs), i);
      }
    }
  }

  /** Any two interleavings of the same per-index streams finish the same tools at each index. */
  lemma InterleavingIsIrrelevant(rd: JsonReader, a: seq<StreamEvent>, b: seq<StreamEvent>, i: nat)
    requires Only(a, i) == Only(b, i)
    ensures ToolsAt(rd, a, i) == ToolsAt(rd, b, i) && InHand(a, i) == InHand(b, i)
  {
    ToolsSeeOwnIndex(rd, a, i);
    ToolsSeeOwnIndex(rd, b, i);
    HandSeesOwnIndex(a, i);
    HandSeesOwnIndex(b, i);
  }

  // ---- The loop -------------------------------------------------------------------------------

  predicate Ends(it: Item) {
    !it.Ev? || it.ev.MessageStop? || it.ev.StreamError?
  }

  /** None of the first `n` items ends the loop. */
  predicate Ongoing(items: seq<Item>, n: nat) {
    n <= |items| && forall k :: 0 <= k < n ==> items[k].Ev? && !Ends(items[k])
  }

  lemma EventsSnoc(items: seq<Item>, n: nat)
    requires Ongoing(items, n) && n < |items| && !Ends(items[n])
    ensures Ongoing(items, n + 1) && Events(items, n + 1) == Events(items, n) + [items[n].ev]
  {
  }

  /** The events of the first `n` items. */
  function Events(items: seq<Item>, n: nat): (evs: seq<StreamEvent>)
    requires Ongoing(items, n)
    ensures |evs| == n && forall k :: 0 <= k < n ==> evs[k] == items[k].ev
  {
    seq(n, k requires 0 <= k < n => items[k].ev)
  }

  function EmittedText(out: seq<Emitted>): string {
    if out == [] then "" else EmittedText(Init(out)) + match Last(out) case Text(t) => t case _ => ""
  }

  function EmittedTools(out: seq<Emitted>): seq<ToolUse> {
    if out == [] then [] else EmittedTools(Init(out)) + match Last(out) case Tool(u) => [u] case _ => []
  }

  predicate Closing(e: Emitted) { e.Done? || e.Error? }

  /** What is sent for one event: `before` decides which tool a stop finishes. */
  function SentFor(rd: JsonReader, before: seq<StreamEvent>, ev: StreamEvent): seq<Emitted> {
    match ev
    case MessageStart(_) => [Connected]
    case TextDelta(_, t) => [Text(t)]
    case BlockStop(i) => (match InHand(before, i) case Some(p) => [Tool(Finish(rd, p))] case None => [])
    case _ => []
  }

  /** Everything sent before the closing event, in order. */
  function Sent(rd: JsonReader, evs: seq<StreamEvent>): seq<Emitted> {
    if evs == [] then [] else Sent(rd, Init(evs)) + SentFor(rd, Init(evs), Last(evs))
  }

  /** The last reported input-token count. */
  function InputTokens(evs: seq<StreamEvent>): nat {
    if evs == [] then 0 else match Last(evs) case MessageStart(n) => n case _ => InputTokens(Init(evs))
  }

  /** The last reported output-token count. */
  function OutputTokens(evs: seq<StreamEvent>): nat {
    if evs == [] then 0 else match Last(evs) case MessageDelta(Some(n)) => n case _ => OutputTokens(Init(evs))
  }

  /** What was sent carries exactly the assembled tools and text, and nothing that closes. */
  lemma {:induction false} SentMirrors(rd: JsonReader, evs: seq<StreamEvent>)
    ensures EmittedTools(Sent(rd, evs)) == ToolsOf(rd, evs)
    ensures EmittedText(Sent(rd, evs)) == TextOf(evs)
    ensures forall k :: 0 <= k < |Sent(rd, evs)| ==> !Closing(Sent(rd, evs)[k])
  {
    if evs != [] {
      hide SentFor, Stopped, EmittedTools, EmittedText, Closing;
      SentMirrors(rd, Init(evs));
      SentStep(rd, Init(evs), Last(evs), Sent(rd, Init(evs)));
    }
  }

  lemma SentStep(rd: JsonReader, before: seq<StreamEvent>, ev: StreamEvent, out: seq<Emitted>)
    ensures EmittedTools(out + SentFor(rd, before, ev)) == EmittedTools(out) + Stopped(rd, before, ev)
    ensures EmittedText(out + SentFor(rd, before, ev)) ==
            EmittedText(out) + match ev case TextDelta(_, t) => t case _ => ""
    ensures forall e :: e in SentFor(rd, before, ev) ==> !Closing(e)
  {
    hide EmittedTools, EmittedText, InHand, Finish;
    var f := SentFor(rd, before, ev);
    if f == [] {
      assert out + f == out;
    } else {
      EmitSnoc(out, f[0]);
      assert f == [f[0]];
    }
  }

  lemma EmitSnoc(out: seq<Emitted>, e: Emitted)
    ensures EmittedText(out + [e]) == EmittedText(out) + match e case Text(t) => t case _ => ""
    ensures EmittedTools(out + [e]) == EmittedTools(out) + match e case Tool(u) => [u] case _ => []
  {
    assert Init(out + [e]) == out;
  }

  lemma EventSnoc(rd: JsonReader, evs: seq<StreamEvent>, ev: StreamEvent)
    ensures ToolsOf(rd, evs + [ev]) == ToolsOf(rd, evs) + Stopped(rd, evs, ev)
    ensures TextOf(evs + [ev]) == TextOf(evs) + match ev case TextDelta(_, t) => t case _ => ""
    ensures Sent(rd, evs + [ev]) == Sent(rd, evs) + SentFor(rd, evs, ev)
    ensures InputTokens(evs + [ev]) == match ev case MessageStart(n) => n case _ => InputTokens(evs)
    ensures OutputTokens(evs + [ev]) == match ev case MessageDelta(Some(n)) => n case _ => OutputTokens(evs)
  {
    assert Init(evs + [ev]) == evs;
  }

  // ---- what is sent, event by event ------------------------------------------------------------------

  /** The tool of index `i` open just before event `k` was started by event `s`. */
  predicate OpenedBy(evs: seq<StreamEvent>, s: nat, k: nat, i: nat) {
    && s < k <= |evs| && evs[s].ToolStart? && evs[s].index == i
    && forall m :: s < m < k && (evs[m].ToolStart? || evs[m].BlockStop?) ==> evs[m].index != i
  }

  /** How assembled JSON is read: nothing but white space is the empty object, and what is not JSON is kept. */
  predicate ReadsAs(rd: JsonReader, json: string, input: Input) {
    && (input == EmptyObject <==> rd.blank(json))
    && (input == Parsed(json) <==> !rd.blank(json) && rd.valid(json))
    && (input == Unparsable(json) <==> !rd.blank(json) && !rd.valid(json))
  }

  /** Event `k` stops a tool, and `u` is that tool: the id and name of the start that opened it, and its seed
      followed by the fragments of its own index in between. */
  predicate ToolFrom(rd: JsonReader, evs: seq<StreamEvent>, k: nat, u: ToolUse) {
    && k < |evs| && evs[k].BlockStop?
    && exists s :: 0 <= s < k && OpenedBy(evs, s, k, evs[k].index) && u.id == evs[s].id && u.name == evs[s].name
         && ReadsAs(rd, evs[s].seed + Fragments(evs[s + 1..k], evs[k].index), u.input)
  }

  predicate StopsTool(evs: seq<StreamEvent>, k: nat)
    requires k < |evs|
  {
    evs[k].BlockStop? && exists s :: 0 <= s < k && OpenedBy(evs, s, k, evs[k].index)
  }

  predicate SentBy(rd: JsonReader, evs: seq<StreamEvent>, k: nat, e: Emitted)
    requires k < |evs|
  {
    match evs[k]
    case MessageStart(_) => e == Connected
    case TextDelta(_, t) => e == Text(t)
    case BlockStop(_) => e.Tool? && ToolFrom(rd, evs, k, e.use)
    case _ => false
  }

  predicate Sends(evs: seq<StreamEvent>, k: nat)
    requires k < |evs|
  {
    evs[k].MessageStart? || evs[k].TextDelta? || StopsTool(evs, k)
  }

  predicate Increasing(at: seq<nat>, n: nat) {
    (forall m :: 0 <= m < |at| ==> at[m] < n) && forall m, l :: 0 <= m < l < |at| ==> at[m] < at[l]
  }

  /** `at` lists the events that send something, and `out` is what each of them sends. */
  predicate SentAt(rd: JsonReader, evs: seq<StreamEvent>, out: seq<Emitted>, at: seq<nat>) {
    && |at| == |out| && Increasing(at, |evs|)
    && (forall m :: 0 <= m < |at| ==> SentBy(rd, evs, at[m], out[m]))
    && forall k :: 0 <= k < |evs| && Sends(evs, k) ==> k in at
  }

  /** `at` lists the stops of open tools, and `tools` are those tools. */
  predicate ToolsAtStops(rd: JsonReader, evs: seq<StreamEvent>, tools: seq<ToolUse>, at: seq<nat>) {
    && |at| == |tools| && Increasing(at, |evs|)
    && (forall m :: 0 <= m < |at| ==> ToolFrom(rd, evs, at[m], tools[m]))
    && forall k :: 0 <= k < |evs| && StopsTool(evs, k) ==> k in at
  }

  lemma FinishReads(rd: JsonReader, p: Pending)
    ensures var u := Finish(rd, p); u.id == p.id && u.name == p.name && ReadsAs(rd, p.json, u.input)
  {
  }

  /** The tool a stop finishes is the one its index holds. */
  lemma StopTool(rd: JsonReader, evs: seq<StreamEvent>, i: nat)
    ensures var all := evs + [BlockStop(i)];
      match InHand(evs, i)
      case Some(p) => StopsTool(all, |evs|) && ToolFrom(rd, all, |evs|, Finish(rd, p))
      case None => !StopsTool(all, |evs|)
  {
    var all := evs + [BlockStop(i)];
    hide InHand, Fragments, ReadsAs, Finish;
    if InHand(evs, i).Some? {
      var p := InHand(evs, i).value;
      var s := OpeningOf(evs, i, p);
      assert all[s + 1..|evs|] == evs[s + 1..] && all[s] == evs[s];
      FinishReads(rd, p);
      assert OpenedBy(all, s, |evs|, i);
    } else {
      forall s | 0 <= s < |evs| ensures !OpenedBy(all, s, |evs|, i) {
        var p := Pending(if evs[s].ToolStart? then evs[s].id else "", if evs[s].ToolStart? then evs[s].name else "",
                         if evs[s].ToolStart? then evs[s].seed + Fragments(evs[s + 1..], i) else "");
        InHandIff(evs, i, p);
        assert !OpenedAt(evs, i, s, p);
        OpenedBoth(evs, all, s, i, p);
      }
    }
  }

  lemma OpenedBoth(evs: seq<StreamEvent>, all: seq<StreamEvent>, s: nat, i: nat, p: Pending)
    requires all == evs + [BlockStop(i)] && s < |evs|
    requires evs[s].ToolStart? ==>
      p.id == evs[s].id && p.name == evs[s].name && p.json == evs[s].seed + Fragments(evs[s + 1..], i)
    ensures OpenedBy(all, s, |evs|, i) ==> OpenedAt(evs, i, s, p)
  {
    hide Fragments;
    assert forall m :: 0 <= m < |evs| ==> all[m] == evs[m];
  }

  /** What event `k` sends does not depend on later events. */
  lemma LaterIsIrrelevant(rd: JsonReader, evs: seq<StreamEvent>, ev: StreamEvent, k: nat)
    requires k < |evs|
    ensures forall e :: SentBy(rd, evs, k, e) ==> SentBy(rd, evs + [ev], k, e)
    ensures forall u :: ToolFrom(rd, evs, k, u) ==> ToolFrom(rd, evs + [ev], k, u)
    ensures StopsTool(evs + [ev], k) ==> StopsTool(evs, k)
  {
    hide Fragments, ReadsAs;
    var all := evs + [ev];
    assert forall m :: 0 <= m < |evs| ==> all[m] == evs[m];
    forall s: nat, i | s < k ensures OpenedBy(evs, s, k, i) <==> OpenedBy(all, s, k, i) {
    }
    forall s | 0 <= s < k ensures all[s] == evs[s] && all[s + 1..k] == evs[s + 1..k] {
    }
  }

  lemma {:induction false} SentAreAt(rd: JsonReader, evs: seq<StreamEvent>) returns (at: seq<nat>)
    ensures SentAt(rd, evs, Sent(rd, evs), at)
  {
    if evs == [] {
      at := [];
    } else {
      var before, ev := Init(evs), Last(evs);
      assert evs == before + [ev];
      at := SentAreAt(rd, before);
      at := OneMoreSent(rd, before, ev, Sent(rd, before), at);
    }
  }

  lemma OneMoreSent(rd: JsonReader, evs: seq<StreamEvent>, ev: StreamEvent, out: seq<Emitted>, at: seq<nat>)
    returns (at': seq<nat>)
    requires SentAt(rd, evs, out, at)
    ensures SentAt(rd, evs + [ev], out + SentFor(rd, evs, ev), at')
  {
    hide SentBy, StopsTool, InHand, ToolFrom;
    var all, more, n := evs + [ev], SentFor(rd, evs, ev), |evs|;
    LastSends(rd, evs, ev);
    at' := if more == [] then at else at + [n];
    forall m | 0 <= m < |at| ensures SentBy(rd, all, at[m], out[m]) {
      LaterIsIrrelevant(rd, evs, ev, at[m]);
    }
    forall k | 0 <= k < n && Sends(all, k) ensures k in at {
      LaterIsIrrelevant(rd, evs, ev, k);
      assert Sends(evs, k);
    }
    if more == [] { assert out + more == out; }
  }

  lemma LastSends(rd: JsonReader, evs: seq<StreamEvent>, ev: StreamEvent)
    ensures var all, more, n := evs + [ev], SentFor(rd, evs, ev), |evs|;
      && |more| <= 1 && (more != [] <==> Sends(all, n)) && (more != [] ==> SentBy(rd, all, n, more[0]))
  {
    hide InHand, Finish, ToolFrom, OpenedBy;
    if ev.BlockStop? { StopTool(rd, evs, ev.index); }
  }

  lemma {:induction false} ToolsAreAt(rd: JsonReader, evs: seq<StreamEvent>) returns (at: seq<nat>)
    ensures ToolsAtStops(rd, evs, ToolsOf(rd, evs), at)
  {
    if evs == [] {
      at := [];
    } else {
      var before, ev := Init(evs), Last(evs);
      assert evs == before + [ev];
      at := ToolsAreAt(rd, before);
      at := OneMoreTool(rd, before, ev, ToolsOf(rd, before), at);
    }
  }

  lemma OneMoreTool(rd: JsonReader, evs: seq<StreamEvent>, ev: StreamEvent, tools: seq<ToolUse>, at: seq<nat>)
    returns (at': seq<nat>)
    requires ToolsAtStops(rd, evs, tools, at)
    ensures ToolsAtStops(rd, evs + [ev], tools + Stopped(rd, evs, ev), at')
  {
    var all, more, n := evs + [ev], Stopped(rd, evs, ev), |evs|;
    hide StopsTool, InHand, ToolFrom, Finish;
    LastStops(rd, evs, ev);
    at' := if more == [] then at else at + [n];
    forall m | 0 <= m < |at| ensures ToolFrom(rd, all, at[m], tools[m]) {
      LaterIsIrrelevant(rd, evs, ev, at[m]);
    }
    forall k | 0 <= k < n && StopsTool(all, k) ensures k in at {
      LaterIsIrrelevant(rd, evs, ev, k);
    }
    if more == [] { assert tools + more == tools; }
  }

  lemma LastStops(rd: JsonReader, evs: seq<StreamEvent>, ev: StreamEvent)
    ensures var all, more, n := evs + [ev], Stopped(rd, evs, ev), |evs|;
      && |more| <= 1 && (more != [] <==> StopsTool(all, n)) && (more != [] ==> ToolFrom(rd, all, n, more[0]))
  {
    hide InHand, Finish, ToolFrom, OpenedBy;
    if ev.BlockStop? { StopTool(rd, evs, ev.index); }
  }

  predicate StopsAt(evs: seq<StreamEvent>, i: nat, k: nat)
    requires k < |evs|
  {
    evs[k] == BlockStop(i) && StopsTool(evs, k)
  }

  predicate ToolAt(rd: JsonReader, evs: seq<StreamEvent>, i: nat, k: nat, u: ToolUse)
    requires k < |evs|
  {
    evs[k] == BlockStop(i) && ToolFrom(rd, evs, k, u)
  }

  /** `at` lists the stops of open tools of index `i`, and `tools` are those tools. */
  predicate ToolsAtIndex(rd: JsonReader, evs: seq<StreamEvent>, i: nat, tools: seq<ToolUse>, at: seq<nat>) {
    && |at| == |tools| && Increasing(at, |evs|)
    && (forall m :: 0 <= m < |at| ==> ToolAt(rd, evs, i, at[m], tools[m]))
    && forall k :: 0 <= k < |evs| && StopsAt(evs, i, k) ==> k in at
  }

  lemma {:induction false} ToolsAtAre(rd: JsonReader, evs: seq<StreamEvent>, i: nat) returns (at: seq<nat>)
    ensures ToolsAtIndex(rd, evs, i, ToolsAt(rd, evs, i), at)
  {
    if evs == [] {
      at := [];
    } else {
      var before, ev := Init(evs), Last(evs);
      assert evs == before + [ev];
      at := ToolsAtAre(rd, before, i);
      at := OneMoreAt(rd, before, ev, i, ToolsAt(rd, before, i), at);
    }
  }

  lemma OneMoreAt(rd: JsonReader, evs: seq<StreamEvent>, ev: StreamEvent, i: nat, tools: seq<ToolUse>, at: seq<nat>)
    returns (at': seq<nat>)
    requires ToolsAtIndex(rd, evs, i, tools, at)
    ensures ToolsAtIndex(rd, evs + [ev], i, tools + if ev == BlockStop(i) then Stopped(rd, evs, ev) else [], at')
  {
    hide StopsAt, ToolAt, InHand, Finish, Stopped;
    var all, n := evs + [ev], |evs|;
    var more := if ev == BlockStop(i) then Stopped(rd, evs, ev) else [];
    LastStopsAt(rd, evs, ev, i);
    at' := if more == [] then at else at + [n];
    forall m | 0 <= m < |at| ensures ToolAt(rd, all, i, at[m], tools[m]) {
      LaterAt(rd, evs, ev, i, at[m]);
    }
    forall k | 0 <= k < n && StopsAt(all, i, k) ensures k in at {
      LaterAt(rd, evs, ev, i, k);
    }
    if more == [] { assert tools + more == tools; }
  }

  lemma LastStopsAt(rd: JsonReader, evs: seq<StreamEvent>, ev: StreamEvent, i: nat)
    ensures var all, n := evs + [ev], |evs|; var more := if ev == BlockStop(i) then Stopped(rd, evs, ev) else [];
      && |more| <= 1 && (more != [] <==> StopsAt(all, i, n)) && (more != [] ==> ToolAt(rd, all, i, n, more[0]))
  {
    hide StopsTool, InHand, ToolFrom, Finish, Stopped;
    LastStops(rd, evs, ev);
  }

  lemma LaterAt(rd: JsonReader, evs: seq<StreamEvent>, ev: StreamEvent, i: nat, k: nat)
    requires k < |evs|
    ensures forall u :: ToolAt(rd, evs, i, k, u) ==> ToolAt(rd, evs + [ev], i, k, u)
    ensures StopsAt(evs + [ev], i, k) ==> StopsAt(evs, i, k)
  {
    hide StopsTool, ToolFrom;
    LaterIsIrrelevant(rd, evs, ev, k);
  }

  /** Of an index's own events none is missing and no other is taken in. */
  lemma {:induction false} OnlyHolds(evs: seq<StreamEvent>, i: nat)
    ensures forall e :: e in Only(evs, i) <==>
              e in evs && match e
                case ToolStart(j, _, _, _) => j == i
                case JsonDelta(j, _) => j == i
                case BlockStop(j) => j == i
                case _ => false
  {
    if evs != [] {
      OnlyHolds(Init(evs), i);
      assert evs == Init(evs) + [Last(evs)];
    }
  }

  ghost predicate Holds(pending: map<nat, Pending>, evs: seq<StreamEvent>) {
    forall i: nat :: InHand(evs, i) == if i in pending then Some(pending[i]) else None
  }

  /** One event of the loop on the pending map. */
  method Assemble(rd: JsonReader, pending: map<nat, Pending>, ev: StreamEvent, ghost evs: seq<StreamEvent>)
    returns (pending': map<nat, Pending>, done: Option<ToolUse>)
    requires Holds(pending, evs)
    ensures Holds(pending', evs + [ev])
    ensures Stopped(rd, evs, ev) == match done case Some(u) => [u] case None => []
    ensures match done
      case Some(u) => ToolFrom(rd, evs + [ev], |evs|, u)
      case None => !StopsTool(evs + [ev], |evs|)
  {
    LastStops(rd, evs, ev);
    hide ToolFrom, StopsTool;
    pending', done := pending, None;
    assert Init(evs + [ev]) == evs && Last(evs + [ev]) == ev;
    match ev {
      case ToolStart(index, id, name, seed) => pending' := pending[index := Pending(id, name, seed)];
      case JsonDelta(index, part) =>
        if index in pending {
          pending' := pending[index := pending[index].(json := pending[index].json + part)];
        }
      case BlockStop(index) =>
        if index in pending {
          done := Some(Finish(rd, pending[index]));
          pending' := pending - {index};
        }
      case _ =>
    }
  }

  /** What the loop sends to the caller's channel for one event. */
  function Forwarded(ev: StreamEvent, done: Option<ToolUse>): seq<Emitted> {
    match ev
    case MessageStart(_) => [Connected]
    case TextDelta(_, t) => [Text(t)]
    case BlockStop(_) => (match done case Some(u) => [Tool(u)] case None => [])
    case _ => []
  }

  lemma ForwardIsSentFor(rd: JsonReader, evs: seq<StreamEvent>, ev: StreamEvent, done: Option<ToolUse>)
    requires Stopped(rd, evs, ev) == match done case Some(u) => [u] case None => []
    ensures Forwarded(ev, done) == SentFor(rd, evs, ev)
    ensures !ev.BlockStop? ==> Stopped(rd, evs, ev) == []
  {
  }

  /** The loop up to its end: `n` items were taken, `out` is what was sent, in order. */
  method Pump(rd: JsonReader, items: seq<Item>)
    returns (text: string, tools: seq<ToolUse>, inTok: nat, outTok: nat, out: seq<Emitted>, n: nat)
    ensures Ongoing(items, n)
    ensures n < |items| ==> Ends(items[n])
    ensures var evs := Events(items, n);
            && tools == ToolsOf(rd, evs) && text == TextOf(evs) && out == Sent(rd, evs)
            && inTok == InputTokens(evs) && outTok == OutputTokens(evs)
  {
    var pending: map<nat, Pending> := map[];
    text, tools, inTok, outTok := "", [], 0, 0;
    out, n := [], 0;
    while n < |items| && !Ends(items[n])
      invariant Ongoing(items, n)
      invariant Holds(pending, Events(items, n))
      invariant tools == ToolsOf(rd, Events(items, n)) && text == TextOf(Events(items, n))
      invariant out == Sent(rd, Events(items, n))
      invariant inTok == InputTokens(Events(items, n)) && outTok == OutputTokens(Events(items, n))
    {
      hide Holds, ToolsOf, TextOf, Sent, InputTokens, OutputTokens, Events, Ongoing, Stopped, SentFor;
      EventsSnoc(items, n);
      var ev, done := items[n].ev, None;
      ghost var evs := Events(items, n);
      EventSnoc(rd, evs, ev);
      pending, done := Assemble(rd, pending, ev, evs);
      ForwardIsSentFor(rd, evs, ev, done);
      out := out + Forwarded(ev, done);
      match ev {
        case MessageStart(t) => inTok := t;
        case TextDelta(_, t) => text := text + t;
        case MessageDelta(u) => if u.Some? { outTok := u.value; }
        case _ =>
      }
      if done.Some? { tools := tools + [done.value]; }
      n := n + 1;
    }
  }

  function ErrorOf(it: Item): Option<string> {
    match it
    case Cancellation => Some("cancelled")
    case RecvError(m) => Some(m)
    case Ev(StreamError(m)) => Some(m)
    case _ => None
  }

  /** An event that neither ends the message nor reports an error. */
  predicate Ordinary(it: Item) { it.Ev? && it.ev != MessageStop && !it.ev.StreamError? }

  /** The stream loop of `run` and its result. It takes ordinary events until something else comes; each
      sends what it carries and each stop of an open tool sends that tool, in order. `tool_uses` and `text`
      mirror what was sent; at most one Done or Error is sent and it is last; a cancelled run sends neither. */
  method StreamLoop(rd: JsonReader, items: seq<Item>)
    returns (r: RunResult, out: seq<Emitted>, n: nat, ghost sent: seq<nat>, ghost stops: seq<nat>)
    ensures Ongoing(items, n)
    ensures (forall k :: 0 <= k < n ==> Ordinary(items[k])) && (n < |items| ==> !Ordinary(items[n]))
    ensures var evs := Events(items, n);
            && r.toolUses == ToolsOf(rd, evs) && r.text == TextOf(evs)
            && r.inputTokens == InputTokens(evs) && r.outputTokens == OutputTokens(evs)
            && ToolsAtStops(rd, evs, r.toolUses, stops)
    ensures var evs := Events(items, n);
            if n == |items| || items[n].Cancellation? then SentAt(rd, evs, out, sent)
            else out != [] && SentAt(rd, evs, Init(out), sent) &&
                 Last(out) == match items[n]
                   case RecvError(m) => Error(m)
                   case Ev(StreamError(m)) => Error(m)
                   case _ => Done(r.inputTokens, r.outputTokens)
    ensures r.toolUses == EmittedTools(out) && r.text == EmittedText(out) && r.toolCalls == |r.toolUses|
    ensures r.error == if n == |items| then None else match items[n]
      case Cancellation => Some("cancelled")
      case RecvError(m) => Some(m)
      case Ev(StreamError(m)) => Some(m)
      case _ => None
    ensures forall k :: 0 <= k < |out| - 1 ==> !Closing(out[k])
    ensures (out != [] && Closing(Last(out))) <==> (n < |items| && !items[n].Cancellation?)
  {
    hide ToolsOf, TextOf, EmittedTools, EmittedText, Sent, InputTokens, OutputTokens, Events, SentAt, ToolsAtStops;
    var text, tools, inTok, outTok;
    text, tools, inTok, outTok, out, n := Pump(rd, items);
    SentMirrors(rd, Events(items, n));
    sent := SentAreAt(rd, Events(items, n));
    stops := ToolsAreAt(rd, Events(items, n));
    ghost var body := out;
    var error := if n < |items| then ErrorOf(items[n]) else None;
    if n < |items| && !items[n].Cancellation? {
      var last := if error.Some? then Error(error.value) else Done(inTok, outTok);
      EmitSnoc(out, last);
      out := out + [last];
      assert Init(out) == body;
    }
    r := RunResult(text, tools, |tools|, inTok, outTok, error);
  }
}
