// The CLI's incremental SSE reader: append each chunk to a buffer, cut off every complete frame,
// print its data. Proved to depend on the stream only, not on how it is cut into chunks.
module SseFramer {
  import opened Wrappers
  import opened Utf8

  /** Position of the leftmost blank line. */
  function FindBlank(s: string): (r: Option<nat>)
    ensures r.Some? ==> r.value + 2 <= |s|
  {
    if |s| < 2 then None
    else if s[0] == '\n' && s[1] == '\n' then Some(0)
    else match FindBlank(s[1..]) case Some(i) => Some(i + 1) case None => None
  }

  /** The complete frames of a stream, cut greedily at the leftmost blank line. */
  function Frames(s: string): seq<string>
    decreases |s|
  {
    match FindBlank(s)
    case None => []
    case Some(e) => [s[..e + 2]] + Frames(s[e + 2..])
  }

  /** What is left of the stream after its complete frames. */
  function Rest(s: string): string
    decreases |s|
  {
    match FindBlank(s)
    case None => s
    case Some(e) => Rest(s[e + 2..])
  }

  // ---- The data of one frame ------------------------------------------------------------------

  function TrimStart(s: string): string {
    if s != "" && IsWhite(s[0]) then TrimStart(s[1..]) else s
  }

  function FindNewline(s: string): (r: Option<nat>)
    ensures r.Some? ==> r.value < |s| && s[r.value] == '\n'
  {
    if s == "" then None
    else if s[0] == '\n' then Some(0)
    else match FindNewline(s[1..]) case Some(i) => Some(i + 1) case None => None
  }

  function StripCr(s: string): string {
    if s != "" && s[|s| - 1] == '\r' then s[..|s| - 1] else s
  }

  /** `str::lines`. */
  function Lines(s: string): seq<string>
    decreases |s|
  {
    match FindNewline(s)
    case Some(i) => [StripCr(s[..i])] + Lines(s[i + 1..])
    case None => if s == "" then [] else [s]
  }

  /** The value of a `data:` line. */
  function DataValue(line: string): Option<string> {
    if |line| >= 5 && line[..5] == "data:" then Some(TrimStart(line[5..])) else None
  }

  function DataValues(lines: seq<string>): seq<string> {
    if lines == [] then []
    else DataValues(lines[..|lines| - 1]) +
         match DataValue(lines[|lines| - 1]) case Some(v) => [v] case None => []
  }

  /** Values joined by newlines, leading empty ones dropped. */
  function JoinValues(vs: seq<string>): string {
    if vs == [] then ""
    else
      var head, last := JoinValues(vs[..|vs| - 1]), vs[|vs| - 1];
      if head == "" then last else head + "\n" + last
  }

  function DataOf(event: string): Option<string> {
    var out := JoinValues(DataValues(Lines(event)));
    if out == "" then None else Some(out)
  }

  function Printed(frame: string): seq<string> {
    match DataOf(frame) case Some(d) => [d] case None => []
  }

  function Payloads(frames: seq<string>): seq<string> {
    if frames == [] then [] else Printed(frames[0]) + Payloads(frames[1..])
  }

  lemma ValuesSnoc(lines: seq<string>, line: string)
    ensures DataValues(lines + [line]) ==
      DataValues(lines) + match DataValue(line) case Some(v) => [v] case None => []
  {
    assert (lines + [line])[..|lines|] == lines;
  }

  lemma JoinSnoc(vs: seq<string>, v: string)
    ensures JoinValues(vs + [v]) == if JoinValues(vs) == "" then v else JoinValues(vs) + "\n" + v
  {
    assert (vs + [v])[..|vs|] == vs;
  }

  lemma NoPayloads()
    ensures Payloads([]) == []
  {
  }

  lemma PayloadsCons(frame: string, later: seq<string>)
    ensures Payloads([frame] + later) == Printed(frame) + Payloads(later)
  {
    assert ([frame] + later)[1..] == later;
  }

  method ParseSseData(event: string) returns (r: Option<string>)
    ensures r == DataOf(event)
  {
    var out, lines := "", Lines(event);
    for i := 0 to |lines|
      invariant out == JoinValues(DataValues(lines[..i]))
    {
      hide JoinValues, DataValues;
      assert lines[..i + 1] == lines[..i] + [lines[i]];
      ValuesSnoc(lines[..i], lines[i]);
      var v := DataValue(lines[i]);
      if v.Some? {
        JoinSnoc(DataValues(lines[..i]), v.value);
        if out != "" { out := out + "\n"; }
        out := out + v.value;
      } else {
        assert DataValues(lines[..i]) + [] == DataValues(lines[..i]);
      }
    }
    assert lines[..|lines|] == lines;
    r := if out == "" then None else Some(out);
  }

  // ---- Chunk independence ---------------------------------------------------------------------

  lemma {:induction false} BlankExtends(a: string, b: string)
    requires FindBlank(a).Some?
    ensures FindBlank(a + b) == FindBlank(a)
  {
    if !(a[0] == '\n' && a[1] == '\n') {
      BlankExtends(a[1..], b);
      assert (a + b)[1..] == a[1..] + b;
    }
  }

  /** Cutting frames off a prefix first does not change the frames or what is left. */
  lemma {:induction false} FramesAppend(a: string, b: string)
    ensures Frames(a + b) == Frames(a) + Frames(Rest(a) + b)
    ensures Rest(a + b) == Rest(Rest(a) + b)
    decreases |a|
  {
    hide FindBlank, Frames, Rest;
    if FindBlank(a).Some? {
      var e := FindBlank(a).value;
      BlankExtends(a, b);
      FramesStep(a);
      FramesStep(a + b);
      FramesAppend(a[e + 2..], b);
      assert (a + b)[..e + 2] == a[..e + 2] && (a + b)[e + 2..] == a[e + 2..] + b;
    } else {
      FramesNone(a);
      assert [] + Frames(a + b) == Frames(a + b);
    }
  }

  lemma {:induction false} PayloadsAppend(a: seq<string>, b: seq<string>)
    ensures Payloads(a + b) == Payloads(a) + Payloads(b)
  {
    hide Payloads;
    if a == [] {
      assert a + b == b;
      assert Payloads([]) == [] by { NoPayloads(); }
    } else {
      PayloadsAppend(a[1..], b);
      PayloadsCons(a[0], a[1..]);
      PayloadsCons(a[0], a[1..] + b);
      assert a == [a[0]] + a[1..] && a + b == [a[0]] + (a[1..] + b);
    }
  }

  /** Splitting loses nothing, and what is left never holds a complete frame. */
  lemma {:induction false} SplitIsExact(s: string)
    ensures FindBlank(Rest(s)).None?
    ensures JoinedFront(Frames(s)) + Rest(s) == s
    decreases |s|
  {
    hide Frames, Rest, JoinedFront;
    if FindBlank(s).Some? {
      var event, tail := s[..FindBlank(s).value + 2], s[FindBlank(s).value + 2..];
      FramesStep(s);
      SplitIsExact(tail);
      JoinedCons(event, Frames(tail));
      assert s == event + tail;
    } else {
      FramesNone(s);
    }
  }

  lemma FramesNone(s: string)
    requires FindBlank(s).None?
    ensures Frames(s) == [] && Rest(s) == s && JoinedFront(Frames(s)) + Rest(s) == s
  {
    hide FindBlank;
    assert Frames(s) == [];
    assert JoinedFront([]) == "";
  }

  lemma FramesStep(s: string)
    requires FindBlank(s).Some?
    ensures var e := FindBlank(s).value;
      Frames(s) == [s[..e + 2]] + Frames(s[e + 2..]) && Rest(s) == Rest(s[e + 2..])
  {
    hide FindBlank;
    RestStep(s, FindBlank(s).value);
    FramesStepAt(s, FindBlank(s).value);
    hide Frames, Rest;
  }

  lemma RestStep(s: string, e: nat)
    requires FindBlank(s) == Some(e)
    ensures e + 2 <= |s| && Rest(s) == Rest(s[e + 2..])
  {
    hide FindBlank, Frames;
  }

  lemma FramesStepAt(s: string, e: nat)
    requires FindBlank(s) == Some(e)
    ensures e + 2 <= |s| && Frames(s) == [s[..e + 2]] + Frames(s[e + 2..])
  {
    hide FindBlank, Rest;
  }

  lemma JoinedCons(part: string, parts: seq<string>)
    ensures JoinedFront([part] + parts) == part + JoinedFront(parts)
  {
    assert ([part] + parts)[1..] == parts;
  }

  function JoinedFront(parts: seq<string>): string {
    if parts == [] then "" else parts[0] + JoinedFront(parts[1..])
  }

  /** The tail loop: each chunk is decoded on its own and appended to the buffer. What is printed and
      what is left are the frames and the rest of the decoded chunks joined together. */
  method Tail(chunks: seq<Bytes>) returns (printed: seq<string>, buf: string)
    ensures printed == Payloads(Frames(Decoded(chunks)))
    ensures buf == Rest(Decoded(chunks)) && FindBlank(buf).None?
  {
    hide Lossy;
    printed, buf := [], "";
    for i := 0 to |chunks|
      invariant printed == Payloads(Frames(Decoded(chunks[..i]))) && buf == Rest(Decoded(chunks[..i]))
    {
      ghost var before := Decoded(chunks[..i]);
      assert chunks[..i + 1][..i] == chunks[..i];
      FramesAppend(before, Lossy(chunks[i]));
      PayloadsAppend(Frames(before), Frames(buf + Lossy(chunks[i])));
      buf := buf + Lossy(chunks[i]);
      printed, buf := DrainFrames(printed, buf);
    }
    assert chunks[..|chunks|] == chunks;
    SplitIsExact(Decoded(chunks));
  }

  /** Cutting a stream into chunks makes no difference as long as no chunk begins inside a character,
      which for ASCII text is always so; a chunk that does begins with a replaced character. */
  lemma ChunksDoNotMatter(s: string, chunks: seq<Bytes>)
    requires Flatten(chunks) == Encode(s)
    ensures CutBetweenChars(chunks) ==>
              Payloads(Frames(Decoded(chunks))) == Payloads(Frames(s)) && Rest(Decoded(chunks)) == Rest(s)
    ensures Ascii(s) ==> CutBetweenChars(chunks)
    ensures !CutBetweenChars(chunks) ==> Decoded(chunks) != s
  {
    hide Payloads, Frames, Rest, Decoded, Flatten, Encode, CutBetweenChars;
    ChunksDecodeIff(s, chunks);
    if Ascii(s) { AsciiCuts(s, chunks); }
  }

  lemma NoFrames()
    ensures forall s :: FindBlank(s).None? ==> Payloads(Frames(s)) == [] && Rest(s) == s
  {
  }

  /** The inner loop: cut complete frames off the front of the buffer. */
  method DrainFrames(printed0: seq<string>, buf0: string) returns (printed: seq<string>, buf: string)
    ensures printed == printed0 + Payloads(Frames(buf0)) && buf == Rest(buf0)
  {
    hide Payloads, DataOf, Frames, Rest;
    NoFrames();
    printed, buf := printed0, buf0;
    var end := FindBlank(buf);
    while end.Some?
      invariant end == FindBlank(buf)
      invariant printed + Payloads(Frames(buf)) == printed0 + Payloads(Frames(buf0))
      invariant Rest(buf) == Rest(buf0)
      decreases |buf|
    {
      var event := buf[..end.value + 2];
      ghost var later := Frames(buf[end.value + 2..]);
      FramesStep(buf);
      PayloadsCons(event, later);
      buf := buf[end.value + 2..];
      var data := ParseSseData(event);
      ghost var before := printed;
      if data.Some? { printed := printed + [data.value]; }
      assert printed + Payloads(later) == before + Payloads([event] + later);
      end := FindBlank(buf);
    }
  }

  // ---- Round trip -------------------------------------------------------------------------------

  /** A frame of the events stream with a one-line payload. */
  function Frame(p: string): string {
    "event: event\ndata: " + p + "\n\n"
  }

  lemma {:induction false} NewlineAfter(a: string, b: string)
    requires '\n' !in a
    ensures FindNewline(a + "\n" + b) == Some(|a|)
  {
    if a == "" {
      assert a + "\n" + b == "\n" + b;
    } else {
      NewlineAfter(a[1..], b);
      assert (a + "\n" + b)[1..] == a[1..] + "\n" + b;
    }
  }

  lemma LineOf(a: string, b: string)
    requires '\n' !in a
    ensures Lines(a + "\n" + b) == [StripCr(a)] + Lines(b)
  {
    NewlineAfter(a, b);
    var s := a + "\n" + b;
    assert s[..|a|] == a && s[|a| + 1..] == b;
  }

  lemma {:induction false} TrimShortens(s: string)
    ensures |TrimStart(s)| <= |s|
    ensures TrimStart(s) == s <==> s == "" || !IsWhite(s[0])
  {
    if s != "" && IsWhite(s[0]) {
      TrimShortens(s[1..]);
    }
  }

  lemma NoLines()
    ensures Lines("") == []
  {
  }

  lemma FrameLines(p: string)
    requires '\n' !in p
    ensures Lines(Frame(p)) == ["event: event", StripCr("data: " + p), ""]
  {
    hide Lines;
    var line := "data: " + p;
    assert forall c :: c in line ==> c in "data: " || c in p;
    LineOf("event: event", "data: " + p + "\n\n");
    LineOf("data: " + p, "\n");
    LineOf("", "");
    NoLines();
    assert StripCr("event: event") == "event: event";
    assert Frame(p) == "event: event" + "\n" + ("data: " + p + "\n\n");
    assert "data: " + p + "\n\n" == "data: " + p + "\n" + "\n";
    assert "" + "\n" + "" == "\n";
  }

  lemma FrameData(p: string)
    requires '\n' !in p
    ensures DataOf(Frame(p)) == var d := TrimStart(StripCr(p)); if d == "" then None else Some(d)
  {
    FrameLines(p);
    var q := StripCr(p);
    assert StripCr("data: " + p) == "data: " + q;
    FrameValues(q);
    JoinSnoc([], TrimStart(q));
    assert [] + [TrimStart(q)] == [TrimStart(q)];
    hide DataValues, TrimStart, StripCr, Lines;
  }

  lemma FrameValues(q: string)
    ensures DataValues(["event: event", "data: " + q, ""]) == [TrimStart(q)]
  {
    var line := "data: " + q;
    DataLine(q);
    NoDataLine();
    hide DataValue, TrimStart, DataValues;
    ValuesSnoc([], "event: event");
    ValuesSnoc(["event: event"], line);
    ValuesSnoc(["event: event", line], "");
    NoValues();
    assert [] + ["event: event"] == ["event: event"];
    assert ["event: event"] + [line] == ["event: event", line];
    assert ["event: event", line] + [""] == ["event: event", line, ""];
  }

  lemma NoDataLine()
    ensures DataValue("event: event").None? && DataValue("").None?
  {
    assert "event: event"[..5][0] == 'e' && "data:"[0] == 'd';
  }

  lemma NoValues()
    ensures DataValues([]) == []
  {
  }

  lemma DataLine(q: string)
    ensures DataValue("data: " + q) == Some(TrimStart(q))
  {
    var line := "data: " + q;
    assert line[..5] == "data:" && line[5..] == " " + q && (" " + q)[1..] == q;
  }

  /** A one-line payload comes back from its frame exactly when it is not empty, does not start with
      white space and does not end in a carriage return. */
  lemma FrameRoundTripIff(p: string)
    requires '\n' !in p
    ensures DataOf(Frame(p)) == Some(p) <==> p != "" && !IsWhite(p[0]) && p[|p| - 1] != '\r'
  {
    FrameData(p);
    TrimShortens(StripCr(p));
  }

  // ---- several data lines ----

  /** A line whose value is not changed by the framing. */
  predicate Plain(p: string) {
    '\n' !in p && (p != "" ==> !IsWhite(p[0]) && p[|p| - 1] != '\r')
  }

  /** A frame with one data line for each of `ps`. */
  function DataLines(ps: seq<string>): string {
    if ps == [] then "\n" else "data:" + " " + ps[0] + "\n" + DataLines(ps[1..])
  }

  function JoinedBy(ps: seq<string>): string {
    if ps == [] then "" else if |ps| == 1 then ps[0] else JoinedBy(ps[..|ps| - 1]) + "\n" + ps[|ps| - 1]
  }

  lemma PlainLine(p: string)
    requires Plain(p)
    ensures var line := "data:" + " " + p;
      '\n' !in line && StripCr(line) == line && DataValue(line) == Some(p)
  {
    var line := "data:" + " " + p;
    assert forall c :: c in line ==> c in "data:" || c == ' ' || c in p;
    assert line == "data: " + p;
    DataLine(p);
    TrimShortens(p);
  }

  lemma {:induction false} ValuesOfLines(ps: seq<string>)
    requires forall p :: p in ps ==> Plain(p)
    ensures DataValues(Lines(DataLines(ps))) == ps
  {
    hide Lines, DataValues, DataValue, Plain;
    if ps == [] {
      LineOf("", "");
      NoLines();
      NoDataLine();
      var none: seq<string> := [];
      assert "" + "\n" + "" == "\n" && StripCr("") == "" && DataLines(ps) == "\n";
      assert Lines("\n") == [""] + none == [""];
      ValuesSnoc(none, "");
      NoValues();
      assert none + [""] == [""] && none + none == none;
    } else {
      var p, later := ps[0], DataLines(ps[1..]);
      assert p in ps;
      PlainLine(p);
      LineOf("data:" + " " + p, later);
      ValuesOfLines(ps[1..]);
      ValuesCons("data:" + " " + p, Lines(later));
      assert [p] + ps[1..] == ps;
    }
  }

  lemma {:induction false} ValuesCons(line: string, lines: seq<string>)
    ensures DataValues([line] + lines) ==
      (match DataValue(line) case Some(v) => [v] case None => []) + DataValues(lines)
    decreases |lines|
  {
    hide DataValue, DataValues;
    if lines == [] {
      ValuesSnoc([], line);
      NoValues();
      assert [] + [line] == [line] && [line] + lines == [line];
    } else {
      var front, last := lines[..|lines| - 1], lines[|lines| - 1];
      ValuesCons(line, front);
      ValuesSnoc(front, last);
      ValuesSnoc([line] + front, last);
      assert lines == front + [last] && [line] + lines == [line] + front + [last];
    }
  }

  lemma {:induction false} JoinIsJoined(ps: seq<string>)
    requires ps != []
    ensures ps[0] != "" ==> JoinValues(ps) == JoinedBy(ps) && JoinValues(ps) != ""
    ensures ps[0] == "" ==> JoinValues(ps) != JoinedBy(ps) || (|ps| == 1 && JoinValues(ps) == "")
    ensures |JoinValues(ps)| <= |JoinedBy(ps)| && (ps[0] == "" && |ps| > 1 ==> |JoinValues(ps)| < |JoinedBy(ps)|)
    decreases |ps|
  {
    if |ps| == 1 {
      assert JoinValues(ps[..0]) == "";
    } else {
      JoinIsJoined(ps[..|ps| - 1]);
    }
  }

  /** A frame with several data lines gives them back, joined by newlines, exactly when the first is not empty;
      leading empty lines are lost. */
  lemma LinesRoundTripIff(ps: seq<string>)
    requires ps != [] && forall p :: p in ps ==> Plain(p)
    ensures DataOf(DataLines(ps)) == Some(JoinedBy(ps)) <==> ps[0] != ""
  {
    hide Lines, DataValues, JoinValues, JoinedBy, DataLines;
    ValuesOfLines(ps);
    JoinIsJoined(ps);
  }

  /** A last line without a newline is read like any other, and keeps its carriage return. */
  lemma UnendedLine(line: string)
    requires '\n' !in line && line != ""
    ensures Lines(line) == [line]
    ensures DataOf("data:" + line) == var d := TrimStart(line); if d == "" then None else Some(d)
  {
    hide TrimStart, DataValues, JoinValues;
    var all := "data:" + line;
    assert forall c :: c in all ==> c in "data:" || c in line;
    NoNewline(line);
    NoNewline(all);
    assert all[..5] == "data:" && all[5..] == line;
    var none: seq<string> := [];
    ValuesSnoc(none, all);
    NoValues();
    JoinSnoc(none, TrimStart(line));
    NoJoin();
    assert none + [all] == [all] && none + [TrimStart(line)] == [TrimStart(line)] && none + none == none;
  }

  lemma {:induction false} NoNewline(s: string)
    requires '\n' !in s
    ensures FindNewline(s).None?
  {
    if s != "" { NoNewline(s[1..]); }
  }

  predicate Clean(p: string) {
    '\n' !in p && p != "" && !IsWhite(p[0]) && p[|p| - 1] != '\r'
  }

  lemma {:induction false} NoBlankBefore(a: string, b: string)
    requires '\n' !in a
    ensures FindBlank(a + "\n\n" + b) == Some(|a|)
  {
    var s := a + "\n\n" + b;
    if a == "" {
      assert s == "\n\n" + b;
    } else {
      NoBlankBefore(a[1..], b);
      assert s[1..] == a[1..] + "\n\n" + b;
    }
  }

  lemma {:induction false} SkipLine(a: string, b: string)
    requires '\n' !in a && b != "" && b[0] != '\n' && FindBlank(b).Some?
    ensures FindBlank(a + "\n" + b) == Some(|a| + 1 + FindBlank(b).value)
  {
    var s := a + "\n" + b;
    if a == "" {
      assert s == "\n" + b && s[1..] == b;
    } else {
      SkipLine(a[1..], b);
      assert s[1..] == a[1..] + "\n" + b;
    }
  }

  // ---- What the server sends ---------------------------------------------------------------------

  /** An event, or a comment to keep the connection alive. */
  datatype Item = Data(payload: string) | Comment(text: string)

  function CommentFrame(text: string): string {
    ":" + text + "\n\n"
  }

  function Sent(items: seq<Item>): string {
    if items == [] then ""
    else (match items[0] case Data(p) => Frame(p) case Comment(t) => CommentFrame(t)) + Sent(items[1..])
  }

  function DataIn(items: seq<Item>): seq<string> {
    if items == [] then []
    else (match items[0] case Data(p) => [p] case Comment(_) => []) + DataIn(items[1..])
  }

  /** One-line comments, and payloads that survive their frame. */
  predicate Sendable(items: seq<Item>) {
    forall i :: 0 <= i < |items| ==> match items[i] case Data(p) => Clean(p) case Comment(t) => '\n' !in t
  }

  lemma FirstComment(t: string, later: string)
    requires '\n' !in t
    ensures Frames(CommentFrame(t) + later) == [CommentFrame(t)] + Frames(later)
    ensures Rest(CommentFrame(t) + later) == Rest(later)
  {
    hide Frames, Rest, FindBlank;
    var line, s := ":" + t, CommentFrame(t) + later;
    assert forall c :: c in line ==> c == ':' || c in t;
    NoBlankBefore(line, later);
    assert s == line + "\n\n" + later;
    assert s[..|line| + 2] == CommentFrame(t) && s[|line| + 2..] == later;
    FramesStep(s);
  }

  lemma CommentIsSilent(t: string)
    requires '\n' !in t
    ensures Printed(CommentFrame(t)) == []
  {
    CommentLines(t);
    hide DataValue, DataValues, JoinValues, StripCr, Lines;
    var first := StripCr(":" + t);
    ValuesSnoc([], first);
    ValuesSnoc([first], "");
    NoValues();
    NoJoin();
    var none: seq<string> := [];
    assert none + [first] == [first] && [first] + [""] == [first, ""] && none + none == none;
  }

  lemma CommentLines(t: string)
    requires '\n' !in t
    ensures var first := StripCr(":" + t);
      && Lines(CommentFrame(t)) == [first, ""] && DataValue(first).None? && DataValue("").None?
  {
    hide Lines, TrimStart;
    var line := ":" + t;
    assert forall c :: c in line ==> c == ':' || c in t;
    assert CommentFrame(t) == line + "\n" + "\n" && "" + "\n" + "" == "\n";
    LineOf(line, "\n");
    LineOf("", "");
    NoLines();
    NoDataLine();
    var first := StripCr(line);
    assert first[0] == ':' && "data:"[0] == 'd';
  }

  lemma NoJoin()
    ensures JoinValues([]) == ""
  {
  }

  /** End to end: clean payloads sent one frame each, with comments anywhere between them, are printed
      exactly, in order, and nothing is left over. */
  lemma {:induction false} SentIsPrinted(items: seq<Item>)
    requires Sendable(items)
    ensures Payloads(Frames(Sent(items))) == DataIn(items) && Rest(Sent(items)) == ""
  {
    if items != [] {
      hide Frames, Rest, Payloads, Printed, Frame, CommentFrame;
      var later := Sent(items[1..]);
      SentIsPrinted(items[1..]);
      match items[0] {
        case Data(p) =>
          FirstFrame(p, later);
          FramePrints(p);
          PayloadsCons(Frame(p), Frames(later));
        case Comment(t) =>
          FirstComment(t, later);
          CommentIsSilent(t);
          PayloadsCons(CommentFrame(t), Frames(later));
      }
    } else {
      NoFrames();
    }
  }

  lemma FramePrints(p: string)
    requires Clean(p)
    ensures Printed(Frame(p)) == [p]
  {
    FrameRoundTripIff(p);
  }

  /** End to end over the wire: what the server sends, encoded and cut between characters in any way, is
      printed exactly. */
  lemma SentOverTheWire(items: seq<Item>, chunks: seq<Bytes>)
    requires Sendable(items) && Flatten(chunks) == Encode(Sent(items)) && CutBetweenChars(chunks)
    ensures Payloads(Frames(Decoded(chunks))) == DataIn(items) && Rest(Decoded(chunks)) == ""
  {
    hide Payloads, Frames, Rest, Decoded, Flatten, Encode, CutBetweenChars, Sent, Sendable;
    SentIsPrinted(items);
    ChunksDoNotMatter(Sent(items), chunks);
  }

  lemma FirstFrame(p: string, later: string)
    requires '\n' !in p
    ensures Frames(Frame(p) + later) == [Frame(p)] + Frames(later) && Rest(Frame(p) + later) == Rest(later)
  {
    var line, body := "data: " + p, "data: " + p + "\n\n" + later;
    assert forall c :: c in line ==> c in "data: " || c in p;
    NoBlankBefore(line, later);
    SkipLine("event: event", body);
    var s := Frame(p) + later;
    assert s == "event: event" + "\n" + body;
    assert s[..|Frame(p)|] == Frame(p) && s[|Frame(p)|..] == later;
  }
}
