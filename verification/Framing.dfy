/**
 Two incremental readers that cut a stream into frames while chunks arrive:
 blank-line frames in the realtime client of the SDK, newline frames in the
 function runner.  Each is proved to deliver what one pass over the complete
 text would deliver, however the text was cut into chunks.
 */
module Framing {
  import opened Common
  import opened Text

  function Concat(chunks: seq<string>): string {
    if chunks == [] then "" else Concat(Init(chunks)) + Last(chunks)
  }

  /** `text` splits into the closed `frames` and the still open `rest`. */
  ghost predicate Cut(text: string, sep: string, frames: seq<string>, rest: string) {
    sep != "" && Split(text, sep) == frames + [rest]
  }

  lemma CutUnique(text: string, sep: string, frames: seq<string>, rest: string)
    requires Cut(text, sep, frames, rest)
    ensures frames == Init(Split(text, sep)) && rest == Last(Split(text, sep))
  {
  }

  lemma CutEmpty(sep: string)
    requires sep != ""
    ensures Cut("", sep, [], "")
  {
    assert [] + [""] == [""];
  }

  /** More text can only cut the open rest further. */
  lemma CutAppend(text: string, sep: string, frames: seq<string>, rest: string, more: string)
    requires Cut(text, sep, frames, rest)
    ensures Cut(text + more, sep, frames + Init(Split(rest + more, sep)), Last(Split(rest + more, sep)))
  {
    CutUnique(text, sep, frames, rest);
    SplitAppend(text, more, sep);
    RegroupLast(frames, Split(rest + more, sep));
  }

  lemma RegroupLast<T>(a: seq<T>, b: seq<T>)
    requires b != []
    ensures a + b == a + Init(b) + [Last(b)]
  {
    assert b == Init(b) + [Last(b)];
  }

  lemma RegroupFirst<T>(a: seq<T>, x: T, b: seq<T>)
    ensures a + ([x] + b) == a + [x] + b
  {
  }

  /** Frames closed in a prefix of the stream are the first frames of the stream. */
  lemma {:induction false} FramesAreFinal(chunks: seq<string>, i: nat, sep: string, frames: seq<string>, rest: string)
    requires i <= |chunks| && Cut(Concat(chunks[..i]), sep, frames, rest)
    ensures frames <= Init(Split(Concat(chunks), sep))
    decreases |chunks| - i
  {
    if i == |chunks| {
      assert chunks[..i] == chunks;
      CutUnique(Concat(chunks), sep, frames, rest);
    } else {
      assert Init(chunks[..i + 1]) == chunks[..i];
      CutAppend(Concat(chunks[..i]), sep, frames, rest, chunks[i]);
      var parts := Split(rest + chunks[i], sep);
      FramesAreFinal(chunks, i + 1, sep, frames + Init(parts), Last(parts));
    }
  }

  /** White space as `String.prototype.trim` of ECMAScript removes it. */
  predicate IsJsSpace(c: char) {
    || '\U{9}' <= c <= '\U{D}' || c == ' ' || c == '\U{A0}' || c == '\U{1680}'
    || '\U{2000}' <= c <= '\U{200A}' || c == '\U{2028}' || c == '\U{2029}'
    || c == '\U{202F}' || c == '\U{205F}' || c == '\U{3000}' || c == '\U{FEFF}'
  }

  function TrimJsStart(s: string): string {
    if s != "" && IsJsSpace(s[0]) then TrimJsStart(s[1..]) else s
  }

  function TrimJsEnd(s: string): string {
    if s != "" && IsJsSpace(Last(s)) then TrimJsEnd(Init(s)) else s
  }

  function TrimJs(s: string): string {
    TrimJsEnd(TrimJsStart(s))
  }

  lemma {:induction false} TrimJsStartFixed(s: string)
    requires s == "" || !IsJsSpace(s[0])
    ensures TrimJsStart(s) == s
  {
  }

  lemma {:induction false} TrimJsEndFixed(s: string)
    requires s == "" || !IsJsSpace(Last(s))
    ensures TrimJsEnd(s) == s
  {
  }

  lemma {:induction false} TrimJsStartPad(pad: string, s: string)
    requires (forall k :: 0 <= k < |pad| ==> IsJsSpace(pad[k])) && (s == "" || !IsJsSpace(s[0]))
    ensures TrimJsStart(pad + s) == s
  {
    if pad == "" {
      assert pad + s == s;
    } else {
      TrimJsStartPad(pad[1..], s);
      assert (pad + s)[1..] == pad[1..] + s;
    }
  }

  lemma {:induction false} TrimJsEndPad(s: string, pad: string)
    requires (forall k :: 0 <= k < |pad| ==> IsJsSpace(pad[k])) && (s == "" || !IsJsSpace(Last(s)))
    ensures TrimJsEnd(s + pad) == s
    decreases |pad|
  {
    if pad == "" {
      assert s + pad == s;
    } else {
      TrimJsEndPad(s, Init(pad));
      assert Init(s + pad) == s + Init(pad) && Last(s + pad) == Last(pad);
    }
  }

  /** Text without white space at its ends. */
  predicate Bare(s: string) {
    s != "" && !IsJsSpace(s[0]) && !IsJsSpace(Last(s))
  }

  /** Padding with white space is what trimming undoes. */
  lemma TrimJsUndoesPadding(before: string, s: string, after: string)
    requires Bare(s) && forall k :: 0 <= k < |before| ==> IsJsSpace(before[k])
    requires forall k :: 0 <= k < |after| ==> IsJsSpace(after[k])
    ensures TrimJs(before + s + after) == s
  {
    assert before + s + after == before + (s + after) && (s + after)[0] == s[0];
    TrimJsStartPad(before, s + after);
    TrimJsEndPad(s, after);
  }

  lemma {:induction false} BlankTrimsAway(s: string)
    requires forall k :: 0 <= k < |s| ==> IsJsSpace(s[k])
    ensures TrimJs(s) == ""
  {
    TrimJsStartPad(s, "");
    assert s + "" == s;
  }

  // --- Blank-line frames (SDK) --------------------------------------------

  const DATA := "data:"

  function FirstDataLine(lines: seq<string>): (line: Option<string>)
    ensures line.Some? ==> StartsWith(line.value, DATA)
  {
    if lines == [] then None
    else if StartsWith(lines[0], DATA) then Some(lines[0])
    else FirstDataLine(lines[1..])
  }

  /** The payload of one frame; frames without data, or with blank data, have none. */
  function PayloadOf(frame: string): Option<string> {
    match FirstDataLine(Split(frame, "\n"))
    case None => None
    case Some(line) =>
      var payload := TrimJs(line[|DATA|..]);
      if payload == "" then None else Some(payload)
  }

  function Payloads(frames: seq<string>): seq<string> {
    if frames == [] then
      []
    else
      Payloads(Init(frames)) +
      match PayloadOf(Last(frames)) { case None => [] case Some(payload) => [payload] }
  }

  lemma {:induction false} PayloadsAppend(a: seq<string>, b: seq<string>)
    ensures Payloads(a + b) == Payloads(a) + Payloads(b)
  {
    if b == [] {
      assert a + b == a;
    } else {
      assert Init(a + b) == a + Init(b) && Last(a + b) == Last(b);
      PayloadsAppend(a, Init(b));
      assert a + b != [];
    }
  }

  lemma {:induction false} FirstDataLineSkips(before: seq<string>, lines: seq<string>)
    requires forall i :: 0 <= i < |before| ==> !StartsWith(before[i], DATA)
    ensures FirstDataLine(before + lines) == FirstDataLine(lines)
  {
    if before == [] {
      assert before + lines == lines;
    } else {
      FirstDataLineSkips(before[1..], lines);
      assert (before + lines)[1..] == before[1..] + lines;
    }
  }

  /** One line of a frame. */
  predicate OneLine(line: string) {
    '\n' !in line
  }

  ghost predicate OtherLines(lines: seq<string>) {
    forall i :: 0 <= i < |lines| ==> OneLine(lines[i]) && !StartsWith(lines[i], "data:")
  }

  ghost predicate AnyLines(lines: seq<string>) {
    forall i :: 0 <= i < |lines| ==> OneLine(lines[i])
  }

  lemma FrameLines(lines: seq<string>)
    requires lines != [] && AnyLines(lines)
    ensures Split(Join(lines, "\n"), "\n") == lines
  {
    forall i | 0 <= i < |lines| ensures "\n"[0] !in lines[i] {
      assert OneLine(lines[i]);
    }
    SplitOfJoin(lines, "\n");
  }

  lemma FirstDataLineOf(before: seq<string>, line: string, after: seq<string>)
    requires OtherLines(before) && OneLine(line) && StartsWith(line, "data:") && AnyLines(after)
    ensures FirstDataLine(Split(Join(before + [line] + after, "\n"), "\n")) == Some(line)
  {
    var lines := before + [line] + after;
    FrameLines(lines);
    assert lines == before + ([line] + after);
    FirstDataLineSkips(before, [line] + after);
  }

  lemma PayloadOfLine(before: seq<string>, text: string, after: seq<string>)
    requires OtherLines(before) && OneLine(text) && AnyLines(after)
    ensures
      PayloadOf(Join(before + ["data:" + text] + after, "\n")) ==
      if TrimJs(text) == "" then None else Some(TrimJs(text))
  {
    var line := "data:" + text;
    assert line[|DATA|..] == text && line[..|DATA|] == DATA;
    assert OneLine(line) by {
      assert OneLine("data:");
    }
    FirstDataLineOf(before, line, after);
  }

  /** The payload of a frame is the text behind `data:` in its first such line, without the white space around it. */
  lemma PayloadOfFrame(before: seq<string>, pad: string, payload: string, end: string, after: seq<string>)
    requires OtherLines(before) && AnyLines(after) && Bare(payload) && OneLine(pad + payload + end)
    requires forall k :: 0 <= k < |pad| ==> IsJsSpace(pad[k])
    requires forall k :: 0 <= k < |end| ==> IsJsSpace(end[k])
    ensures PayloadOf(Join(before + ["data:" + (pad + payload + end)] + after, "\n")) == Some(payload)
  {
    PayloadOfLine(before, pad + payload + end, after);
    TrimJsUndoesPadding(pad, payload, end);
  }

  /** A frame with nothing but white space behind `data:`, or without such a line, has no payload. */
  lemma BlankPayload(before: seq<string>, pad: string, after: seq<string>)
    requires OtherLines(before) && AnyLines(after) && OneLine(pad)
    requires forall k :: 0 <= k < |pad| ==> IsJsSpace(pad[k])
    ensures PayloadOf(Join(before + ["data:" + pad] + after, "\n")) == None
  {
    PayloadOfLine(before, pad, after);
    BlankTrimsAway(pad);
  }

  lemma NoPayload(lines: seq<string>)
    requires lines != [] && OtherLines(lines)
    ensures PayloadOf(Join(lines, "\n")) == None
  {
    FrameLines(lines);
    FirstDataLineSkips(lines, []);
    assert lines + [] == lines;
  }

  /** Events as a server writes them, one frame for each payload. */
  function StreamOf(payloads: seq<string>): string {
    if payloads == [] then "" else StreamOf(Init(payloads)) + ("data: " + Last(payloads) + "\n\n")
  }

  function Bodies(payloads: seq<string>): seq<string> {
    seq(|payloads|, i requires 0 <= i < |payloads| => "data: " + payloads[i])
  }

  lemma {:induction false} JoinSnoc(parts: seq<string>, x: string, glue: string)
    requires parts != []
    ensures Join(parts + [x], glue) == Join(parts, glue) + glue + x
  {
    if |parts| == 1 {
      assert (parts + [x])[1..] == [x];
    } else {
      JoinSnoc(parts[1..], x, glue);
      assert (parts + [x])[1..] == parts[1..] + [x];
    }
  }

  lemma {:induction false} StreamIsJoin(payloads: seq<string>)
    ensures StreamOf(payloads) == Join(Bodies(payloads) + [""], "\n\n")
  {
    if payloads == [] {
      assert Bodies(payloads) + [""] == [""];
    } else {
      var before, body := Init(payloads), "data: " + Last(payloads);
      StreamIsJoin(before);
      var bodies := Bodies(before);
      assert Bodies(payloads) == bodies + [body];
      if bodies == [] {
        assert Bodies(payloads) + [""] == [body] + [""];
        JoinSnoc([body], "", "\n\n");
        assert bodies + [""] == [""];
      } else {
        JoinSnoc(bodies, "", "\n\n");
        JoinSnoc(bodies, body, "\n\n");
        JoinSnoc(bodies + [body], "", "\n\n");
      }
    }
  }

  lemma PayloadOfBody(payload: string)
    requires Bare(payload) && OneLine(payload)
    ensures PayloadOf("data: " + payload) == Some(payload)
  {
    var text := " " + payload + "";
    assert "data:" + text == "data: " + payload && OneLine(text);
    PayloadOfFrame([], " ", payload, "", []);
    assert [] + ["data:" + text] + [] == ["data:" + text];
  }

  /** A payload that a server can send in one line. */
  predicate Sendable(payload: string) {
    Bare(payload) && OneLine(payload)
  }

  lemma BodiesSnoc(payloads: seq<string>)
    requires payloads != []
    ensures Bodies(payloads) == Bodies(Init(payloads)) + ["data: " + Last(payloads)]
  {
  }

  lemma PayloadsSnoc(frames: seq<string>, frame: string, payload: string)
    requires PayloadOf(frame) == Some(payload)
    ensures Payloads(frames + [frame]) == Payloads(frames) + [payload]
  {
    assert Init(frames + [frame]) == frames;
  }

  lemma {:induction false} PayloadsOfBodies(payloads: seq<string>)
    requires forall i :: 0 <= i < |payloads| ==> Sendable(payloads[i])
    ensures Payloads(Bodies(payloads)) == payloads
  {
    if payloads != [] {
      var before, last := Init(payloads), payloads[|payloads| - 1];
      PayloadsOfBodies(before);
      BodiesSnoc(payloads);
      PayloadOfBody(last);
      PayloadsSnoc(Bodies(before), "data: " + last, last);
      assert payloads == before + [last];
    }
  }

  lemma BodiesOneLine(payloads: seq<string>, i: nat)
    requires i < |payloads| && OneLine(payloads[i])
    ensures '\n' !in Bodies(payloads)[i]
  {
    assert OneLine("data: ");
    assert Bodies(payloads)[i] == "data: " + payloads[i];
  }

  lemma StreamFrames(payloads: seq<string>)
    requires forall i :: 0 <= i < |payloads| ==> Sendable(payloads[i])
    ensures Split(StreamOf(payloads), "\n\n") == Bodies(payloads) + [""]
  {
    var parts, sep := Bodies(payloads) + [""], "\n\n";
    StreamIsJoin(payloads);
    forall i | 0 <= i < |parts| ensures sep[0] !in parts[i] {
      if i < |payloads| {
        BodiesOneLine(payloads, i);
      }
    }
    SplitOfJoin(parts, sep);
  }

  /** What a server sends is what a subscription delivers: reading undoes writing. */
  lemma StreamRoundTrip(payloads: seq<string>)
    requires forall i :: 0 <= i < |payloads| ==> Sendable(payloads[i])
    ensures Payloads(Init(Split(StreamOf(payloads), "\n\n"))) == payloads
  {
    StreamFrames(payloads);
    var bodies := Bodies(payloads);
    assert Init(bodies + [""]) == bodies;
    PayloadsOfBodies(payloads);
  }

  lemma PayloadsPrefix(a: seq<string>, b: seq<string>)
    requires a <= b
    ensures Payloads(a) <= Payloads(b)
  {
    assert b == a + b[|a|..];
    PayloadsAppend(a, b[|a|..]);
  }

  /** Everything up to the first payload that does not parse, and whether there is one. */
  ghost predicate DeliveredBeforeFailure(all: seq<string>, parses: string -> bool, events: seq<string>, failed: bool) {
    && events <= all
    && (forall k :: 0 <= k < |events| ==> parses(events[k]))
    && (failed <==> |events| < |all|)
    && (failed ==> !parses(all[|events|]))
  }

  /** The body of the read loop: deliver the payloads of the frames closed so far. */
  method DeliverParts(parts: seq<string>, parses: string -> bool) returns (events: seq<string>, failed: bool)
    ensures DeliveredBeforeFailure(Payloads(parts), parses, events, failed)
  {
    events, failed := [], false;
    for j := 0 to |parts|
      invariant events == Payloads(parts[..j])
      invariant forall k :: 0 <= k < |events| ==> parses(events[k])
    {
      assert Init(parts[..j + 1]) == parts[..j];
      match PayloadOf(parts[j]) {
        case None =>
        case Some(payload) =>
          if !parses(payload) {
            assert Payloads(parts[..j + 1]) == events + [payload];
            PayloadsPrefix(parts[..j + 1], parts);
            return events, true;
          }
          events := events + [payload];
      }
    }
    assert parts[..|parts|] == parts;
  }

  lemma FailureIsFinal(
    done: seq<string>, some: seq<string>, all: seq<string>, parses: string -> bool, events: seq<string>)
    requires forall k :: 0 <= k < |done| ==> parses(done[k])
    requires DeliveredBeforeFailure(some, parses, events, true)
    requires done + some <= all
    ensures DeliveredBeforeFailure(all, parses, done + events, true)
  {
    assert all[|done + events|] == (done + some)[|done + events|] == some[|events|];
  }

  /**
   The read loop of a table subscription.  `parses` says which payloads
   `JSON.parse` accepts; the first one it refuses ends the subscription.
   */
  method SubscribeTable(chunks: seq<string>, parses: string -> bool) returns (events: seq<string>, failed: bool)
    ensures DeliveredBeforeFailure(Payloads(Init(Split(Concat(chunks), "\n\n"))), parses, events, failed)
  {
    var buffer := "";
    ghost var frames: seq<string> := [];
    events, failed := [], false;
    CutEmpty("\n\n");
    for i := 0 to |chunks|
      invariant Cut(Concat(chunks[..i]), "\n\n", frames, buffer)
      invariant events == Payloads(frames)
      invariant forall k :: 0 <= k < |events| ==> parses(events[k])
    {
      assert Init(chunks[..i + 1]) == chunks[..i];
      CutAppend(Concat(chunks[..i]), "\n\n", frames, buffer, chunks[i]);
      buffer := buffer + chunks[i];
      var parts := Split(buffer, "\n\n");
      buffer := Last(parts);
      parts := Init(parts);
      PayloadsAppend(frames, parts);
      frames := frames + parts;
      var delivered, stopped := DeliverParts(parts, parses);
      if stopped {
        FramesAreFinal(chunks, i + 1, "\n\n", frames, buffer);
        PayloadsPrefix(frames, Init(Split(Concat(chunks), "\n\n")));
        FailureIsFinal(events, Payloads(parts), Payloads(Init(Split(Concat(chunks), "\n\n"))), parses, delivered);
        return events + delivered, true;
      }
      events := events + delivered;
    }
    assert chunks[..|chunks|] == chunks;
    CutUnique(Concat(chunks), "\n\n", frames, buffer);
  }

  // --- Newline frames (function runner) -----------------------------------

  function NonBlank(lines: seq<string>): seq<string> {
    if lines == [] then
      []
    else
      NonBlank(Init(lines)) + if TrimJs(Last(lines)) == "" then [] else [Last(lines)]
  }

  lemma {:induction false} NonBlankAppend(a: seq<string>, b: seq<string>)
    ensures NonBlank(a + b) == NonBlank(a) + NonBlank(b)
  {
    if b == [] {
      assert a + b == a;
    } else {
      assert Init(a + b) == a + Init(b) && Last(a + b) == Last(b);
      NonBlankAppend(a, Init(b));
      assert a + b != [];
    }
  }

  /** A line counts if it is not blank. */
  lemma NonBlankOne(line: string)
    ensures (forall k :: 0 <= k < |line| ==> IsJsSpace(line[k])) ==> NonBlank([line]) == []
    ensures Bare(line) ==> NonBlank([line]) == [line]
  {
    assert Init([line]) == [];
    if forall k :: 0 <= k < |line| ==> IsJsSpace(line[k]) {
      BlankTrimsAway(line);
    }
    if Bare(line) {
      TrimJsUndoesPadding("", line, "");
      assert "" + line + "" == line;
    }
  }

  /** The inner loop: hand over complete lines until none is left in the buffer. */
  method DrainLines(input: string) returns (handled: seq<string>, buffer: string)
    ensures handled == NonBlank(Init(Split(input, "\n"))) && buffer == Last(Split(input, "\n"))
  {
    handled, buffer := [], input;
    ghost var done: seq<string> := [];
    while true
      invariant Split(input, "\n") == done + Split(buffer, "\n")
      invariant handled == NonBlank(done)
      decreases |buffer|
    {
      var newlineIndex := Find(buffer, "\n");
      if newlineIndex < 0 {
        break;
      }
      var line := buffer[..newlineIndex];
      buffer := buffer[newlineIndex + 1..];
      if TrimJs(line) != "" {
        handled := handled + [line];
      }
      NonBlankAppend(done, [line]);
      RegroupFirst(done, line, Split(buffer, "\n"));
      done := done + [line];
    }
    assert Split(input, "\n") == done + [buffer];
  }

  /** The protocol loop: it handles every line that is not blank, the unterminated last one too. */
  method ReadProtocolLoop(chunks: seq<string>) returns (handled: seq<string>)
    ensures handled == NonBlank(Split(Concat(chunks), "\n"))
  {
    var buffer := "";
    ghost var lines: seq<string> := [];
    handled := [];
    CutEmpty("\n");
    for i := 0 to |chunks|
      invariant Cut(Concat(chunks[..i]), "\n", lines, buffer)
      invariant handled == NonBlank(lines)
    {
      assert Init(chunks[..i + 1]) == chunks[..i];
      CutAppend(Concat(chunks[..i]), "\n", lines, buffer, chunks[i]);
      ghost var more := Init(Split(buffer + chunks[i], "\n"));
      NonBlankAppend(lines, more);
      lines := lines + more;
      var ready;
      ready, buffer := DrainLines(buffer + chunks[i]);
      handled := handled + ready;
    }
    assert chunks[..|chunks|] == chunks;
    assert Init(lines + [buffer]) == lines;
    if TrimJs(buffer) != "" {
      handled := handled + [buffer];
    }
  }
}
