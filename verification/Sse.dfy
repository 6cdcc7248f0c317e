/**
 The peek at an event stream's prefix: an incremental scanner of its lines, the loop
 that holds bytes back until the first decisive event, and the body that replays them.
 Bytes are characters; what a payload says is a parameter.
 */
module Sse {
  import opened Common

  datatype Verdict = Undecided | PassThrough | Overloaded

  /** `classifyCodexStreamEvent`: preamble events and only those are undecided. */
  type Classifier = string -> Verdict

  // --------------------------------------------------------------- the format

  /** Index of the first line feed at or after `from`, if any. */
  function LineEnd(buf: string, from: nat): (r: Option<nat>)
    requires from <= |buf|
    ensures r.Some? ==> from <= r.value < |buf| && buf[r.value] == '\n' && '\n' !in buf[from..r.value]
    ensures r.None? ==> '\n' !in buf[from..]
    decreases |buf| - from
  {
    if from == |buf| then None
    else if buf[from] == '\n' then Some(from)
    else
      var r := LineEnd(buf, from + 1);
      assert buf[from..] == [buf[from]] + buf[from + 1..];
      assert r.Some? ==> buf[from..r.value] == [buf[from]] + buf[from + 1..r.value];
      r
  }

  function TrimCR(line: string): string {
    if line != "" && line[|line| - 1] == '\r' then line[..|line| - 1] else line
  }

  /** Sections 9.2.5 and 9.2.6 of the WHATWG HTML Living Standard, for the fields that matter. */
  datatype Line = Blank | Ignored | Data(value: string)

  function Unspaced(v: string): string { if v != "" && v[0] == ' ' then v[1..] else v }

  function Parse(line: string): Line {
    if line == "" then Blank
    else if line[0] == ':' then Ignored
    else if line == "data" then Data("")
    else if |line| >= 5 && line[..5] == "data:" then Data(Unspaced(line[5..]))
    else Ignored
  }

  /** `strings.Join` with line feeds. */
  function Joined(data: seq<string>): string {
    if data == [] then "" else if |data| == 1 then data[0] else data[0] + "\n" + Joined(data[1..])
  }

  // -------------------------------------------------- the reference: whole streams

  /** The complete lines of a stream. */
  function Lines(buf: string, from: nat): seq<string>
    requires from <= |buf|
    decreases |buf| - from
  {
    var end := LineEnd(buf, from);
    if end.None? then [] else [TrimCR(buf[from..end.value])] + Lines(buf, end.value + 1)
  }

  /** The payloads of the events that `lines` complete, given the data lines of the event so far. */
  function Payloads(lines: seq<string>, data: seq<string>): seq<string> {
    if lines == [] then []
    else
      match Parse(lines[0])
      case Blank => (if data == [] then [] else [Joined(data)]) + Payloads(lines[1..], [])
      case Ignored => Payloads(lines[1..], data)
      case Data(v) => Payloads(lines[1..], data + [v])
  }

  function FirstDecisive(payloads: seq<string>, cl: Classifier): Verdict {
    if payloads == [] then Undecided
    else if cl(payloads[0]) != Undecided then cl(payloads[0])
    else FirstDecisive(payloads[1..], cl)
  }

  /** What the stream comes to, read as a whole. */
  function Decision(stream: string, cl: Classifier): Verdict { FirstDecisive(Payloads(Lines(stream, 0), []), cl) }

  // ---------------------------------------------------------------- the scanner

  datatype Scan = Scan(pos: nat, data: seq<string>, verdict: Verdict)

  /** One complete line: the data lines after it, and a verdict if it completes a decisive event. */
  function Take(line: string, data: seq<string>, cl: Classifier): (seq<string>, Verdict) {
    match Parse(line)
    case Blank => if data == [] then ([], Undecided) else ([], cl(Joined(data)))
    case Ignored => (data, Undecided)
    case Data(v) => (data + [v], Undecided)
  }

  /** `sseEventScanner.feed`. */
  function Feed(buf: string, pos: nat, data: seq<string>, cl: Classifier): (r: Scan)
    requires pos <= |buf|
    ensures pos <= r.pos <= |buf|
    decreases |buf| - pos
  {
    var end := LineEnd(buf, pos);
    if end.None? then Scan(pos, data, Undecided)
    else
      var (more, verdict) := Take(TrimCR(buf[pos..end.value]), data, cl);
      if verdict != Undecided then Scan(end.value + 1, more, verdict) else Feed(buf, end.value + 1, more, cl)
  }

  lemma FeedStep(buf: string, pos: nat, data: seq<string>, cl: Classifier)
    requires pos <= |buf|
    ensures var end := LineEnd(buf, pos);
      if end.None? then Feed(buf, pos, data, cl) == Scan(pos, data, Undecided)
      else var (more, verdict) := Take(TrimCR(buf[pos..end.value]), data, cl);
           Feed(buf, pos, data, cl)
             == if verdict != Undecided then Scan(end.value + 1, more, verdict) else Feed(buf, end.value + 1, more, cl)
  {
    hide Take, LineEnd;
  }

  lemma {:induction false} LineEndGrows(buf: string, more: string, from: nat)
    requires from <= |buf|
    ensures LineEnd(buf, from).Some? ==> LineEnd(buf + more, from) == LineEnd(buf, from)
    decreases |buf| - from
  {
    if from < |buf| && buf[from] != '\n' { LineEndGrows(buf, more, from + 1); }
  }

  /** A line split across reads is put together: what was fed before need not be fed again. */
  lemma {:induction false} FeedGrows(buf: string, more: string, pos: nat, data: seq<string>, cl: Classifier)
    requires pos <= |buf|
    ensures var a, whole := Feed(buf, pos, data, cl), Feed(buf + more, pos, data, cl);
      whole == if a.verdict == Undecided then Feed(buf + more, a.pos, a.data, cl) else a
    decreases |buf| - pos
  {
    hide Take, LineEnd, Feed, TrimCR;
    LineEndGrows(buf, more, pos);
    FeedStep(buf, pos, data, cl);
    var end := LineEnd(buf, pos);
    if end.Some? {
      FeedStep(buf + more, pos, data, cl);
      assert (buf + more)[pos..end.value] == buf[pos..end.value];
      var (lines, verdict) := Take(TrimCR(buf[pos..end.value]), data, cl);
      if verdict == Undecided { FeedGrows(buf, more, end.value + 1, lines, cl); }
    }
  }

  /** The scanner, fed a buffer at once, decides as the reference does. */
  lemma {:induction false} FeedDecides(buf: string, pos: nat, data: seq<string>, cl: Classifier)
    requires pos <= |buf|
    ensures Feed(buf, pos, data, cl).verdict == FirstDecisive(Payloads(Lines(buf, pos), data), cl)
    decreases |buf| - pos
  {
    hide Take, LineEnd, Payloads, FirstDecisive;
    var end := LineEnd(buf, pos);
    if end.None? {
      NoPayloads(data, cl);
    } else {
      var line := TrimCR(buf[pos..end.value]);
      var (more, verdict) := Take(line, data, cl);
      OnePayload(line, Lines(buf, end.value + 1), data, cl);
      if verdict == Undecided { FeedDecides(buf, end.value + 1, more, cl); }
    }
  }

  lemma NoPayloads(data: seq<string>, cl: Classifier)
    ensures FirstDecisive(Payloads([], data), cl) == Undecided
  {
  }

  lemma OnePayload(line: string, rest: seq<string>, data: seq<string>, cl: Classifier)
    ensures var (more, verdict) := Take(line, data, cl);
      FirstDecisive(Payloads([line] + rest, data), cl)
        == if verdict != Undecided then verdict else FirstDecisive(Payloads(rest, more), cl)
  {
    hide Parse, Joined;
    assert ([line] + rest)[1..] == rest;
    assert [] + Payloads(rest, []) == Payloads(rest, []);
    if Parse(line) == Blank && data != [] {
      assert ([Joined(data)] + Payloads(rest, []))[1..] == Payloads(rest, []);
    }
  }

  function Concat(chunks: seq<string>): string {
    if chunks == [] then "" else Concat(chunks[..|chunks| - 1]) + chunks[|chunks| - 1]
  }

  /** Feeding the held bytes again after every chunk, until decided. */
  function FeedAll(chunks: seq<string>, cl: Classifier): (r: Scan)
    ensures r.pos <= |Concat(chunks)|
  {
    if chunks == [] then Scan(0, [], Undecided)
    else
      var before := FeedAll(chunks[..|chunks| - 1], cl);
      if before.verdict != Undecided then before else Feed(Concat(chunks), before.pos, before.data, cl)
  }

  lemma {:induction false} FeedAllIsFeed(chunks: seq<string>, cl: Classifier)
    ensures FeedAll(chunks, cl) == Feed(Concat(chunks), 0, [], cl)
  {
    hide Feed;
    if chunks == [] {
      FeedNothing(cl);
    } else {
      var k := |chunks| - 1;
      FeedAllIsFeed(chunks[..k], cl);
      FeedGrows(Concat(chunks[..k]), chunks[k], 0, [], cl);
    }
  }

  lemma FeedNothing(cl: Classifier)
    ensures Feed("", 0, [], cl) == Scan(0, [], Undecided)
  {
  }

  /** The decision depends on the byte stream alone, not on how reads split it. */
  lemma ChunkingDoesNotMatter(chunks: seq<string>, cl: Classifier)
    ensures FeedAll(chunks, cl).verdict == Decision(Concat(chunks), cl)
  {
    hide Feed, Lines, Payloads, FirstDecisive, FeedAll;
    FeedAllIsFeed(chunks, cl);
    FeedDecides(Concat(chunks), 0, [], cl);
  }

  /** Once decided, no later byte changes the decision. */
  lemma DecisionIsFinal(stream: string, more: string, cl: Classifier)
    requires Decision(stream, cl) != Undecided
    ensures Decision(stream + more, cl) == Decision(stream, cl)
  {
    hide Feed, Lines, Payloads, FirstDecisive;
    FeedDecides(stream, 0, [], cl);
    FeedDecides(stream + more, 0, [], cl);
    FeedGrows(stream, more, 0, [], cl);
  }

  // ------------------------------------------------- what the format comes to

  /** A blank line is an empty one. A data line is the bare field name, or the name, a colon, one space or none, and the value. */
  lemma ParseExactly(line: string, v: string)
    ensures Parse(line) == Blank <==> line == ""
    ensures Parse(line) == Data(v) <==>
      || (line == "data" && v == "") || (line == "data:" + v && (v == "" || v[0] != ' ')) || line == "data: " + v
  {
    var bare, spaced: string := "data:" + v, "data: " + v;
    assert bare[..5] == "data:" && bare[5..] == v;
    assert spaced[..5] == "data:" && spaced[5..] == " " + v && (" " + v)[1..] == v;
    if |line| >= 5 && line[..5] == "data:" { FieldSplit(line); }
  }

  lemma FieldSplit(line: string)
    requires |line| >= 5 && line[..5] == "data:"
    ensures line == "data:" + line[5..] && (line[5..] != "" && line[5] == ' ' ==> line == "data: " + line[6..])
  {
    assert line == line[..5] + line[5..];
    if line[5..] != "" && line[5] == ' ' { assert line[5..] == " " + line[6..]; }
  }

  /** The data lines of an event are put together with a line feed between them, and only there. */
  lemma {:induction false} JoinedExactly(a: seq<string>, b: seq<string>)
    requires a != [] && b != []
    ensures Joined(a + b) == Joined(a) + "\n" + Joined(b)
    ensures forall v :: Joined([v]) == v
  {
    if |a| == 1 {
      assert (a + b)[1..] == b;
    } else {
      assert (a + b)[1..] == a[1..] + b;
      JoinedExactly(a[1..], b);
    }
  }

  lemma {:induction false} LineEndShift(buf: string, from: nat, k: nat)
    requires from <= k <= |buf|
    ensures var a, b := LineEnd(buf, k), LineEnd(buf[from..], k - from);
      (a.None? <==> b.None?) && (a.Some? ==> a.value == b.value + from)
    decreases |buf| - k
  {
    if k < |buf| && buf[k] != '\n' { LineEndShift(buf, from, k + 1); }
  }

  lemma {:induction false} LinesShift(buf: string, from: nat, k: nat)
    requires from <= k <= |buf|
    ensures Lines(buf, k) == Lines(buf[from..], k - from)
    decreases |buf| - k
  {
    hide LineEnd;
    LineEndShift(buf, from, k);
    var end := LineEnd(buf, k);
    if end.Some? {
      assert buf[from..][k - from..end.value - from] == buf[k..end.value];
      LinesShift(buf, from, end.value + 1);
    }
  }

  lemma {:induction false} LineEndAt(buf: string, from: nat, k: nat)
    requires from <= k < |buf| && buf[k] == '\n' && forall i :: from <= i < k ==> buf[i] != '\n'
    ensures LineEnd(buf, from) == Some(k)
    decreases k - from
  {
    if from < k { LineEndAt(buf, from + 1, k); }
  }

  /** The first line of a stream. */
  lemma LineFirst(line: string, rest: string)
    requires '\n' !in line
    ensures Lines(line + "\n" + rest, 0) == [TrimCR(line)] + Lines(rest, 0)
  {
    hide LineEnd, TrimCR;
    var buf := line + "\n" + rest;
    assert buf[|line|] == '\n' && buf[..|line|] == line && buf[|line| + 1..] == rest;
    LineEndAt(buf, 0, |line|);
    LinesShift(buf, |line| + 1, |line| + 1);
    assert buf[0..|line|] == line;
  }

  /** A value that fits on a line. */
  ghost predicate Fits(v: string) { '\n' !in v && (v == "" || v[|v| - 1] != '\r') }

  function LineBreak(crlf: bool): string { if crlf then "\r\n" else "\n" }

  /** An event as a server writes it, by its data lines; a stream of events. */
  function WriteData(data: seq<string>, crlf: bool): string {
    if data == [] then "" else "data: " + data[0] + LineBreak(crlf) + WriteData(data[1..], crlf)
  }

  function WriteEvents(events: seq<seq<string>>, crlf: bool): string {
    if events == [] then "" else WriteData(events[0], crlf) + LineBreak(crlf) + WriteEvents(events[1..], crlf)
  }

  ghost predicate Writable(event: seq<string>) { event != [] && forall v :: v in event ==> Fits(v) }

  lemma WrittenLine(line: string, crlf: bool, rest: string)
    requires Fits(line)
    ensures Lines(line + LineBreak(crlf) + rest, 0) == [line] + Lines(rest, 0)
  {
    hide Lines, TrimCR;
    BreakTrimmed(line);
    if crlf {
      var whole := line + "\r";
      assert line + "\r\n" + rest == whole + "\n" + rest;
      LineFirst(whole, rest);
    } else {
      LineFirst(line, rest);
    }
  }

  lemma BreakTrimmed(line: string)
    requires Fits(line)
    ensures TrimCR(line) == line && TrimCR(line + "\r") == line && '\n' !in line + "\r"
  {
    assert (line + "\r")[..|line|] == line;
  }

  lemma {:induction false} DataReadBack(data: seq<string>, crlf: bool, rest: string, before: seq<string>)
    requires forall v :: v in data ==> Fits(v)
    requires before + data != []
    ensures Payloads(Lines(WriteData(data, crlf) + LineBreak(crlf) + rest, 0), before)
         == [Joined(before + data)] + Payloads(Lines(rest, 0), [])
    decreases |data|
  {
    hide Lines, Joined;
    if data == [] {
      assert WriteData(data, crlf) + LineBreak(crlf) + rest == "" + LineBreak(crlf) + rest;
      WrittenLine("", crlf, rest);
      assert ([""] + Lines(rest, 0))[1..] == Lines(rest, 0) && before + data == before;
    } else {
      var v, more := data[0], WriteData(data[1..], crlf) + LineBreak(crlf) + rest;
      assert v in data;
      var line := "data: " + v;
      assert WriteData(data, crlf) + LineBreak(crlf) + rest == line + LineBreak(crlf) + more;
      assert v != "" ==> line[|line| - 1] == v[|v| - 1];
      WrittenLine(line, crlf, more);
      ParseExactly(line, v);
      assert ([line] + Lines(more, 0))[1..] == Lines(more, 0);
      assert (before + [v]) + data[1..] == before + data;
      DataReadBack(data[1..], crlf, rest, before + [v]);
    }
  }

  /** What a server writes is read back, event by event, whichever line break it uses, and an unfinished line adds nothing. */
  lemma {:induction false} EventsReadBack(events: seq<seq<string>>, crlf: bool, tail: string)
    requires (forall e :: e in events ==> Writable(e)) && '\n' !in tail
    ensures Payloads(Lines(WriteEvents(events, crlf) + tail, 0), []) == seq(|events|, i requires 0 <= i < |events| => Joined(events[i]))
  {
    hide Lines, Joined;
    if events == [] {
      assert WriteEvents(events, crlf) + tail == tail;
      NoLine(tail);
    } else {
      var rest := WriteEvents(events[1..], crlf) + tail;
      assert events[0] in events && Writable(events[0]);
      assert WriteEvents(events, crlf) + tail == WriteData(events[0], crlf) + LineBreak(crlf) + rest;
      assert [] + events[0] == events[0];
      DataReadBack(events[0], crlf, rest, []);
      EventsReadBack(events[1..], crlf, tail);
    }
  }

  lemma NoLine(tail: string)
    requires '\n' !in tail
    ensures Lines(tail, 0) == []
  {
    assert tail[0..] == tail;
  }

  /** The verdict is that of the first payload that has one. */
  lemma {:induction false} FirstDecisiveExactly(payloads: seq<string>, cl: Classifier)
    ensures var r := FirstDecisive(payloads, cl);
      if forall p :: p in payloads ==> cl(p) == Undecided then r == Undecided
      else exists i :: 0 <= i < |payloads| && r == cl(payloads[i]) && r != Undecided && forall j :: 0 <= j < i ==> cl(payloads[j]) == Undecided
  {
    if payloads != [] {
      assert payloads[0] in payloads;
      if cl(payloads[0]) == Undecided {
        FirstDecisiveExactly(payloads[1..], cl);
        assert forall p :: p in payloads <==> p == payloads[0] || p in payloads[1..];
      }
    }
  }

  class SseEventScanner {
    var pos: nat
    var data: seq<string>

    constructor ()
      ensures pos == 0 && data == []
    {
      pos, data := 0, [];
    }

    /** `feed`: goes on from where the previous call stopped. */
    method FeedBytes(buf: string, cl: Classifier) returns (verdict: Verdict)
      requires pos <= |buf|
      modifies this
      ensures pos <= |buf| && Scan(pos, data, verdict) == Feed(buf, old(pos), old(data), cl)
    {
      hide Take, LineEnd, Feed;
      ghost var whole := Feed(buf, pos, data, cl);
      while true
        invariant pos <= |buf| && Feed(buf, pos, data, cl) == whole
        decreases |buf| - pos
      {
        FeedStep(buf, pos, data, cl);
        var end := LineEnd(buf, pos);
        if end.None? { return Undecided; }
        var line := TrimCR(buf[pos..end.value]);
        pos := end.value + 1;
        verdict := TakeLine(line, cl);
        if verdict != Undecided { return; }
      }
    }

    method TakeLine(line: string, cl: Classifier) returns (verdict: Verdict)
      modifies this`data
      ensures (data, verdict) == Take(line, old(data), cl)
    {
      match Parse(line) {
        case Blank =>
          if data == [] { return Undecided; }
          var payload := Joined(data);
          data := [];
          return cl(payload);
        case Ignored => return Undecided;
        case Data(v) =>
          data := data + [v];
          return Undecided;
      }
    }
  }

  // ------------------------------------------------------------------- the peek

  datatype Error = EOF | Failure(reason: string)

  /** An upstream body: bytes still to come, then an error for good. Reads split it as they please. */
  class Upstream {
    var rest: string
    const end: Error
    ghost var asked: nat

    constructor (stream: string, error: Error)
      ensures rest == stream && end == error && asked == 0
    {
      rest, end, asked := stream, error, 0;
    }

    /** Any split: at least a byte while there is one, and the error at the end only, with the last bytes or after them. */
    method Read(n: nat) returns (data: string, err: Option<Error>)
      requires n > 0
      modifies this
      ensures asked == old(asked) + 1
      ensures |data| <= n && data + rest == old(rest)
      ensures err.Some? ==> rest == "" && err == Some(end)
      ensures data != "" || err.Some?
    {
      asked := asked + 1;
      if rest == "" { return "", Some(end); }
      var k: nat :| 1 <= k <= n && k <= |rest|;
      data, rest := rest[..k], rest[k..];
      var early: bool := *;
      err := if rest == "" && early then Some(end) else None;
    }
  }

  /** `pendingReader`: a read still in flight when the peek gave up, then the upstream. */
  class PendingReader {
    var pending: Option<(string, Option<Error>)>
    var data: string
    var err: Option<Error>
    const upstream: Upstream

    constructor (inFlight: (string, Option<Error>), u: Upstream)
      requires inFlight.1.Some? ==> u.rest == "" && inFlight.1 == Some(u.end)
      ensures Valid() && upstream == u && Remaining() == inFlight.0 + u.rest
    {
      pending, data, err, upstream := Some(inFlight), "", None, u;
    }

    ghost predicate Valid()
      reads this, upstream
    {
      && (err.Some? ==> upstream.rest == "" && err == Some(upstream.end))
      && (pending.Some? ==> data == "" && err.None?
                            && (pending.value.1.Some? ==> upstream.rest == "" && pending.value.1 == Some(upstream.end)))
    }

    /** What it has still to deliver. */
    ghost function Remaining(): string
      reads this, upstream
    {
      (if pending.Some? then pending.value.0 else data) + upstream.rest
    }

    method Read(n: nat) returns (out: string, error: Option<Error>)
      requires Valid() && n > 0
      modifies this, upstream
      ensures Valid() && |out| <= n && out + Remaining() == old(Remaining())
      ensures error.Some? ==> Remaining() == "" && error == Some(upstream.end)
      ensures out != "" || error.Some?
    {
      if pending.Some? {
        data, err := pending.value.0, pending.value.1;
        pending := None;
      }
      if data != "" {
        var k := Min(n, |data|);
        assert data == data[..k] + data[k..];
        out, error := data[..k], None;
        data := data[k..];
        return;
      }
      if err.Some? { return "", err; }
      out, error := upstream.Read(n);
    }
  }

  /** Where a replayed body goes on after the held bytes. */
  datatype Rest = Live | Failed(error: Error) | Waiting(reader: PendingReader)

  /** The response body after a pass-through peek. */
  class ReplayBody {
    var held: string
    const rest: Rest
    const upstream: Upstream

    constructor (bytes: string, r: Rest, u: Upstream)
      requires r.Failed? ==> u.rest == "" && r.error == u.end
      requires r.Waiting? ==> r.reader.Valid() && r.reader.upstream == u
      ensures Valid() && upstream == u && rest == r
      ensures Remaining() == bytes + (if r.Waiting? then r.reader.Remaining() else u.rest)
    {
      held, rest, upstream := bytes, r, u;
    }

    ghost function Repr(): set<object> { {this, upstream} + (if rest.Waiting? then {rest.reader} else {}) }

    ghost predicate Valid()
      reads Repr()
    {
      && (rest.Failed? ==> upstream.rest == "" && rest.error == upstream.end)
      && (rest.Waiting? ==> rest.reader.upstream == upstream && rest.reader.Valid())
    }

    ghost function Remaining(): string
      requires Valid()
      reads Repr()
    {
      held + (if rest.Waiting? then rest.reader.Remaining() else upstream.rest)
    }

    /** The client's reads: held bytes first, then the rest, verbatim, and the upstream's own error at the end. */
    method Read(n: nat) returns (out: string, error: Option<Error>)
      requires Valid() && n > 0
      modifies Repr()
      ensures Valid() && |out| <= n && out + Remaining() == old(Remaining())
      ensures error.Some? ==> Remaining() == "" && error == Some(upstream.end)
      ensures out != "" || error.Some?
    {
      if held != "" {
        var k := Min(n, |held|);
        assert held == held[..k] + held[k..];
        out, error := held[..k], None;
        held := held[k..];
        return;
      }
      match rest {
        case Live => out, error := upstream.Read(n);
        case Failed(e) => return "", Some(e);
        case Waiting(r) => out, error := r.Read(n);
      }
    }
  }

  /** A client that reads on until an error, in portions of any size, gets every byte left, and then the upstream's error. */
  method ReadAll(body: ReplayBody) returns (all: string, error: Error)
    requires body.Valid()
    modifies body.Repr()
    ensures body.Valid() && all == old(body.Remaining()) && error == body.upstream.end
    ensures body.Remaining() == ""
  {
    all := "";
    while true
      invariant body.Valid() && all + body.Remaining() == old(body.Remaining())
      decreases |body.Remaining()|
    {
      var n: nat :| n > 0;
      var out, err := body.Read(n);
      all := all + out;
      if err.Some? { return all, err.value; }
    }
  }

  const CHUNK := 4096
  const PEEK_MAX := 0x10_0000

  /** The first `n` bytes of a stream, or all of it. */
  function Head(stream: string, n: nat): string { stream[..Min(n, |stream|)] }

  /**
   `peekCodexStreamOverload`. The timer goes off while read number `timer` is in flight, if ever; `late` tells that
   the peek gave up on it, `cut` that it ended on the timer or on the size limit. Otherwise the verdict is the
   stream's own, and in any case what the client goes on to read is the upstream's bytes, all of them, and its error.
   */
  method Peek(upstream: Upstream, cl: Classifier, timer: Option<nat>)
      returns (overloaded: bool, body: Option<ReplayBody>, cut: bool, late: bool)
    modifies upstream
    ensures overloaded ==> Decision(Head(old(upstream.rest), PEEK_MAX + CHUNK - 1), cl) == Overloaded
    ensures overloaded ==> Decision(old(upstream.rest), cl) == Overloaded
    ensures !cut ==> (overloaded <==> Decision(old(upstream.rest), cl) == Overloaded)
    ensures cut && !late ==> PEEK_MAX <= |old(upstream.rest)| && Decision(old(upstream.rest)[..PEEK_MAX], cl) == Undecided
    ensures !late && Decision(Head(old(upstream.rest), PEEK_MAX), cl) == Overloaded ==> overloaded
    ensures late ==> cut && timer.Some? && upstream.asked == old(upstream.asked) + timer.value + 1
    ensures overloaded <==> body.None?
    ensures body.Some? ==> fresh(body.value.Repr() - {upstream}) && body.value.upstream == upstream
    ensures body.Some? ==> body.value.Valid() && body.value.Remaining() == old(upstream.rest)
  {
    hide Decision, Feed, Head;
    ghost var stream := upstream.rest;
    var held, received := "", 0;
    var scanner := new SseEventScanner();
    cut, late, overloaded, body := false, false, false, None;
    FeedNothing(cl);
    while true
      invariant held + upstream.rest == stream && |held| < PEEK_MAX
      invariant upstream.asked == old(upstream.asked) + received
      invariant fresh(scanner) && scanner.pos <= |held|
      invariant Scan(scanner.pos, scanner.data, Undecided) == Feed(held, 0, [], cl)
      decreases |upstream.rest|
    {
      var data, err := upstream.Read(CHUNK);
      if timer == Some(received) {
        var pending := new PendingReader((data, err), upstream);
        var replay := new ReplayBody(held, Waiting(pending), upstream);
        return false, Some(replay), true, true;
      }
      received := received + 1;
      FeedGrows(held, data, 0, [], cl);
      assert held + data + upstream.rest == stream;
      held := held + data;
      var verdict := scanner.FeedBytes(held, cl);
      SettledBy(held, upstream.rest, stream, cl);
      if verdict == Overloaded {
        WithinReach(held, upstream.rest, stream, cl);
        return true, None, false, false;
      }
      if verdict != Undecided || err.Some? || |held| >= PEEK_MAX {
        GivenUp(held, upstream.rest, stream, cl);
        var failed := err.Some? && err.value != EOF;
        var replay := new ReplayBody(held, if failed then Failed(err.value) else Live, upstream);
        return false, Some(replay), verdict == Undecided && err.None?, false;
      }
    }
  }

  /** An overload seen in the held bytes is there within the bytes a peek can hold. */
  lemma WithinReach(held: string, rest: string, stream: string, cl: Classifier)
    requires stream == held + rest && |held| <= PEEK_MAX + CHUNK - 1 && Feed(held, 0, [], cl).verdict == Overloaded
    ensures Decision(Head(stream, PEEK_MAX + CHUNK - 1), cl) == Overloaded
  {
    hide Feed, Decision;
    var head := Head(stream, PEEK_MAX + CHUNK - 1);
    assert head == held + head[|held|..];
    SettledBy(held, head[|held|..], head, cl);
  }

  /** Held bytes that show no overload, and are the whole stream or decided or past the limit, leave none to be seen within it. */
  lemma GivenUp(held: string, rest: string, stream: string, cl: Classifier)
    requires stream == held + rest && Feed(held, 0, [], cl).verdict != Overloaded
    requires Feed(held, 0, [], cl).verdict != Undecided || rest == "" || |held| >= PEEK_MAX
    ensures Decision(Head(stream, PEEK_MAX), cl) != Overloaded
    ensures Feed(held, 0, [], cl).verdict == Undecided && |held| >= PEEK_MAX ==> Decision(stream[..PEEK_MAX], cl) == Undecided
  {
    hide Feed, Decision;
    var head, v := Head(stream, PEEK_MAX), Feed(held, 0, [], cl).verdict;
    SettledBy(held, "", held, cl);
    assert held + "" == held;
    if |held| >= PEEK_MAX || rest == "" {
      assert held == head + held[|head|..];
      if Decision(head, cl) != Undecided { DecisionIsFinal(head, held[|head|..], cl); }
    } else {
      assert head == held + head[|held|..];
      SettledBy(held, head[|held|..], head, cl);
    }
  }

  /**
   A response from the peek to its last byte: unless it is turned into a failure, the client sees the upstream
   verbatim. Without the timer it is turned into one whenever an overload shows within the size limit.
   */
  method PassThrough(upstream: Upstream, cl: Classifier, timer: Option<nat>)
      returns (seen: Option<(string, Error)>, cut: bool, late: bool)
    modifies upstream
    ensures seen.Some? ==> seen.value == (old(upstream.rest), upstream.end)
    ensures seen.None? ==> Decision(Head(old(upstream.rest), 1_048_576 + 4096 - 1), cl) == Overloaded
    ensures seen.None? ==> Decision(old(upstream.rest), cl) == Overloaded
    ensures !cut && Decision(old(upstream.rest), cl) == Overloaded ==> seen.None?
    ensures cut && !late ==> PEEK_MAX <= |old(upstream.rest)| && Decision(old(upstream.rest)[..PEEK_MAX], cl) == Undecided
    ensures timer.None? && Decision(Head(old(upstream.rest), 1_048_576), cl) == Overloaded ==> seen.None?
    ensures late ==> cut && timer.Some?
  {
    hide Decision;
    var overloaded, body;
    overloaded, body, cut, late := Peek(upstream, cl, timer);
    if body.None? { return None, cut, late; }
    var all, error := ReadAll(body.value);
    return Some((all, error)), cut, late;
  }

  /** A verdict on the held bytes is the stream's; without one, the held bytes are the whole stream or it is open. */
  lemma SettledBy(held: string, rest: string, stream: string, cl: Classifier)
    requires stream == held + rest
    ensures var v := Feed(held, 0, [], cl).verdict; v != Undecided || rest == "" ==> Decision(stream, cl) == v
  {
    hide Feed, Lines, Payloads, FirstDecisive;
    FeedDecides(held, 0, [], cl);
    FeedDecides(stream, 0, [], cl);
    FeedGrows(held, rest, 0, [], cl);
    if rest == "" { assert held + rest == held; }
  }
}
