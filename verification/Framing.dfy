/**
 * The bytes of an event stream: what the server writes, and the incremental line parser of
 * section 9.2.6 of the WHATWG HTML Standard that the browser runs over them.
 */
module Framing {
  import opened JobEvents
  import EventStream

  /** One write to the response: an event's JSON text, or a keep-alive comment. */
  datatype Frame = Event(json: string) | Comment

  function Encode(f: Frame): string {
    match f
    case Event(json) => "data: " + json + "\n\n"
    case Comment => ": keepalive\n\n"
  }

  function EncodeAll(frames: seq<Frame>): string {
    if frames == [] then "" else EncodeAll(frames[..|frames| - 1]) + Encode(frames[|frames| - 1])
  }

  /** The response as the server fills it: at all times the encoding of the frames written so far. */
  class Response {
    var bytes: string
    ghost var frames: seq<Frame>

    ghost predicate Valid()
      reads this
    {
      bytes == EncodeAll(frames)
    }

    constructor ()
      ensures Valid() && frames == []
    {
      bytes, frames := "", [];
    }

    method WriteEvent(json: string)
      requires Valid()
      modifies this
      ensures Valid() && frames == old(frames) + [Event(json)]
    {
      bytes := bytes + ("data: " + json + "\n\n");
      frames := frames + [Event(json)];
      assert frames[..|frames| - 1] == old(frames);
    }

    method WriteKeepAlive()
      requires Valid()
      modifies this
      ensures Valid() && frames == old(frames) + [Comment]
    {
      bytes := bytes + ": keepalive\n\n";
      frames := frames + [Comment];
      assert frames[..|frames| - 1] == old(frames);
    }
  }

  /** `afterCr` remembers that a line just ended in CR, so that an LF next belongs to the same line end. */
  datatype Parser = Parser(line: string, data: string, afterCr: bool, events: seq<string>)

  const FRESH := Parser("", "", false, [])

  /** Index of the first colon, or the length of the line. */
  function ColonAt(line: string): (n: nat)
    ensures n <= |line|
    ensures n < |line| ==> line[n] == ':'
    ensures ':' !in line[..n]
  {
    if line == "" || line[0] == ':' then 0
    else
      var n := 1 + ColonAt(line[1..]);
      assert line[..n] == [line[0]] + line[1..][..n - 1];
      n
  }

  function FieldValue(line: string): string {
    var n := ColonAt(line);
    if n == |line| then ""
    else if n + 1 < |line| && line[n + 1] == ' ' then line[n + 2..]
    else line[n + 1..]
  }

  /** Field names other than `data` do not affect which data is dispatched. */
  function EndLine(p: Parser): Parser {
    if p.line == "" then
      if p.data == "" then p
      else
        var text := if p.data[|p.data| - 1] == '\n' then p.data[..|p.data| - 1] else p.data;
        p.(data := "", events := p.events + [text])
    else if p.line[0] != ':' && p.line[..ColonAt(p.line)] == "data" then
      p.(line := "", data := p.data + FieldValue(p.line) + "\n")
    else p.(line := "")
  }

  function Feed(p: Parser, c: char): Parser {
    if c == '\r' then EndLine(p).(afterCr := true)
    else if c == '\n' then if p.afterCr then p.(afterCr := false) else EndLine(p)
    else p.(line := p.line + [c], afterCr := false)
  }

  function FeedAll(p: Parser, text: string): Parser
    decreases text
  {
    if text == "" then p else FeedAll(Feed(p, text[0]), text[1..])
  }

  function FeedChunks(p: Parser, chunks: seq<string>): Parser
    decreases chunks
  {
    if chunks == [] then p else FeedChunks(FeedAll(p, chunks[0]), chunks[1..])
  }

  function Flatten(chunks: seq<string>): string {
    if chunks == [] then "" else chunks[0] + Flatten(chunks[1..])
  }

  lemma {:induction false} FeedConcat(p: Parser, a: string, b: string)
    ensures FeedAll(p, a + b) == FeedAll(FeedAll(p, a), b)
    decreases a
  {
    if a == "" {
      assert a + b == b;
    } else {
      assert (a + b)[0] == a[0] && (a + b)[1..] == a[1..] + b;
      FeedConcat(Feed(p, a[0]), a[1..], b);
    }
  }

  /** Where the network cuts the bytes makes no difference. */
  lemma {:induction false} ChunksDoNotMatter(p: Parser, chunks: seq<string>)
    ensures FeedChunks(p, chunks) == FeedAll(p, Flatten(chunks))
    decreases chunks
  {
    if chunks != [] {
      ChunksDoNotMatter(FeedAll(p, chunks[0]), chunks[1..]);
      FeedConcat(p, chunks[0], Flatten(chunks[1..]));
    }
  }

  predicate OneLine(text: string) {
    '\n' !in text && '\r' !in text
  }

  lemma {:induction false} FeedPlain(p: Parser, text: string)
    requires OneLine(text)
    ensures FeedAll(p, text) == if text == "" then p else p.(line := p.line + text, afterCr := false)
    decreases text
  {
    if text != "" {
      FeedPlain(Feed(p, text[0]), text[1..]);
      assert p.line + [text[0]] + text[1..] == p.line + text;
      assert text[1..] == "" ==> text == [text[0]];
    }
  }

  predicate WellFormed(frames: seq<Frame>) {
    forall i :: 0 <= i < |frames| && frames[i].Event? ==> OneLine(frames[i].json)
  }

  function JsonOf(frames: seq<Frame>): seq<string> {
    if frames == [] then []
    else
      var front := JsonOf(frames[..|frames| - 1]);
      match frames[|frames| - 1]
      case Event(json) => front + [json]
      case Comment => front
  }

  lemma DataLine(json: string)
    ensures var line := "data: " + json;
            ColonAt(line) == 4 && line[..4] == "data" && FieldValue(line) == json && line[0] != ':'
  {
    var line := "data: " + json;
    var n := ColonAt(line);
    assert line[4] == ':';
  }

  lemma FeedFrame(events: seq<string>, f: Frame)
    requires f.Event? ==> OneLine(f.json)
    ensures FeedAll(FRESH.(events := events), Encode(f))
         == FRESH.(events := events + if f.Event? then [f.json] else [])
  {
    var p := FRESH.(events := events);
    var line := if f.Event? then "data: " + f.json else ": keepalive";
    assert Encode(f) == line + "\n\n";
    assert OneLine(line);
    FeedConcat(p, line, "\n\n");
    FeedPlain(p, line);
    assert "" + line == line;
    var q := p.(line := line);
    assert FeedAll(q, "\n\n") == FeedAll(EndLine(q), "\n") by {
      assert "\n\n"[1..] == "\n";
    }
    assert FeedAll(EndLine(q), "\n") == EndLine(EndLine(q)) by {
      assert "\n"[1..] == "";
    }
    if f.Event? {
      DataLine(f.json);
      assert "" + f.json + "\n" == f.json + "\n";
      assert (f.json + "\n")[..|f.json|] == f.json;
    } else {
      assert events + [] == events;
    }
  }

  /** The round trip: any events and comments, cut into any chunks, parse back to exactly the events. */
  lemma StreamRoundTrip(frames: seq<Frame>, chunks: seq<string>)
    requires WellFormed(frames) && Flatten(chunks) == EncodeAll(frames)
    ensures FeedChunks(FRESH, chunks) == FRESH.(events := JsonOf(frames))
  {
    ChunksDoNotMatter(FRESH, chunks);
    FeedFrames(frames);
  }

  lemma {:induction false} FeedFrames(frames: seq<Frame>)
    requires WellFormed(frames)
    ensures FeedAll(FRESH, EncodeAll(frames)) == FRESH.(events := JsonOf(frames))
  {
    if frames != [] {
      var last := |frames| - 1;
      assert forall i :: 0 <= i < last ==> frames[..last][i] == frames[i];
      FeedFrames(frames[..last]);
      FeedConcat(FRESH, EncodeAll(frames[..last]), Encode(frames[last]));
      FeedFrame(JsonOf(frames[..last]), frames[last]);
      assert JsonOf(frames[..last]) + [] == JsonOf(frames[..last]);
    }
  }

  function FramesOf(out: seq<EventStream.Item>, stringify: JobEvent -> string): (r: seq<Frame>)
    ensures |r| == |out|
  {
    seq(|out|, i requires 0 <= i < |out| => if out[i].Data? then Event(stringify(out[i].event)) else Comment)
  }

  function Texts(events: seq<JobEvent>, stringify: JobEvent -> string): seq<string> {
    seq(|events|, i requires 0 <= i < |events| => stringify(events[i]))
  }

  lemma {:induction false} FramesCarryEvents(out: seq<EventStream.Item>, stringify: JobEvent -> string)
    ensures JsonOf(FramesOf(out, stringify)) == Texts(EventStream.EventsOf(out), stringify)
  {
    if out != [] {
      var last := |out| - 1;
      FramesCarryEvents(out[..last], stringify);
      assert FramesOf(out, stringify)[..last] == FramesOf(out[..last], stringify);
    }
  }

  /** What a connection wrote is what the browser is given, whatever was interleaved and however it was cut. */
  lemma BrowserReceivesWhatWasWritten(out: seq<EventStream.Item>, stringify: JobEvent -> string, chunks: seq<string>)
    requires forall e :: OneLine(stringify(e))
    requires Flatten(chunks) == EncodeAll(FramesOf(out, stringify))
    ensures FeedChunks(FRESH, chunks).events == Texts(EventStream.EventsOf(out), stringify)
  {
    StreamRoundTrip(FramesOf(out, stringify), chunks);
    FramesCarryEvents(out, stringify);
  }
}
