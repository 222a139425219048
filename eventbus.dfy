/**
 * The live-update fan-out: every open event stream owns a bounded FIFO queue
 * (capacity 500), `publish` offers each payload to every queue, and the
 * stream writes server-sent-events frames (section 9.2 of the WHATWG HTML
 * Living Standard). Operations are atomic and sequential; a stream whose
 * queue is empty when it asks for the next frame has waited out its 15
 * seconds and sends a keep-alive comment.
 */
module EventBus {
  import opened Base
  import opened Text
  import opened Models

  const QueueCapacity: nat := 500
  const RetryFrame := "retry: 1000\n\n"
  const KeepAliveFrame := ": keepalive\n\n"

  function DataFrame(payload: string): string {
    "data: " + payload + "\n\n"
  }

  /** `put_nowait`: the payload joins the tail of a queue with room; a full queue is left as it is. */
  function Offer(q: seq<string>, p: string): seq<string> {
    if |q| < QueueCapacity then q + [p] else q
  }

  /** A queue after a run of publishes, each offered in turn. */
  function OfferAll(q: seq<string>, ps: seq<string>): seq<string>
    decreases |ps|
  {
    if ps == [] then q else OfferAll(Offer(q, ps[0]), ps[1..])
  }

  /**
   * A queue receives, in publishing order, the longest prefix of the payloads
   * that fits; everything after the first drop is dropped too (as long as
   * nobody reads in between).
   */
  lemma {:induction false} OfferAllKeepsPrefix(q: seq<string>, ps: seq<string>)
    requires |q| <= QueueCapacity
    ensures OfferAll(q, ps) == q + ps[..Min(|ps|, QueueCapacity - |q|)]
    decreases |ps|
  {
    if ps != [] {
      var q' := Offer(q, ps[0]);
      OfferAllKeepsPrefix(q', ps[1..]);
      if |q| < QueueCapacity {
        assert ps[..Min(|ps|, QueueCapacity - |q|)] == [ps[0]] + ps[1..][..Min(|ps| - 1, QueueCapacity - |q'|)];
      } else {
        assert ps[..Min(|ps|, QueueCapacity - |q|)] == [];
        assert ps[1..][..Min(|ps| - 1, QueueCapacity - |q'|)] == [];
      }
    }
  }

  /** The subscriber registry. Each queue is named by the id of the stream that owns it. */
  class Bus {
    var queues: map<nat, seq<string>>
    var nextId: nat

    ghost predicate Valid()
      reads this
    {
      forall id :: id in queues ==> id < nextId && |queues[id]| <= QueueCapacity
    }

    constructor ()
      ensures Valid() && queues == map[]
    {
      queues := map[];
      nextId := 0;
    }

    /** A stream opens: its empty queue joins the registry and the first frame sets the reconnection delay. */
    method Subscribe() returns (id: nat, first: string)
      requires Valid()
      modifies this
      ensures Valid()
      ensures id !in old(queues) && queues == old(queues)[id := []]
      ensures first == RetryFrame
    {
      id := nextId;
      queues := queues[id := []];
      nextId := nextId + 1;
      first := RetryFrame;
    }

    /**
     * `publish` with the payload already encoded: the registry keeps the same
     * subscribers and every queue becomes `Offer(queue, payload)`.
     */
    method Publish(payload: string)
      requires Valid()
      modifies this
      ensures Valid()
      ensures queues.Keys == old(queues).Keys
      ensures forall id :: id in queues ==> queues[id] == Offer(old(queues)[id], payload)
    {
      var next := queues;
      var todo := queues.Keys;
      while todo != {}
        invariant todo <= queues.Keys && next.Keys == queues.Keys
        invariant forall id :: id in todo ==> next[id] == queues[id]
        invariant forall id :: id in queues.Keys - todo ==> next[id] == Offer(queues[id], payload)
        decreases todo
      {
        var id :| id in todo;
        next := next[id := Offer(next[id], payload)];
        todo := todo - {id};
      }
      queues := next;
    }

    /** One step of a stream: the oldest queued payload as a `data:` frame, or a keep-alive when there is none. */
    method Next(id: nat) returns (frame: string)
      requires Valid() && id in queues
      modifies this
      ensures Valid()
      ensures old(queues)[id] != [] ==>
                frame == DataFrame(old(queues)[id][0]) && queues == old(queues)[id := old(queues)[id][1..]]
      ensures old(queues)[id] == [] ==> frame == KeepAliveFrame && queues == old(queues)
    {
      var q := queues[id];
      if q == [] {
        frame := KeepAliveFrame;
      } else {
        frame := DataFrame(q[0]);
        queues := queues[id := q[1..]];
      }
    }

    /** The stream ends: its queue leaves the registry. */
    method Unsubscribe(id: nat)
      requires Valid()
      modifies this
      ensures Valid()
      ensures queues == old(queues) - {id}
    {
      queues := queues - {id};
    }
  }

  // ----- The receiving side: how an event-stream client reads these frames -----

  predicate IsSseBreak(c: char) {
    c == '\r' || c == '\n'
  }

  function FindSseBreak(s: string, from: nat): (r: Option<nat>)
    decreases |s| - from
    ensures r.Some? ==> from <= r.value < |s| && IsSseBreak(s[r.value])
    ensures r.Some? ==> forall k :: from <= k < r.value ==> !IsSseBreak(s[k])
    ensures r.None? ==> forall k :: from <= k < |s| ==> !IsSseBreak(s[k])
  {
    if from >= |s| then None
    else if IsSseBreak(s[from]) then Some(from)
    else FindSseBreak(s, from + 1)
  }

  /** The complete lines of a stream (ended by CRLF, LF or CR); an unterminated tail is not a line yet. */
  function SseLines(s: string): seq<string>
    decreases |s|
  {
    match FindSseBreak(s, 0)
    case None => []
    case Some(i) =>
      var next := if s[i] == '\r' && i + 1 < |s| && s[i + 1] == '\n' then i + 2 else i + 1;
      [s[..i]] + SseLines(s[next..])
  }

  datatype SseLine = Blank | Comment(text: string) | Field(name: string, value: string)

  /** A line: empty, a comment (leading `:`), or `name:value` with one leading space of the value dropped. */
  function ParseLine(line: string): SseLine {
    if line == [] then Blank
    else if line[0] == ':' then Comment(line[1..])
    else
      match FindChar(line, ':', 0)
      case None => Field(line, "")
      case Some(i) =>
        var v := line[i + 1..];
        Field(line[..i], if v != [] && v[0] == ' ' then v[1..] else v)
  }

  predicate AllDigits(s: string) {
    forall k :: 0 <= k < |s| ==> '0' <= s[k] <= '9'
  }

  function DigitsValue(s: string): nat
    requires AllDigits(s)
  {
    if s == [] then 0 else 10 * DigitsValue(s[..|s| - 1]) + (s[|s| - 1] as int - '0' as int)
  }

  /** What the client acts on: a new reconnection delay, or a message event. */
  datatype Received = Reconnect(ms: nat) | Message(data: string)

  /**
   * The client's handling of one parsed line with a data buffer: a `data`
   * field appends its value and a line feed, a blank line dispatches a
   * non-empty buffer without its final line feed and empties it, `retry` with
   * only digits sets the delay, and comments and other fields are ignored.
   */
  function Step(line: SseLine, buffer: string): (seq<Received>, string) {
    match line
    case Blank =>
      if buffer == [] then ([], "") else ([Message(buffer[..|buffer| - 1])], "")
    case Comment(_) => ([], buffer)
    case Field(name, v) =>
      if name == "data" then ([], buffer + v + "\n")
      else if name == "retry" && v != [] && AllDigits(v) then ([Reconnect(DigitsValue(v))], buffer)
      else ([], buffer)
  }

  /** What the client does with a sequence of lines, starting from `buffer`. */
  function Interpret(lines: seq<string>, buffer: string): seq<Received>
    decreases |lines|
  {
    if lines == [] then []
    else
      var (out, buffer') := Step(ParseLine(lines[0]), buffer);
      out + Interpret(lines[1..], buffer')
  }

  /** What a stream writes after its retry frame. */
  datatype Outgoing = Data(payload: string) | KeepAlive

  function Frame(o: Outgoing): string {
    match o
    case Data(p) => DataFrame(p)
    case KeepAlive => KeepAliveFrame
  }

  function Frames(os: seq<Outgoing>): string
    decreases |os|
  {
    if os == [] then "" else Frame(os[0]) + Frames(os[1..])
  }

  /** One message per data frame, carrying its payload. */
  function Messages(os: seq<Outgoing>): seq<Received>
    decreases |os|
  {
    if os == [] then [] else (if os[0].Data? then [Message(os[0].payload)] else []) + Messages(os[1..])
  }

  predicate NoSseBreak(s: string) {
    forall k :: 0 <= k < |s| ==> !IsSseBreak(s[k])
  }

  lemma FindSseBreakAt(s: string, from: nat, n: nat)
    requires from + n < |s| && IsSseBreak(s[from + n])
    requires forall k :: from <= k < from + n ==> !IsSseBreak(s[k])
    ensures FindSseBreak(s, from) == Some(from + n)
  {
  }

  /** A break-free line ended by a line feed is the first line, and the rest splits on its own. */
  lemma LineThenRest(line: string, rest: string)
    requires NoSseBreak(line)
    ensures SseLines(line + "\n" + rest) == [line] + SseLines(rest)
  {
    var s := line + "\n" + rest;
    FindSseBreakAt(s, 0, |line|);
    assert s[..|line|] == line;
    assert s[|line| + 1..] == rest;
  }

  /** Text that ends with a line feed splits into lines independently of what follows it. */
  lemma {:induction false} SseLinesAppend(a: string, b: string)
    requires a != [] ==> a[|a| - 1] == '\n'
    ensures SseLines(a + b) == SseLines(a) + SseLines(b)
    decreases |a|
  {
    if a == [] {
      assert a + b == b;
    } else {
      var first, rest := FirstLineOfAppend(a, b);
      SseLinesAppend(rest, b);
      ConsAppend(first, SseLines(rest), SseLines(b));
    }
  }

  lemma ConsAppend(x: string, xs: seq<string>, ys: seq<string>)
    ensures [x] + xs + ys == [x] + (xs + ys)
  {
  }

  /** The first line of `a + b` lies within `a` when `a` ends with a line feed; `rest` is what follows it in `a`. */
  lemma FirstLineOfAppend(a: string, b: string) returns (first: string, rest: string)
    requires a != [] && a[|a| - 1] == '\n'
    ensures |rest| < |a|
    ensures rest != [] ==> rest[|rest| - 1] == '\n'
    ensures SseLines(a) == [first] + SseLines(rest)
    ensures SseLines(a + b) == [first] + SseLines(rest + b)
  {
    var s := a + b;
    var i := FindSseBreak(a, 0).value;
    FindSseBreakAt(s, 0, i);
    var next := if a[i] == '\r' && i + 1 < |a| && a[i + 1] == '\n' then i + 2 else i + 1;
    assert s[i] == a[i];
    assert i + 1 < |a| ==> s[i + 1] == a[i + 1];
    assert s[..i] == a[..i];
    assert s[next..] == a[next..] + b;
    first, rest := a[..i], a[next..];
  }

  /** A frame is one line and a blank line. */
  lemma FrameOfLine(line: string)
    requires NoSseBreak(line)
    ensures SseLines(line + "\n\n") == [line, ""]
  {
    assert line + "\n\n" == line + "\n" + "\n";
    LineThenRest(line, "\n");
    assert "\n" == "" + "\n" + "";
    LineThenRest("", "");
  }

  lemma FieldLine(name: string, value: string)
    requires name != [] && name[0] != ':' && forall k :: 0 <= k < |name| ==> name[k] != ':'
    ensures ParseLine(name + ": " + value) == Field(name, value)
  {
    var line := name + ": " + value;
    FindCharRun(line, ':', 0, |name|);
    assert line[..|name|] == name;
    assert line[|name| + 1..] == " " + value;
  }

  lemma FrameLines(o: Outgoing)
    requires o.Data? ==> NoSseBreak(o.payload)
    ensures o.Data? ==> SseLines(Frame(o)) == ["data: " + o.payload, ""]
    ensures o.KeepAlive? ==> SseLines(Frame(o)) == [": keepalive", ""]
  {
    if o.Data? {
      assert Frame(o) == ("data: " + o.payload) + "\n\n";
      FrameOfLine("data: " + o.payload);
    } else {
      assert Frame(o) == ": keepalive" + "\n\n";
      FrameOfLine(": keepalive");
    }
  }

  lemma RetryValue()
    ensures AllDigits("1000") && DigitsValue("1000") == 1000
  {
    assert DigitsValue("1") == 1 by { assert "1"[..0] == ""; }
    assert DigitsValue("10") == 10 by { assert "10"[..1] == "1"; }
    assert DigitsValue("100") == 100 by { assert "100"[..2] == "10"; }
    assert "1000"[..3] == "100";
  }

  /** Reading one line: the first element of the list, then the rest with the updated buffer. */
  lemma InterpretCons(line: string, rest: seq<string>, buffer: string)
    ensures Interpret([line] + rest, buffer) ==
              Step(ParseLine(line), buffer).0 + Interpret(rest, Step(ParseLine(line), buffer).1)
  {
    assert ([line] + rest)[1..] == rest;
  }

  lemma RetryLines(rest: seq<string>)
    ensures SseLines(RetryFrame) == ["retry: 1000", ""]
    ensures Interpret(["retry: 1000", ""] + rest, "") == [Reconnect(1000)] + Interpret(rest, "")
  {
    RetryFrameLines();
    RetryStep();
    ReconnectThenBlank("retry: 1000", rest);
  }

  /** A line that only sets the delay, followed by a blank line with nothing buffered. */
  lemma ReconnectThenBlank(line: string, rest: seq<string>)
    requires Step(ParseLine(line), "") == ([Reconnect(1000)], "")
    ensures Interpret([line, ""] + rest, "") == [Reconnect(1000)] + Interpret(rest, "")
  {
    assert [line, ""] + rest == [line] + ([""] + rest);
    InterpretCons(line, [""] + rest, "");
    InterpretCons("", rest, "");
  }

  lemma RetryFrameLines()
    ensures SseLines(RetryFrame) == ["retry: 1000", ""]
  {
    assert RetryFrame == "retry: 1000" + "\n\n";
    FrameOfLine("retry: 1000");
  }

  lemma RetryStep()
    ensures Step(ParseLine("retry: 1000"), "") == ([Reconnect(1000)], "")
  {
    assert "retry: 1000" == "retry" + ": " + "1000";
    FieldLine("retry", "1000");
    RetryValue();
  }

  lemma DataFrameMessage(p: string, rest: seq<string>)
    requires NoSseBreak(p)
    ensures Interpret(SseLines(DataFrame(p)) + rest, "") == [Message(p)] + Interpret(rest, "")
  {
    FrameLines(Data(p));
    var first := "data: " + p;
    assert SseLines(DataFrame(p)) + rest == [first] + ([""] + rest);
    FieldLine("data", p);
    assert first == "data" + ": " + p;
    var buf := "" + p + "\n";
    assert Step(ParseLine(first), "") == ([], buf);
    InterpretCons(first, [""] + rest, "");
    assert buf[..|buf| - 1] == p;
    assert Step(ParseLine(""), buf) == ([Message(p)], "");
    InterpretCons("", rest, buf);
  }

  lemma KeepAliveSilent(rest: seq<string>)
    ensures Interpret(SseLines(KeepAliveFrame) + rest, "") == Interpret(rest, "")
  {
    var first := ": keepalive";
    assert KeepAliveFrame == first + "\n\n";
    FrameOfLine(first);
    CommentThenBlank(first, rest);
  }

  /** A comment line followed by a blank line, with nothing buffered, delivers nothing. */
  lemma CommentThenBlank(line: string, rest: seq<string>)
    requires line != [] && line[0] == ':'
    ensures Interpret([line, ""] + rest, "") == Interpret(rest, "")
  {
    assert [line, ""] + rest == [line] + ([""] + rest);
    InterpretCons(line, [""] + rest, "");
    InterpretCons("", rest, "");
  }

  lemma FrameMessages(o: Outgoing, rest: seq<string>)
    requires o.Data? ==> NoSseBreak(o.payload)
    ensures Interpret(SseLines(Frame(o)) + rest, "") ==
              (if o.Data? then [Message(o.payload)] else []) + Interpret(rest, "")
  {
    if o.Data? {
      DataFrameMessage(o.payload, rest);
    } else {
      KeepAliveSilent(rest);
    }
  }

  /** A stream's frames, read back by a client, give exactly the data payloads in order. */
  lemma {:induction false} FramesDeliverPayloads(os: seq<Outgoing>)
    requires forall k :: 0 <= k < |os| ==> os[k].Data? ==> NoSseBreak(os[k].payload)
    ensures Interpret(SseLines(Frames(os)), "") == Messages(os)
    decreases |os|
  {
    if os != [] {
      SseLinesAppend(Frame(os[0]), Frames(os[1..]));
      FrameMessages(os[0], SseLines(Frames(os[1..])));
      FramesDeliverPayloads(os[1..]);
    }
  }

  /**
   * A whole stream, read by a client: first a reconnection delay of 1000 ms,
   * then one message per data frame carrying its payload, in order;
   * keep-alives deliver nothing.
   */
  lemma StreamDelivers(os: seq<Outgoing>)
    requires forall k :: 0 <= k < |os| ==> os[k].Data? ==> NoSseBreak(os[k].payload)
    ensures Interpret(SseLines(RetryFrame + Frames(os)), "") == [Reconnect(1000)] + Messages(os)
  {
    SseLinesAppend(RetryFrame, Frames(os));
    RetryLines(SseLines(Frames(os)));
    FramesDeliverPayloads(os);
  }
}
