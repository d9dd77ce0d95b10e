/** The text the read callback hands back: one line per stored message, in
    stored order. */
module ReadResponse {
  import opened Wrappers
  import opened CString
  import opened Messages
  import opened Board

  /** Both buffers of the record can be read as C strings. A buffer without a
      terminator would make the reader run past the array, which is undefined. */
  predicate Readable(m: Message)
  {
    Terminated(m.uuid) && Terminated(m.body)
  }

  predicate AllReadable(b: Board)
  {
    forall i :: 0 <= i < |b| ==> Readable(b[i])
  }

  /** The line for one message. */
  function Entry(m: Message): (line: string)
    requires Readable(m)
    ensures |line| == 17 + CLen(m.uuid) + CLen(m.body)
    ensures "UUID: " + Text(m.uuid) <= line
    ensures line[|line| - 1] == '\n'
  {
    "UUID: " + Text(m.uuid) + " Message: " + Text(m.body) + "\n"
  }

  /** The pieces in order, each appended to what came before (`response += piece`). */
  function Join(parts: seq<string>): (text: string)
  {
    if |parts| == 0 then "" else Join(parts[..|parts| - 1]) + parts[|parts| - 1]
  }

  lemma {:induction false} JoinAppend(p: seq<string>, q: seq<string>)
    ensures Join(p + q) == Join(p) + Join(q)
    decreases |q|
  {
    if |q| > 0 {
      var q' := q[..|q| - 1];
      assert (p + q)[..|p + q| - 1] == p + q';
      assert (p + q)[|p + q| - 1] == q[|q| - 1];
      JoinAppend(p, q');
    } else {
      assert p + q == p;
    }
  }

  /** One line per stored message, in stored order. */
  function Lines(b: Board): (lines: seq<string>)
    requires AllReadable(b)
  {
    seq(|b|, i requires 0 <= i < |b| => Entry(b[i]))
  }

  /** The response the read callback builds from the board. */
  function Render(b: Board): (text: string)
    requires AllReadable(b)
    ensures |b| == 0 <==> text == ""
    ensures |b| > 0 ==> text[|text| - 1] == '\n'
  {
    Join(Lines(b))
  }

  /** The same listing written front to back, as an independent reference. */
  function RenderFrom(b: Board): (text: string)
    requires AllReadable(b)
  {
    if |b| == 0 then "" else Entry(b[0]) + RenderFrom(b[1..])
  }

  lemma ReadableConcat(a: Board, c: Board)
    requires AllReadable(a) && AllReadable(c)
    ensures AllReadable(a + c)
  {
    forall i | 0 <= i < |a + c|
      ensures Readable((a + c)[i])
    {
      if i < |a| {
        assert (a + c)[i] == a[i];
      } else {
        assert (a + c)[i] == c[i - |a|];
      }
    }
  }

  /** An empty board gives an empty response. */
  lemma RenderEmpty(b: Board)
    requires |b| == 0
    ensures Render(b) == ""
  {
  }

  /** Rendering two stretches of the board one after the other gives the
      rendering of the whole. */
  lemma RenderAppend(a: Board, c: Board)
    requires AllReadable(a) && AllReadable(c)
    ensures AllReadable(a + c)
    ensures Render(a + c) == Render(a) + Render(c)
  {
    ReadableConcat(a, c);
    assert Lines(a + c) == Lines(a) + Lines(c);
    JoinAppend(Lines(a), Lines(c));
  }

  /** A board of one message renders as that message's line. */
  lemma RenderSingle(m: Message)
    requires Readable(m)
    ensures AllReadable([m])
    ensures Render([m]) == Entry(m)
  {
    var lines := Lines([m]);
    assert lines == [Entry(m)];
    assert lines[..0] == [];
    assert Join(lines) == Join([]) + Entry(m);
    assert Join([]) + Entry(m) == Entry(m);
  }

  /** One more message at the end of the board adds its line at the end of
      the response. */
  lemma RenderSnoc(b: Board, m: Message)
    requires AllReadable(b) && Readable(m)
    ensures AllReadable(b + [m])
    ensures Render(b + [m]) == Render(b) + Entry(m)
  {
    RenderAppend(b, [m]);
    RenderSingle(m);
  }

  /** The appending fold and the front-to-back listing agree. */
  lemma {:induction false} RenderMatchesReference(b: Board)
    requires AllReadable(b)
    ensures Render(b) == RenderFrom(b)
  {
    if |b| > 0 {
      RenderMatchesReference(b[1..]);
      assert b == [b[0]] + b[1..];
      RenderAppend([b[0]], b[1..]);
      RenderSingle(b[0]);
    }
  }

  /** An admitted write whose strings fit their buffers adds exactly the line
      for the written uuid and body to the end of the response. */
  lemma WriteExtendsResponse(b: Board, req: Request)
    requires AllReadable(b)
    requires Admits(b, req) && req.uuid.Some? && req.message.Some?
    requires CLen(req.uuid.value) < UuidSize && CLen(req.message.value) < BodySize
    ensures AllReadable(Write(b, Some(req)))
    ensures Render(Write(b, Some(req)))
         == Render(b) + ("UUID: " + Text(req.uuid.value) + " Message: " + Text(req.message.value) + "\n")
  {
    var r := Write(b, Some(req));
    var m := r[|b|];
    assert r == b + [m];
    CopyObservable(req.uuid.value, UuidSize);
    CopyObservable(req.message.value, BodySize);
    assert Readable(m);
    assert Text(m.uuid) == Text(req.uuid.value) && Text(m.body) == Text(req.message.value);
    RenderSnoc(b, m);
  }

  /** A refused write leaves the response as it was. */
  lemma RefusedWriteKeepsResponse(b: Board, input: Input)
    requires AllReadable(b) && Defined(b, input)
    requires input.None? || !Admits(b, input.value)
    ensures AllReadable(Write(b, input))
    ensures Render(Write(b, input)) == Render(b)
  {
  }

  /** The demo record's line: its uuid and body read back whole. */
  lemma DemoEntry()
    ensures Readable(Demo)
    ensures Entry(Demo) == "UUID: " + WriteUuid + " Message: " + DemoBody + "\n"
  {
    DemoUuidReadsBack();
    DemoBodyReadsBack();
  }

  /** The response right after `setup()`: the welcome line alone. */
  lemma SetupResponse()
    ensures AllReadable(Setup())
    ensures Render(Setup()) == "UUID: " + WriteUuid + " Message: " + DemoBody + "\n"
  {
    DemoEntry();
    RenderSingle(Demo);
  }

  /** The read callback: the loop of the firmware, building the same text. The
      board is a value, so reading it changes nothing and two reads with no
      write between them return the same text. */
  method OnRead(b: Board) returns (response: string)
    requires AllReadable(b)
    ensures response == Render(b)
    ensures response == RenderFrom(b)
  {
    response := "";
    var i := 0;
    while i < |b|
      invariant 0 <= i <= |b|
      invariant response == Render(b[..i])
    {
      assert b[..i + 1] == b[..i] + [b[i]];
      RenderSnoc(b[..i], b[i]);
      var line := "UUID: " + Text(b[i].uuid) + " Message: " + Text(b[i].body) + "\n";
      assert line == Entry(b[i]);
      response := response + line;
      i := i + 1;
    }
    assert b[..i] == b;
    RenderMatchesReference(b);
  }
}
