/** The message board kept by the firmware: the global `messages` vector, the
    demo message `setup()` seeds, and the admission rule of the write callback. */
module Board {
  import opened Wrappers
  import opened CString
  import opened Messages

  /** `maxMessages`. */
  const MaxMessages: nat := 10

  /** The `WRITE_UUID` characteristic id, reused as the demo message's uuid. */
  const WriteUuid: string := "00000002-0000-1000-BEEF-00805F9B34FC"
  const DemoBody: string := "Welcome to the Bulletin Board! :P"
  const DemoTtl: Int32 := 5

  /** The stored messages, oldest first. */
  type Board = seq<Message>

  /** The three fields the write callback takes from a parsed JSON document.
      A string field the document lacks is a null pointer, `None` here. */
  datatype Request = Request(uuid: Option<seq<char>>, message: Option<seq<char>>, ttl: Int32)

  /** What the write callback receives once the JSON step is done: `None` when
      deserialisation failed. */
  type Input = Option<Request>

  /** Every reachable board satisfies this: within capacity, every record
      well-sized and carrying a positive ttl. */
  function Valid(b: Board): (ok: bool)
    ensures ok ==> |b| <= MaxMessages
    ensures |b| == 0 ==> ok
  {
    && |b| <= MaxMessages
    && forall i :: 0 <= i < |b| ==> WellSized(b[i]) && b[i].ttl > 0
  }

  /** The admission test of the write callback. It looks at the ttl and the
      board size only: neither the uuid nor the body is consulted. */
  function Admits(b: Board, req: Request): (ok: bool)
    ensures ok ==> req.ttl > 0 && |b| + 1 <= MaxMessages
    ensures Valid(b) && !ok ==> req.ttl <= 0 || |b| == MaxMessages
  {
    req.ttl > 0 && |b| < MaxMessages
  }

  /** The firmware is defined on this input: an admitted request must carry
      both strings, since copying from a null pointer is undefined. A parse
      failure, a non-positive ttl or a full board never reach the copy, so
      missing strings are harmless there. */
  function Defined(b: Board, input: Input): (ok: bool)
    ensures input.None? ==> ok
    ensures input.Some? && input.value.ttl <= 0 ==> ok
    ensures |b| >= MaxMessages ==> ok
    ensures !ok ==> input.Some? && input.value.ttl > 0 && |b| < MaxMessages
    ensures !ok ==> input.Some? && (input.value.uuid.None? || input.value.message.None?)
  {
    input.Some? && Admits(b, input.value) ==> input.value.uuid.Some? && input.value.message.Some?
  }

  /** The demo record `setup()` builds. */
  function DemoMessage(): (m: Message)
    ensures WellSized(m) && m.ttl == DemoTtl
  {
    Make(WriteUuid, DemoBody, DemoTtl)
  }

  /** The seeded record, named once so that proofs refer to it rather than
      recompute it. */
  const Demo: Message := DemoMessage()

  /** A string without NUL is a whole C string. */
  lemma NoNulLength(s: string)
    requires NUL !in s
    ensures CLen(s) == |s| && Text(s) == s
  {
    CLenUnique(s, |s|);
  }

  /** The demo uuid (36 characters) fits its buffer with room for the terminator. */
  lemma DemoUuidWhole()
    ensures CLen(WriteUuid) == |WriteUuid| < UuidSize && Text(WriteUuid) == WriteUuid
  {
    NoNulLength(WriteUuid);
  }

  /** So does the demo body (33 characters). */
  lemma DemoBodyWhole()
    ensures CLen(DemoBody) == |DemoBody| < BodySize && Text(DemoBody) == DemoBody
  {
    NoNulLength(DemoBody);
  }

  /** The board right after `setup()`: the demo message alone. */
  function Setup(): (b: Board)
    ensures Valid(b)
    ensures |b| == 1 && b[0] == Demo
  {
    var b := [Demo];
    assert WellSized(b[0]) && b[0].ttl > 0;
    forall i | 0 <= i < |b|
      ensures WellSized(b[i]) && b[i].ttl > 0
    {
      assert i == 0;
    }
    b
  }

  /** The demo message's uuid buffer reads back as `WRITE_UUID`. */
  lemma DemoUuidReadsBack()
    ensures Terminated(Demo.uuid) && Text(Demo.uuid) == WriteUuid
  {
    DemoUuidWhole();
    CopyObservable(WriteUuid, UuidSize);
  }

  /** The demo message's body buffer reads back as the welcome text. */
  lemma DemoBodyReadsBack()
    ensures Terminated(Demo.body) && Text(Demo.body) == DemoBody
  {
    DemoBodyWhole();
    CopyObservable(DemoBody, BodySize);
  }

  /** The write callback on a board. A failed parse, a ttl of zero or less, or a
      full board leave the board as it was; otherwise one record is appended. */
  function Write(b: Board, input: Input): (r: Board)
    requires Defined(b, input)
    ensures b <= r && |r| <= |b| + 1
    ensures |r| == |b| + 1 <==> input.Some? && Admits(b, input.value)
    ensures input.None? || !Admits(b, input.value) ==> r == b
    ensures |r| == |b| + 1 ==>
              && r[|b|].ttl == input.value.ttl
              && r[|b|].uuid == StrNCopy(input.value.uuid.value, UuidSize)
              && r[|b|].body == StrNCopy(input.value.message.value, BodySize)
    ensures Valid(b) ==> Valid(r)
  {
    match input
    case None => b
    case Some(req) =>
      if Admits(b, req) then
        b + [Make(req.uuid.value, req.message.value, req.ttl)]
      else
        b
  }

  /** The whole history of inputs is defined from `setup()` onward. */
  predicate RunDefined(ws: seq<Input>)
    decreases |ws|, 0
  {
    |ws| == 0 || (RunDefined(ws[..|ws| - 1]) && Defined(Run(ws[..|ws| - 1]), ws[|ws| - 1]))
  }

  /** The board after `setup()` and then the given writes, in order. */
  function Run(ws: seq<Input>): (b: Board)
    requires RunDefined(ws)
    decreases |ws|, 1
    ensures Valid(b)
    ensures 1 <= |b|
  {
    if |ws| == 0 then Setup() else Write(Run(ws[..|ws| - 1]), ws[|ws| - 1])
  }

  /** How many of the writes were admitted. */
  function Admitted(ws: seq<Input>): (n: nat)
    requires RunDefined(ws)
  {
    if |ws| == 0 then 0
    else
      var prev := ws[..|ws| - 1];
      var w := ws[|ws| - 1];
      Admitted(prev) + (if w.Some? && Admits(Run(prev), w.value) then 1 else 0)
  }

  /** The board holds the demo message and one record per admitted write, so
      clients can fill at most `MaxMessages - 1` slots. */
  lemma {:induction false} AdmittedBound(ws: seq<Input>)
    requires RunDefined(ws)
    ensures |Run(ws)| == 1 + Admitted(ws)
    ensures Admitted(ws) <= MaxMessages - 1
  {
    if |ws| > 0 {
      var prev := ws[..|ws| - 1];
      var w := ws[|ws| - 1];
      AdmittedBound(prev);
      var b := Run(prev);
      assert Run(ws) == Write(b, w);
      assert |Run(ws)| == |b| + (if w.Some? && Admits(b, w.value) then 1 else 0);
      assert Valid(Run(ws));
    }
  }

  /** The demo message stays first on the board whatever is written later. */
  lemma {:induction false} DemoStaysFirst(ws: seq<Input>)
    requires RunDefined(ws)
    ensures Setup() <= Run(ws)
  {
    if |ws| > 0 {
      DemoStaysFirst(ws[..|ws| - 1]);
    }
  }

  /** Every prefix of a defined history is defined. */
  lemma {:induction false} PrefixDefined(ws: seq<Input>, k: nat)
    requires RunDefined(ws)
    requires k <= |ws|
    ensures RunDefined(ws[..k])
    decreases |ws|
  {
    if k < |ws| {
      assert ws[..|ws| - 1][..k] == ws[..k];
      PrefixDefined(ws[..|ws| - 1], k);
    } else {
      assert ws[..k] == ws;
    }
  }

  /** The board only grows at its end: an earlier board is a prefix of every
      later one, so no record is ever removed, changed or reordered. */
  lemma {:induction false} AppendOnly(ws: seq<Input>, k: nat)
    requires RunDefined(ws)
    requires k <= |ws|
    ensures RunDefined(ws[..k])
    ensures Run(ws[..k]) <= Run(ws)
    decreases |ws|
  {
    PrefixDefined(ws, k);
    if k < |ws| {
      assert ws[..|ws| - 1][..k] == ws[..k];
      AppendOnly(ws[..|ws| - 1], k);
    } else {
      assert ws[..k] == ws;
    }
  }

  /** There is no deduplication and no overwrite by id: two writes with the
      same uuid, with room for both, are both stored, the first one untouched. */
  lemma SameUuidTwice(b: Board, req1: Request, req2: Request)
    requires |b| + 2 <= MaxMessages
    requires req1.ttl > 0 && req2.ttl > 0
    requires req1.uuid.Some? && req1.message.Some? && req2.message.Some?
    requires req2.uuid == req1.uuid
    ensures Defined(Write(b, Some(req1)), Some(req2))
    ensures |Write(Write(b, Some(req1)), Some(req2))| == |b| + 2
    ensures Write(Write(b, Some(req1)), Some(req2))[|b|] == Write(b, Some(req1))[|b|]
    ensures Write(Write(b, Some(req1)), Some(req2))[|b|].uuid
         == Write(Write(b, Some(req1)), Some(req2))[|b| + 1].uuid
  {
    var r1 := Write(b, Some(req1));
    var r2 := Write(r1, Some(req2));
    assert r1 <= r2;
  }

  /** Admission does not depend on the uuid or body: two requests with the same
      ttl are admitted or refused together. */
  lemma AdmissionIgnoresContent(b: Board, req1: Request, req2: Request)
    requires req1.ttl == req2.ttl
    requires Defined(b, Some(req1)) && Defined(b, Some(req2))
    ensures |Write(b, Some(req1))| == |Write(b, Some(req2))|
  {
  }
}
