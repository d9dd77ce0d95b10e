/** The firmware's `struct Message`: a 37-byte uuid buffer, a 128-byte body
    buffer and a 32-bit signed time-to-live. */
module Messages {
  import opened CString

  /** `sizeof(Message::uuid)`. */
  const UuidSize: nat := 37
  /** `sizeof(Message::body)`. */
  const BodySize: nat := 128

  /** The range of the firmware's `int` (32 bits on the target). */
  type Int32 = x: int | -0x8000_0000 <= x < 0x8000_0000

  datatype Message = Message(uuid: seq<char>, body: seq<char>, ttl: Int32)

  /** Both buffers have exactly the width the struct declares. */
  predicate WellSized(m: Message)
  {
    |m.uuid| == UuidSize && |m.body| == BodySize
  }

  /** Fill a record the way the firmware does: `strncpy` of each string into
      its buffer, then the ttl stored as is. */
  function Make(uuid: seq<char>, body: seq<char>, ttl: Int32): (m: Message)
    ensures WellSized(m)
    ensures m.ttl == ttl
    ensures Terminated(m.uuid) <==> CLen(uuid) < UuidSize
    ensures Terminated(m.body) <==> CLen(body) < BodySize
    ensures CLen(uuid) < UuidSize ==> Text(m.uuid) == Text(uuid)
    ensures CLen(body) < BodySize ==> Text(m.body) == Text(body)
    ensures CLen(uuid) >= UuidSize ==> m.uuid == uuid[..UuidSize]
    ensures CLen(body) >= BodySize ==> m.body == body[..BodySize]
  {
    CopyObservable(uuid, UuidSize);
    CopyObservable(body, BodySize);
    Message(StrNCopy(uuid, UuidSize), StrNCopy(body, BodySize), ttl)
  }
}
