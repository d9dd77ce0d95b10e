# Bulletin board node: message store model

A Dafny model of the message board kept by the FAWNA bulletin-board firmware
(`src/main.cpp`). The board is a vector of fixed-width records. Each record
holds a 37-byte uuid buffer, a 128-byte body buffer and an `int` time-to-live.
A BLE client changes the board through two callbacks:

- the write callback parses a JSON document `{uuid, message, ttl}`. It appends a
  record when `ttl > 0` and fewer than `maxMessages = 10` records are stored.
  Otherwise it does nothing.
- the read callback returns one line `UUID: <uuid> Message: <body>` per record,
  in stored order.

`setup()` seeds one demo record before any client can write.

The model is functional. A board is an immutable `seq<Message>`, and the write
callback is a pure function `Write(board, input) -> board`. The read callback
is a pure function `Render(board) -> string`, plus a method `OnRead` that runs
the firmware's loop. The copy into a record is libc `strncpy`, modelled byte
for byte (`CString.StrNCopy`). A string of the buffer's width or longer is cut
to the buffer's width and left WITHOUT a NUL terminator, exactly as the code
does.

Modules:

- `Wrappers`: `Option`.
- `CString`: C-string length, reading a buffer as a C string, and `strncpy`.
- `Messages`: `struct Message`, its buffer widths, 32-bit `ttl`, and filling
  a record.
- `Board`: `maxMessages`, the demo message, `setup()`, the write callback and
  whole histories of writes.
- `ReadResponse`: the read callback's text.

### What the firmware leaves undone

The comment on `struct Message` (src/main.cpp:12) says a uuid should fit in
36 characters plus a terminator, but nothing checks it: `strncpy` copies into
37 and 128 bytes, so a value of the buffer's width or longer fills the whole
buffer and has no terminator. `processedUUIDs` is declared "for message relay"
(src/main.cpp:19) but never used, and `loop()` only sleeps, leaving the relay
logic as a placeholder (src/main.cpp:162-166). Every admitted write is
appended, even one whose uuid is already stored. The model follows the code:
appending, no deduplication and no relay.

## Model

| member | source | states |
|---|---|---|
| CString.CLen | src/main.cpp:84 | The length of the C string a reader sees in a buffer: no NUL before it, and a NUL at it unless the buffer ends first. |
| CString.Text | src/main.cpp:84 | What `String(char*)` reads from a buffer: a NUL-free prefix of it, `CLen` long. |
| CString.StrNCopy | src/main.cpp:69-70 | `strncpy` into N bytes: the result is exactly N bytes long. It holds the source's first `min(CLen(src), N)` bytes, then NUL padding up to N. |
| CString.CopyLength | src/main.cpp:69-70 | The copied buffer holds a C string of length `min(CLen(src), N)`. |
| CString.CopyTerminatedIff | src/main.cpp:69-70 | The copy is NUL-terminated if and only if the source string is shorter than the buffer. |
| CString.CopyShortRoundTrip | src/main.cpp:69-70 | Round trip: a source shorter than the buffer reads back from the copy unchanged. |
| CString.CopyLongTruncates | src/main.cpp:69-70 | A source of N or more bytes is stored as its first N bytes, with no terminator. |
| CString.CopyObservable | src/main.cpp:69-70 | Both cases together: terminated iff short; if short, it reads back exactly; if long, it is the truncated prefix. |
| Messages.Make | src/main.cpp:68-71 | A record built from (uuid, body, ttl) has buffers of 37 and 128 bytes and keeps the ttl. Each buffer is terminated iff its input is shorter than the buffer. A short input reads back unchanged; a long one is its truncated prefix. |
| Board.Valid | src/main.cpp:67-72 | The board invariant (each record with buffers of 37 and 128 bytes and ttl > 0): a valid board never holds more than `maxMessages` records, and the empty board is valid. |
| Board.Admits | src/main.cpp:67 | The write guard `ttl > 0 && size < maxMessages`: when it holds there is room for one more record; on a valid board it fails only for ttl <= 0 or a full board. |
| Board.Defined | src/main.cpp:62-70 | The callback reaches `strncpy` only for an admitted request, so a parse failure, a ttl <= 0 or a full board is always defined; a missing string matters only when the request is admitted. |
| Board.DemoMessage | src/main.cpp:126-129 | The demo record has well-sized buffers and ttl 5. |
| Board.DemoUuidWhole | src/main.cpp:7 | `WRITE_UUID` has no NUL and is shorter than the 37-byte uuid buffer. |
| Board.DemoBodyWhole | src/main.cpp:128 | The welcome text has no NUL and is shorter than the 128-byte body buffer. |
| Board.DemoUuidReadsBack | src/main.cpp:127 | The demo record's uuid buffer is terminated and reads back as `WRITE_UUID`. |
| Board.DemoBodyReadsBack | src/main.cpp:128 | The demo record's body buffer is terminated and reads back as "Welcome to the Bulletin Board! :P". |
| Board.Setup | src/main.cpp:126-130 | After `setup()` the board holds exactly the demo record and satisfies the board invariant. |
| Board.Write | src/main.cpp:56-76 | The board grows by one record if and only if the parse succeeded, ttl > 0 and fewer than 10 records are stored. Otherwise it is returned unchanged. The old board is always a prefix of the new one. The new record holds the `strncpy` images of uuid and body and the given ttl. The invariant (at most 10 records, each well-sized with ttl > 0) is preserved. |
| Board.Run | src/main.cpp:67-72 | Every board reachable from `setup()` by any history of writes has at most 10 records, each with ttl > 0 and well-sized buffers, and is non-empty. |
| Board.AdmittedBound | src/main.cpp:20 | A reachable board holds the demo record plus one record per admitted write, so clients can fill at most 9 slots. |
| Board.DemoStaysFirst | src/main.cpp:130 | The seeded board is a prefix of every reachable board: the demo message stays first forever. |
| Board.AppendOnly | src/main.cpp:72 | An earlier board in a history is a prefix of every later one: records are never removed, changed or reordered. |
| Board.PrefixDefined | src/main.cpp:56-76 | Every prefix of a history on which the callback is defined is defined. |
| Board.SameUuidTwice | src/main.cpp:67-72 | Two writes with the same uuid and room for both grow the board by two. The first record is left as it was, and both stored uuids are equal: no dedup, no overwrite. |
| Board.AdmissionIgnoresContent | src/main.cpp:67 | Two requests with the same ttl are admitted or refused together, whatever their uuid or body. |
| ReadResponse.Entry | src/main.cpp:84 | One record's line is 17 bytes of framing plus the two C-string lengths, starts with `"UUID: "` followed by the uuid text, and ends with a newline. |
| ReadResponse.Render | src/main.cpp:82-85 | The response is empty exactly when the board is, and otherwise ends with a newline. |
| ReadResponse.RenderEmpty | src/main.cpp:82 | An empty board renders as the empty string. |
| ReadResponse.JoinAppend | src/main.cpp:83-85 | Appending pieces one after another is associative over splits of the piece list. |
| ReadResponse.RenderAppend | src/main.cpp:83-85 | The response for two stretches of board is the two responses concatenated, in order. |
| ReadResponse.RenderSingle | src/main.cpp:84 | A one-record board renders as `"UUID: " + uuid + " Message: " + body + "\n"`. |
| ReadResponse.RenderSnoc | src/main.cpp:83-85 | A record added at the end adds its line at the end of the response. |
| ReadResponse.RenderMatchesReference | src/main.cpp:83-85 | The appending fold equals an independent front-to-back listing of the lines. |
| ReadResponse.WriteExtendsResponse | src/main.cpp:67-72 | After an admitted write whose strings fit their buffers, the response is the old response plus exactly the new line with the written uuid and body. |
| ReadResponse.RefusedWriteKeepsResponse | src/main.cpp:74-76 | A parse failure or refused write leaves the read response identical. |
| ReadResponse.DemoEntry | src/main.cpp:84 | The demo record is readable and its line is `"UUID: " + WRITE_UUID + " Message: " + welcome text + "\n"`. |
| ReadResponse.SetupResponse | src/main.cpp:126-130 | Right after `setup()` the response is the single welcome line with uuid `WRITE_UUID`. |
| ReadResponse.OnRead | src/main.cpp:82-86 | The firmware's loop builds exactly `Render(board)`, which is also the front-to-back listing. The board is a value, so repeated reads return identical text. |

## Left out

- The BLE server, service, characteristics and advertising (src/main.cpp:23-43, 116-159) are transport plumbing over a library this model does not see. The connect callback builds the read text and then discards it, and the disconnect callback restarts advertising; neither touches the board.
- JSON parsing (src/main.cpp:53-64) is library behaviour. A write arrives as an `Input`: `None` for a parse error, or the three fields. A missing string field is `None`. A missing or out-of-range ttl becomes whatever `int` the library yields.
- Board.Write: requires `Defined`: an admitted request must carry both strings. With a null field, `strncpy` would read a null pointer, which is undefined behaviour.
- ReadResponse.OnRead: requires every stored buffer to be terminated (`AllReadable`). A 37-byte uuid or 128-byte body is stored with no terminator, and reading it runs past the array, which is undefined. The model does not say what text such a read yields.
- Serial logging and `printStoredMessages` (src/main.cpp:91-109) are output-only.
- `loop()` and `processedUUIDs` do nothing. Relay, TTL decrement and deduplication do not exist in the code and are not modelled.
- Callbacks are treated as atomic sequential steps; concurrency between host tasks is not modelled.
- Bytes are modelled as `char`, one element per byte. Heap exhaustion while the Arduino `String` response grows is not modelled.
