/** Fixed-width C character buffers and the libc `strncpy` copy into them.
    Every `char` here stands for one byte of the firmware's `char` arrays. */
module CString {

  /** The C string terminator. */
  const NUL: char := '\0'

  /** Length of the C string stored in `s`: the index of the first NUL, or `|s|`
      when `s` holds none (for a source string the terminator then sits just
      past the sequence; for a buffer it means the buffer is unterminated). */
  function CLen(s: seq<char>): (n: nat)
    ensures n <= |s|
    ensures forall i :: 0 <= i < n ==> s[i] != NUL
    ensures n < |s| ==> s[n] == NUL
  {
    if |s| == 0 || s[0] == NUL then 0 else 1 + CLen(s[1..])
  }

  /** `CLen` is pinned down by the three facts its contract states. */
  lemma CLenUnique(s: seq<char>, k: nat)
    requires k <= |s|
    requires forall i :: 0 <= i < k ==> s[i] != NUL
    requires k < |s| ==> s[k] == NUL
    ensures CLen(s) == k
  {
  }

  /** A buffer whose contents can be read as a C string without running off its end. */
  predicate Terminated(buf: seq<char>)
  {
    NUL in buf
  }

  /** The text a C string reader (such as Arduino's `String(const char*)`) sees in `s`. */
  function Text(s: seq<char>): (t: string)
    ensures NUL !in t
    ensures t <= s
    ensures |t| == CLen(s)
  {
    s[..CLen(s)]
  }

  lemma TerminatedIffShort(buf: seq<char>)
    ensures Terminated(buf) <==> CLen(buf) < |buf|
  {
    if Terminated(buf) {
      var i :| 0 <= i < |buf| && buf[i] == NUL;
      assert CLen(buf) <= i;
    }
  }

  /** `strncpy(dst, src, n)` for a destination of exactly `n` bytes: copies the
      C string in `src` up to its terminator or until `n` bytes are written,
      then pads with NUL. No terminator is added when the source fills the buffer. */
  function StrNCopy(src: seq<char>, n: nat): (dst: seq<char>)
    ensures |dst| == n
    ensures forall i :: 0 <= i < n && i < CLen(src) ==> dst[i] == src[i]
    ensures forall i :: CLen(src) <= i < n ==> dst[i] == NUL
  {
    seq(n, i requires 0 <= i < n => if i < CLen(src) then src[i] else NUL)
  }

  /** The copy holds a C string of length min(CLen(src), n). */
  lemma CopyLength(src: seq<char>, n: nat)
    ensures CLen(StrNCopy(src, n)) == if CLen(src) < n then CLen(src) else n
  {
    var dst := StrNCopy(src, n);
    var k := if CLen(src) < n then CLen(src) else n;
    CLenUnique(dst, k);
  }

  /** The copy is terminated exactly when the source string is shorter than the buffer. */
  lemma CopyTerminatedIff(src: seq<char>, n: nat)
    ensures Terminated(StrNCopy(src, n)) <==> CLen(src) < n
  {
    CopyLength(src, n);
    TerminatedIffShort(StrNCopy(src, n));
  }

  /** Round trip: a source shorter than the buffer reads back unchanged. */
  lemma CopyShortRoundTrip(src: seq<char>, n: nat)
    requires CLen(src) < n
    ensures Terminated(StrNCopy(src, n))
    ensures Text(StrNCopy(src, n)) == Text(src)
  {
    CopyTerminatedIff(src, n);
    CopyLength(src, n);
  }

  /** A source of `n` or more bytes is cut to its first `n` bytes and left without
      a terminator. */
  lemma CopyLongTruncates(src: seq<char>, n: nat)
    requires CLen(src) >= n
    ensures StrNCopy(src, n) == src[..n]
    ensures !Terminated(StrNCopy(src, n))
  {
    CopyTerminatedIff(src, n);
  }

  /** Everything a reader of the copy can observe, for either length of source. */
  lemma CopyObservable(src: seq<char>, n: nat)
    ensures Terminated(StrNCopy(src, n)) <==> CLen(src) < n
    ensures CLen(src) < n ==> Text(StrNCopy(src, n)) == Text(src)
    ensures CLen(src) >= n ==> StrNCopy(src, n) == src[..n]
  {
    if CLen(src) < n {
      CopyShortRoundTrip(src, n);
    } else {
      CopyLongTruncates(src, n);
    }
  }
}
