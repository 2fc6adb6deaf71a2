/** The growable NUL-terminated string buffer `ol.c` uses to collect
    identifiers and string literals (`str_new`, `str_expand`,
    `str_append`).  The allocation is a sequence of `cap` bytes; the bytes
    `realloc` adds are indeterminate in C and are zero here. */
module OlString {
  import opened Numeric

  /** A `string`: the allocation, its capacity and the length of the text. */
  datatype StrBuf = StrBuf(buf: seq<int>, cap: nat, len: nat)

  /** The text fits in the allocation with its terminating NUL. */
  predicate Valid(s: StrBuf) {
    |s.buf| == s.cap && s.len < s.cap && s.buf[s.len] == 0
  }

  /** The text held. */
  function Content(s: StrBuf): seq<int>
    requires Valid(s)
  {
    s.buf[..s.len]
  }

  /** `str_new`: an empty text in a one-byte allocation. */
  function New(): (r: StrBuf)
    ensures Valid(r) && Content(r) == [] && r.cap == 1
  {
    StrBuf([0], 1, 0)
  }

  /** `str_expand`: grow the allocation to at least `cap` bytes, by half
      again its size unless more is needed; the text is kept. */
  function Expand(s: StrBuf, cap: nat): (r: StrBuf)
    requires Valid(s)
    ensures Valid(r) && Content(r) == Content(s)
    ensures r.cap >= cap && r.cap >= s.cap
    ensures s.cap >= cap ==> r == s
    ensures s.cap < cap ==> r.cap == Max(3 * s.cap / 2, cap)
  {
    if s.cap >= cap then s
    else
      var c := if 3 * s.cap / 2 < cap then cap else 3 * s.cap / 2;
      StrBuf(s.buf + seq(c - s.cap, _ => 0), c, s.len)
  }

  /** `str_append`: make room for one more byte and its NUL, then store it. */
  function Append(s: StrBuf, c: int): (r: StrBuf)
    requires Valid(s)
    ensures Valid(r) && Content(r) == Content(s) + [c]
  {
    var e := Expand(s, s.len + 2);
    var b := e.buf[e.len := c][e.len + 1 := 0];
    assert b[..e.len + 1] == e.buf[..e.len] + [c];
    StrBuf(b, e.cap, e.len + 1)
  }

  /** The allocation never exceeds the text by much: it is at most one byte
      more than the text, or at most half as large again. */
  predicate Snug(s: StrBuf) {
    s.cap <= s.len + 1 || 2 * s.cap <= 3 * s.len
  }

  /** Appending keeps the allocation snug. */
  lemma AppendSnug(s: StrBuf, c: int)
    requires Valid(s) && Snug(s)
    ensures Snug(Append(s, c))
  {
  }

  /** Appending a whole text, one byte at a time. */
  function AppendAll(s: StrBuf, t: seq<int>): (r: StrBuf)
    requires Valid(s)
    ensures Valid(r)
    decreases |t|
  {
    if t == [] then s else AppendAll(Append(s, t[0]), t[1..])
  }

  /** The buffer holds exactly what was appended, in order, and the
      allocation stays snug. */
  lemma {:induction false} AppendAllContent(s: StrBuf, t: seq<int>)
    requires Valid(s) && Snug(s)
    ensures Content(AppendAll(s, t)) == Content(s) + t
    ensures Snug(AppendAll(s, t))
    decreases |t|
  {
    if t != [] {
      var a := Append(s, t[0]);
      AppendSnug(s, t[0]);
      AppendAllContent(a, t[1..]);
      assert AppendAll(s, t) == AppendAll(a, t[1..]);
      assert Content(a) + t[1..] == Content(s) + t;
    }
  }

  /** A text collected from a new buffer is the text appended. */
  lemma Collected(t: seq<int>)
    ensures Content(AppendAll(New(), t)) == t
    ensures Snug(AppendAll(New(), t))
  {
    AppendAllContent(New(), t);
  }
}
