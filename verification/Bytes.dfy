/** Bytes, the C library searches on them, and machine integers.

A byte of a `std::string` or of a buffer is modelled by a `char`.  Every statement of this
project holds for arbitrary characters, hence in particular for codes below 256. */
module Bytes {

  type Bytes = seq<char>

  const INT_MAX := 0x7fff_ffff
  const TWO_32 := 0x1_0000_0000
  const TWO_64 := 0x1_0000_0000_0000_0000

  function Min(a: int, b: int): int { if a <= b then a else b }

  function Max(a: int, b: int): int { if a <= b then b else a }

  /** `static_cast<int>`: the 32-bit two's complement value congruent to `n`. */
  function AsInt32(n: int): (r: int)
    ensures -0x8000_0000 <= r <= INT_MAX
    ensures -0x8000_0000 <= n <= INT_MAX ==> r == n
    ensures n >= 0 ==> r <= n
  {
    var m := n % TWO_32;
    if m <= INT_MAX then m else m - TWO_32
  }

  /** `memchr` on `s[lo..hi]`: the first index of `c`, or -1. */
  function IndexOf(s: Bytes, c: char, lo: nat, hi: nat): (r: int)
    requires lo <= hi <= |s|
    ensures r == -1 || lo <= r < hi
    ensures r == -1 ==> forall i :: lo <= i < hi ==> s[i] != c
    ensures r != -1 ==> s[r] == c && forall i :: lo <= i < r ==> s[i] != c
    decreases hi - lo
  {
    if lo == hi then -1
    else if s[lo] == c then lo
    else IndexOf(s, c, lo + 1, hi)
  }

  predicate CrlfAt(s: Bytes, i: int)
  {
    0 <= i && i + 2 <= |s| && s[i] == '\r' && s[i + 1] == '\n'
  }

  predicate NoCrlf(s: Bytes)
  {
    forall i :: 0 <= i < |s| ==> !CrlfAt(s, i)
  }

  /** `memmem` for CRLF on `s[lo..hi]`: the first index at which CRLF lies inside, or -1. */
  function FindCrlf(s: Bytes, lo: nat, hi: nat): (r: int)
    requires lo <= hi <= |s|
    ensures r == -1 || (lo <= r && r + 2 <= hi)
    ensures r == -1 ==> forall i :: lo <= i && i + 2 <= hi ==> !CrlfAt(s, i)
    ensures r != -1 ==> CrlfAt(s, r) && forall i :: lo <= i < r ==> !CrlfAt(s, i)
    decreases hi - lo
  {
    if lo + 2 > hi then -1
    else if CrlfAt(s, lo) then lo
    else FindCrlf(s, lo + 1, hi)
  }

  /** The string with the bytes of a list of chunks in order. */
  function Concat(chunks: seq<Bytes>): Bytes
  {
    if chunks == [] then [] else chunks[0] + Concat(chunks[1..])
  }

  lemma ConcatOne(chunk: Bytes, rest: seq<Bytes>)
    ensures Concat([chunk] + rest) == chunk + Concat(rest)
  {
    assert ([chunk] + rest)[1..] == rest;
  }

  /** A slice of a prefix is the slice. */
  lemma SliceOfPrefix(d: Bytes, w: nat, lo: nat, hi: nat)
    requires lo <= hi <= w <= |d|
    ensures d[..w][lo..hi] == d[lo..hi]
  {
  }

  /** A CRLF found in a prefix is the one found in any extension with a wider window. */
  lemma FindCrlfExtends(s: Bytes, t: Bytes, lo: nat, hi: nat, wider: nat)
    requires lo <= hi <= |s| && hi <= wider <= |s + t|
    requires FindCrlf(s, lo, hi) != -1
    ensures FindCrlf(s + t, lo, wider) == FindCrlf(s, lo, hi)
  {
    var e := FindCrlf(s, lo, hi);
    var u := s + t;
    assert CrlfAt(u, e);
    forall i | lo <= i < e ensures !CrlfAt(u, i) {
      assert !CrlfAt(s, i);
    }
  }

  /** A line without CRLF, followed by CRLF, ends where `FindCrlf` says. */
  lemma FindCrlfOfLine(s: Bytes, lo: nat, hi: nat, line: Bytes)
    requires lo <= hi <= |s| && lo + |line| + 2 <= hi
    requires s[lo..lo + |line| + 2] == line + "\r\n"
    requires NoCrlf(line)
    ensures FindCrlf(s, lo, hi) == lo + |line|
  {
    var e := lo + |line|;
    var w := s[lo..e + 2];
    assert w == line + ['\r', '\n'];
    assert w[|line|] == '\r' && w[|line| + 1] == '\n';
    assert CrlfAt(s, e);
    forall i | lo <= i < e ensures !CrlfAt(s, i) {
      assert s[i] == w[i - lo] == line[i - lo];
      if i + 1 < e {
        assert s[i + 1] == w[i + 1 - lo] == line[i + 1 - lo];
        assert !CrlfAt(line, i - lo);
      } else {
        assert s[i + 1] == w[i + 1 - lo] == '\r';
      }
    }
  }
}
