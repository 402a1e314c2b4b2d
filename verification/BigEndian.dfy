/** `htonl` and `ntohl` on four bytes of a buffer. */
module BigEndian {
  import opened Bytes

  function Code(c: char): (r: nat)
    ensures r < 256
  {
    c as int % 256
  }

  /** `append(uint32_t)`: the four bytes on the wire. */
  function Encode(n: nat): (r: Bytes)
    requires n < TWO_32
    ensures |r| == 4
  {
    [(n / 0x100_0000) as char, (n / 0x1_0000 % 256) as char, (n / 256 % 256) as char, (n % 256) as char]
  }

  /** `peek_uint32` */
  function Decode(s: Bytes): (r: nat)
    requires |s| == 4
    ensures r < TWO_32
  {
    Code(s[0]) * 0x100_0000 + Code(s[1]) * 0x1_0000 + Code(s[2]) * 256 + Code(s[3])
  }

  predicate IsInt32(n: int) { -0x8000_0000 <= n <= INT_MAX }

  /** `append(int32_t)` */
  function EncodeInt(n: int): (r: Bytes)
    requires IsInt32(n)
    ensures |r| == 4
  {
    Encode(n % TWO_32)
  }

  /** `peek_int32` */
  function DecodeInt(s: Bytes): (r: int)
    requires |s| == 4
    ensures IsInt32(r)
  {
    AsInt32(Decode(s))
  }

  lemma CodeOfChar(x: nat)
    requires x < 256
    ensures Code(x as char) == x
  {
  }

  lemma DivTwice(n: nat)
    ensures n / 0x1_0000 == n / 256 / 256
  {
  }

  lemma DivThrice(n: nat)
    ensures n / 0x100_0000 == n / 0x1_0000 / 256
  {
  }

  lemma DecodeOfEncode(n: nat)
    requires n < TWO_32
    ensures Decode(Encode(n)) == n
  {
    DivTwice(n);
    DivThrice(n);
    var a, b, c, d := n / 0x100_0000, n / 0x1_0000 % 256, n / 256 % 256, n % 256;
    CodeOfChar(a);
    CodeOfChar(b);
    CodeOfChar(c);
    CodeOfChar(d);
    assert Encode(n) == [a as char, b as char, c as char, d as char];
    assert Decode(Encode(n)) == a * 0x100_0000 + b * 0x1_0000 + c * 256 + d by { hide Code; }
    hide Encode;
    hide Decode;
    Digits(n / 0x1_0000, a, b);
    Digits(n / 256, n / 0x1_0000, c);
    Digits(n, n / 256, d);
  }

  lemma Digits(n: nat, q: nat, d: nat)
    requires q == n / 256 && d == n % 256
    ensures n == q * 256 + d
  {
  }

  lemma DecodeOfEncodeInt(n: int)
    requires IsInt32(n)
    ensures DecodeInt(EncodeInt(n)) == n
  {
    hide Encode;
    hide Decode;
    DecodeOfEncode(n % TWO_32);
  }
}
