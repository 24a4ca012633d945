/** Base64 for memory payloads (sections 3.2, 3.3 and 4 of RFC 4648).

    The reference is the bit string: a text stands for the concatenation of its
    sextets, a byte string for the concatenation of its octets, both most
    significant bit first.  Encoder and decoder are the source's loops. */
module Base64 {

  type Byte = b: int | 0 <= b < 256
  type Sextet = v: int | 0 <= v < 64

  // ----- Bit strings -----

  /** The low `n` bits of `x`, most significant first. */
  function Bits(x: nat, n: nat): (s: seq<bool>)
    ensures |s| == n
    decreases x, n
  {
    if n == 0 then [] else Bits(x / 2, n - 1) + [x % 2 == 1]
  }

  function ByteBits(bytes: seq<Byte>): (s: seq<bool>)
    ensures |s| == 8 * |bytes|
  {
    if bytes == [] then []
    else ByteBits(bytes[..|bytes| - 1]) + Bits(bytes[|bytes| - 1], 8)
  }

  function SextetBits(values: seq<Sextet>): (s: seq<bool>)
    ensures |s| == 6 * |values|
  {
    if values == [] then []
    else SextetBits(values[..|values| - 1]) + Bits(values[|values| - 1], 6)
  }

  /** x shifted left by n bits. */
  function Shift(x: nat, n: nat): (r: nat)
    ensures x > 0 ==> r > 0
  {
    if n == 0 then x else 2 * Shift(x, n - 1)
  }

  /** Shifting left by `n` and adding an n-bit number appends its bits. */
  lemma {:induction false} BitsAppend(x: nat, y: nat, m: nat, n: nat)
    requires y < Shift(1, n)
    ensures Bits(Shift(x, n) + y, m + n) == Bits(x, m) + Bits(y, n)
  {
    if n > 0 {
      BitsAppend(x, y / 2, m, n - 1);
      assert (Shift(x, n) + y) / 2 == Shift(x, n - 1) + y / 2;
      assert (Shift(x, n) + y) % 2 == y % 2;
    }
  }

  lemma {:induction false} BitsInjective(x: nat, y: nat, n: nat)
    requires x < Shift(1, n) && y < Shift(1, n)
    requires Bits(x, n) == Bits(y, n)
    ensures x == y
  {
    if n > 0 {
      var a, b := Bits(x / 2, n - 1), Bits(y / 2, n - 1);
      assert a == Bits(x, n)[..n - 1] && b == Bits(y, n)[..n - 1];
      assert Bits(x, n)[n - 1] == (x % 2 == 1) && Bits(y, n)[n - 1] == (y % 2 == 1);
      BitsInjective(x / 2, y / 2, n - 1);
    }
  }

  /** Only the low n bits matter. */
  lemma {:induction false} BitsModulo(x: nat, y: nat, q: nat, n: nat)
    requires x == y + Shift(q, n)
    ensures Bits(x, n) == Bits(y, n)
  {
    if n > 0 {
      BitsModulo(x / 2, y / 2, q, n - 1);
    }
  }

  lemma {:induction false} ShiftTwice(q: nat, m: nat, n: nat)
    ensures Shift(Shift(q, m), n) == Shift(q, m + n)
  {
    if n > 0 {
      ShiftTwice(q, m, n - 1);
    }
  }

  lemma {:induction false} ShiftBy(q: nat)
    ensures Shift(q, 2) == 4 * q && Shift(q, 4) == 16 * q && Shift(q, 6) == 64 * q && Shift(q, 8) == 256 * q
  {
    assert Shift(q, 0) == q && Shift(q, 1) == 2 * q && Shift(q, 3) == 8 * q;
    assert Shift(q, 5) == 32 * q && Shift(q, 7) == 128 * q;
  }

  lemma {:induction false} ShiftBy32(q: nat)
    ensures Shift(q, 32) == 0x1_0000_0000 * q
  {
    ShiftBy(q);
    ShiftBy(Shift(q, 8));
    ShiftBy(Shift(q, 16));
    ShiftBy(Shift(q, 24));
    ShiftTwice(q, 8, 8);
    ShiftTwice(q, 16, 8);
    ShiftTwice(q, 24, 8);
  }

  /** Wrapping at 2^32 is invisible to the low 32 bits. */
  lemma {:induction false} BitsOfWrapped(x: nat, n: nat)
    requires n <= 32
    ensures Bits(x % 0x1_0000_0000, n) == Bits(x, n)
  {
    var q := x / 0x1_0000_0000;
    ShiftBy32(q);
    ShiftTwice(q, 32 - n, n);
    BitsModulo(x, x % 0x1_0000_0000, Shift(q, 32 - n), n);
  }

  lemma {:induction false} ByteBitsInjective(a: seq<Byte>, b: seq<Byte>)
    requires ByteBits(a) == ByteBits(b)
    ensures a == b
  {
    assert |a| == |b|;
    if a != [] {
      var n := |a| - 1;
      ShiftBy(1);
      assert ByteBits(a)[8 * n..] == Bits(a[n], 8) && ByteBits(b)[8 * n..] == Bits(b[n], 8);
      assert ByteBits(a)[..8 * n] == ByteBits(a[..n]) && ByteBits(b)[..8 * n] == ByteBits(b[..n]);
      BitsInjective(a[n], b[n], 8);
      ByteBitsInjective(a[..n], b[..n]);
      assert a == a[..n] + [a[n]] && b == b[..n] + [b[n]];
    }
  }

  // ----- The alphabet -----

  function Range(first: char, n: nat): (s: string)
    requires first as int + n < 0x80
    ensures |s| == n && forall i :: 0 <= i < n ==> s[i] == (first as int + i) as char
  {
    seq(n, i requires 0 <= i < n => (first as int + i) as char)
  }

  /** A to Z, a to z, 0 to 9, + and /. */
  const ALPHABET: string := Range('A', 26) + Range('a', 26) + Range('0', 10) + "+/"

  /** The value of a data character, or -1. */
  function ValueOf(c: char): (v: int)
    ensures -1 <= v < 64
  {
    if 'A' <= c <= 'Z' then c as int - 'A' as int
    else if 'a' <= c <= 'z' then c as int - 'a' as int + 26
    else if '0' <= c <= '9' then c as int - '0' as int + 52
    else if c == '+' then 62
    else if c == '/' then 63
    else -1
  }

  function CharOf(v: Sextet): (c: char)
    ensures ValueOf(c) == v
  {
    assert |ALPHABET| == 64;
    ALPHABET[v]
  }

  /** The two directions of the table: nothing outside the alphabet has a value. */
  lemma {:induction false} CharOfValue(c: char)
    requires ValueOf(c) >= 0
    ensures CharOf(ValueOf(c)) == c
  {
  }

  // ----- Concatenation -----

  lemma {:induction false} SextetBitsConcat(a: seq<Sextet>, b: seq<Sextet>)
    ensures SextetBits(a + b) == SextetBits(a) + SextetBits(b)
  {
    if b == [] {
      assert a + b == a;
    } else {
      var n := |b| - 1;
      assert (a + b)[..|a| + n] == a + b[..n];
      SextetBitsConcat(a, b[..n]);
    }
  }

  lemma {:induction false} ByteBitsConcat(a: seq<Byte>, b: seq<Byte>)
    ensures ByteBits(a + b) == ByteBits(a) + ByteBits(b)
  {
    if b == [] {
      assert a + b == a;
    } else {
      var n := |b| - 1;
      assert (a + b)[..|a| + n] == a + b[..n];
      ByteBitsConcat(a, b[..n]);
    }
  }

  // ----- Encoding -----

  function Chars(values: seq<Sextet>): (s: string)
    ensures |s| == |values|
  {
    seq(|values|, i requires 0 <= i < |values| => CharOf(values[i]))
  }

  function Fill(c: char, n: nat): (s: string)
    ensures |s| == n && forall i :: 0 <= i < n ==> s[i] == c
  {
    seq(n, _ => c)
  }

  /** The pads that complete a last quantum after n data characters. */
  function Pads(n: nat): nat {
    if n % 4 == 0 then 0 else 4 - n % 4
  }

  /** `text` is the padded encoding of `bytes` through `values`: data characters whose bits are the
      bytes' bits followed by fewer than six zero bits, then '=' up to a multiple of four. */
  ghost predicate EncodesVia(text: string, bytes: seq<Byte>, values: seq<Sextet>) {
    && text == Chars(values) + Fill('=', Pads(|values|))
    && 0 <= 6 * |values| - 8 * |bytes| < 6
    && SextetBits(values) == ByteBits(bytes) + Bits(0, 6 * |values| - 8 * |bytes|)
  }

  ghost predicate Encodes(text: string, bytes: seq<Byte>) {
    exists values: seq<Sextet> :: EncodesVia(text, bytes, values)
  }

  method Encode(bytes: seq<Byte>) returns (out: string)
    ensures Encodes(out, bytes)
  {
    out := "";
    ghost var values: seq<Sextet> := [];
    var i := 0;
    while i + 3 <= |bytes|
      invariant 0 <= i <= |bytes| && i % 3 == 0
      invariant Started(out, bytes, i, values)
    {
      var chunk := bytes[i] as int * 0x1_0000 + bytes[i + 1] as int * 0x100 + bytes[i + 2] as int;
      var v: seq<Sextet> := [chunk / 0x4_0000 % 64, chunk / 0x1000 % 64, chunk / 0x40 % 64, chunk % 64];
      QuantumBits(bytes[i], bytes[i + 1], bytes[i + 2], chunk);
      assert bytes[i..i + 3] == [bytes[i], bytes[i + 1], bytes[i + 2]];
      FullGroup(out, bytes, i, values, v);
      out := out + [CharOf(v[0])] + [CharOf(v[1])] + [CharOf(v[2])] + [CharOf(v[3])];
      values := values + v;
      i := i + 3;
    }
    out := EncodeRemainder(out, bytes, i, values);
  }

  /** The last one or two bytes, padded to a whole quantum. */
  method EncodeRemainder(start: string, bytes: seq<Byte>, i: nat, ghost values: seq<Sextet>) returns (out: string)
    requires i <= |bytes| < i + 3 && i % 3 == 0
    requires Started(start, bytes, i, values)
    ensures Encodes(out, bytes)
  {
    out := start;
    var remaining := |bytes| - i;
    if remaining == 1 {
      var chunk := bytes[i] as int * 0x1_0000;
      var v: seq<Sextet> := [chunk / 0x4_0000 % 64, chunk / 0x1000 % 64];
      OneByteLeft(start, bytes, i, values, chunk, v);
      out := out + [CharOf(v[0])] + [CharOf(v[1])] + ['='] + ['='];
    } else if remaining == 2 {
      var chunk := bytes[i] as int * 0x1_0000 + bytes[i + 1] as int * 0x100;
      var v: seq<Sextet> := [chunk / 0x4_0000 % 64, chunk / 0x1000 % 64, chunk / 0x40 % 64];
      TwoBytesLeft(start, bytes, i, values, chunk, v);
      out := out + [CharOf(v[0])] + [CharOf(v[1])] + [CharOf(v[2])] + ['='];
    } else {
      assert out + Chars([]) + Fill('=', 0) == out;
      LastGroup(out, bytes, i, values, []);
    }
  }

  lemma {:induction false} OneByteLeft(out: string, bytes: seq<Byte>, i: nat, values: seq<Sextet>, chunk: int, v: seq<Sextet>)
    requires |bytes| == i + 1 && i % 3 == 0 && Started(out, bytes, i, values)
    requires chunk == bytes[i] as int * 0x1_0000
    requires v == [chunk / 0x4_0000 % 64, chunk / 0x1000 % 64]
    ensures Encodes(out + [CharOf(v[0])] + [CharOf(v[1])] + ['='] + ['='], bytes)
  {
    OneByteBits(bytes[i], chunk);
    assert bytes[i..] == [bytes[i]];
    Closing2(out, v);
    LastGroup(out, bytes, i, values, v);
  }

  lemma {:induction false} TwoBytesLeft(out: string, bytes: seq<Byte>, i: nat, values: seq<Sextet>, chunk: int, v: seq<Sextet>)
    requires |bytes| == i + 2 && i % 3 == 0 && Started(out, bytes, i, values)
    requires chunk == bytes[i] as int * 0x1_0000 + bytes[i + 1] as int * 0x100
    requires v == [chunk / 0x4_0000 % 64, chunk / 0x1000 % 64, chunk / 0x40 % 64]
    ensures Encodes(out + [CharOf(v[0])] + [CharOf(v[1])] + [CharOf(v[2])] + ['='], bytes)
  {
    TwoBytesBits(bytes[i], bytes[i + 1], chunk);
    assert bytes[i..] == [bytes[i], bytes[i + 1]];
    Closing3(out, v);
    LastGroup(out, bytes, i, values, v);
  }

  lemma {:induction false} Closing2(out: string, v: seq<Sextet>)
    requires |v| == 2
    ensures out + Chars(v) + Fill('=', 2) == out + [CharOf(v[0])] + [CharOf(v[1])] + ['='] + ['=']
  {
  }

  lemma {:induction false} Closing3(out: string, v: seq<Sextet>)
    requires |v| == 3
    ensures out + Chars(v) + Fill('=', 1) == out + [CharOf(v[0])] + [CharOf(v[1])] + [CharOf(v[2])] + ['=']
  {
  }

  /** Whole quanta only: the first i bytes are out, as the characters of `values`. */
  ghost predicate Started(out: string, bytes: seq<Byte>, i: nat, values: seq<Sextet>)
    requires i <= |bytes|
  {
    out == Chars(values) && SextetBits(values) == ByteBits(bytes[..i]) && 3 * |values| == 4 * i
  }

  lemma {:induction false} FullGroup(out: string, bytes: seq<Byte>, i: nat, values: seq<Sextet>, v: seq<Sextet>)
    requires i + 3 <= |bytes| && |v| == 4
    requires Started(out, bytes, i, values)
    requires SextetBits(v) == ByteBits(bytes[i..i + 3]) + Bits(0, 0)
    ensures Started(out + [CharOf(v[0])] + [CharOf(v[1])] + [CharOf(v[2])] + [CharOf(v[3])], bytes, i + 3, values + v)
  {
    CharsConcat(values, v);
    assert Chars(v) == [CharOf(v[0]), CharOf(v[1]), CharOf(v[2]), CharOf(v[3])];
    AppendGroup(bytes, i, i + 3, values, v, 0);
  }

  lemma {:induction false} PadsAfterQuanta(n: nat, k: nat, i: nat)
    requires 3 * n == 4 * i && i % 3 == 0
    ensures Pads(n + k) == Pads(k)
  {
    assert n == 4 * (i / 3);
  }

  lemma {:induction false} LastGroup(out: string, bytes: seq<Byte>, i: nat, values: seq<Sextet>, v: seq<Sextet>)
    requires i <= |bytes| && |v| < 4
    requires Started(out, bytes, i, values) && i % 3 == 0
    requires 0 <= 6 * |v| - 8 * (|bytes| - i) < 6
    requires SextetBits(v) == ByteBits(bytes[i..]) + Bits(0, 6 * |v| - 8 * (|bytes| - i))
    ensures Encodes(out + Chars(v) + Fill('=', Pads(|v|)), bytes)
  {
    hide Bits, ByteBits, SextetBits, Pads, Chars;
    CharsConcat(values, v);
    PadsAfterQuanta(|values|, |v|, i);
    assert bytes[i..|bytes|] == bytes[i..] && bytes[..|bytes|] == bytes;
    AppendGroup(bytes, i, |bytes|, values, v, 6 * |v| - 8 * (|bytes| - i));
    assert EncodesVia(out + Chars(v) + Fill('=', Pads(|v|)), bytes, values + v);
  }

  lemma {:induction false} AppendGroup(bytes: seq<Byte>, i: nat, j: nat, values: seq<Sextet>, v: seq<Sextet>, n: nat)
    requires i <= j <= |bytes|
    requires SextetBits(values) == ByteBits(bytes[..i])
    requires SextetBits(v) == ByteBits(bytes[i..j]) + Bits(0, n)
    ensures SextetBits(values + v) == ByteBits(bytes[..j]) + Bits(0, n)
  {
    assert bytes[..j] == bytes[..i] + bytes[i..j];
    SextetBitsConcat(values, v);
    ByteBitsConcat(bytes[..i], bytes[i..j]);
    ConcatAssociates(ByteBits(bytes[..i]), ByteBits(bytes[i..j]), Bits(0, n));
  }

  lemma {:induction false} ConcatAssociates<T>(a: seq<T>, b: seq<T>, c: seq<T>)
    ensures a + (b + c) == (a + b) + c
  {
  }

  lemma {:induction false} CharsConcat(a: seq<Sextet>, b: seq<Sextet>)
    ensures Chars(a + b) == Chars(a) + Chars(b)
  {
  }

  /** Three octets regrouped as four sextets. */
  lemma {:induction false} Regrouped(a: Byte, b: Byte, c: Byte)
    ensures Bits(a, 8) == Bits(a / 4, 6) + Bits(a % 4, 2)
    ensures Bits(a % 4 * 16 + b / 16, 6) == Bits(a % 4, 2) + Bits(b / 16, 4)
    ensures Bits(b, 8) == Bits(b / 16, 4) + Bits(b % 16, 4)
    ensures Bits(b % 16 * 4 + c / 64, 6) == Bits(b % 16, 4) + Bits(c / 64, 2)
    ensures Bits(c, 8) == Bits(c / 64, 2) + Bits(c % 64, 6)
  {
    hide Bits;
    SplitOctet(a);
    SplitOctet(b);
    SplitOctet(c);
    Joined4(a % 4, b / 16, 2);
    Joined2(b % 16, c / 64, 4);
  }

  lemma {:induction false} SplitOctet(x: Byte)
    ensures Bits(x, 8) == Bits(x / 4, 6) + Bits(x % 4, 2)
    ensures Bits(x, 8) == Bits(x / 16, 4) + Bits(x % 16, 4)
    ensures Bits(x, 8) == Bits(x / 64, 2) + Bits(x % 64, 6)
  {
    hide Bits;
    Joined2(x / 4, x % 4, 6);
    Joined4(x / 16, x % 16, 4);
    Joined6(x / 64, x % 64, 2);
  }

  lemma {:induction false} Joined2(x: nat, y: nat, m: nat)
    requires y < 4
    ensures Bits(x * 4 + y, m + 2) == Bits(x, m) + Bits(y, 2)
  {
    ShiftBy(1);
    ShiftBy(x);
    BitsAppend(x, y, m, 2);
  }

  lemma {:induction false} Joined4(x: nat, y: nat, m: nat)
    requires y < 16
    ensures Bits(x * 16 + y, m + 4) == Bits(x, m) + Bits(y, 4)
  {
    ShiftBy(1);
    ShiftBy(x);
    BitsAppend(x, y, m, 4);
  }

  lemma {:induction false} Joined6(x: nat, y: nat, m: nat)
    requires y < 64
    ensures Bits(x * 64 + y, m + 6) == Bits(x, m) + Bits(y, 6)
  {
    ShiftBy(1);
    ShiftBy(x);
    BitsAppend(x, y, m, 6);
  }

  /** The source's shifts and masks, in terms of the octets. */
  lemma {:induction false} ChunkSextets(a: Byte, b: Byte, c: Byte, chunk: int)
    requires chunk == a as int * 0x1_0000 + b as int * 0x100 + c as int
    ensures chunk / 0x4_0000 % 64 == a / 4
    ensures chunk / 0x1000 % 64 == a % 4 * 16 + b / 16
    ensures chunk / 0x40 % 64 == b % 16 * 4 + c / 64
    ensures chunk % 64 == c % 64
  {
    FirstSextet(a / 4, a % 4, b, c);
    SecondSextet(a / 4, a % 4, b / 16, b % 16, c);
    ThirdSextet(a, b / 16, b % 16, c / 64, c % 64);
    LastSextet(a, b, c / 64, c % 64);
  }

  lemma {:induction false} FirstSextet(a1: nat, a0: nat, b: Byte, c: Byte)
    requires a1 < 64 && a0 < 4
    ensures ((a1 * 4 + a0) * 0x1_0000 + b as int * 0x100 + c as int) / 0x4_0000 % 64 == a1
  {
    SextetAt((a1 * 4 + a0) * 0x1_0000 + b * 0x100 + c, 0x4_0000, a1, a0 * 0x1_0000 + b * 0x100 + c);
  }

  lemma {:induction false} SecondSextet(a1: nat, a0: nat, b1: nat, b0: nat, c: Byte)
    requires a0 < 4 && b1 < 16 && b0 < 16
    ensures ((a1 * 4 + a0) * 0x1_0000 + (b1 * 16 + b0) * 0x100 + c as int) / 0x1000 % 64 == a0 * 16 + b1
  {
    SextetAt((a1 * 4 + a0) * 0x1_0000 + (b1 * 16 + b0) * 0x100 + c, 0x1000, (a1 * 4 + a0) * 16 + b1, b0 * 0x100 + c);
    Modulo64((a1 * 4 + a0) * 16 + b1, a1, a0 * 16 + b1);
  }

  lemma {:induction false} ThirdSextet(a: nat, b1: nat, b0: nat, c1: nat, c0: nat)
    requires b0 < 16 && c1 < 4 && c0 < 64
    ensures (a * 0x1_0000 + (b1 * 16 + b0) * 0x100 + (c1 * 64 + c0)) / 0x40 % 64 == b0 * 4 + c1
  {
    var quotient := (a * 256 + b1 * 16 + b0) * 4 + c1;
    SextetAt(a * 0x1_0000 + (b1 * 16 + b0) * 0x100 + (c1 * 64 + c0), 0x40, quotient, c0);
    Modulo64(quotient, a * 16 + b1, b0 * 4 + c1);
  }

  lemma {:induction false} LastSextet(a: nat, b: nat, c1: nat, c0: nat)
    requires c0 < 64
    ensures (a * 0x1_0000 + b * 0x100 + (c1 * 64 + c0)) % 64 == c0
  {
    Modulo64(a * 0x1_0000 + b * 0x100 + (c1 * 64 + c0), a * 0x400 + b * 4 + c1, c0);
  }

  lemma {:induction false} Modulo64(x: nat, quotient: nat, rest: nat)
    requires x == quotient * 64 + rest && rest < 64
    ensures x % 64 == rest
  {
  }

  lemma {:induction false} SextetAt(chunk: nat, unit: nat, quotient: nat, rest: nat)
    requires unit > 0 && chunk == quotient * unit + rest && rest < unit
    ensures chunk / unit == quotient
  {
    var q, r := chunk / unit, chunk % unit;
    assert (quotient - q) * unit == r - rest;
    NoMultipleBetween(quotient - q, unit);
  }

  lemma {:induction false} NoMultipleBetween(k: int, unit: nat)
    requires 0 - unit < k * unit < unit
    ensures k == 0
  {
  }

  lemma {:induction false} ByteGroups(a: Byte, b: Byte, c: Byte)
    ensures ByteBits([a]) == Bits(a, 8)
    ensures ByteBits([a, b]) == Bits(a, 8) + Bits(b, 8)
    ensures ByteBits([a, b, c]) == Bits(a, 8) + Bits(b, 8) + Bits(c, 8)
  {
    assert [a, b, c][..2] == [a, b] && [a, b][..1] == [a] && [a][..0] == [];
    assert ByteBits([a]) == ByteBits([]) + Bits(a, 8);
  }

  lemma {:induction false} SextetGroups(a: Sextet, b: Sextet, c: Sextet, d: Sextet)
    ensures SextetBits([a, b]) == Bits(a, 6) + Bits(b, 6)
    ensures SextetBits([a, b, c]) == Bits(a, 6) + Bits(b, 6) + Bits(c, 6)
    ensures SextetBits([a, b, c, d]) == Bits(a, 6) + Bits(b, 6) + Bits(c, 6) + Bits(d, 6)
  {
    assert [a, b, c, d][..3] == [a, b, c] && [a, b, c][..2] == [a, b] && [a, b][..1] == [a] && [a][..0] == [];
    assert SextetBits([a]) == SextetBits([]) + Bits(a, 6);
  }

  lemma {:induction false} QuantumBits(a: Byte, b: Byte, c: Byte, chunk: int)
    requires chunk == a as int * 0x1_0000 + b as int * 0x100 + c as int
    ensures SextetBits([chunk / 0x4_0000 % 64, chunk / 0x1000 % 64, chunk / 0x40 % 64, chunk % 64])
         == ByteBits([a, b, c]) + Bits(0, 0)
  {
    hide Bits, ByteBits, SextetBits;
    ChunkSextets(a, b, c, chunk);
    Regrouped(a, b, c);
    ByteGroups(a, b, c);
    SextetGroups(a / 4, a % 4 * 16 + b / 16, b % 16 * 4 + c / 64, c % 64);
    Regroup4(Bits(a / 4, 6), Bits(a % 4, 2), Bits(b / 16, 4), Bits(b % 16, 4), Bits(c / 64, 2), Bits(c % 64, 6));
  }

  lemma {:induction false} Regroup4<T>(a: seq<T>, b: seq<T>, c: seq<T>, d: seq<T>, e: seq<T>, f: seq<T>)
    ensures a + (b + c) + (d + e) + f == (a + b) + (c + d) + (e + f) + []
  {
  }

  lemma {:induction false} OneByteBits(a: Byte, chunk: int)
    requires chunk == a as int * 0x1_0000
    ensures SextetBits([chunk / 0x4_0000 % 64, chunk / 0x1000 % 64]) == ByteBits([a]) + Bits(0, 4)
  {
    hide Bits, ByteBits, SextetBits;
    ChunkSextets(a, 0, 0, chunk);
    Regrouped(a, 0, 0);
    ByteGroups(a, 0, 0);
    SextetGroups(a / 4, a % 4 * 16 + 0, 0, 0);
    ConcatAssociates(Bits(a / 4, 6), Bits(a % 4, 2), Bits(0, 4));
  }

  lemma {:induction false} TwoBytesBits(a: Byte, b: Byte, chunk: int)
    requires chunk == a as int * 0x1_0000 + b as int * 0x100
    ensures SextetBits([chunk / 0x4_0000 % 64, chunk / 0x1000 % 64, chunk / 0x40 % 64]) == ByteBits([a, b]) + Bits(0, 2)
  {
    hide Bits, ByteBits, SextetBits;
    ChunkSextets(a, b, 0, chunk);
    Regrouped(a, b, 0);
    ByteGroups(a, b, 0);
    SextetGroups(a / 4, a % 4 * 16 + b / 16, b % 16 * 4 + 0, 0);
    Regroup3(Bits(a / 4, 6), Bits(a % 4, 2), Bits(b / 16, 4), Bits(b % 16, 4), Bits(0, 2));
  }

  lemma {:induction false} Regroup3<T>(a: seq<T>, b: seq<T>, c: seq<T>, d: seq<T>, e: seq<T>)
    ensures a + (b + c) + (d + e) == (a + b) + (c + d) + e
  {
  }

  // ----- Decoding -----

  /** The text without the line breaks that the decoder skips. */
  function Stripped(text: string): string {
    if text == [] then []
    else
      var c := text[|text| - 1];
      Stripped(text[..|text| - 1]) + (if c == '\r' || c == '\n' then [] else [c])
  }

  /** The number of data characters before the first other character. */
  function DataLength(s: string): (k: nat)
    ensures k <= |s|
    ensures forall i :: 0 <= i < k ==> ValueOf(s[i]) >= 0
    ensures k < |s| ==> ValueOf(s[k]) < 0
  {
    if s == [] || ValueOf(s[0]) < 0 then 0 else 1 + DataLength(s[1..])
  }

  /** Padding is absent, or completes a last quantum of two or three data characters. */
  predicate ValidShape(s: string) {
    var k := DataLength(s);
    if k == |s| then k % 4 != 1
    else k % 4 >= 2 && k % 4 + |s| - k == 4 && forall i :: k <= i < |s| ==> s[i] == '='
  }

  function Values(s: string): (v: seq<Sextet>)
    requires forall i :: 0 <= i < |s| ==> ValueOf(s[i]) >= 0
    ensures |v| == |s|
  {
    seq(|s|, i requires 0 <= i < |s| => ValueOf(s[i]))
  }

  function DataValues(s: string): (v: seq<Sextet>)
    ensures |v| == DataLength(s)
  {
    Values(s[..DataLength(s)])
  }

  /** `bytes` is what `text` stands for: as many whole octets as its sextets hold. */
  ghost predicate Decodes(text: string, bytes: seq<Byte>) {
    var values := DataValues(Stripped(text));
    && ValidShape(Stripped(text))
    && 8 * |bytes| <= 6 * |values| < 8 * |bytes| + 8
    && ByteBits(bytes) == SextetBits(values)[..8 * |bytes|]
  }

  lemma {:induction false} DataLengthIs(s: string, k: nat)
    requires k <= |s| && (k == |s| || ValueOf(s[k]) < 0)
    requires forall i :: 0 <= i < k ==> ValueOf(s[i]) >= 0
    ensures DataLength(s) == k
  {
    if k > 0 {
      DataLengthIs(s[1..], k - 1);
    }
  }

  lemma {:induction false} DataOfChars(values: seq<Sextet>, rest: string)
    requires rest == [] || ValueOf(rest[0]) < 0
    ensures DataLength(Chars(values) + rest) == |values|
    ensures DataValues(Chars(values) + rest) == values
  {
    var s := Chars(values) + rest;
    forall i | 0 <= i < |values|
      ensures ValueOf(s[i]) == values[i]
    {
      assert s[i] == CharOf(values[i]);
    }
    DataLengthIs(s, |values|);
  }

  /** The first j characters strip to the characters of `values` and then `pad` pads. */
  ghost predicate Scanned(text: string, j: nat, values: seq<Sextet>, pad: nat)
    requires j <= |text|
  {
    && Stripped(text[..j]) == Chars(values) + Fill('=', pad)
    && (pad > 0 ==> |values| % 4 >= 2 && |values| % 4 + pad <= 4)
  }

  /** The sextets taken in are the octets given out and the low `bits` bits of the accumulator. */
  ghost predicate Held(values: seq<Sextet>, bytes: seq<Byte>, accumulator: nat, bits: nat) {
    && 6 * |values| == 8 * |bytes| + bits
    && SextetBits(values) == ByteBits(bytes) + Bits(accumulator, bits)
  }

  /** The decoder's loop invariant. */
  ghost predicate Decoding(text: string, j: nat, values: seq<Sextet>, bytes: seq<Byte>,
                           accumulator: nat, bits: nat, group: nat, pad: nat)
    requires j <= |text|
  {
    && Scanned(text, j, values, pad) && Held(values, bytes, accumulator, bits)
    && group == |values| % 4 && bits < 8
  }

  /** The decoder accepts exactly the valid shapes, and its 32-bit accumulator loses nothing. */
  method TryDecode(text: string) returns (ok: bool, bytes: seq<Byte>)
    ensures ok <==> ValidShape(Stripped(text))
    ensures ok ==> Decodes(text, bytes)
  {
    hide Decodes, ValidShape;
    bytes := [];
    var accumulator: nat, bits: nat, group: nat, pad: nat := 0, 0, 0, 0;
    ghost var values: seq<Sextet> := [];
    for j := 0 to |text|
      invariant Decoding(text, j, values, bytes, accumulator, bits, group, pad)
    {
      var c := text[j];
      ScanOne(text, j, values, pad);
      if c == '\r' || c == '\n' {
        continue;
      }
      if c == '=' {
        if group < 2 || group + pad >= 4 {
          return false, bytes;
        }
        pad := pad + 1;
        continue;
      }
      if pad != 0 {
        return false, bytes;
      }
      var value := ValueOf(c);
      if value < 0 {
        return false, bytes;
      }
      NextPlace(|values|);
      values := values + [value];
      bytes, accumulator, bits := TakeSextet(values, value, bytes, accumulator, bits);
      group := group + 1;
      if group == 4 {
        group := 0;
      }
    }
    ScanEnd(text, values, pad, bytes, accumulator, bits);
    if pad != 0 {
      ok := group + pad == 4;
    } else {
      ok := group != 1;
    }
  }

  lemma {:induction false} NextPlace(n: nat)
    ensures (n + 1) % 4 == if n % 4 + 1 == 4 then 0 else n % 4 + 1
  {
  }

  /** One data character: shift the accumulator, and give out an octet when eight bits are there. */
  method TakeSextet(ghost values: seq<Sextet>, value: Sextet, given: seq<Byte>, held: nat, count: nat)
    returns (bytes: seq<Byte>, accumulator: nat, bits: nat)
    requires values != [] && values[|values| - 1] == value
    requires Held(values[..|values| - 1], given, held, count) && count < 8
    ensures Held(values, bytes, accumulator, bits) && bits < 8
  {
    ShiftIn(values, value, given, held, count);
    bytes := given;
    accumulator := (held * 64 + value) % 0x1_0000_0000;
    bits := count + 6;
    if bits >= 8 {
      bits := bits - 8;
      var octet: Byte := ShiftRight(accumulator, bits) % 256;
      ShiftOut(values, bytes, accumulator, bits, octet);
      bytes := bytes + [octet];
    }
  }

  lemma {:induction false} ScanOne(text: string, j: nat, values: seq<Sextet>, pad: nat)
    requires j < |text| && Scanned(text, j, values, pad)
    ensures text[j] == '\r' || text[j] == '\n' ==> Scanned(text, j + 1, values, pad)
    ensures text[j] == '=' && |values| % 4 >= 2 && |values| % 4 + pad < 4 ==> Scanned(text, j + 1, values, pad + 1)
    ensures text[j] == '=' && (|values| % 4 < 2 || |values| % 4 + pad >= 4) ==> !ValidShape(Stripped(text))
    ensures text[j] !in "=\r\n" && (pad > 0 || ValueOf(text[j]) < 0) ==> !ValidShape(Stripped(text))
    ensures text[j] !in "=\r\n" && pad == 0 && ValueOf(text[j]) >= 0 ==>
              Scanned(text, j + 1, values + [ValueOf(text[j])], 0)
  {
    assert text[..j + 1][..j] == text[..j];
    if text[j] !in "\r\n" {
      var _ := StrippedAt(text, j);
      if text[j] == '=' {
        if |values| % 4 < 2 || |values| % 4 + pad >= 4 {
          RejectPad(text, j, values, pad);
        }
      } else if pad > 0 || ValueOf(text[j]) < 0 {
        RejectCharacter(text, j, values, pad);
      } else {
        AppendValue(text, j, values, ValueOf(text[j]));
      }
    }
  }

  lemma {:induction false} ScanEnd(text: string, values: seq<Sextet>, pad: nat,
                                   bytes: seq<Byte>, accumulator: nat, bits: nat)
    requires Scanned(text, |text|, values, pad) && Held(values, bytes, accumulator, bits) && bits < 8
    ensures ValidShape(Stripped(text)) <==> if pad != 0 then |values| % 4 + pad == 4 else |values| % 4 != 1
    ensures ValidShape(Stripped(text)) ==> Decodes(text, bytes)
  {
    assert text[..|text|] == text;
    DataOfChars(values, Fill('=', pad));
    assert SextetBits(values)[..8 * |bytes|] == ByteBits(bytes);
  }

  /** x shifted right by n bits. */
  function ShiftRight(x: nat, n: nat): nat {
    if n == 0 then x else ShiftRight(x / 2, n - 1)
  }

  lemma {:induction false} BitsSplit(x: nat, m: nat, n: nat)
    ensures Bits(x, m + n) == Bits(ShiftRight(x, n), m) + Bits(x, n)
  {
    if n > 0 {
      BitsSplit(x / 2, m, n - 1);
    }
  }

  /** Taking one sextet in: wrapping at 32 bits does not touch the bits still held back. */
  lemma {:induction false} ShiftIn(values: seq<Sextet>, value: Sextet, bytes: seq<Byte>, accumulator: nat, bits: nat)
    requires values != [] && values[|values| - 1] == value
    requires bits < 8 && Held(values[..|values| - 1], bytes, accumulator, bits)
    ensures Held(values, bytes, (accumulator * 64 + value) % 0x1_0000_0000, bits + 6)
  {
    hide Bits, ByteBits;
    BitsOfWrapped(accumulator * 64 + value, bits + 6);
    Joined6(accumulator, value, bits);
    ConcatAssociates(ByteBits(bytes), Bits(accumulator, bits), Bits(value, 6));
  }

  /** Giving one octet out. */
  lemma {:induction false} ShiftOut(values: seq<Sextet>, bytes: seq<Byte>, accumulator: nat, bits: nat, octet: Byte)
    requires Held(values, bytes, accumulator, bits + 8)
    requires octet == ShiftRight(accumulator, bits) % 256
    ensures Held(values, bytes + [octet], accumulator, bits)
  {
    assert (bytes + [octet])[..|bytes|] == bytes;
    BitsSplit(accumulator, 8, bits);
    var x := ShiftRight(accumulator, bits);
    ShiftBy(x / 256);
    BitsModulo(x, octet, x / 256, 8);
    ConcatAssociates(ByteBits(bytes), Bits(octet, 8), Bits(accumulator, bits));
  }

  lemma {:induction false} StrippedConcat(a: string, b: string)
    ensures Stripped(a + b) == Stripped(a) + Stripped(b)
  {
    if b == [] {
      assert a + b == a;
    } else {
      assert (a + b)[..|a + b| - 1] == a + b[..|b| - 1];
      StrippedConcat(a, b[..|b| - 1]);
    }
  }

  /** What the whole text strips to, once character j is known to be kept. */
  lemma {:induction false} StrippedAt(text: string, j: nat) returns (tail: string)
    requires j < |text| && text[j] != '\r' && text[j] != '\n'
    ensures Stripped(text) == Stripped(text[..j]) + [text[j]] + tail
    ensures Stripped(text[..j + 1]) == Stripped(text[..j]) + [text[j]]
  {
    tail := Stripped(text[j + 1..]);
    assert text[..j + 1][..j] == text[..j];
    assert text == text[..j + 1] + text[j + 1..];
    StrippedConcat(text[..j + 1], text[j + 1..]);
  }

  lemma {:induction false} AppendValue(text: string, j: nat, values: seq<Sextet>, value: Sextet)
    requires j < |text| && ValueOf(text[j]) == value
    requires Stripped(text[..j]) == Chars(values)
    ensures Stripped(text[..j + 1]) == Chars(values + [value])
  {
    var _ := StrippedAt(text, j);
    CharOfValue(text[j]);
    assert Chars(values + [value]) == Chars(values) + [CharOf(value)];
  }

  /** Padding where none may stand. */
  lemma {:induction false} RejectPad(text: string, j: nat, values: seq<Sextet>, pad: nat)
    requires j < |text| && text[j] == '='
    requires Stripped(text[..j]) == Chars(values) + Fill('=', pad)
    requires |values| % 4 < 2 || |values| % 4 + pad >= 4
    ensures !ValidShape(Stripped(text))
  {
    hide Stripped, DataLength, Chars, Values;
    var tail := StrippedAt(text, j);
    var rest := Fill('=', pad) + ['='] + tail;
    assert Stripped(text) == Chars(values) + rest;
    assert rest[0] == '=' && |rest| > pad;
    DataOfChars(values, rest);
  }

  /** A character outside the alphabet, or any data after padding. */
  lemma {:induction false} RejectCharacter(text: string, j: nat, values: seq<Sextet>, pad: nat)
    requires j < |text| && text[j] != '=' && text[j] != '\r' && text[j] != '\n'
    requires Stripped(text[..j]) == Chars(values) + Fill('=', pad)
    requires pad > 0 || ValueOf(text[j]) < 0
    ensures !ValidShape(Stripped(text))
  {
    hide Stripped, DataLength, Chars, Values;
    var tail := StrippedAt(text, j);
    var rest := Fill('=', pad) + [text[j]] + tail;
    assert Stripped(text) == Chars(values) + rest;
    DataOfChars(values, rest);
    assert Stripped(text)[|values| + pad] == text[j];
  }

  // ----- Round trips -----

  /** Decoding is a function of the text. */
  lemma {:induction false} DecodesIsFunctional(text: string, a: seq<Byte>, b: seq<Byte>)
    requires Decodes(text, a) && Decodes(text, b)
    ensures a == b
  {
    hide Stripped, DataLength, ValidShape, ByteBits, SextetBits, Values;
    SameOctets(|a|, |b|, |DataValues(Stripped(text))|);
    ByteBitsInjective(a, b);
  }

  lemma {:induction false} SameOctets(a: nat, b: nat, sextets: nat)
    requires 8 * a <= 6 * sextets < 8 * a + 8 && 8 * b <= 6 * sextets < 8 * b + 8
    ensures a == b
  {
  }

  lemma {:induction false} SextetBitsInjective(a: seq<Sextet>, b: seq<Sextet>)
    requires SextetBits(a) == SextetBits(b)
    ensures a == b
  {
    assert |a| == |b|;
    if a != [] {
      var n := |a| - 1;
      ShiftBy(1);
      assert SextetBits(a)[6 * n..] == Bits(a[n], 6) && SextetBits(b)[6 * n..] == Bits(b[n], 6);
      assert SextetBits(a)[..6 * n] == SextetBits(a[..n]) && SextetBits(b)[..6 * n] == SextetBits(b[..n]);
      BitsInjective(a[n], b[n], 6);
      SextetBitsInjective(a[..n], b[..n]);
      assert a == a[..n] + [a[n]] && b == b[..n] + [b[n]];
    }
  }

  lemma {:induction false} SameCount(v: nat, w: nat, octets: nat)
    requires 0 <= 6 * v - 8 * octets < 6 && 0 <= 6 * w - 8 * octets < 6
    ensures v == w
  {
  }

  /** Encoding is a function of the bytes: `Encodes` leaves the encoder no freedom. */
  lemma {:induction false} EncodesIsFunctional(s: string, t: string, bytes: seq<Byte>)
    requires Encodes(s, bytes) && Encodes(t, bytes)
    ensures s == t
  {
    hide Bits, ByteBits, SextetBits, Pads;
    var v: seq<Sextet> :| EncodesVia(s, bytes, v);
    var w: seq<Sextet> :| EncodesVia(t, bytes, w);
    SameCount(|v|, |w|, |bytes|);
    SextetBitsInjective(v, w);
  }

  /** No whole number of octets leaves a lone sextet in the last quantum. */
  lemma {:induction false} SextetCount(sextets: nat, octets: nat)
    requires 0 <= 6 * sextets - 8 * octets < 6
    ensures sextets % 4 != 1
  {
  }

  lemma {:induction false} EncodedShape(values: seq<Sextet>)
    requires |values| % 4 != 1
    ensures ValidShape(Chars(values) + Fill('=', Pads(|values|)))
    ensures DataLength(Chars(values) + Fill('=', Pads(|values|))) == |values|
    ensures DataValues(Chars(values) + Fill('=', Pads(|values|))) == values
    ensures |Chars(values) + Fill('=', Pads(|values|))| % 4 == 0
  {
    PadsComplete(|values|);
    PaddedShape(values, Pads(|values|));
  }

  lemma {:induction false} PaddedShape(values: seq<Sextet>, pads: nat)
    requires if pads == 0 then |values| % 4 != 1 else |values| % 4 >= 2 && |values| % 4 + pads == 4
    ensures ValidShape(Chars(values) + Fill('=', pads))
    ensures DataLength(Chars(values) + Fill('=', pads)) == |values|
    ensures DataValues(Chars(values) + Fill('=', pads)) == values
  {
    hide DataLength;
    DataOfChars(values, Fill('=', pads));
  }

  lemma {:induction false} DataOfEncoded(s: string, octets: nat, values: seq<Sextet>)
    requires s == Chars(values) + Fill('=', Pads(|values|))
    requires 0 <= 6 * |values| - 8 * octets < 6
    ensures ValidShape(s) && |s| % 4 == 0
    ensures DataLength(s) == |values| && DataValues(s) == values
  {
    SextetCount(|values|, octets);
    EncodedShape(values);
  }

  /** Decoding an encoding gives the bytes back, however the text is broken into lines. */
  lemma {:induction false} RoundTrip(text: string, encoded: string, bytes: seq<Byte>)
    requires Encodes(encoded, bytes) && Stripped(text) == encoded
    ensures Decodes(text, bytes)
  {
    hide Bits, ByteBits, SextetBits, DataLength, ValidShape, Pads;
    var values: seq<Sextet> :| EncodesVia(encoded, bytes, values);
    DataOfEncoded(encoded, |bytes|, values);
    SuffixOf(SextetBits(values), ByteBits(bytes), Bits(0, 6 * |values| - 8 * |bytes|));
  }

  lemma {:induction false} StrippedIsPlain(text: string)
    requires forall i :: 0 <= i < |text| ==> text[i] !in "\r\n"
    ensures Stripped(text) == text
  {
    if text != [] {
      StrippedIsPlain(text[..|text| - 1]);
    }
  }

  lemma {:induction false} EncodedIsPlain(encoded: string, bytes: seq<Byte>)
    requires Encodes(encoded, bytes)
    ensures Stripped(encoded) == encoded
  {
    var values: seq<Sextet> :| EncodesVia(encoded, bytes, values);
    forall i | 0 <= i < |encoded|
      ensures encoded[i] !in "\r\n"
    {
      if i < |values| {
        assert encoded[i] == CharOf(values[i]);
      }
    }
    StrippedIsPlain(encoded);
  }

  /** decode(encode(b)) == b for every byte string. */
  method EncodeThenDecode(bytes: seq<Byte>) returns (ok: bool, back: seq<Byte>)
    ensures ok && back == bytes
  {
    var text := Encode(bytes);
    EncodedIsPlain(text, bytes);
    RoundTrip(text, text, bytes);
    ok, back := TryDecode(text);
    DecodesIsFunctional(text, back, bytes);
  }

  /** The other round trip: re-encoding what a text decodes to gives the text back (without line
      breaks) exactly when the text is fully padded and its unused low bits are zero.  The decoder
      also accepts unpadded texts and texts with stray low bits. */
  lemma {:induction false} CanonicalText(text: string, bytes: seq<Byte>)
    requires Decodes(text, bytes)
    ensures Encodes(Stripped(text), bytes) <==> Canonical(Stripped(text), bytes)
  {
    var s := Stripped(text);
    if Encodes(s, bytes) {
      EncodedIsCanonical(s, bytes);
    }
    if Canonical(s, bytes) {
      CanonicalIsEncoded(s, bytes);
    }
  }

  /** Decoding a text and encoding the bytes again gives the text back exactly when it is canonical. */
  method DecodeThenEncode(text: string) returns (ok: bool, bytes: seq<Byte>, again: string)
    ensures ok <==> ValidShape(Stripped(text))
    ensures ok ==> Decodes(text, bytes) && (again == Stripped(text) <==> Canonical(Stripped(text), bytes))
  {
    hide Canonical, Encodes, Decodes, ValidShape, Stripped;
    ok, bytes := TryDecode(text);
    again := "";
    if ok {
      again := Encode(bytes);
      CanonicalText(text, bytes);
      if Canonical(Stripped(text), bytes) {
        EncodesIsFunctional(again, Stripped(text), bytes);
      }
    }
  }

  ghost predicate Canonical(s: string, bytes: seq<Byte>) {
    && |s| % 4 == 0
    && 8 * |bytes| <= 6 * DataLength(s)
    && SextetBits(DataValues(s))[8 * |bytes|..] == Bits(0, 6 * DataLength(s) - 8 * |bytes|)
  }

  lemma {:induction false} EncodedIsCanonical(s: string, bytes: seq<Byte>)
    requires Encodes(s, bytes)
    ensures Canonical(s, bytes)
  {
    hide Bits, ByteBits, SextetBits, DataLength, ValidShape, Pads;
    var w: seq<Sextet> :| EncodesVia(s, bytes, w);
    DataOfEncoded(s, |bytes|, w);
    SuffixOf(SextetBits(w), ByteBits(bytes), Bits(0, 6 * |w| - 8 * |bytes|));
  }

  lemma {:induction false} SuffixOf<T>(all: seq<T>, a: seq<T>, b: seq<T>)
    requires all == a + b
    ensures all[|a|..] == b && all[..|a|] == a
  {
  }

  lemma {:induction false} PadsComplete(n: nat)
    ensures (n + Pads(n)) % 4 == 0
  {
  }

  lemma {:induction false} CanonicalIsEncoded(s: string, bytes: seq<Byte>)
    requires ValidShape(s) && Canonical(s, bytes)
    requires 6 * DataLength(s) < 8 * |bytes| + 8
    requires ByteBits(bytes) == SextetBits(DataValues(s))[..8 * |bytes|]
    ensures Encodes(s, bytes)
  {
    hide Bits, ByteBits, SextetBits, DataLength, ValidShape, Pads;
    var values := DataValues(s);
    CharsOfValues(s);
    FillsUp(s);
    var all := SextetBits(values);
    assert all == all[..8 * |bytes|] + all[8 * |bytes|..];
    LeftoverBits(|values|, |bytes|);
    assert EncodesVia(s, bytes, values);
  }

  lemma {:induction false} LeftoverBits(sextets: nat, octets: nat)
    requires 0 <= 6 * sextets - 8 * octets < 8 && sextets % 4 != 1
    ensures 6 * sextets - 8 * octets < 6
  {
  }

  lemma {:induction false} FillsUp(s: string)
    requires ValidShape(s) && |s| % 4 == 0
    ensures s == s[..DataLength(s)] + Fill('=', Pads(DataLength(s)))
    ensures DataLength(s) % 4 != 1
  {
  }

  lemma {:induction false} CharsOfValues(s: string)
    ensures Chars(DataValues(s)) == s[..DataLength(s)]
  {
    forall i | 0 <= i < DataLength(s)
      ensures Chars(DataValues(s))[i] == s[i]
    {
      CharOfValue(s[i]);
    }
  }

  // ----- Shapes -----

  /** The valid shapes: characters of the alphabet, then no padding, unless one character would be left over, or
      the padding that completes a last group of two or three to four. */
  lemma {:induction false} ShapeIs(data: string, pads: nat)
    requires forall i :: 0 <= i < |data| ==>
               'A' <= data[i] <= 'Z' || 'a' <= data[i] <= 'z' || '0' <= data[i] <= '9' || data[i] == '+' || data[i] == '/'
    ensures ValidShape(data + Fill('=', pads))
       <==> if pads == 0 then |data| % 4 != 1 else |data| % 4 >= 2 && |data| % 4 + pads == 4
  {
    var s := data + Fill('=', pads);
    DataLengthIs(s, |data|);
    hide DataLength;
  }

  /** Any other character, or padding before data, is refused. */
  lemma {:induction false} OtherShapes(s: string, i: nat)
    requires i < |s|
    requires !('A' <= s[i] <= 'Z' || 'a' <= s[i] <= 'z' || '0' <= s[i] <= '9' || s[i] == '+' || s[i] == '/')
    requires s[i] != '=' || exists j :: i < j < |s| && s[j] != '='
    ensures !ValidShape(s)
  {
    var k := DataLength(s);
    assert k <= i;
    hide DataLength;
    if s[i] == '=' {
      var j :| i < j < |s| && s[j] != '=';
    }
  }

  // ----- Known answers -----

  /** The alphabet is that of section 4 of RFC 4648. */
  lemma {:induction false} Alphabet(v: Sextet)
    ensures v < 26 ==> CharOf(v) as int == 'A' as int + v
    ensures 26 <= v < 52 ==> CharOf(v) as int == 'a' as int + v - 26
    ensures 52 <= v < 62 ==> CharOf(v) as int == '0' as int + v - 52
    ensures v == 62 ==> CharOf(v) == '+'
    ensures v == 63 ==> CharOf(v) == '/'
  {
  }

  /** The octets 77, 97, 110 ("Man") encode as TWFu, and as nothing else. */
  lemma {:induction false} ManIsTWFu(text: string)
    ensures Encodes(text, [77, 97, 110]) <==> text == "TWFu"
  {
    hide Bits, ByteBits, SextetBits;
    var bytes: seq<Byte> := [77, 97, 110];
    var values: seq<Sextet> := [19, 22, 5, 46];
    QuantumBits(77, 97, 110, 77 * 0x1_0000 + 97 * 0x100 + 110);
    Alphabet(19);
    Alphabet(22);
    Alphabet(5);
    Alphabet(46);
    assert Chars(values) + Fill('=', Pads(4)) == "TWFu";
    assert EncodesVia("TWFu", bytes, values);
    if Encodes(text, bytes) {
      EncodesIsFunctional(text, "TWFu", bytes);
    }
  }
}
