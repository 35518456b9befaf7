/** Bounded machine integers, optional values, and big-endian fields. */
module Bytes {

  type byte = x: int | 0 <= x < 0x100
  type u16 = x: int | 0 <= x < 0x1_0000
  type u32 = x: int | 0 <= x < 0x1_0000_0000
  type u64 = x: int | 0 <= x < 0x1_0000_0000_0000_0000

  datatype Option<+T> = None | Some(value: T)

  function Min(a: int, b: int): int {
    if a <= b then a else b
  }

  function Max(a: int, b: int): int {
    if a <= b then b else a
  }

  function Distance(a: int, b: int): nat {
    if a < b then b - a else a - b
  }

  const TWO63 := 0x8000_0000_0000_0000
  const TWO64 := 0x1_0000_0000_0000_0000
  const I64_MAX := TWO63 - 1

  type i64 = x: int | -TWO63 <= x < TWO63

  function Clamp(x: int): i64 {
    if x < -TWO63 then -TWO63 else if x >= TWO63 then I64_MAX else x
  }

  function SatAdd(a: i64, b: i64): i64 {
    Clamp(a + b)
  }

  function SatSub(a: i64, b: i64): i64 {
    Clamp(a - b)
  }

  function SatMul(a: i64, b: i64): i64 {
    Clamp(a * b)
  }

  function SatAbs(a: i64): i64 {
    Clamp(if a < 0 then -(a as int) else a)
  }

  /** The low 64 bits as a two's complement number. */
  function Wrap64(x: int): i64 {
    (x + TWO63) % TWO64 - TWO63
  }

  /** Division truncated toward zero. */
  function TruncDiv(a: int, b: int): int
    requires b > 0
  {
    if a >= 0 then a / b else -(-a / b)
  }

  /** `n` copies of one byte. */
  function Fill(n: nat, b: byte): (s: seq<byte>)
    ensures |s| == n
    ensures forall i :: 0 <= i < n ==> s[i] == b
  {
    seq(n, i => b)
  }

  function Flatten<T>(parts: seq<seq<T>>): seq<T> {
    if parts == [] then [] else parts[0] + Flatten(parts[1..])
  }

  lemma {:induction false} FlattenConcat<T>(a: seq<seq<T>>, b: seq<seq<T>>)
    ensures Flatten(a + b) == Flatten(a) + Flatten(b)
  {
    if a == [] {
      assert a + b == b;
    } else {
      assert (a + b)[0] == a[0] && (a + b)[1..] == a[1..] + b;
      FlattenConcat(a[1..], b);
    }
  }

  lemma FlattenSnoc<T>(a: seq<seq<T>>, last: seq<T>)
    ensures Flatten(a + [last]) == Flatten(a) + last
  {
    FlattenConcat(a, [last]);
    assert Flatten([last]) == last + Flatten<T>([]);
  }

  lemma SubSlice<T>(s: seq<T>, a: nat, b: nat, from: nat, to: nat)
    requires a <= b <= |s| && from <= to <= b - a
    ensures s[a..b][from..to] == s[a + from..a + to]
  {
    var inner, outer := s[a..b][from..to], s[a + from..a + to];
    forall i | 0 <= i < to - from ensures inner[i] == outer[i] {
      assert inner[i] == s[a..b][from + i];
    }
  }

  // Big-endian fields

  function ReadBe16(s: seq<byte>, at: nat): (v: u16)
    requires at + 2 <= |s|
  {
    s[at] as int * 0x100 + s[at + 1] as int
  }

  function ReadBe32(s: seq<byte>, at: nat): (v: u32)
    requires at + 4 <= |s|
  {
    ReadBe16(s, at) as int * 0x1_0000 + ReadBe16(s, at + 2) as int
  }

  function ReadBe64(s: seq<byte>, at: nat): (v: u64)
    requires at + 8 <= |s|
  {
    ReadBe32(s, at) as int * 0x1_0000_0000 + ReadBe32(s, at + 4) as int
  }

  function Be16(v: u16): (s: seq<byte>)
    ensures |s| == 2 && ReadBe16(s, 0) == v
  {
    [v / 0x100, v % 0x100]
  }

  function Be32(v: u32): (s: seq<byte>)
    ensures |s| == 4 && ReadBe32(s, 0) == v
  {
    Be16(v / 0x1_0000) + Be16(v % 0x1_0000)
  }

  function Be64(v: u64): (s: seq<byte>)
    ensures |s| == 8 && ReadBe64(s, 0) == v
  {
    Be32(v / 0x1_0000_0000) + Be32(v % 0x1_0000_0000)
  }

  /** The word as a two's complement number. */
  function Signed32(v: u32): int {
    if v < 0x8000_0000 then v else v - 0x1_0000_0000
  }

  lemma ReadBe16At(s: seq<byte>, at: nat, v: u16)
    requires at + 2 <= |s| && s[at..at + 2] == Be16(v)
    ensures ReadBe16(s, at) == v
  {
    var t := s[at..at + 2];
    assert t[0] == s[at] && t[1] == s[at + 1];
  }

  /** Four bytes determine the word read from them, wherever they stand. */
  lemma ReadBe32At(s: seq<byte>, at: nat, v: u32)
    requires at + 4 <= |s| && s[at..at + 4] == Be32(v)
    ensures ReadBe32(s, at) == v
  {
    var t := s[at..at + 4];
    assert t[0] == s[at] && t[1] == s[at + 1] && t[2] == s[at + 2] && t[3] == s[at + 3];
  }

  lemma ReadBe64At(s: seq<byte>, at: nat, v: u64)
    requires at + 8 <= |s| && s[at..at + 8] == Be64(v)
    ensures ReadBe64(s, at) == v
  {
    var t := s[at..at + 8];
    assert forall k :: 0 <= k < 8 ==> t[k] == s[at + k];
    assert t[0] == s[at] && t[1] == s[at + 1] && t[2] == s[at + 2] && t[3] == s[at + 3];
    assert t[4] == s[at + 4] && t[5] == s[at + 5] && t[6] == s[at + 6] && t[7] == s[at + 7];
  }

  lemma Digits24(n: int)
    requires 0 <= n < 0x100_0000
    ensures n / 0x1_0000 < 0x100
    ensures n / 0x1_0000 * 0x1_0000 + n / 0x100 % 0x100 * 0x100 + n % 0x100 == n
  {
    assert n / 0x100 / 0x100 == n / 0x1_0000;
  }

  lemma Digits32(n: u32)
    ensures n / 0x100_0000 < 0x100
    ensures n / 0x100_0000 * 0x100_0000 + n / 0x1_0000 % 0x100 * 0x1_0000 + n / 0x100 % 0x100 * 0x100 + n % 0x100 == n
  {
    var n1 := n / 0x100;
    var n2 := n1 / 0x100;
    assert n2 == n / 0x1_0000 && n2 / 0x100 == n / 0x100_0000;
    assert n == n1 * 0x100 + n % 0x100 && n1 == n2 * 0x100 + n1 % 0x100 && n2 == n2 / 0x100 * 0x100 + n2 % 0x100;
  }
}
