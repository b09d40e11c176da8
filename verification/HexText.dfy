/** Writing bytes as a hexadecimal number (to_hex in src/common/hex_and_handles.h). */
module HexText {

  newtype Byte = x: int | 0 <= x < 256

  const HEX := "0123456789abcdef"

  /** The digits for some bytes, least significant byte last. */
  function Digits(data: seq<Byte>): (s: string)
    ensures |s| == 2 * |data|
  {
    if data == [] then "" else Digits(data[1..]) + [HEX[data[0] / 16], HEX[data[0] % 16]]
  }

  lemma DigitsNext(data: seq<Byte>, i: nat)
    requires i < |data|
    ensures Digits(data[..i + 1]) == [HEX[data[i] / 16], HEX[data[i] % 16]] + Digits(data[..i])
    decreases i
  {
    if i == 0 {
      assert data[..1] == [data[0]] && data[..0] == [] && data[..1][1..] == [];
    } else {
      assert data[..i + 1][1..] == data[1..][..i] && data[..i][1..] == data[1..][..i - 1];
      DigitsNext(data[1..], i - 1);
    }
  }

  /** to_hex fills the string from its end, two digits a byte. */
  method ToHex(data: seq<Byte>) returns (out: array<char>)
    ensures fresh(out) && out[..] == "0x" + Digits(data)
  {
    var bytes := |data|;
    out := new char[2 + bytes * 2](_ => '?');
    out[0] := '0';
    out[1] := 'x';
    var ch := out.Length;
    assert Digits(data[..0]) == "";
    hide Digits;
    for i := 0 to bytes
      invariant ch == 2 + 2 * (bytes - i)
      invariant out[0] == '0' && out[1] == 'x'
      invariant out[ch..] == Digits(data[..i])
    {
      var b := data[i];
      DigitsNext(data, i);
      ghost var written := out[ch..];
      ch := ch - 1;
      out[ch] := HEX[b % 16];
      ch := ch - 1;
      out[ch] := HEX[b / 16];
      assert out[ch..] == [HEX[b / 16], HEX[b % 16]] + written by {
        assert out[ch] == HEX[b / 16] && out[ch + 1] == HEX[b % 16];
        assert out[ch + 2..] == written;
      }
    }
    assert data[..bytes] == data;
    assert out[..] == [out[0], out[1]] + out[2..];
  }

  predicate IsDigit(c: char) {
    '0' <= c <= '9' || 'a' <= c <= 'f'
  }

  function DigitValue(c: char): (v: nat)
    requires IsDigit(c)
    ensures v < 16
  {
    if c <= '9' then c as int - '0' as int else 10 + (c as int - 'a' as int)
  }

  /** HEX has each digit at its value. */
  lemma HexDigit(i: nat)
    requires i < 16
    ensures IsDigit(HEX[i]) && DigitValue(HEX[i]) == i
  {
    assert HEX[0] == '0' && HEX[1] == '1' && HEX[2] == '2' && HEX[3] == '3' && HEX[4] == '4' && HEX[5] == '5';
    assert HEX[6] == '6' && HEX[7] == '7' && HEX[8] == '8' && HEX[9] == '9' && HEX[10] == 'a' && HEX[11] == 'b';
    assert HEX[12] == 'c' && HEX[13] == 'd' && HEX[14] == 'e' && HEX[15] == 'f';
  }

  /** Reading digits as a number in base 16. */
  ghost function Value(s: string): nat
    requires forall c :: c in s ==> IsDigit(c)
  {
    if s == "" then 0 else 16 * Value(s[..|s| - 1]) + DigitValue(s[|s| - 1])
  }

  /** The bytes as a number, least significant byte first. */
  ghost function Number(data: seq<Byte>): nat {
    if data == [] then 0 else data[0] as int + 256 * Number(data[1..])
  }

  /** What is written reads back as the number. */
  lemma {:induction false} DigitsRead(data: seq<Byte>)
    ensures forall c :: c in Digits(data) ==> IsDigit(c)
    ensures Value(Digits(data)) == Number(data)
  {
    if data != [] {
      DigitsRead(data[1..]);
      var high, low := Digits(data[1..]) + [HEX[data[0] / 16]], HEX[data[0] % 16];
      var s := Digits(data);
      assert s == high + [low] && s[..|s| - 1] == high && high[..|high| - 1] == Digits(data[1..]);
      HexDigit((data[0] / 16) as nat);
      HexDigit((data[0] % 16) as nat);
      assert forall c :: c in high ==> IsDigit(c);
      assert Value(high) == 16 * Number(data[1..]) + (data[0] / 16) as int;
    }
  }

  /** Different buffers of the same size get different texts. */
  lemma {:induction false} DigitsInjective(a: seq<Byte>, b: seq<Byte>)
    requires |a| == |b| && Digits(a) == Digits(b)
    ensures a == b
  {
    DigitsRead(a);
    DigitsRead(b);
    NumberInjective(a, b);
  }

  lemma {:induction false} NumberInjective(a: seq<Byte>, b: seq<Byte>)
    requires |a| == |b| && Number(a) == Number(b)
    ensures a == b
  {
    if a != [] {
      assert a[0] as int == Number(a) % 256 && b[0] as int == Number(b) % 256;
      NumberInjective(a[1..], b[1..]);
    }
  }
}
