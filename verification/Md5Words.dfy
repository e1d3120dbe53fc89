/** Bytes, 32-bit words and their little-endian exchange. */
module Md5Words {

  newtype byte = x: int | 0 <= x < 256

  const WORD := 0x1_0000_0000

  newtype word = x: int | 0 <= x < 0x1_0000_0000

  function Byte(w: word, i: nat): byte
    requires i < 4
  {
    var n := w as int;
    ((match i case 0 => n case 1 => n / 0x100 case 2 => n / 0x1_0000 case _ => n / 0x100_0000) % 256) as byte
  }

  function ToBytes(w: word): (b: seq<byte>)
    ensures |b| == 4 && forall i :: 0 <= i < 4 ==> b[i] == Byte(w, i)
  {
    [Byte(w, 0), Byte(w, 1), Byte(w, 2), Byte(w, 3)]
  }

  function FromBytes(b: seq<byte>): word
    requires |b| == 4
  {
    (b[0] as int + 0x100 * b[1] as int + 0x1_0000 * b[2] as int + 0x100_0000 * b[3] as int) as word
  }

  /** Decoding undoes encoding, word by word. */
  lemma WordRoundTrip(w: word)
    ensures FromBytes(ToBytes(w)) == w
  {
    var n := w as int;
    assert n == n % 256 + 256 * (n / 256);
    assert n / 256 == n / 256 % 256 + 256 * (n / 256 / 256);
    assert n / 256 / 256 == n / 0x1_0000 && n / 0x1_0000 / 256 == n / 0x100_0000;
    assert n / 0x1_0000 == n / 0x1_0000 % 256 + 256 * (n / 0x1_0000 / 256);
    assert n / 0x100_0000 < 256;
  }

  /** And the other way round. */
  lemma ByteRoundTrip(b: seq<byte>)
    requires |b| == 4
    ensures ToBytes(FromBytes(b)) == b
  {
    hide ToBytes, FromBytes;
    var b0, b1, b2, b3 := b[0] as int, b[1] as int, b[2] as int, b[3] as int;
    var n := b0 + 0x100 * b1 + 0x1_0000 * b2 + 0x100_0000 * b3;
    DivStep(b0, b1 + 256 * (b2 + 256 * b3));
    DivStep(b1, b2 + 256 * b3);
    DivStep(b2, b3);
    DivDiv(n);
    FromBytesIs(b, n);
    assert forall i :: 0 <= i < 4 ==> Byte(n as word, i) == b[i];
  }

  lemma FromBytesIs(b: seq<byte>, n: int)
    requires |b| == 4 && n == b[0] as int + 0x100 * b[1] as int + 0x1_0000 * b[2] as int + 0x100_0000 * b[3] as int
    ensures 0 <= n < WORD && FromBytes(b) == n as word
  {
  }

  lemma DivStep(r: nat, q: nat)
    requires r < 256
    ensures (r + 256 * q) / 256 == q && (r + 256 * q) % 256 == r
  {
  }

  lemma DivDiv(n: nat)
    ensures n / 0x1_0000 == n / 256 / 256 && n / 0x100_0000 == n / 256 / 256 / 256
  {
  }

  function EncodeAll(ws: seq<word>): (b: seq<byte>)
    ensures |b| == 4 * |ws|
  {
    if ws == [] then [] else EncodeAll(ws[..|ws| - 1]) + ToBytes(ws[|ws| - 1])
  }

  function DecodeAll(b: seq<byte>): (ws: seq<word>)
    requires |b| % 4 == 0
    ensures |ws| == |b| / 4
  {
    if b == [] then [] else DecodeAll(b[..|b| - 4]) + [FromBytes(b[|b| - 4..])]
  }

  lemma {:induction false} EncodeDecode(ws: seq<word>)
    ensures |EncodeAll(ws)| % 4 == 0 && DecodeAll(EncodeAll(ws)) == ws
  {
    hide FromBytes, ToBytes, Byte, EncodeAll, DecodeAll;
    Fours(|ws|);
    if ws == [] {
      DecodeNothing();
      assert EncodeAll(ws) == [];
    } else {
      var n := |ws| - 1;
      var x, y := EncodeAll(ws[..n]), ToBytes(ws[n]);
      EncodeDecode(ws[..n]);
      WordRoundTrip(ws[n]);
      EncodeMore(ws);
      DecodeMore(x, y);
      assert ws[..n] + [ws[n]] == ws;
    }
  }

  lemma Fours(n: nat)
    ensures 4 * n % 4 == 0
  {
  }

  lemma EncodeMore(ws: seq<word>)
    requires ws != []
    ensures EncodeAll(ws) == EncodeAll(ws[..|ws| - 1]) + ToBytes(ws[|ws| - 1])
  {
  }

  lemma DecodeNothing()
    ensures DecodeAll([]) == []
  {
  }

  lemma DecodeMore(x: seq<byte>, y: seq<byte>)
    requires |x| % 4 == 0 && |y| == 4
    ensures DecodeAll(x + y) == DecodeAll(x) + [FromBytes(y)]
  {
    hide FromBytes;
    assert (x + y)[..|x + y| - 4] == x && (x + y)[|x + y| - 4..] == y;
  }

  /** Writes words as bytes, least significant first. */
  method Encode(output: array<byte>, input: array<word>, len: nat)
    requires len % 4 == 0 && len <= output.Length && len <= 4 * input.Length
    modifies output
    ensures output[..len] == EncodeAll(input[..len / 4])
  {
    var i, j := 0, 0;
    while j < len
      invariant j == 4 * i <= len
      invariant output[..j] == EncodeAll(input[..i])
    {
      ghost var done := output[..j];
      output[j] := Byte(input[i], 0);
      output[j + 1] := Byte(input[i], 1);
      output[j + 2] := Byte(input[i], 2);
      output[j + 3] := Byte(input[i], 3);
      assert output[..j] == done;
      assert output[..j + 4] == output[..j] + ToBytes(input[i]);
      assert input[..i + 1][..i] == input[..i];
      i, j := i + 1, j + 4;
    }
  }

  /** Reads words from bytes. */
  method Decode(output: array<word>, input: array<byte>, len: nat)
    requires len % 4 == 0 && len <= input.Length && len <= 4 * output.Length
    modifies output
    ensures output[..len / 4] == DecodeAll(input[..len])
  {
    hide FromBytes, DecodeAll;
    DecodeNothing();
    assert input[..0] == [] && output[..0] == [];
    ghost var w := len / 4;
    assert len == 4 * w;
    var i, j := 0, 0;
    while j < len
      invariant j == 4 * i && i <= w
      invariant output[..i] == DecodeAll(input[..j])
    {
      var four := [input[j], input[j + 1], input[j + 2], input[j + 3]];
      ghost var done := output[..i];
      output[i] := FromBytes(four);
      assert output[..i] == done;
      Fours(i);
      DecodeMore(input[..j], four);
      assert input[..j + 4] == input[..j] + four;
      assert output[..i + 1] == output[..i] + [FromBytes(four)];
      i, j := i + 1, j + 4;
    }
  }
}
