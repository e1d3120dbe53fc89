/**
 MD5 as a stream: any number of updates of any lengths, a byte count kept in two 32-bit words, and a
 buffer for the bytes that do not fill a block yet. The block transformation is a parameter.
 */
module Md5 {
  import opened Md5Words

  /** The four chaining words. */
  datatype State = State(a: word, b: word, c: word, d: word)

  const INIT := State(0x67452301, 0xefcdab89, 0x98badcfe, 0x10325476)

  const TWO64 := WORD * WORD

  // ---------------------------------------------------------------- the digest of a message at once

  /** The block transformation applied to all full blocks in order. */
  function Blocks(f: (State, seq<byte>) -> State, st: State, m: seq<byte>): State
    decreases |m|
  {
    if |m| < 64 then st else Blocks(f, f(st, m[..64]), m[64..])
  }

  /** The bytes behind the last full block. */
  function Rest(m: seq<byte>): (r: seq<byte>)
    ensures |r| == |m| % 64
  {
    m[|m| - |m| % 64..]
  }

  /** Bits to the next 448 modulo 512, counted in bytes; at least one. */
  function PadLen(n: nat): (p: nat)
    ensures 1 <= p <= 64 && (n + p) % 64 == 56
  {
    if n % 64 < 56 then 56 - n % 64 else 120 - n % 64
  }

  function Zeros(n: nat): (z: seq<byte>)
    ensures |z| == n && forall i :: 0 <= i < n ==> z[i] == 0
  {
    seq(n, i => 0)
  }

  /** A one bit and zero bits (RFC 1321, section 3.1). */
  function Padding(n: nat): (p: seq<byte>)
    requires n > 0
    ensures |p| == n
  {
    [0x80] + Zeros(n - 1)
  }

  /** The number of bits modulo 2^64, low word first (RFC 1321, section 3.2). */
  function LengthWords(n: nat): (ws: seq<word>)
    ensures |ws| == 2 && ws[0] as int + WORD * ws[1] as int == 8 * n % TWO64
  {
    var bits := 8 * n % TWO64;
    LowHigh(bits);
    [(bits % WORD) as word, (bits / WORD) as word]
  }

  lemma LowHigh(bits: nat)
    requires bits < TWO64
    ensures bits / WORD < WORD && bits % WORD + WORD * (bits / WORD) == bits
  {
  }

  /** The message with padding and length. */
  function Padded(m: seq<byte>): (p: seq<byte>)
    ensures |p| % 64 == 0
  {
    m + Padding(PadLen(|m|)) + EncodeAll(LengthWords(|m|))
  }

  function Digest(f: (State, seq<byte>) -> State, m: seq<byte>): seq<byte> {
    var st := Blocks(f, INIT, Padded(m));
    EncodeAll([st.a, st.b, st.c, st.d])
  }

  // ---------------------------------------------------------------- splitting a message

  /** Full blocks first, then the others. */
  lemma {:induction false} BlocksConcat(f: (State, seq<byte>) -> State, st: State, m: seq<byte>, n: seq<byte>)
    requires |m| % 64 == 0
    ensures Blocks(f, st, m + n) == Blocks(f, Blocks(f, st, m), n)
    decreases |m|
  {
    if |m| == 0 {
      assert m + n == n;
    } else {
      assert (m + n)[..64] == m[..64] && (m + n)[64..] == m[64..] + n;
      BlocksConcat(f, f(st, m[..64]), m[64..], n);
    }
  }

  lemma {:induction false} BlocksSkipRest(f: (State, seq<byte>) -> State, st: State, m: seq<byte>)
    ensures Blocks(f, st, m) == Blocks(f, st, m[..|m| - |m| % 64])
    decreases |m|
  {
    if |m| >= 64 {
      var t := m[64..];
      BlocksSkipRest(f, f(st, m[..64]), t);
      assert t[..|t| - |t| % 64] == m[..|m| - |m| % 64][64..];
      assert m[..|m| - |m| % 64][..64] == m[..64];
    }
  }

  /** Only the rest of what came before matters. */
  lemma BlocksMore(f: (State, seq<byte>) -> State, m: seq<byte>, n: seq<byte>)
    ensures Blocks(f, INIT, m + n) == Blocks(f, Blocks(f, INIT, m), Rest(m) + n)
    ensures Rest(m + n) == Rest(Rest(m) + n)
  {
    hide Blocks;
    var full := m[..|m| - |m| % 64];
    BlocksSkipRest(f, INIT, m);
    assert m + n == full + (Rest(m) + n);
    BlocksConcat(f, INIT, full, Rest(m) + n);
    RestMore(m, n);
  }

  lemma RestMore(m: seq<byte>, n: seq<byte>)
    ensures Rest(m + n) == Rest(Rest(m) + n)
  {
    var k := |m| - |m| % 64;
    var t := Rest(m) + n;
    assert t == (m + n)[k..] && |m + n| == k + |t|;
    Mod64(|t|, k / 64);
    assert |m + n| % 64 == |t| % 64;
    assert (m + n)[|m + n| - |t| % 64..] == t[|t| - |t| % 64..];
  }

  lemma BlocksNone(f: (State, seq<byte>) -> State, st: State, b: seq<byte>)
    requires |b| < 64
    ensures Blocks(f, st, b) == st
  {
  }

  lemma BlocksOne(f: (State, seq<byte>) -> State, st: State, b: seq<byte>)
    requires |b| == 64
    ensures Blocks(f, st, b) == f(st, b)
  {
    assert b[..64] == b && b[64..] == [];
  }

  // ---------------------------------------------------------------- counting

  /** The two words hold the number of bits modulo 2^64. */
  predicate Counts(c0: word, c1: word, n: nat) {
    c0 as int + WORD * c1 as int == 8 * n % TWO64
  }

  lemma CountIndex(c0: word, c1: word, n: nat)
    requires Counts(c0, c1, n)
    ensures c0 as int / 8 % 64 == n % 64
  {
    var q := 8 * n / TWO64;
    assert 8 * n == TWO64 * q + (c0 as int + WORD * c1 as int);
    EighthOf(c0 as int, n, TWO64 / 512 * q + WORD / 512 * c1 as int);
  }

  lemma EighthOf(c: nat, n: int, y: int)
    requires 8 * n == c + 512 * y
    ensures c / 8 % 64 == n % 64
  {
    assert c / 8 == n - 64 * y;
    Mod64(n - 64 * y, y);
  }

  lemma Mod64(x: int, y: int)
    ensures (x + 64 * y) % 64 == x % 64
  {
  }

  /** Adding to the low word with a carry found by comparison, and the high bits separately. */
  lemma CountAdd(c0: word, c1: word, n: nat, len: nat)
    requires Counts(c0, c1, n) && len < WORD
    ensures var add := len * 8 % WORD;
            var s0 := (c0 as int + add) % WORD;
            var s1 := if s0 < add then (c1 as int + 1) % WORD else c1 as int;
            Counts(s0 as word, ((s1 + len / 0x2000_0000) % WORD) as word, n + len)
  {
    var add, hi := len * 8 % WORD, len / 0x2000_0000;
    CountBits(len);
    var s0 := (c0 as int + add) % WORD;
    var carry := if s0 < add then 1 else 0;
    CountLow(c0 as int, add);
    CountHigh(c1 as int, carry, hi);
    SameWord(c1);
    CountTotal(c0 as int, c1 as int, n, len, s0, c1 as int + carry + hi);
  }

  lemma CountBits(len: nat)
    ensures 8 * len == len * 8 % WORD + WORD * (len / 0x2000_0000)
  {
  }

  lemma SameWord(c: word)
    ensures (c as int + 0) % WORD == c as int
  {
  }

  lemma CountLow(c0: nat, add: nat)
    requires c0 < WORD && add < WORD
    ensures var s0 := (c0 + add) % WORD; c0 + add == s0 + WORD * (if s0 < add then 1 else 0)
  {
  }

  lemma CountTotal(c0: nat, c1: nat, n: nat, len: nat, s0: nat, t: nat)
    requires c0 + WORD * c1 == 8 * n % TWO64 && s0 < WORD && c0 + WORD * c1 + 8 * len == s0 + WORD * t
    ensures s0 + WORD * (t % WORD) == 8 * (n + len) % TWO64
  {
    var q := 8 * n / TWO64;
    assert 8 * n == TWO64 * q + (c0 + WORD * c1);
    assert 8 * (n + len) == TWO64 * q + s0 + WORD * t;
    assert t == WORD * (t / WORD) + t % WORD;
    ModUnique(8 * (n + len), q + t / WORD, s0 + WORD * (t % WORD));
  }

  lemma CountHigh(c1: int, carry: int, hi: int)
    ensures ((c1 + carry) % WORD + hi) % WORD == (c1 + carry + hi) % WORD
  {
    var t := c1 + carry;
    assert t == WORD * (t / WORD) + t % WORD;
    ModAdd(t % WORD + hi, t / WORD);
  }

  lemma ModAdd(x: int, q: int)
    ensures (x + WORD * q) % WORD == x % WORD
  {
  }

  lemma ModUnique(x: int, q: int, r: int)
    requires x == TWO64 * q + r && 0 <= r < TWO64
    ensures x % TWO64 == r
  {
  }

  /** The loop guard is a 32-bit sum; it says what is meant exactly when that sum does not wrap around. */
  lemma GuardExact(i: nat, len: nat)
    requires i <= len < WORD
    ensures ((i + 63) % WORD < len <==> i + 64 <= len) <==> i + 63 < WORD
  {
  }

  /** The index of the last, incomplete block of an input whose blocks start at `from` leaves room for the guard. */
  predicate GuardFits(from: nat, len: nat) {
    len < from || from + (len - from) / 64 * 64 + 63 < WORD
  }

  lemma GuardAt(from: nat, len: nat, i: nat, j: nat)
    requires from <= i <= len < WORD && i == from + 64 * j && GuardFits(from, len)
    ensures ((i + 63) % WORD < len <==> i + 64 <= len) && (i - from) % 64 == 0
  {
    assert (i - from) / 64 == j && j <= (len - from) / 64;
    GuardExact(i, len);
  }

  /** If it does not, the guard holds at every index that the loop ever comes to: the loop does not end. */
  lemma GuardNeverFails(from: nat, len: nat, i: nat)
    requires from <= len < WORD && !GuardFits(from, len)
    requires i < WORD && i % 64 == from % 64
    ensures (i + 63) % WORD < len && (i + 64) % WORD % 64 == from % 64
  {
    var q, r := (len - from) / 64, from % 64;
    assert from == 64 * (from / 64) + r && i == 64 * (i / 64) + r;
    GuardHolds(i / 64, from / 64 + q, r, len);
  }

  /** The indices are 64 apart, so that the guard wraps around at the last one only, to something small. */
  lemma GuardHolds(a: nat, b: nat, r: nat, len: nat)
    requires r < 64 && 64 * a + r < WORD && 64 * b + r <= len < WORD <= 64 * b + r + 63
    ensures (64 * a + r + 63) % WORD < len && (64 * a + r + 64) % WORD % 64 == r
  {
    assert WORD == 64 * 0x400_0000;
    assert b == 0x400_0000 - 1 && r >= 1;
    if a == b {
      assert 64 * a + r + 63 == WORD + (r - 1);
      assert 64 * a + r + 64 == WORD + r;
    } else {
      assert 64 * a + r + 64 == 64 * (a + 1) + r < WORD;
    }
  }

  lemma SmallFits(from: nat, len: nat)
    requires from <= 64 && len <= 128
    ensures GuardFits(from, len)
  {
  }

  /** That never happens to the first update of a context. */
  lemma FirstFits(len: nat)
    requires len < WORD
    ensures GuardFits(64, len)
  {
  }

  /** What is left after the full blocks `t[..k]` is shorter than a block. */
  lemma Leftover(f: (State, seq<byte>) -> State, st: State, t: seq<byte>, k: nat)
    requires k <= |t| < k + 64 && k % 64 == 0
    ensures Rest(t) == t[k..] && Blocks(f, st, t) == Blocks(f, st, t[..k])
  {
    hide Blocks;
    Mod64(|t| - k, k / 64);
    assert |t| % 64 == |t| - k;
    BlocksSkipRest(f, st, t);
  }

  method MemCpy(output: array<byte>, o: nat, input: array<byte>, i: nat, len: nat)
    requires o + len <= output.Length && i + len <= input.Length && output != input
    modifies output
    ensures output[..o] == old(output[..o]) && output[o..o + len] == input[i..i + len] && output[o + len..] == old(output[o + len..])
  {
    for k := 0 to len
      invariant output[..o] == old(output[..o]) && output[o..o + k] == input[i..i + k] && output[o + k..] == old(output[o + k..])
    {
      output[o + k] := input[i + k];
      assert output[o..o + k + 1] == output[o..o + k] + [input[i + k]];
    }
  }

  // ---------------------------------------------------------------- the context

  class Md5Context {
    const transform: (State, seq<byte>) -> State
    var state: State
    var count0: word
    var count1: word
    const buffer: array<byte>
    ghost var message: seq<byte>  // everything absorbed so far

    constructor (f: (State, seq<byte>) -> State)
      ensures Valid() && transform == f && message == [] && fresh(buffer)
    {
      transform := f;
      state := INIT;
      count0, count1 := 0, 0;
      buffer := new byte[64](i => 0);
      message := [];
    }

    /** State, count and buffer are functions of the message alone. */
    ghost predicate Valid()
      reads this, buffer
    {
      && buffer.Length == 64
      && state == Blocks(transform, INIT, message)
      && Counts(count0, count1, |message|)
      && buffer[..|message| % 64] == Rest(message)
    }

    /** Adds to the bit count, with a carry between the words. */
    method AddCount(ghost n: nat, len: nat)
      requires Counts(count0, count1, n) && len < WORD
      modifies this`count0, this`count1
      ensures Counts(count0, count1, n + len)
    {
      hide Counts;
      CountAdd(count0, count1, n, len);
      var add := len * 8 % WORD;
      var low := (count0 as int + add) % WORD;
      var high := if low < add then (count1 as int + 1) % WORD else count1 as int;
      count0 := low as word;
      count1 := ((high + len / 0x2000_0000) % WORD) as word;
    }

    /** Transforms all full blocks of the input from position `from` on. */
    method WholeBlocks(input: array<byte>, from: nat, len: nat) returns (i: nat)
      requires from <= len <= input.Length && len < WORD && GuardFits(from, len)
      modifies this`state
      ensures from <= i <= len < i + 64 && (i - from) % 64 == 0
      ensures state == Blocks(transform, old(state), input[from..i])
    {
      hide Blocks, GuardFits;
      ghost var st, j := state, 0;
      BlocksNone(transform, st, input[from..from]);
      i := from;
      GuardAt(from, len, i, j);
      while (i + 63) % WORD < len
        invariant from <= i <= len && i == from + 64 * j && j >= 0
        invariant (i + 63) % WORD < len <==> i + 64 <= len
        invariant state == Blocks(transform, st, input[from..i])
        decreases len - i
      {
        assert input[from..i + 64] == input[from..i] + input[i..i + 64];
        BlocksConcat(transform, st, input[from..i], input[i..i + 64]);
        BlocksOne(transform, state, input[i..i + 64]);
        state := transform(state, input[i..i + 64]);
        i, j := i + 64, j + 1;
        GuardAt(from, len, i, j);
      }
      GuardAt(from, len, i, j);
    }

    /** The input completes at least one block. */
    method AbsorbLong(input: array<byte>, len: nat, index: nat)
      requires buffer.Length == 64 && input != buffer && 64 - index <= len <= input.Length && len < WORD && index < 64 && GuardFits(64 - index, len)
      modifies this`state, buffer
      ensures var t := old(buffer[..index] + input[..len]);
              state == Blocks(transform, old(state), t) && buffer[..|t| % 64] == Rest(t)
    {
      hide Blocks, Rest, GuardFits;
      ghost var b, m, st := buffer[..index], input[..len], state;
      var partLen := 64 - index;
      MemCpy(buffer, index, input, 0, partLen);
      assert index + partLen == 64 && input[0..0 + partLen] == m[..partLen];
      assert buffer[..] == buffer[..index] + buffer[index..index + partLen];
      assert buffer[..] == b + m[..partLen];
      BlocksOne(transform, st, buffer[..]);
      state := transform(state, buffer[..]);
      var i := WholeBlocks(input, partLen, len);
      assert b + m[..i] == (b + m[..partLen]) + input[partLen..i];
      BlocksConcat(transform, st, b + m[..partLen], input[partLen..i]);
      Leftover(transform, st, b + m, index + i);
      MemCpy(buffer, 0, input, i, len - i);
      assert (b + m)[..index + i] == b + m[..i];
      assert (b + m)[index + i..] == m[i..];
      assert buffer[..len - i] == buffer[0..0 + (len - i)];
    }

    /** The input does not complete a block. */
    method AbsorbShort(input: array<byte>, len: nat, index: nat)
      requires buffer.Length == 64 && input != buffer && len <= input.Length && len < 64 - index
      modifies buffer
      ensures var t := old(buffer[..index] + input[..len]);
              state == Blocks(transform, state, t) && buffer[..|t| % 64] == Rest(t)
    {
      hide Blocks, Rest, GuardFits;
      ghost var b, m := buffer[..index], input[..len];
      MemCpy(buffer, index, input, 0, len);
      assert input[0..0 + len] == m;
      assert buffer[..index + len] == buffer[..index] + buffer[index..index + len];
      Leftover(transform, state, b + m, 0);
      BlocksNone(transform, state, b + m);
      assert (b + m)[0..] == b + m;
    }

    /** The blocks of an update, and what is left for the buffer, which holds `index` bytes. */
    method Absorb(input: array<byte>, len: nat, index: nat)
      requires buffer.Length == 64 && input != buffer && len <= input.Length && len < WORD && index < 64 && GuardFits(64 - index, len)
      modifies this`state, buffer
      ensures var t := old(buffer[..index] + input[..len]);
              state == Blocks(transform, old(state), t) && buffer[..|t| % 64] == Rest(t)
    {
      hide Blocks, Rest;
      if len >= 64 - index {
        AbsorbLong(input, len, index);
      } else {
        AbsorbShort(input, len, index);
      }
    }

    /** Continues the digest with some more bytes. Any number of them will do for which the loop guard does not wrap around. */
    method Update(input: array<byte>, len: nat)
      requires Valid() && input != buffer && len <= input.Length && len < WORD && GuardFits(64 - |message| % 64, len)
      modifies this, buffer
      ensures Valid() && message == old(message) + old(input[..len])
    {
      hide Blocks, Rest, Counts;
      ghost var m, data := message, input[..len];
      CountIndex(count0, count1, |m|);
      var index := count0 as int / 8 % 64;
      AddCount(|m|, len);
      assert buffer[..index] == Rest(m) && input[..len] == data;
      Absorb(input, len, index);
      message := m + data;
      BlocksMore(transform, m, data);
    }

    /** Pads the message and appends its length. */
    method Pad()
      requires Valid()
      modifies this, buffer
      ensures Valid() && message == Padded(old(message))
    {
      hide Blocks, Rest, Counts, EncodeAll, GuardFits, Valid;
      ghost var m := message;
      var bits := CountBytes();
      var index := BufferIndex();
      var padLen := if index < 56 then 56 - index else 120 - index;
      var padding := new byte[64](i => if i == 0 then 0x80 else 0);
      assert padding[..padLen] == Padding(PadLen(|m|));
      SmallFits(64 - |m| % 64, padLen);
      Update(padding, padLen);
      SmallFits(64 - |message| % 64, 8);
      Update(bits, 8);
      assert message == Padded(m);
    }

    method BufferIndex() returns (index: nat)
      requires Valid()
      ensures index == |message| % 64 && buffer.Length == 64
    {
      hide Blocks, Rest, Counts;
      CountIndex(count0, count1, |message|);
      index := count0 as int / 8 % 64;
    }

    /** The length of the message as it is appended. */
    method CountBytes() returns (bits: array<byte>)
      requires Valid()
      ensures fresh(bits) && bits.Length == 8 && bits[..8] == EncodeAll(LengthWords(|message|))
    {
      hide Blocks, Rest, Counts, EncodeAll;
      var counts := new word[2];
      counts[0], counts[1] := count0, count1;
      bits := new byte[8];
      Encode(bits, counts, 8);
      CountWords(count0, count1, |message|);
      assert counts[..2] == LengthWords(|message|);
    }

    /** Pads, appends the length and writes the digest; the context is wiped. */
    method Final(digest: array<byte>)
      requires Valid() && digest != buffer && digest.Length == 16
      modifies this, buffer, digest
      ensures digest[..] == Digest(transform, old(message))
    {
      hide Blocks, Rest, Counts, EncodeAll;
      ghost var m := message;
      Pad();
      var words := new word[4];
      words[0], words[1], words[2], words[3] := state.a, state.b, state.c, state.d;
      assert words[..4] == [state.a, state.b, state.c, state.d];
      Encode(digest, words, 16);
      assert digest[..] == digest[..16];
      Wipe();
    }

    method Wipe()
      modifies this, buffer
      ensures state == State(0, 0, 0, 0) && count0 == count1 == 0 && forall i :: 0 <= i < buffer.Length ==> buffer[i] == 0
    {
      state, count0, count1 := State(0, 0, 0, 0), 0, 0;
      message := [];
      for i := 0 to buffer.Length
        invariant state == State(0, 0, 0, 0) && count0 == count1 == 0
        invariant forall k :: 0 <= k < i ==> buffer[k] == 0
      {
        buffer[i] := 0;
      }
    }
  }

  /** The words counted are the words appended. */
  lemma CountWords(c0: word, c1: word, n: nat)
    requires Counts(c0, c1, n)
    ensures LengthWords(n) == [c0, c1]
  {
    var bits := 8 * n % TWO64;
    assert bits % WORD == c0 as int && bits / WORD == c1 as int;
  }

  /** Digests a buffer in one update. */
  method Md5Buffer(f: (State, seq<byte>) -> State, data: array<byte>, len: nat, digest: array<byte>)
    requires len <= data.Length && len < WORD && digest.Length == 16 && digest != data
    modifies digest
    ensures digest[..] == Digest(f, data[..len])
  {
    hide Digest, Blocks, Rest, Counts;
    ghost var m := data[..len];
    assert [] + m == m;
    var context := new Md5Context(f);
    FirstFits(len);
    context.Update(data, len);
    assert data[..len] == m;
    context.Final(digest);
    assert data[..len] == m;
  }

  function Concat(chunks: seq<seq<byte>>): seq<byte> {
    if chunks == [] then [] else Concat(chunks[..|chunks| - 1]) + chunks[|chunks| - 1]
  }

  /** Digests a file read piece by piece: only the contents matter, not how they were cut. */
  method Md5File(f: (State, seq<byte>) -> State, chunks: seq<seq<byte>>, digest: array<byte>)
    requires forall i :: 0 <= i < |chunks| ==> |chunks[i]| <= 1024
    requires digest.Length == 16
    modifies digest
    ensures digest[..] == Digest(f, Concat(chunks))
  {
    var context := new Md5Context(f);
    for i := 0 to |chunks|
      invariant context.Valid() && context.transform == f && fresh(context) && fresh(context.buffer) && context.message == Concat(chunks[..i])
    {
      var data := new byte[1024];
      forall k | 0 <= k < |chunks[i]| {
        data[k] := chunks[i][k];
      }
      assert data[..|chunks[i]|] == chunks[i];
      context.Update(data, |chunks[i]|);
      assert chunks[..i + 1][..i] == chunks[..i];
    }
    assert chunks[..|chunks|] == chunks;
    context.Final(digest);
  }
}
