/** np1/hash/sha256.hpp: the buffering, the length count and the padding around the block function.
    The block function itself is a parameter. */
module Sha256 {
  import opened CompressedInt

  const TWO32: nat := 0x1_0000_0000

  type Word = x: int | 0 <= x < 0x1_0000_0000
  type Words = w: seq<Word> | |w| == 8 witness seq(8, _ => 0)
  type Block = b: seq<Byte> | |b| == 64 witness seq(64, _ => 0)
  type BlockFunction = (Words, Block) -> Words

  const INITIAL: Words :=
    [0x6A09E667, 0xBB67AE85, 0x3C6EF372, 0xA54FF53A, 0x510E527F, 0x9B05688C, 0x1F83D9AB, 0x5BE0CD19]

  /** Section 6.2 of FIPS 180-2: the hash after all blocks of the data, in order. */
  function Blocks(process: BlockFunction, s: Words, data: seq<Byte>): Words
    requires |data| % 64 == 0
    decreases |data|
  {
    if data == [] then s else Blocks(process, process(s, data[..64]), data[64..])
  }

  lemma {:induction false} BlocksConcat(process: BlockFunction, s: Words, a: seq<Byte>, b: seq<Byte>)
    requires |a| % 64 == 0 && |b| % 64 == 0
    ensures |a + b| % 64 == 0 && Blocks(process, s, a + b) == Blocks(process, Blocks(process, s, a), b)
    decreases |a|
  {
    if a == [] {
      assert a + b == b;
    } else {
      assert (a + b)[..64] == a[..64] && (a + b)[64..] == a[64..] + b;
      BlocksConcat(process, process(s, a[..64]), a[64..], b);
    }
  }

  /** A number's low bytes, the most significant first. */
  function BigEndian(v: nat, size: nat): (r: seq<Byte>)
    ensures |r| == size
  {
    if size == 0 then [] else BigEndian(v / 256, size - 1) + [v % 256]
  }

  function Power256(n: nat): (r: nat)
    ensures r >= 1
  {
    if n == 0 then 1 else 256 * Power256(n - 1)
  }

  function FromBigEndian(bytes: seq<Byte>): nat {
    if bytes == [] then 0 else 256 * FromBigEndian(bytes[..|bytes| - 1]) + bytes[|bytes| - 1]
  }

  lemma {:induction false} BigEndianRoundTrip(v: nat, size: nat)
    requires v < Power256(size)
    ensures FromBigEndian(BigEndian(v, size)) == v
  {
    if size > 0 {
      BigEndianRoundTrip(v / 256, size - 1);
      assert BigEndian(v, size)[..size - 1] == BigEndian(v / 256, size - 1);
    }
  }

  /** Section 5.1.1 of FIPS 180-2 in bytes: a one bit, zeros, and the number of bits in 64 bits. */
  function ZeroBytes(length: nat): nat {
    (119 - length) % 64
  }

  function Zeros(n: nat): (r: seq<Byte>)
    ensures |r| == n
  {
    seq(n, _ => 0)
  }

  function Padded(message: seq<Byte>): (r: seq<Byte>)
    ensures |r| % 64 == 0
  {
    message + ([0x80] + Zeros(ZeroBytes(|message|))) + BigEndian(8 * |message|, 8)
  }

  /** The message, a byte with its highest bit set, zero bytes, and the length. */
  lemma PaddedBytes(message: seq<Byte>)
    ensures var p, n := Padded(message), |message|;
      && n + 9 <= |p| < n + 73 && |p| % 64 == 0 && p[..n] == message && p[n] == 128
      && forall i :: n < i < |p| - 8 ==> p[i] == 0
  {
  }

  function FirstPrimes(): (r: seq<nat>)
    ensures |r| == 8
  {
    [2, 3, 5, 7, 11, 13, 17, 19]
  }

  /** Section 5.3.2 of FIPS 180-2: each initial word is the first 32 bits of the fractional part of the square root of
      one of the first eight primes. */
  lemma InitialWords(i: nat, whole: nat)
    requires i < 8 && whole * whole < FirstPrimes()[i] < (whole + 1) * (whole + 1)
    ensures var root := whole * 0x1_0000_0000 + INITIAL[i];
      root * root < FirstPrimes()[i] * 0x1_0000_0000_0000_0000 < (root + 1) * (root + 1)
  {
    assert whole >= 5 ==> whole * whole >= 25;
  }

  /** The one bit is followed by the least number of zero bits `k` with `l + 1 + k = 448 mod 512`,
      and a message below 2^61 bytes has its exact length in bits at the end. */
  lemma PaddingIsStandard(message: seq<Byte>, k: nat)
    requires (8 * |message| + 1 + k) % 512 == 448
    ensures 7 + 8 * ZeroBytes(|message|) <= k
    ensures (8 * |message| + 1 + (7 + 8 * ZeroBytes(|message|))) % 512 == 448
    ensures |message| < 0x2000_0000_0000_0000
        ==> FromBigEndian(Padded(message)[|Padded(message)| - 8..]) == 8 * |message|
  {
    if |message| < 0x2000_0000_0000_0000 {
      assert Power256(8) == 0x1_0000_0000_0000_0000 by { PowersOf256(); }
      assert Padded(message)[|Padded(message)| - 8..] == BigEndian(8 * |message|, 8);
      BigEndianRoundTrip(8 * |message|, 8);
    }
  }

  lemma PowersOf256()
    ensures Power256(4) == 0x1_0000_0000 && Power256(8) == 0x1_0000_0000_0000_0000
  {
    assert Power256(4) == 0x1_0000_0000;
    assert Power256(6) == 0x1_0000_0000_0000;
  }

  /** The hash value as bytes. */
  function Digest(w: Words): (r: seq<Byte>)
    ensures |r| == 32
  {
    BigEndian(w[0], 4) + BigEndian(w[1], 4) + BigEndian(w[2], 4) + BigEndian(w[3], 4)
    + BigEndian(w[4], 4) + BigEndian(w[5], 4) + BigEndian(w[6], 4) + BigEndian(w[7], 4)
  }

  /** `put32`. */
  function Put32(n: Word): (r: seq<Byte>)
    ensures r == BigEndian(n, 4)
  {
    FourBytes(n);
    [n / 0x100_0000, n / 0x1_0000 % 256, n / 256 % 256, n % 256]
  }

  lemma FourBytes(n: Word)
    ensures BigEndian(n, 4) == [n / 0x100_0000, n / 0x1_0000 % 256, n / 256 % 256, n % 256]
  {
    assert BigEndian(n / 0x1_0000_0000, 0) == [];
    assert BigEndian(n / 0x100_0000, 1) == [n / 0x100_0000];
    assert n / 256 / 256 == n / 0x1_0000 && n / 0x1_0000 / 256 == n / 0x100_0000;
    assert BigEndian(n / 0x1_0000, 2) == [n / 0x100_0000, n / 0x1_0000 % 256];
    assert BigEndian(n / 256, 3) == [n / 0x100_0000, n / 0x1_0000 % 256, n / 256 % 256];
  }

  lemma {:induction false} BigEndianSplit(high: nat, low: nat, size: nat)
    requires low < Power256(size)
    ensures BigEndian(high * Power256(size) + low, 4 + size) == BigEndian(high, 4) + BigEndian(low, size)
  {
    if size > 0 {
      var p := Power256(size - 1);
      var v := high * Power256(size) + low;
      assert v == 256 * (high * p) + low;
      assert v / 256 == high * p + low / 256 && v % 256 == low % 256;
      BigEndianSplit(high, low / 256, size - 1);
    }
  }

  /** A number counts only up to its size. */
  lemma {:induction false} BigEndianModulo(v: nat, size: nat)
    ensures BigEndian(v % Power256(size), size) == BigEndian(v, size)
  {
    if size > 0 {
      var p := Power256(size - 1);
      ModuloStep(v, p);
      BigEndianModulo(v / 256, size - 1);
    }
  }

  lemma ModuloStep(v: nat, p: nat)
    requires p > 0
    ensures v % (256 * p) / 256 == v / 256 % p && v % (256 * p) % 256 == v % 256
  {
    var q := v / 256 / p;
    var r := v / 256 % p;
    assert v == 256 * (q * p + r) + v % 256;
    assert v == q * (256 * p) + (256 * r + v % 256);
    assert 256 * r + v % 256 < 256 * p;
    DivisionIs(v, q, 256 * p, 256 * r + v % 256);
  }

  lemma DivisionIs(v: nat, q: nat, d: nat, r: nat)
    requires v == q * d + r && r < d
    ensures v / d == q && v % d == r
  {
    var q2, r2 := v / d, v % d;
    assert v == q2 * d + r2;
    assert (q - q2) * d == r2 - r by { Distribute(q, q2, d); }
    if q2 < q {
      AtLeastOnce(q - q2, d);
      assert false;
    }
    if q < q2 {
      AtLeastOnce(q2 - q, d);
      Distribute(q2, q, d);
      assert false;
    }
  }

  /** The state is the hash of the whole blocks of the message, the buffer starts with the bytes after them. */
  predicate Holds(process: BlockFunction, state: Words, buffered: seq<Byte>, message: seq<Byte>) {
    var whole := |message| - |message| % 64;
    && |buffered| == 64
    && state == Blocks(process, INITIAL, message[..whole])
    && buffered[..|message| % 64] == message[whole..]
  }

  /** The length is kept modulo 2^64 in two words. */
  predicate Counted(total0: Word, total1: Word, length: nat) {
    total0 == length % TWO32 && total1 == length / TWO32 % TWO32
  }

  lemma CountCarries(total0: Word, total1: Word, length: nat, more: Word)
    requires Counted(total0, total1, length)
    ensures
      var t := (total0 + more) % TWO32;
      Counted(t, if t < more then (total1 + 1) % TWO32 else total1, length + more)
  {
    var q, sum := length / TWO32, total0 + more;
    assert length + more == q * TWO32 + sum;
    if sum < TWO32 {
      DivisionIs(length + more, q, TWO32, sum);
    } else {
      DivisionIs(length + more, q + 1, TWO32, sum - TWO32);
      NextModulo(q, total1);
    }
  }

  lemma NextModulo(q: nat, r: Word)
    requires r == q % TWO32
    ensures (q + 1) % TWO32 == (r + 1) % TWO32
  {
    var w := q / TWO32;
    assert q == w * TWO32 + r;
    if r + 1 < TWO32 {
      DivisionIs(q + 1, w, TWO32, r + 1);
    } else {
      DivisionIs(q + 1, w + 1, TWO32, 0);
    }
  }

  /** One more block. */
  lemma BlockDone(process: BlockFunction, state: Words, done: seq<Byte>, block: Block)
    requires |done| % 64 == 0 && state == Blocks(process, INITIAL, done)
    ensures |done + block| % 64 == 0 && process(state, block) == Blocks(process, INITIAL, done + block)
  {
    BlocksConcat(process, INITIAL, done, block);
    assert block[..64] == block && block[64..] == [];
    assert Blocks(process, state, block) == Blocks(process, process(state, block), []);
  }

  /** In the middle of an update: `done` is in the state, `left` bytes are in the buffer and the rest is to come. */
  predicate Midway(process: BlockFunction, state: Words, buffered: seq<Byte>, done: seq<Byte>, left: nat,
      rest: seq<Byte>,
                   all: seq<Byte>) {
    && |buffered| == 64 && left < 64
    && |done| % 64 == 0 && state == Blocks(process, INITIAL, done)
    && done + buffered[..left] + rest == all
  }

  lemma StartUpdate(process: BlockFunction, state: Words, buffered: seq<Byte>, message: seq<Byte>, rest: seq<Byte>)
    requires Holds(process, state, buffered, message)
    ensures Midway(process, state, buffered, message[..|message| - |message| % 64], |message| % 64, rest,
        message + rest)
  {
    var whole := |message| - |message| % 64;
    assert message == message[..whole] + message[whole..];
  }

  lemma FilledBlock(
    process: BlockFunction, state: Words, buffered: seq<Byte>, done: seq<Byte>, left: nat, rest: seq<Byte>,
    all: seq<Byte>,
    block: Block)
    requires Midway(process, state, buffered, done, left, rest, all) && |rest| >= 64 - left
    requires block == buffered[..left] + rest[..64 - left]
    ensures Midway(process, process(state, block), block, done + block, 0, rest[64 - left..], all)
  {
    BlockDone(process, state, done, block);
    assert done + buffered[..left] + rest == done + block + block[..0] + rest[64 - left..];
  }

  lemma NextBlock(process: BlockFunction, state: Words, buffered: seq<Byte>, done: seq<Byte>, rest: seq<Byte>,
      all: seq<Byte>)
    requires Midway(process, state, buffered, done, 0, rest, all) && |rest| >= 64
    ensures Midway(process, process(state, rest[..64]), buffered, done + rest[..64], 0, rest[64..], all)
  {
    BlockDone(process, state, done, rest[..64]);
    assert done + buffered[..0] + rest == done + rest[..64] + buffered[..0] + rest[64..];
  }

  lemma EndUpdate(
    process: BlockFunction, state: Words, buffered: seq<Byte>, done: seq<Byte>, left: nat, rest: seq<Byte>,
    all: seq<Byte>,
    after: seq<Byte>)
    requires Midway(process, state, buffered, done, left, rest, all) && left + |rest| < 64
    requires after == buffered[..left] + rest + buffered[left + |rest|..]
    ensures Holds(process, state, after, all)
  {
    assert all == done + after[..left + |rest|];
    assert |all| % 64 == left + |rest|;
    assert all[..|done|] == done && all[|done|..] == after[..left + |rest|];
  }

  lemma CountLow(total0: Word, total1: Word, length: nat)
    requires Counted(total0, total1, length)
    ensures total0 % 64 == length % 64
  {
    assert length == length / TWO32 * TWO32 + total0;
  }

  lemma LengthValue(total0: Word, total1: Word, length: nat)
    requires Counted(total0, total1, length)
    ensures
      var high, low := total0 / 0x2000_0000 + total1 * 8 % TWO32, total0 * 8 % TWO32;
      high < TWO32 && high * TWO32 + low == 8 * length % 0x1_0000_0000_0000_0000
  {
    var w := length / TWO32;
    assert length == w * TWO32 + total0;
    var v, t := w / TWO32, total0 / 0x2000_0000;
    assert w == v * TWO32 + total1;
    // The top three bits of the low word and what is left of the high word after them.
    var u := total1 / 0x2000_0000;
    var high, low := t + (total1 - u * 0x2000_0000) * 8, (total0 - t * 0x2000_0000) * 8;
    DivisionIs(total1 * 8, u, TWO32, (total1 - u * 0x2000_0000) * 8);
    DivisionIs(total0 * 8, t, TWO32, low);
    assert 8 * length == (8 * v + u) * 0x1_0000_0000_0000_0000 + (high * TWO32 + low);
    DivisionIs(8 * length, 8 * v + u, 0x1_0000_0000_0000_0000, high * TWO32 + low);
  }

  /** The length in bits as `final` puts it together from the two words. */
  lemma LengthBytes(total0: Word, total1: Word, length: nat)
    requires Counted(total0, total1, length)
    ensures BigEndian(total0 / 0x2000_0000 + total1 * 8 % TWO32, 4) + BigEndian(total0 * 8 % TWO32, 4)
         == BigEndian(8 * length, 8)
    ensures total0 / 0x2000_0000 + total1 * 8 % TWO32 < TWO32
  {
    hide BigEndian, Counted, Power256;
    var high, low := total0 / 0x2000_0000 + total1 * 8 % TWO32, total0 * 8 % TWO32;
    LengthValue(total0, total1, length);
    PowersOf256();
    BigEndianSplit(high, low, 4);
    BigEndianModulo(8 * length, 8);
  }

  class Sha256 {
    const process: BlockFunction
    const buffer: array<Byte>
    var total0: Word
    var total1: Word
    var state: Words
    /** Everything hashed so far. */
    ghost var message: seq<Byte>

    ghost predicate Valid()
      reads this, buffer
    {
      Holds(process, state, buffer[..], message) && Counted(total0, total1, |message|)
    }

    constructor (process: BlockFunction)
      ensures Valid() && message == [] && this.process == process && fresh(buffer)
    {
      this.process, buffer := process, new Byte[64](_ => 0);
      total0, total1, state, message := 0, 0, INITIAL, [];
    }

    /** `memcpy` into the buffer. */
    method Fill(at: nat, bytes: seq<Byte>)
      requires buffer.Length == 64 && at + |bytes| <= 64
      modifies buffer
      ensures buffer[..] == old(buffer[..at]) + bytes + old(buffer[at + |bytes|..])
    {
      forall i | 0 <= i < |bytes| {
        buffer[at + i] := bytes[i];
      }
      assert buffer[..] == old(buffer[..at]) + bytes + old(buffer[at + |bytes|..]);
    }

    /** `update`: the length goes through a 32-bit parameter, so only that part of the input is hashed. */
    method Update(input: seq<Byte>)
      requires Valid()
      modifies this, buffer
      ensures Valid() && message == old(message) + input[..|input| % TWO32]
    {
      DoUpdate(input[..|input| % TWO32]);
    }

    method DoUpdate(input: seq<Byte>)
      requires Valid() && |input| < TWO32
      modifies this, buffer
      ensures Valid() && message == old(message) + input
    {
      hide Holds, Counted, Blocks, Midway;
      if |input| == 0 {
        assert message + input == message;
        return;
      }
      ghost var all := message + input;
      ghost var done := message[..|message| - |message| % 64];
      StartUpdate(process, state, buffer[..], message, input);
      CountLow(total0, total1, |message|);
      CountCarries(total0, total1, |message|, |input|);
      var left := total0 % 64;
      var fill := 64 - left;
      total0 := (total0 + |input|) % TWO32;
      if total0 < |input| {
        total1 := (total1 + 1) % TWO32;
      }
      message := all;
      var rest := input;
      if left != 0 && |rest| >= fill {
        ghost var before := buffer[..];
        Fill(left, rest[..fill]);
        FilledBlock(process, state, before, done, left, rest, all, buffer[..]);
        state := process(state, buffer[..]);
        done := done + buffer[..];
        rest := rest[fill..];
        left := 0;
      }
      while |rest| >= 64
        invariant left < 64 && (left != 0 ==> left + |rest| < 64)
        invariant Midway(process, state, buffer[..], done, left, rest, all)
        invariant message == all && Counted(total0, total1, |all|)
        decreases |rest|
      {
        NextBlock(process, state, buffer[..], done, rest, all);
        state := process(state, rest[..64]);
        done := done + rest[..64];
        rest := rest[64..];
      }
      ghost var before := buffer[..];
      if |rest| != 0 {
        Fill(left, rest);
      } else {
        assert before == before[..left] + rest + before[left..];
      }
      EndUpdate(process, state, before, done, left, rest, all, buffer[..]);
    }

    /** `final`: pad, then read the hash out. */
    method Final() returns (digest: seq<Byte>)
      requires Valid()
      modifies this, buffer
      ensures Valid() && message == Padded(old(message))
      ensures digest == Digest(Blocks(process, INITIAL, Padded(old(message))))
    {
      Pad();
      AllDone(process, state, buffer[..], message);
      digest := Put32(state[0]) + Put32(state[1]) + Put32(state[2]) + Put32(state[3])
        + Put32(state[4]) + Put32(state[5]) + Put32(state[6]) + Put32(state[7]);
    }

    /** The first part of `final`. */
    method Pad()
      requires Valid()
      modifies this, buffer
      ensures Valid() && message == Padded(old(message))
    {
      hide Blocks, BigEndian, Counted, Holds, Padded;
      ghost var whole := message;
      LengthBytes(total0, total1, |whole|);
      CountLow(total0, total1, |whole|);
      var high: Word := total0 / 0x2000_0000 + total1 * 8 % TWO32;
      var low: Word := total0 * 8 % TWO32;
      var last := total0 % 64;
      var padn := if last < 56 then 56 - last else 120 - last;
      var padding: seq<Byte> := [0x80] + Zeros(padn - 1);
      Update(padding);
      assert message == whole + padding by { assert padding[..|padding| % TWO32] == padding; }
      var length := Put32(high) + Put32(low);
      Update(length);
      assert message == whole + padding + length by { assert length[..|length| % TWO32] == length; }
      PaddedIs(whole, last, padn - 1, message);
    }
  }

  lemma PaddingSize(length: nat, last: nat)
    requires last == length % 64
    ensures ZeroBytes(length) == (if last < 56 then 56 - last else 120 - last) - 1
  {
  }

  lemma AllDone(process: BlockFunction, state: Words, buffered: seq<Byte>, message: seq<Byte>)
    requires Holds(process, state, buffered, message) && |message| % 64 == 0
    ensures state == Blocks(process, INITIAL, message)
  {
    assert message[..|message|] == message;
  }

  lemma PaddedIs(message: seq<Byte>, last: nat, zeros: nat, padded: seq<Byte>)
    requires last == |message| % 64 && zeros == (if last < 56 then 56 - last else 120 - last) - 1
    requires padded == message + ([0x80] + Zeros(zeros)) + BigEndian(8 * |message|, 8)
    ensures padded == Padded(message)
  {
    hide BigEndian, ZeroBytes, Zeros;
    PaddingSize(|message|, last);
  }

  /** `hash`: a message given at once. */
  method Hash(process: BlockFunction, input: seq<Byte>) returns (digest: seq<Byte>)
    ensures digest == Digest(Blocks(process, INITIAL, Padded(input[..|input| % TWO32])))
  {
    var ctx := new Sha256(process);
    ctx.Update(input);
    assert ctx.message == input[..|input| % TWO32];
    digest := ctx.Final();
  }

  lemma Distribute(a: nat, b: nat, d: nat)
    ensures (a - b) * d == a * d - b * d
  {
  }

  lemma AtLeastOnce(a: nat, d: nat)
    requires a >= 1
    ensures a * d >= d
  {
  }
}
