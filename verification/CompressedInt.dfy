/** np1/compressed_int.hpp: 7 bits to a byte, least significant first, the last byte marked by its high bit;
    and the checked reading of np1/rel/record_ref.hpp. */
module CompressedInt {
  type Byte = x: int | 0 <= x < 256

  const MAX_COMPRESSED_INT_SIZE: nat := 10
  const TWO64: nat := 0x1_0000_0000_0000_0000

  function Encode(i: nat): (r: seq<Byte>)
    ensures |r| >= 1
  {
    if i < 128 then [i + 128] else [i % 128] + Encode(i / 128)
  }

  /** `compress`. */
  method Compress(i: nat) returns (buf: seq<Byte>)
    ensures buf == Encode(i)
  {
    var rest := i;
    buf := [rest % 128];
    rest := rest / 128;
    while rest != 0
      invariant |buf| >= 1 && buf[|buf| - 1] < 128 && Encode(i) == Closed(buf, rest)
    {
      CloseNext(buf, rest);
      buf := buf + [rest % 128];
      rest := rest / 128;
    }
    buf := buf[|buf| - 1 := buf[|buf| - 1] + 128];
  }

  /** What the encoding becomes once the rest of the number has been added. */
  function Closed(buf: seq<Byte>, rest: nat): seq<Byte>
    requires |buf| >= 1 && buf[|buf| - 1] < 128
  {
    if rest == 0 then buf[|buf| - 1 := buf[|buf| - 1] + 128] else buf + Encode(rest)
  }

  lemma CloseNext(buf: seq<Byte>, rest: nat)
    requires |buf| >= 1 && buf[|buf| - 1] < 128 && rest > 0
    ensures Closed(buf, rest) == Closed(buf + [rest % 128], rest / 128)
  {
    if rest < 128 {
      assert Closed(buf + [rest], 0) == buf + [rest + 128];
    } else {
      assert buf + ([rest % 128] + Encode(rest / 128)) == buf + [rest % 128] + Encode(rest / 128);
    }
  }

  function Pow128(n: nat): (p: nat)
    ensures p > 0
  {
    if n == 0 then 1 else 128 * Pow128(n - 1)
  }

  datatype Decoded = Incomplete | Malformed | Done(value: nat, size: nat)

  /** The position behind the first byte marked as last, if there is one. */
  function IntEnd(buf: seq<Byte>): (r: nat)
    ensures r <= |buf| && (r > 0 ==> buf[r - 1] >= 128)
    ensures forall k :: 0 <= k < r - 1 ==> buf[k] < 128
    ensures r == 0 ==> forall k :: 0 <= k < |buf| ==> buf[k] < 128
  {
    if buf == [] then 0
    else if buf[0] >= 128 then 1
    else
      var r := IntEnd(buf[1..]);
      if r == 0 then 0 else r + 1
  }

  /** The number the first `n` bytes stand for, before it is cut to 64 bits. */
  function Sum(buf: seq<Byte>, n: nat): nat
    requires n <= |buf|
  {
    if n == 0 then 0 else buf[0] % 128 + 128 * Sum(buf[1..], n - 1)
  }

  /** `decompress_uint64`. Malformed where the source aborts: a number of more than ten bytes, or ten bytes
      without an end. */
  function Decode(buf: seq<Byte>): (d: Decoded)
    ensures d.Done? ==> 0 < d.size <= |buf| && d.size <= MAX_COMPRESSED_INT_SIZE && d.value < TWO64
  {
    var n := IntEnd(buf);
    if n == 0 then (if |buf| < MAX_COMPRESSED_INT_SIZE then Incomplete else Malformed)
    else if n > MAX_COMPRESSED_INT_SIZE then Malformed
    else Done(Sum(buf, n) % TWO64, n)
  }

  /** `decompress`, and the assertions on how many bytes it took. */
  method Decompress(buf: seq<Byte>) returns (d: Decoded)
    ensures d == Decode(buf)
  {
    hide IntEnd, Sum;
    SumOfNone(buf);
    var at := 0;
    var result, factor := 0, 1;
    var last := false;
    while !last
      invariant at <= |buf| && (last ==> at > 0 && buf[at - 1] >= 128)
      invariant forall k :: 0 <= k < (if last then at - 1 else at) ==> buf[k] < 128
      invariant at <= MAX_COMPRESSED_INT_SIZE ==> factor == Pow128(at)
      invariant at <= MAX_COMPRESSED_INT_SIZE ==> result == Sum(buf, at) % TWO64
      decreases |buf| - at, !last
    {
      if at == |buf| {
        EndIsZero(buf);
        return if |buf| < MAX_COMPRESSED_INT_SIZE then Incomplete else Malformed;
      }
      SumNext(buf, at);
      AddModulo(Sum(buf, at), (buf[at] % 128) * Pow128(at));
      result := (result + (buf[at] % 128) * factor) % TWO64;
      factor := factor * 128;
      at := at + 1;
      last := buf[at - 1] >= 128;
    }
    EndIs(buf, at);
    d := if at > MAX_COMPRESSED_INT_SIZE then Malformed else Done(result, at);
  }

  lemma SumOfNone(buf: seq<Byte>)
    ensures Sum(buf, 0) == 0
  {
  }

  lemma AddModulo(a: nat, b: nat)
    ensures (a % TWO64 + b) % TWO64 == (a + b) % TWO64
  {
  }

  lemma EndIs(buf: seq<Byte>, n: nat)
    requires 0 < n <= |buf| && buf[n - 1] >= 128 && forall k :: 0 <= k < n - 1 ==> buf[k] < 128
    ensures IntEnd(buf) == n
  {
  }

  lemma EndIsZero(buf: seq<Byte>)
    requires forall k :: 0 <= k < |buf| ==> buf[k] < 128
    ensures IntEnd(buf) == 0
  {
  }

  lemma {:induction false} SumNext(buf: seq<Byte>, n: nat)
    requires n < |buf|
    ensures Sum(buf, n + 1) == Sum(buf, n) + (buf[n] % 128) * Pow128(n)
  {
    if n > 0 {
      SumNext(buf[1..], n - 1);
      assert buf[1..][n - 1] == buf[n];
      var b, p := buf[n] % 128, Pow128(n - 1);
      assert 128 * (b * p) == b * (128 * p);
    }
  }

  /** Reading what was written gives the number back, whatever follows. */
  lemma {:induction false} RoundTrip(i: nat, rest: seq<Byte>)
    requires i < 0x1_0000_0000_0000_0000
    ensures Decode(Encode(i) + rest) == Done(i, |Encode(i)|) && |Encode(i)| <= 10
  {
    EncodeEnds(i, rest);
    EncodeSum(i, rest);
    EncodeSize(i, MAX_COMPRESSED_INT_SIZE);
  }

  lemma {:induction false} EncodeEnds(i: nat, rest: seq<Byte>)
    ensures IntEnd(Encode(i) + rest) == |Encode(i)|
  {
    if i >= 128 {
      EncodeEnds(i / 128, rest);
      assert (Encode(i) + rest)[1..] == Encode(i / 128) + rest;
    }
  }

  lemma {:induction false} EncodeSum(i: nat, rest: seq<Byte>)
    ensures Sum(Encode(i) + rest, |Encode(i)|) == i
  {
    var buf := Encode(i) + rest;
    if i >= 128 {
      EncodeSum(i / 128, rest);
      assert buf[1..] == Encode(i / 128) + rest;
    } else {
      assert Sum(buf[1..], 0) == 0;
    }
  }

  /** Byte `k` holds the `k`-th digit of the number to the base 128, and the last byte alone has its high bit set; there
      are no more bytes than the number has digits. */
  lemma {:induction false} EncodedBytes(i: nat, k: nat)
    requires k < |Encode(i)|
    ensures Encode(i)[k] == i / Pow128(k) % 128 + if k == |Encode(i)| - 1 then 128 else 0
    ensures i < Pow128(|Encode(i)|) && (|Encode(i)| > 1 ==> Pow128(|Encode(i)| - 1) <= i)
    decreases i
  {
    if i >= 128 {
      var rest := Encode(i / 128);
      EncodedBytes(i / 128, if k == 0 then 0 else k - 1);
      if k > 0 {
        DivideTwice(i, Pow128(k - 1));
      }
      var p := Pow128(|rest|);
      assert i / 128 < p ==> i < 128 * p;
      if |rest| > 1 {
        var q := Pow128(|rest| - 1);
        assert q <= i / 128 ==> 128 * q <= i;
      }
    } else {
      assert Pow128(1) == 128;
    }
  }

  lemma DivideTwice(i: nat, p: nat)
    requires p > 0
    ensures i / 128 / p == i / (128 * p)
  {
    var q, r := i / 128 / p, i / 128 % p;
    assert i / 128 == q * p + r;
    assert i == 128 * (q * p + r) + i % 128 == q * (128 * p) + (128 * r + i % 128);
    assert 128 * r + i % 128 < 128 * p;
    QuotientIs(i, q, 128 * p, 128 * r + i % 128);
  }

  lemma QuotientIs(i: nat, q: nat, d: nat, r: nat)
    requires i == q * d + r && r < d
    ensures i / d == q
  {
    var q2 := i / d;
    assert i == q2 * d + i % d;
    if q2 < q {
      OneMore(q, q2, d);
      assert false;
    }
    if q < q2 {
      OneMore(q2, q, d);
      assert false;
    }
  }

  lemma OneMore(a: nat, b: nat, d: nat)
    requires a > b
    ensures a * d >= b * d + d
  {
    assert a * d == (b + 1) * d + (a - b - 1) * d;
  }

  /** The reader stops the process exactly when the first ten bytes are there and none of them is the last of a
      number; it waits exactly when fewer are there. */
  lemma DecodeAbortsExactly(buf: seq<Byte>)
    ensures Decode(buf).Malformed? <==> |buf| >= 10 && forall k :: 0 <= k < 10 ==> buf[k] < 128
    ensures Decode(buf).Incomplete? <==> |buf| < 10 && forall k :: 0 <= k < |buf| ==> buf[k] < 128
  {
  }

  /** Every 64-bit number fits the ten bytes that are set aside for it. */
  lemma EncodeSize(i: nat, n: nat)
    requires i < TWO64 && n == MAX_COMPRESSED_INT_SIZE
    ensures |Encode(i)| <= n
  {
    assert Pow128(2) == 0x4000;
    assert Pow128(4) == 0x1000_0000;
    assert Pow128(6) == 0x400_0000_0000;
    assert Pow128(8) == 0x100_0000_0000_0000;
    assert Pow128(10) == 0x40_0000_0000_0000_0000;
    SizeBound(i, n);
  }

  lemma {:induction false} SizeBound(i: nat, n: nat)
    requires n > 0 && i < Pow128(n)
    ensures |Encode(i)| <= n
  {
    if i >= 128 {
      assert Pow128(1) == 128;
      SizeBound(i / 128, n - 1);
    }
  }

  /** A proper prefix of a number that was written is incomplete, never malformed. */
  lemma PrefixIsIncomplete(i: nat, n: nat)
    requires i < TWO64 && n < |Encode(i)|
    ensures Decode(Encode(i)[..n]) == Incomplete
  {
    EncodeEnds(i, []);
    assert Encode(i) + [] == Encode(i);
    EncodeSize(i, MAX_COMPRESSED_INT_SIZE);
    EndIsZero(Encode(i)[..n]);
  }

  /** More bytes do not change what a complete or malformed beginning says. */
  lemma {:induction false} DecodeExtends(buf: seq<Byte>, more: seq<Byte>)
    requires !Decode(buf).Incomplete?
    ensures Decode(buf + more) == Decode(buf)
  {
    var n := IntEnd(buf);
    if n > 0 {
      EndIs(buf + more, n);
      SumExtends(buf, more, n);
    } else if IntEnd(buf + more) > 0 {
      assert forall k :: 0 <= k < |buf| ==> (buf + more)[k] == buf[k];
    }
  }

  lemma {:induction false} SumExtends(buf: seq<Byte>, more: seq<Byte>, n: nat)
    requires n <= |buf|
    ensures Sum(buf + more, n) == Sum(buf, n)
  {
    if n > 0 {
      assert (buf + more)[1..] == buf[1..] + more;
      SumExtends(buf[1..], more, n - 1);
    }
  }
}
