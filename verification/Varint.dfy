/**
 Base 128 varints (Protocol Buffers Encoding guide, "Base 128 Varints") as the
 TypeScript codec writes and reads them: numbers are ECMAScript doubles and a
 reader gives up after the eighth byte.
 */
module Varint {
  import opened Bytes

  datatype DecodeError =
    | VarintTooLong
    | UnexpectedEnd
    | UnsupportedWireType(wireType: nat)

  /** A value read off the front of a byte string, and how many bytes it took. */
  datatype Read<+T> = Read(value: T, used: nat)

  /** `v * 2 ** n`, by doubling. */
  function TimesPow2(v: nat, n: nat): nat {
    if n == 0 then v else 2 * TimesPow2(v, n - 1)
  }

  // ---- Double arithmetic -------------------------------------------------

  /** The multiple of `unit` nearest to `n`, ties to the even multiple. */
  function NearestMultiple(n: nat, unit: nat): nat
    requires unit > 0
  {
    var q, r := n / unit, n % unit;
    if 2 * r < unit || (2 * r == unit && q % 2 == 0) then q * unit else (q + 1) * unit
  }

  /** `n` as the nearest double, for the magnitudes a reader can meet (below 2^56). */
  function AsDouble(n: nat): nat {
    if n < TWO_53 then n
    else if n < 2 * TWO_53 then NearestMultiple(n, 2)
    else if n < 4 * TWO_53 then NearestMultiple(n, 4)
    else NearestMultiple(n, 8)
  }

  /** Rounding never crosses 2^53 downwards, so small results are exact results. */
  lemma AsDoubleExactBelow(n: nat)
    ensures AsDouble(n) < TWO_53 ==> AsDouble(n) == n
    ensures n < TWO_53 ==> AsDouble(n) == n
  {
  }

  // ---- Writing -----------------------------------------------------------

  function Encode(v: nat): (r: bytes)
    ensures |r| > 0
  {
    if v <= 0x7f then [v] else [v % 128 + 0x80] + Encode(v / 128)
  }

  /** `encodeVarint`: push low groups while the rest exceeds seven bits. */
  method EncodeVarint(value: nat) returns (r: bytes)
    ensures r == Encode(value)
  {
    r := [];
    var v := value;
    while v > 0x7f
      invariant r + Encode(v) == Encode(value)
      decreases v
    {
      assert Encode(v) == [v % 128 + 0x80] + Encode(v / 128);
      assert r + Encode(v) == (r + [v % 128 + 0x80]) + Encode(v / 128);
      r := r + [v % 128 + 0x80];
      v := v / 128;
    }
    r := r + [v];
  }

  // ---- Reading -----------------------------------------------------------

  /** The reader's loop, at bit offset `shift` with `acc` summed so far. */
  function DecodeFrom(s: bytes, shift: nat, acc: nat): (r: Result<Read<nat>, DecodeError>)
    ensures r.Ok? ==> 1 <= r.value.used <= |s|
    decreases |s|
  {
    if s == [] then Err(UnexpectedEnd)
    else
      var sum := AsDouble(acc + TimesPow2(s[0] % 128, shift));
      if s[0] < 0x80 then Ok(Read(sum, 1))
      else if shift + 7 > 49 then Err(VarintTooLong)
      else
        var r :- DecodeFrom(s[1..], shift + 7, sum);
        Ok(Read(r.value, r.used + 1))
  }

  function Decode(s: bytes): (r: Result<Read<nat>, DecodeError>)
    ensures r.Ok? ==> 1 <= r.value.used <= |s|
  {
    DecodeFrom(s, 0, 0)
  }

  /** A successful read looks at nothing beyond the bytes it uses. */
  lemma {:induction false} DecodeFromIgnoresRest(s: bytes, t: bytes, shift: nat, acc: nat)
    requires DecodeFrom(s, shift, acc).Ok?
    requires DecodeFrom(s, shift, acc).value.used <= |t|
    requires s[..DecodeFrom(s, shift, acc).value.used] == t[..DecodeFrom(s, shift, acc).value.used]
    ensures DecodeFrom(t, shift, acc) == DecodeFrom(s, shift, acc)
    decreases |s|
  {
    var n := DecodeFrom(s, shift, acc).value.used;
    assert s[0] == s[..n][0] == t[..n][0] == t[0];
    if s[0] >= 0x80 {
      assert s[1..][..n - 1] == s[..n][1..] == t[..n][1..] == t[1..][..n - 1];
      DecodeFromIgnoresRest(s[1..], t[1..], shift + 7, AsDouble(acc + TimesPow2(s[0] % 128, shift)));
    }
  }

  lemma DecodeIgnoresRest(s: bytes, t: bytes)
    requires Decode(s).Ok? && Decode(s).value.used <= |t|
    requires s[..Decode(s).value.used] == t[..Decode(s).value.used]
    ensures Decode(t) == Decode(s)
  {
    DecodeFromIgnoresRest(s, t, 0, 0);
  }

  // ---- Which strings are accepted ------------------------------------------

  /** The number ends at byte `i`: it is the first below 0x80. */
  predicate EndsAt(s: bytes, i: nat) {
    i < |s| && s[i] < 0x80 && forall j | 0 <= j < i :: s[j] >= 0x80
  }

  /** How many bytes at the front do not end the number. */
  function Continued(s: bytes): (n: nat)
    ensures n <= |s|
  {
    if s == [] || s[0] < 0x80 then 0 else 1 + Continued(s[1..])
  }

  lemma {:induction false} ContinuedMeans(s: bytes)
    ensures forall j | 0 <= j < Continued(s) :: s[j] >= 0x80
    ensures Continued(s) < |s| ==> EndsAt(s, Continued(s))
    decreases |s|
  {
    if s != [] && s[0] >= 0x80 {
      ContinuedMeans(s[1..]);
      assert forall j | 1 <= j < |s| :: s[j] == s[1..][j - 1];
    }
  }

  /** At most `left` more bytes are read. */
  lemma {:induction false} AcceptedFrom(s: bytes, shift: nat, acc: nat, left: nat)
    requires shift + 7 * left == 56 && left > 0
    ensures
      var r := DecodeFrom(s, shift, acc);
      && (r.Ok? <==> Continued(s) < |s| && Continued(s) < left)
      && (r.Ok? ==> r.value.used == Continued(s) + 1)
      && (r == Err(VarintTooLong) <==> Continued(s) >= left)
      && (r.Err? ==> r.error == VarintTooLong || r.error == UnexpectedEnd)
    decreases left
  {
    if s != [] && s[0] >= 0x80 && left > 1 {
      AcceptedFrom(s[1..], shift + 7, AsDouble(acc + TimesPow2(s[0] % 128, shift)), left - 1);
    }
  }

  /**
   A number is accepted exactly when one of its first eight bytes ends it, and takes
   the bytes up to that one; it is too long exactly when eight bytes do not end it,
   and cut short otherwise.
   */
  lemma AcceptedExactly(s: bytes)
    ensures Decode(s).Ok? <==> exists i: nat :: i < 8 && EndsAt(s, i)
    ensures forall i: nat | i < 8 && EndsAt(s, i) :: Decode(s).Ok? && Decode(s).value.used == i + 1
    ensures Decode(s) == Err(VarintTooLong) <==> |s| >= 8 && forall j | 0 <= j < 8 :: s[j] >= 0x80
    ensures Decode(s).Err? ==> Decode(s).error == VarintTooLong || Decode(s).error == UnexpectedEnd
  {
    AcceptedFrom(s, 0, 0, 8);
    ContinuedMeans(s);
    forall i: nat | EndsAt(s, i)
      ensures i == Continued(s)
    {
    }
  }

  /** `d` is a multiple of `unit` nearest to `n`, and an even one if two are equally near. */
  predicate Nearest(n: nat, unit: nat, d: nat)
    requires unit > 0
  {
    && d % unit == 0
    && 2 * (d - n) <= unit && 2 * (n - d) <= unit
    && (2 * (d - n) == unit || 2 * (n - d) == unit ==> d / unit % 2 == 0)
  }

  lemma NearestByTwo(n: nat)
    ensures Nearest(n, 2, NearestMultiple(n, 2))
  {
    assert NearestMultiple(n, 2) == n / 2 * 2 || NearestMultiple(n, 2) == (n / 2 + 1) * 2;
  }

  lemma NearestByFour(n: nat)
    ensures Nearest(n, 4, NearestMultiple(n, 4))
  {
    assert NearestMultiple(n, 4) == n / 4 * 4 || NearestMultiple(n, 4) == (n / 4 + 1) * 4;
  }

  lemma NearestByEight(n: nat)
    ensures Nearest(n, 8, NearestMultiple(n, 8))
  {
    assert NearestMultiple(n, 8) == n / 8 * 8 || NearestMultiple(n, 8) == (n / 8 + 1) * 8;
  }

  /** A sum is rounded to the nearest double, and in the middle to the one with the even significand. */
  lemma AsDoubleIsNearest(n: nat)
    requires n < 8 * TWO_53
    ensures n < TWO_53 ==> AsDouble(n) == n
    ensures TWO_53 <= n < 2 * TWO_53 ==> Nearest(n, 2, AsDouble(n))
    ensures 2 * TWO_53 <= n < 4 * TWO_53 ==> Nearest(n, 4, AsDouble(n))
    ensures 4 * TWO_53 <= n ==> Nearest(n, 8, AsDouble(n))
  {
    NearestByTwo(n);
    NearestByFour(n);
    NearestByEight(n);
  }

  // ---- Scaling by powers of two --------------------------------------------

  lemma {:induction false} TimesPow2Sum(a: nat, b: nat, n: nat)
    ensures TimesPow2(a + b, n) == TimesPow2(a, n) + TimesPow2(b, n)
  {
    if n > 0 {
      TimesPow2Sum(a, b, n - 1);
    }
  }

  lemma {:induction false} TimesPow2Monotone(a: nat, b: nat, m: nat, n: nat)
    requires a <= b && m <= n
    ensures TimesPow2(a, m) <= TimesPow2(b, n)
    decreases n
  {
    if m < n {
      TimesPow2Monotone(a, b, m, n - 1);
    } else if n > 0 {
      TimesPow2Monotone(a, b, m - 1, n - 1);
    }
  }

  lemma {:induction false} TimesPow2Seven(v: nat, n: nat)
    ensures TimesPow2(v, n + 7) == 128 * TimesPow2(v, n) == TimesPow2(128 * v, n)
  {
    if n == 0 {
      assert TimesPow2(v, 7) == 2 * TimesPow2(v, 6) == 4 * TimesPow2(v, 5) == 8 * TimesPow2(v, 4);
      assert TimesPow2(v, 4) == 2 * TimesPow2(v, 3) == 4 * TimesPow2(v, 2) == 8 * TimesPow2(v, 1);
    } else {
      TimesPow2Seven(v, n - 1);
    }
  }

  /** Seven doublings at a time. */
  function Pow128(k: nat): nat {
    if k == 0 then 1 else 128 * Pow128(k - 1)
  }

  lemma {:induction false} SevenAtATime(k: nat)
    ensures TimesPow2(1, 7 * k) == Pow128(k)
  {
    if k > 0 {
      SevenAtATime(k - 1);
      TimesPow2Seven(1, 7 * (k - 1));
    }
  }

  lemma FourMore(n: nat)
    ensures TimesPow2(1, n + 4) == 16 * TimesPow2(1, n)
  {
    assert TimesPow2(1, n + 4) == 2 * TimesPow2(1, n + 3) == 4 * TimesPow2(1, n + 2);
    assert TimesPow2(1, n + 2) == 2 * TimesPow2(1, n + 1) == 4 * TimesPow2(1, n);
  }

  lemma OneAt53(k: nat)
    requires k == 7
    ensures TimesPow2(1, 7 * k + 4) == TWO_53
  {
    SevenAtATime(k);
    FourMore(7 * k);
    assert Pow128(k) == 128 * Pow128(k - 1) == 128 * 128 * Pow128(k - 2) == 128 * 128 * 128 * Pow128(k - 3);
    assert Pow128(k - 3) == 128 * Pow128(k - 4) == 128 * 128 * Pow128(k - 5) == 128 * 128 * 128 * Pow128(k - 6);
    assert Pow128(k - 6) == 128 * Pow128(k - 7) == 128;
  }

  /** The lowest seven bits of `v` and the rest, both at bit offset `n`. */
  lemma LowestGroup(v: nat, n: nat)
    ensures TimesPow2(v, n) == TimesPow2(v % 128, n) + TimesPow2(v / 128, n + 7)
  {
    TimesPow2Seven(v / 128, n);
    TimesPow2Sum(v % 128, 128 * (v / 128), n);
  }

  // ---- Round trip ----------------------------------------------------------

  /** A number that continues at `shift` and stays below 2^53 has room for one more group. */
  lemma RoomForNextGroup(v: nat, shift: nat)
    requires shift % 7 == 0 && v > 0x7f && TimesPow2(v, shift) < TWO_53
    ensures shift + 7 <= 49
  {
    TimesPow2Seven(1, shift);
    TimesPow2Monotone(128, v, shift, shift);
    if shift + 7 >= 53 {
      var k: nat := 7;
      OneAt53(k);
      TimesPow2Monotone(1, 1, 7 * k + 4, shift + 7);
    }
  }

  /** A group with its continuation bit, in front of what follows it. */
  lemma GroupInFront(group: byte, tail: bytes, rest: bytes)
    requires group < 0x80
    ensures
      var s := [group + 0x80] + tail + rest;
      s[0] >= 0x80 && s[0] % 128 == group && s[1..] == tail + rest
  {
    assert (group + 0x80) % 128 == group;
  }

  lemma {:induction false} RoundTripFrom(v: nat, rest: bytes, shift: nat, acc: nat)
    requires shift % 7 == 0
    requires acc + TimesPow2(v, shift) < TWO_53
    ensures DecodeFrom(Encode(v) + rest, shift, acc) == Ok(Read(acc + TimesPow2(v, shift), |Encode(v)|))
    decreases v
  {
    var s := Encode(v) + rest;
    if v > 0x7f {
      LowestGroup(v, shift);
      RoomForNextGroup(v, shift);
      GroupInFront(v % 128, Encode(v / 128), rest);
      AsDoubleExactBelow(acc + TimesPow2(v % 128, shift));
      RoundTripFrom(v / 128, rest, shift + 7, acc + TimesPow2(v % 128, shift));
    }
  }

  /** Every number below 2^53 is read back exactly, whatever follows it. */
  lemma RoundTrip(v: nat, rest: bytes)
    requires v < TWO_53
    ensures Decode(Encode(v) + rest) == Ok(Read(v, |Encode(v)|))
  {
    RoundTripFrom(v, rest, 0, 0);
  }

  // ---- The encoding is prefix-free and minimal -----------------------------

  lemma {:induction false} PrefixFree(a: nat, b: nat)
    requires Encode(a) <= Encode(b)
    ensures a == b
    decreases a
  {
    assert Encode(a)[0] == Encode(b)[0];
    if a > 0x7f {
      assert b > 0x7f;
      assert Encode(a)[1..] == Encode(a / 128) && Encode(b)[1..] == Encode(b / 128);
      PrefixFree(a / 128, b / 128);
    }
  }

  /** `m` bytes suffice for `v` exactly when `v` has at most `7 * m` bits. */
  lemma {:induction false} EncodeLength(v: nat, m: nat)
    requires m > 0
    ensures |Encode(v)| <= m <==> v < TimesPow2(1, 7 * m)
    decreases v
  {
    TimesPow2Seven(1, 7 * (m - 1));
    if m == 1 {
    } else if v > 0x7f {
      EncodeLength(v / 128, m - 1);
    } else {
      TimesPow2Monotone(1, 1, 7, 7 * m);
      TimesPow2Seven(1, 0);
    }
  }

  lemma {:induction false} DecodeBound(s: bytes, shift: nat, acc: nat)
    requires DecodeFrom(s, shift, acc).Ok? && DecodeFrom(s, shift, acc).value.value < TWO_53
    requires acc < TimesPow2(1, shift)
    ensures DecodeFrom(s, shift, acc).value.value < TimesPow2(1, shift + 7 * DecodeFrom(s, shift, acc).value.used)
    decreases |s|
  {
    var group := s[0] % 128;
    var exact := acc + TimesPow2(group, shift);
    assert exact < TimesPow2(1, shift + 7) by {
      TimesPow2Seven(1, shift);
      TimesPow2Sum(group, 1, shift);
      TimesPow2Monotone(group + 1, 128, shift, shift);
    }
    AsDoubleExactBelow(exact);
    if s[0] >= 0x80 {
      DecodeFromGrows(s[1..], shift + 7, AsDouble(exact));
      DecodeBound(s[1..], shift + 7, AsDouble(exact));
    }
  }

  lemma AsDoubleGrows(a: nat, d: nat)
    ensures a < TWO_53 ==> a <= AsDouble(a + d)
    ensures a >= TWO_53 ==> TWO_53 <= AsDouble(a + d)
  {
  }

  lemma {:induction false} DecodeFromGrows(s: bytes, shift: nat, acc: nat)
    requires DecodeFrom(s, shift, acc).Ok? && DecodeFrom(s, shift, acc).value.value < TWO_53
    ensures acc < TWO_53
    decreases |s|
  {
    AsDoubleGrows(acc, TimesPow2(s[0] % 128, shift));
    if s[0] >= 0x80 {
      DecodeFromGrows(s[1..], shift + 7, AsDouble(acc + TimesPow2(s[0] % 128, shift)));
    }
  }

  /** No byte string that reads as `v` is shorter than the one written for `v`. */
  lemma Minimal(s: bytes)
    requires Decode(s).Ok? && Decode(s).value.value < TWO_53
    ensures |Encode(Decode(s).value.value)| <= Decode(s).value.used
  {
    DecodeBound(s, 0, 0);
    EncodeLength(Decode(s).value.value, Decode(s).value.used);
  }
}
