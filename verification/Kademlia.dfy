/** Node ids, the XOR distance and bucket numbers. */
module Kademlia {

  predicate IsHexDigit(c: char) { '0' <= c <= '9' || 'a' <= c <= 'f' || 'A' <= c <= 'F' }

  function HexValue(c: char): (v: nat)
    requires IsHexDigit(c)
    ensures v < 16
  {
    if '0' <= c <= '9' then c as int - '0' as int
    else if 'a' <= c <= 'f' then c as int - 'a' as int + 10
    else c as int - 'A' as int + 10
  }

  function WithoutPrefix(id: string): string {
    if |id| >= 2 && id[..2] == "0x" then id[2..] else id
  }

  predicate IsHex(id: string) { forall i :: 0 <= i < |WithoutPrefix(id)| ==> IsHexDigit(WithoutPrefix(id)[i]) }

  function EvenDigits(id: string): (s: string)
    ensures |s| % 2 == 0
    ensures IsHex(id) ==> forall i :: 0 <= i < |s| ==> IsHexDigit(s[i])
  {
    if |WithoutPrefix(id)| % 2 == 1 then "0" + WithoutPrefix(id) else WithoutPrefix(id)
  }

  function Bytes(id: string): (b: seq<bv8>)
    requires IsHex(id)
    ensures |b| == |EvenDigits(id)| / 2
  {
    var s := EvenDigits(id);
    seq(|s| / 2, i requires 0 <= i < |s| / 2 => (HexValue(s[2 * i]) * 16 + HexValue(s[2 * i + 1])) as bv8)
  }

  // ----- distance

  /** The byte at position `i` of `b` when it is padded on the left to `n` bytes. */
  function ByteAt(b: seq<bv8>, n: nat, i: nat): bv8
    requires |b| <= n && i < n
  {
    if i >= n - |b| then b[i - (n - |b|)] else 0
  }

  function Longer(a: seq<bv8>, b: seq<bv8>): nat { if |a| > |b| then |a| else |b| }

  function XorBytes(a: seq<bv8>, b: seq<bv8>): (r: seq<bv8>)
    ensures |r| == Longer(a, b)
  {
    var n := Longer(a, b);
    seq(n, i requires 0 <= i < n => ByteAt(a, n, i) ^ ByteAt(b, n, i))
  }

  /** The number a byte string stands for, most significant byte first. */
  function Value(b: seq<bv8>): nat {
    if b == [] then 0 else Value(b[..|b| - 1]) * 256 + b[|b| - 1] as nat
  }

  function Distance(a: seq<bv8>, b: seq<bv8>): nat { Value(XorBytes(a, b)) }

  method XorDistance(a: seq<bv8>, b: seq<bv8>) returns (result: nat)
    ensures result == Distance(a, b)
  {
    var len := if |a| > |b| then |a| else |b|;
    result := 0;
    ghost var x := XorBytes(a, b);
    assert x[..0] == [];
    for i := 0 to len
      invariant result == Value(x[..i])
    {
      var aByte, bByte := ByteAt(a, len, i), ByteAt(b, len, i);
      var byte := aByte ^ bByte;
      assert x[i] == byte;
      ValueNext(x, i);
      result := result * 256 + byte as nat;
    }
    assert x[..len] == x;
  }

  lemma ValueNext(x: seq<bv8>, i: nat)
    requires i < |x|
    ensures Value(x[..i + 1]) == Value(x[..i]) * 256 + x[i] as nat
  {
    assert x[..i + 1][..i] == x[..i];
  }

  lemma DistanceSymmetric(a: seq<bv8>, b: seq<bv8>)
    ensures Distance(a, b) == Distance(b, a)
  {
    var x, y := XorBytes(a, b), XorBytes(b, a);
    forall i | 0 <= i < |x| ensures x[i] == y[i] {
      XorCommutes(ByteAt(a, |x|, i), ByteAt(b, |x|, i));
    }
    assert x == y;
  }

  lemma XorCommutes(x: bv8, y: bv8)
    ensures x ^ y == y ^ x
  {
  }

  lemma XorCancels(x: bv8, y: bv8, z: bv8)
    requires x ^ y == x ^ z
    ensures y == z
  {
    assert x ^ (x ^ y) == y && x ^ (x ^ z) == z;
  }

  lemma ByteInjective(x: bv8, y: bv8)
    requires x as nat == y as nat
    ensures x == y
  {
    assert x == (x as nat) as bv8 && y == (y as nat) as bv8;
  }

  lemma LastDigit(m: nat, x: nat, n: nat, y: nat)
    requires m * 256 + x == n * 256 + y && x < 256 && y < 256
    ensures m == n && x == y
  {
  }

  lemma {:induction false} ValueInjective(a: seq<bv8>, b: seq<bv8>)
    requires |a| == |b| && Value(a) == Value(b)
    ensures a == b
  {
    if a != [] {
      var n := |a| - 1;
      LastDigit(Value(a[..n]), a[n] as nat, Value(b[..n]), b[n] as nat);
      ByteInjective(a[n], b[n]);
      ValueInjective(a[..n], b[..n]);
      assert a == a[..n] + [a[n]] && b == b[..n] + [b[n]];
    }
  }

  lemma SameByte(a: seq<bv8>, b: seq<bv8>, c: seq<bv8>, n: nat, k: nat)
    requires |b| == |c| && n == Longer(a, b) && k < n && XorBytes(a, b)[k] == XorBytes(a, c)[k]
    ensures ByteAt(b, n, k) == ByteAt(c, n, k)
  {
    XorCancels(ByteAt(a, n, k), ByteAt(b, n, k), ByteAt(c, n, k));
  }

  /** From one id, each distance leads to one id of its length. */
  lemma DistanceUnidirectional(a: seq<bv8>, b: seq<bv8>, c: seq<bv8>)
    requires |b| == |c| && Distance(a, b) == Distance(a, c)
    ensures b == c
  {
    var x, y, n := XorBytes(a, b), XorBytes(a, c), Longer(a, b);
    ValueInjective(x, y);
    forall i | 0 <= i < |b| ensures b[i] == c[i] {
      SameByte(a, b, c, n, i + (n - |b|));
    }
  }

  /** Combining twice gives the id back, and an id is at distance zero from itself. */
  lemma XorTwice(a: seq<bv8>, b: seq<bv8>)
    requires |a| == |b|
    ensures XorBytes(XorBytes(a, b), b) == a && Distance(a, a) == 0
  {
    forall i | 0 <= i < |a| ensures XorBytes(XorBytes(a, b), b)[i] == a[i] {
      assert (a[i] ^ b[i]) ^ b[i] == a[i];
    }
    ZeroValue(XorBytes(a, a));
  }

  lemma {:induction false} ZeroValue(b: seq<bv8>)
    requires forall i :: 0 <= i < |b| ==> b[i] == 0
    ensures Value(b) == 0
  {
    if b != [] {
      ZeroValue(b[..|b| - 1]);
    }
  }

  /** From nothing, an id is as far away as its value. */
  lemma DistanceFromZero(b: seq<bv8>)
    ensures Distance([], b) == Value(b)
  {
    forall i | 0 <= i < |b| ensures XorBytes([], b)[i] == b[i] {
      assert 0 ^ b[i] == b[i];
    }
    assert XorBytes([], b) == b;
  }

  // ----- what an id stands for

  function HexNumber(s: string): nat
    requires forall i :: 0 <= i < |s| ==> IsHexDigit(s[i])
  {
    if s == "" then 0 else 16 * HexNumber(s[..|s| - 1]) + HexValue(s[|s| - 1])
  }

  lemma LastTwo(s: string)
    requires |s| >= 2 && forall i :: 0 <= i < |s| ==> IsHexDigit(s[i])
    ensures HexNumber(s) == 256 * HexNumber(s[..|s| - 2]) + (HexValue(s[|s| - 2]) * 16 + HexValue(s[|s| - 1]))
  {
    var t := s[..|s| - 1];
    assert t[..|t| - 1] == s[..|s| - 2];
  }

  lemma TwoDigits(h: nat, l: nat)
    requires h < 16 && l < 16
    ensures ((h * 16 + l) as bv8) as nat == h * 16 + l
  {
  }

  /** The number that digits to the base 256 stand for. */
  ghost function NumberOf(v: seq<nat>): nat {
    if v == [] then 0 else NumberOf(v[..|v| - 1]) * 256 + v[|v| - 1]
  }

  lemma {:induction false} ValueIsNumber(b: seq<bv8>, v: seq<nat>)
    requires |v| == |b| && forall i :: 0 <= i < |b| ==> v[i] == b[i] as nat
    ensures Value(b) == NumberOf(v)
  {
    if b != [] {
      ValueIsNumber(b[..|b| - 1], v[..|v| - 1]);
    }
  }

  lemma {:induction false} PairsNumber(s: string, v: seq<nat>)
    requires |s| == 2 * |v| && forall i :: 0 <= i < |s| ==> IsHexDigit(s[i])
    requires forall i :: 0 <= i < |v| ==> v[i] == HexValue(s[2 * i]) * 16 + HexValue(s[2 * i + 1])
    ensures NumberOf(v) == HexNumber(s)
  {
    if v != [] {
      PairsNumber(s[..|s| - 2], v[..|v| - 1]);
      LastTwo(s);
    }
  }

  lemma {:induction false} LeadingZero(s: string)
    requires forall i :: 0 <= i < |s| ==> IsHexDigit(s[i])
    ensures HexNumber("0" + s) == HexNumber(s)
  {
    var z := "0" + s;
    if s == "" {
      assert z[..0] == "";
    } else {
      assert z[..|z| - 1] == "0" + s[..|s| - 1];
      LeadingZero(s[..|s| - 1]);
    }
  }

  /** The bytes of an id are those of its hexadecimal number, with or without the prefix. */
  lemma BytesValue(id: string)
    requires IsHex(id)
    ensures Value(Bytes(id)) == HexNumber(WithoutPrefix(id)) && |Bytes(id)| == (|WithoutPrefix(id)| + 1) / 2
  {
    var s, b := EvenDigits(id), Bytes(id);
    var v := seq(|b|, i requires 0 <= i < |b| => HexValue(s[2 * i]) * 16 + HexValue(s[2 * i + 1]));
    forall i | 0 <= i < |b| ensures v[i] == b[i] as nat {
      TwoDigits(HexValue(s[2 * i]), HexValue(s[2 * i + 1]));
    }
    ValueIsNumber(b, v);
    PairsNumber(s, v);
    LeadingZero(WithoutPrefix(id));
  }

  /** The prefix does not count, and is taken off once. */
  lemma PrefixOptional(s: string)
    ensures WithoutPrefix("0x" + s) == s
    ensures |s| < 2 || s[0] != '0' || s[1] != 'x' ==> WithoutPrefix(s) == s
  {
    assert ("0x" + s)[..2] == "0x" && ("0x" + s)[2..] == s;
    assert |s| >= 2 ==> s[..2][0] == s[0] && s[..2][1] == s[1];
  }

  /** The sixteen digits, in either case. */
  lemma HexDigits()
    ensures forall i :: 0 <= i < 16 ==> HexValue("0123456789abcdef"[i]) == i == HexValue("0123456789ABCDEF"[i])
  {
  }

  // ----- bucket numbers

  function Pow2(n: nat): (p: nat)
    ensures p >= 1
  {
    if n == 0 then 1 else 2 * Pow2(n - 1)
  }

  function BitLength(d: nat): nat {
    if d == 0 then 0 else 1 + BitLength(d / 2)
  }

  function Bucket(d: nat): nat {
    if d == 0 then 0 else BitLength(d) - 1
  }

  method BucketIndex(localId: seq<bv8>, remoteId: seq<bv8>) returns (idx: nat)
    ensures idx == Bucket(Distance(localId, remoteId))
  {
    var dist := XorDistance(localId, remoteId);
    if dist == 0 { return 0; }
    var bits, val: nat := 0, dist;
    while val > 0
      invariant bits + BitLength(val) == BitLength(dist)
    {
      bits := bits + 1;
      val := val / 2;
    }
    return bits - 1;
  }

  lemma {:induction false} BitLengthBounds(d: nat)
    requires d > 0
    ensures Pow2(BitLength(d) - 1) <= d < Pow2(BitLength(d))
  {
    if d > 1 {
      BitLengthBounds(d / 2);
    }
  }

  /** Bucket `i` holds the distances from 2^i up to 2^(i+1), and bucket 0 also distance 0. */
  lemma BucketRange(d: nat)
    ensures d < Pow2(Bucket(d) + 1) && if d > 0 then Pow2(Bucket(d)) <= d else Bucket(d) == 0
  {
    if d > 0 {
      BitLengthBounds(d);
    } else {
      assert Pow2(1) == 2 * Pow2(0);
    }
  }

  lemma {:induction false} Pow2Monotone(m: nat, n: nat)
    requires m <= n
    ensures Pow2(m) <= Pow2(n)
  {
    if m < n {
      Pow2Monotone(m, n - 1);
    }
  }

  lemma {:induction false} ValueBound(b: seq<bv8>)
    ensures Value(b) < Pow2(8 * |b|)
  {
    if b != [] {
      var n := |b| - 1;
      ValueBound(b[..n]);
      Pow2Times256(8 * n);
      assert Value(b) <= (Pow2(8 * n) - 1) * 256 + 255;
    }
  }

  lemma Pow2Times256(k: nat)
    ensures Pow2(k + 8) == 256 * Pow2(k)
  {
    assert Pow2(k + 8) == 2 * Pow2(k + 7) && Pow2(k + 7) == 2 * Pow2(k + 6) && Pow2(k + 6) == 2 * Pow2(k + 5);
    assert Pow2(k + 5) == 2 * Pow2(k + 4) && Pow2(k + 4) == 2 * Pow2(k + 3) && Pow2(k + 3) == 2 * Pow2(k + 2);
    assert Pow2(k + 2) == 2 * Pow2(k + 1) && Pow2(k + 1) == 2 * Pow2(k);
  }

  /** Ids of at most 256 bits fall into the 256 buckets. */
  lemma BucketFits(a: seq<bv8>, b: seq<bv8>)
    requires |a| <= 32 && |b| <= 32
    ensures Bucket(Distance(a, b)) < 256
  {
    var d := Distance(a, b);
    ValueBound(XorBytes(a, b));
    Pow2Monotone(8 * Longer(a, b), 256);
    BucketRange(d);
    if Bucket(d) >= 256 {
      Pow2Monotone(256, Bucket(d));
    }
  }
}
