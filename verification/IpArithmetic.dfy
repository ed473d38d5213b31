/** Byte-wise address arithmetic: adding a signed number with carry, and the
    first and last host addresses of a subnet. */
module IpArithmetic {

  import opened Wrappers

  type Byte = x: int | 0 <= x < 256

  // ---------- addresses as numbers ----------

  /** The big-endian value of an address. */
  function Value(ip: seq<Byte>): nat {
    if ip == [] then 0 else 256 * Value(ip[..|ip| - 1]) + ip[|ip| - 1]
  }

  function Pow256(n: nat): (m: nat)
    ensures m > 0
  {
    if n == 0 then 1 else 256 * Pow256(n - 1)
  }

  predicate IsInt32(x: int) {
    -0x8000_0000 <= x < 0x8000_0000
  }

  /** Wrap-around of 32-bit signed arithmetic. */
  function Wrap32(x: int): int {
    (x + 0x8000_0000) % 0x1_0000_0000 - 0x8000_0000
  }

  /** What the carry loop computes, from the last byte to the first. */
  function AddBytes(ip: seq<Byte>, carry: int): (out: seq<Byte>)
    ensures |out| == |ip|
  {
    if ip == [] || carry == 0 then ip
    else
      var v := Wrap32(ip[|ip| - 1] + carry);
      AddBytes(ip[..|ip| - 1], v / 256) + [v % 256]
  }

  /** One turn of the carry loop keeps the total. */
  lemma AddTurn(before: seq<Byte>, after: seq<Byte>, i: nat, carry: int)
    requires 0 < i <= |before| && carry != 0
    requires after == before[i - 1 := Wrap32(before[i - 1] + carry) % 256]
    ensures AddBytes(before[..i], carry) + before[i..] ==
            AddBytes(after[..i - 1], Wrap32(before[i - 1] + carry) / 256) + after[i - 1..]
  {
    var v := Wrap32(before[i - 1] + carry);
    var rest := AddBytes(before[..i - 1], v / 256);
    assert before[..i][..i - 1] == before[..i - 1] == after[..i - 1];
    assert AddBytes(before[..i], carry) == rest + [v % 256];
    assert after[i - 1..] == [v % 256] + before[i..];
    assert (rest + [v % 256]) + before[i..] == rest + ([v % 256] + before[i..]);
  }

  method AddToIP(ip: array<Byte>, delta: int) returns (out: array<Byte>)
    requires IsInt32(delta)
    ensures fresh(out) && out[..] == AddBytes(ip[..], delta)
  {
    out := new Byte[ip.Length](i requires 0 <= i < ip.Length reads ip => ip[i]);
    var carry := delta;
    var i := out.Length;
    assert out[..i] == ip[..] && out[i..] == [];
    while i > 0 && carry != 0
      invariant 0 <= i <= out.Length
      invariant AddBytes(ip[..], delta) == AddBytes(out[..i], carry) + out[i..]
    {
      label turn:
      var v := Wrap32(out[i - 1] + carry);
      ghost var before := out[..];
      out[i - 1] := v % 256;
      AddTurn(before, out[..], i, carry);
      assert before[..i] == old@turn(out[..i]) && before[i..] == old@turn(out[i..]);
      assert out[..][..i - 1] == out[..i - 1] && out[..][i - 1..] == out[i - 1..];
      carry := v / 256;
      i := i - 1;
    }
    assert out[..] == out[..i] + out[i..];
    assert AddBytes(out[..i], carry) == out[..i];
  }

  // ---------- remainders ----------

  lemma NonzeroMultiple(m: int, d: int)
    requires m > 0 && d != 0
    ensures m * d >= m || m * d <= -m
  {
    if d > 0 {
      assert m * d == m + m * (d - 1);
    } else {
      assert m * d == -m - m * (-d - 1);
    }
  }

  /** Quotient and remainder are unique. */
  lemma ModUnique(a: int, m: nat, q: int, r: int)
    requires m > 0 && 0 <= r < m && a == m * q + r
    ensures a % m == r && a / m == q
  {
    var d := q - a / m;
    assert m * d == m * q - m * (a / m);
    if d != 0 {
      NonzeroMultiple(m, d);
      assert false;
    }
  }

  lemma ModShift(a: int, k: int, m: nat)
    requires m > 0
    ensures (a + m * k) % m == a % m
  {
    var q := a / m;
    assert a + m * k == m * (q + k) + a % m;
    ModUnique(a + m * k, m, q + k, a % m);
  }

  /** Appending a digit r in base b. */
  lemma ScaleMod(x: int, m: nat, b: nat, r: int)
    requires m > 0 && b > 0 && 0 <= r < b
    ensures b * m > 0
    ensures (b * x + r) % (b * m) == b * (x % m) + r
  {
    var q := x / m;
    var y := x % m;
    NonzeroMultiple(b, m);
    assert b * x + r == b * m * q + (b * y + r) by {
      assert x == m * q + y;
      assert b * (m * q) == b * m * q;
    }
    assert b * y + r < b * m by {
      assert b * y <= b * (m - 1);
    }
    ModUnique(b * x + r, b * m, q, b * y + r);
  }

  lemma DifferentResidues(a: int, k: int, m: nat)
    requires 0 < k < m
    ensures (a - k) % m != a % m
  {
    var q, r := a / m, a % m;
    if r >= k {
      ModUnique(a - k, m, q, r - k);
    } else {
      assert m * (q - 1) == m * q - m;
      ModUnique(a - k, m, q - 1, r - k + m);
    }
  }

  // ---------- adding ----------

  lemma {:induction false} ValueBound(ip: seq<Byte>)
    ensures Value(ip) < Pow256(|ip|)
  {
    if ip != [] {
      ValueBound(ip[..|ip| - 1]);
    }
  }

  lemma AddStep(ip: seq<Byte>, carry: int)
    requires ip != []
    ensures var v := Wrap32(ip[|ip| - 1] + carry);
            carry != 0 ==>
            Value(AddBytes(ip, carry)) == 256 * Value(AddBytes(ip[..|ip| - 1], v / 256)) + v % 256
  {
    if carry != 0 {
      var v := Wrap32(ip[|ip| - 1] + carry);
      var out := AddBytes(ip, carry);
      assert out[..|out| - 1] == AddBytes(ip[..|ip| - 1], v / 256);
    }
  }

  lemma SmallIsOwnResidue(x: nat, m: nat)
    requires x < m
    ensures x % m == x
  {
  }

  lemma DigitSum(u: int, v: int, m: nat)
    requires m > 0
    ensures 256 * ((u + v / 256) % m) + v % 256 == (256 * u + v) % (256 * m)
  {
    ScaleMod(u + v / 256, m, 256, v % 256);
  }

  /** One byte of the loop, given that the sum came out as v. */
  lemma {:induction false} AddOnce(ip: seq<Byte>, carry: int, v: int, total: int)
    requires ip != [] && carry != 0 && v == Wrap32(ip[|ip| - 1] + carry)
    requires total == 256 * Value(ip[..|ip| - 1]) + v
    ensures Value(AddBytes(ip, carry)) == total % Pow256(|ip|)
    decreases |ip|, 0
  {
    var init := ip[..|ip| - 1];
    AddStep(ip, carry);
    AddWithoutOverflow(init, v / 256);
    DigitSum(Value(init), v, Pow256(|init|));
  }

  /** Without overflow the loop adds modulo 256^n. */
  lemma {:induction false} AddWithoutOverflow(ip: seq<Byte>, carry: int)
    requires -0x8000_0000 <= carry && (ip != [] ==> ip[|ip| - 1] + carry < 0x8000_0000)
    ensures Value(AddBytes(ip, carry)) == (Value(ip) + carry) % Pow256(|ip|)
    decreases |ip|, 1
  {
    if ip == [] {
    } else if carry == 0 {
      ValueBound(ip);
      SmallIsOwnResidue(Value(ip), Pow256(|ip|));
    } else {
      AddOnce(ip, carry, ip[|ip| - 1] + carry, Value(ip) + carry);
    }
  }

  lemma WrapDown(x: int)
    requires 0x8000_0000 <= x < 0x1_0000_0000
    ensures Wrap32(x) == x - 0x1_0000_0000
  {
    ModUnique(x + 0x8000_0000, 0x1_0000_0000, 1, x - 0x8000_0000);
  }

  /** An overflow in the first sum takes 2^32 off the total. */
  lemma AddWithOverflow(ip: seq<Byte>, delta: int)
    requires ip != [] && IsInt32(delta) && ip[|ip| - 1] + delta >= 0x8000_0000
    ensures Value(AddBytes(ip, delta)) == (Value(ip) + delta - 0x1_0000_0000) % Pow256(|ip|)
  {
    var v := ip[|ip| - 1] + delta - 0x1_0000_0000;
    WrapDown(ip[|ip| - 1] + delta);
    AddOnce(ip, delta, v, Value(ip) + delta - 0x1_0000_0000);
  }

  lemma SmallPowers()
    ensures Pow256(0) == 1 && Pow256(1) == 0x100 && Pow256(2) == 0x1_0000 && Pow256(3) == 0x100_0000
    ensures Pow256(4) == 0x1_0000_0000 && Pow256(5) == 0x100_0000_0000
  {
    assert Pow256(1) == 256 * Pow256(0);
    assert Pow256(2) == 256 * Pow256(1);
    assert Pow256(3) == 256 * Pow256(2);
    assert Pow256(4) == 256 * Pow256(3);
    assert Pow256(5) == 256 * Pow256(4);
  }

  lemma {:induction false} PowGrows(n: nat)
    requires n >= 5
    ensures Pow256(n) > 0x1_0000_0000
  {
    if n > 5 {
      PowGrows(n - 1);
    } else {
      SmallPowers();
    }
  }

  lemma OverflowHarmlessIff(total: int, n: nat)
    ensures (total - 0x1_0000_0000) % Pow256(n) == total % Pow256(n) <==> n <= 4
  {
    SmallPowers();
    if n <= 4 {
      var k := Pow256(4 - n);
      assert Pow256(n) * k == 0x1_0000_0000;
      ModShift(total - 0x1_0000_0000, k, Pow256(n));
    } else {
      PowGrows(n);
      DifferentResidues(total, 0x1_0000_0000, Pow256(n));
    }
  }

  /** The address plus delta, modulo 256^n. */
  ghost predicate AddsExactly(ip: seq<Byte>, delta: int) {
    Value(AddBytes(ip, delta)) == (Value(ip) + delta) % Pow256(|ip|)
  }

  lemma OverflowExactIff(ip: seq<Byte>, delta: int)
    requires ip != [] && IsInt32(delta) && ip[|ip| - 1] + delta >= 0x8000_0000
    ensures AddsExactly(ip, delta) <==> |ip| <= 4
  {
    var total := Value(ip) + delta;
    assert Value(AddBytes(ip, delta)) == (total - 0x1_0000_0000) % Pow256(|ip|) by {
      AddWithOverflow(ip, delta);
    }
    OverflowHarmlessIff(total, |ip|);
  }

  /** For every length n and every int32 delta, the result is address + delta
      modulo 256^n if and only if the first sum does not overflow or n <= 4: for
      IPv4 it always is. */
  lemma AddIsExactIff(ip: seq<Byte>, delta: int)
    requires IsInt32(delta)
    ensures AddsExactly(ip, delta) <==> |ip| <= 4 || ip[|ip| - 1] + delta < 0x8000_0000
  {
    if |ip| > 0 && ip[|ip| - 1] + delta >= 0x8000_0000 {
      OverflowExactIff(ip, delta);
    } else {
      assert AddsExactly(ip, delta) by {
        AddWithoutOverflow(ip, delta);
      }
    }
  }

  // ---------- subnets ----------

  function Pow2(n: nat): (m: nat)
    ensures m > 0
  {
    if n == 0 then 1 else 2 * Pow2(n - 1)
  }

  /** Bitwise conjunction and disjunction of the low n bits. */
  function And(a: nat, b: nat, n: nat): nat {
    if n == 0 then 0 else 2 * And(a / 2, b / 2, n - 1) + (if a % 2 == 1 && b % 2 == 1 then 1 else 0)
  }

  function Or(a: nat, b: nat, n: nat): nat {
    if n == 0 then 0 else 2 * Or(a / 2, b / 2, n - 1) + (if a % 2 == 1 || b % 2 == 1 then 1 else 0)
  }

  lemma {:induction false} BitsBound(a: nat, b: nat, n: nat)
    ensures And(a, b, n) < Pow2(n) && Or(a, b, n) < Pow2(n)
  {
    if n > 0 {
      BitsBound(a / 2, b / 2, n - 1);
    }
  }

  lemma Pow2OfEight()
    ensures Pow2(8) == 256
  {
    assert Pow2(4) == 16;
    assert Pow2(8) == 16 * Pow2(4);
  }

  function AndByte(a: Byte, b: Byte): Byte {
    BitsBound(a, b, 8); Pow2OfEight();
    And(a, b, 8)
  }

  function OrByte(a: Byte, b: Byte): Byte {
    BitsBound(a, b, 8); Pow2OfEight();
    Or(a, b, 8)
  }

  /** The host bits that prefix length p leaves in byte i, and that byte of the
      mask (prefix notation of section 3.1 of RFC 4632). */
  function HostBits(p: nat, i: nat): (k: nat)
    ensures k <= 8
  {
    if p >= 8 * (i + 1) then 0 else if p <= 8 * i then 8 else 8 * (i + 1) - p
  }

  lemma {:induction false} Pow2Grows(j: nat, n: nat)
    requires j <= n
    ensures Pow2(j) <= Pow2(n)
  {
    if j < n {
      Pow2Grows(j, n - 1);
    }
  }

  function MaskByte(p: nat, i: nat): Byte {
    Pow2Grows(HostBits(p, i), 8); Pow2OfEight();
    256 - Pow2(HostBits(p, i))
  }

  function Masked(ip: seq<Byte>, p: nat): (out: seq<Byte>)
    ensures |out| == |ip|
  {
    seq(|ip|, i requires 0 <= i < |ip| => AndByte(ip[i], MaskByte(p, i)))
  }

  /** The last address of the subnet: masked, with every host bit set. */
  function Broadcast(ip: seq<Byte>, p: nat): (out: seq<Byte>)
    ensures |out| == |ip|
  {
    seq(|ip|, i requires 0 <= i < |ip| => OrByte(AndByte(ip[i], MaskByte(p, i)), 255 - MaskByte(p, i)))
  }

  /** The first host as written: 1 is or-ed into every byte, not only the last. */
  function OnesSet(ip: seq<Byte>, p: nat): (out: seq<Byte>)
    ensures |out| == |ip|
  {
    seq(|ip|, i requires 0 <= i < |ip| => OrByte(AndByte(ip[i], MaskByte(p, i)), 1))
  }

  /** First and last host of a subnet given by any of its addresses; nothing
      unless the address is an IPv4 one. */
  method SubnetFirstAndLastHost(network: seq<Byte>, p: nat)
    returns (hosts: Option<(array<Byte>, array<Byte>)>)
    ensures hosts.Some? <==> |network| == 4
    ensures hosts.Some? ==>
              hosts.value.0[..] == OnesSet(network, p) &&
              hosts.value.1[..] == AddBytes(Broadcast(network, p), -1)
  {
    if |network| != 4 {
      return None;
    }
    var first := new Byte[4];
    var last := new Byte[4];
    for i := 0 to 4
      invariant first[..i] == OnesSet(network, p)[..i]
      invariant last[..i] == Broadcast(network, p)[..i]
    {
      var masked := AndByte(network[i], MaskByte(p, i));
      first[i] := OrByte(masked, 1);
      last[i] := OrByte(masked, 255 - MaskByte(p, i));
    }
    assert first[..] == OnesSet(network, p) && last[..] == Broadcast(network, p);
    var lastHost := AddToIP(last, -1);
    hosts := Some((first, lastHost));
  }

  lemma LowBits(a: nat, m: nat)
    requires m > 0
    ensures a % (2 * m) == 2 * (a / 2 % m) + a % 2
  {
    ScaleMod(a / 2, m, 2, a % 2);
  }

  lemma {:induction false} AndOnes(a: nat, n: nat)
    requires a < Pow2(n)
    ensures And(a, Pow2(n) - 1, n) == a
  {
    if n > 0 {
      AndOnes(a / 2, n - 1);
      assert (Pow2(n) - 1) / 2 == Pow2(n - 1) - 1 && (Pow2(n) - 1) % 2 == 1;
    }
  }

  lemma AndEven(a: nat, b: nat, n: nat)
    requires n > 0
    ensures And(a, 2 * b, n) == 2 * And(a / 2, b, n - 1)
  {
    assert 2 * b / 2 == b && 2 * b % 2 == 0;
  }

  lemma CutLowBits(a: nat, m: nat)
    requires m > 0
    ensures 2 * (a / 2 - a / 2 % m) == a - a % (2 * m)
  {
    LowBits(a, m);
  }

  /** Masking away the low j bits. */
  lemma {:induction false} AndMask(a: nat, j: nat, n: nat)
    requires a < Pow2(n) && j <= n
    ensures Pow2(j) <= Pow2(n)
    ensures And(a, Pow2(n) - Pow2(j), n) == a - a % Pow2(j)
    decreases n, 1
  {
    Pow2Grows(j, n);
    if j == 0 {
      AndOnes(a, n);
    } else {
      AndMaskStep(a, j, n);
    }
  }

  lemma {:induction false} AndMaskStep(a: nat, j: nat, n: nat)
    requires a < Pow2(n) && 0 < j <= n
    ensures Pow2(j) <= Pow2(n)
    ensures And(a, Pow2(n) - Pow2(j), n) == a - a % Pow2(j)
    decreases n, 0
  {
    var m := Pow2(j - 1);
    AndMask(a / 2, j - 1, n - 1);
    AndEven(a, Pow2(n - 1) - m, n);
    CutLowBits(a, m);
    assert Pow2(j) == 2 * m && Pow2(n) - Pow2(j) == 2 * (Pow2(n - 1) - m);
  }

  lemma {:induction false} OrZero(a: nat, n: nat)
    requires a < Pow2(n)
    ensures Or(a, 0, n) == a
  {
    if n > 0 {
      OrZero(a / 2, n - 1);
    }
  }

  /** Adding the low j bits to a number that has none of them. */
  lemma {:induction false} OrLow(a: nat, j: nat, n: nat)
    requires a < Pow2(n) && j <= n && a % Pow2(j) == 0
    ensures Or(a, Pow2(j) - 1, n) == a + Pow2(j) - 1
  {
    if j == 0 {
      OrZero(a, n);
    } else {
      var m := Pow2(j - 1);
      assert 2 * (a / 2 % m) + a % 2 == 0 by { LowBits(a, m); }
      OrLow(a / 2, j - 1, n - 1);
      assert (2 * m - 1) / 2 == m - 1 && (2 * m - 1) % 2 == 1;
    }
  }

  lemma Truncated(b: nat, m: nat)
    requires m > 0
    ensures 0 <= b - b % m <= b && (b - b % m) % m == 0
  {
    ModUnique(b - b % m, m, b / m, 0);
  }

  lemma MaskedByteValue(b: Byte, k: nat)
    requires k <= 8
    ensures 0 < Pow2(k) <= 256
    ensures AndByte(b, 256 - Pow2(k)) == b - b % Pow2(k)
  {
    Pow2Grows(k, 8); Pow2OfEight();
    AndMask(b, k, 8);
  }

  lemma LowFilled(b: nat, k: nat)
    requires k <= 8 && b < 256 && b % Pow2(k) == 0
    ensures 0 < Pow2(k) <= 256
    ensures OrByte(b, Pow2(k) - 1) == b + Pow2(k) - 1
  {
    Pow2Grows(k, 8); Pow2OfEight();
    OrLow(b, k, 8);
  }

  lemma LastByteValue(b: Byte, k: nat)
    requires k <= 8
    ensures 0 < Pow2(k) <= 256
    ensures AndByte(b, 256 - Pow2(k)) == b - b % Pow2(k)
    ensures OrByte(AndByte(b, 256 - Pow2(k)), Pow2(k) - 1) == b - b % Pow2(k) + Pow2(k) - 1
  {
    MaskedByteValue(b, k);
    Truncated(b, Pow2(k));
    LowFilled(b - b % Pow2(k), k);
  }

  lemma Pow2Sum(j: nat, k: nat)
    ensures Pow2(j + k) == Pow2(j) * Pow2(k)
  {
    if k > 0 {
      Pow2Sum(j, k - 1);
      assert Pow2(j + k) == 2 * Pow2(j + k - 1);
    }
  }

  /** The number of addresses of a subnet of n-byte addresses. */
  function Size(n: nat, p: nat): nat
    requires p <= 8 * n
  {
    Pow2(8 * n - p)
  }

  /** The network address as a number. */
  function Base(ip: seq<Byte>, p: nat): int
    requires p <= 8 * |ip|
  {
    Value(ip) - Value(ip) % Size(|ip|, p)
  }

  lemma WholeBytes(ip: seq<Byte>, p: nat)
    requires p >= 8 * |ip|
    ensures Masked(ip, p) == ip && Broadcast(ip, p) == ip
  {
    forall i | 0 <= i < |ip|
      ensures Masked(ip, p)[i] == ip[i] && Broadcast(ip, p)[i] == ip[i]
    {
      assert HostBits(p, i) == 0 && Pow2(0) == 1;
      LastByteValue(ip[i], 0);
    }
  }

  lemma SplitValue(ip: seq<Byte>, p: nat)
    requires ip != []
    ensures var n, k := |ip| - 1, HostBits(p, |ip| - 1);
            Pow2(k) > 0 &&
            Value(Masked(ip, p)) == 256 * Value(Masked(ip[..n], p)) + ip[n] - ip[n] % Pow2(k) &&
            Value(Broadcast(ip, p)) ==
              256 * Value(Broadcast(ip[..n], p)) + ip[n] - ip[n] % Pow2(k) + Pow2(k) - 1
  {
    var n := |ip| - 1;
    LastByteValue(ip[n], HostBits(p, n));
    assert Masked(ip, p)[..n] == Masked(ip[..n], p);
    assert Broadcast(ip, p)[..n] == Broadcast(ip[..n], p);
  }

  /** A byte of host bits only is 0 in the network address and 255 in the last. */
  lemma HostByteBase(ip: seq<Byte>, p: nat)
    requires ip != [] && p <= 8 * (|ip| - 1)
    ensures Size(|ip|, p) == 256 * Size(|ip| - 1, p)
    ensures Base(ip, p) == 256 * Base(ip[..|ip| - 1], p)
  {
    var n := |ip| - 1;
    Pow2Sum(8 * n - p, 8); Pow2OfEight();
    ScaleMod(Value(ip[..n]), Size(n, p), 256, ip[n]);
  }

  lemma HostByteValues(ip: seq<Byte>, p: nat)
    requires ip != [] && p <= 8 * (|ip| - 1)
    ensures Value(Masked(ip, p)) == 256 * Value(Masked(ip[..|ip| - 1], p))
    ensures Value(Broadcast(ip, p)) == 256 * Value(Broadcast(ip[..|ip| - 1], p)) + 255
  {
    var n := |ip| - 1;
    Pow2OfEight();
    assert Pow2(HostBits(p, n)) == 256;
    assert ip[n] % 256 == ip[n] by { SmallIsOwnResidue(ip[n], 256); }
    SplitValue(ip, p);
  }

  lemma SplitByteRemainder(ip: seq<Byte>, p: nat)
    requires ip != [] && 8 * (|ip| - 1) < p <= 8 * |ip|
    ensures Value(ip) % Size(|ip|, p) == ip[|ip| - 1] % Size(|ip|, p)
  {
    var u, b, k := Value(ip[..|ip| - 1]), ip[|ip| - 1], 8 * |ip| - p;
    Pow2Sum(k, 8 - k); Pow2OfEight();
    var c := Pow2(8 - k) * u;
    assert 256 * u == Pow2(k) * c;
    ModShift(b, c, Pow2(k));
  }

  lemma SplitByteBounds(ip: seq<Byte>, p: nat)
    requires ip != [] && 8 * (|ip| - 1) < p <= 8 * |ip|
    ensures Value(Masked(ip, p)) == Base(ip, p)
    ensures Value(Broadcast(ip, p)) == Base(ip, p) + Size(|ip|, p) - 1
  {
    var n := |ip| - 1;
    SplitValue(ip, p);
    WholeBytes(ip[..n], p);
    SplitByteRemainder(ip, p);
  }

  lemma HostByteBounds(ip: seq<Byte>, p: nat)
    requires ip != [] && p <= 8 * (|ip| - 1)
    requires var init := ip[..|ip| - 1];
             Value(Masked(init, p)) == Base(init, p) &&
             Value(Broadcast(init, p)) == Base(init, p) + Size(|init|, p) - 1
    ensures Value(Masked(ip, p)) == Base(ip, p)
    ensures Value(Broadcast(ip, p)) == Base(ip, p) + Size(|ip|, p) - 1
  {
    HostByteBase(ip, p);
    HostByteValues(ip, p);
  }

  /** Masking gives the network address, and setting the host bits the address
      Size - 1 above it. */
  lemma {:induction false} SubnetBounds(ip: seq<Byte>, p: nat)
    requires p <= 8 * |ip|
    ensures Value(Masked(ip, p)) == Base(ip, p)
    ensures Value(Broadcast(ip, p)) == Base(ip, p) + Size(|ip|, p) - 1
  {
    if ip == [] {
      WholeBytes(ip, p);
      assert Pow2(0) == 1;
    } else if p <= 8 * (|ip| - 1) {
      SubnetBounds(ip[..|ip| - 1], p);
      HostByteBounds(ip, p);
    } else {
      SplitByteBounds(ip, p);
    }
  }

  /** The last host is the network address + 2^(32 - p) - 2, modulo 2^32, and it
      lies in the subnet if and only if the subnet has more than one address. */
  lemma LastHost(ip: seq<Byte>, p: nat)
    requires |ip| == 4 && p <= 32
    ensures var last := Value(AddBytes(Broadcast(ip, p), -1));
            && last == (Base(ip, p) + Size(4, p) - 2) % 0x1_0000_0000
            && (p <= 31 ==> last == Base(ip, p) + Size(4, p) - 2)
            && (Base(ip, p) <= last < Base(ip, p) + Size(4, p) <==> p <= 31)
  {
    var top := Broadcast(ip, p);
    SubnetBounds(ip, p);
    AddIsExactIff(top, -1);
    SmallPowers();
    ValueBound(top);
    ValueBound(Masked(ip, p));
    if p <= 31 {
      Pow2Grows(1, 32 - p);
      SmallIsOwnResidue(Value(top) - 1, 0x1_0000_0000);
    } else {
      assert Pow2(0) == 1;
    }
  }

  lemma OrOne(b: Byte)
    ensures OrByte(b, 1) == if b % 2 == 0 then b + 1 else b
  {
    OrZero(b / 2, 7);
    Pow2OfEight();
    assert Or(b, 1, 8) == 2 * Or(b / 2, 0, 7) + 1;
  }

  lemma FourBytes(ip: seq<Byte>)
    requires |ip| == 4
    ensures Value(ip) == 0x100_0000 * (ip[0] as int) + 0x1_0000 * (ip[1] as int) + 0x100 * (ip[2] as int) + ip[3]
  {
    assert ip[..3][..2] == ip[..2] && ip[..2][..1] == ip[..1] && ip[..1][..0] == [];
    assert Value(ip) == 256 * Value(ip[..3]) + ip[3];
    assert Value(ip[..3]) == 256 * Value(ip[..2]) + ip[2];
    assert Value(ip[..2]) == 256 * Value(ip[..1]) + ip[1];
    assert Value(ip[..1]) == ip[0];
  }

  /** The first host is the network address + 1, as its comment says, only for
      networks whose first three bytes are odd and whose last is even. */
  lemma FirstHostIsNextIff(ip: seq<Byte>, p: nat)
    requires |ip| == 4 && p <= 32
    ensures var net := Masked(ip, p);
            Value(OnesSet(ip, p)) == Base(ip, p) + 1 <==>
              net[0] % 2 == 1 && net[1] % 2 == 1 && net[2] % 2 == 1 && net[3] % 2 == 0
  {
    var net, first := Masked(ip, p), OnesSet(ip, p);
    SubnetBounds(ip, p);
    FourBytes(net);
    FourBytes(first);
    OrOne(net[0]); OrOne(net[1]); OrOne(net[2]); OrOne(net[3]);
  }

  /** 192.168.100.0/24 gets 193.169.101.1 as its first host. */
  lemma FirstHostLeavesItsSubnet()
    ensures OnesSet([192, 168, 100, 0], 24) == [193, 169, 101, 1]
  {
    var ip: seq<Byte> := [192, 168, 100, 0];
    assert Pow2(0) == 1;
    Pow2OfEight();
    LastByteValue(192, 0); LastByteValue(168, 0); LastByteValue(100, 0); LastByteValue(0, 8);
    OrOne(192); OrOne(168); OrOne(100); OrOne(0);
    var first := OnesSet(ip, 24);
    assert first[0] == OrByte(AndByte(ip[0], MaskByte(24, 0)), 1);
    assert first[1] == OrByte(AndByte(ip[1], MaskByte(24, 1)), 1);
    assert first[2] == OrByte(AndByte(ip[2], MaskByte(24, 2)), 1);
    assert first[3] == OrByte(AndByte(ip[3], MaskByte(24, 3)), 1);
  }
}
