/** shiftBytes: combining a byte list into a number with JavaScript's `<<`, and the
    big- and little-endian values it is meant to compute. */
module Combine {
  import opened Bytes

  function Pow2(e: nat): (p: nat)
    ensures p >= 1
  {
    if e == 0 then 1 else 2 * Pow2(e - 1)
  }

  function Pow256(e: nat): (p: nat)
    ensures p >= 1
  {
    if e == 0 then 1 else 256 * Pow256(e - 1)
  }

  lemma Pow2Plus8(e: nat)
    ensures Pow2(e + 8) == 256 * Pow2(e)
  {
    assert Pow2(e + 8) == 2 * Pow2(e + 7);
    assert Pow2(e + 7) == 2 * Pow2(e + 6);
    assert Pow2(e + 6) == 2 * Pow2(e + 5);
    assert Pow2(e + 5) == 2 * Pow2(e + 4);
    assert Pow2(e + 4) == 2 * Pow2(e + 3);
    assert Pow2(e + 3) == 2 * Pow2(e + 2);
    assert Pow2(e + 2) == 2 * Pow2(e + 1);
  }

  /** JavaScript's `x << s` for a byte x: the shift count is taken modulo 32 and the
      shifted value is read back as a signed 32-bit integer. */
  function ShiftLeft32(x: byte, s: nat): (r: int)
    ensures -0x8000_0000 <= r < 0x8000_0000
    ensures x as int * Pow2(s % 32) < 0x8000_0000 ==> r == x as int * Pow2(s % 32)
    ensures x as int * Pow2(s % 32) >= 0x8000_0000 ==> r != x as int * Pow2(s % 32)
  {
    var v := (x as int * Pow2(s % 32)) % 0x1_0000_0000;
    if v < 0x8000_0000 then v else v - 0x1_0000_0000
  }

  /** sumToReturn after the first k rounds of shiftBytes' loop over `list`: round i adds
      list[i] << ((list.length - 1 - i) * 8). */
  function ShiftSumPrefix(list: seq<byte>, k: nat): int
    requires k <= |list|
  {
    if k == 0 then 0
    else ShiftSumPrefix(list, k - 1) + ShiftLeft32(list[k - 1], (|list| - k) * 8)
  }

  /** What shiftBytes returns for `list`. */
  function ShiftSum(list: seq<byte>): int
  {
    ShiftSumPrefix(list, |list|)
  }

  /** The value of `s` read most significant byte first. */
  function BigEndian(s: seq<byte>): (v: nat)
    ensures v < Pow256(|s|)
  {
    if s == [] then 0
    else
      var init := BigEndian(s[..|s| - 1]);
      assert init * 256 <= (Pow256(|s| - 1) - 1) * 256;
      init * 256 + s[|s| - 1] as int
  }

  /** The value of `s` read least significant byte first. */
  function LittleEndian(s: seq<byte>): nat
  {
    if s == [] then 0 else s[0] as int + 256 * LittleEndian(s[1..])
  }

  /** shiftBytes, with its loop: it returns ShiftSum(list), which is the big-endian value
      of the list whenever the list has at most three bytes. */
  method ShiftBytes(list: seq<byte>) returns (sumToReturn: int)
    ensures sumToReturn == ShiftSum(list)
    ensures |list| <= 3 ==> sumToReturn == BigEndian(list)
  {
    sumToReturn := 0;
    for i := 0 to |list|
      invariant sumToReturn == ShiftSumPrefix(list, i)
    {
      sumToReturn := sumToReturn + ShiftLeft32(list[i], (|list| - 1 - i) * 8);
    }
    if |list| <= 3 {
      ShiftSumBigEndian(list);
    }
  }

  /** A byte shifted by 0, 8 or 16 bits stays below 2^31, so `<<` multiplies exactly. */
  lemma ShiftLeftExact(x: byte, j: nat)
    requires j <= 2
    ensures ShiftLeft32(x, j * 8) == x as int * Pow256(j)
  {
    Pow2Plus8(0);
    Pow2Plus8(8);
    var p := Pow256(j);
    if j == 0 {
      assert p == 1 && Pow2(j * 8 % 32) == 1;
    } else if j == 1 {
      assert p == 256 && Pow2(j * 8 % 32) == 256;
    } else {
      assert p == 256 * Pow256(1) == 65536 && Pow2(j * 8 % 32) == 65536;
    }
    assert x as int * p <= 255 * p;
  }

  lemma Distribute(a: int, x: int, p: int)
    ensures a * (256 * p) + x * p == (a * 256 + x) * p
    ensures (a * p + x) * 256 == a * (256 * p) + x * 256
  {
  }

  /** While every shifted byte fits in 31 bits, the first k rounds of the loop have
      added up the big-endian value of list[..k], scaled to its place in the list. */
  lemma {:induction false} ShiftSumPrefixExact(list: seq<byte>, k: nat)
    requires k <= |list| <= 3
    ensures ShiftSumPrefix(list, k) == BigEndian(list[..k]) * Pow256(|list| - k)
  {
    if k > 0 {
      var n := |list|;
      var init := BigEndian(list[..k - 1]);
      var p := Pow256(n - k);
      ShiftSumPrefixExact(list, k - 1);
      ShiftLeftExact(list[k - 1], n - k);
      assert list[..k][..k - 1] == list[..k - 1];
      assert BigEndian(list[..k]) == init * 256 + list[k - 1] as int;
      assert Pow256(n - (k - 1)) == 256 * p;
      assert ShiftSumPrefix(list, k) == init * (256 * p) + list[k - 1] as int * p;
      Distribute(init, list[k - 1] as int, p);
    }
  }

  /** For lists of at most three bytes shiftBytes computes the big-endian value. */
  lemma ShiftSumBigEndian(list: seq<byte>)
    requires |list| <= 3
    ensures ShiftSum(list) == BigEndian(list)
  {
    ShiftSumPrefixExact(list, |list|);
    var whole := ShiftSumPrefix(list, |list|);
    assert Pow256(|list| - |list|) == 1;
    assert list[..|list|] == list;
    assert whole == BigEndian(list);
  }

  /** After its first round, shiftBytes' loop adds up the rest of the list exactly as it
      would for the rest alone: the shift of each later byte depends only on how many
      bytes follow it. */
  lemma {:induction false} ShiftSumPrefixTail(list: seq<byte>, k: nat)
    requires 1 <= k <= |list|
    ensures ShiftSumPrefix(list, k) == ShiftSumPrefix(list, 1) + ShiftSumPrefix(list[1..], k - 1)
  {
    if k > 1 {
      ShiftSumPrefixTail(list, k - 1);
    }
  }

  /** Big-endian, the first byte is worth 256 to the power of the number of bytes after it. */
  lemma {:induction false} BigEndianCons(x: byte, t: seq<byte>)
    ensures BigEndian([x] + t) == x as int * Pow256(|t|) + BigEndian(t)
    decreases |t|
  {
    var s := [x] + t;
    if t == [] {
      assert s[..0] == [];
    } else {
      var ti := t[..|t| - 1];
      var last := t[|t| - 1] as int;
      assert s[..|s| - 1] == [x] + ti;
      assert s[|s| - 1] as int == last;
      BigEndianCons(x, ti);
      var p := Pow256(|ti|);
      var b := BigEndian(ti);
      assert BigEndian(s) == (x as int * p + b) * 256 + last;
      assert BigEndian(t) == b * 256 + last;
      assert Pow256(|t|) == 256 * p;
      Distribute(x as int, b, p);
    }
  }

  /** With four bytes the top byte is shifted by 24 into the sign bit: from 0x80 on,
      shiftBytes gives the big-endian value minus 2^32, a negative number. */
  lemma ShiftSumFourBytes(list: seq<byte>)
    requires |list| == 4
    ensures list[0] < 0x80 ==> ShiftSum(list) == BigEndian(list)
    ensures list[0] >= 0x80 ==> ShiftSum(list) == BigEndian(list) - 0x1_0000_0000 < 0
  {
    var tail := list[1..];
    ShiftSumPrefixTail(list, 4);
    ShiftSumBigEndian(tail);
    assert list == [list[0]] + tail;
    BigEndianCons(list[0], tail);
    assert Pow256(3) == 0x100_0000;
    ShiftLeftTop(list[0]);
    assert ShiftSumPrefix(list, 1) == ShiftLeft32(list[0], 24);
  }

  lemma ShiftLeftTop(x: byte)
    ensures ShiftLeft32(x, 24) == if x < 0x80 then x as int * 0x100_0000
                                  else x as int * 0x100_0000 - 0x1_0000_0000
  {
    Pow2Plus8(0);
    Pow2Plus8(8);
    Pow2Plus8(16);
    assert Pow2(24 % 32) == 0x100_0000;
    var m := x as int * 0x100_0000;
    assert 0 <= m < 0x1_0000_0000;
    assert m % 0x1_0000_0000 == m;
    if x < 0x80 {
      assert m < 0x8000_0000;
    } else {
      assert m >= 0x8000_0000;
    }
  }

  /** Reversing a list and reading it big-endian reads the original little-endian. */
  lemma {:induction false} BigEndianOfReverse(s: seq<byte>)
    ensures BigEndian(Reverse(s)) == LittleEndian(s)
    decreases |s|
  {
    if s != [] {
      var r := Reverse(s);
      assert r == Reverse(s[1..]) + [s[0]];
      assert r[..|r| - 1] == Reverse(s[1..]);
      BigEndianOfReverse(s[1..]);
    }
  }
}
