/** Binary numerals: conversion, counting with a ripple carry, and Gray codes. */
module Binary {
  import opened Basics

  function Pow2(n: nat): (r: nat)
    ensures r > 0
  {
    if n == 0 then 1 else 2 * Pow2(n - 1)
  }

  predicate IsBinary(s: string) {
    forall i :: 0 <= i < |s| ==> s[i] == '0' || s[i] == '1'
  }

  function Bit(c: char): nat {
    if c == '1' then 1 else 0
  }

  /** `int(s, 2)` on a string of binary digits. */
  function Bin2Int(s: string): nat {
    if s == "" then 0 else 2 * Bin2Int(s[..|s| - 1]) + Bit(s[|s| - 1])
  }

  // ---------- int2bin ----------

  datatype Converted = Bits(s: string) | ValueError | KeyError

  /** The digits of `hex(i)`, most significant first. */
  function HexDigits(i: nat): (ds: seq<nat>)
    ensures ds != [] && forall k :: 0 <= k < |ds| ==> ds[k] < 16
  {
    if i < 16 then [i] else HexDigits(i / 16) + [i % 16]
  }

  /** The table from hexadecimal digits to four bits. */
  function Nibble(d: nat): (s: string)
    requires d < 16
    ensures |s| == 4 && IsBinary(s)
  {
    ["0000", "0001", "0010", "0011", "0100", "0101", "0110", "0111",
     "1000", "1001", "1010", "1011", "1100", "1101", "1110", "1111"][d]
  }

  function Nibbles(ds: seq<nat>): (s: string)
    requires forall k :: 0 <= k < |ds| ==> ds[k] < 16
    ensures |s| == 4 * |ds| && IsBinary(s)
  {
    if ds == [] then "" else Nibbles(ds[..|ds| - 1]) + Nibble(ds[|ds| - 1])
  }

  /** Where `[:-n]` and `[-n:]` cut a string of this length; with n == 0 nothing is cut off in front. */
  function Cut(n: int, length: nat): (p: nat)
    ensures p <= length
  {
    if n > 0 then if length > n then length - n else 0
    else if -n < length then -n else length
  }

  function Zeros(n: int): string {
    if n <= 0 then "" else Zeros(n - 1) + ['0']
  }

  /** Cuts the digits to the length asked for, or fills them up with zeros. */
  function Shrink(result: string, n: int): Converted {
    var p := Cut(n, |result|);
    if '1' in result[..p] then ValueError else Bits(Zeros(n - |result[p..]|) + result[p..])
  }

  /** A negative number leaves an `x` in front of its hexadecimal digits, which the table does not know. */
  function Int2Bin(i: int, n: int): Converted {
    if i < 0 then KeyError else Shrink(Nibbles(HexDigits(i)), n)
  }

  lemma AppendBit(s: string, c: char)
    ensures Bin2Int(s + [c]) == 2 * Bin2Int(s) + Bit(c)
  {
    assert (s + [c])[..|s|] == s;
  }

  lemma TimesPow2(x: nat, n: nat)
    requires n > 0
    ensures x * Pow2(n) == 2 * (x * Pow2(n - 1))
  {
  }

  lemma NothingAppended(a: string)
    ensures a + "" == a && Bin2Int(a) == Bin2Int(a) * Pow2(0) + Bin2Int("")
  {
  }

  lemma {:induction false} AppendValue(a: string, b: string)
    ensures Bin2Int(a + b) == Bin2Int(a) * Pow2(|b|) + Bin2Int(b)
  {
    hide Bin2Int, Pow2;
    if b == "" {
      NothingAppended(a);
    } else {
      var n := |b| - 1;
      var front, last := b[..n], b[n];
      AppendValue(a, front);
      TimesPow2(Bin2Int(a), n + 1);
      AppendBit(a + front, last);
      AppendBit(front, last);
      assert front + [last] == b && (a + front) + [last] == a + b;
    }
  }

  lemma {:induction false} ValueBound(s: string)
    ensures Bin2Int(s) < Pow2(|s|)
  {
    if s != "" {
      ValueBound(s[..|s| - 1]);
    }
  }

  lemma NibbleValue(d: nat)
    requires d < 16
    ensures Bin2Int(Nibble(d)) == d && Pow2(4) == 16
  {
    var s := Nibble(d);
    assert s == [s[0]] + [s[1]] + [s[2]] + [s[3]];
    AppendValue([s[0]] + [s[1]] + [s[2]], [s[3]]);
    AppendValue([s[0]] + [s[1]], [s[2]]);
    AppendValue([s[0]], [s[1]]);
    OneBit(s[0]);
    OneBit(s[1]);
    OneBit(s[2]);
    OneBit(s[3]);
    assert Pow2(1) == 2 && Pow2(2) == 4;
  }

  lemma OneBit(c: char)
    ensures Bin2Int([c]) == Bit(c)
  {
    assert [c][..0] == "";
  }

  lemma {:induction false} HexValue(i: nat)
    ensures Bin2Int(Nibbles(HexDigits(i))) == i
  {
    var ds := HexDigits(i);
    assert ds[..|ds| - 1] == if i < 16 then [] else HexDigits(i / 16);
    NibbleValue(ds[|ds| - 1]);
    AppendValue(Nibbles(ds[..|ds| - 1]), Nibble(ds[|ds| - 1]));
    if i >= 16 {
      HexValue(i / 16);
    }
  }

  lemma {:induction false} ZerosValue(n: int)
    ensures |Zeros(n)| == (if n <= 0 then 0 else n) && IsBinary(Zeros(n)) && Bin2Int(Zeros(n)) == 0
  {
    if n > 0 {
      ZerosValue(n - 1);
      AppendBit(Zeros(n - 1), '0');
      hide Bin2Int;
    }
  }

  lemma {:induction false} NoOnesNoValue(s: string)
    requires IsBinary(s)
    ensures Bin2Int(s) == 0 <==> '1' !in s
  {
    if s != "" {
      var n := |s| - 1;
      NoOnesNoValue(s[..n]);
      assert s == s[..n] + [s[n]];
    }
  }

  lemma MultipleAtLeast(a: nat, b: nat)
    ensures a > 0 ==> a * b >= b
  {
  }

  lemma {:induction false} Pow2Monotonic(m: nat, n: nat)
    requires m <= n
    ensures Pow2(m) <= Pow2(n)
  {
    if m < n {
      Pow2Monotonic(m, n - 1);
    }
  }

  /** What is cut off is zero exactly if the number fits; what is kept is filled up with zeros. */
  lemma CutValue(high: string, low: string, n: nat)
    requires IsBinary(high) && IsBinary(low) && |low| <= n && (high == "" || |low| == n)
    ensures '1' in high <==> Bin2Int(high + low) >= Pow2(n)
    ensures '1' !in high ==>
              var s := Zeros(n - |low|) + low; |s| == n && IsBinary(s) && Bin2Int(s) == Bin2Int(high + low)
  {
    hide Bin2Int, Pow2, Zeros, IsBinary;
    AppendValue(high, low);
    NoOnesNoValue(high);
    ValueBound(low);
    if '1' in high {
      MultipleAtLeast(Bin2Int(high), Pow2(|low|));
    } else {
      assert Bin2Int(high) * Pow2(|low|) == 0;
      Pow2Monotonic(|low|, n);
      FilledUp(low, n);
    }
  }

  lemma FilledUp(low: string, n: nat)
    requires IsBinary(low) && |low| <= n
    ensures var s := Zeros(n - |low|) + low; |s| == n && IsBinary(s) && Bin2Int(s) == Bin2Int(low)
  {
    hide Bin2Int, Pow2, Zeros;
    ZerosValue(n - |low|);
    AppendValue(Zeros(n - |low|), low);
  }

  /**
   * How many digits there are in the end: n, or for n <= 0, where the slices count from the other end, what is left of
   * the given ones without the first -n.
   */
  function Places(n: int, length: nat): nat {
    if n > 0 then n else length - Cut(n, length)
  }

  lemma ShrinkCorrect(result: string, n: int)
    requires IsBinary(result)
    ensures var k, r := Places(n, |result|), Shrink(result, n);
            && !r.KeyError?
            && (r == ValueError <==> Bin2Int(result) >= Pow2(k))
            && (r.Bits? ==> |r.s| == k && IsBinary(r.s) && Bin2Int(r.s) == Bin2Int(result))
  {
    hide Bin2Int, Zeros, Pow2;
    var p := Cut(n, |result|);
    var high, low := result[..p], result[p..];
    assert result == high + low;
    CutValue(high, low, Places(n, |result|));
    if n <= 0 {
      NoZeros(n - |low|);
      NoZeros(0);
    }
  }

  lemma NoZeros(n: int)
    requires n <= 0
    ensures Zeros(n) == ""
  {
  }

  /**
   * A numeral with the value i, unless i is negative or too large for the places; for n >= 1 these are n, so the result
   * is the n-bit numeral of i, which exists exactly for 0 <= i < 2^n.
   */
  lemma Int2BinCorrect(i: int, n: int)
    ensures Int2Bin(i, n) == KeyError <==> i < 0
    ensures i >= 0 ==>
              var k, r := Places(n, 4 * |HexDigits(i)|), Int2Bin(i, n);
              && (r == ValueError <==> i >= Pow2(k))
              && (r.Bits? ==> |r.s| == k && IsBinary(r.s) && Bin2Int(r.s) == i)
  {
    if i >= 0 {
      HexValue(i);
      ShrinkCorrect(Nibbles(HexDigits(i)), n);
      hide Shrink, Bin2Int, IsBinary, Pow2;
    }
  }

  lemma {:induction false} SameValueSameNumeral(a: string, b: string)
    requires |a| == |b| && IsBinary(a) && IsBinary(b) && Bin2Int(a) == Bin2Int(b)
    ensures a == b
  {
    if a != "" {
      var n := |a| - 1;
      assert a == a[..n] + [a[n]] && b == b[..n] + [b[n]];
      hide Bin2Int;
      AppendBit(a[..n], a[n]);
      AppendBit(b[..n], b[n]);
      SameValueSameNumeral(a[..n], b[..n]);
    }
  }

  // ---------- binary_range ----------

  /** The digits are stored least significant first. */
  function LittleValue(v: seq<char>): nat {
    if v == [] then 0 else Bit(v[0]) + 2 * LittleValue(v[1..])
  }

  /** One more, with the carry out of the last place. */
  function Increment(v: seq<char>): (r: (seq<char>, nat))
    ensures |r.0| == |v|
  {
    if v == [] then ([], 1)
    else if v[0] == '0' then (['1'] + v[1..], 0)
    else (['0'] + Increment(v[1..]).0, Increment(v[1..]).1)
  }

  function Reversed(v: seq<char>): (s: string)
    ensures |s| == |v|
  {
    if v == [] then "" else Reversed(v[1..]) + [v[0]]
  }

  /** The increment is addition of one modulo 2^|v|, and its carry says whether it has wrapped round. */
  lemma {:induction false} IncrementAddsOne(v: seq<char>)
    requires IsBinary(v)
    ensures IsBinary(Increment(v).0) && Increment(v).1 <= 1
    ensures LittleValue(Increment(v).0) + Increment(v).1 * Pow2(|v|) == LittleValue(v) + 1
  {
    if v != [] {
      IncrementAddsOne(v[1..]);
      assert Increment(v).0[1..] == if v[0] == '0' then v[1..] else Increment(v[1..]).0;
    }
  }

  lemma {:induction false} ReversedValue(v: seq<char>)
    requires IsBinary(v)
    ensures IsBinary(Reversed(v)) && Bin2Int(Reversed(v)) == LittleValue(v)
  {
    if v != [] {
      ReversedValue(v[1..]);
      assert Reversed(v)[..|v| - 1] == Reversed(v[1..]);
    }
  }

  lemma IncrementFrom(v: seq<char>, i: nat)
    requires i < |v|
    ensures v[i] == '0' ==> Increment(v[i..]) == (['1'] + v[i + 1..], 0)
    ensures v[i] != '0' ==> Increment(v[i..]) == (['0'] + Increment(v[i + 1..]).0, Increment(v[i + 1..]).1)
  {
    assert v[i..][1..] == v[i + 1..];
  }

  lemma IncrementNothing(v: seq<char>)
    ensures v[..0] + Increment(v[0..]).0 == Increment(v).0 && Increment(v[0..]) == Increment(v)
    ensures v[|v|..] == [] && Increment([]) == ([], 1)
  {
    assert v[0..] == v;
  }

  /** Half-way through the increment of v0: the places before i are done, and t is the carry into place i. */
  ghost predicate Rippling(v: seq<char>, v0: seq<char>, i: nat, t: int) {
    && i <= |v| == |v0| && v[i..] == v0[i..]
    && if t == 1
       then v[..i] + Increment(v0[i..]).0 == Increment(v0).0 && Increment(v0[i..]).1 == Increment(v0).1
       else t == 0 && v == Increment(v0).0 && Increment(v0).1 == 0
  }

  lemma RippleStep(v: seq<char>, v0: seq<char>, i: nat)
    requires Rippling(v, v0, i, 1) && i < |v|
    ensures if v[i] == '0' then Rippling(v[i := '1'], v0, i + 1, 0) else Rippling(v[i := '0'], v0, i + 1, 1)
  {
    hide Increment;
    IncrementFrom(v0, i);
    assert v[i] == v[i..][0] == v0[i] && v[i + 1..] == v[i..][1..] == v0[i + 1..];
    if v[i] == '0' {
      assert v[i := '1'] == v[..i] + (['1'] + v0[i + 1..]);
    } else {
      var w := v[i := '0'];
      assert w[i + 1..] == v0[i + 1..] && w[..i + 1] == v[..i] + ['0'];
      assert w[..i + 1] + Increment(v0[i + 1..]).0 == v[..i] + (['0'] + Increment(v0[i + 1..]).0);
    }
  }

  /** The inner loop, on the array of digits and the array of carries. */
  method Ripple(v: array<char>, toggle: array<int>)
    requires v != toggle as object && toggle.Length == v.Length + 1
    requires toggle[0] == 1 && forall k :: 1 <= k < toggle.Length ==> toggle[k] == 0
    modifies v, toggle
    ensures v[..] == Increment(old(v[..])).0
    ensures toggle[v.Length] == Increment(old(v[..])).1
  {
    ghost var v0 := v[..];
    IncrementNothing(v0);
    var i := 0;
    while i < v.Length && toggle[i] == 1
      invariant i <= v.Length && Rippling(v[..], v0, i, toggle[i])
      invariant forall k :: i < k < toggle.Length ==> toggle[k] == 0
      decreases v.Length - i
    {
      hide Rippling;
      ghost var before := v[..];
      RippleStep(before, v0, i);
      if v[i] == '0' {
        v[i] := '1';
        toggle[i + 1] := 0;
        assert v[..] == before[i := '1'];
      } else {
        v[i] := '0';
        toggle[i + 1] := 1;
        assert v[..] == before[i := '0'];
      }
      i := i + 1;
    }
    assert v[..i] + [] == v[..i];
    assert i == v.Length ==> v[..i] == v[..] && v0[i..] == [];
  }

  datatype Range = Numerals(l: seq<string>) | IndexError

  /**
   * The numerals of 0, 1, 2, ... in order, as far as they have `bits` places. For no bits the list is empty. A list
   * times a negative number is empty, so for -1 the carry is found at once, and below that the index is out of range.
   */
  method BinaryRange(bits: int) returns (r: Range)
    ensures r.IndexError? <==> bits < -1
    ensures r.Numerals? ==> |r.l| == if bits <= 0 then 0 else Pow2(bits)
    ensures r.Numerals? ==> forall k :: 0 <= k < |r.l| ==> Int2Bin(k, bits) == Bits(r.l[k])
  {
    hide Int2Bin, Increment, LittleValue, Reversed, Pow2;
    var l: seq<string> := [];
    if bits < 0 {
      return if bits == -1 then Numerals(l) else IndexError;
    }
    var v := new char[bits](_ => '0');
    AllZero(v[..]);
    var toggle := new int[bits + 1](k => if k == 0 then 1 else 0);
    while toggle[bits] != 1
      invariant toggle.Length == bits + 1 && fresh(v) && fresh(toggle)
      invariant bits == 0 ==> toggle[bits] == 1 && l == []
      invariant bits > 0 ==> toggle[bits] == 0 || toggle[bits] == 1
      invariant IsBinary(v[..]) && |l| <= Pow2(bits)
      invariant bits > 0 && toggle[bits] == 1 ==> |l| == Pow2(bits)
      invariant bits > 0 && toggle[bits] != 1 ==> LittleValue(v[..]) == |l|
      invariant forall k :: 0 <= k < |l| ==> Int2Bin(k, bits) == Bits(l[k])
      decreases Pow2(bits) - |l|, 1 - toggle[bits]
    {
      NextNumeral(v[..], |l|);
      IncrementAddsOne(v[..]);
      var vCopy := v[..];
      l := l + [Reversed(vCopy)];
      toggle := new int[bits + 1](k => if k == 0 then 1 else 0);
      Ripple(v, toggle);
    }
    r := Numerals(l);
  }

  lemma {:induction false} AllZero(v: seq<char>)
    requires forall k :: 0 <= k < |v| ==> v[k] == '0'
    ensures LittleValue(v) == 0 && IsBinary(v)
  {
    if v != [] {
      AllZero(v[1..]);
    }
  }

  /** Read from the other end, the digits are the numeral of their value. */
  lemma NextNumeral(v: seq<char>, n: nat)
    requires v != [] && IsBinary(v) && LittleValue(v) == n
    ensures n < Pow2(|v|) && Int2Bin(n, |v|) == Bits(Reversed(v))
  {
    hide Int2Bin, Reversed, LittleValue, Bin2Int;
    ReversedValue(v);
    ValueBound(Reversed(v));
    Int2BinCorrect(n, |v|);
    SameValueSameNumeral(Int2Bin(n, |v|).s, Reversed(v));
  }

  // ---------- Gray codes ----------

  function Xor(a: nat, b: nat): nat {
    if a == 0 then b else if b == 0 then a else 2 * Xor(a / 2, b / 2) + One(a % 2 != b % 2)
  }

  function GrayEncode(i: nat): nat {
    Xor(i, i / 2)
  }

  function GrayDecode(g: nat): nat {
    if g == 0 then 0 else 2 * GrayDecode(g / 2) + One(g % 2 != GrayDecode(g / 2) % 2)
  }

  lemma XorZero(a: nat)
    ensures Xor(0, a) == a && Xor(a, 0) == a
  {
  }

  lemma XorStep(a: nat, b: nat)
    ensures Xor(a, b) == 2 * Xor(a / 2, b / 2) + One(a % 2 != b % 2)
  {
    if a == 0 || b == 0 {
      hide Xor;
      XorZero(a);
      XorZero(b);
      XorZero(a / 2);
      XorZero(b / 2);
    }
  }

  lemma GrayStep(i: nat)
    ensures GrayEncode(i) == 2 * GrayEncode(i / 2) + One(i % 2 != i / 2 % 2)
  {
    XorStep(i, i / 2);
  }

  lemma DecodeStep(h: nat, odd: bool)
    ensures GrayDecode(2 * h + One(odd)) == 2 * GrayDecode(h) + One(odd != (GrayDecode(h) % 2 == 1))
  {
    assert (2 * h + One(odd)) / 2 == h;
  }

  lemma {:induction false} DecodeEncode(i: nat)
    ensures GrayDecode(GrayEncode(i)) == i
  {
    if i > 0 {
      var h := i / 2;
      GrayStep(i);
      DecodeEncode(h);
      hide Xor, GrayEncode, GrayDecode;
      DecodeStep(GrayEncode(h), i % 2 != h % 2);
    }
  }

  lemma {:induction false} EncodeDecode(g: nat)
    ensures GrayEncode(GrayDecode(g)) == g
  {
    if g > 0 {
      var h := GrayDecode(g / 2);
      var i := 2 * h + One(g % 2 != h % 2);
      assert GrayDecode(g) == i;
      EncodeDecode(g / 2);
      hide Xor, GrayDecode, GrayEncode;
      GrayStep(i);
      assert i / 2 == h;
    }
  }

  lemma {:induction false} EncodeBound(i: nat, n: nat)
    ensures i < Pow2(n) <==> GrayEncode(i) < Pow2(n)
    decreases n
  {
    hide Xor, GrayEncode;
    if n == 0 {
      DecodeEncode(i);
      XorZero(0);
      GrayStep(0);
    } else {
      EncodeBound(i / 2, n - 1);
      GrayStep(i);
    }
  }

  /** On the numbers below 2^n the encoding is a bijection, with decoding as its inverse. */
  lemma GrayBijection(n: nat, x: nat)
    requires x < Pow2(n)
    ensures GrayEncode(x) < Pow2(n) && GrayDecode(GrayEncode(x)) == x
    ensures GrayDecode(x) < Pow2(n) && GrayEncode(GrayDecode(x)) == x
  {
    hide GrayEncode, GrayDecode, Pow2;
    EncodeBound(x, n);
    DecodeEncode(x);
    EncodeDecode(x);
    EncodeBound(GrayDecode(x), n);
  }

  /** Neighbours differ in exactly one bit. */
  lemma {:induction false} NeighboursDifferInOneBit(i: nat) returns (k: nat)
    ensures Xor(GrayEncode(i), GrayEncode(i + 1)) == Pow2(k)
  {
    hide Xor, GrayEncode;
    var a, b := GrayEncode(i), GrayEncode(i + 1);
    GrayStep(i);
    GrayStep(i + 1);
    XorStep(a, b);
    if i % 2 == 0 {
      assert (i + 1) / 2 == i / 2;
      XorSelf(GrayEncode(i / 2));
      k := 0;
    } else {
      assert (i + 1) / 2 == i / 2 + 1;
      var m := NeighboursDifferInOneBit(i / 2);
      k := m + 1;
    }
  }

  lemma {:induction false} XorSelf(a: nat)
    ensures Xor(a, a) == 0
  {
    if a > 0 {
      XorSelf(a / 2);
    }
  }
}
