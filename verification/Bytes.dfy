/** Big-endian byte strings and the numbers they stand for. */
module Bytes {
  import opened Bits

  type byte = x: int | 0 <= x < 256

  /** The unsigned number that a big-endian byte string stands for. */
  function Val(s: seq<byte>): nat {
    if s == [] then 0 else Val(s[..|s| - 1]) * 256 + s[|s| - 1]
  }

  /** The P4Runtime canonical form of a number: shortest, at least one byte. */
  function Canon(n: nat): (s: seq<byte>)
    ensures 1 <= |s|
  {
    if n < 256 then [n] else Canon(n / 256) + [n % 256]
  }

  /** No redundant leading zero byte, and one byte for zero. */
  predicate Canonical(s: seq<byte>) {
    1 <= |s| && (|s| == 1 || s[0] != 0)
  }

  lemma {:induction false} ValCanon(n: nat)
    ensures Val(Canon(n)) == n
    ensures Canonical(Canon(n))
  {
    if n >= 256 {
      ValCanon(n / 256);
      var c := Canon(n);
      assert c[..|c| - 1] == Canon(n / 256);
      if |Canon(n / 256)| == 1 {
        assert Val(Canon(n / 256)) == c[0];
      }
    } else {
      assert Val([n]) == Val([]) * 256 + n;
    }
  }

  lemma {:induction false} ValSnoc(s: seq<byte>, b: byte)
    ensures Val(s + [b]) == Val(s) * 256 + b
  {
    assert (s + [b])[..|s|] == s;
  }

  lemma {:induction false} ValAppend(a: seq<byte>, b: seq<byte>)
    ensures Val(a + b) == Val(a) * Pow2(8 * |b|) + Val(b)
    decreases |b|
  {
    if b == [] {
      assert a + b == a;
    } else {
      var c, d := b[..|b| - 1], b[|b| - 1];
      assert a + b == (a + c) + [d] && b == c + [d];
      ValSnoc(a + c, d);
      ValSnoc(c, d);
      ValAppend(a, c);
      Pow2Add(8 * |c|, 8);
      Pow2Bytes();
      assert 8 * |b| == 8 * |c| + 8;
      TimesByte(Val(a), Pow2(8 * |c|));
    }
  }

  lemma TimesByte(x: nat, p: nat)
    ensures x * p * 256 == x * (p * 256)
  {
  }

  lemma {:induction false} ValBound(s: seq<byte>)
    ensures Val(s) < Pow2(8 * |s|)
  {
    if s == [] {
    } else {
      ValBound(s[..|s| - 1]);
      Pow2Add(8 * (|s| - 1), 8);
      Pow2Bytes();
    }
  }

  lemma ValSingle(b: byte)
    ensures Val([b]) == b
  {
    ValSnoc([], b);
    assert [] + [b] == [b];
  }

  lemma ValCons(s: seq<byte>)
    requires s != []
    ensures Val(s) == s[0] * Pow2(8 * (|s| - 1)) + Val(s[1..])
    ensures Val(s[1..]) < Pow2(8 * (|s| - 1))
  {
    var first, rest := [s[0]], s[1..];
    assert s == first + rest;
    ValSingle(s[0]);
    ValAppend(first, rest);
    ValBound(rest);
  }

  /** Leading zero bytes do not change the number. */
  lemma {:induction false} ValDropZeros(s: seq<byte>, k: nat)
    requires k <= |s|
    requires forall i :: 0 <= i < k ==> s[i] == 0
    ensures Val(s) == Val(s[k..])
    decreases k
  {
    if k == 0 {
      assert s[0..] == s;
    } else {
      ValCons(s);
      ValDropZeros(s[1..], k - 1);
      assert s[1..][k - 1..] == s[k..];
    }
  }

  lemma ValZeros(s: seq<byte>)
    requires forall i :: 0 <= i < |s| ==> s[i] == 0
    ensures Val(s) == 0
  {
    ValDropZeros(s, |s|);
  }

  lemma {:induction false} ValZeroOnly(s: seq<byte>)
    requires Val(s) == 0
    ensures forall i :: 0 <= i < |s| ==> s[i] == 0
  {
    if s == [] {
    } else {
      ValZeroOnly(s[..|s| - 1]);
      forall i | 0 <= i < |s| ensures s[i] == 0 {
        if i < |s| - 1 {
          assert s[i] == s[..|s| - 1][i];
        }
      }
    }
  }

  /** A nonzero first byte puts the number above every shorter string. */
  lemma ValLower(s: seq<byte>)
    requires s != [] && s[0] != 0
    ensures Pow2(8 * (|s| - 1)) <= Val(s)
  {
    ValCons(s);
    MulStrict(s[0], Pow2(8 * (|s| - 1)));
  }

  /** A canonical string is the only canonical string of its number. */
  lemma {:induction false} CanonVal(s: seq<byte>)
    requires Canonical(s)
    ensures Canon(Val(s)) == s
  {
    var n := |s| - 1;
    var front := s[..n];
    assert s == front + [s[n]];
    if n == 0 {
      assert Val(front) == 0;
    } else {
      CanonVal(front);
      ValLower(front);
      DivMod(Val(front), 256, s[n]);
      assert Val(s) >= 256;
    }
  }

  lemma CanonInjective(m: nat, n: nat)
    requires Canon(m) == Canon(n)
    ensures m == n
  {
    ValCanon(m);
    ValCanon(n);
  }

  /** No encoding of the same number is shorter than the canonical one. */
  lemma CanonShortest(s: seq<byte>)
    requires s != []
    ensures |Canon(Val(s))| <= |s|
  {
    var c := Canon(Val(s));
    ValCanon(Val(s));
    if |c| > |s| {
      ValLower(c);
      ValBound(s);
      Pow2Monotone(8 * |s|, 8 * (|c| - 1));
    }
  }

  /** Three-way lexicographic comparison, as bytes.Compare. */
  function Compare(a: seq<byte>, b: seq<byte>): int {
    if a == [] then if b == [] then 0 else -1
    else if b == [] then 1
    else if a[0] != b[0] then if a[0] < b[0] then -1 else 1
    else Compare(a[1..], b[1..])
  }

  lemma {:induction false} CompareSameLength(a: seq<byte>, b: seq<byte>)
    requires |a| == |b|
    ensures Compare(a, b) > 0 <==> Val(a) > Val(b)
  {
    if a == [] {
    } else {
      ValCons(a);
      ValCons(b);
      CompareSameLength(a[1..], b[1..]);
      MulStrict(a[0] as int - b[0] as int, Pow2(8 * (|a| - 1)));
      Distribute(a[0], b[0], Pow2(8 * (|a| - 1)));
    }
  }

  lemma Distribute(x: int, y: int, p: int)
    ensures (x - y) * p == x * p - y * p
  {
  }

  /** On canonical strings, length first and then bytes is numeric order. */
  lemma LengthLexIsNumeric(a: seq<byte>, b: seq<byte>)
    requires Canonical(a) && Canonical(b)
    ensures (|a| > |b| || (|a| == |b| && Compare(a, b) > 0)) <==> Val(a) > Val(b)
  {
    if |a| == |b| {
      CompareSameLength(a, b);
    } else if |a| > |b| {
      LongerIsLarger(a, b);
    } else {
      LongerIsLarger(b, a);
    }
  }

  lemma LongerIsLarger(a: seq<byte>, b: seq<byte>)
    requires Canonical(a) && Canonical(b) && |a| > |b|
    ensures Val(a) > Val(b)
  {
    ValLower(a);
    ValBound(b);
    Pow2Monotone(8 * |b|, 8 * (|a| - 1));
  }
}
