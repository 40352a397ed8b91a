/**
 * Row alignments of the 2D house robber: the selection patterns of one row of
 * the grid, the little-endian binary counter that enumerates them, their dot
 * product with a row of values, and the stacking compatibility of two patterns.
 */
module Align {

  /** A row selection pattern: flag 1 at column k means house k of the row is robbed. */
  type Alignment = seq<int>

  /** Flags k - 1 and k are both 1: two neighbouring houses of the row are robbed. */
  predicate OnesAt(a: seq<int>, k: int)
    requires 1 <= k < |a|
  {
    a[k - 1] == 1 && a[k] == 1
  }

  /** The property that `Valid` decides: no two consecutive flags are both 1. */
  predicate NoAdjacentOnes(a: seq<int>) {
    forall k :: 1 <= k < |a| ==> !OnesAt(a, k)
  }

  /** Every flag is 0 or 1. */
  predicate Binary(a: seq<int>) {
    forall k :: 0 <= k < |a| ==> a[k] == 0 || a[k] == 1
  }

  /** Every entry is non-negative. */
  predicate NonNegativeRow(v: seq<int>) {
    forall k :: 0 <= k < |v| ==> v[k] >= 0
  }

  /** The input grid of house values: R rows of exactly C values. */
  predicate Rectangular(table: seq<seq<int>>, R: nat, C: nat) {
    |table| == R && forall i :: 0 <= i < R ==> |table[i]| == C
  }

  /** Every house value in the grid is non-negative. */
  predicate NonNegative(table: seq<seq<int>>) {
    forall i :: 0 <= i < |table| ==> NonNegativeRow(table[i])
  }

  /** The all-zero pattern of n columns (nothing robbed). */
  function Zeros(n: nat): (z: seq<int>)
    ensures |z| == n && Binary(z) && NoAdjacentOnes(z)
    ensures forall k :: 0 <= k < n ==> z[k] == 0
  {
    seq(n, _ => 0)
  }

  /** Scans the pattern remembering the previous flag; fails at the first 1 that follows a 1. */
  method Valid(a: seq<int>) returns (ok: bool)
    ensures ok <==> NoAdjacentOnes(a)
  {
    var last := 0;
    for k := 0 to |a|
      invariant last == if k == 0 then 0 else a[k - 1]
      invariant forall m :: 1 <= m < k ==> !OnesAt(a, m)
    {
      if last == 1 && a[k] == 1 {
        assert OnesAt(a, k);
        return false;
      }
      last := a[k];
    }
    return true;
  }

  /** The sum of v[k] * a[k] over the columns k of the pattern a. */
  function DotProduct(a: seq<int>, v: seq<int>): int
    requires |a| <= |v|
  {
    DotUpTo(a, v, |a|)
  }

  /** The sum of v[k] * a[k] over the first n columns. */
  function DotUpTo(a: seq<int>, v: seq<int>, n: nat): int
    requires n <= |a| <= |v|
  {
    if n == 0 then 0 else DotUpTo(a, v, n - 1) + v[n - 1] * a[n - 1]
  }

  /** Accumulates the dot product of a pattern with a vector at least as long. */
  method Dot(a: seq<int>, v: seq<int>) returns (total: int)
    requires |a| <= |v|
    ensures total == DotProduct(a, v)
  {
    total := 0;
    for k := 0 to |a|
      invariant total == DotUpTo(a, v, k)
    {
      total := total + v[k] * a[k];
    }
  }

  /** For two patterns of equal length the dot product is symmetric. */
  lemma {:induction false} DotProductSymmetric(a: seq<int>, b: seq<int>)
    requires |a| == |b|
    ensures DotProduct(a, b) == DotProduct(b, a)
  {
    DotUpToSymmetric(a, b, |a|);
  }

  lemma {:induction false} DotUpToSymmetric(a: seq<int>, b: seq<int>, n: nat)
    requires n <= |a| == |b|
    ensures DotUpTo(a, b, n) == DotUpTo(b, a, n)
  {
    if n > 0 {
      DotUpToSymmetric(a, b, n - 1);
    }
  }

  /** A pattern or a vector of zeros contributes nothing to a dot product. */
  lemma DotProductWithZeros(a: seq<int>, n: nat)
    requires |a| <= n
    ensures DotProduct(a, Zeros(n)) == 0
    ensures DotProduct(Zeros(|a|), a) == 0
  {
    DotUpToZeros(a, n, |a|);
  }

  lemma {:induction false} DotUpToZeros(a: seq<int>, n: nat, m: nat)
    requires m <= |a| <= n
    ensures DotUpTo(a, Zeros(n), m) == 0
    ensures DotUpTo(Zeros(|a|), a, m) == 0
  {
    if m > 0 {
      DotUpToZeros(a, n, m - 1);
    }
  }

  /** A 0/1 pattern has a non-negative dot product with a non-negative vector. */
  lemma DotProductNonNegative(a: seq<int>, v: seq<int>)
    requires |a| <= |v| && Binary(a) && NonNegativeRow(v)
    ensures DotProduct(a, v) >= 0
  {
    DotUpToNonNegative(a, v, |a|);
  }

  lemma {:induction false} DotUpToNonNegative(a: seq<int>, v: seq<int>, n: nat)
    requires n <= |a| <= |v| && Binary(a) && NonNegativeRow(v)
    ensures DotUpTo(a, v, n) >= 0
  {
    if n > 0 {
      DotUpToNonNegative(a, v, n - 1);
    }
  }

  /**
   * Two 0/1 patterns have dot product 0 exactly when no column is selected in
   * both, i.e. when one can sit directly above the other in the grid.
   */
  lemma ZeroDotMeansDisjoint(a: seq<int>, b: seq<int>)
    requires |a| <= |b| && Binary(a) && Binary(b)
    ensures DotProduct(a, b) == 0 <==> forall k :: 0 <= k < |a| ==> !(a[k] == 1 && b[k] == 1)
  {
    DotUpToDisjoint(a, b, |a|);
  }

  lemma {:induction false} DotUpToDisjoint(a: seq<int>, b: seq<int>, n: nat)
    requires n <= |a| <= |b| && Binary(a) && Binary(b)
    ensures DotUpTo(a, b, n) == 0 <==> forall k :: 0 <= k < n ==> !(a[k] == 1 && b[k] == 1)
  {
    if n > 0 {
      DotUpToDisjoint(a, b, n - 1);
      DotUpToNonNegative(a, b, n - 1);
    }
  }


  // ---------------------------------------------------------------------
  // The counter of generate_alignments

  function Pow2(n: nat): (p: nat)
    ensures p >= 1
  {
    if n == 0 then 1 else 2 * Pow2(n - 1)
  }

  /** Little-endian value of a counter: flag k weighs 2^k. */
  function Value(s: seq<int>): int {
    if |s| == 0 then 0 else s[0] + 2 * Value(s[1..])
  }

  /** The C-flag counter holding n mod 2^C (see CounterMod), least significant flag first. */
  function Counter(n: nat, C: nat): (s: seq<int>)
    ensures |s| == C
  {
    if C == 0 then [] else [n % 2] + Counter(n / 2, C - 1)
  }

  lemma {:induction false} CounterBinary(n: nat, C: nat)
    ensures Binary(Counter(n, C))
  {
    if C > 0 {
      CounterBinary(n / 2, C - 1);
      assert Counter(n, C)[1..] == Counter(n / 2, C - 1);
    }
  }

  /**
   * What the carry loop does to the counter: flip flags from index 0 upwards
   * and stop at the first flag that became 1.
   */
  function Increment(s: seq<int>): (r: seq<int>)
    ensures |r| == |s|
  {
    if |s| == 0 then []
    else if 1 - s[0] == 1 then [1 - s[0]] + s[1..]
    else [1 - s[0]] + Increment(s[1..])
  }

  /**
   * Increment flips the leading run of non-zero flags and the first zero flag
   * after it (flag t), and leaves the rest alone.
   */
  lemma {:induction false} IncrementFlipsPrefix(s: seq<int>, t: nat, r: seq<int>)
    requires t <= |s| == |r|
    requires forall k :: 0 <= k < t ==> s[k] != 0 && r[k] == 1 - s[k]
    requires t < |s| ==> s[t] == 0 && r[t] == 1 && forall k :: t < k < |s| ==> r[k] == s[k]
    ensures Increment(s) == r
  {
    if |s| > 0 {
      if t == 0 {
        assert r == [1] + s[1..];
      } else {
        IncrementFlipsPrefix(s[1..], t - 1, r[1..]);
        assert r == [r[0]] + r[1..];
      }
    }
  }

  lemma {:induction false} CounterAtZero(C: nat)
    ensures Counter(0, C) == Zeros(C)
  {
    if C > 0 {
      CounterAtZero(C - 1);
      assert Zeros(C) == [0] + Zeros(C - 1);
    }
  }

  /** One pass of the carry loop advances the counter by one (wrapping after 2^C - 1). */
  lemma {:induction false} IncrementAdvancesCounter(n: nat, C: nat)
    ensures Increment(Counter(n, C)) == Counter(n + 1, C)
  {
    if C > 0 {
      var s := Counter(n, C);
      assert s[0] == n % 2 && s[1..] == Counter(n / 2, C - 1);
      if n % 2 == 1 {
        IncrementAdvancesCounter(n / 2, C - 1);
        assert (n + 1) / 2 == n / 2 + 1 && (n + 1) % 2 == 0;
      } else {
        assert (n + 1) / 2 == n / 2 && (n + 1) % 2 == 1;
      }
    }
  }

  lemma {:induction false} ValueBounds(s: seq<int>)
    requires Binary(s)
    ensures 0 <= Value(s) < Pow2(|s|)
  {
    if |s| > 0 {
      ValueBounds(s[1..]);
    }
  }

  /** On a 0/1 counter the carry loop is binary increment modulo 2^C. */
  lemma {:induction false} IncrementValue(s: seq<int>)
    requires Binary(s)
    ensures Binary(Increment(s))
    ensures Value(Increment(s)) == (Value(s) + 1) % Pow2(|s|)
  {
    if |s| > 0 {
      var t := s[1..];
      assert Binary(t);
      ValueBounds(t);
      var m := Pow2(|t|);
      var p := Pow2(|s|);
      assert p == 2 * m;
      var v := Value(s);
      var vt := Value(t);
      assert v == s[0] + 2 * vt;
      if s[0] == 0 {
        var r := [1] + t;
        assert Increment(s) == r;
        assert r[1..] == t;
        assert Value(r) == 1 + 2 * vt;
        assert v + 1 < p;
        ModOfSmall(v + 1, p);
      } else {
        IncrementValue(t);
        var it := Increment(t);
        var r := [0] + it;
        assert Increment(s) == r;
        assert r[1..] == it;
        assert Value(r) == 2 * Value(it);
        assert Value(it) == (vt + 1) % m;
        if vt + 1 < m {
          ModOfSmall(vt + 1, m);
          ModOfSmall(v + 1, p);
        } else {
          assert vt + 1 == m;
          ModOfSelf(m);
          ModOfSelf(p);
        }
      }
    }
  }

  lemma ModOfSmall(x: int, p: int)
    requires 0 <= x < p
    ensures x % p == x
  {
  }

  lemma ModOfSelf(p: int)
    requires p > 0
    ensures p % p == 0
  {
  }

  /** Reading back a counter below 2^C gives its number. */
  lemma {:induction false} CounterValue(n: nat, C: nat)
    requires n < Pow2(C)
    ensures Value(Counter(n, C)) == n
  {
    if C > 0 {
      CounterValue(n / 2, C - 1);
      assert Counter(n, C)[1..] == Counter(n / 2, C - 1);
    }
  }

  /** Reading back any counter gives its number modulo 2^C: the counter wraps around. */
  lemma {:induction false} CounterMod(n: nat, C: nat)
    ensures Value(Counter(n, C)) == n % Pow2(C)
  {
    if C == 0 {
      assert n % 1 == 0;
    } else {
      CounterMod(n / 2, C - 1);
      assert Counter(n, C)[1..] == Counter(n / 2, C - 1);
      ModOfHalf(n, Pow2(C - 1));
    }
  }

  /** n mod 2q is n's low bit plus twice (n / 2) mod q. */
  lemma ModOfHalf(n: nat, q: nat)
    requires q >= 1
    ensures n % (2 * q) == n % 2 + 2 * ((n / 2) % q)
  {
    var r, h := n % 2, n / 2;
    var k, m := h / q, h % q;
    assert h == q * k + m;
    assert n == (2 * q) * k + (2 * m + r) by {
      assert n == 2 * h + r;
      assert 2 * (q * k) == (2 * q) * k;
    }
    ModUnique(n, 2 * q, k, 2 * m + r);
  }

  /** The remainder is the only r in [0, d) with n == d * k + r. */
  lemma ModUnique(n: int, d: int, k: int, r: int)
    requires d > 0 && 0 <= r < d && n == d * k + r
    ensures n % d == r
  {
    var k', r' := n / d, n % d;
    assert d * (k - k') == r' - r by {
      assert n == d * k' + r';
    }
    if k > k' {
      MulAtLeast(d, k - k');
    } else if k < k' {
      MulAtLeast(d, k' - k);
    }
  }

  lemma MulAtLeast(d: int, x: int)
    requires d > 0 && x >= 1
    ensures d * x >= d
  {
  }

  lemma HalveTwiceAndFlag(b: int, x: int)
    requires b == 0 || b == 1
    ensures (b + 2 * x) % 2 == b && (b + 2 * x) / 2 == x
  {
  }

  /** Every 0/1 pattern is the counter at its own value. */
  lemma {:induction false} CounterOfValue(s: seq<int>)
    requires Binary(s)
    ensures Value(s) >= 0 && Counter(Value(s), |s|) == s
  {
    if |s| > 0 {
      var t := s[1..];
      assert Binary(t);
      CounterOfValue(t);
      assert Value(s) == s[0] + 2 * Value(t);
      CounterCons(s[0], Value(t), |s|);
      assert [s[0]] + t == s;
    }
  }

  /** The counter at b + 2x starts with the flag b, followed by the counter at x. */
  lemma CounterCons(b: int, x: nat, C: nat)
    requires (b == 0 || b == 1) && C >= 1
    ensures Counter(b + 2 * x, C) == [b] + Counter(x, C - 1)
  {
    HalveTwiceAndFlag(b, x);
  }

  // ---------------------------------------------------------------------
  // generate_alignments

  /** The valid patterns among counter states 0 .. n - 1, in counter order. */
  function Emitted(C: nat, n: nat): seq<Alignment> {
    if n == 0 then []
    else Emitted(C, n - 1) + (if NoAdjacentOnes(Counter(n - 1, C)) then [Counter(n - 1, C)] else [])
  }

  /**
   * Runs the counter C * C times (the loop bound the code uses, not 2^C) and
   * keeps a copy of every state that passes `Valid`.
   */
  method GenerateAlignments(C: nat) returns (o: seq<Alignment>)
    ensures o == Emitted(C, C * C)
    ensures forall k :: 0 <= k < |o| ==> |o[k]| == C && Binary(o[k]) && NoAdjacentOnes(o[k])
    ensures C >= 1 ==> |o| >= 1 && o[0] == Zeros(C)
  {
    var N := C * C;
    var ali := new int[C](_ => 0);
    CounterAtZero(C);
    assert ali[..] == Counter(0, C);
    o := [];
    for i := 0 to N
      invariant ali[..] == Counter(i, C)
      invariant o == Emitted(C, i)
    {
      ghost var before := ali[..];
      var ok := Valid(ali[..]);
      if ok {
        o := o + [ali[..]];
      }
      assert o == Emitted(C, i + 1);
      AddOneAndCarry(ali);
      assert ali[..] == Increment(before);
      IncrementAdvancesCounter(i, C);
    }
    EmittedWellFormed(C, N);
    if C >= 1 {
      EmittedStartsWithZeros(C, N);
    }
  }

  /**
   * The carry loop of generate_alignments: flip flags from index 0 upwards,
   * stopping after the first flag that became 1.
   */
  method AddOneAndCarry(ali: array<int>)
    modifies ali
    ensures ali[..] == Increment(old(ali[..]))
  {
    ghost var before := ali[..];
    var j := 0;
    while j < ali.Length
      invariant 0 <= j <= ali.Length
      invariant forall k :: 0 <= k < j ==> before[k] != 0 && ali[k] == 1 - before[k]
      invariant forall k :: j <= k < ali.Length ==> ali[k] == before[k]
      decreases ali.Length - j
    {
      ali[j] := 1 - ali[j];
      if ali[j] == 1 {
        break;
      }
      j := j + 1;
    }
    IncrementFlipsPrefix(before, j, ali[..]);
  }

  lemma {:induction false} EmittedWellFormed(C: nat, n: nat)
    ensures forall k :: 0 <= k < |Emitted(C, n)| ==>
      |Emitted(C, n)[k]| == C && Binary(Emitted(C, n)[k]) && NoAdjacentOnes(Emitted(C, n)[k])
  {
    if n > 0 {
      EmittedWellFormed(C, n - 1);
      CounterBinary(n - 1, C);
    }
  }

  /** A valid counter state reached before step n is emitted. */
  lemma {:induction false} EmittedContainsCounter(C: nat, n: nat, m: nat)
    requires m < n && NoAdjacentOnes(Counter(m, C))
    ensures Counter(m, C) in Emitted(C, n)
  {
    if m < n - 1 {
      EmittedContainsCounter(C, n - 1, m);
    }
  }

  /** Everything emitted is a valid counter state reached before step n. */
  lemma {:induction false} EmittedFromCounter(C: nat, n: nat, x: seq<int>)
    requires x in Emitted(C, n)
    ensures NoAdjacentOnes(x) && exists m: nat :: m < n && x == Counter(m, C)
  {
    assert n > 0;
    var c := Counter(n - 1, C);
    var last := if NoAdjacentOnes(c) then [c] else [];
    assert Emitted(C, n) == Emitted(C, n - 1) + last;
    if x in Emitted(C, n - 1) {
      EmittedFromCounter(C, n - 1, x);
    } else {
      assert x in last;
      assert x == c && NoAdjacentOnes(c);
      var m: nat := n - 1;
      assert m < n && x == Counter(m, C);
    }
  }

  /** An emitted pattern is exactly a valid counter state reached before step n. */
  lemma EmittedMembers(C: nat, n: nat, x: seq<int>)
    ensures x in Emitted(C, n) <==> NoAdjacentOnes(x) && exists m: nat :: m < n && x == Counter(m, C)
  {
    if x in Emitted(C, n) {
      EmittedFromCounter(C, n, x);
    }
    if NoAdjacentOnes(x) && exists m: nat :: m < n && x == Counter(m, C) {
      var m: nat :| m < n && x == Counter(m, C);
      EmittedContainsCounter(C, n, m);
    }
  }

  /** Once the counter has been run at least once, the first pattern is all zeros. */
  lemma {:induction false} EmittedStartsWithZeros(C: nat, n: nat)
    requires n >= 1
    ensures |Emitted(C, n)| >= 1 && Emitted(C, n)[0] == Zeros(C)
  {
    if n == 1 {
      CounterAtZero(C);
    } else {
      EmittedStartsWithZeros(C, n - 1);
    }
  }

  /** Running the counter through all 2^C states emits every valid 0/1 pattern. */
  lemma EmittedComplete(C: nat, n: nat, s: seq<int>)
    requires Pow2(C) <= n
    requires |s| == C && Binary(s) && NoAdjacentOnes(s)
    ensures s in Emitted(C, n)
  {
    ValueBounds(s);
    CounterOfValue(s);
    EmittedMembers(C, n, s);
  }

  /** For 2, 3 and 4 columns the C * C bound covers all 2^C counter states. */
  lemma SquareBoundCompleteFrom2To4(C: nat, s: seq<int>)
    requires 2 <= C <= 4
    requires |s| == C && Binary(s) && NoAdjacentOnes(s)
    ensures s in Emitted(C, C * C)
  {
    assert Pow2(C) <= C * C by {
      if C == 2 { assert Pow2(2) == 4; }
      else if C == 3 { assert Pow2(3) == 8; }
      else { assert Pow2(4) == 16; }
    }
    EmittedComplete(C, C * C, s);
  }

  /** With one column the C * C bound stops after the zero state: [1] is never emitted. */
  lemma OneColumnOmitsSelection()
    ensures Emitted(1, 1 * 1) == [[0]]
    ensures NoAdjacentOnes([1]) && [1] !in Emitted(1, 1 * 1)
  {
    assert Counter(0, 1) == [0];
  }

  /** With three columns the counter wraps and the zero pattern is emitted twice. */
  lemma ThreeColumnCounters()
    ensures Counter(0, 3) == [0, 0, 0] && Counter(1, 3) == [1, 0, 0] && Counter(2, 3) == [0, 1, 0]
    ensures Counter(3, 3) == [1, 1, 0] && Counter(4, 3) == [0, 0, 1] && Counter(5, 3) == [1, 0, 1]
    ensures Counter(6, 3) == [0, 1, 1] && Counter(7, 3) == [1, 1, 1] && Counter(8, 3) == [0, 0, 0]
  {
  }

  /** The first five counter states with three columns are all valid. */
  lemma ThreeColumnsFirstFive()
    ensures Emitted(3, 5) == [[0, 0, 0], [1, 0, 0], [0, 1, 0], [0, 0, 1]]
  {
    ThreeColumnCounters();
    var z, a, b, c := [0, 0, 0], [1, 0, 0], [0, 1, 0], [0, 0, 1];
    assert Emitted(3, 1) == [z];
    assert Emitted(3, 2) == [z, a];
    assert Emitted(3, 3) == [z, a, b];
    assert !NoAdjacentOnes([1, 1, 0]) by { assert OnesAt([1, 1, 0], 1); }
    assert Emitted(3, 4) == [z, a, b];
  }

  lemma ThreeColumnsRepeatZeros()
    ensures Emitted(3, 3 * 3) == [[0, 0, 0], [1, 0, 0], [0, 1, 0], [0, 0, 1], [1, 0, 1], [0, 0, 0]]
  {
    ThreeColumnCounters();
    ThreeColumnsFirstFive();
    var z, a, b, c, d := [0, 0, 0], [1, 0, 0], [0, 1, 0], [0, 0, 1], [1, 0, 1];
    assert Emitted(3, 6) == [z, a, b, c, d];
    assert !NoAdjacentOnes([0, 1, 1]) by { assert OnesAt([0, 1, 1], 2); }
    assert Emitted(3, 7) == [z, a, b, c, d];
    assert !NoAdjacentOnes([1, 1, 1]) by { assert OnesAt([1, 1, 1], 1); }
    assert Emitted(3, 8) == [z, a, b, c, d];
    assert Emitted(3, 9) == [z, a, b, c, d, z];
  }

  /** With six columns the counter stops at 35, so the valid pattern worth 37 is missing. */
  lemma SixColumnsOmitPattern()
    ensures NoAdjacentOnes([1, 0, 1, 0, 0, 1]) && Binary([1, 0, 1, 0, 0, 1])
    ensures [1, 0, 1, 0, 0, 1] !in Emitted(6, 6 * 6)
  {
    var s := [1, 0, 1, 0, 0, 1];
    assert NoAdjacentOnes(s) by {
      forall k | 1 <= k < 6 ensures !OnesAt(s, k) {
        assert s[k - 1] == 0 || s[k] == 0;
      }
    }
    assert Binary(s) by {
      forall k | 0 <= k < 6 ensures s[k] == 0 || s[k] == 1 {
      }
    }
    assert Value(s) == 37;
    EmittedMembers(6, 36, s);
    if s in Emitted(6, 36) {
      var m: nat :| m < 36 && s == Counter(m, 6);
      assert Pow2(6) == 64;
      CounterValue(m, 6);
      assert false;
    }
  }

  // ---------------------------------------------------------------------
  // generate_alignment_pairs

  /** Every pattern has n columns. */
  predicate HasLength(als: seq<Alignment>, n: nat) {
    forall k :: 0 <= k < |als| ==> |als[k]| == n
  }

  /** All patterns have the length of the first one. */
  predicate SameLength(als: seq<Alignment>) {
    forall k :: 0 <= k < |als| ==> |als[k]| == |als[0]|
  }

  predicate StrictlyIncreasing(s: seq<int>) {
    forall p, q :: 0 <= p < q < |s| ==> s[p] < s[q]
  }

  /** The indices j < n, in increasing order, whose pattern has dot product 0 with pattern i. */
  function Compatibles(als: seq<Alignment>, i: nat, n: nat): seq<int>
    requires SameLength(als) && i < |als| && n <= |als|
  {
    if n == 0 then []
    else Compatibles(als, i, n - 1) + (if DotProduct(als[i], als[n - 1]) == 0 then [n - 1] else [])
  }

  lemma {:induction false} CompatiblesMembers(als: seq<Alignment>, i: nat, n: nat)
    requires SameLength(als) && i < |als| && n <= |als|
    ensures forall j :: j in Compatibles(als, i, n) <==> 0 <= j < n && DotProduct(als[i], als[j]) == 0
    ensures StrictlyIncreasing(Compatibles(als, i, n))
    ensures forall m :: 0 <= m < |Compatibles(als, i, n)| ==> Compatibles(als, i, n)[m] < n
  {
    if n > 0 {
      CompatiblesMembers(als, i, n - 1);
      var prev := Compatibles(als, i, n - 1);
      if DotProduct(als[i], als[n - 1]) == 0 {
        AppendLargerKeepsIncreasing(prev, n - 1);
      } else {
        assert Compatibles(als, i, n) == prev;
      }
    }
  }

  /**
   * pairs[i] lists, in increasing order, exactly the indices j whose pattern
   * has dot product 0 with pattern i.
   */
  predicate PairLists(als: seq<Alignment>, pairs: seq<seq<int>>) {
    && |pairs| == |als|
    && SameLength(als)
    && (forall i, m :: 0 <= i < |als| && 0 <= m < |pairs[i]| ==>
         0 <= pairs[i][m] < |als| && DotProduct(als[i], als[pairs[i][m]]) == 0)
    && (forall i, j :: 0 <= i < |als| && 0 <= j < |als| && DotProduct(als[i], als[j]) == 0 ==>
         j in pairs[i])
    && (forall i :: 0 <= i < |pairs| ==> StrictlyIncreasing(pairs[i]))
  }

  /** For each pattern i, the increasing list of indices j whose pattern has dot product 0 with it. */
  method GenerateAlignmentPairs(als: seq<Alignment>) returns (pairs: seq<seq<int>>)
    requires SameLength(als)
    ensures |pairs| == |als|
    ensures forall i, m :: 0 <= i < |als| && 0 <= m < |pairs[i]| ==>
      0 <= pairs[i][m] < |als| && DotProduct(als[i], als[pairs[i][m]]) == 0
    ensures forall i, j :: 0 <= i < |als| && 0 <= j < |als| && DotProduct(als[i], als[j]) == 0 ==>
      j in pairs[i]
    ensures forall i :: 0 <= i < |pairs| ==> StrictlyIncreasing(pairs[i])
    ensures PairLists(als, pairs)
  {
    var N := |als|;
    pairs := seq(N, _ => []);
    for i := 0 to N
      invariant |pairs| == N
      invariant forall i' :: 0 <= i' < i ==> pairs[i'] == Compatibles(als, i', N)
      invariant forall i' :: i <= i' < N ==> pairs[i'] == []
    {
      for j := 0 to N
        invariant |pairs| == N
        invariant forall i' :: 0 <= i' < i ==> pairs[i'] == Compatibles(als, i', N)
        invariant forall i' :: i < i' < N ==> pairs[i'] == []
        invariant pairs[i] == Compatibles(als, i, j)
      {
        var d := Dot(als[i], als[j]);
        if d == 0 {
          pairs := pairs[i := pairs[i] + [j]];
        }
      }
    }
    forall i | 0 <= i < N
      ensures forall m :: 0 <= m < |pairs[i]| ==> 0 <= pairs[i][m] < N && DotProduct(als[i], als[pairs[i][m]]) == 0
      ensures forall j :: 0 <= j < N && DotProduct(als[i], als[j]) == 0 ==> j in pairs[i]
      ensures StrictlyIncreasing(pairs[i])
    {
      CompatiblesMembers(als, i, N);
      forall m | 0 <= m < |pairs[i]| ensures 0 <= pairs[i][m] < N && DotProduct(als[i], als[pairs[i][m]]) == 0 {
        assert pairs[i][m] in pairs[i];
      }
    }
  }

  lemma AppendLargerKeepsIncreasing(s: seq<int>, x: int)
    requires StrictlyIncreasing(s)
    requires forall m :: 0 <= m < |s| ==> s[m] < x
    ensures StrictlyIncreasing(s + [x])
  {
    var t := s + [x];
    forall p, q | 0 <= p < q < |t| ensures t[p] < t[q] {
      if q == |s| {
        assert t[p] == s[p];
      } else {
        assert t[p] == s[p] && t[q] == s[q];
      }
    }
  }

  /** Stacking compatibility of equal-length patterns does not depend on which is on top. */
  lemma CompatibilitySymmetric(als: seq<Alignment>, i: nat, j: nat)
    requires SameLength(als) && i < |als| && j < |als|
    ensures DotProduct(als[i], als[j]) == 0 <==> DotProduct(als[j], als[i]) == 0
  {
    DotProductSymmetric(als[i], als[j]);
  }

  /** When pattern 0 is all zeros it is compatible with every pattern, both ways. */
  lemma ZeroPatternStacksWithAll(als: seq<Alignment>, i: nat)
    requires SameLength(als) && i < |als| && als[0] == Zeros(|als[0]|)
    ensures DotProduct(als[i], als[0]) == 0 && DotProduct(als[0], als[i]) == 0
  {
    DotProductWithZeros(als[i], |als[0]|);
  }
}
