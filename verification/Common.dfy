/** Definitions shared by the models: optional values, machine constants and facts about sequences. */
module Common {

  datatype Option<+T> = None | Some(value: T)

  /** One more than the largest C `unsigned int`. */
  const WORD := 0x1_0000_0000

  const PAGE_SIZE := 4096

  /** KERNEL_VIRTUAL_BASE */
  const KERNEL_BASE := 0xC000_0000

  ghost predicate NoDuplicates<T>(s: seq<T>) {
    forall i, j :: 0 <= i < j < |s| ==> s[i] != s[j]
  }

  /** The C sum of two `unsigned int` values. */
  function Add32(a: nat, b: nat): nat {
    (a + b) % WORD
  }

  /** The total weight of a sequence, adding up from the front as the kernel's loops do. */
  function Sum<T>(s: seq<T>, weight: T -> nat): nat {
    if s == [] then 0 else Sum(s[..|s| - 1], weight) + weight(s[|s| - 1])
  }

  lemma {:induction false} SumUpdate<T>(s: seq<T>, i: nat, x: T, weight: T -> nat)
    requires i < |s|
    ensures Sum(s[i := x], weight) + weight(s[i]) == Sum(s, weight) + weight(x)
  {
    var n := |s| - 1;
    if i == n {
      assert s[i := x][..n] == s[..n];
    } else {
      assert s[i := x][..n] == s[..n][i := x];
      SumUpdate(s[..n], i, x, weight);
    }
  }

  lemma SumAppend<T>(s: seq<T>, x: T, weight: T -> nat)
    ensures Sum(s + [x], weight) == Sum(s, weight) + weight(x)
  {
    assert (s + [x])[..|s|] == s;
  }

  lemma {:induction false} SumConcat<T>(s: seq<T>, t: seq<T>, weight: T -> nat)
    ensures Sum(s + t, weight) == Sum(s, weight) + Sum(t, weight)
  {
    if t == [] {
      assert s + t == s;
    } else {
      var n := |t| - 1;
      assert (s + t)[..|s + t| - 1] == s + t[..n];
      SumConcat(s, t[..n], weight);
    }
  }

  lemma SumPrefix<T>(s: seq<T>, k: nat, weight: T -> nat)
    requires k <= |s|
    ensures Sum(s[..k], weight) <= Sum(s, weight)
  {
    SumConcat(s[..k], s[k..], weight);
    assert s[..k] + s[k..] == s;
  }

  lemma {:induction false} SumAtLeast<T>(s: seq<T>, i: nat, weight: T -> nat)
    requires i < |s|
    ensures Sum(s, weight) >= weight(s[i])
  {
    var n := |s| - 1;
    if i < n {
      SumAtLeast(s[..n], i, weight);
    }
  }

  lemma {:induction false} SumAtLeastTwo<T>(s: seq<T>, i: nat, j: nat, weight: T -> nat)
    requires i < j < |s|
    ensures Sum(s, weight) >= weight(s[i]) + weight(s[j])
  {
    var n := |s| - 1;
    if j < n {
      SumAtLeastTwo(s[..n], i, j, weight);
    } else {
      SumAtLeast(s[..n], i, weight);
    }
  }

  /** Equal weights position by position give equal sums. */
  lemma {:induction false} SumSame<S, T>(s: seq<S>, v: S -> nat, t: seq<T>, w: T -> nat)
    requires |s| == |t|
    requires forall i :: 0 <= i < |s| ==> v(s[i]) == w(t[i])
    ensures Sum(s, v) == Sum(t, w)
  {
    if |s| > 0 {
      var n := |s| - 1;
      assert forall i :: 0 <= i < n ==> s[..n][i] == s[i] && t[..n][i] == t[i];
      SumSame(s[..n], v, t[..n], w);
    }
  }

  lemma {:induction false} SumOfZeros<T>(s: seq<T>, weight: T -> nat)
    requires forall i :: 0 <= i < |s| ==> weight(s[i]) == 0
    ensures Sum(s, weight) == 0
  {
    if |s| > 0 {
      SumOfZeros(s[..|s| - 1], weight);
    }
  }

  function Pow2(n: nat): (r: nat)
    ensures r > 0
  {
    if n == 0 then 1 else 2 * Pow2(n - 1)
  }

  lemma Pow2Values()
    ensures Pow2(3) == 8 && Pow2(10) == 1024 && Pow2(13) == 8192 && Pow2(31) == WORD / 2 && Pow2(32) == WORD
  {
    assert Pow2(8) == 0x100;
    assert Pow2(16) == 0x1_0000;
    assert Pow2(24) == 0x100_0000;
  }

  lemma {:induction false} Pow2Monotone(m: nat, n: nat)
    requires m <= n
    ensures Pow2(m) <= Pow2(n)
  {
    if m < n {
      Pow2Monotone(m, n - 1);
    }
  }
}
