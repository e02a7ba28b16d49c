/** The Cartesian product behind topic filters (client/rpc-core/src/types/filter.rs). */
module Cartesian {
  import opened Prelude

  // ---- Numbering the choices ----

  /** How many ways there are to choose one element from each list. */
  function Size<T>(lists: seq<seq<T>>): nat
  {
    if lists == [] then 1 else Size(Init(lists)) * |Last(lists)|
  }

  /** A choice: one position in each list. */
  predicate IsChoice<T>(lists: seq<seq<T>>, c: seq<nat>)
  {
    |c| == |lists| && forall i :: 0 <= i < |c| ==> c[i] < |lists[i]|
  }

  /** Quotient and remainder by repeated subtraction. */
  function Quot(n: nat, k: nat): nat
    requires k > 0
  {
    if n < k then 0 else 1 + Quot(n - k, k)
  }

  function Rem(n: nat, k: nat): (r: nat)
    requires k > 0
    ensures r < k
  {
    if n < k then n else Rem(n - k, k)
  }

  lemma {:induction false} MulCancel(a: nat, b: nat, k: nat)
    requires a * k < b * k
    ensures a < b && k > 0
  {
    if b <= a {
      MulMonotone(k, b, a);
    }
  }

  lemma {:induction false} QuotRem(n: nat, k: nat)
    requires k > 0
    ensures n == Quot(n, k) * k + Rem(n, k)
  {
    if n >= k {
      QuotRem(n - k, k);
      assert (1 + Quot(n - k, k)) * k == k + Quot(n - k, k) * k;
    }
  }

  lemma {:induction false} DigitSplit(size: nat, k: nat, n: nat)
    requires n < size * k
    ensures k > 0 && Quot(n, k) < size && n == Quot(n, k) * k + Rem(n, k)
  {
    MulCancel(0, size, k);
    QuotRem(n, k);
    MulCancel(Quot(n, k), size, k);
  }

  /** The `n`-th choice: mixed-radix digits, the last list varying fastest. */
  function Choice<T>(lists: seq<seq<T>>, n: nat): (c: seq<nat>)
    requires n < Size(lists)
    ensures IsChoice(lists, c)
  {
    if lists == [] then []
    else
      var k := |Last(lists)|;
      DigitSplit(Size(Init(lists)), k, n);
      Choice(Init(lists), Quot(n, k)) + [Rem(n, k)]
  }

  lemma {:induction false} DigitsUnique(k: nat, q1: nat, r1: nat, q2: nat, r2: nat)
    requires r1 < k && r2 < k && q1 * k + r1 == q2 * k + r2
    ensures q1 == q2 && r1 == r2
  {
    assert (q2 + 1) * k == q2 * k + k;
    assert (q1 + 1) * k == q1 * k + k;
    MulCancel(q1, q2 + 1, k);
    MulCancel(q2, q1 + 1, k);
  }

  lemma {:induction false} DigitJoin(size: nat, k: nat, high: nat, low: nat)
    requires high < size && low < k
    ensures high * k + low < size * k
    ensures Quot(high * k + low, k) == high && Rem(high * k + low, k) == low
  {
    MulMonotone(k, high + 1, size);
    assert (high + 1) * k == high * k + k;
    var n := high * k + low;
    QuotRem(n, k);
    DigitsUnique(k, Quot(n, k), Rem(n, k), high, low);
  }

  function Rank<T>(lists: seq<seq<T>>, c: seq<nat>): (n: nat)
    requires IsChoice(lists, c)
    ensures n < Size(lists)
  {
    if lists == [] then 0
    else
      var high := Rank(Init(lists), Init(c));
      DigitJoin(Size(Init(lists)), |Last(lists)|, high, Last(c));
      high * |Last(lists)| + Last(c)
  }

  function Pick<T>(lists: seq<seq<T>>, c: seq<nat>): (p: seq<T>)
    requires IsChoice(lists, c)
    ensures |p| == |lists| && forall i :: 0 <= i < |p| ==> p[i] == lists[i][c[i]]
  {
    seq(|lists|, i requires 0 <= i < |lists| => lists[i][c[i]])
  }

  predicate LexLess(a: seq<nat>, b: seq<nat>)
  {
    |a| == |b| && exists k :: 0 <= k < |a| && a[..k] == b[..k] && a[k] < b[k]
  }

  lemma {:induction false} DigitsCompare(k: nat, q1: nat, r1: nat, q2: nat, r2: nat)
    requires r1 < k && r2 < k && q1 * k + r1 < q2 * k + r2
    ensures q1 < q2 || (q1 == q2 && r1 < r2)
  {
    assert (q2 + 1) * k == q2 * k + k;
    MulCancel(q1, q2 + 1, k);
  }

  /** Numbers and choices correspond one to one. */
  lemma {:induction false} RankOfChoice<T>(lists: seq<seq<T>>, n: nat)
    requires n < Size(lists)
    ensures Rank(lists, Choice(lists, n)) == n
  {
    if lists != [] {
      var k := |Last(lists)|;
      DigitSplit(Size(Init(lists)), k, n);
      RankOfChoice(Init(lists), Quot(n, k));
      var c := Choice(lists, n);
      assert Init(c) == Choice(Init(lists), Quot(n, k)) && Last(c) == Rem(n, k);
    }
  }

  lemma {:induction false} ChoiceOfRank<T>(lists: seq<seq<T>>, c: seq<nat>)
    requires IsChoice(lists, c)
    ensures Choice(lists, Rank(lists, c)) == c
  {
    if lists != [] {
      ChoiceOfRank(Init(lists), Init(c));
      DigitJoin(Size(Init(lists)), |Last(lists)|, Rank(Init(lists), Init(c)), Last(c));
      assert Init(c) + [Last(c)] == c;
    }
  }

  lemma {:induction false} DigitOrder(size: nat, k: nat, m: nat, n: nat)
    requires m < n < size * k
    ensures k > 0 && Quot(m, k) < size && Quot(n, k) < size
    ensures Quot(m, k) < Quot(n, k) || (Quot(m, k) == Quot(n, k) && Rem(m, k) < Rem(n, k))
  {
    DigitSplit(size, k, m);
    DigitSplit(size, k, n);
    DigitsCompare(k, Quot(m, k), Rem(m, k), Quot(n, k), Rem(n, k));
  }

  lemma {:induction false} LexSnoc(a: seq<nat>, b: seq<nat>, x: nat, y: nat)
    requires LexLess(a, b) || (a == b && x < y)
    ensures LexLess(a + [x], b + [y])
  {
    var a', b' := a + [x], b + [y];
    if a == b {
      assert a'[..|a|] == b'[..|a|] && a'[|a|] < b'[|a|];
    } else {
      var i :| 0 <= i < |a| && a[..i] == b[..i] && a[i] < b[i];
      assert a'[..i] == a[..i] && b'[..i] == b[..i] && a'[i] < b'[i];
    }
  }

  /** The numbering is the lexicographic order of the choices. */
  lemma {:induction false} ChoicesInOrder<T>(lists: seq<seq<T>>, m: nat, n: nat)
    requires m < n < Size(lists)
    ensures LexLess(Choice(lists, m), Choice(lists, n))
  {
    if lists != [] {
      var k := |Last(lists)|;
      DigitOrder(Size(Init(lists)), k, m, n);
      if Quot(m, k) < Quot(n, k) {
        ChoicesInOrder(Init(lists), Quot(m, k), Quot(n, k));
      }
      LexSnoc(Choice(Init(lists), Quot(m, k)), Choice(Init(lists), Quot(n, k)), Rem(m, k), Rem(n, k));
    }
  }

  /** What comes before a choice that starts with zeros starts with zeros. */
  lemma {:induction false} ZeroPrefix(b: seq<nat>, c: seq<nat>, n: nat, i: nat)
    requires LexLess(b, c) && i < n <= |c| && forall j :: 0 <= j < n ==> c[j] == 0
    ensures b[i] == 0
  {
    var k :| 0 <= k < |b| && b[..k] == c[..k] && b[k] < c[k];
    assert k >= n;
    assert b[i] == b[..k][i] == c[..k][i] == c[i];
  }

  // ---- The product ----

  function AppendEach<T>(r: seq<T>, l: seq<T>): (s: seq<seq<T>>)
    ensures |s| == |l|
  {
    seq(|l|, i requires 0 <= i < |l| => r + [l[i]])
  }

  /** Every element of `res` followed by every element of `l`. */
  function Extend<T>(res: seq<seq<T>>, l: seq<T>): (r: seq<seq<T>>)
    ensures |r| == |res| * |l|
  {
    if res == [] then [] else Extend(Init(res), l) + AppendEach(Last(res), l)
  }

  function Singles<T>(l: seq<T>): (s: seq<seq<T>>)
    ensures |s| == |l|
  {
    seq(|l|, i requires 0 <= i < |l| => [l[i]])
  }

  function Product<T>(lists: seq<seq<T>>): seq<seq<T>>
  {
    if |lists| == 0 then []
    else if |lists| == 1 then Singles(lists[0])
    else Extend(Product(Init(lists)), Last(lists))
  }

  lemma {:induction false} ExtendAt<T>(res: seq<seq<T>>, l: seq<T>, j: nat, i: nat)
    requires j < |res| && i < |l|
    ensures j * |l| + i < |Extend(res, l)|
    ensures Extend(res, l)[j * |l| + i] == res[j] + [l[i]]
  {
    var k, last := |l|, |res| - 1;
    DigitJoin(|res|, k, j, i);
    assert |Extend(Init(res), l)| == last * k;
    if j < last {
      DigitJoin(last, k, j, i);
      ExtendAt(Init(res), l, j, i);
    }
  }

  lemma {:induction false} ProductSize<T>(lists: seq<seq<T>>)
    requires lists != []
    ensures |Product(lists)| == Size(lists)
  {
    if |lists| == 1 {
      assert Init(lists) == [];
    } else {
      ProductSize(Init(lists));
    }
  }

  /** The `n`-th result is the `n`-th choice. */
  lemma {:induction false} ProductAt<T>(lists: seq<seq<T>>, n: nat)
    requires lists != [] && n < Size(lists)
    ensures |Product(lists)| == Size(lists)
    ensures Product(lists)[n] == Pick(lists, Choice(lists, n))
  {
    var k := |Last(lists)|;
    ProductSize(lists);
    DigitSplit(Size(Init(lists)), k, n);
    var c := Choice(lists, n);
    var c0 := Choice(Init(lists), Quot(n, k));
    assert c == c0 + [Rem(n, k)];
    if |lists| == 1 {
      assert Init(lists) == [];
      assert Quot(n, k) == 0;
      assert Product(lists)[n] == [lists[0][n]];
    } else {
      ProductSize(Init(lists));
      ProductAt(Init(lists), Quot(n, k));
      ExtendAt(Product(Init(lists)), Last(lists), Quot(n, k), Rem(n, k));
      assert Pick(lists, c) == Pick(Init(lists), c0) + [Last(lists)[Rem(n, k)]];
    }
  }

  /** The nested loops of `cartesian`. */
  method ComputeProduct<T>(lists: seq<seq<T>>) returns (res: seq<seq<T>>)
    ensures res == Product(lists)
    ensures lists == [] ==> res == []
    ensures lists != [] ==>
              && |res| == Size(lists)
              && forall n :: 0 <= n < |res| ==> res[n] == Pick(lists, Choice(lists, n))
  {
    res := [];
    if lists == [] {
      return;
    }
    for i := 0 to |lists[0]|
      invariant res == Singles(lists[0])[..i]
    {
      res := res + [[lists[0][i]]];
    }
    assert lists[..1] == [lists[0]];
    for m := 1 to |lists|
      invariant res == Product(lists[..m])
    {
      var tmp: seq<seq<T>> := [];
      for j := 0 to |res|
        invariant tmp == Extend(res[..j], lists[m])
      {
        ghost var done := tmp;
        for e := 0 to |lists[m]|
          invariant tmp == done + AppendEach(res[j], lists[m])[..e]
        {
          tmp := tmp + [res[j] + [lists[m][e]]];
        }
        assert Init(res[..j + 1]) == res[..j];
      }
      assert res[..|res|] == res;
      assert Init(lists[..m + 1]) == lists[..m] && Last(lists[..m + 1]) == lists[m];
      res := tmp;
    }
    assert lists[..|lists|] == lists;
    ProductSize(lists);
    forall n | 0 <= n < |res| ensures res[n] == Pick(lists, Choice(lists, n)) {
      ProductAt(lists, n);
    }
  }
}
