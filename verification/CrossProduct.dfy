/** The generator of all tuples over several sequences, against mixed-radix counting. */
module CrossProduct {
  /** What the generator yields for the first `n` sequences, in order. */
  function Tuples<T>(seqs: seq<seq<T>>, n: nat): seq<seq<T>>
    requires n <= |seqs|
  {
    if n == 0 then []
    else if n == 1 then seq(|seqs[0]|, i requires 0 <= i < |seqs[0]| => [seqs[0][i]])
    else
      var shorter := Tuples(seqs, n - 1);
      Extended(shorter, |shorter|, seqs[n - 1])
  }

  /** Each of the first `m` tuples, extended by every element in turn. */
  function Extended<T>(tuples: seq<seq<T>>, m: nat, last: seq<T>): seq<seq<T>>
    requires m <= |tuples|
  {
    if m == 0 then [] else Extended(tuples, m - 1, last) + ExtendOne(tuples[m - 1], last)
  }

  function ExtendOne<T>(tuple: seq<T>, last: seq<T>): seq<seq<T>> {
    seq(|last|, i requires 0 <= i < |last| => tuple + [last[i]])
  }

  // ----------------------------------------------------------------- mixed radix

  /** The product of the lengths of the sequences from `i` up to `n`. */
  function Product<T>(seqs: seq<seq<T>>, i: nat, n: nat): nat
    requires i <= n <= |seqs|
  {
    if i == n then 1 else Product(seqs, i, n - 1) * |seqs[n - 1]|
  }

  ghost predicate NonEmpty<T>(seqs: seq<seq<T>>, n: nat)
    requires n <= |seqs|
  {
    forall i :: 0 <= i < n ==> |seqs[i]| > 0
  }

  /** The mixed-radix digits of `k`, one for each of the first `n` sequences, the first leading. */
  function Digits<T>(seqs: seq<seq<T>>, n: nat, k: nat): (d: seq<nat>)
    requires n <= |seqs| && NonEmpty(seqs, n)
    ensures Fits(seqs, d, n)
  {
    if n == 0 then [] else
      var l := |seqs[n - 1]|;
      Digits(seqs, n - 1, k / l) + [k % l]
  }

  /** The number whose mixed-radix digits are the given positions, the first one leading. */
  function Rank<T>(seqs: seq<seq<T>>, d: seq<nat>, n: nat): nat
    requires n <= |seqs| && n <= |d|
  {
    if n == 0 then 0 else Rank(seqs, d, n - 1) * |seqs[n - 1]| + d[n - 1]
  }

  ghost predicate Fits<T>(seqs: seq<seq<T>>, d: seq<nat>, n: nat)
    requires n <= |seqs|
  {
    |d| == n && forall i :: 0 <= i < n ==> d[i] < |seqs[i]|
  }

  // ------------------------------------------------------------------- arithmetic

  lemma SameQuotient(q: nat, r: nat, a: nat, b: nat, l: nat)
    requires q * l + r == a * l + b && r < l && b < l
    ensures q == a && r == b
  {
    if q < a {
      Below(q, r, a, l);
    } else if a < q {
      Below(a, b, q, l);
    }
  }

  lemma Compose(a: nat, b: nat, l: nat)
    requires b < l
    ensures (a * l + b) / l == a && (a * l + b) % l == b
  {
    var k := a * l + b;
    Split(k, l);
    SameQuotient(k / l, k % l, a, b, l);
  }

  lemma Grows(x: nat, l: nat)
    requires x >= 1
    ensures x * l >= l
  {
    assert x * l == (x - 1) * l + l;
  }

  lemma Split(k: nat, l: nat)
    requires l > 0
    ensures k == k / l * l + k % l
  {
  }

  lemma Below(a: nat, b: nat, m: nat, l: nat)
    requires a < m && b < l
    ensures a * l + b < m * l
  {
    assert (m - a) * l >= l by { Grows(m - a, l); }
    assert m * l == a * l + (m - a) * l;
  }

  lemma QuotientBelow(k: nat, m: nat, l: nat)
    requires k < m * l && l > 0
    ensures k / l < m
  {
    Split(k, l);
  }

  lemma DivideTwice(k: nat, l: nat, p: nat)
    requires l > 0 && p > 0
    ensures p * l > 0 && k / (p * l) == k / l / p
  {
    var q, r := k / l, k % l;
    var s, t := q / p, q % p;
    Split(k, l);
    Split(q, p);
    assert k == (s * p + t) * l + r == s * (p * l) + (t * l + r);
    Below(t, r, p, l);
    Compose(s, t * l + r, p * l);
  }

  lemma {:induction false} ProductPositive<T>(seqs: seq<seq<T>>, i: nat, n: nat)
    requires i <= n <= |seqs|
    ensures Product(seqs, i, n) > 0 <==> forall j :: i <= j < n ==> |seqs[j]| > 0
  {
    if i < n {
      ProductPositive(seqs, i, n - 1);
      if Product(seqs, i, n - 1) > 0 && |seqs[n - 1]| > 0 {
        Grows(Product(seqs, i, n - 1), |seqs[n - 1]|);
      }
    }
  }

  /** The digit for sequence `i` is found by dividing by the product of the later lengths. */
  lemma {:induction false} DigitAt<T>(seqs: seq<seq<T>>, n: nat, k: nat, i: nat)
    requires i < n <= |seqs| && NonEmpty(seqs, n)
    ensures Product(seqs, i + 1, n) > 0
    ensures Digits(seqs, n, k)[i] == k / Product(seqs, i + 1, n) % |seqs[i]|
    decreases n
  {
    ProductPositive(seqs, i + 1, n);
    if i < n - 1 {
      var l := |seqs[n - 1]|;
      DigitAt(seqs, n - 1, k / l, i);
      DivideTwice(k, l, Product(seqs, i + 1, n - 1));
    } else {
      assert Product(seqs, n, n) == 1;
    }
  }

  lemma {:induction false} RankOfDigits<T>(seqs: seq<seq<T>>, n: nat, k: nat)
    requires n <= |seqs| && NonEmpty(seqs, n) && k < Product(seqs, 0, n)
    ensures Rank(seqs, Digits(seqs, n, k), n) == k
  {
    if n > 0 {
      var l := |seqs[n - 1]|;
      var d := Digits(seqs, n, k);
      QuotientBelow(k, Product(seqs, 0, n - 1), l);
      RankOfDigits(seqs, n - 1, k / l);
      SameRank(seqs, Digits(seqs, n - 1, k / l), d, n - 1);
      Split(k, l);
    }
  }

  lemma {:induction false} SameRank<T>(seqs: seq<seq<T>>, d: seq<nat>, e: seq<nat>, n: nat)
    requires n <= |seqs| && n <= |d| && n <= |e| && forall i :: 0 <= i < n ==> d[i] == e[i]
    ensures Rank(seqs, d, n) == Rank(seqs, e, n)
  {
    if n > 0 {
      SameRank(seqs, d, e, n - 1);
    }
  }

  lemma {:induction false} DigitsOfRank<T>(seqs: seq<seq<T>>, d: seq<nat>, n: nat)
    requires n <= |seqs| && Fits(seqs, d, n)
    ensures NonEmpty(seqs, n) && Rank(seqs, d, n) < Product(seqs, 0, n)
    ensures Digits(seqs, n, Rank(seqs, d, n)) == d
  {
    if n > 0 {
      var l := |seqs[n - 1]|;
      var front := d[..n - 1];
      DigitsOfRank(seqs, front, n - 1);
      SameRank(seqs, front, d, n - 1);
      Below(Rank(seqs, d, n - 1), d[n - 1], Product(seqs, 0, n - 1), l);
      Compose(Rank(seqs, d, n - 1), d[n - 1], l);
    }
  }

  // --------------------------------------------------------------------- the tuples

  lemma {:induction false} ExtendedAt<T>(tuples: seq<seq<T>>, m: nat, last: seq<T>, k: nat)
    requires m <= |tuples|
    ensures |Extended(tuples, m, last)| == m * |last|
    ensures k < m * |last| ==>
              && k / |last| < m
              && Extended(tuples, m, last)[k] == tuples[k / |last|] + [last[k % |last|]]
  {
    if m > 0 {
      var l := |last|;
      ExtendedAt(tuples, m - 1, last, k);
      assert m * l == (m - 1) * l + l;
      if (m - 1) * l <= k < m * l {
        var b := k - (m - 1) * l;
        Compose(m - 1, b, l);
      }
    }
  }

  /** As many tuples as the product of the lengths. */
  lemma {:induction false} TupleCount<T>(seqs: seq<seq<T>>, n: nat)
    requires 1 <= n <= |seqs|
    ensures |Tuples(seqs, n)| == Product(seqs, 0, n)
  {
    if n == 1 {
      assert Product(seqs, 0, 0) == 1;
    } else {
      TupleCount(seqs, n - 1);
      ExtendedAt(Tuples(seqs, n - 1), |Tuples(seqs, n - 1)|, seqs[n - 1], 0);
    }
  }

  lemma TupleStep<T>(seqs: seq<seq<T>>, n: nat, k: nat)
    requires 2 <= n <= |seqs| && k < |Tuples(seqs, n)|
    ensures var shorter, last := Tuples(seqs, n - 1), seqs[n - 1];
            && |last| > 0 && k / |last| < |shorter|
            && Tuples(seqs, n)[k] == shorter[k / |last|] + [last[k % |last|]]
  {
    var shorter := Tuples(seqs, n - 1);
    ExtendedAt(shorter, |shorter|, seqs[n - 1], k);
  }

  /** The tuple that takes element `d[i]` from sequence `i`. */
  function Pick<T>(seqs: seq<seq<T>>, d: seq<nat>, n: nat): seq<T>
    requires n <= |seqs| && Fits(seqs, d, n)
  {
    seq(n, i requires 0 <= i < n => seqs[i][d[i]])
  }

  lemma SingleByDigits<T>(seqs: seq<seq<T>>, k: nat)
    requires 1 <= |seqs| && k < |Tuples(seqs, 1)|
    ensures NonEmpty(seqs, 1)
    ensures Tuples(seqs, 1)[k] == Pick(seqs, Digits(seqs, 1, k), 1)
  {
    var l := |seqs[0]|;
    Compose(0, k, l);
    assert Digits(seqs, 1, k) == Digits(seqs, 0, k / l) + [k % l] == [k];
  }

  /** Tuple `k` picks by the digits of `k`. */
  lemma {:induction false} TupleByDigits<T>(seqs: seq<seq<T>>, n: nat, k: nat)
    requires 1 <= n <= |seqs| && k < |Tuples(seqs, n)|
    ensures NonEmpty(seqs, n)
    ensures Tuples(seqs, n)[k] == Pick(seqs, Digits(seqs, n, k), n)
    decreases n
  {
    if n == 1 {
      SingleByDigits(seqs, k);
    } else {
      var l := |seqs[n - 1]|;
      TupleStep(seqs, n, k);
      TupleByDigits(seqs, n - 1, k / l);
      PickOneMore(seqs, Digits(seqs, n - 1, k / l), k % l, n);
    }
  }

  lemma PickOneMore<T>(seqs: seq<seq<T>>, d: seq<nat>, x: nat, n: nat)
    requires 1 <= n <= |seqs| && Fits(seqs, d, n - 1) && x < |seqs[n - 1]|
    ensures Pick(seqs, d + [x], n) == Pick(seqs, d, n - 1) + [seqs[n - 1][x]]
  {
  }

  /** Component `i` of tuple `k` is the element of sequence `i` at position `k` divided by the product
      of the later lengths, modulo its own length. */
  lemma TupleAt<T>(seqs: seq<seq<T>>, k: nat, i: nat)
    requires i < |seqs| && k < |Tuples(seqs, |seqs|)|
    ensures Product(seqs, i + 1, |seqs|) > 0 && |seqs[i]| > 0
    ensures |Tuples(seqs, |seqs|)[k]| == |seqs|
    ensures Tuples(seqs, |seqs|)[k][i] == seqs[i][k / Product(seqs, i + 1, |seqs|) % |seqs[i]|]
  {
    TupleByDigits(seqs, |seqs|, k);
    DigitAt(seqs, |seqs|, k, i);
  }

  /** Every combination of positions is the digits of exactly one tuple number. */
  lemma EachCombinationOnce<T>(seqs: seq<seq<T>>, d: seq<nat>)
    requires 1 <= |seqs| && Fits(seqs, d, |seqs|)
    ensures NonEmpty(seqs, |seqs|)
    ensures var n, k := |seqs|, Rank(seqs, d, |seqs|);
            && k < |Tuples(seqs, n)| && Digits(seqs, n, k) == d
            && Tuples(seqs, n)[k] == Pick(seqs, d, n)
            && forall j: nat :: j < |Tuples(seqs, n)| && Digits(seqs, n, j) == d ==> j == k
  {
    var n := |seqs|;
    TupleCount(seqs, n);
    DigitsOfRank(seqs, d, n);
    TupleByDigits(seqs, n, Rank(seqs, d, n));
    forall j: nat | j < |Tuples(seqs, n)| && Digits(seqs, n, j) == d ensures j == Rank(seqs, d, n) {
      RankOfDigits(seqs, n, j);
    }
  }

  ghost predicate Before(d: seq<nat>, e: seq<nat>, n: nat)
    requires n <= |d| && n <= |e|
  {
    exists p :: 0 <= p < n && d[p] < e[p] && forall q :: 0 <= q < p ==> d[q] == e[q]
  }

  lemma {:induction false} RankOrders<T>(seqs: seq<seq<T>>, d: seq<nat>, e: seq<nat>, n: nat)
    requires n <= |seqs| && n <= |d| && n <= |e|
    requires forall i :: 0 <= i < n ==> d[i] < |seqs[i]| && e[i] < |seqs[i]|
    ensures Rank(seqs, d, n) < Rank(seqs, e, n) ==> Before(d, e, n)
    ensures Rank(seqs, d, n) == Rank(seqs, e, n) ==> forall i :: 0 <= i < n ==> d[i] == e[i]
  {
    if n > 0 {
      var l, a, b := |seqs[n - 1]|, Rank(seqs, d, n - 1), Rank(seqs, e, n - 1);
      RankOrders(seqs, d, e, n - 1);
      if a < b {
        Below(a, d[n - 1], b, l);
      } else if b < a {
        Below(b, e[n - 1], a, l);
      }
    }
  }

  /** The tuples come in lexicographic order of their positions. */
  lemma InLexicographicOrder<T>(seqs: seq<seq<T>>, j: nat, k: nat)
    requires 1 <= |seqs| && j < k < |Tuples(seqs, |seqs|)|
    ensures NonEmpty(seqs, |seqs|)
    ensures Before(Digits(seqs, |seqs|, j), Digits(seqs, |seqs|, k), |seqs|)
  {
    var n := |seqs|;
    TupleCount(seqs, n);
    TupleByDigits(seqs, n, k);
    RankOfDigits(seqs, n, j);
    RankOfDigits(seqs, n, k);
    RankOrders(seqs, Digits(seqs, n, j), Digits(seqs, n, k), n);
  }
}
