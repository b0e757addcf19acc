/** How a number of items is split over a number of tasks. */
module TaskBatches {
  import opened Arithmetic

  lemma {:induction false} SumSnoc(parts: seq<int>, x: int)
    ensures Sum(parts + [x]) == Sum(parts) + x
    decreases |parts|
  {
    if parts == [] {
      assert [] + [x] == [x] && [x][1..] == [];
    } else {
      assert (parts + [x])[1..] == parts[1..] + [x];
      SumSnoc(parts[1..], x);
    }
  }

  // A quotient and remainder are determined by their product form.
  lemma Quotient(a: int, m: int, q: int, r: int)
    requires m > 0 && a == q * m + r && 0 <= r < m
    ensures a / m == q && a % m == r
  {
    var e := a / m - q;
    assert a == m * (a / m) + a % m;
    assert m * e == m * (a / m) - m * q;
    SmallMultiple(m, e);
  }

  // The rounded-up share of what is left, k tasks having been served.
  lemma Share(n: int, m: int, k: int)
    requires 0 <= k < m <= n
    ensures (n - k) / m + (if (n - k) % m != 0 then 1 else 0) == n / m + (if k < n % m then 1 else 0)
  {
    var q, r := n / m, n % m;
    assert n == q * m + r;
    if k <= r {
      Quotient(n - k, m, q, r - k);
    } else {
      assert (q - 1) * m == q * m - m;
      Quotient(n - k, m, q - 1, m + r - k);
    }
  }

  // What the first k tasks get together.
  function Given(share: nat, extra: nat, k: nat): nat { k * share + (if k < extra then k else extra) }

  lemma GivenNext(share: nat, extra: nat, k: nat)
    ensures Given(share, extra, k + 1) == Given(share, extra, k) + share + (if k < extra then 1 else 0)
  {
    assert (k + 1) * share == k * share + share;
  }

  lemma AllGiven(n: nat, m: nat)
    requires m > 0
    ensures n % m <= m && Given(n / m, n % m, m) == n
  {
    assert n == m * (n / m) + n % m;
  }

  /** taskBatches: every task gets its share rounded down, and the first n mod m of them one more; the
      shares add up to the number of items. */
  method Batches(itemsCount: nat, tasks: nat) returns (result: seq<int>)
    requires itemsCount >= tasks && (tasks == 0 ==> itemsCount == 0)
    ensures |result| == tasks && Sum(result) == itemsCount
    ensures forall k | 0 <= k < tasks :: result[k] == itemsCount / tasks + (if k < itemsCount % tasks then 1 else 0)
  {
    result := [];
    var n, m := itemsCount, tasks;
    var q, r, start, end, s := 0, 0, 0, 0, 0;
    ghost var share, extra := if m > 0 then n / m else 0, if m > 0 then n % m else 0;
    for k := 0 to m
      invariant |result| == k && s == end == Sum(result) == Given(share, extra, k)
      invariant forall j | 0 <= j < k :: result[j] == share + (if j < extra then 1 else 0)
    {
      hide Given, Sum;
      q := (n - k) / m;
      r := (n - k) % m;
      Share(n, m, k);
      start := end;
      end := end + q + (if r != 0 then 1 else 0);
      s := s + end - start;
      SumSnoc(result, end - start);
      GivenNext(share, extra, k);
      result := result + [end - start];
    }
    if m > 0 { AllGiven(n, m); }
  }
}
