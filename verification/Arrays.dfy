/** The array operations of numpy the modules share, as loops over sequences. */
module Arrays {

  function Sum(counts: seq<nat>, n: nat): nat
    requires n <= |counts|
  {
    if n == 0 then 0 else Sum(counts, n - 1) + counts[n - 1]
  }

  lemma {:induction false} SumGrows(counts: seq<nat>, m: nat, n: nat)
    requires m <= n <= |counts|
    ensures Sum(counts, m) <= Sum(counts, n)
    ensures m < n ==> Sum(counts, m) + counts[m] <= Sum(counts, n)
    decreases n
  {
    if m < n {
      SumGrows(counts, m, n - 1);
    }
  }

  /** np.cumsum. */
  method Cumulated(counts: seq<nat>) returns (sums: seq<nat>)
    ensures |sums| == |counts| && forall i :: 0 <= i < |counts| ==> sums[i] == Sum(counts, i + 1)
  {
    sums := [];
    var total := 0;
    for i := 0 to |counts|
      invariant total == Sum(counts, i)
      invariant |sums| == i && forall j :: 0 <= j < i ==> sums[j] == Sum(counts, j + 1)
    {
      total := total + counts[i];
      sums := sums + [total];
    }
  }

  /** Slot q of a repeat belongs to the item whose run of slots it falls in. */
  ghost predicate Owns(counts: seq<nat>, i: nat, q: nat) {
    i < |counts| && Sum(counts, i) <= q < Sum(counts, i) + counts[i]
  }

  lemma OwnerIsUnique(counts: seq<nat>, i: nat, j: nat, q: nat)
    requires Owns(counts, i, q) && Owns(counts, j, q)
    ensures i == j
  {
    if i < j {
      SumGrows(counts, i, j);
    } else if j < i {
      SumGrows(counts, j, i);
    }
  }

  /** np.repeat. */
  method Repeated<T>(items: seq<T>, counts: seq<nat>) returns (r: seq<T>)
    requires |items| == |counts|
    ensures |r| == Sum(counts, |counts|)
    ensures forall i: nat, q: nat :: Owns(counts, i, q) && q < |r| ==> r[q] == items[i]
  {
    r := [];
    for i := 0 to |items|
      invariant |r| == Sum(counts, i)
      invariant forall j: nat, q: nat :: j < i && Owns(counts, j, q) && q < |r| ==> r[q] == items[j]
    {
      ghost var before := r;
      for k := 0 to counts[i]
        invariant |r| == Sum(counts, i) + k && before <= r
        invariant forall q :: |before| <= q < |r| ==> r[q] == items[i]
      {
        r := r + [items[i]];
      }
      forall j: nat, q: nat | j < i + 1 && Owns(counts, j, q) && q < |r| ensures r[q] == items[j] {
        if j < i {
          SumGrows(counts, j, i);
          assert r[q] == before[q];
        }
      }
    }
  }

  lemma {:induction false} RunOwner(counts: seq<nat>, n: nat, q: nat) returns (i: nat)
    requires n <= |counts| && q < Sum(counts, n)
    ensures Owns(counts, i, q)
  {
    if q >= Sum(counts, n - 1) {
      i := n - 1;
    } else {
      i := RunOwner(counts, n - 1, q);
    }
  }

  lemma {:induction false} SumOfPrefix(counts: seq<nat>, longer: seq<nat>, n: nat)
    requires n <= |counts| && counts <= longer
    ensures Sum(counts, n) == Sum(longer, n)
  {
    if n > 0 {
      SumOfPrefix(counts, longer, n - 1);
    }
  }

  lemma {:induction false} SumOfJoined(first: seq<nat>, second: seq<nat>, n: nat)
    requires n <= |second|
    ensures Sum(first + second, |first| + n) == Sum(first, |first|) + Sum(second, n)
  {
    if n == 0 {
      SumOfPrefix(first, first + second, |first|);
    } else {
      SumOfJoined(first, second, n - 1);
    }
  }
}
