/** Turning predictions into counts: first success over an eps grid, flips, and per-class counts. */
module Evaluation {
  import opened Wrappers

  // ---------------------------------------------------------------- the grid

  /** One epsilon of the grid. */
  datatype Eps = Eps(v: real)

  /** `sorted` over the grid's keys: ascending, each key once. */
  ghost predicate IsGrid(grid: seq<Eps>, keys: set<Eps>) {
    && (forall i, j | 0 <= i < j < |grid| :: grid[i].v < grid[j].v)
    && (forall e :: e in grid <==> e in keys)
  }

  lemma {:induction false} LeastExists(keys: set<Eps>) returns (e: Eps)
    requires keys != {}
    ensures e in keys && forall d | d in keys :: e.v <= d.v
  {
    e :| e in keys;
    if keys != {e} {
      var d := LeastExists(keys - {e});
      if d.v < e.v {
        e := d;
      }
    }
  }

  method SortedGrid(keys: set<Eps>) returns (grid: seq<Eps>)
    ensures IsGrid(grid, keys)
  {
    grid := [];
    var rest := keys;
    while rest != {}
      invariant rest <= keys
      invariant IsGrid(grid, keys - rest)
      invariant forall i, e | 0 <= i < |grid| && e in rest :: grid[i].v < e.v
      decreases rest
    {
      ghost var least := LeastExists(rest);
      var e :| e in rest && forall d | d in rest :: e.v <= d.v;
      grid := grid + [e];
      rest := rest - {e};
    }
    assert keys - rest == keys;
  }

  /** The grid does not depend on the order the mapping listed its keys in. */
  lemma {:induction false} GridIsUnique(a: seq<Eps>, b: seq<Eps>, keys: set<Eps>)
    requires IsGrid(a, keys) && IsGrid(b, keys)
    ensures a == b
  {
    assert (a != [] ==> a[0] in keys) && (b != [] ==> b[0] in keys);
    if a != [] && b != [] {
      assert a[0] in keys && b[0] in keys;
      assert a[0] in b && b[0] in a;
      assert a[0] == b[0];
      forall e ensures e in a[1..] <==> e in keys - {a[0]} {
        TailMembers(a, e);
      }
      forall e ensures e in b[1..] <==> e in keys - {a[0]} {
        TailMembers(b, e);
      }
      GridIsUnique(a[1..], b[1..], keys - {a[0]});
      assert a == [a[0]] + a[1..] && b == [b[0]] + b[1..];
    }
  }

  lemma TailMembers(grid: seq<Eps>, e: Eps)
    requires grid != [] && forall i, j | 0 <= i < j < |grid| :: grid[i].v < grid[j].v
    ensures e in grid[1..] <==> e in grid && e != grid[0]
  {
    if e in grid && e != grid[0] {
      var i :| 0 <= i < |grid| && grid[i] == e;
      assert grid[1..][i - 1] == e;
    }
  }

  // ---------------------------------------------------------------- first success

  type Flips = map<Eps, seq<bool>>
  type Norms = map<Eps, seq<real>>

  /** Every grid eps has a flip mask and a norm for each of the n samples. */
  predicate Aligned(flips: Flips, norms: Norms, n: nat) {
    forall e | e in flips :: |flips[e]| == n && e in norms && |norms[e]| == n
  }

  /** The first eps of the grid at which sample `i` flips. */
  function FirstFlip(flips: Flips, grid: seq<Eps>, i: nat): Option<Eps>
    requires forall e | e in grid :: e in flips && i < |flips[e]|
  {
    if grid == [] then None
    else if flips[grid[0]][i] then Some(grid[0])
    else FirstFlip(flips, grid[1..], i)
  }

  /** The norms contributed by the first `k` samples. */
  function Contributed(flips: Flips, norms: Norms, grid: seq<Eps>, n: nat, k: nat): seq<real>
    requires Aligned(flips, norms, n) && k <= n && forall e | e in grid :: e in flips
  {
    if k == 0 then []
    else
      var first := FirstFlip(flips, grid, k - 1);
      Contributed(flips, norms, grid, n, k - 1) +
      if first.Some? then
        FirstFlipInGrid(flips, grid, k - 1);
        [norms[first.value][k - 1]]
      else []
  }

  lemma {:induction false} FirstFlipInGrid(flips: Flips, grid: seq<Eps>, i: nat)
    requires forall e | e in grid :: e in flips && i < |flips[e]|
    ensures FirstFlip(flips, grid, i).Some? ==>
              FirstFlip(flips, grid, i).value in grid && flips[FirstFlip(flips, grid, i).value][i]
    ensures FirstFlip(flips, grid, i).None? ==> forall e | e in grid :: !flips[e][i]
    ensures (forall j, k | 0 <= j < k < |grid| :: grid[j].v < grid[k].v) && FirstFlip(flips, grid, i).Some? ==>
              forall e | e in grid && flips[e][i] :: FirstFlip(flips, grid, i).value.v <= e.v
  {
    if grid != [] {
      FirstFlipInGrid(flips, grid[1..], i);
      assert forall e | e in grid :: e == grid[0] || e in grid[1..];
    }
  }

  function Sum(values: seq<real>): real {
    if values == [] then 0.0 else Sum(values[..|values| - 1]) + values[|values| - 1]
  }

  function Mean(values: seq<real>): Option<real> {
    if values == [] then None else Some(Sum(values) / |values| as real)
  }

  /** Walk the grid up to the first eps at which sample `i` flips. */
  method FindFlip(flips: Flips, grid: seq<Eps>, i: nat) returns (e: Option<Eps>)
    requires forall d | d in grid :: d in flips && i < |flips[d]|
    ensures e == FirstFlip(flips, grid, i)
  {
    var k := 0;
    assert grid[0..] == grid;
    while k < |grid| && !flips[grid[k]][i]
      invariant k <= |grid|
      invariant FirstFlip(flips, grid, i) == FirstFlip(flips, grid[k..], i)
    {
      assert grid[k..][1..] == grid[k + 1..];
      k := k + 1;
    }
    e := if k < |grid| then Some(grid[k]) else None;
  }

  predicate Answers(flips: Flips, norms: Norms, grid: seq<Eps>, n: nat, mean: Option<real>, count: nat)
    requires Aligned(flips, norms, n) && forall e | e in grid :: e in flips
  {
    var first := Contributed(flips, norms, grid, n, n);
    mean == Mean(first) && count == |first|
  }

  /** Mean and count of the norms at the least eps that flips each sample: over the samples that some eps
      flips, and none when there is no such sample. */
  method PertFirstSuccess(flips: Flips, norms: Norms, n: nat) returns (mean: Option<real>, count: nat)
    requires forall e | e in flips :: |flips[e]| == n && e in norms && |norms[e]| == n
    ensures count == |set i: nat | i < n && EverFlips(flips, i)|
    ensures mean == if count == 0 then None else Some(LeastNormSum(flips, norms, n, n) / count as real)
    ensures forall grid | IsGrid(grid, flips.Keys) :: Answers(flips, norms, grid, n, mean, count)
    ensures exists grid :: IsGrid(grid, flips.Keys)
  {
    var sorted := SortedGrid(flips.Keys);
    CountsTheFlipped(flips, norms, sorted, n, n);
    LeastNormsSum(flips, norms, sorted, n, n);
    assert Flipped(flips, norms, n, n) == set i: nat | i < n && EverFlips(flips, i);
    forall grid | IsGrid(grid, flips.Keys) ensures grid == sorted {
      GridIsUnique(grid, sorted, flips.Keys);
    }
    if sorted == [] {
      NoGridNoFirst(flips, norms, n, n);
      return None, 0;
    }
    var first: seq<real> := [];
    var sum := 0.0;
    var i := 0;
    while i < n
      invariant i <= n
      invariant first == Contributed(flips, norms, sorted, n, i)
      invariant sum == Sum(first)
    {
      var e := FindFlip(flips, sorted, i);
      FirstFlipInGrid(flips, sorted, i);
      if e.Some? {
        first := first + [norms[e.value][i]];
        sum := sum + norms[e.value][i];
      }
      i := i + 1;
    }
    if first == [] {
      return None, 0;
    }
    return Some(sum / |first| as real), |first|;
  }

  lemma {:induction false} NoGridNoFirst(flips: Flips, norms: Norms, n: nat, k: nat)
    requires Aligned(flips, norms, n) && k <= n
    ensures Contributed(flips, norms, [], n, k) == []
  {
    if k > 0 {
      NoGridNoFirst(flips, norms, n, k - 1);
    }
  }

  // ---------------------------------------------------------------- what it means

  ghost predicate EverFlips(flips: Flips, i: nat) {
    exists e | e in flips :: i < |flips[e]| && flips[e][i]
  }

  /** The samples below `k` that some grid eps flips. */
  ghost function Flipped(flips: Flips, norms: Norms, n: nat, k: nat): set<nat>
    requires Aligned(flips, norms, n) && k <= n
  {
    set i: nat | i < k && EverFlips(flips, i)
  }

  /** `e` is the least eps that flips sample `i`. */
  ghost predicate LeastFlip(flips: Flips, i: nat, e: Eps)
    requires forall d | d in flips :: i < |flips[d]|
  {
    e in flips && flips[e][i] && forall d | d in flips && flips[d][i] :: e.v <= d.v
  }

  /** How many samples below `k` some grid eps flips. */
  ghost function FlippedCount(flips: Flips, k: nat): nat {
    if k == 0 then 0 else FlippedCount(flips, k - 1) + if EverFlips(flips, k - 1) then 1 else 0
  }

  lemma FirstFlipIffEver(flips: Flips, norms: Norms, grid: seq<Eps>, n: nat, i: nat)
    requires Aligned(flips, norms, n) && IsGrid(grid, flips.Keys) && i < n
    ensures FirstFlip(flips, grid, i).Some? <==> EverFlips(flips, i)
  {
    FirstFlipInGrid(flips, grid, i);
  }

  lemma {:induction false} ContributedCount(flips: Flips, norms: Norms, grid: seq<Eps>, n: nat, k: nat)
    requires Aligned(flips, norms, n) && IsGrid(grid, flips.Keys) && k <= n
    ensures |Contributed(flips, norms, grid, n, k)| == FlippedCount(flips, k)
  {
    if k > 0 {
      ContributedCount(flips, norms, grid, n, k - 1);
      FirstFlipIffEver(flips, norms, grid, n, k - 1);
    }
  }

  lemma {:induction false} FlippedHasCount(flips: Flips, norms: Norms, n: nat, k: nat)
    requires Aligned(flips, norms, n) && k <= n
    ensures |Flipped(flips, norms, n, k)| == FlippedCount(flips, k)
  {
    if k == 0 {
      assert Flipped(flips, norms, n, 0) == {};
    } else {
      FlippedHasCount(flips, norms, n, k - 1);
      var before, now := Flipped(flips, norms, n, k - 1), Flipped(flips, norms, n, k);
      assert now == before + if EverFlips(flips, k - 1) then {k - 1} else {};
    }
  }

  /** The samples counted are exactly those some eps flips, one norm each. */
  lemma CountsTheFlipped(flips: Flips, norms: Norms, grid: seq<Eps>, n: nat, k: nat)
    requires Aligned(flips, norms, n) && IsGrid(grid, flips.Keys) && k <= n
    ensures |Contributed(flips, norms, grid, n, k)| == |Flipped(flips, norms, n, k)|
  {
    ContributedCount(flips, norms, grid, n, k);
    FlippedHasCount(flips, norms, n, k);
  }

  /** The norm of sample `i` at the least eps that flips it, and nothing when none does. */
  ghost predicate LeastNorm(flips: Flips, norms: Norms, n: nat, i: nat, norm: real)
    requires Aligned(flips, norms, n) && i < n
  {
    if EverFlips(flips, i) then exists e :: LeastFlip(flips, i, e) && norm == norms[e][i] else norm == 0.0
  }

  /** The norms of the flipped samples below `k`, each at the least eps that flips it, added up. */
  ghost function LeastNormSum(flips: Flips, norms: Norms, n: nat, k: nat): real
    requires Aligned(flips, norms, n) && k <= n
  {
    if k == 0 then 0.0
    else
      LeastNormIsUnique(flips, norms, n, k - 1);
      var norm: real :| LeastNorm(flips, norms, n, k - 1, norm);
      LeastNormSum(flips, norms, n, k - 1) + norm
  }

  lemma LeastNormIsUnique(flips: Flips, norms: Norms, n: nat, i: nat)
    requires Aligned(flips, norms, n) && i < n
    ensures exists norm: real :: LeastNorm(flips, norms, n, i, norm)
    ensures forall norm, other | LeastNorm(flips, norms, n, i, norm) && LeastNorm(flips, norms, n, i, other) ::
              norm == other
  {
    if EverFlips(flips, i) {
      var some :| some in flips && flips[some][i];
      var flipping := set d | d in flips && flips[d][i];
      assert some in flipping;
      var e := LeastExists(flipping);
      assert LeastFlip(flips, i, e);
      assert LeastNorm(flips, norms, n, i, norms[e][i]);
    } else {
      assert LeastNorm(flips, norms, n, i, 0.0);
    }
  }

  /** The norm of a sample at the first eps of the grid that flips it. */
  lemma FirstNorm(flips: Flips, norms: Norms, grid: seq<Eps>, n: nat, i: nat) returns (norm: real)
    requires Aligned(flips, norms, n) && IsGrid(grid, flips.Keys) && i < n
    ensures LeastNorm(flips, norms, n, i, norm)
    ensures var first := FirstFlip(flips, grid, i);
            if first.Some? then first.value in flips && norm == norms[first.value][i] else norm == 0.0
  {
    FirstFlipInGrid(flips, grid, i);
    var first := FirstFlip(flips, grid, i);
    norm := 0.0;
    if first.Some? {
      assert LeastFlip(flips, i, first.value);
      norm := norms[first.value][i];
    }
  }

  lemma LeastNormAdds(flips: Flips, norms: Norms, n: nat, i: nat, norm: real)
    requires Aligned(flips, norms, n) && i < n && LeastNorm(flips, norms, n, i, norm)
    ensures LeastNormSum(flips, norms, n, i + 1) == LeastNormSum(flips, norms, n, i) + norm
  {
    LeastNormIsUnique(flips, norms, n, i);
  }

  lemma SumAdds(values: seq<real>, value: real)
    ensures Sum(values + [value]) == Sum(values) + value
  {
    assert (values + [value])[..|values|] == values;
  }

  /** What the samples contribute adds up to that. */
  lemma {:induction false} LeastNormsSum(flips: Flips, norms: Norms, grid: seq<Eps>, n: nat, k: nat)
    requires Aligned(flips, norms, n) && IsGrid(grid, flips.Keys) && k <= n
    ensures Sum(Contributed(flips, norms, grid, n, k)) == LeastNormSum(flips, norms, n, k)
  {
    if k > 0 {
      var earlier := Contributed(flips, norms, grid, n, k - 1);
      LeastNormsSum(flips, norms, grid, n, k - 1);
      var norm := FirstNorm(flips, norms, grid, n, k - 1);
      LeastNormAdds(flips, norms, n, k - 1, norm);
      SumAdds(earlier, norm);
      assert earlier + [] == earlier;
    }
  }

  /** Each flipped sample contributes its norm at the least eps that flips it, in sample order. */
  lemma ContributesAtLeastFlip(flips: Flips, norms: Norms, grid: seq<Eps>, n: nat, i: nat, e: Eps)
    requires Aligned(flips, norms, n) && IsGrid(grid, flips.Keys) && i < n
    requires LeastFlip(flips, i, e)
    ensures var first := Contributed(flips, norms, grid, n, n);
            var place := |Flipped(flips, norms, n, i)|;
            place < |first| && first[place] == norms[e][i]
  {
    CountsTheFlipped(flips, norms, grid, n, i);
    FirstFlipInGrid(flips, grid, i);
    var first := FirstFlip(flips, grid, i);
    assert e in grid;
    assert first == Some(e);
    ContributedGrows(flips, norms, grid, n, i + 1, n);
  }

  lemma {:induction false} ContributedGrows(flips: Flips, norms: Norms, grid: seq<Eps>, n: nat, k: nat, m: nat)
    requires Aligned(flips, norms, n) && k <= m <= n && forall e | e in grid :: e in flips
    ensures Contributed(flips, norms, grid, n, k) <= Contributed(flips, norms, grid, n, m)
    decreases m
  {
    if k < m {
      ContributedGrows(flips, norms, grid, n, k, m - 1);
    }
  }

  lemma {:induction false} SumBounds(values: seq<real>, lo: real, hi: real)
    requires forall i | 0 <= i < |values| :: lo <= values[i] <= hi
    ensures lo * |values| as real <= Sum(values) <= hi * |values| as real
  {
    if values != [] {
      var n := |values| - 1;
      SumBounds(values[..n], lo, hi);
      assert lo * (n as real) + lo == lo * ((n + 1) as real);
      assert hi * (n as real) + hi == hi * ((n + 1) as real);
    }
  }

  /** The mean lies between the least and the greatest contributed norm. */
  lemma MeanIsBetween(values: seq<real>, lo: real, hi: real)
    requires values != [] && forall i | 0 <= i < |values| :: lo <= values[i] <= hi
    ensures lo <= Mean(values).value <= hi
  {
    SumBounds(values, lo, hi);
    Divide(Sum(values), |values| as real, lo, hi);
  }

  lemma Divide(sum: real, n: real, lo: real, hi: real)
    requires n > 0.0 && lo * n <= sum <= hi * n
    ensures lo <= sum / n <= hi
  {
    assert sum / n - lo == (sum - lo * n) / n;
    assert hi - sum / n == (hi * n - sum) / n;
  }

  /** A finer grid never counts fewer samples. */
  lemma FinerGridCountsMore(flips: Flips, norms: Norms, grid: seq<Eps>, flips': Flips, norms': Norms, grid': seq<Eps>,
                            n: nat)
    requires Aligned(flips, norms, n) && IsGrid(grid, flips.Keys)
    requires Aligned(flips', norms', n) && IsGrid(grid', flips'.Keys)
    requires forall e | e in flips :: e in flips' && flips'[e] == flips[e]
    ensures |Contributed(flips, norms, grid, n, n)| <= |Contributed(flips', norms', grid', n, n)|
  {
    CountsTheFlipped(flips, norms, grid, n, n);
    CountsTheFlipped(flips', norms', grid', n, n);
    assert Flipped(flips, norms, n, n) <= Flipped(flips', norms', n, n);
    SubsetSize(Flipped(flips, norms, n, n), Flipped(flips', norms', n, n));
  }

  lemma {:induction false} SubsetSize(a: set<nat>, b: set<nat>)
    requires a <= b
    ensures |a| <= |b|
  {
    if a != {} {
      var x :| x in a;
      SubsetSize(a - {x}, b - {x});
    }
  }

  // ---------------------------------------------------------------- per-class counts

  datatype ClassCount = ClassCount(n: nat, correct: nat)

  /** Samples of class `c`, and those of them predicted as `c`. */
  function CountClass(yTrue: seq<int>, yPred: seq<int>, c: int): ClassCount
    requires |yPred| == |yTrue|
  {
    if yTrue == [] then ClassCount(0, 0)
    else
      var k := |yTrue| - 1;
      var rest := CountClass(yTrue[..k], yPred[..k], c);
      if yTrue[k] == c then ClassCount(rest.n + 1, rest.correct + if yPred[k] == c then 1 else 0) else rest
  }

  /** The positions of the samples of class `c`, and of those of them predicted as `c`. */
  function OfClass(yTrue: seq<int>, c: int): set<nat> {
    set i: nat | i < |yTrue| && yTrue[i] == c
  }

  function CorrectOfClass(yTrue: seq<int>, yPred: seq<int>, c: int): set<nat>
    requires |yPred| == |yTrue|
  {
    set i: nat | i < |yTrue| && yTrue[i] == c && yPred[i] == c
  }

  lemma OneMoreOfClass(yTrue: seq<int>, yPred: seq<int>, c: int, k: nat)
    requires |yPred| == |yTrue| == k + 1
    ensures |OfClass(yTrue, c)| == |OfClass(yTrue[..k], c)| + if yTrue[k] == c then 1 else 0
    ensures |CorrectOfClass(yTrue, yPred, c)| ==
            |CorrectOfClass(yTrue[..k], yPred[..k], c)| + if yTrue[k] == c && yPred[k] == c then 1 else 0
  {
    OneMore(OfClass(yTrue, c), OfClass(yTrue[..k], c), k, yTrue[k] == c);
    OneMore(CorrectOfClass(yTrue, yPred, c), CorrectOfClass(yTrue[..k], yPred[..k], c), k,
            yTrue[k] == c && yPred[k] == c);
  }

  lemma OneMore(now: set<nat>, before: set<nat>, k: nat, more: bool)
    requires forall i :: i in now <==> i in before || (more && i == k)
    requires k !in before
    ensures |now| == |before| + if more then 1 else 0
  {
    assert now == before + if more then {k} else {};
  }

  /** The counts are the numbers of those positions. */
  lemma {:induction false} CountsPositions(yTrue: seq<int>, yPred: seq<int>, c: int)
    requires |yPred| == |yTrue|
    ensures CountClass(yTrue, yPred, c).n == |OfClass(yTrue, c)|
    ensures CountClass(yTrue, yPred, c).correct == |CorrectOfClass(yTrue, yPred, c)|
  {
    if yTrue != [] {
      var k := |yTrue| - 1;
      CountsPositions(yTrue[..k], yPred[..k], c);
      OneMoreOfClass(yTrue, yPred, c, k);
    }
  }

  /** A class whose name is given again later loses its entry to the later one. */
  predicate Kept(names: seq<string>, c: int) {
    0 <= c < |names| && forall d | c < d < |names| :: names[d] != names[c]
  }

  /** One entry per distinct name, holding the counts of the last class of that name. */
  ghost predicate IsPerClass(counts: map<string, ClassCount>, yTrue: seq<int>, yPred: seq<int>, names: seq<string>)
    requires |yPred| == |yTrue|
  {
    && counts.Keys == NamesBelow(names, |names|)
    && forall c :: HoldsCount(counts, yTrue, yPred, names, c)
  }

  ghost predicate HoldsCount(counts: map<string, ClassCount>, yTrue: seq<int>, yPred: seq<int>, names: seq<string>, c: int)
    requires |yPred| == |yTrue| && counts.Keys == NamesBelow(names, |names|)
  {
    Kept(names, c) ==> counts[names[c]] == CountClass(yTrue, yPred, c)
  }

  function NamesBelow(names: seq<string>, k: nat): set<string>
    requires k <= |names|
  {
    set c | 0 <= c < k :: names[c]
  }

  method PerClass(yTrue: seq<int>, yPred: seq<int>, names: seq<string>) returns (counts: map<string, ClassCount>)
    requires |yPred| == |yTrue|
    ensures IsPerClass(counts, yTrue, yPred, names)
    ensures TotalN(counts) == |yTrue| <==> forall i | 0 <= i < |yTrue| :: Kept(names, yTrue[i])
  {
    counts := CountClasses(yTrue, yPred, names);
    PerClassSumsIff(counts, yTrue, yPred, names);
  }

  method CountClasses(yTrue: seq<int>, yPred: seq<int>, names: seq<string>) returns (counts: map<string, ClassCount>)
    requires |yPred| == |yTrue|
    ensures IsPerClass(counts, yTrue, yPred, names)
  {
    counts := map[];
    for c := 0 to |names|
      invariant counts.Keys == NamesBelow(names, c)
      invariant forall d | 0 <= d < c && (forall b | d < b < c :: names[b] != names[d]) ::
                  counts[names[d]] == CountClass(yTrue, yPred, d)
    {
      counts := counts[names[c] := CountClass(yTrue, yPred, c)];
    }
  }

  // ---------------------------------------------------------------- the sum of the counts

  /** The sum of the `n` of all entries. */
  ghost function TotalN(counts: map<string, ClassCount>): nat
    decreases |counts|
  {
    if counts == map[] then 0
    else
      var name :| name in counts;
      counts[name].n + TotalN(counts - {name})
  }

  /** It does not matter in which order the entries are added up. */
  lemma {:induction false} TotalWithout(counts: map<string, ClassCount>, name: string)
    requires name in counts
    ensures TotalN(counts) == counts[name].n + TotalN(counts - {name})
    decreases |counts|
  {
    var first :| first in counts && TotalN(counts) == counts[first].n + TotalN(counts - {first});
    if first != name {
      TotalWithout(counts - {first}, name);
      TotalWithout(counts - {name}, first);
      assert counts - {first} - {name} == counts - {name} - {first};
    }
  }

  /** The entries of the kept classes below `k`. */
  ghost function KeptEntries(counts: map<string, ClassCount>, names: seq<string>, k: nat): map<string, ClassCount>
    requires k <= |names|
  {
    map name | name in counts && KeptBelow(names, k, name) :: counts[name]
  }

  ghost predicate KeptBelow(names: seq<string>, k: nat, name: string)
    requires k <= |names|
  {
    exists c | 0 <= c < k :: names[c] == name && Kept(names, c)
  }

  /** The sum of the `n` of the classes below `k` that keep their entry. */
  function EntrySum(yTrue: seq<int>, yPred: seq<int>, names: seq<string>, k: nat): nat
    requires |yPred| == |yTrue| && k <= |names|
  {
    if k == 0 then 0
    else EntrySum(yTrue, yPred, names, k - 1)
         + if Kept(names, k - 1) then CountClass(yTrue, yPred, k - 1).n else 0
  }

  lemma {:induction false} KeptEntriesSum(counts: map<string, ClassCount>, yTrue: seq<int>, yPred: seq<int>,
                                          names: seq<string>, k: nat)
    requires |yPred| == |yTrue| && k <= |names| && IsPerClass(counts, yTrue, yPred, names)
    ensures TotalN(KeptEntries(counts, names, k)) == EntrySum(yTrue, yPred, names, k)
  {
    if k == 0 {
      NothingKept(counts, names);
    } else {
      KeptEntriesSum(counts, yTrue, yPred, names, k - 1);
      StepSum(counts, yTrue, yPred, names, k - 1, EntrySum(yTrue, yPred, names, k - 1));
    }
  }

  lemma NothingKept(counts: map<string, ClassCount>, names: seq<string>)
    ensures TotalN(KeptEntries(counts, names, 0)) == 0
  {
    assert KeptEntries(counts, names, 0) == map[];
  }

  lemma StepSum(counts: map<string, ClassCount>, yTrue: seq<int>, yPred: seq<int>, names: seq<string>, k: nat, sum: nat)
    requires |yPred| == |yTrue| && k < |names| && IsPerClass(counts, yTrue, yPred, names)
    requires sum == TotalN(KeptEntries(counts, names, k)) == EntrySum(yTrue, yPred, names, k)
    ensures TotalN(KeptEntries(counts, names, k + 1)) == EntrySum(yTrue, yPred, names, k + 1)
  {
    OneMoreTotal(counts, names, k);
    assert HoldsCount(counts, yTrue, yPred, names, k);
  }

  lemma OneMoreTotal(counts: map<string, ClassCount>, names: seq<string>, k: nat)
    requires k < |names| && counts.Keys == NamesBelow(names, |names|)
    ensures names[k] in counts
    ensures TotalN(KeptEntries(counts, names, k + 1)) ==
            TotalN(KeptEntries(counts, names, k)) + if Kept(names, k) then counts[names[k]].n else 0
  {
    OneMoreKept(counts, names, k);
    if Kept(names, k) {
      TotalWithout(KeptEntries(counts, names, k + 1), names[k]);
    }
  }

  lemma OneMoreKept(counts: map<string, ClassCount>, names: seq<string>, k: nat)
    requires k < |names| && counts.Keys == NamesBelow(names, |names|)
    ensures !Kept(names, k) ==> KeptEntries(counts, names, k + 1) == KeptEntries(counts, names, k)
    ensures Kept(names, k) ==>
              var more := KeptEntries(counts, names, k + 1);
              names[k] in more && more[names[k]] == counts[names[k]]
              && more - {names[k]} == KeptEntries(counts, names, k)
  {
    assert names[k] in counts;
    forall name ensures KeptBelow(names, k + 1, name) <==>
                        KeptBelow(names, k, name) || (Kept(names, k) && name == names[k])
    {
      OneMoreKeptBelow(names, k, name);
    }
    assert Kept(names, k) ==> !KeptBelow(names, k, names[k]);
  }

  lemma OneMoreKeptBelow(names: seq<string>, k: nat, name: string)
    requires k < |names|
    ensures KeptBelow(names, k + 1, name) <==> KeptBelow(names, k, name) || (Kept(names, k) && name == names[k])
  {
    if KeptBelow(names, k, name) {
      var c :| 0 <= c < k && names[c] == name && Kept(names, c);
    }
  }

  /** Some class of each name keeps its entry: the last one. */
  lemma {:induction false} LastIsKept(names: seq<string>, c: nat) returns (d: nat)
    requires c < |names|
    ensures c <= d < |names| && names[d] == names[c] && Kept(names, d)
    decreases |names| - c
  {
    d := c;
    if !Kept(names, c) {
      var b :| c < b < |names| && names[b] == names[c];
      d := LastIsKept(names, b);
    }
  }

  /** The sum over the entries of the map is the sum over the classes that keep theirs. */
  lemma TotalIsEntrySum(counts: map<string, ClassCount>, yTrue: seq<int>, yPred: seq<int>, names: seq<string>)
    requires |yPred| == |yTrue| && IsPerClass(counts, yTrue, yPred, names)
    ensures TotalN(counts) == EntrySum(yTrue, yPred, names, |names|)
  {
    KeptEntriesSum(counts, yTrue, yPred, names, |names|);
    forall name | name in counts ensures name in KeptEntries(counts, names, |names|) {
      var c :| 0 <= c < |names| && names[c] == name;
      var d := LastIsKept(names, c);
    }
    assert KeptEntries(counts, names, |names|) == counts;
  }

  /** Samples whose class has an entry below `k`. */
  function Covered(yTrue: seq<int>, names: seq<string>, k: nat): nat {
    if yTrue == [] then 0
    else
      var m := |yTrue| - 1;
      Covered(yTrue[..m], names, k) + if yTrue[m] < k && Kept(names, yTrue[m]) then 1 else 0
  }

  lemma {:induction false} OneMoreEntry(yTrue: seq<int>, yPred: seq<int>, names: seq<string>, k: nat)
    requires |yPred| == |yTrue| && k < |names|
    ensures Covered(yTrue, names, k + 1) ==
            Covered(yTrue, names, k) + if Kept(names, k) then CountClass(yTrue, yPred, k).n else 0
  {
    if yTrue != [] {
      OneMoreEntry(yTrue[..|yTrue| - 1], yPred[..|yTrue| - 1], names, k);
    }
  }

  lemma {:induction false} EntrySumIsCovered(yTrue: seq<int>, yPred: seq<int>, names: seq<string>, k: nat)
    requires |yPred| == |yTrue| && k <= |names|
    ensures EntrySum(yTrue, yPred, names, k) == Covered(yTrue, names, k)
  {
    if k > 0 {
      EntrySumIsCovered(yTrue, yPred, names, k - 1);
      OneMoreEntry(yTrue, yPred, names, k - 1);
    } else {
      NothingCovered(yTrue, names);
    }
  }

  lemma {:induction false} NothingCovered(yTrue: seq<int>, names: seq<string>)
    ensures Covered(yTrue, names, 0) == 0
  {
    if yTrue != [] {
      NothingCovered(yTrue[..|yTrue| - 1], names);
    }
  }

  lemma {:induction false} AllCovered(yTrue: seq<int>, names: seq<string>)
    ensures Covered(yTrue, names, |names|) <= |yTrue|
    ensures Covered(yTrue, names, |names|) == |yTrue| <==> forall i | 0 <= i < |yTrue| :: Kept(names, yTrue[i])
  {
    if yTrue != [] {
      var m := |yTrue| - 1;
      AllCovered(yTrue[..m], names);
      assert forall i | 0 <= i < m :: yTrue[..m][i] == yTrue[i];
    }
  }

  /** The per-class `n` sum to the number of samples if and only if every label is the index of a class
      whose name is not given again: a label outside the class list, or a repeated name, loses samples. */
  lemma PerClassSumsIff(counts: map<string, ClassCount>, yTrue: seq<int>, yPred: seq<int>, names: seq<string>)
    requires |yPred| == |yTrue| && IsPerClass(counts, yTrue, yPred, names)
    ensures TotalN(counts) == |yTrue| <==> forall i | 0 <= i < |yTrue| :: Kept(names, yTrue[i])
    ensures TotalN(counts) <= |yTrue|
  {
    TotalIsEntrySum(counts, yTrue, yPred, names);
    EntrySumIsCovered(yTrue, yPred, names, |names|);
    AllCovered(yTrue, names);
  }

  /** Two inputs on which samples are lost: a class name given twice, and a label outside the list. */
  lemma SamplesAreLost(twice: map<string, ClassCount>, outside: map<string, ClassCount>)
    requires IsPerClass(twice, [0], [0], ["a", "a"]) && IsPerClass(outside, [1], [1], ["a"])
    ensures TotalN(twice) < 1 && TotalN(outside) < 1
  {
    var y, z, names := [0], [1], ["a", "a"];
    assert names[1] == names[0];
    PerClassSumsIff(twice, y, [0], ["a", "a"]);
    PerClassSumsIff(outside, z, [1], ["a"]);
    assert !Kept(["a", "a"], y[0]) && !Kept(["a"], z[0]);
  }
}
