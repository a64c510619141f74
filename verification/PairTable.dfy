/** Comparing every pair of a list in row order, for any pairwise finding: what is collected about
    differences, and what is left of the intersection of what the pairs share. */
module PairTable {
  import opened Wrappers

  /** Two names for every pair of positions: those on which the two differ, and those they share. */
  type PairSets = (nat, nat) -> set<string>

  /** A pair that differs, with the names. */
  datatype Mismatch = Mismatch(left: nat, right: nat, names: set<string>)

  datatype Findings = Findings(pairs: seq<Mismatch>, reasons: set<string>, shared: Option<set<string>>)

  function Noted(f: Findings, i: nat, j: nat, differ: set<string>, same: set<string>): Findings {
    Findings(if differ == {} then f.pairs else f.pairs + [Mismatch(i, j, differ)],
             f.reasons + differ,
             Some(if f.shared.None? then same else f.shared.value * same))
  }

  /** Pair (a, b) comes before pair (i, j) in row order. */
  predicate Before(a: nat, b: nat, i: nat, j: nat) {
    a < b && (a < i || (a == i && b < j))
  }

  /** One of `n` positions' pairs, before (i, j). */
  predicate Earlier(n: nat, a: nat, b: nat, i: nat, j: nat) {
    b < n && Before(a, b, i, j)
  }

  ghost predicate InSome(sets: PairSets, n: nat, i: nat, j: nat, x: string) {
    exists a: nat, b: nat :: Earlier(n, a, b, i, j) && x in sets(a, b)
  }

  ghost predicate InAll(sets: PairSets, n: nat, i: nat, j: nat, x: string) {
    forall a: nat, b: nat | Earlier(n, a, b, i, j) :: x in sets(a, b)
  }

  ghost predicate DescribesReasons(reasons: set<string>, differ: PairSets, n: nat, i: nat, j: nat) {
    forall x :: x in reasons <==> InSome(differ, n, i, j, x)
  }

  ghost predicate DescribesShared(shared: set<string>, same: PairSets, n: nat, i: nat, j: nat) {
    forall x :: x in shared <==> InAll(same, n, i, j, x)
  }

  /** The names are those on which the pair differs. */
  ghost predicate Differs(p: Mismatch, differ: PairSets) {
    p.names == differ(p.left, p.right) != {}
  }

  ghost predicate Listed(pairs: seq<Mismatch>, differ: PairSets, a: nat, b: nat) {
    differ(a, b) != {} ==> Mismatch(a, b, differ(a, b)) in pairs
  }

  /** Exactly the differing pairs are listed, each with its names, and in row order. */
  ghost predicate DescribesPairs(pairs: seq<Mismatch>, differ: PairSets, n: nat, i: nat, j: nat) {
    && (forall k | 0 <= k < |pairs| :: Differs(pairs[k], differ) && Earlier(n, pairs[k].left, pairs[k].right, i, j))
    && (forall a: nat, b: nat | Earlier(n, a, b, i, j) :: Listed(pairs, differ, a, b))
    && (forall k, l | 0 <= k < l < |pairs| :: Before(pairs[k].left, pairs[k].right, pairs[l].left, pairs[l].right))
  }

  /** The pairs before the next position are those before this one, and this one. */
  lemma OneMorePair(n: nat, i: nat, j: nat, a: nat, b: nat)
    requires i < j < n
    ensures Earlier(n, a, b, i, j + 1) <==> Earlier(n, a, b, i, j) || (a == i && b == j)
  {
  }

  lemma OneMoreReason(reasons: set<string>, differ: PairSets, n: nat, i: nat, j: nat)
    requires i < j < n && DescribesReasons(reasons, differ, n, i, j)
    ensures DescribesReasons(reasons + differ(i, j), differ, n, i, j + 1)
  {
    forall x ensures InSome(differ, n, i, j + 1, x) <==> InSome(differ, n, i, j, x) || x in differ(i, j) {
      if InSome(differ, n, i, j, x) {
        var a: nat, b: nat :| Earlier(n, a, b, i, j) && x in differ(a, b);
        OneMorePair(n, i, j, a, b);
      }
      OneMorePair(n, i, j, i, j);
    }
  }

  lemma OneMoreShared(shared: set<string>, same: PairSets, n: nat, i: nat, j: nat)
    requires i < j < n && DescribesShared(shared, same, n, i, j)
    ensures DescribesShared(shared * same(i, j), same, n, i, j + 1)
  {
    forall a: nat, b: nat ensures Earlier(n, a, b, i, j + 1) <==> Earlier(n, a, b, i, j) || (a == i && b == j) {
      OneMorePair(n, i, j, a, b);
    }
    forall x ensures InAll(same, n, i, j + 1, x) <==> InAll(same, n, i, j, x) && x in same(i, j) {
      assert Earlier(n, i, j, i, j + 1);
    }
  }

  lemma OneMoreMismatch(pairs: seq<Mismatch>, differ: PairSets, n: nat, i: nat, j: nat)
    requires i < j < n && DescribesPairs(pairs, differ, n, i, j)
    ensures DescribesPairs(if differ(i, j) == {} then pairs else pairs + [Mismatch(i, j, differ(i, j))],
                           differ, n, i, j + 1)
  {
    var longer := if differ(i, j) == {} then pairs else pairs + [Mismatch(i, j, differ(i, j))];
    forall a: nat, b: nat | Earlier(n, a, b, i, j + 1) ensures Listed(longer, differ, a, b) {
      OneMorePair(n, i, j, a, b);
      assert Earlier(n, a, b, i, j) ==> Listed(pairs, differ, a, b);
    }
  }

  /** The end of one row is the beginning of the next. */
  lemma RowEnds(n: nat, i: nat, a: nat, b: nat)
    requires i + 1 < n
    ensures Earlier(n, a, b, i, n) <==> Earlier(n, a, b, i + 1, i + 2)
  {
  }

  const NOTHING := Findings([], {}, None)

  /** The findings after comparing pair (i, j) and all later ones. */
  function CompareFrom(f: Findings, differ: PairSets, same: PairSets, n: nat, i: nat, j: nat): Findings
    requires i < j <= n
    decreases n - i, n - j
  {
    if j < n then CompareFrom(Noted(f, i, j, differ(i, j), same(i, j)), differ, same, n, i, j + 1)
    else if i + 1 < n then CompareFrom(f, differ, same, n, i + 1, i + 2)
    else f
  }

  function CompareAll(differ: PairSets, same: PairSets, n: nat): Findings
    requires n >= 2
  {
    CompareFrom(NOTHING, differ, same, n, 0, 1)
  }

  lemma {:induction false} ReasonsFrom(f: Findings, differ: PairSets, same: PairSets, n: nat, i: nat, j: nat)
    requires i < j <= n && DescribesReasons(f.reasons, differ, n, i, j)
    ensures DescribesReasons(CompareFrom(f, differ, same, n, i, j).reasons, differ, n, n - 1, n)
    decreases n - i, n - j
  {
    if j < n {
      OneMoreReason(f.reasons, differ, n, i, j);
      ReasonsFrom(Noted(f, i, j, differ(i, j), same(i, j)), differ, same, n, i, j + 1);
    } else if i + 1 < n {
      forall x ensures InSome(differ, n, i, n, x) <==> InSome(differ, n, i + 1, i + 2, x) {
        forall a: nat, b: nat ensures Earlier(n, a, b, i, n) <==> Earlier(n, a, b, i + 1, i + 2) {
          RowEnds(n, i, a, b);
        }
      }
      ReasonsFrom(f, differ, same, n, i + 1, i + 2);
    }
  }

  lemma {:induction false} SharedFrom(f: Findings, differ: PairSets, same: PairSets, n: nat, i: nat, j: nat)
    requires i < j <= n && (f.shared.None? ==> i == 0 && j == 1 && n >= 2)
    requires f.shared.Some? ==> DescribesShared(f.shared.value, same, n, i, j)
    ensures var g := CompareFrom(f, differ, same, n, i, j);
            g.shared.Some? && DescribesShared(g.shared.value, same, n, n - 1, n)
    decreases n - i, n - j
  {
    if j < n {
      if f.shared.Some? {
        OneMoreShared(f.shared.value, same, n, i, j);
      } else {
        FirstShared(same, n);
      }
      SharedFrom(Noted(f, i, j, differ(i, j), same(i, j)), differ, same, n, i, j + 1);
    } else if i + 1 < n {
      forall x ensures InAll(same, n, i, n, x) <==> InAll(same, n, i + 1, i + 2, x) {
        forall a: nat, b: nat ensures Earlier(n, a, b, i, n) <==> Earlier(n, a, b, i + 1, i + 2) {
          RowEnds(n, i, a, b);
        }
      }
      SharedFrom(f, differ, same, n, i + 1, i + 2);
    }
  }

  lemma FirstShared(same: PairSets, n: nat)
    requires n >= 2
    ensures DescribesShared(same(0, 1), same, n, 0, 2)
  {
    assert Earlier(n, 0, 1, 0, 2);
    forall x ensures InAll(same, n, 0, 2, x) <==> x in same(0, 1) {
    }
  }

  lemma {:induction false} PairsFrom(f: Findings, differ: PairSets, same: PairSets, n: nat, i: nat, j: nat)
    requires i < j <= n && DescribesPairs(f.pairs, differ, n, i, j)
    ensures DescribesPairs(CompareFrom(f, differ, same, n, i, j).pairs, differ, n, n - 1, n)
    decreases n - i, n - j
  {
    if j < n {
      OneMoreMismatch(f.pairs, differ, n, i, j);
      PairsFrom(Noted(f, i, j, differ(i, j), same(i, j)), differ, same, n, i, j + 1);
    } else if i + 1 < n {
      PairsAtRowEnd(f.pairs, differ, n, i);
      PairsFrom(f, differ, same, n, i + 1, i + 2);
    }
  }

  lemma PairsAtRowEnd(pairs: seq<Mismatch>, differ: PairSets, n: nat, i: nat)
    requires i + 1 < n && DescribesPairs(pairs, differ, n, i, n)
    ensures DescribesPairs(pairs, differ, n, i + 1, i + 2)
  {
    forall a: nat, b: nat | Earlier(n, a, b, i + 1, i + 2) ensures Listed(pairs, differ, a, b) {
      RowEnds(n, i, a, b);
    }
    forall k | 0 <= k < |pairs| ensures Earlier(n, pairs[k].left, pairs[k].right, i + 1, i + 2) {
      RowEnds(n, i, pairs[k].left, pairs[k].right);
    }
  }

  /** Compare position `i` with every later one. */
  method CompareRow(before: Findings, differ: PairSets, same: PairSets, n: nat, i: nat) returns (f: Findings)
    requires i < n
    ensures CompareFrom(before, differ, same, n, i, i + 1) == CompareFrom(f, differ, same, n, i, n)
  {
    f := before;
    var j := i + 1;
    while j < n
      invariant i < j <= n
      invariant CompareFrom(before, differ, same, n, i, i + 1) == CompareFrom(f, differ, same, n, i, j)
    {
      f := Noted(f, i, j, differ(i, j), same(i, j));
      j := j + 1;
    }
  }

  /** Compare every pair of `n` positions. */
  method Compare(differ: PairSets, same: PairSets, n: nat) returns (f: Findings)
    requires n >= 2
    ensures f == CompareAll(differ, same, n)
  {
    f := NOTHING;
    var i := 0;
    while i < n
      invariant i <= n
      invariant CompareAll(differ, same, n) == if i < n then CompareFrom(f, differ, same, n, i, i + 1) else f
    {
      f := CompareRow(f, differ, same, n, i);
      i := i + 1;
    }
  }

  /** Some pair differs on `x`. */
  ghost predicate SomePair(differ: PairSets, n: nat, x: string) {
    exists a: nat, b: nat :: a < b < n && x in differ(a, b)
  }

  ghost predicate Reasons(reasons: set<string>, differ: PairSets, n: nat) {
    forall x :: x in reasons <==> SomePair(differ, n, x)
  }

  /** All pairs share `x`. */
  ghost predicate EveryPair(same: PairSets, n: nat, x: string) {
    forall a: nat, b: nat | a < b < n :: x in same(a, b)
  }

  /** No pair differs. */
  ghost predicate NoPair(differ: PairSets, n: nat) {
    forall a: nat, b: nat | a < b < n :: differ(a, b) == {}
  }

  /** What comparing every pair collects, without the loop's order: the names some pair differs on, the
      names all pairs share, and the differing pairs. */
  lemma FindingsOfAllPairs(differ: PairSets, same: PairSets, n: nat)
    requires n >= 2
    ensures var f := CompareAll(differ, same, n);
            && f.shared.Some?
            && Reasons(f.reasons, differ, n)
            && (forall x :: x in f.shared.value <==> EveryPair(same, n, x))
            && DescribesPairs(f.pairs, differ, n, n - 1, n)
            && (f.pairs == [] <==> NoPair(differ, n))
  {
    var f := CompareAll(differ, same, n);
    ReasonsFrom(NOTHING, differ, same, n, 0, 1);
    SharedFrom(NOTHING, differ, same, n, 0, 1);
    PairsFrom(NOTHING, differ, same, n, 0, 1);
    ReasonsOfAllPairs(f.reasons, differ, n);
    SharedOfAllPairs(f.shared.value, same, n);
    if f.pairs == [] {
      forall a: nat, b: nat | a < b < n ensures differ(a, b) == {} {
        assert Earlier(n, a, b, n - 1, n) && Listed(f.pairs, differ, a, b);
      }
    } else {
      assert Differs(f.pairs[0], differ) && Earlier(n, f.pairs[0].left, f.pairs[0].right, n - 1, n);
    }
  }

  lemma ReasonsOfAllPairs(reasons: set<string>, differ: PairSets, n: nat)
    requires n >= 2 && DescribesReasons(reasons, differ, n, n - 1, n)
    ensures Reasons(reasons, differ, n)
  {
    forall x ensures InSome(differ, n, n - 1, n, x) <==> SomePair(differ, n, x) {
      if SomePair(differ, n, x) {
        var a: nat, b: nat :| a < b < n && x in differ(a, b);
        assert Earlier(n, a, b, n - 1, n);
      }
    }
  }

  lemma SharedOfAllPairs(shared: set<string>, same: PairSets, n: nat)
    requires n >= 2 && DescribesShared(shared, same, n, n - 1, n)
    ensures forall x :: x in shared <==> EveryPair(same, n, x)
  {
    forall x ensures InAll(same, n, n - 1, n, x) <==> EveryPair(same, n, x) {
      if InAll(same, n, n - 1, n, x) {
        forall a: nat, b: nat | a < b < n ensures x in same(a, b) {
          assert Earlier(n, a, b, n - 1, n);
        }
      }
    }
  }
}
