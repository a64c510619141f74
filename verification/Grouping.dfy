/** The greedy partition by a pairwise rule: a member joins the first group whose first member it is
    compatible with, and otherwise opens a group. What it gives for any rule, and for which members the
    groups are the classes of the rule. */
module Grouping {
  import opened Wrappers
  import PairTable

  /** A pairwise rule: whether two records go together, and the variables they have in common. */
  datatype Rule<!R> = Rule(compatible: (R, R) -> bool, common: (R, R) -> set<string>)

  datatype Member<R> = Member(id: string, record: R)

  /** A group: its members in request order and, from the second member on, the variables the first
      shares with each of the others. */
  datatype Group<R> = Group(members: seq<Member<R>>, shared: Option<set<string>>)

  predicate Fits<R>(rule: Rule<R>, group: Group<R>, m: Member<R>) {
    group.members != [] && rule.compatible(group.members[0].record, m.record)
  }

  /** The first group from `start` on that `m` fits, or the number of groups. */
  function HomeFrom<R>(rule: Rule<R>, groups: seq<Group<R>>, m: Member<R>, start: nat): (g: nat)
    requires start <= |groups|
    ensures start <= g <= |groups|
    ensures forall k | start <= k < g :: !Fits(rule, groups[k], m)
    ensures g < |groups| ==> Fits(rule, groups[g], m)
    decreases |groups| - start
  {
    if start == |groups| || Fits(rule, groups[start], m) then start else HomeFrom(rule, groups, m, start + 1)
  }

  function Joined<R>(rule: Rule<R>, group: Group<R>, m: Member<R>): Group<R>
    requires group.members != []
  {
    var common := rule.common(group.members[0].record, m.record);
    Group(group.members + [m],
          Some(match group.shared case None => common case Some(current) => current * common))
  }

  function Placed<R>(rule: Rule<R>, groups: seq<Group<R>>, m: Member<R>): seq<Group<R>> {
    var g := HomeFrom(rule, groups, m, 0);
    if g < |groups| then groups[g := Joined(rule, groups[g], m)] else groups + [Group([m], None)]
  }

  /** The partition of the members, in request order. */
  function Grouped<R>(rule: Rule<R>, members: seq<Member<R>>): seq<Group<R>> {
    if members == [] then []
    else Placed(rule, Grouped(rule, members[..|members| - 1]), members[|members| - 1])
  }

  method Place<R>(rule: Rule<R>, groups: seq<Group<R>>, m: Member<R>) returns (placed: seq<Group<R>>)
    ensures placed == Placed(rule, groups, m)
  {
    var g := 0;
    while g < |groups| && !Fits(rule, groups[g], m)
      invariant g <= |groups|
      invariant HomeFrom(rule, groups, m, 0) == HomeFrom(rule, groups, m, g)
    {
      g := g + 1;
    }
    if g < |groups| {
      placed := groups[g := Joined(rule, groups[g], m)];
    } else {
      placed := groups + [Group([m], None)];
    }
  }

  /** Place the members one after the other. */
  method Partition<R>(rule: Rule<R>, members: seq<Member<R>>) returns (groups: seq<Group<R>>)
    ensures groups == Grouped(rule, members)
  {
    groups := [];
    for i := 0 to |members|
      invariant groups == Grouped(rule, members[..i])
    {
      assert members[..i + 1][..i] == members[..i];
      groups := Place(rule, groups, members[i]);
    }
    assert members[..|members|] == members;
  }

  // ---------------------------------------------------------------- what the greedy loop keeps

  /** Every member joined because of the first one, past all earlier groups. */
  ghost predicate StarShaped<R>(rule: Rule<R>, groups: seq<Group<R>>) {
    && (forall g | 0 <= g < |groups| :: groups[g].members != [])
    && (forall g, j | 0 <= g < |groups| && 0 < j < |groups[g].members| ::
          rule.compatible(groups[g].members[0].record, groups[g].members[j].record))
    && (forall g, k, j | 0 <= g < k < |groups| && 0 <= j < |groups[k].members| ::
          !rule.compatible(groups[g].members[0].record, groups[k].members[j].record))
  }

  lemma PlacedKeepsStars<R>(rule: Rule<R>, groups: seq<Group<R>>, m: Member<R>)
    requires StarShaped(rule, groups)
    ensures StarShaped(rule, Placed(rule, groups, m))
  {
    var home := HomeFrom(rule, groups, m, 0);
    var placed := Placed(rule, groups, m);
    forall g, k, j | 0 <= g < k < |placed| && 0 <= j < |placed[k].members|
      ensures !rule.compatible(placed[g].members[0].record, placed[k].members[j].record)
    {
      if k == home && j == |placed[k].members| - 1 {
        assert !Fits(rule, groups[g], m);
      } else {
        assert placed[k].members[j] == groups[k].members[j];
      }
    }
  }

  lemma {:induction false} GroupedStarShaped<R>(rule: Rule<R>, members: seq<Member<R>>)
    ensures StarShaped(rule, Grouped(rule, members))
  {
    if members != [] {
      var n := |members| - 1;
      GroupedStarShaped(rule, members[..n]);
      PlacedKeepsStars(rule, Grouped(rule, members[..n]), members[n]);
    }
  }

  /** The members whose owner is group `g`, in request order. */
  function Owned<R>(members: seq<Member<R>>, owner: seq<nat>, g: nat): seq<Member<R>>
    requires |owner| == |members|
  {
    if members == [] then []
    else
      var n := |members| - 1;
      Owned(members[..n], owner[..n], g) + if owner[n] == g then [members[n]] else []
  }

  /** Each member is in exactly one group, and each group lists its members in request order. */
  ghost predicate Partitions<R>(groups: seq<Group<R>>, members: seq<Member<R>>, owner: seq<nat>) {
    && |owner| == |members|
    && (forall i | 0 <= i < |owner| :: owner[i] < |groups|)
    && (forall g | 0 <= g < |groups| :: groups[g].members == Owned(members, owner, g))
  }

  lemma {:induction false} GroupedPartitions<R>(rule: Rule<R>, members: seq<Member<R>>) returns (owner: seq<nat>)
    ensures Partitions(Grouped(rule, members), members, owner)
  {
    owner := [];
    if members != [] {
      var n := |members| - 1;
      var earlier := GroupedPartitions(rule, members[..n]);
      owner := PlacedPartitions(rule, Grouped(rule, members[..n]), members, earlier);
    }
  }

  lemma PlacedPartitions<R>(rule: Rule<R>, groups: seq<Group<R>>, members: seq<Member<R>>, earlier: seq<nat>)
    returns (owner: seq<nat>)
    requires members != []
    requires Partitions(groups, members[..|members| - 1], earlier)
    ensures Partitions(Placed(rule, groups, members[|members| - 1]), members, owner)
  {
    var front, m := members[..|members| - 1], members[|members| - 1];
    var home := HomeFrom(rule, groups, m, 0);
    owner := earlier + [home];
    NoneOwnedYet(front, earlier, |groups|);
    assert owner[..|front|] == earlier;
    assert forall g: nat :: Owned(members, owner, g) == Owned(front, earlier, g) + if home == g then [m] else [];
  }

  lemma {:induction false} NoneOwnedYet<R>(members: seq<Member<R>>, owner: seq<nat>, g: nat)
    requires |owner| == |members| && forall i | 0 <= i < |owner| :: owner[i] < g
    ensures Owned(members, owner, g) == []
  {
    if members != [] {
      NoneOwnedYet(members[..|members| - 1], owner[..|members| - 1], g);
    }
  }

  lemma MemberOfGroupIsMember<R>(rule: Rule<R>, members: seq<Member<R>>, g: nat, i: nat)
    requires g < |Grouped(rule, members)| && i < |Grouped(rule, members)[g].members|
    ensures Grouped(rule, members)[g].members[i] in members
  {
    var owner := GroupedPartitions(rule, members);
    OwnedAreMembers(members, owner, g);
  }

  lemma {:induction false} OwnedAreMembers<R>(members: seq<Member<R>>, owner: seq<nat>, g: nat)
    requires |owner| == |members|
    ensures forall m | m in Owned(members, owner, g) :: m in members
  {
    if members != [] {
      OwnedAreMembers(members[..|members| - 1], owner[..|members| - 1], g);
    }
  }

  lemma {:induction false} MemberIsOwned<R>(members: seq<Member<R>>, owner: seq<nat>, i: nat)
    requires |owner| == |members| && i < |members|
    ensures members[i] in Owned(members, owner, owner[i])
  {
    if i < |members| - 1 {
      MemberIsOwned(members[..|members| - 1], owner[..|members| - 1], i);
    }
  }

  predicate DistinctIds<R>(members: seq<Member<R>>) {
    forall i, j | 0 <= i < j < |members| :: members[i].id != members[j].id
  }

  lemma {:induction false} OwnedDistinct<R>(members: seq<Member<R>>, owner: seq<nat>, g: nat)
    requires |owner| == |members| && DistinctIds(members)
    ensures DistinctIds(Owned(members, owner, g))
  {
    if members != [] {
      var n := |members| - 1;
      OwnedDistinct(members[..n], owner[..n], g);
      OwnedAreMembers(members[..n], owner[..n], g);
      forall m | m in Owned(members[..n], owner[..n], g) ensures m.id != members[n].id {
        var i :| 0 <= i < n && members[..n][i] == m;
      }
    }
  }

  // ---------------------------------------------------------------- groups as classes

  /** Any two members of one group are compatible. */
  ghost predicate CompatibleWithin<R>(rule: Rule<R>, groups: seq<Group<R>>) {
    forall g, i, j | 0 <= g < |groups| && 0 <= i < j < |groups[g].members| ::
      rule.compatible(groups[g].members[i].record, groups[g].members[j].record)
  }

  /** No two members of different groups are. */
  ghost predicate IncompatibleAcross<R>(rule: Rule<R>, groups: seq<Group<R>>) {
    forall g, k, i, j | 0 <= g < k < |groups| && 0 <= i < |groups[g].members| && 0 <= j < |groups[k].members| ::
      !rule.compatible(groups[g].members[i].record, groups[k].members[j].record)
  }

  ghost predicate AreClasses<R>(rule: Rule<R>, groups: seq<Group<R>>) {
    CompatibleWithin(rule, groups) && IncompatibleAcross(rule, groups)
  }

  /** A rule that does not depend on the order of a pair, and relates to itself whatever it relates. */
  ghost predicate Lawful<R(!new)>(rule: Rule<R>) {
    forall a, b | rule.compatible(a, b) :: rule.compatible(b, a) && rule.compatible(a, a)
  }

  ghost predicate TransitiveOn<R>(rule: Rule<R>, members: seq<Member<R>>) {
    forall a, b, c | a in members && b in members && c in members ::
      Chained(rule, a, b, c) ==> rule.compatible(a.record, c.record)
  }

  ghost predicate Chained<R>(rule: Rule<R>, a: Member<R>, b: Member<R>, c: Member<R>) {
    rule.compatible(a.record, b.record) && rule.compatible(b.record, c.record)
  }

  /** The groups are the classes of the rule if and only if the rule is transitive on the members. */
  lemma ClassesIffTransitive<R(!new)>(rule: Rule<R>, members: seq<Member<R>>)
    requires Lawful(rule)
    ensures AreClasses(rule, Grouped(rule, members)) <==> TransitiveOn(rule, members)
  {
    if TransitiveOn(rule, members) {
      TransitiveGivesClasses(rule, members);
    }
    if AreClasses(rule, Grouped(rule, members)) {
      forall a, b, c | a in members && b in members && c in members && Chained(rule, a, b, c)
        ensures rule.compatible(a.record, c.record)
      {
        ClassesAreTransitive(rule, members, a, b, c);
      }
    }
  }

  lemma TransitiveGivesClasses<R(!new)>(rule: Rule<R>, members: seq<Member<R>>)
    requires Lawful(rule) && TransitiveOn(rule, members)
    ensures AreClasses(rule, Grouped(rule, members))
  {
    var groups := Grouped(rule, members);
    GroupedStarShaped(rule, members);
    forall g, i, j | 0 <= g < |groups| && 0 <= i < j < |groups[g].members|
      ensures rule.compatible(groups[g].members[i].record, groups[g].members[j].record)
    {
      CompatibleInGroup(rule, members, g, i, j);
    }
    forall g, k, i, j | 0 <= g < k < |groups| && 0 <= i < |groups[g].members| && 0 <= j < |groups[k].members|
      ensures !rule.compatible(groups[g].members[i].record, groups[k].members[j].record)
    {
      IncompatibleAcrossGroups(rule, members, g, i, k, j);
    }
  }

  lemma CompatibleInGroup<R(!new)>(rule: Rule<R>, members: seq<Member<R>>, g: nat, i: nat, j: nat)
    requires Lawful(rule) && TransitiveOn(rule, members)
    requires g < |Grouped(rule, members)| && i < j < |Grouped(rule, members)[g].members|
    ensures var own := Grouped(rule, members)[g].members; rule.compatible(own[i].record, own[j].record)
  {
    GroupedStarShaped(rule, members);
    if i > 0 {
      MemberOfGroupIsMember(rule, members, g, 0);
      MemberOfGroupIsMember(rule, members, g, i);
      MemberOfGroupIsMember(rule, members, g, j);
      var own := Grouped(rule, members)[g].members;
      assert Chained(rule, own[i], own[0], own[j]);
    }
  }

  lemma IncompatibleAcrossGroups<R(!new)>(rule: Rule<R>, members: seq<Member<R>>, g: nat, i: nat, k: nat, j: nat)
    requires Lawful(rule) && TransitiveOn(rule, members)
    requires g < k < |Grouped(rule, members)|
    requires i < |Grouped(rule, members)[g].members| && j < |Grouped(rule, members)[k].members|
    ensures !rule.compatible(Grouped(rule, members)[g].members[i].record, Grouped(rule, members)[k].members[j].record)
  {
    GroupedStarShaped(rule, members);
    var f, x, y := Grouped(rule, members)[g].members[0], Grouped(rule, members)[g].members[i],
                   Grouped(rule, members)[k].members[j];
    MemberOfGroupIsMember(rule, members, g, 0);
    MemberOfGroupIsMember(rule, members, g, i);
    MemberOfGroupIsMember(rule, members, k, j);
    assert i > 0 && rule.compatible(x.record, y.record) ==> Chained(rule, f, x, y);
  }

  /** Position of a member in the groups. */
  lemma FindMember<R>(rule: Rule<R>, members: seq<Member<R>>, m: Member<R>) returns (g: nat, i: nat)
    requires m in members
    ensures g < |Grouped(rule, members)| && i < |Grouped(rule, members)[g].members|
    ensures Grouped(rule, members)[g].members[i] == m
  {
    var owner := GroupedPartitions(rule, members);
    var k :| 0 <= k < |members| && members[k] == m;
    MemberIsOwned(members, owner, k);
    g := owner[k];
    i :| 0 <= i < |Grouped(rule, members)[g].members| && Grouped(rule, members)[g].members[i] == m;
  }

  lemma ClassesAreTransitive<R(!new)>(rule: Rule<R>, members: seq<Member<R>>, a: Member<R>, b: Member<R>, c: Member<R>)
    requires Lawful(rule) && AreClasses(rule, Grouped(rule, members))
    requires a in members && b in members && c in members && Chained(rule, a, b, c)
    ensures rule.compatible(a.record, c.record)
  {
    var g, i := FindMember(rule, members, a);
    var k, j := FindMember(rule, members, b);
    var l, m := FindMember(rule, members, c);
    var groups := Grouped(rule, members);
    assert g == k && k == l;
    assert i < m ==> rule.compatible(groups[g].members[i].record, groups[g].members[m].record);
    assert m < i ==> rule.compatible(groups[g].members[m].record, groups[g].members[i].record);
  }

  // ---------------------------------------------------------------- shared variables

  /** `name` is common to the first record and each of the others. */
  ghost predicate SharedWithFirst<R>(rule: Rule<R>, members: seq<Member<R>>, name: string) {
    forall j | 0 < j < |members| :: name in rule.common(members[0].record, members[j].record)
  }

  /** `name` is common to any two records. */
  ghost predicate SharedByPairs<R>(rule: Rule<R>, members: seq<Member<R>>, name: string) {
    forall i, j | 0 <= i < j < |members| :: name in rule.common(members[i].record, members[j].record)
  }

  ghost predicate ReportsStar<R>(rule: Rule<R>, group: Group<R>) {
    && (group.shared.None? <==> |group.members| <= 1)
    && (group.shared.Some? ==>
          forall name :: name in group.shared.value <==> SharedWithFirst(rule, group.members, name))
  }

  /** What a group reports is what any two of its members share. */
  ghost predicate ReportsPairs<R>(rule: Rule<R>, group: Group<R>) {
    group.shared.Some? ==> SharesOfPairs(rule, group.members, group.shared.value)
  }

  ghost predicate SharesOfPairs<R>(rule: Rule<R>, members: seq<Member<R>>, shared: set<string>) {
    forall name :: name in shared <==> SharedByPairs(rule, members, name)
  }

  lemma JoinedReportsStar<R>(rule: Rule<R>, group: Group<R>, m: Member<R>)
    requires ReportsStar(rule, group) && group.members != []
    ensures ReportsStar(rule, Joined(rule, group, m))
  {
    var joined := Joined(rule, group, m);
    var n := |group.members|;
    assert joined.members[n] == m && joined.members[0] == group.members[0];
    assert forall j | 0 < j < n :: joined.members[j] == group.members[j];
    forall name
      ensures name in joined.shared.value <==> SharedWithFirst(rule, joined.members, name)
    {
      assert SharedWithFirst(rule, joined.members, name) <==>
             SharedWithFirst(rule, group.members, name) && name in rule.common(group.members[0].record, m.record);
    }
  }

  /** A group reports exactly the variables its first member shares with each of the others. */
  lemma {:induction false} GroupedReportStars<R>(rule: Rule<R>, members: seq<Member<R>>)
    ensures forall group | group in Grouped(rule, members) :: ReportsStar(rule, group)
  {
    if members != [] {
      var n := |members| - 1;
      var groups := Grouped(rule, members[..n]);
      GroupedReportStars(rule, members[..n]);
      GroupedStarShaped(rule, members[..n]);
      var home := HomeFrom(rule, groups, members[n], 0);
      if home < |groups| {
        assert groups[home] in groups;
        JoinedReportsStar(rule, groups[home], members[n]);
      }
    }
  }

  /** What the first record shares with two it is compatible with, those two share. */
  ghost predicate StarCloses<R>(rule: Rule<R>, f: R, x: R, y: R, name: string) {
    && rule.compatible(f, x) && rule.compatible(f, y)
    && name in rule.common(f, x) && name in rule.common(f, y)
    ==> name in rule.common(x, y)
  }

  ghost predicate StarsClose<R(!new)>(rule: Rule<R>, f: R) {
    forall x, y, name :: StarCloses(rule, f, x, y, name)
  }

  /** Comparing with such a first member only finds exactly what comparing every pair finds. */
  lemma StarIsAllPairs<R(!new)>(rule: Rule<R>, members: seq<Member<R>>, g: nat)
    requires g < |Grouped(rule, members)| && Grouped(rule, members)[g].members != []
    requires StarsClose(rule, Grouped(rule, members)[g].members[0].record)
    ensures ReportsPairs(rule, Grouped(rule, members)[g])
  {
    var group := Grouped(rule, members)[g];
    var own := group.members;
    GroupedStarShaped(rule, members);
    GroupedReportStars(rule, members);
    assert group in Grouped(rule, members);
    forall name ensures SharedWithFirst(rule, own, name) <==> SharedByPairs(rule, own, name) {
      if SharedWithFirst(rule, own, name) {
        forall i, j | 0 <= i < j < |own| ensures name in rule.common(own[i].record, own[j].record) {
          assert i > 0 ==> StarCloses(rule, own[0].record, own[i].record, own[j].record, name);
        }
      }
    }
  }

  /** Three mutually compatible records make one group, which reports what the first shares with both. */
  lemma ThreeMakeOneGroup<R>(rule: Rule<R>, a: Member<R>, b: Member<R>, c: Member<R>)
    requires rule.compatible(a.record, b.record) && rule.compatible(a.record, c.record)
    ensures Grouped(rule, [a, b, c]) ==
            [Group([a, b, c], Some(rule.common(a.record, b.record) * rule.common(a.record, c.record)))]
  {
    assert [a, b, c][..2] == [a, b] && [a, b][..1] == [a] && [a][..0] == [];
    assert Grouped(rule, [a]) == [Group([a], None)];
    assert Grouped(rule, [a, b]) == [Group([a] + [b], Some(rule.common(a.record, b.record)))];
    assert [a] + [b] == [a, b] && [a, b] + [c] == [a, b, c];
  }

  /** Such a group misreports a name the first shares with both others and those two do not share. */
  lemma ThreeReport<R>(rule: Rule<R>, a: Member<R>, b: Member<R>, c: Member<R>, name: string)
    requires rule.compatible(a.record, b.record) && rule.compatible(a.record, c.record)
    requires rule.compatible(b.record, c.record)
    requires name in rule.common(a.record, b.record) && name in rule.common(a.record, c.record)
    requires name !in rule.common(b.record, c.record)
    ensures var groups := Grouped(rule, [a, b, c]);
            && |groups| == 1 && groups[0].members == [a, b, c]
            && AreClasses(rule, groups) && !ReportsPairs(rule, groups[0])
  {
    ThreeMakeOneGroup(rule, a, b, c);
    assert [a, b, c][1] == b && [a, b, c][2] == c;
    assert !SharedByPairs(rule, [a, b, c], name);
  }

  // ---------------------------------------------------------------- the pairs of a list

  ghost predicate AllCompatible<R>(rule: Rule<R>, members: seq<Member<R>>) {
    forall i, j | 0 <= i < j < |members| :: rule.compatible(members[i].record, members[j].record)
  }

  /** Two tables of names say of one pair what the rule says. */
  ghost predicate PairLinked<R>(rule: Rule<R>, members: seq<Member<R>>, differ: PairTable.PairSets,
                                same: PairTable.PairSets, i: nat, j: nat)
    requires i < j < |members|
  {
    && (differ(i, j) == {} <==> rule.compatible(members[i].record, members[j].record))
    && same(i, j) == rule.common(members[i].record, members[j].record)
  }

  /** Comparing every pair finds no difference exactly when all members are compatible, and collects
      exactly the names all pairs share. */
  lemma FindingsForRule<R>(rule: Rule<R>, members: seq<Member<R>>, differ: PairTable.PairSets, same: PairTable.PairSets)
    requires |members| >= 2
    requires forall i: nat, j: nat | i < j < |members| :: PairLinked(rule, members, differ, same, i, j)
    ensures var f, n := PairTable.CompareAll(differ, same, |members|), |members|;
            && f.shared.Some? && SharesOfPairs(rule, members, f.shared.value)
            && PairTable.Reasons(f.reasons, differ, n)
            && PairTable.DescribesPairs(f.pairs, differ, n, n - 1, n)
            && (f.pairs == [] <==> AllCompatible(rule, members))
  {
    var n := |members|;
    PairTable.FindingsOfAllPairs(differ, same, n);
    assert PairTable.NoPair(differ, n) <==> AllCompatible(rule, members) by {
      if PairTable.NoPair(differ, n) {
        forall i, j | 0 <= i < j < n ensures rule.compatible(members[i].record, members[j].record) {
          assert PairLinked(rule, members, differ, same, i, j);
        }
      } else {
        var i: nat, j: nat :| i < j < n && differ(i, j) != {};
        assert PairLinked(rule, members, differ, same, i, j);
      }
    }
    forall name ensures PairTable.EveryPair(same, n, name) <==> SharedByPairs(rule, members, name) {
      EveryPairIsShared(rule, members, differ, same, name);
    }
  }

  lemma EveryPairIsShared<R>(rule: Rule<R>, members: seq<Member<R>>, differ: PairTable.PairSets,
                             same: PairTable.PairSets, name: string)
    requires forall i: nat, j: nat | i < j < |members| :: PairLinked(rule, members, differ, same, i, j)
    ensures PairTable.EveryPair(same, |members|, name) <==> SharedByPairs(rule, members, name)
  {
    if PairTable.EveryPair(same, |members|, name) {
      forall i, j | 0 <= i < j < |members| ensures name in rule.common(members[i].record, members[j].record) {
        assert PairLinked(rule, members, differ, same, i, j);
      }
    } else {
      var i: nat, j: nat :| i < j < |members| && name !in same(i, j);
      assert PairLinked(rule, members, differ, same, i, j);
    }
  }
}
