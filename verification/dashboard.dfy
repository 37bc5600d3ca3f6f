/**
 The progress dashboard's arithmetic (src/components/ProgressDashboard.tsx,
 copied inline in App.tsx): the XP earned inside the current level, and the
 badges grouped by category, groups in order of first appearance.
 */
module Dashboard {
  import opened Types
  import opened Constants
  import opened Progression

  /** `currentLevelXp = xp - (level - 1) * XP_TO_LEVEL_UP`. */
  function CurrentLevelXp(xp: int, level: int): (r: int)
    ensures r + (level - 1) * XpToLevelUp == xp
  {
    xp - (level - 1) * XpToLevelUp
  }

  /** When the level is the one the XP belongs to, the in-level XP lies in [0, 200). */
  lemma CurrentLevelXpInRange(p: Progress)
    requires LevelConsistent(p)
    ensures 0 <= CurrentLevelXp(p.xp, p.level) < XpToLevelUp
    ensures CurrentLevelXp(p.xp, p.level) == p.xp % XpToLevelUp
  {
  }

  /** One group of the dashboard: a category and its badges. */
  datatype Group = Group(category: BadgeCategory, badges: seq<Badge>)

  /** `acc[category].push(badge)`, creating the group at the end when the category is new. */
  function AddToGroups(groups: seq<Group>, b: Badge): (r: seq<Group>)
    ensures |r| == |groups| || |r| == |groups| + 1
  {
    if |groups| == 0 then [Group(b.category, [b])]
    else if groups[0].category == b.category then [Group(b.category, groups[0].badges + [b])] + groups[1..]
    else [groups[0]] + AddToGroups(groups[1..], b)
  }

  /** The `reduce` that builds `groupedBadges`, keys kept in insertion order as `Object.keys` lists them. */
  function GroupBadges(bs: seq<Badge>): seq<Group>
    decreases |bs|
  {
    if |bs| == 0 then [] else AddToGroups(GroupBadges(bs[..|bs| - 1]), bs[|bs| - 1])
  }

  /** The badges of one category, in list order. */
  function OfCategory(bs: seq<Badge>, c: BadgeCategory): (r: seq<Badge>)
    ensures forall i :: 0 <= i < |r| ==> r[i].category == c
    decreases |bs|
  {
    if |bs| == 0 then []
    else OfCategory(bs[..|bs| - 1], c) + (if bs[|bs| - 1].category == c then [bs[|bs| - 1]] else [])
  }

  /** The categories of a list, each once, in order of first appearance. */
  function CategoriesInOrder(bs: seq<Badge>): (r: seq<BadgeCategory>)
    decreases |bs|
  {
    if |bs| == 0 then []
    else
      var earlier := CategoriesInOrder(bs[..|bs| - 1]);
      if bs[|bs| - 1].category in earlier then earlier else earlier + [bs[|bs| - 1].category]
  }

  function Flatten(groups: seq<Group>): seq<Badge> {
    if |groups| == 0 then [] else groups[0].badges + Flatten(groups[1..])
  }

  function GroupCategories(groups: seq<Group>): (r: seq<BadgeCategory>)
    ensures |r| == |groups|
    ensures forall k :: 0 <= k < |groups| ==> r[k] == groups[k].category
  {
    if |groups| == 0 then [] else [groups[0].category] + GroupCategories(groups[1..])
  }

  /** Each group holds exactly the badges of its category, in list order. */
  predicate GroupsAreFilters(groups: seq<Group>, bs: seq<Badge>) {
    forall k :: 0 <= k < |groups| ==> groups[k].badges == OfCategory(bs, groups[k].category)
  }

  lemma {:induction false} AddToGroupsCategories(groups: seq<Group>, b: Badge)
    ensures GroupCategories(AddToGroups(groups, b)) ==
      if b.category in GroupCategories(groups) then GroupCategories(groups) else GroupCategories(groups) + [b.category]
    decreases |groups|
  {
    if |groups| > 0 {
      var gc := GroupCategories(groups);
      assert gc == [groups[0].category] + GroupCategories(groups[1..]);
      if groups[0].category != b.category {
        AddToGroupsCategories(groups[1..], b);
        assert b.category in gc <==> b.category in GroupCategories(groups[1..]);
      }
    }
  }

  lemma {:induction false} AddToGroupsEntries(groups: seq<Group>, b: Badge)
    requires forall i, j :: 0 <= i < j < |groups| ==> groups[i].category != groups[j].category
    ensures forall k :: 0 <= k < |groups| && groups[k].category != b.category ==> AddToGroups(groups, b)[k] == groups[k]
    ensures forall k :: 0 <= k < |groups| && groups[k].category == b.category ==>
      AddToGroups(groups, b)[k] == Group(b.category, groups[k].badges + [b])
    ensures (forall k :: 0 <= k < |groups| ==> groups[k].category != b.category) ==>
      |AddToGroups(groups, b)| == |groups| + 1 && AddToGroups(groups, b)[|groups|] == Group(b.category, [b])
    decreases |groups|
  {
    if |groups| > 0 && groups[0].category != b.category {
      AddToGroupsEntries(groups[1..], b);
    }
  }

  lemma {:induction false} FlattenCons(g: Group, groups: seq<Group>)
    ensures Flatten([g] + groups) == g.badges + Flatten(groups)
  {
    assert ([g] + groups)[1..] == groups;
  }

  lemma {:induction false} AddToGroupsMultiset(groups: seq<Group>, b: Badge)
    ensures multiset(Flatten(AddToGroups(groups, b))) == multiset(Flatten(groups)) + multiset{b}
    decreases |groups|
  {
    if |groups| == 0 {
      FlattenCons(Group(b.category, [b]), []);
    } else if groups[0].category == b.category {
      FlattenCons(Group(b.category, groups[0].badges + [b]), groups[1..]);
    } else {
      AddToGroupsMultiset(groups[1..], b);
      FlattenCons(groups[0], AddToGroups(groups[1..], b));
    }
  }

  /** The groups' categories are the list's categories in order of first appearance. */
  lemma {:induction false} GroupBadgesCategories(bs: seq<Badge>)
    ensures GroupCategories(GroupBadges(bs)) == CategoriesInOrder(bs)
    decreases |bs|
  {
    if |bs| > 0 {
      var n := |bs| - 1;
      GroupBadgesCategories(bs[..n]);
      AddToGroupsCategories(GroupBadges(bs[..n]), bs[n]);
    }
  }

  lemma OfCategorySnoc(prev: seq<Badge>, b: Badge, c: BadgeCategory)
    ensures OfCategory(prev + [b], c) == OfCategory(prev, c) + (if b.category == c then [b] else [])
  {
    assert (prev + [b])[..|prev|] == prev;
  }

  /** Adding one badge to groups that are the filters of `prev` gives the filters of `prev + [b]`. */
  lemma AddToGroupsFilters(prev: seq<Badge>, groups: seq<Group>, b: Badge)
    requires GroupsAreFilters(groups, prev)
    requires GroupCategories(groups) == CategoriesInOrder(prev)
    requires forall i, j :: 0 <= i < j < |groups| ==> groups[i].category != groups[j].category
    ensures GroupsAreFilters(AddToGroups(groups, b), prev + [b])
  {
    var r := AddToGroups(groups, b);
    AddToGroupsEntries(groups, b);
    forall k | 0 <= k < |r|
      ensures r[k].badges == OfCategory(prev + [b], r[k].category)
    {
      AddToGroupsFiltersAt(prev, groups, b, k);
    }
  }

  lemma AddToGroupsFiltersAt(prev: seq<Badge>, groups: seq<Group>, b: Badge, k: int)
    requires GroupsAreFilters(groups, prev)
    requires GroupCategories(groups) == CategoriesInOrder(prev)
    requires forall i, j :: 0 <= i < j < |groups| ==> groups[i].category != groups[j].category
    requires 0 <= k < |AddToGroups(groups, b)|
    ensures AddToGroups(groups, b)[k].badges == OfCategory(prev + [b], AddToGroups(groups, b)[k].category)
  {
    var r := AddToGroups(groups, b);
    if k < |groups| {
      ExistingGroupFilters(prev, groups, b, k);
    } else {
      assert k == |groups| && |r| > |groups|;
      NewGroupFilters(prev, groups, b);
    }
  }

  /** A group that was already there gains the badge exactly when the badge is of its category. */
  lemma ExistingGroupFilters(prev: seq<Badge>, groups: seq<Group>, b: Badge, k: int)
    requires GroupsAreFilters(groups, prev)
    requires forall i, j :: 0 <= i < j < |groups| ==> groups[i].category != groups[j].category
    requires 0 <= k < |groups|
    ensures AddToGroups(groups, b)[k].badges == OfCategory(prev + [b], AddToGroups(groups, b)[k].category)
  {
    AddToGroupsEntries(groups, b);
    var c := groups[k].category;
    OfCategorySnoc(prev, b, c);
  }

  /** A group added at the end holds just the badge, the first of its category. */
  lemma NewGroupFilters(prev: seq<Badge>, groups: seq<Group>, b: Badge)
    requires GroupCategories(groups) == CategoriesInOrder(prev)
    requires |AddToGroups(groups, b)| > |groups|
    ensures AddToGroups(groups, b)[|groups|].badges == OfCategory(prev + [b], AddToGroups(groups, b)[|groups|].category)
  {
    AddToGroupsCategories(groups, b);
    assert b.category !in CategoriesInOrder(prev);
    var r := AddToGroups(groups, b);
    assert r[|groups|].category == b.category by {
      assert GroupCategories(r)[|groups|] == b.category;
    }
    OfCategoryEmpty(prev, b.category);
    OfCategorySnoc(prev, b, b.category);
    AddToGroupsAppends(groups, b);
  }

  /** When the list of groups grows, the new group is last and holds just the badge. */
  lemma {:induction false} AddToGroupsAppends(groups: seq<Group>, b: Badge)
    requires |AddToGroups(groups, b)| > |groups|
    ensures AddToGroups(groups, b)[|groups|] == Group(b.category, [b])
    decreases |groups|
  {
    if |groups| > 0 {
      AddToGroupsAppends(groups[1..], b);
    }
  }

  /** Each group is the sub-list of its category, list order preserved. */
  lemma {:induction false} GroupBadgesFilters(bs: seq<Badge>)
    ensures GroupsAreFilters(GroupBadges(bs), bs)
    decreases |bs|
  {
    if |bs| > 0 {
      var n := |bs| - 1;
      var prev, b := bs[..n], bs[n];
      var groups := GroupBadges(prev);
      GroupBadgesFilters(prev);
      GroupBadgesCategories(prev);
      CategoriesInOrderDistinct(prev);
      AddToGroupsFilters(prev, groups, b);
      assert bs == prev + [b];
    }
  }

  /** Flattening the groups gives back the same badges: a permutation of the list. */
  lemma {:induction false} GroupBadgesPermutation(bs: seq<Badge>)
    ensures multiset(Flatten(GroupBadges(bs))) == multiset(bs)
    decreases |bs|
  {
    if |bs| > 0 {
      var n := |bs| - 1;
      GroupBadgesPermutation(bs[..n]);
      AddToGroupsMultiset(GroupBadges(bs[..n]), bs[n]);
      assert bs == bs[..n] + [bs[n]];
    }
  }

  /** A category that does not occur has an empty sub-list. */
  lemma {:induction false} OfCategoryEmpty(bs: seq<Badge>, c: BadgeCategory)
    requires c !in CategoriesInOrder(bs)
    ensures OfCategory(bs, c) == []
    decreases |bs|
  {
    if |bs| > 0 {
      OfCategoryEmpty(bs[..|bs| - 1], c);
    }
  }

  /** The categories listed are distinct and are exactly those occurring in the list. */
  lemma {:induction false} CategoriesInOrderDistinct(bs: seq<Badge>)
    ensures forall i, j :: 0 <= i < j < |CategoriesInOrder(bs)| ==> CategoriesInOrder(bs)[i] != CategoriesInOrder(bs)[j]
    ensures forall c :: c in CategoriesInOrder(bs) <==> exists i :: 0 <= i < |bs| && bs[i].category == c
    decreases |bs|
  {
    if |bs| > 0 {
      var n := |bs| - 1;
      CategoriesInOrderDistinct(bs[..n]);
      forall c | c in CategoriesInOrder(bs)
        ensures exists i :: 0 <= i < |bs| && bs[i].category == c
      {
        if c in CategoriesInOrder(bs[..n]) {
          var i :| 0 <= i < n && bs[..n][i].category == c;
          assert bs[i].category == c;
        } else {
          assert bs[n].category == c;
        }
      }
      forall c | exists i :: 0 <= i < |bs| && bs[i].category == c
        ensures c in CategoriesInOrder(bs)
      {
        var i :| 0 <= i < |bs| && bs[i].category == c;
        if i < n {
          assert bs[..n][i].category == c;
        }
      }
    }
  }
}
