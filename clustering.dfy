/**
 * The second half of the overlay's per-frame update: greedy clustering of
 * the cached records' screen points. Each point joins the nearest existing
 * anchor that lies strictly closer than MergeDistance (the earliest-created
 * one on a tie), or else becomes a new anchor. Anchors never move.
 * GroupedObjects is a dictionary enumerated in insertion order; it is
 * modelled as the sequence of its entries.
 */
module Clustering {
  import opened Wrappers
  import opened World
  import opened ObjectInfo

  datatype Group = Group(anchor: Point, members: seq<GameObjectInfo>)

  /**
   * The inner loop over the existing anchors, kept as a running minimum with a
   * strict comparison. The source's running minimum starts at float.MaxValue,
   * which every finite distance is below; `best.None?` plays that part here.
   */
  function NearestAnchor(groups: seq<Group>, p: Point, mergeDistance: nat): (k: Option<nat>)
    ensures k.Some? ==> k.value < |groups| && DistSq(p, groups[k.value].anchor) < mergeDistance * mergeDistance
    ensures k.Some? ==> forall j :: 0 <= j < |groups| ==> DistSq(p, groups[k.value].anchor) <= DistSq(p, groups[j].anchor)
    ensures k.Some? ==> forall j :: 0 <= j < k.value ==> DistSq(p, groups[k.value].anchor) < DistSq(p, groups[j].anchor)
    ensures k.None? <==> forall j :: 0 <= j < |groups| ==> DistSq(p, groups[j].anchor) >= mergeDistance * mergeDistance
  {
    if groups == [] then None
    else
      var n := |groups| - 1;
      var best := NearestAnchor(groups[..n], p, mergeDistance);
      var d := DistSq(p, groups[n].anchor);
      if d < mergeDistance * mergeDistance && (best.None? || d < DistSq(p, groups[best.value].anchor))
      then Some(n)
      else best
  }

  /** One point: appended to its nearest group, or the seed of a new group anchored at the point itself. */
  function Assign(groups: seq<Group>, info: GameObjectInfo, p: Point, mergeDistance: nat): (r: seq<Group>)
    ensures |r| == |groups| || |r| == |groups| + 1
  {
    match NearestAnchor(groups, p, mergeDistance)
    case Some(k) => groups[k := groups[k].(members := groups[k].members + [info])]
    case None => groups + [Group(p, [info])]
  }

  /**
   * The outer loop: the records in cache order, each looked up in
   * OverlayPositions by EntityId (a record without a position is skipped).
   */
  function Cluster(infos: seq<GameObjectInfo>, positions: map<nat, Point>, mergeDistance: nat): seq<Group> {
    if infos == [] then []
    else
      var groups := Cluster(infos[..|infos| - 1], positions, mergeDistance);
      var info := infos[|infos| - 1];
      if info.entityId in positions then Assign(groups, info, positions[info.entityId], mergeDistance)
      else groups
  }

  /**
   * The state the clustering keeps: no group is empty; each anchor is the
   * position of the group's first member; every later member lies strictly
   * within MergeDistance of its anchor; and each anchor lies at least
   * MergeDistance from every anchor created before it.
   */
  ghost predicate ClusteringInvariant(groups: seq<Group>, positions: map<nat, Point>, mergeDistance: nat) {
    && (forall i :: 0 <= i < |groups| ==> |groups[i].members| > 0)
    && (forall i :: 0 <= i < |groups| ==>
          groups[i].members[0].entityId in positions && positions[groups[i].members[0].entityId] == groups[i].anchor)
    && (forall i, m :: 0 <= i < |groups| && 0 < m < |groups[i].members| ==>
          groups[i].members[m].entityId in positions
          && DistSq(positions[groups[i].members[m].entityId], groups[i].anchor) < mergeDistance * mergeDistance)
    && (forall i, j :: 0 <= i < j < |groups| ==> DistSq(groups[j].anchor, groups[i].anchor) >= mergeDistance * mergeDistance)
  }

  lemma AssignKeepsInvariant(groups: seq<Group>, info: GameObjectInfo, positions: map<nat, Point>, mergeDistance: nat)
    requires ClusteringInvariant(groups, positions, mergeDistance)
    requires info.entityId in positions
    ensures ClusteringInvariant(Assign(groups, info, positions[info.entityId], mergeDistance), positions, mergeDistance)
  {
    var p := positions[info.entityId];
    var r := Assign(groups, info, p, mergeDistance);
    match NearestAnchor(groups, p, mergeDistance)
    case Some(k) =>
      forall i, m | 0 <= i < |r| && 0 < m < |r[i].members|
        ensures r[i].members[m].entityId in positions
        ensures DistSq(positions[r[i].members[m].entityId], r[i].anchor) < mergeDistance * mergeDistance
      {
        if i == k && m == |r[i].members| - 1 {
          assert r[i].members[m] == info;
        } else if i == k {
          assert r[i].members[m] == groups[i].members[m];
        }
      }
    case None =>
  }

  /** Clustering establishes the invariant on every input. */
  lemma {:induction false} ClusterInvariant(infos: seq<GameObjectInfo>, positions: map<nat, Point>, mergeDistance: nat)
    ensures ClusteringInvariant(Cluster(infos, positions, mergeDistance), positions, mergeDistance)
  {
    if infos != [] {
      ClusterInvariant(infos[..|infos| - 1], positions, mergeDistance);
      var info := infos[|infos| - 1];
      if info.entityId in positions {
        AssignKeepsInvariant(Cluster(infos[..|infos| - 1], positions, mergeDistance), info, positions, mergeDistance);
      }
    }
  }

  /** With a positive MergeDistance no two groups share an anchor, so the dictionary keys are distinct. */
  lemma AnchorsDistinct(groups: seq<Group>, positions: map<nat, Point>, mergeDistance: nat)
    requires ClusteringInvariant(groups, positions, mergeDistance)
    requires mergeDistance > 0
    ensures forall i, j :: 0 <= i < j < |groups| ==> groups[i].anchor != groups[j].anchor
  {
    forall i, j | 0 <= i < j < |groups|
      ensures groups[i].anchor != groups[j].anchor
    {
      assert DistSq(groups[i].anchor, groups[i].anchor) == 0;
    }
  }

  /** All members of all groups, group by group. */
  function Members(groups: seq<Group>): seq<GameObjectInfo> {
    if groups == [] then [] else Members(groups[..|groups| - 1]) + groups[|groups| - 1].members
  }

  lemma {:induction false} MembersAppend(groups: seq<Group>, g: Group)
    ensures Members(groups + [g]) == Members(groups) + g.members
  {
    assert (groups + [g])[..|groups|] == groups;
  }

  /** Adding one member to group k adds exactly that member to the overall bag. */
  lemma {:induction false} MembersUpdate(groups: seq<Group>, k: nat, info: GameObjectInfo)
    requires k < |groups|
    ensures multiset(Members(groups[k := groups[k].(members := groups[k].members + [info])])) == multiset(Members(groups)) + multiset{info}
    decreases |groups|
  {
    var n := |groups| - 1;
    var r := groups[k := groups[k].(members := groups[k].members + [info])];
    if k == n {
      assert r[..n] == groups[..n];
    } else {
      assert r[..n] == groups[..n][k := groups[k].(members := groups[k].members + [info])];
      MembersUpdate(groups[..n], k, info);
    }
  }

  /** Every record that has a position lands in exactly one group: the groups partition the records. */
  lemma {:induction false} ClusterPartitions(infos: seq<GameObjectInfo>, positions: map<nat, Point>, mergeDistance: nat)
    requires forall i :: 0 <= i < |infos| ==> infos[i].entityId in positions
    ensures multiset(Members(Cluster(infos, positions, mergeDistance))) == multiset(infos)
  {
    if infos != [] {
      var init := infos[..|infos| - 1];
      var info := infos[|infos| - 1];
      assert infos == init + [info];
      assert forall i :: 0 <= i < |init| ==> init[i] == infos[i];
      ClusterPartitions(init, positions, mergeDistance);
      var groups := Cluster(init, positions, mergeDistance);
      var p := positions[info.entityId];
      assert Cluster(infos, positions, mergeDistance) == Assign(groups, info, p, mergeDistance);
      match NearestAnchor(groups, p, mergeDistance)
      case Some(k) => MembersUpdate(groups, k, info);
      case None => MembersAppend(groups, Group(p, [info]));
    }
  }

  /**
   * When every record has a position and MergeDistance is positive, the
   * groups partition the records into non-empty groups with distinct anchors.
   */
  lemma ClusterIsValid(infos: seq<GameObjectInfo>, positions: map<nat, Point>, mergeDistance: nat)
    requires forall i :: 0 <= i < |infos| ==> infos[i].entityId in positions
    requires mergeDistance > 0
    ensures var groups := Cluster(infos, positions, mergeDistance);
      && multiset(Members(groups)) == multiset(infos)
      && (forall i :: 0 <= i < |groups| ==> |groups[i].members| > 0)
      && (forall i, j :: 0 <= i < j < |groups| ==> groups[i].anchor != groups[j].anchor)
  {
    ClusterPartitions(infos, positions, mergeDistance);
    ClusterInvariant(infos, positions, mergeDistance);
    AnchorsDistinct(Cluster(infos, positions, mergeDistance), positions, mergeDistance);
  }

  /**
   * The join rule for one point: it joins an existing group exactly when some
   * anchor lies strictly within MergeDistance, and then it joins the nearest
   * such anchor, the earliest-created one on a tie; otherwise it founds a group.
   */
  lemma AssignJoinsNearest(groups: seq<Group>, info: GameObjectInfo, p: Point, mergeDistance: nat)
    ensures var r := Assign(groups, info, p, mergeDistance);
      && ((exists j :: 0 <= j < |groups| && DistSq(p, groups[j].anchor) < mergeDistance * mergeDistance)
          <==> |r| == |groups|)
      && (|r| == |groups| + 1 ==> r == groups + [Group(p, [info])])
      && (|r| == |groups| ==>
            (exists k :: 0 <= k < |groups|
              && r == groups[k := groups[k].(members := groups[k].members + [info])]
              && DistSq(p, groups[k].anchor) < mergeDistance * mergeDistance
              && (forall j :: 0 <= j < |groups| ==> DistSq(p, groups[k].anchor) <= DistSq(p, groups[j].anchor))
              && (forall j :: 0 <= j < k ==> DistSq(p, groups[k].anchor) < DistSq(p, groups[j].anchor))))
  {
    var r := Assign(groups, info, p, mergeDistance);
    match NearestAnchor(groups, p, mergeDistance)
    case Some(k) =>
      assert |r| == |groups|;
    case None =>
      assert |r| == |groups| + 1;
  }

  /**
   * The three-point scenario: (100,100), (105,102) and (300,300) with
   * MergeDistance 50 give two groups, {1, 2} anchored at (100,100) and {3}
   * anchored at (300,300).
   */
  lemma ThreePointScenario(a: GameObjectInfo, b: GameObjectInfo, c: GameObjectInfo)
    requires a.entityId == 1 && b.entityId == 2 && c.entityId == 3
    ensures Cluster([a, b, c], map[1 := Point(100, 100), 2 := Point(105, 102), 3 := Point(300, 300)], 50)
         == [Group(Point(100, 100), [a, b]), Group(Point(300, 300), [c])]
  {
    var positions := map[1 := Point(100, 100), 2 := Point(105, 102), 3 := Point(300, 300)];
    FirstTwoPointsMerge(a, b, positions);
    assert [a, b, c][..2] == [a, b];
    var g2 := [Group(Point(100, 100), [a, b])];
    assert g2[..0] == [];
    assert NearestAnchor(g2, Point(300, 300), 50) == None;
  }

  /** The first two points of the scenario share the anchor (100,100). */
  lemma FirstTwoPointsMerge(a: GameObjectInfo, b: GameObjectInfo, positions: map<nat, Point>)
    requires a.entityId == 1 && b.entityId == 2
    requires 1 in positions && positions[1] == Point(100, 100)
    requires 2 in positions && positions[2] == Point(105, 102)
    ensures Cluster([a, b], positions, 50) == [Group(Point(100, 100), [a, b])]
  {
    assert [a, b][..1] == [a] && [a][..0] == [];
    assert Cluster([], positions, 50) == [];
    var g1 := [Group(Point(100, 100), [a])];
    assert NearestAnchor([], Point(100, 100), 50) == None;
    assert Cluster([a], positions, 50) == g1;
    assert g1[..0] == [];
    assert NearestAnchor(g1, Point(105, 102), 50) == Some(0);
    assert [a] + [b] == [a, b];
    assert Assign(g1, b, Point(105, 102), 50) == [Group(Point(100, 100), [a, b])];
  }

  /**
   * Lines 56-75 of OnUpdate: for each cached record, a loop over the anchors
   * keeps the nearest one within MergeDistance, then the record joins it or
   * founds a new group.
   */
  method ClusterObjects(cached: seq<GameObjectInfo>, positions: map<nat, Point>, mergeDistance: nat)
    returns (groups: seq<Group>)
    ensures groups == Cluster(cached, positions, mergeDistance)
  {
    groups := [];
    var i := 0;
    while i < |cached|
      invariant 0 <= i <= |cached|
      invariant groups == Cluster(cached[..i], positions, mergeDistance)
    {
      var objInfo := cached[i];
      assert cached[..i + 1][..i] == cached[..i];
      if objInfo.entityId !in positions {
        i := i + 1;
        continue;
      }
      var screenPos := positions[objInfo.entityId];
      var nearestGroup := FindNearestGroup(groups, screenPos, mergeDistance);
      if nearestGroup.Some? {
        var k := nearestGroup.value;
        groups := groups[k := groups[k].(members := groups[k].members + [objInfo])];
      } else {
        groups := groups + [Group(screenPos, [objInfo])];
      }
      i := i + 1;
    }
    assert cached[..i] == cached;
  }

  /** Lines 60-69 of OnUpdate: the running minimum over the anchors, with a strict comparison. */
  method FindNearestGroup(groups: seq<Group>, screenPos: Point, mergeDistance: nat) returns (nearestGroup: Option<nat>)
    ensures nearestGroup == NearestAnchor(groups, screenPos, mergeDistance)
  {
    nearestGroup := None;
    var minDistance := 0;
    var j := 0;
    while j < |groups|
      invariant 0 <= j <= |groups|
      invariant nearestGroup == NearestAnchor(groups[..j], screenPos, mergeDistance)
      invariant nearestGroup.Some? ==> minDistance == DistSq(screenPos, groups[nearestGroup.value].anchor)
    {
      assert groups[..j + 1][..j] == groups[..j];
      var distance := DistSq(screenPos, groups[j].anchor);
      if distance < mergeDistance * mergeDistance && (nearestGroup.None? || distance < minDistance) {
        minDistance := distance;
        nearestGroup := Some(j);
      }
      j := j + 1;
    }
    assert groups[..j] == groups;
  }
}
