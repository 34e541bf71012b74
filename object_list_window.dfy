/**
 * The object-list window's state: the table's text and kind filters, and the
 * connector-line state (two ordered lists of GameObjectIds, the
 * viewer-as-source flag, pairwise mode and the enable flag) with the button
 * handlers and public setters that change it.
 */
module ObjectListUi {
  import opened Wrappers
  import opened World
  import opened TargetLists
  import opened ConnectorLines
  import opened ObjectRows

  class ObjectListWindow {
    var filterText: string
    var kinds: KindFilter
    var targetObjects1: seq<nat>
    var targetObjects2: seq<nat>
    var enableLine: bool
    var target1IsLocalPlayer: bool
    var pairwiseMode: bool
    var newTarget1Input: string
    var newTarget2Input: string

    /** Neither target list holds an ID twice. */
    ghost predicate Valid()
      reads this
    {
      NoDuplicates(targetObjects1) && NoDuplicates(targetObjects2)
    }

    constructor ()
      ensures Valid()
      ensures filterText == "" && kinds == AllKinds()
      ensures targetObjects1 == [] && targetObjects2 == []
      ensures !enableLine && !target1IsLocalPlayer && !pairwiseMode
      ensures newTarget1Input == "" && newTarget2Input == ""
    {
      filterText := "";
      kinds := AllKinds();
      targetObjects1 := [];
      targetObjects2 := [];
      enableLine := false;
      target1IsLocalPlayer := false;
      pairwiseMode := false;
      newTarget1Input := "";
      newTarget2Input := "";
    }

    // ---- Table filters ----

    /** The "清空" button next to the filter box. */
    method ClickClearFilter()
      modifies this`filterText
      ensures filterText == ""
    {
      filterText := "";
    }

    /** The "全选" button. */
    method ClickSelectAllKinds()
      modifies this`kinds
      ensures kinds == AllKinds()
      ensures forall k :: IsObjectKindVisible(kinds, k)
    {
      kinds := AllKinds();
    }

    /** The "全不选" button. */
    method ClickSelectNoKinds()
      modifies this`kinds
      ensures kinds == NoKinds()
      ensures forall k :: !IsObjectKindVisible(kinds, k)
    {
      kinds := NoKinds();
    }

    /** The table body: the valid entities that pass the kind and text filters, in table order. */
    method TableRows(table: seq<Entity>) returns (rows: seq<Row>)
      ensures rows == Rows(kinds, filterText, table)
    {
      rows := [];
      var i := 0;
      while i < |table|
        invariant 0 <= i <= |table|
        invariant rows == Rows(kinds, filterText, table[..i])
      {
        assert table[..i + 1][..i] == table[..i];
        var obj := table[i];
        if obj.isValid && IsObjectKindVisible(kinds, obj.kind) {
          var row := RowOf(obj);
          if filterText == [] || MatchesFilter(row, filterText) {
            rows := rows + [row];
          }
        }
        i := i + 1;
      }
      assert table[..i] == table;
    }

    // ---- Target list 1 (shown only while the viewer is not the source) ----

    /** "添加": a parsed, non-zero ID is added unless present; the input box is cleared either way. */
    method ClickAddTarget1(parseHex: string -> Option<nat>)
      requires Valid() && !target1IsLocalPlayer
      modifies this`targetObjects1, this`newTarget1Input
      ensures Valid()
      ensures var parsed := parseHex(old(newTarget1Input));
        if parsed.Some? && parsed.value != 0 then
          targetObjects1 == AddUnique(old(targetObjects1), parsed.value) && newTarget1Input == ""
        else
          targetObjects1 == old(targetObjects1) && newTarget1Input == old(newTarget1Input)
    {
      var parsed := parseHex(newTarget1Input);
      if parsed.Some? && parsed.value != 0 {
        if parsed.value !in targetObjects1 {
          targetObjects1 := targetObjects1 + [parsed.value];
        }
        newTarget1Input := "";
      }
    }

    /** "添加当前目标": the current target's GameObjectId, unless there is none or it is present. */
    method ClickAddCurrentTarget1(target: Option<Entity>)
      requires Valid() && !target1IsLocalPlayer
      modifies this`targetObjects1
      ensures Valid()
      ensures target.Some? ==> targetObjects1 == AddUnique(old(targetObjects1), target.value.gameObjectId)
      ensures target.None? ==> targetObjects1 == old(targetObjects1)
    {
      if target.Some? && target.value.gameObjectId !in targetObjects1 {
        targetObjects1 := targetObjects1 + [target.value.gameObjectId];
      }
    }

    /** "删除" on row i. */
    method ClickRemoveTarget1(i: nat)
      requires Valid() && !target1IsLocalPlayer && i < |targetObjects1|
      modifies this`targetObjects1
      ensures Valid()
      ensures targetObjects1 == RemoveAt(old(targetObjects1), i)
    {
      RemoveAtKeepsNoDuplicates(targetObjects1, i);
      targetObjects1 := targetObjects1[..i] + targetObjects1[i + 1..];
    }

    // ---- Target list 2 ----

    method ClickAddTarget2(parseHex: string -> Option<nat>)
      requires Valid()
      modifies this`targetObjects2, this`newTarget2Input
      ensures Valid()
      ensures var parsed := parseHex(old(newTarget2Input));
        if parsed.Some? && parsed.value != 0 then
          targetObjects2 == AddUnique(old(targetObjects2), parsed.value) && newTarget2Input == ""
        else
          targetObjects2 == old(targetObjects2) && newTarget2Input == old(newTarget2Input)
    {
      var parsed := parseHex(newTarget2Input);
      if parsed.Some? && parsed.value != 0 {
        if parsed.value !in targetObjects2 {
          targetObjects2 := targetObjects2 + [parsed.value];
        }
        newTarget2Input := "";
      }
    }

    method ClickAddCurrentTarget2(target: Option<Entity>)
      requires Valid()
      modifies this`targetObjects2
      ensures Valid()
      ensures target.Some? ==> targetObjects2 == AddUnique(old(targetObjects2), target.value.gameObjectId)
      ensures target.None? ==> targetObjects2 == old(targetObjects2)
    {
      if target.Some? && target.value.gameObjectId !in targetObjects2 {
        targetObjects2 := targetObjects2 + [target.value.gameObjectId];
      }
    }

    method ClickRemoveTarget2(i: nat)
      requires Valid() && i < |targetObjects2|
      modifies this`targetObjects2
      ensures Valid()
      ensures targetObjects2 == RemoveAt(old(targetObjects2), i)
    {
      RemoveAtKeepsNoDuplicates(targetObjects2, i);
      targetObjects2 := targetObjects2[..i] + targetObjects2[i + 1..];
    }

    // ---- Clearing and the public setters ----

    /** "清空全部": both lists emptied and the viewer no longer the source; the line flags stay. */
    method ClickClearAll()
      modifies this`targetObjects1, this`targetObjects2, this`target1IsLocalPlayer
      ensures Valid()
      ensures targetObjects1 == [] && targetObjects2 == [] && !target1IsLocalPlayer
    {
      targetObjects1 := [];
      targetObjects2 := [];
      target1IsLocalPlayer := false;
    }

    /** Entering another territory clears the line targets the way "清空全部" does. */
    method OnTerritoryChanged(territoryId: nat)
      modifies this`targetObjects1, this`targetObjects2, this`target1IsLocalPlayer
      ensures Valid()
      ensures targetObjects1 == [] && targetObjects2 == [] && !target1IsLocalPlayer
    {
      targetObjects1 := [];
      targetObjects2 := [];
      target1IsLocalPlayer := false;
    }

    /** Disposal turns lines off and empties both lists, but keeps the viewer-as-source flag. */
    method Dispose()
      modifies this`enableLine, this`targetObjects1, this`targetObjects2
      ensures Valid()
      ensures !enableLine && targetObjects1 == [] && targetObjects2 == []
    {
      enableLine := false;
      targetObjects1 := [];
      targetObjects2 := [];
    }

    /** `SetDrawLine(useSelfAsTarget1, target2Id)`: one line from the viewer (or from nothing) to target2Id. */
    method SetDrawLineSelf(useSelfAsTarget1: bool, target2Id: nat)
      modifies this`targetObjects1, this`targetObjects2, this`target1IsLocalPlayer, this`enableLine, this`pairwiseMode
      ensures Valid()
      ensures targetObjects1 == [] && targetObjects2 == [target2Id]
      ensures target1IsLocalPlayer == useSelfAsTarget1 && enableLine && pairwiseMode
    {
      targetObjects1 := [];
      targetObjects2 := [];
      target1IsLocalPlayer := useSelfAsTarget1;
      targetObjects2 := targetObjects2 + [target2Id];
      enableLine := true;
      pairwiseMode := true;
    }

    /** `SetDrawLine(target1Id, target2Id)`: one line between two objects. */
    method SetDrawLinePair(target1Id: nat, target2Id: nat)
      modifies this`targetObjects1, this`targetObjects2, this`target1IsLocalPlayer, this`enableLine, this`pairwiseMode
      ensures Valid()
      ensures targetObjects1 == [target1Id] && targetObjects2 == [target2Id]
      ensures !target1IsLocalPlayer && enableLine && pairwiseMode
    {
      targetObjects1 := [];
      targetObjects2 := [];
      target1IsLocalPlayer := false;
      targetObjects1 := targetObjects1 + [target1Id];
      targetObjects2 := targetObjects2 + [target2Id];
      enableLine := true;
      pairwiseMode := true;
    }

    /** `ClearDrawLine`: what "清空全部" does, and lines off as well. */
    method ClearDrawLine()
      modifies this`targetObjects1, this`targetObjects2, this`target1IsLocalPlayer, this`enableLine
      ensures Valid()
      ensures targetObjects1 == [] && targetObjects2 == [] && !target1IsLocalPlayer && !enableLine
    {
      targetObjects1 := [];
      targetObjects2 := [];
      target1IsLocalPlayer := false;
      enableLine := false;
    }

    // ---- Resolution ----

    /**
     * One frame of connector lines, as the draw commands issued. viewer is
     * the loaded local player, territory the current territory id, project
     * `WorldToScreen` and vp the main viewport.
     */
    method DrawObjectLine(viewer: Option<Entity>, territory: nat, table: seq<Entity>, project: ScreenProjector,
                          vp: Viewport) returns (cmds: seq<DrawCmd>)
      ensures cmds == ResolveLines(enableLine, targetObjects1, targetObjects2, target1IsLocalPlayer, pairwiseMode,
                                   viewer, territory, table, project, vp)
    {
      cmds := [];
      if !enableLine {
        return;
      }
      if |targetObjects2| == 0 {
        return;
      }
      if !target1IsLocalPlayer && |targetObjects1| == 0 {
        return;
      }
      if viewer.None? || territory == 0 {
        return;
      }

      var sources: seq<nat> := [];
      if target1IsLocalPlayer {
        if viewer.value.isValid {
          sources := sources + [viewer.value.entityId];
        }
      } else {
        sources := sources + targetObjects1;
      }
      assert sources == Sources(target1IsLocalPlayer, viewer.value, targetObjects1);
      if |sources| == 0 {
        return;
      }

      if pairwiseMode {
        cmds := DrawPairs(sources, targetObjects2, table, project, vp);
      } else {
        cmds := DrawAllToAll(sources, targetObjects2, table, project, vp);
      }
    }
  }

  /** Pairwise mode: source i with target i, for i below the shorter length. */
  method DrawPairs(sources: seq<nat>, targets: seq<nat>, table: seq<Entity>, project: ScreenProjector, vp: Viewport)
    returns (cmds: seq<DrawCmd>)
    ensures cmds == PairsUpTo(Resolved(sources, table, project, vp), Resolved(targets, table, project, vp),
                              Min(|sources|, |targets|))
  {
    ghost var src := Resolved(sources, table, project, vp);
    ghost var dst := Resolved(targets, table, project, vp);
    cmds := [];
    var pairCount := Min(|sources|, |targets|);
    var i := 0;
    while i < pairCount
      invariant 0 <= i <= pairCount
      invariant cmds == PairsUpTo(src, dst, i)
    {
      var step := DrawPair(sources[i], targets[i], table, project, vp);
      PairsUpToSnoc(src, dst, i);
      cmds := cmds + step;
      i := i + 1;
    }
  }

  /** One pair of pairwise mode: a segment and two dots when both ends resolve, else nothing. */
  method DrawPair(source: nat, target: nat, table: seq<Entity>, project: ScreenProjector, vp: Viewport)
    returns (cmds: seq<DrawCmd>)
    ensures cmds == PairStep(Endpoint(source, table, project, vp), Endpoint(target, table, project, vp))
  {
    cmds := [];
    var p1 := Endpoint(source, table, project, vp);
    var p2 := Endpoint(target, table, project, vp);
    if p1.Some? && p2.Some? {
      cmds := [Segment(p1.value, p2.value), Dot(p1.value), Dot(p2.value)];
    }
  }

  /** All-to-all mode: each resolvable source fans out to every resolvable target, then gets its own dot. */
  method DrawAllToAll(sources: seq<nat>, targets: seq<nat>, table: seq<Entity>, project: ScreenProjector, vp: Viewport)
    returns (cmds: seq<DrawCmd>)
    ensures cmds == AllToAll(Resolved(sources, table, project, vp), Resolved(targets, table, project, vp), |sources|)
  {
    ghost var src := Resolved(sources, table, project, vp);
    cmds := [];
    var k := 0;
    while k < |sources|
      invariant 0 <= k <= |sources|
      invariant cmds == AllToAll(src, Resolved(targets, table, project, vp), k)
    {
      var step := DrawSource(sources[k], targets, table, project, vp);
      AllToAllSnoc(src, Resolved(targets, table, project, vp), k);
      cmds := cmds + step;
      k := k + 1;
    }
  }

  /** One source of all-to-all mode: nothing when it does not resolve, else its fan-out and its own dot. */
  method DrawSource(src: nat, targets: seq<nat>, table: seq<Entity>, project: ScreenProjector, vp: Viewport)
    returns (cmds: seq<DrawCmd>)
    ensures cmds == SourceCmds(Endpoint(src, table, project, vp), Resolved(targets, table, project, vp))
  {
    cmds := [];
    var source := Endpoint(src, table, project, vp);
    if source.Some? {
      var p1 := source.value;
      var fan := DrawFan(p1, targets, table, project, vp);
      cmds := cmds + fan + [Dot(p1)];
    }
  }

  /** The inner loop of all-to-all mode for one source point. */
  method DrawFan(p1: Point, targets: seq<nat>, table: seq<Entity>, project: ScreenProjector, vp: Viewport)
    returns (cmds: seq<DrawCmd>)
    ensures cmds == FanOut(p1, Resolved(targets, table, project, vp), |targets|)
  {
    ghost var dst := Resolved(targets, table, project, vp);
    cmds := [];
    var j := 0;
    while j < |targets|
      invariant 0 <= j <= |targets|
      invariant cmds == FanOut(p1, dst, j)
    {
      var target := Endpoint(targets[j], table, project, vp);
      assert target == dst[j];
      FanOutSnoc(p1, dst, j);
      if target.Some? {
        cmds := cmds + [Segment(p1, target.value), Dot(target.value)];
      }
      j := j + 1;
    }
  }
}
