/**
 * The first half of the overlay's per-frame update: walk the object table in
 * order, keep the entities that pass every filter and project onto the
 * screen, and stop once MaxObjects records are cached.
 */
module AnnotationScan {
  import opened Wrappers
  import opened World
  import opened Configuration
  import opened ObjectInfo
  import opened Sequences

  /** WorldToScreen: a screen point, or None when the position does not project. */
  type Projector = Vec3 -> Option<Point>

  /**
   * Visibility by kind. The local player (the player entity equal to the local
   * player, compared by GameObjectId) has its own flag; other players, battle
   * NPCs, event NPCs and event objects have one each; every other kind is hidden.
   */
  function ShouldShowObject(obj: Entity, localPlayer: Entity, cfg: Config): (r: bool)
    ensures obj.kind.Player? && obj.gameObjectId == localPlayer.gameObjectId ==> (r <==> cfg.showLocalPlayer)
    ensures obj.kind.Player? && obj.gameObjectId != localPlayer.gameObjectId ==> (r <==> cfg.showPlayers)
    ensures obj.kind.BattleNpc? ==> (r <==> cfg.showBattleNpcs)
    ensures obj.kind.EventNpc? ==> (r <==> cfg.showEventNpcs)
    ensures obj.kind.EventObj? ==> (r <==> cfg.showEventObjs)
    ensures !(obj.kind.Player? || obj.kind.BattleNpc? || obj.kind.EventNpc? || obj.kind.EventObj?) ==> !r
  {
    match obj.kind
    case Player => if obj.gameObjectId == localPlayer.gameObjectId then cfg.showLocalPlayer else cfg.showPlayers
    case BattleNpc => cfg.showBattleNpcs
    case EventNpc => cfg.showEventNpcs
    case EventObj => cfg.showEventObjs
    case _ => false
  }

  /** The local player's visibility does not depend on the players flag at all. */
  lemma LocalPlayerIgnoresShowPlayers(obj: Entity, localPlayer: Entity, cfg: Config, showPlayers: bool)
    requires obj.kind.Player? && obj.gameObjectId == localPlayer.gameObjectId
    ensures ShouldShowObject(obj, localPlayer, cfg) == ShouldShowObject(obj, localPlayer, cfg.(showPlayers := showPlayers))
  {
  }

  /** Not farther than Range: only a distance strictly greater than Range excludes. */
  predicate InRange(obj: Entity, localPlayer: Entity, cfg: Config) {
    !(DistSq3(localPlayer.position, obj.position) > cfg.range * cfg.range)
  }

  /** An entity the scan caches: non-zero ID, in range, of a shown kind, and projected. */
  predicate Admitted(obj: Entity, localPlayer: Entity, cfg: Config, project: Projector) {
    && obj.entityId != 0
    && InRange(obj, localPlayer, cfg)
    && ShouldShowObject(obj, localPlayer, cfg)
    && project(obj.position).Some?
  }

  /** How many records the scan keeps: MaxObjects, but at least one, since the cap is tested after adding. */
  function Cap(cfg: Config): (n: nat)
    ensures n >= 1
    ensures cfg.maxObjects >= 1 ==> n == cfg.maxObjects
  {
    if cfg.maxObjects < 1 then 1 else cfg.maxObjects
  }

  /** The scan: admitted entities in table order, stopping when room records have been taken. */
  function Scanned(table: seq<Entity>, localPlayer: Entity, cfg: Config, project: Projector, room: nat)
    : (r: seq<Entity>)
    ensures |r| <= room
    decreases |table|
  {
    if table == [] || room == 0 then []
    else if Admitted(table[0], localPlayer, cfg, project) then
      [table[0]] + Scanned(table[1..], localPlayer, cfg, project, room - 1)
    else Scanned(table[1..], localPlayer, cfg, project, room)
  }

  /** Every entity the scan keeps comes from the table and passed every filter. */
  lemma {:induction false} ScannedOnlyAdmitted(table: seq<Entity>, localPlayer: Entity, cfg: Config,
                                               project: Projector, room: nat)
    ensures forall e :: e in Scanned(table, localPlayer, cfg, project, room) ==>
      e in table && Admitted(e, localPlayer, cfg, project)
    decreases |table|
  {
    if table != [] && room != 0 {
      var next := if Admitted(table[0], localPlayer, cfg, project) then room - 1 else room;
      ScannedOnlyAdmitted(table[1..], localPlayer, cfg, project, next);
      assert forall e :: e in table[1..] ==> e in table;
    }
  }

  /** Every admitted entity, in table order, with no cap: the reference the scan is checked against. */
  function Filter(table: seq<Entity>, localPlayer: Entity, cfg: Config, project: Projector): seq<Entity>
    decreases |table|
  {
    if table == [] then []
    else if Admitted(table[0], localPlayer, cfg, project) then [table[0]] + Filter(table[1..], localPlayer, cfg, project)
    else Filter(table[1..], localPlayer, cfg, project)
  }

  /** An entity is in the reference exactly when it is in the table and admitted. */
  lemma {:induction false} FilterIsAdmitted(table: seq<Entity>, localPlayer: Entity, cfg: Config, project: Projector)
    ensures forall e :: e in Filter(table, localPlayer, cfg, project) <==> e in table && Admitted(e, localPlayer, cfg, project)
    decreases |table|
  {
    if table != [] {
      FilterIsAdmitted(table[1..], localPlayer, cfg, project);
      assert table == [table[0]] + table[1..];
    }
  }

  /** The scan keeps exactly the first `room` admitted entities. */
  lemma {:induction false} ScannedIsFirstAdmitted(table: seq<Entity>, localPlayer: Entity, cfg: Config,
                                                  project: Projector, room: nat)
    ensures var f := Filter(table, localPlayer, cfg, project);
      Scanned(table, localPlayer, cfg, project, room) == if |f| <= room then f else f[..room]
    decreases |table|
  {
    if table != [] && room != 0 {
      ScannedIsFirstAdmitted(table[1..], localPlayer, cfg, project,
        if Admitted(table[0], localPlayer, cfg, project) then room - 1 else room);
    }
  }

  /** The cached entities keep the table's order. */
  lemma {:induction false} ScannedKeepsOrder(table: seq<Entity>, localPlayer: Entity, cfg: Config,
                                             project: Projector, room: nat)
    ensures IsSubsequence(Scanned(table, localPlayer, cfg, project, room), table)
    decreases |table|
  {
    if table != [] && room != 0 {
      var r := Scanned(table, localPlayer, cfg, project, room);
      if Admitted(table[0], localPlayer, cfg, project) {
        assert r == [table[0]] + Scanned(table[1..], localPlayer, cfg, project, room - 1);
        assert r[0] == table[0] && r[1..] == Scanned(table[1..], localPlayer, cfg, project, room - 1);
        ScannedKeepsOrder(table[1..], localPlayer, cfg, project, room - 1);
      } else {
        ScannedOnlyAdmitted(table[1..], localPlayer, cfg, project, room);
        ScannedKeepsOrder(table[1..], localPlayer, cfg, project, room);
      }
    }
  }

  /** Scanning a table in two pieces: the second piece gets the room the first one left. */
  lemma {:induction false} ScannedAppend(p: seq<Entity>, q: seq<Entity>, localPlayer: Entity, cfg: Config,
                                         project: Projector, room: nat)
    ensures var a := Scanned(p, localPlayer, cfg, project, room);
      Scanned(p + q, localPlayer, cfg, project, room) == a + Scanned(q, localPlayer, cfg, project, room - |a|)
    decreases |p|
  {
    if p == [] {
      assert p + q == q;
    } else if room == 0 {
      if q != [] {
        assert p + q != [];
      }
    } else {
      assert (p + q)[1..] == p[1..] + q;
      var next := if Admitted(p[0], localPlayer, cfg, project) then room - 1 else room;
      ScannedAppend(p[1..], q, localPlayer, cfg, project, next);
    }
  }

  /** The cached records: one GameObjectInfo per scanned entity, in order. */
  function Infos(es: seq<Entity>, localPlayer: Entity, table: seq<Entity>): (r: seq<GameObjectInfo>)
    ensures |r| == |es|
  {
    seq(|es|, i requires 0 <= i < |es| => InfoOf(es[i], Some(localPlayer), table))
  }

  /** OverlayPositions after the scan: each entity's screen point, a later entity overwriting an equal EntityId. */
  function PositionsOf(es: seq<Entity>, project: Projector): map<nat, Point> {
    if es == [] then map[]
    else
      var last := es[|es| - 1];
      var m := PositionsOf(es[..|es| - 1], project);
      match project(last.position)
      case Some(p) => m[last.entityId := p]
      case None => m
  }

  /** After the scan every cached record has a position keyed by its EntityId. */
  lemma {:induction false} PositionsCoverScanned(es: seq<Entity>, project: Projector)
    requires forall e :: e in es ==> project(e.position).Some?
    ensures forall e :: e in es ==> e.entityId in PositionsOf(es, project)
    ensures PositionsOf(es, project).Keys == set e | e in es :: e.entityId
  {
    if es != [] {
      var init := es[..|es| - 1];
      assert forall e :: e in init ==> e in es;
      PositionsCoverScanned(init, project);
      assert es == init + [es[|es| - 1]];
    }
  }

  /** Every record the scan caches has a screen position under its EntityId. */
  lemma ScanHasPositions(table: seq<Entity>, localPlayer: Entity, cfg: Config, project: Projector, room: nat)
    ensures var s := Scanned(table, localPlayer, cfg, project, room);
      var cached := Infos(s, localPlayer, table);
      forall i :: 0 <= i < |cached| ==> cached[i].entityId in PositionsOf(s, project)
  {
    var s := Scanned(table, localPlayer, cfg, project, room);
    ScannedOnlyAdmitted(table, localPlayer, cfg, project, room);
    PositionsCoverScanned(s, project);
    assert forall i :: 0 <= i < |s| ==> s[i] in s;
  }

  /** One more table entry: the scan of a longer prefix takes it exactly when it is admitted. */
  lemma ScanStep(table: seq<Entity>, i: nat, localPlayer: Entity, cfg: Config, project: Projector, room: nat)
    requires i < |table|
    requires |Scanned(table[..i], localPlayer, cfg, project, room)| < room
    ensures var taken := Scanned(table[..i], localPlayer, cfg, project, room);
      Scanned(table[..i + 1], localPlayer, cfg, project, room)
      == if Admitted(table[i], localPlayer, cfg, project) then taken + [table[i]] else taken
  {
    ScannedAppend(table[..i], [table[i]], localPlayer, cfg, project, room);
    assert table[..i + 1] == table[..i] + [table[i]];
  }

  /** Where the scan stopped, the rest of the table adds nothing. */
  lemma ScanStop(table: seq<Entity>, i: nat, localPlayer: Entity, cfg: Config, project: Projector, room: nat)
    requires i <= |table|
    requires i < |table| ==> |Scanned(table[..i], localPlayer, cfg, project, room)| == room
    ensures Scanned(table, localPlayer, cfg, project, room) == Scanned(table[..i], localPlayer, cfg, project, room)
  {
    ScannedAppend(table[..i], table[i..], localPlayer, cfg, project, room);
    assert table[..i] + table[i..] == table;
  }

  lemma InfosSnoc(es: seq<Entity>, e: Entity, localPlayer: Entity, table: seq<Entity>)
    ensures Infos(es + [e], localPlayer, table) == Infos(es, localPlayer, table) + [InfoOf(e, Some(localPlayer), table)]
  {
  }

  lemma PositionsSnoc(es: seq<Entity>, e: Entity, project: Projector)
    requires project(e.position).Some?
    ensures PositionsOf(es + [e], project) == PositionsOf(es, project)[e.entityId := project(e.position).value]
  {
    assert (es + [e])[..|es|] == es;
  }

  /** One iteration of the scan loop: the cache and the positions grow exactly when the entry is admitted. */
  lemma ScanAdvance(table: seq<Entity>, i: nat, localPlayer: Entity, cfg: Config, project: Projector, room: nat)
    requires i < |table|
    requires |Scanned(table[..i], localPlayer, cfg, project, room)| < room
    ensures var taken := Scanned(table[..i], localPlayer, cfg, project, room);
      var next := Scanned(table[..i + 1], localPlayer, cfg, project, room);
      && (Admitted(table[i], localPlayer, cfg, project) ==>
            && next == taken + [table[i]]
            && Infos(next, localPlayer, table) == Infos(taken, localPlayer, table) + [InfoOf(table[i], Some(localPlayer), table)]
            && PositionsOf(next, project) == PositionsOf(taken, project)[table[i].entityId := project(table[i].position).value])
      && (!Admitted(table[i], localPlayer, cfg, project) ==> next == taken)
  {
    var taken := Scanned(table[..i], localPlayer, cfg, project, room);
    ScanStep(table, i, localPlayer, cfg, project, room);
    if Admitted(table[i], localPlayer, cfg, project) {
      InfosSnoc(taken, table[i], localPlayer, table);
      PositionsSnoc(taken, table[i], project);
    }
  }

  /**
   * Lines 43-54 of OnUpdate: the scan of the object table, which caches the
   * records and screen points of `Scanned`. `examined` is how many table
   * entries the loop looked at before it stopped: the cap was not yet reached
   * before the last of them, and it was reached by the last of them unless the
   * table ran out.
   */
  method ScanObjectTable(table: seq<Entity>, localPlayer: Entity, cfg: Config, project: Projector)
    returns (cached: seq<GameObjectInfo>, positions: map<nat, Point>, examined: nat)
    ensures var s := Scanned(table, localPlayer, cfg, project, Cap(cfg));
      && cached == Infos(s, localPlayer, table)
      && positions == PositionsOf(s, project)
    ensures examined <= |table|
    ensures Scanned(table[..examined], localPlayer, cfg, project, Cap(cfg))
         == Scanned(table, localPlayer, cfg, project, Cap(cfg))
    ensures examined < |table| ==> |Scanned(table[..examined], localPlayer, cfg, project, Cap(cfg))| == Cap(cfg)
    ensures examined > 0 ==> |Scanned(table[..examined - 1], localPlayer, cfg, project, Cap(cfg))| < Cap(cfg)
  {
    ghost var last;
    cached, positions, examined, last := ScanUntilFull(table, localPlayer, cfg, project);
    ScanStop(table, examined, localPlayer, cfg, project, Cap(cfg));
  }

  /**
   * The loop of lines 43-54, with its `continue`s and the `break` once the
   * cache holds MaxObjects records: what it caches is the scan of the entries
   * it examined.
   */
  method ScanUntilFull(table: seq<Entity>, localPlayer: Entity, cfg: Config, project: Projector)
    returns (cached: seq<GameObjectInfo>, positions: map<nat, Point>, examined: nat, ghost last: nat)
    ensures examined <= |table|
    ensures var s := Scanned(table[..examined], localPlayer, cfg, project, Cap(cfg));
      && cached == Infos(s, localPlayer, table)
      && positions == PositionsOf(s, project)
      && (examined < |table| ==> |s| == Cap(cfg))
    ensures examined > 0 ==> examined == last + 1 && |Scanned(table[..last], localPlayer, cfg, project, Cap(cfg))| < Cap(cfg)
  {
    var cap := Cap(cfg);
    cached, positions := [], map[];
    ghost var taken: seq<Entity> := [];
    last := 0;
    var i := 0;
    while i < |table|
      invariant 0 <= i <= |table|
      invariant taken == Scanned(table[..i], localPlayer, cfg, project, cap)
      invariant |taken| < cap
      invariant i > 0 ==> i == last + 1 && |Scanned(table[..last], localPlayer, cfg, project, cap)| < cap
      invariant cached == Infos(taken, localPlayer, table)
      invariant positions == PositionsOf(taken, project)
    {
      var obj := table[i];
      last := i;
      ScanAdvance(table, i, localPlayer, cfg, project, cap);
      var entry := ScanEntry(obj, localPlayer, cfg, project, table);
      if entry.Some? {
        var (objInfo, screenPos) := entry.value;
        cached := cached + [objInfo];
        positions := positions[obj.entityId := screenPos];
        taken := taken + [obj];
      }
      i := i + 1;
      if |cached| >= cap {
        break;
      }
    }
    examined := i;
  }

  /**
   * One entry of the scan loop: None where one of the `continue`s of lines
   * 45-48 skips it, otherwise its record and its screen point.
   */
  method ScanEntry(obj: Entity, localPlayer: Entity, cfg: Config, project: Projector, table: seq<Entity>)
    returns (entry: Option<(GameObjectInfo, Point)>)
    ensures entry.Some? <==> Admitted(obj, localPlayer, cfg, project)
    ensures entry.Some? ==> entry.value == (InfoOf(obj, Some(localPlayer), table), project(obj.position).value)
  {
    if obj.entityId == 0 || !InRange(obj, localPlayer, cfg) || !ShouldShowObject(obj, localPlayer, cfg) {
      return None;
    }
    var screenPos := project(obj.position);
    if screenPos.None? {
      return None;
    }
    var objInfo := CreateGameObjectInfo(obj, Some(localPlayer), table);
    return Some((objInfo, screenPos.value));
  }

  /** A battle NPC ten units from the viewer is cached with the default Range of 30 and dropped with a Range of 5. */
  lemma RangeScenario(npc: Entity, viewer: Entity, project: Projector)
    requires npc.entityId != 0 && npc.kind == BattleNpc && npc.position == Vec3(10, 0, 0)
    requires viewer.position == Vec3(0, 0, 0) && project(npc.position).Some?
    ensures Scanned([npc], viewer, DefaultConfig(), project, Cap(DefaultConfig())) == [npc]
    ensures Scanned([npc], viewer, DefaultConfig().(range := 5), project, Cap(DefaultConfig())) == []
  {
    assert [npc][1..] == [];
    assert DistSq3(viewer.position, npc.position) == 100;
  }
}
