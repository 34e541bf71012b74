/**
 * The per-frame annotation record (GameObjectInfo), how it is taken from an
 * entity, and the text lines the overlay composes for it, together with the
 * screen rectangle of each line and the test for a click on a copyable line.
 */
module ObjectInfo {
  import opened Wrappers
  import opened Text
  import opened World
  import opened Configuration
  import opened Sequences

  datatype GameObjectInfo = GameObjectInfo(
    entityId: nat,
    dataId: nat,
    name: string,
    kind: ObjectKind,
    position: Vec3,
    rotation: int,
    // squared distance to the local player; None where the source stores -1 (no local player)
    distanceSq: Option<nat>,
    currentHp: nat,
    maxHp: nat,
    isCasting: bool,
    castActionId: nat,
    currentCastTime: int,
    totalCastTime: int,
    castTargetName: string,
    statusEffects: seq<StatusEntry>,
    castRotation: Option<int>)

  /** The status list with the empty slots (status ID 0) dropped, order kept. */
  function KeptStatuses(list: seq<StatusEntry>): (r: seq<StatusEntry>)
    ensures |r| <= |list|
    ensures forall s :: s in r <==> s in list && s.statusId != 0
  {
    if list == [] then []
    else
      var last := list[|list| - 1];
      assert list == list[..|list| - 1] + [last];
      KeptStatuses(list[..|list| - 1]) + (if last.statusId != 0 then [last] else [])
  }

  /** The kept statuses keep the list's order: they are a subsequence of it. */
  lemma {:induction false} KeptStatusesInOrder(list: seq<StatusEntry>)
    ensures IsSubsequence(KeptStatuses(list), list)
    decreases |list|
  {
    if list != [] {
      var init := list[..|list| - 1];
      var last := list[|list| - 1];
      var kept := KeptStatuses(init);
      KeptStatusesInOrder(init);
      assert list == init + [last];
      SubsequenceSnoc(kept, init, last);
      if last.statusId != 0 {
        assert KeptStatuses(list) == kept + [last];
      } else {
        assert KeptStatuses(list) == kept;
      }
    }
  }

  /**
   * The kept statuses hold each status with a non-zero id exactly as often as
   * the list does, and no status with id 0.
   */
  lemma {:induction false} KeptStatusesCounts(list: seq<StatusEntry>)
    ensures forall s :: multiset(KeptStatuses(list))[s] == if s.statusId != 0 then multiset(list)[s] else 0
    decreases |list|
  {
    if list != [] {
      var init := list[..|list| - 1];
      var last := list[|list| - 1];
      var kept := KeptStatuses(init);
      KeptStatusesCounts(init);
      assert list == init + [last];
      assert multiset(list) == multiset(init) + multiset{last};
      if last.statusId != 0 {
        assert KeptStatuses(list) == kept + [last];
        assert multiset(KeptStatuses(list)) == multiset(kept) + multiset{last};
      } else {
        assert KeptStatuses(list) == kept;
      }
    }
  }

  /** The cast target's name: its own name when it is in the table, else "ID:<id>"; "无目标" when there is none. */
  function CastTargetName(b: BattleState, table: seq<Entity>): string {
    if !b.isCasting then ""
    else if b.castTargetObjectId == 0 then "无目标"
    else match SearchById(table, b.castTargetObjectId)
      case Some(t) => t.name
      case None => "ID:" + Decimal(b.castTargetObjectId)
  }

  function DistanceOf(obj: Entity, localPlayer: Option<Entity>): Option<nat> {
    match localPlayer
    case Some(lp) => var d := DistSq3(lp.position, obj.position); assert d >= 0; Some(d)
    case None => None
  }

  /** The record built for one entity. */
  function InfoOf(obj: Entity, localPlayer: Option<Entity>, table: seq<Entity>): (r: GameObjectInfo)
    ensures r.entityId == obj.entityId && r.dataId == obj.dataId && r.kind == obj.kind && r.name == obj.name
    ensures r.position == obj.position && r.rotation == obj.rotation
    ensures r.distanceSq.Some? <==> localPlayer.Some?
    ensures localPlayer.Some? ==> r.distanceSq == Some(DistSq3(localPlayer.value.position, obj.position))
    ensures obj.battle.Some? ==>
      var b := obj.battle.value;
      && r.currentHp == b.currentHp && r.maxHp == b.maxHp && r.isCasting == b.isCasting
      && r.castActionId == b.castActionId && r.currentCastTime == b.currentCastTime
      && r.totalCastTime == b.totalCastTime
      && r.statusEffects == KeptStatuses(b.statusList)
      && (b.isCasting ==> r.castRotation == Some(b.castRotation) && r.castTargetName == CastTargetName(b, table))
    ensures forall s :: s in r.statusEffects ==> s.statusId != 0
    ensures obj.battle.None? ==> !r.isCasting && r.currentHp == 0 && r.statusEffects == [] && r.castTargetName == ""
    ensures r.castRotation.Some? <==> r.isCasting
    ensures !r.isCasting ==> r.castTargetName == ""
  {
    var base := GameObjectInfo(
      obj.entityId, obj.dataId, obj.name, obj.kind, obj.position, obj.rotation,
      DistanceOf(obj, localPlayer), 0, 0, false, 0, 0, 0, "", [], None);
    match obj.battle
    case None => base
    case Some(b) =>
      base.(
        currentHp := b.currentHp, maxHp := b.maxHp, isCasting := b.isCasting,
        castActionId := b.castActionId, currentCastTime := b.currentCastTime,
        totalCastTime := b.totalCastTime,
        castRotation := if b.isCasting then Some(b.castRotation) else None,
        castTargetName := CastTargetName(b, table),
        statusEffects := KeptStatuses(b.statusList))
  }

  /** CreateGameObjectInfo: copies the entity's fields and collects its non-empty status slots. */
  method CreateGameObjectInfo(obj: Entity, localPlayer: Option<Entity>, table: seq<Entity>)
    returns (info: GameObjectInfo)
    ensures info == InfoOf(obj, localPlayer, table)
  {
    info := GameObjectInfo(
      obj.entityId, obj.dataId, obj.name, obj.kind, obj.position, obj.rotation,
      DistanceOf(obj, localPlayer), 0, 0, false, 0, 0, 0, "", [], None);
    if obj.battle.None? {
      return;
    }
    var b := obj.battle.value;
    info := info.(currentHp := b.currentHp, maxHp := b.maxHp, isCasting := b.isCasting,
                  castActionId := b.castActionId, currentCastTime := b.currentCastTime,
                  totalCastTime := b.totalCastTime);
    if b.isCasting {
      info := info.(castRotation := Some(b.castRotation), castTargetName := CastTargetName(b, table));
    }
    var kept: seq<StatusEntry> := [];
    var i := 0;
    while i < |b.statusList|
      invariant 0 <= i <= |b.statusList|
      invariant kept == KeptStatuses(b.statusList[..i])
    {
      var status := b.statusList[i];
      assert b.statusList[..i + 1][..i] == b.statusList[..i];
      if status.statusId != 0 {
        kept := kept + [status];
      }
      i := i + 1;
    }
    assert b.statusList[..i] == b.statusList;
    info := info.(statusEffects := kept);
  }

  /** A line's copy value: literal text, or a number in a float format ("F1", "F3"), which is never empty. */
  datatype CopyValue = Literal(s: string) | Formatted

  /** `!string.IsNullOrEmpty(copyValue)` */
  predicate Copyable(c: CopyValue) {
    c.Formatted? || |c.s| > 0
  }

  datatype LineKind =
    | PageHeader(page: nat, total: nat)
    | NameLine | KindLine | EntityIdLine | DataIdLine | PositionLine | RotationLine | DistanceLine
    | HealthLine
    | CastingHeader | CastActionLine | CastRotationLine | CastTargetLine | CastTimeLine
    | StatusHeader(count: nat)
    | StatusLine(statusId: nat)

  datatype Line = Line(kind: LineKind, copyValue: CopyValue)

  /** The page header, shown above a group with more than one member. */
  function HeaderLines(totalCount: nat, currentIndex: nat): seq<Line> {
    if totalCount > 1 then [Line(PageHeader(currentIndex + 1, totalCount), Literal(""))] else []
  }

  /** Name, kind and the optional identity, position, rotation, distance and health lines. */
  function FieldLines(info: GameObjectInfo, cfg: Config): seq<Line> {
    [Line(NameLine, Literal(info.name)), Line(KindLine, Literal(KindName(info.kind)))]
    + (if cfg.showEntityId then [Line(EntityIdLine, Literal(Decimal(info.entityId)))] else [])
    + (if cfg.showDataId then [Line(DataIdLine, Literal(Decimal(info.dataId)))] else [])
    + (if cfg.showPosition then [Line(PositionLine, Formatted)] else [])
    + (if cfg.showRotation then [Line(RotationLine, Formatted)] else [])
    + (if cfg.showDistance && info.distanceSq.Some? then [Line(DistanceLine, Formatted)] else [])
    + (if cfg.showHealth && info.currentHp > 0
       then [Line(HealthLine, Literal(Decimal(info.currentHp) + "/" + Decimal(info.maxHp)))] else [])
  }

  /** The casting block: a header, the action, then the optional heading and target, then the cast time. */
  function CastLines(info: GameObjectInfo, cfg: Config): seq<Line> {
    if cfg.showCastInfo && info.isCasting then
      [Line(CastingHeader, Literal("")), Line(CastActionLine, Literal(Decimal(info.castActionId)))]
      + (if info.castRotation.Some? then [Line(CastRotationLine, Formatted)] else [])
      + (if info.castTargetName != "" then [Line(CastTargetLine, Literal(info.castTargetName))] else [])
      + [Line(CastTimeLine, Formatted)]
    else []
  }

  function StatusLineOf(s: StatusEntry): Line {
    Line(StatusLine(s.statusId), Literal(Decimal(s.statusId)))
  }

  /** The first five statuses, one line each. */
  function StatusLines(statuses: seq<StatusEntry>): seq<Line> {
    var shown := if |statuses| <= 5 then statuses else statuses[..5];
    seq(|shown|, i requires 0 <= i < |shown| => StatusLineOf(shown[i]))
  }

  function StatusBlock(info: GameObjectInfo, cfg: Config): seq<Line> {
    if cfg.showStatusList && |info.statusEffects| > 0 then
      [Line(StatusHeader(|info.statusEffects|), Literal(""))] + StatusLines(info.statusEffects)
    else []
  }

  /** The lines composed for the displayed member of a group. */
  function InfoLines(info: GameObjectInfo, cfg: Config, totalCount: nat, currentIndex: nat): seq<Line> {
    HeaderLines(totalCount, currentIndex) + FieldLines(info, cfg) + CastLines(info, cfg) + StatusBlock(info, cfg)
  }

  /** What the composed lines always look like. */
  lemma InfoLinesShape(info: GameObjectInfo, cfg: Config, totalCount: nat, currentIndex: nat)
    ensures var lines := InfoLines(info, cfg, totalCount, currentIndex);
      var h := if totalCount > 1 then 1 else 0;
      && |lines| >= 2 + h
      && (totalCount > 1 <==> lines[0].kind.PageHeader?)
      && (totalCount > 1 ==> lines[0].kind == PageHeader(currentIndex + 1, totalCount) && !Copyable(lines[0].copyValue))
      && lines[h] == Line(NameLine, Literal(info.name))
      && lines[h + 1].kind == KindLine && Copyable(lines[h + 1].copyValue)
  {
    var lines := InfoLines(info, cfg, totalCount, currentIndex);
    var h := if totalCount > 1 then 1 else 0;
    var fields := FieldLines(info, cfg);
    FieldLinesStart(info, cfg);
    assert |HeaderLines(totalCount, currentIndex)| == h;
    assert lines[h] == fields[0] && lines[h + 1] == fields[1];
  }

  /** The field lines always open with the name line and the kind line, whose text is never empty. */
  lemma FieldLinesStart(info: GameObjectInfo, cfg: Config)
    ensures var fields := FieldLines(info, cfg);
      && |fields| >= 2
      && fields[0] == Line(NameLine, Literal(info.name))
      && fields[1].kind == KindLine && Copyable(fields[1].copyValue)
  {
    assert KindName(info.kind) != "";
  }

  /** How many status lines are composed: at most five, and the header counts every status. */
  lemma StatusLinesBounded(info: GameObjectInfo, cfg: Config, totalCount: nat, currentIndex: nat)
    ensures var n := |StatusBlock(info, cfg)|;
      && (cfg.showStatusList && |info.statusEffects| > 0 ==>
            n == 1 + (if |info.statusEffects| <= 5 then |info.statusEffects| else 5)
            && StatusBlock(info, cfg)[0].kind == StatusHeader(|info.statusEffects|))
      && (!cfg.showStatusList || info.statusEffects == [] ==> n == 0)
  {
  }

  /** The casting block appears exactly when cast info is shown and the entity is casting. */
  lemma CastLinesPresence(info: GameObjectInfo, cfg: Config)
    ensures |CastLines(info, cfg)| > 0 <==> cfg.showCastInfo && info.isCasting
    ensures |CastLines(info, cfg)| > 0 ==> 3 <= |CastLines(info, cfg)| <= 5
  {
  }

  /** The screen rectangle of one line and the value a click on it would copy. */
  datatype LineRect = LineRect(lineMin: Point, lineMax: Point, copyValue: CopyValue)

  function LineHeight(fontSize: nat): nat {
    fontSize + 2
  }

  /** Line i spans the background's width and the i-th row of height LineHeight below position. */
  function LineRectAt(lines: seq<Line>, position: Point, fontSize: nat, i: nat): LineRect
    requires i < |lines|
  {
    var lh := LineHeight(fontSize);
    LineRect(Point(position.x - 4, position.y + i * lh),
             Point(position.x + fontSize * 18 + 4, position.y + (i + 1) * lh),
             lines[i].copyValue)
  }

  function LineRects(lines: seq<Line>, position: Point, fontSize: nat): (r: seq<LineRect>)
    ensures |r| == |lines|
  {
    seq(|lines|, i requires 0 <= i < |lines| => LineRectAt(lines, position, fontSize, i))
  }

  /** The first half of DrawObjectInfoAt: header, field and cast lines, then the status block built by its loop. */
  method ComposeLines(info: GameObjectInfo, cfg: Config, totalCount: nat, currentIndex: nat)
    returns (lines: seq<Line>)
    ensures lines == InfoLines(info, cfg, totalCount, currentIndex)
  {
    lines := HeaderLines(totalCount, currentIndex) + FieldLines(info, cfg) + CastLines(info, cfg);
    var block := ComposeStatusBlock(info, cfg);
    lines := lines + block;
  }

  /** The status block: a header line, then one line for each of the first five status effects. */
  method ComposeStatusBlock(info: GameObjectInfo, cfg: Config) returns (block: seq<Line>)
    ensures block == StatusBlock(info, cfg)
  {
    block := [];
    if cfg.showStatusList && |info.statusEffects| > 0 {
      block := [Line(StatusHeader(|info.statusEffects|), Literal(""))];
      ghost var header := block;
      var shown := if |info.statusEffects| <= 5 then info.statusEffects else info.statusEffects[..5];
      var k := 0;
      while k < |shown|
        invariant 0 <= k <= |shown|
        invariant block == header + StatusLines(shown[..k])
      {
        StatusLinesSnoc(shown, k);
        block := block + [StatusLineOf(shown[k])];
        k := k + 1;
      }
      assert shown[..k] == shown;
    }
  }

  /**
   * DrawObjectInfoAt: composes the lines and lays them out top to bottom,
   * returning the background corners and one rectangle per line; drawing
   * itself is not modelled.
   */
  method DrawObjectInfoAt(info: GameObjectInfo, cfg: Config, position: Point, fontSize: nat,
                          totalCount: nat, currentIndex: nat)
    returns (bgMin: Point, bgMax: Point, lineRects: seq<LineRect>)
    ensures lineRects == LineRects(InfoLines(info, cfg, totalCount, currentIndex), position, fontSize)
    ensures |lineRects| >= 2
    ensures bgMin == Point(position.x - 4, position.y - 4)
    ensures bgMax.x == position.x + fontSize * 18 + 4
  {
    var lines := ComposeLines(info, cfg, totalCount, currentIndex);
    InfoLinesShape(info, cfg, totalCount, currentIndex);
    var lh := LineHeight(fontSize);
    bgMin := Point(position.x - 4, position.y - 4);
    bgMax := Point(position.x + fontSize * 18 + 4, position.y + |lines| * lh + 8 + 4);
    lineRects := LayOutLines(lines, position, fontSize, bgMin, bgMax);
  }

  /** The loop of DrawObjectInfoAt that stacks the lines, one row of LineHeight each, across the background. */
  method LayOutLines(lines: seq<Line>, position: Point, fontSize: nat, bgMin: Point, bgMax: Point)
    returns (lineRects: seq<LineRect>)
    requires bgMin.x == position.x - 4 && bgMax.x == position.x + fontSize * 18 + 4
    ensures lineRects == LineRects(lines, position, fontSize)
  {
    var lh := LineHeight(fontSize);
    lineRects := [];
    var y := position.y;
    var i := 0;
    while i < |lines|
      invariant 0 <= i <= |lines|
      invariant y == position.y + i * lh
      invariant lineRects == LineRects(lines[..i], position, fontSize)
    {
      LineRectsSnoc(lines, position, fontSize, i);
      NextRow(i, lh);
      lineRects := lineRects + [LineRect(Point(bgMin.x, y), Point(bgMax.x, y + lh), lines[i].copyValue)];
      y := y + lh;
      i := i + 1;
    }
    assert lines[..i] == lines;
  }

  lemma NextRow(i: nat, lh: nat)
    ensures (i + 1) * lh == i * lh + lh
  {
  }

  lemma StatusLinesSnoc(shown: seq<StatusEntry>, k: nat)
    requires k < |shown| <= 5
    ensures StatusLines(shown[..k + 1]) == StatusLines(shown[..k]) + [StatusLineOf(shown[k])]
  {
  }

  lemma LineRectsSnoc(lines: seq<Line>, position: Point, fontSize: nat, i: nat)
    requires i < |lines|
    ensures var lh := LineHeight(fontSize);
      LineRects(lines[..i + 1], position, fontSize)
      == LineRects(lines[..i], position, fontSize)
         + [LineRect(Point(position.x - 4, position.y + i * lh),
                     Point(position.x + fontSize * 18 + 4, position.y + i * lh + lh),
                     lines[i].copyValue)]
  {
    var lh := LineHeight(fontSize);
    NextRow(i, lh);
    var a := LineRects(lines[..i + 1], position, fontSize);
    var b := LineRects(lines[..i], position, fontSize);
    assert forall j :: 0 <= j < i ==> a[j] == b[j];
  }

  /** The mouse lies in the line's rectangle (edges included) and the line has something to copy. */
  predicate HitsCopyable(r: LineRect, mouse: Point) {
    && r.lineMin.x <= mouse.x <= r.lineMax.x
    && r.lineMin.y <= mouse.y <= r.lineMax.y
    && Copyable(r.copyValue)
  }

  /** The first line a click copies from, if any. */
  function ClickedLine(rects: seq<LineRect>, mouse: Point): (hit: Option<nat>)
    ensures hit.Some? ==> hit.value < |rects| && HitsCopyable(rects[hit.value], mouse)
    ensures hit.Some? ==> forall j :: 0 <= j < hit.value ==> !HitsCopyable(rects[j], mouse)
    ensures hit.None? <==> forall j :: 0 <= j < |rects| ==> !HitsCopyable(rects[j], mouse)
  {
    if rects == [] then None
    else if HitsCopyable(rects[0], mouse) then Some(0)
    else match ClickedLine(rects[1..], mouse)
      case None => None
      case Some(k) => Some(k + 1)
  }

  /** The loop over the line rectangles that stops at the first copyable line under the mouse. */
  method FindClickedLine(rects: seq<LineRect>, mouse: Point) returns (hit: Option<nat>)
    ensures hit == ClickedLine(rects, mouse)
  {
    hit := None;
    var i := 0;
    while i < |rects|
      invariant 0 <= i <= |rects|
      invariant forall j :: 0 <= j < i ==> !HitsCopyable(rects[j], mouse)
    {
      if HitsCopyable(rects[i], mouse) {
        hit := Some(i);
        break;
      }
      i := i + 1;
    }
  }
}
