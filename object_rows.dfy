/**
 * The object-list table: which entities get a row, and the six texts of a
 * row. A row is shown when its kind passes the kind filter and, for a
 * non-empty filter text, the lower-cased filter occurs in one of the six
 * lower-cased columns.
 */
module ObjectRows {
  import opened World
  import opened Text
  import opened Sequences

  /** The eight kind checkboxes. */
  datatype KindFilter = KindFilter(
    showPlayers: bool,
    showBattleNpc: bool,
    showEventNpc: bool,
    showEventObj: bool,
    showTreasure: bool,
    showMountType: bool,
    showCompanion: bool,
    showOthers: bool)

  /** The initial state and the "全选" button: every box ticked. */
  function AllKinds(): KindFilter {
    KindFilter(true, true, true, true, true, true, true, true)
  }

  /** The "全不选" button: every box cleared. */
  function NoKinds(): KindFilter {
    KindFilter(false, false, false, false, false, false, false, false)
  }

  /** Seven kinds have a box of their own; every other kind falls back to "其他". */
  function IsObjectKindVisible(f: KindFilter, kind: ObjectKind): (r: bool)
    ensures kind == Player ==> r == f.showPlayers
    ensures kind == BattleNpc ==> r == f.showBattleNpc
    ensures kind == EventNpc ==> r == f.showEventNpc
    ensures kind == EventObj ==> r == f.showEventObj
    ensures kind == Treasure ==> r == f.showTreasure
    ensures kind == MountType ==> r == f.showMountType
    ensures kind == Companion ==> r == f.showCompanion
    ensures !(kind in {Player, BattleNpc, EventNpc, EventObj, Treasure, MountType, Companion}) ==> r == f.showOthers
  {
    match kind
    case Player => f.showPlayers
    case BattleNpc => f.showBattleNpc
    case EventNpc => f.showEventNpc
    case EventObj => f.showEventObj
    case Treasure => f.showTreasure
    case MountType => f.showMountType
    case Companion => f.showCompanion
    case _ => f.showOthers
  }

  /** With every box ticked every kind is listed; with none ticked no kind is. */
  lemma SelectAllAndNone(kind: ObjectKind)
    ensures IsObjectKindVisible(AllKinds(), kind)
    ensures !IsObjectKindVisible(NoKinds(), kind)
  {
  }

  /** The type column: a bilingual name for the seven filterable kinds, the enumeration name otherwise. */
  function ShortTypeName(kind: ObjectKind): (r: string)
    ensures kind == Player ==> r == "Player"
    ensures kind == BattleNpc ==> r == "战斗NPC(BattleNpc)"
    ensures kind == EventNpc ==> r == "事件NPC(EventNpc)"
    ensures kind == EventObj ==> r == "事件对象(EventObj)"
    ensures kind == Treasure ==> r == "宝箱(Treasure)"
    ensures kind == MountType ==> r == "坐骑(MountType)"
    ensures kind == Companion ==> r == "宠物(Companion)"
    ensures !(kind in {Player, BattleNpc, EventNpc, EventObj, Treasure, MountType, Companion}) ==> r == KindName(kind)
  {
    match kind
    case Player => "Player"
    case BattleNpc => "战斗NPC(BattleNpc)"
    case EventNpc => "事件NPC(EventNpc)"
    case EventObj => "事件对象(EventObj)"
    case Treasure => "宝箱(Treasure)"
    case MountType => "坐骑(MountType)"
    case Companion => "宠物(Companion)"
    case _ => KindName(kind)
  }

  /** The six column texts. */
  datatype Row = Row(objectId: string, name: string, typeName: string, marker: string, dataId: string, targetId: string)

  /** An entity's row: the two IDs in X8 hexadecimal, the DataId in decimal. */
  function RowOf(e: Entity): (r: Row)
    ensures forall i :: 0 <= i < |r.objectId| ==> IsUpperHexDigit(r.objectId[i])
    ensures forall i :: 0 <= i < |r.targetId| ==> IsUpperHexDigit(r.targetId[i])
    ensures forall i :: 0 <= i < |r.dataId| ==> IsDigit(r.dataId[i])
    ensures ParseHex(r.objectId) == e.gameObjectId && ParseHex(r.targetId) == e.targetObjectId
    ensures ParseDecimal(r.dataId) == e.dataId
    ensures r.name == e.name && r.marker == e.marker && r.typeName == ShortTypeName(e.kind)
  {
    X8RoundTrip(e.gameObjectId);
    X8RoundTrip(e.targetObjectId);
    DecimalRoundTrip(e.dataId);
    Row(X8(e.gameObjectId), e.name, ShortTypeName(e.kind), e.marker, Decimal(e.dataId), X8(e.targetObjectId))
  }

  function Columns(r: Row): seq<string> {
    [r.objectId, r.name, r.typeName, r.marker, r.dataId, r.targetId]
  }

  /** The text filter: empty matches everything, otherwise a case-insensitive substring of some column. */
  function MatchesFilter(row: Row, filter: string): (b: bool)
    ensures b <==> filter == [] || exists k :: 0 <= k < 6 && Contains(Lower(Columns(row)[k]), Lower(filter))
  {
    if filter == [] then true
    else
      var needle := Lower(filter);
      var cols := Columns(row);
      assert cols[0] == row.objectId && cols[1] == row.name && cols[2] == row.typeName;
      assert cols[3] == row.marker && cols[4] == row.dataId && cols[5] == row.targetId;
      Contains(Lower(row.objectId), needle) || Contains(Lower(row.name), needle) ||
      Contains(Lower(row.typeName), needle) || Contains(Lower(row.marker), needle) ||
      Contains(Lower(row.dataId), needle) || Contains(Lower(row.targetId), needle)
  }

  lemma LowerIdempotent(s: string)
    ensures Lower(Lower(s)) == Lower(s)
  {
  }

  /** Searching ignores the case of the filter text. */
  lemma FilterIgnoresCase(row: Row, filter: string)
    ensures MatchesFilter(row, Lower(filter)) == MatchesFilter(row, filter)
  {
    LowerIdempotent(filter);
  }

  /** Typing an object's whole ID, in either case, finds it. */
  lemma ObjectIdFindsRow(e: Entity, filter: string)
    requires Lower(filter) == Lower(X8(e.gameObjectId))
    ensures MatchesFilter(RowOf(e), filter)
  {
    var needle := Lower(filter);
    assert |needle| == |X8(e.gameObjectId)| >= 8;
    assert OccursAt(Lower(RowOf(e).objectId), needle, 0);
    assert Columns(RowOf(e))[0] == RowOf(e).objectId;
  }

  function RowShown(f: KindFilter, filter: string, e: Entity): bool {
    IsObjectKindVisible(f, e.kind) && MatchesFilter(RowOf(e), filter)
  }

  /** The table's rows, in table order: one for each valid entity that the filters let through. */
  function Rows(f: KindFilter, filter: string, table: seq<Entity>): (rows: seq<Row>)
    ensures |rows| <= |table|
  {
    if table == [] then []
    else
      var e := table[|table| - 1];
      var before := Rows(f, filter, table[..|table| - 1]);
      if e.isValid && RowShown(f, filter, e) then before + [RowOf(e)] else before
  }

  /** A row is listed exactly when it belongs to a valid entity that passes both filters. */
  lemma {:induction false} RowsMeaning(f: KindFilter, filter: string, table: seq<Entity>)
    ensures forall r :: r in Rows(f, filter, table) ==>
      exists e :: e in table && e.isValid && RowShown(f, filter, e) && RowOf(e) == r
    ensures forall e :: e in table && e.isValid && RowShown(f, filter, e) ==> RowOf(e) in Rows(f, filter, table)
  {
    if table != [] {
      var init := table[..|table| - 1];
      var e := table[|table| - 1];
      RowsMeaning(f, filter, init);
      assert table == init + [e];
    }
  }

  /** The entities that get a row, in table order: the valid ones the filters let through. */
  function ShownEntities(f: KindFilter, filter: string, table: seq<Entity>): seq<Entity> {
    if table == [] then []
    else
      var e := table[|table| - 1];
      var before := ShownEntities(f, filter, table[..|table| - 1]);
      if e.isValid && RowShown(f, filter, e) then before + [e] else before
  }

  /** The shown entities keep the table's order: they are a subsequence of it. */
  lemma {:induction false} ShownEntitiesInOrder(f: KindFilter, filter: string, table: seq<Entity>)
    ensures IsSubsequence(ShownEntities(f, filter, table), table)
    decreases |table|
  {
    if table != [] {
      var init := table[..|table| - 1];
      var e := table[|table| - 1];
      var shown := ShownEntities(f, filter, init);
      ShownEntitiesInOrder(f, filter, init);
      assert table == init + [e];
      SubsequenceSnoc(shown, init, e);
      if e.isValid && RowShown(f, filter, e) {
        assert ShownEntities(f, filter, table) == shown + [e];
      } else {
        assert ShownEntities(f, filter, table) == shown;
      }
    }
  }

  /**
   * Every valid entity that passes the filters is shown exactly as often as
   * the table holds it, and no other entity is shown.
   */
  lemma {:induction false} ShownEntitiesCounts(f: KindFilter, filter: string, table: seq<Entity>)
    ensures forall e :: (multiset(ShownEntities(f, filter, table))[e] ==
      if e.isValid && RowShown(f, filter, e) then multiset(table)[e] else 0)
    decreases |table|
  {
    if table != [] {
      var init := table[..|table| - 1];
      var last := table[|table| - 1];
      var shown := ShownEntities(f, filter, init);
      ShownEntitiesCounts(f, filter, init);
      assert table == init + [last];
      assert multiset(table) == multiset(init) + multiset{last};
      if last.isValid && RowShown(f, filter, last) {
        assert ShownEntities(f, filter, table) == shown + [last];
        assert multiset(ShownEntities(f, filter, table)) == multiset(shown) + multiset{last};
      } else {
        assert ShownEntities(f, filter, table) == shown;
      }
    }
  }

  /** The table lists one row per shown entity, in the same order. */
  lemma {:induction false} RowsOfShownEntities(f: KindFilter, filter: string, table: seq<Entity>)
    ensures |Rows(f, filter, table)| == |ShownEntities(f, filter, table)|
    ensures forall k :: 0 <= k < |Rows(f, filter, table)| ==>
      Rows(f, filter, table)[k] == RowOf(ShownEntities(f, filter, table)[k])
    decreases |table|
  {
    if table != [] {
      var init := table[..|table| - 1];
      RowsOfShownEntities(f, filter, init);
    }
  }

  /** Every entity's row, shown or not, in table order. */
  function AllRows(table: seq<Entity>): (rows: seq<Row>)
    ensures |rows| == |table| && forall i :: 0 <= i < |table| ==> rows[i] == RowOf(table[i])
  {
    if table == [] then []
    else
      var init := table[..|table| - 1];
      assert forall i :: 0 <= i < |init| ==> init[i] == table[i];
      AllRows(init) + [RowOf(table[|table| - 1])]
  }

  /** The listed rows are the table's rows with the hidden ones dropped, in table order. */
  lemma {:induction false} RowsInTableOrder(f: KindFilter, filter: string, table: seq<Entity>)
    ensures IsSubsequence(Rows(f, filter, table), AllRows(table))
    decreases |table|
  {
    if table != [] {
      var init := table[..|table| - 1];
      var e := table[|table| - 1];
      var before := Rows(f, filter, init);
      var row := RowOf(e);
      RowsInTableOrder(f, filter, init);
      assert AllRows(table) == AllRows(init) + [row];
      SubsequenceSnoc(before, AllRows(init), row);
      if e.isValid && RowShown(f, filter, e) {
        assert Rows(f, filter, table) == before + [row];
      } else {
        assert Rows(f, filter, table) == before;
      }
    }
  }

  /** With an empty filter and every box ticked, each valid entity gets a row. */
  lemma EverythingListedByDefault(table: seq<Entity>, e: Entity)
    requires e in table && e.isValid
    ensures RowOf(e) in Rows(AllKinds(), "", table)
  {
    RowsMeaning(AllKinds(), "", table);
  }
}
