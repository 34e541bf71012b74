/**
 * What the game exposes to the plugin each frame: entities with their two
 * identities (the 32-bit EntityId and the 64-bit GameObjectId), kind, world
 * position and optional combat state. Coordinates are integers and distances
 * are compared squared, so no square root is taken.
 */
module World {
  import opened Wrappers

  datatype Vec3 = Vec3(x: int, y: int, z: int)

  /** A finite screen coordinate. */
  datatype Point = Point(x: int, y: int)

  function DistSq3(a: Vec3, b: Vec3): int {
    (a.x - b.x) * (a.x - b.x) + (a.y - b.y) * (a.y - b.y) + (a.z - b.z) * (a.z - b.z)
  }

  function DistSq(a: Point, b: Point): int {
    (a.x - b.x) * (a.x - b.x) + (a.y - b.y) * (a.y - b.y)
  }

  /** The game's object kinds (Dalamud's ObjectKind enumeration). */
  datatype ObjectKind =
    | KindNone | Player | BattleNpc | EventNpc | Treasure | Aetheryte | GatheringPoint
    | EventObj | MountType | Companion | Retainer | Area | Housing | Cutscene | CardStand | Ornament

  /** `kind.ToString()`: the enumeration member's name. */
  function KindName(k: ObjectKind): string {
    match k
    case KindNone => "None"
    case Player => "Player"
    case BattleNpc => "BattleNpc"
    case EventNpc => "EventNpc"
    case Treasure => "Treasure"
    case Aetheryte => "Aetheryte"
    case GatheringPoint => "GatheringPoint"
    case EventObj => "EventObj"
    case MountType => "MountType"
    case Companion => "Companion"
    case Retainer => "Retainer"
    case Area => "Area"
    case Housing => "Housing"
    case Cutscene => "Cutscene"
    case CardStand => "CardStand"
    case Ornament => "Ornament"
  }

  datatype StatusEntry = StatusEntry(statusId: nat, remainingTime: int, param: nat)

  /** The part of an entity that only battle characters have. */
  datatype BattleState = BattleState(
    currentHp: nat,
    maxHp: nat,
    isCasting: bool,
    castActionId: nat,
    currentCastTime: int,
    totalCastTime: int,
    castTargetObjectId: nat,
    castRotation: int,
    statusList: seq<StatusEntry>)

  datatype Entity = Entity(
    entityId: nat,
    gameObjectId: nat,
    dataId: nat,
    name: string,
    kind: ObjectKind,
    position: Vec3,
    rotation: int,
    isValid: bool,
    targetObjectId: nat,
    marker: string,
    battle: Option<BattleState>)

  /** Entry i is the first entry of the table that satisfies the search. */
  predicate FirstHit(table: seq<Entity>, i: nat, id: nat, validOnly: bool)
    requires i < |table|
  {
    && Hit(table[i], id, validOnly)
    && forall j :: 0 <= j < i ==> !Hit(table[j], id, validOnly)
  }

  predicate Hit(e: Entity, id: nat, validOnly: bool) {
    (e.isValid || !validOnly) && e.gameObjectId == id
  }

  /** A first hit past the head is the first hit of the tail. */
  lemma FirstHitInTail(table: seq<Entity>, i: nat, id: nat, validOnly: bool)
    requires 0 < i < |table| && FirstHit(table, i, id, validOnly)
    ensures FirstHit(table[1..], i - 1, id, validOnly)
  {
    forall j | 0 <= j < i - 1
      ensures !Hit(table[1..][j], id, validOnly)
    {
      assert table[1..][j] == table[j + 1];
    }
  }

  /** `ObjectTable.SearchById`: the first entity whose GameObjectId is id. */
  function SearchById(table: seq<Entity>, id: nat): (r: Option<Entity>)
    ensures r.Some? ==> r.value in table && r.value.gameObjectId == id
    ensures r.None? ==> forall e :: e in table ==> e.gameObjectId != id
    ensures forall i :: 0 <= i < |table| && FirstHit(table, i, id, false) ==> r == Some(table[i])
  {
    if table == [] then None
    else if table[0].gameObjectId == id then Some(table[0])
    else
      assert forall i :: 0 < i < |table| && FirstHit(table, i, id, false) ==> FirstHit(table[1..], i - 1, id, false) by {
        forall i | 0 < i < |table| && FirstHit(table, i, id, false)
          ensures FirstHit(table[1..], i - 1, id, false)
        {
          FirstHitInTail(table, i, id, false);
        }
      }
      SearchById(table[1..], id)
  }

  /** `ObjectTable.FirstOrDefault(o => o.IsValid() && o.GameObjectID == id)`. */
  function FindValid(table: seq<Entity>, id: nat): (r: Option<Entity>)
    ensures r.Some? ==> r.value in table && r.value.isValid && r.value.gameObjectId == id
    ensures r.None? ==> forall e :: e in table && e.isValid ==> e.gameObjectId != id
    ensures forall i :: 0 <= i < |table| && FirstHit(table, i, id, true) ==> r == Some(table[i])
  {
    if table == [] then None
    else if table[0].isValid && table[0].gameObjectId == id then Some(table[0])
    else
      assert forall i :: 0 < i < |table| && FirstHit(table, i, id, true) ==> FirstHit(table[1..], i - 1, id, true) by {
        forall i | 0 < i < |table| && FirstHit(table, i, id, true)
          ensures FirstHit(table[1..], i - 1, id, true)
        {
          FirstHitInTail(table, i, id, true);
        }
      }
      FindValid(table[1..], id)
  }
}
