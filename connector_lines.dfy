/**
 * Connector lines between two lists of objects. Each ID is looked up by
 * GameObjectId among the valid entities, projected to the screen and kept
 * only when the screen point is finite and within 1000 pixels of the
 * viewport. The result of one frame is the sequence of draw commands, in the
 * order the draw list receives them.
 */
module ConnectorLines {
  import opened Wrappers
  import opened World

  /** What `WorldToScreen` writes when it succeeds: a finite point, or one with a NaN or infinite coordinate. */
  datatype ScreenPos = Finite(p: Point) | NonFinite

  /** `WorldToScreen`: None when the call returns false. */
  type ScreenProjector = Vec3 -> Option<ScreenPos>

  /** The main viewport's size. */
  datatype Viewport = Viewport(width: int, height: int)

  /** How far outside the viewport a point may lie and still be drawn. */
  const Margin: int := 1000

  function IsValidScreenPosition(pos: ScreenPos, vp: Viewport): (ok: bool)
    ensures pos.NonFinite? ==> !ok
    ensures ok ==> -Margin <= pos.p.x && -Margin <= pos.p.y
  {
    match pos
    case NonFinite => false
    case Finite(p) => -Margin <= p.x <= vp.width + Margin && -Margin <= p.y <= vp.height + Margin
  }

  /** Every point on the viewport itself is accepted. */
  lemma OnScreenIsValid(p: Point, vp: Viewport)
    requires 0 <= p.x <= vp.width && 0 <= p.y <= vp.height
    ensures IsValidScreenPosition(Finite(p), vp)
  {
  }

  /** A point is rejected exactly when it lies more than the margin beyond some edge. */
  lemma InvalidMeansFarOff(p: Point, vp: Viewport)
    ensures !IsValidScreenPosition(Finite(p), vp) <==>
      p.x < -Margin || p.x > vp.width + Margin || p.y < -Margin || p.y > vp.height + Margin
  {
  }

  datatype DrawCmd = Segment(from: Point, to: Point) | Dot(at: Point)

  /** Where the object with this GameObjectId is drawn, if it is found, projects and is valid. */
  function Endpoint(id: nat, table: seq<Entity>, project: ScreenProjector, vp: Viewport): Option<Point> {
    match FindValid(table, id)
    case None => None
    case Some(e) =>
      match project(e.position)
      case Some(Finite(p)) => if IsValidScreenPosition(Finite(p), vp) then Some(p) else None
      case _ => None
  }

  /**
   * A resolved endpoint is a valid screen point projected from a valid entity
   * with that GameObjectId; an id no valid entity has never resolves.
   */
  lemma EndpointMeaning(id: nat, table: seq<Entity>, project: ScreenProjector, vp: Viewport)
    ensures var r := Endpoint(id, table, project, vp);
      && (r.Some? ==> IsValidScreenPosition(Finite(r.value), vp))
      && (r.Some? ==> exists e :: e in table && e.isValid && e.gameObjectId == id
                                 && project(e.position) == Some(Finite(r.value)))
      && ((forall e :: e in table && e.isValid ==> e.gameObjectId != id) ==> r.None?)
  {
    match FindValid(table, id)
    case None =>
    case Some(e) =>
  }

  predicate ValidCmd(c: DrawCmd, vp: Viewport) {
    match c
    case Segment(a, b) => IsValidScreenPosition(Finite(a), vp) && IsValidScreenPosition(Finite(b), vp)
    case Dot(a) => IsValidScreenPosition(Finite(a), vp)
  }

  /** The number of line segments among the commands. */
  function SegmentCount(cmds: seq<DrawCmd>): nat {
    if cmds == [] then 0
    else SegmentCount(cmds[..|cmds| - 1]) + if cmds[|cmds| - 1].Segment? then 1 else 0
  }

  lemma {:induction false} SegmentCountAppend(a: seq<DrawCmd>, b: seq<DrawCmd>)
    ensures SegmentCount(a + b) == SegmentCount(a) + SegmentCount(b)
    decreases |b|
  {
    if b == [] {
      assert a + b == a;
    } else {
      assert (a + b)[..|a + b| - 1] == a + b[..|b| - 1];
      SegmentCountAppend(a, b[..|b| - 1]);
    }
  }

  /** The segment count of a concatenation is bounded by the sum of the parts' bounds. */
  lemma CountBound(all: seq<DrawCmd>, a: seq<DrawCmd>, b: seq<DrawCmd>, x: nat, y: nat, z: nat)
    requires all == a + b && SegmentCount(a) <= x && SegmentCount(b) <= y && z == x + y
    ensures SegmentCount(all) <= z
  {
    SegmentCountAppend(a, b);
  }

  lemma TwoCmdCount(cmds: seq<DrawCmd>)
    requires |cmds| == 2 && cmds[0].Segment? && cmds[1].Dot?
    ensures SegmentCount(cmds) == 1
  {
    assert cmds[..1][..0] == [];
    assert SegmentCount(cmds[..1]) == 1;
  }

  lemma ThreeCmdCount(cmds: seq<DrawCmd>)
    requires |cmds| == 3 && cmds[0].Segment? && cmds[1].Dot? && cmds[2].Dot?
    ensures SegmentCount(cmds) == 1
  {
    TwoCmdCount(cmds[..2]);
  }

  // ---- Resolved endpoints ----

  /** The endpoint of every ID of the list, in list order. */
  function Resolved(ids: seq<nat>, table: seq<Entity>, project: ScreenProjector, vp: Viewport): (r: seq<Option<Point>>)
    ensures |r| == |ids|
    ensures forall i :: 0 <= i < |ids| ==> r[i] == Endpoint(ids[i], table, project, vp)
  {
    if ids == [] then []
    else Resolved(ids[..|ids| - 1], table, project, vp) + [Endpoint(ids[|ids| - 1], table, project, vp)]
  }

  /** Every resolved point of the list is a valid screen position. */
  predicate ValidEnds(ends: seq<Option<Point>>, vp: Viewport) {
    forall i :: 0 <= i < |ends| && ends[i].Some? ==> IsValidScreenPosition(Finite(ends[i].value), vp)
  }

  lemma ResolvedValid(ids: seq<nat>, table: seq<Entity>, project: ScreenProjector, vp: Viewport)
    ensures ValidEnds(Resolved(ids, table, project, vp), vp)
  {
    var ends := Resolved(ids, table, project, vp);
    forall i | 0 <= i < |ends| && ends[i].Some?
      ensures IsValidScreenPosition(Finite(ends[i].value), vp)
    {
      EndpointMeaning(ids[i], table, project, vp);
    }
  }

  /** Every command of the list draws only valid points. */
  predicate AllValid(cmds: seq<DrawCmd>, vp: Viewport) {
    forall c :: c in cmds ==> ValidCmd(c, vp)
  }

  lemma AllValidAppend(a: seq<DrawCmd>, b: seq<DrawCmd>, vp: Viewport)
    requires AllValid(a, vp) && AllValid(b, vp)
    ensures AllValid(a + b, vp)
  {
    forall c | c in a + b
      ensures ValidCmd(c, vp)
    {
      if c !in a {
        assert c in b;
      }
    }
  }

  // ---- Pairwise mode: source i with target i, up to the shorter list ----

  /** One pair: a segment, then a dot on each end; nothing when either end is missing. */
  function PairStep(p1: Option<Point>, p2: Option<Point>): (r: seq<DrawCmd>)
    ensures r != [] <==> p1.Some? && p2.Some?
  {
    if p1.Some? && p2.Some? then [Segment(p1.value, p2.value), Dot(p1.value), Dot(p2.value)] else []
  }

  /** The commands for the first k pairs of resolved endpoints. */
  function PairsUpTo(src: seq<Option<Point>>, dst: seq<Option<Point>>, k: nat): seq<DrawCmd>
    requires k <= |src| && k <= |dst|
  {
    if k == 0 then []
    else PairsUpTo(src, dst, k - 1) + PairStep(src[k - 1], dst[k - 1])
  }

  lemma PairsUpToSnoc(src: seq<Option<Point>>, dst: seq<Option<Point>>, j: nat)
    requires j < |src| && j < |dst|
    ensures PairsUpTo(src, dst, j + 1) == PairsUpTo(src, dst, j) + PairStep(src[j], dst[j])
  {
  }

  lemma PairStepCount(p1: Option<Point>, p2: Option<Point>)
    ensures SegmentCount(PairStep(p1, p2)) <= 1
  {
    var cmds := PairStep(p1, p2);
    if cmds != [] {
      ThreeCmdCount(cmds);
    }
  }

  /** One more pair adds at most one segment. */
  lemma PairsUpToCountStep(src: seq<Option<Point>>, dst: seq<Option<Point>>, j: nat)
    requires j < |src| && j < |dst|
    requires SegmentCount(PairsUpTo(src, dst, j)) <= j
    ensures SegmentCount(PairsUpTo(src, dst, j + 1)) <= j + 1
  {
    PairStepCount(src[j], dst[j]);
    CountBound(PairsUpTo(src, dst, j + 1), PairsUpTo(src, dst, j), PairStep(src[j], dst[j]), j, 1, j + 1);
  }

  lemma {:induction false} PairsUpToCount(src: seq<Option<Point>>, dst: seq<Option<Point>>, k: nat)
    requires k <= |src| && k <= |dst|
    ensures SegmentCount(PairsUpTo(src, dst, k)) <= k
  {
    if k > 0 {
      var j: nat := k - 1;
      PairsUpToCount(src, dst, j);
      PairsUpToCountStep(src, dst, j);
    }
  }

  lemma {:induction false} PairsUpToValid(src: seq<Option<Point>>, dst: seq<Option<Point>>, k: nat, vp: Viewport)
    requires k <= |src| && k <= |dst|
    requires ValidEnds(src, vp) && ValidEnds(dst, vp)
    ensures AllValid(PairsUpTo(src, dst, k), vp)
  {
    if k > 0 {
      var j: nat := k - 1;
      PairsUpToValid(src, dst, j, vp);
      AllValidAppend(PairsUpTo(src, dst, j), PairStep(src[j], dst[j]), vp);
    }
  }

  lemma {:induction false} PairsUpToJoins(src: seq<Option<Point>>, dst: seq<Option<Point>>, k: nat)
    requires k <= |src| && k <= |dst|
    ensures forall c :: c in PairsUpTo(src, dst, k) && c.Segment? ==>
      exists i :: 0 <= i < k && src[i] == Some(c.from) && dst[i] == Some(c.to)
  {
    if k > 0 {
      var j: nat := k - 1;
      PairsUpToJoins(src, dst, j);
      var before := PairsUpTo(src, dst, j);
      var step := PairStep(src[j], dst[j]);
      forall c: DrawCmd | c in before + step && c.Segment?
        ensures exists i :: 0 <= i < k && src[i] == Some(c.from) && dst[i] == Some(c.to)
      {
        if c !in before {
          assert c == step[0];
          assert src[j] == Some(c.from);
        }
      }
    }
  }

  /** Every one of the first k pairs whose two ends resolved has its segment and both dots among the commands. */
  predicate DrawsEveryPair(cmds: seq<DrawCmd>, src: seq<Option<Point>>, dst: seq<Option<Point>>, k: nat)
    requires k <= |src| && k <= |dst|
  {
    forall i :: 0 <= i < k && src[i].Some? && dst[i].Some? ==>
      && Segment(src[i].value, dst[i].value) in cmds
      && Dot(src[i].value) in cmds && Dot(dst[i].value) in cmds
  }

  lemma PairsUpToCompleteStep(src: seq<Option<Point>>, dst: seq<Option<Point>>, j: nat)
    requires j < |src| && j < |dst|
    requires DrawsEveryPair(PairsUpTo(src, dst, j), src, dst, j)
    ensures DrawsEveryPair(PairsUpTo(src, dst, j + 1), src, dst, j + 1)
  {
    var before := PairsUpTo(src, dst, j);
    var step := PairStep(src[j], dst[j]);
    PairsUpToSnoc(src, dst, j);
    assert forall c :: c in before ==> c in before + step;
    if src[j].Some? && dst[j].Some? {
      assert step[0] in before + step && step[1] in before + step && step[2] in before + step;
    }
  }

  lemma {:induction false} PairsUpToComplete(src: seq<Option<Point>>, dst: seq<Option<Point>>, k: nat)
    requires k <= |src| && k <= |dst|
    ensures DrawsEveryPair(PairsUpTo(src, dst, k), src, dst, k)
  {
    if k > 0 {
      var j: nat := k - 1;
      PairsUpToComplete(src, dst, j);
      PairsUpToCompleteStep(src, dst, j);
    }
  }

  /**
   * Pairwise mode draws at most one segment per pair, only valid points when
   * the endpoints are valid, and a segment joins source i to target i for one
   * index i; conversely every pair whose two ends resolved is drawn, a
   * segment with a dot on each end.
   */
  lemma PairsUpToMeaning(src: seq<Option<Point>>, dst: seq<Option<Point>>, k: nat, vp: Viewport)
    requires k <= |src| && k <= |dst|
    requires ValidEnds(src, vp) && ValidEnds(dst, vp)
    ensures var cmds := PairsUpTo(src, dst, k);
      && SegmentCount(cmds) <= k
      && AllValid(cmds, vp)
      && (forall c :: c in cmds && c.Segment? ==> exists i :: 0 <= i < k && src[i] == Some(c.from) && dst[i] == Some(c.to))
      && DrawsEveryPair(cmds, src, dst, k)
  {
    PairsUpToCount(src, dst, k);
    PairsUpToValid(src, dst, k, vp);
    PairsUpToJoins(src, dst, k);
    PairsUpToComplete(src, dst, k);
  }

  // ---- All-to-all mode: every source with every target ----

  /** The fan-out's segment and target dot for one target; nothing when the target did not resolve. */
  function FanStep(p1: Point, p2: Option<Point>): seq<DrawCmd> {
    if p2.Some? then [Segment(p1, p2.value), Dot(p2.value)] else []
  }

  /** For one drawn source point, a segment and a target dot for each of the first k targets that resolved. */
  function FanOut(p1: Point, dst: seq<Option<Point>>, k: nat): seq<DrawCmd>
    requires k <= |dst|
  {
    if k == 0 then [] else FanOut(p1, dst, k - 1) + FanStep(p1, dst[k - 1])
  }

  /** One source: its fan-out, then a dot on the source itself; nothing when the source did not resolve. */
  function SourceCmds(p: Option<Point>, dst: seq<Option<Point>>): (r: seq<DrawCmd>)
    ensures p.None? <==> r == []
  {
    match p
    case None => []
    case Some(p1) => FanOut(p1, dst, |dst|) + [Dot(p1)]
  }

  /** The commands for the first k sources. */
  function AllToAll(src: seq<Option<Point>>, dst: seq<Option<Point>>, k: nat): seq<DrawCmd>
    requires k <= |src|
  {
    if k == 0 then [] else AllToAll(src, dst, k - 1) + SourceCmds(src[k - 1], dst)
  }

  lemma FanOutSnoc(p1: Point, dst: seq<Option<Point>>, j: nat)
    requires j < |dst|
    ensures FanOut(p1, dst, j + 1) == FanOut(p1, dst, j) + FanStep(p1, dst[j])
  {
  }

  lemma AllToAllSnoc(src: seq<Option<Point>>, dst: seq<Option<Point>>, j: nat)
    requires j < |src|
    ensures AllToAll(src, dst, j + 1) == AllToAll(src, dst, j) + SourceCmds(src[j], dst)
  {
  }

  lemma FanStepCount(p1: Point, p2: Option<Point>)
    ensures SegmentCount(FanStep(p1, p2)) <= 1
  {
    var cmds := FanStep(p1, p2);
    if cmds != [] {
      TwoCmdCount(cmds);
    }
  }

  /** One more target adds at most one segment to the fan-out. */
  lemma FanOutCountStep(p1: Point, dst: seq<Option<Point>>, j: nat)
    requires j < |dst|
    requires SegmentCount(FanOut(p1, dst, j)) <= j
    ensures SegmentCount(FanOut(p1, dst, j + 1)) <= j + 1
  {
    FanStepCount(p1, dst[j]);
    CountBound(FanOut(p1, dst, j + 1), FanOut(p1, dst, j), FanStep(p1, dst[j]), j, 1, j + 1);
  }

  lemma {:induction false} FanOutCount(p1: Point, dst: seq<Option<Point>>, k: nat)
    requires k <= |dst|
    ensures SegmentCount(FanOut(p1, dst, k)) <= k
  {
    if k > 0 {
      var j: nat := k - 1;
      FanOutCount(p1, dst, j);
      FanOutCountStep(p1, dst, j);
    }
  }

  lemma {:induction false} FanOutValid(p1: Point, dst: seq<Option<Point>>, k: nat, vp: Viewport)
    requires k <= |dst|
    requires IsValidScreenPosition(Finite(p1), vp) && ValidEnds(dst, vp)
    ensures AllValid(FanOut(p1, dst, k), vp)
  {
    if k > 0 {
      var j: nat := k - 1;
      FanOutValid(p1, dst, j, vp);
      AllValidAppend(FanOut(p1, dst, j), FanStep(p1, dst[j]), vp);
    }
  }

  lemma {:induction false} FanOutJoins(p1: Point, dst: seq<Option<Point>>, k: nat)
    requires k <= |dst|
    ensures forall c :: c in FanOut(p1, dst, k) && c.Segment? ==>
      c.from == p1 && exists j :: 0 <= j < k && dst[j] == Some(c.to)
  {
    if k > 0 {
      var j: nat := k - 1;
      FanOutJoins(p1, dst, j);
      var before := FanOut(p1, dst, j);
      var step := FanStep(p1, dst[j]);
      forall c: DrawCmd | c in before + step && c.Segment?
        ensures c.from == p1 && exists j :: 0 <= j < k && dst[j] == Some(c.to)
      {
        if c !in before {
          assert c == step[0];
          assert dst[j] == Some(c.to);
        }
      }
    }
  }

  /** Every one of the first k targets that resolved is joined to p1 and has its dot among the commands. */
  predicate FansToEvery(cmds: seq<DrawCmd>, p1: Point, dst: seq<Option<Point>>, k: nat)
    requires k <= |dst|
  {
    forall j :: 0 <= j < k && dst[j].Some? ==> Segment(p1, dst[j].value) in cmds && Dot(dst[j].value) in cmds
  }

  lemma FanOutCompleteStep(p1: Point, dst: seq<Option<Point>>, j: nat)
    requires j < |dst|
    requires FansToEvery(FanOut(p1, dst, j), p1, dst, j)
    ensures FansToEvery(FanOut(p1, dst, j + 1), p1, dst, j + 1)
  {
    var before := FanOut(p1, dst, j);
    var step := FanStep(p1, dst[j]);
    FanOutSnoc(p1, dst, j);
    assert forall c :: c in before ==> c in before + step;
    if dst[j].Some? {
      assert step[0] in before + step && step[1] in before + step;
    }
  }

  lemma {:induction false} FanOutComplete(p1: Point, dst: seq<Option<Point>>, k: nat)
    requires k <= |dst|
    ensures FansToEvery(FanOut(p1, dst, k), p1, dst, k)
  {
    if k > 0 {
      var j: nat := k - 1;
      FanOutComplete(p1, dst, j);
      FanOutCompleteStep(p1, dst, j);
    }
  }

  /**
   * A source's fan-out draws at most one segment per target, only valid
   * points, and every segment starts at the source and ends at a target;
   * conversely every target that resolved is joined to the source.
   */
  lemma FanOutMeaning(p1: Point, dst: seq<Option<Point>>, k: nat, vp: Viewport)
    requires k <= |dst|
    requires IsValidScreenPosition(Finite(p1), vp) && ValidEnds(dst, vp)
    ensures var cmds := FanOut(p1, dst, k);
      && SegmentCount(cmds) <= k
      && AllValid(cmds, vp)
      && (forall c :: c in cmds && c.Segment? ==> c.from == p1 && exists j :: 0 <= j < k && dst[j] == Some(c.to))
      && FansToEvery(cmds, p1, dst, k)
  {
    FanOutCount(p1, dst, k);
    FanOutValid(p1, dst, k, vp);
    FanOutJoins(p1, dst, k);
    FanOutComplete(p1, dst, k);
  }

  lemma SourceCmdsCount(p: Option<Point>, dst: seq<Option<Point>>)
    ensures SegmentCount(SourceCmds(p, dst)) <= |dst|
  {
    if p.Some? {
      var fan := FanOut(p.value, dst, |dst|);
      FanOutCount(p.value, dst, |dst|);
      SegmentCountAppend(fan, [Dot(p.value)]);
      assert [Dot(p.value)][..0] == [];
    }
  }

  lemma SourceCmdsValid(p: Option<Point>, dst: seq<Option<Point>>, vp: Viewport)
    requires p.Some? ==> IsValidScreenPosition(Finite(p.value), vp)
    requires ValidEnds(dst, vp)
    ensures AllValid(SourceCmds(p, dst), vp)
  {
    if p.Some? {
      FanOutValid(p.value, dst, |dst|, vp);
      AllValidAppend(FanOut(p.value, dst, |dst|), [Dot(p.value)], vp);
    }
  }

  lemma SourceCmdsJoins(p: Option<Point>, dst: seq<Option<Point>>)
    ensures forall c :: c in SourceCmds(p, dst) && c.Segment? ==>
      p == Some(c.from) && exists j :: 0 <= j < |dst| && dst[j] == Some(c.to)
  {
    if p.Some? {
      FanOutJoins(p.value, dst, |dst|);
    }
  }

  /** k·n by repeated addition, which keeps the induction below linear. */
  function Times(k: nat, n: nat): nat {
    if k == 0 then 0 else Times(k - 1, n) + n
  }

  lemma {:induction false} TimesIsProduct(k: nat, n: nat)
    ensures Times(k, n) == k * n
  {
    if k > 0 {
      TimesIsProduct(k - 1, n);
      assert (k - 1) * n + n == k * n;
    }
  }

  /** One more source adds at most |dst| segments. */
  lemma AllToAllCountStep(src: seq<Option<Point>>, dst: seq<Option<Point>>, j: nat)
    requires j < |src|
    requires SegmentCount(AllToAll(src, dst, j)) <= Times(j, |dst|)
    ensures SegmentCount(AllToAll(src, dst, j + 1)) <= Times(j + 1, |dst|)
  {
    SourceCmdsCount(src[j], dst);
    CountBound(AllToAll(src, dst, j + 1), AllToAll(src, dst, j), SourceCmds(src[j], dst),
               Times(j, |dst|), |dst|, Times(j + 1, |dst|));
  }

  lemma {:induction false} AllToAllCount(src: seq<Option<Point>>, dst: seq<Option<Point>>, k: nat)
    requires k <= |src|
    ensures SegmentCount(AllToAll(src, dst, k)) <= Times(k, |dst|)
  {
    if k > 0 {
      var j: nat := k - 1;
      AllToAllCount(src, dst, j);
      AllToAllCountStep(src, dst, j);
    }
  }

  lemma AllToAllValidStep(src: seq<Option<Point>>, dst: seq<Option<Point>>, n: nat, vp: Viewport)
    requires n < |src|
    requires ValidEnds(src, vp) && ValidEnds(dst, vp)
    requires AllValid(AllToAll(src, dst, n), vp)
    ensures AllValid(AllToAll(src, dst, n + 1), vp)
  {
    SourceCmdsValid(src[n], dst, vp);
    AllValidAppend(AllToAll(src, dst, n), SourceCmds(src[n], dst), vp);
  }

  lemma {:induction false} AllToAllValid(src: seq<Option<Point>>, dst: seq<Option<Point>>, k: nat, vp: Viewport)
    requires k <= |src|
    requires ValidEnds(src, vp) && ValidEnds(dst, vp)
    ensures AllValid(AllToAll(src, dst, k), vp)
  {
    if k > 0 {
      var n: nat := k - 1;
      AllToAllValid(src, dst, n, vp);
      AllToAllValidStep(src, dst, n, vp);
    }
  }

  /** Every segment of the commands joins one of the first k sources to some target. */
  predicate JoinsSources(cmds: seq<DrawCmd>, src: seq<Option<Point>>, dst: seq<Option<Point>>, k: nat)
    requires k <= |src|
  {
    forall c :: c in cmds && c.Segment? ==>
      exists i, j :: 0 <= i < k && 0 <= j < |dst| && src[i] == Some(c.from) && dst[j] == Some(c.to)
  }

  lemma AllToAllJoinsStep(src: seq<Option<Point>>, dst: seq<Option<Point>>, n: nat)
    requires n < |src|
    requires JoinsSources(AllToAll(src, dst, n), src, dst, n)
    ensures JoinsSources(AllToAll(src, dst, n + 1), src, dst, n + 1)
  {
    var before := AllToAll(src, dst, n);
    var step := SourceCmds(src[n], dst);
    SourceCmdsJoins(src[n], dst);
    forall c: DrawCmd | c in before + step && c.Segment?
      ensures exists i, j :: 0 <= i < n + 1 && 0 <= j < |dst| && src[i] == Some(c.from) && dst[j] == Some(c.to)
    {
      if c !in before {
        assert c in step;
        var j :| 0 <= j < |dst| && dst[j] == Some(c.to);
        assert src[n] == Some(c.from);
      }
    }
  }

  lemma {:induction false} AllToAllJoins(src: seq<Option<Point>>, dst: seq<Option<Point>>, k: nat)
    requires k <= |src|
    ensures JoinsSources(AllToAll(src, dst, k), src, dst, k)
  {
    if k > 0 {
      var n: nat := k - 1;
      AllToAllJoins(src, dst, n);
      AllToAllJoinsStep(src, dst, n);
    }
  }

  /** A source that resolved is joined to every target that resolved, and gets its own dot. */
  lemma SourceCmdsComplete(p: Option<Point>, dst: seq<Option<Point>>)
    ensures p.Some? ==> FansToEvery(SourceCmds(p, dst), p.value, dst, |dst|) && Dot(p.value) in SourceCmds(p, dst)
  {
    if p.Some? {
      var fan := FanOut(p.value, dst, |dst|);
      FanOutComplete(p.value, dst, |dst|);
      assert forall c :: c in fan ==> c in fan + [Dot(p.value)];
    }
  }

  /**
   * Every one of the first k sources that resolved has its dot among the
   * commands, and a segment to (and the dot of) every target that resolved.
   */
  predicate DrawsEveryCross(cmds: seq<DrawCmd>, src: seq<Option<Point>>, dst: seq<Option<Point>>, k: nat)
    requires k <= |src|
  {
    && (forall i :: 0 <= i < k && src[i].Some? ==> Dot(src[i].value) in cmds)
    && (forall i, j :: 0 <= i < k && 0 <= j < |dst| && src[i].Some? && dst[j].Some? ==>
          Segment(src[i].value, dst[j].value) in cmds && Dot(dst[j].value) in cmds)
  }

  lemma AllToAllCompleteStep(src: seq<Option<Point>>, dst: seq<Option<Point>>, n: nat)
    requires n < |src|
    requires DrawsEveryCross(AllToAll(src, dst, n), src, dst, n)
    ensures DrawsEveryCross(AllToAll(src, dst, n + 1), src, dst, n + 1)
  {
    var before := AllToAll(src, dst, n);
    var step := SourceCmds(src[n], dst);
    var after := before + step;
    AllToAllSnoc(src, dst, n);
    SourceCmdsComplete(src[n], dst);
    forall i | 0 <= i < n + 1 && src[i].Some?
      ensures Dot(src[i].value) in after
    {
      if i < n {
        assert Dot(src[i].value) in before;
      } else {
        assert Dot(src[i].value) in step;
      }
    }
    forall i, j | 0 <= i < n + 1 && 0 <= j < |dst| && src[i].Some? && dst[j].Some?
      ensures Segment(src[i].value, dst[j].value) in after && Dot(dst[j].value) in after
    {
      if i < n {
        assert Segment(src[i].value, dst[j].value) in before && Dot(dst[j].value) in before;
      } else {
        assert Segment(src[i].value, dst[j].value) in step && Dot(dst[j].value) in step;
      }
    }
    assert AllToAll(src, dst, n + 1) == after;
  }

  lemma {:induction false} AllToAllComplete(src: seq<Option<Point>>, dst: seq<Option<Point>>, k: nat)
    requires k <= |src|
    ensures DrawsEveryCross(AllToAll(src, dst, k), src, dst, k)
  {
    if k > 0 {
      var n: nat := k - 1;
      AllToAllComplete(src, dst, n);
      AllToAllCompleteStep(src, dst, n);
    }
  }

  /**
   * All-to-all mode draws at most |sources|·|targets| segments, only valid
   * points, and each segment joins some resolved source to some resolved
   * target; conversely every resolved source is joined to every resolved
   * target.
   */
  lemma AllToAllMeaning(src: seq<Option<Point>>, dst: seq<Option<Point>>, k: nat, vp: Viewport)
    requires k <= |src|
    requires ValidEnds(src, vp) && ValidEnds(dst, vp)
    ensures var cmds := AllToAll(src, dst, k);
      && SegmentCount(cmds) <= k * |dst|
      && AllValid(cmds, vp)
      && (forall c :: c in cmds && c.Segment? ==>
            exists i, j :: 0 <= i < k && 0 <= j < |dst| && src[i] == Some(c.from) && dst[j] == Some(c.to))
      && DrawsEveryCross(cmds, src, dst, k)
  {
    AllToAllCount(src, dst, k);
    TimesIsProduct(k, |dst|);
    AllToAllValid(src, dst, k, vp);
    AllToAllJoins(src, dst, k);
    AllToAllComplete(src, dst, k);
  }

  // ---- One frame ----

  /** The IDs lines start from: the viewer's EntityId when self-sourced (if the viewer is valid), else list 1. */
  function Sources(selfSourced: bool, viewer: Entity, targets1: seq<nat>): (r: seq<nat>)
    ensures selfSourced && viewer.isValid ==> r == [viewer.entityId]
    ensures selfSourced && !viewer.isValid ==> r == []
    ensures !selfSourced ==> r == targets1
  {
    if selfSourced then (if viewer.isValid then [viewer.entityId] else []) else targets1
  }

  function Min(a: nat, b: nat): nat {
    if a <= b then a else b
  }

  /**
   * The commands of one frame. Nothing is drawn when lines are disabled, list
   * 2 is empty, list 1 is empty and not replaced by the viewer, no viewer is
   * loaded, the territory is 0 or there is no source.
   */
  function ResolveLines(enableLine: bool, targets1: seq<nat>, targets2: seq<nat>, selfSourced: bool, pairwise: bool,
                        viewer: Option<Entity>, territory: nat, table: seq<Entity>, project: ScreenProjector,
                        vp: Viewport): (cmds: seq<DrawCmd>)
    ensures !enableLine || targets2 == [] || (!selfSourced && targets1 == []) || viewer.None? || territory == 0 ==>
      cmds == []
    ensures viewer.Some? && Sources(selfSourced, viewer.value, targets1) == [] ==> cmds == []
  {
    if !enableLine || |targets2| == 0 || (!selfSourced && |targets1| == 0) then []
    else if viewer.None? || territory == 0 then []
    else
      var sources := Sources(selfSourced, viewer.value, targets1);
      if |sources| == 0 then []
      else
        var src := Resolved(sources, table, project, vp);
        var dst := Resolved(targets2, table, project, vp);
        if pairwise then PairsUpTo(src, dst, Min(|src|, |dst|)) else AllToAll(src, dst, |src|)
  }

  /**
   * What one frame draws. Every drawn point is valid. Pairwise: at most
   * min(|sources|, |list 2|) segments, each from source i's endpoint to list
   * 2's i-th endpoint, and, when lines are on in a loaded territory, a segment
   * for every index i whose two endpoints resolve. All-to-all: at most
   * |sources|·|list 2| segments, each from some source's endpoint to some
   * list 2 endpoint, and then a segment for every such pair that resolves.
   */
  lemma ResolveLinesMeaning(enableLine: bool, targets1: seq<nat>, targets2: seq<nat>, selfSourced: bool, pairwise: bool,
                            viewer: Entity, territory: nat, table: seq<Entity>, project: ScreenProjector, vp: Viewport)
    ensures var cmds := ResolveLines(enableLine, targets1, targets2, selfSourced, pairwise, Some(viewer), territory,
                                     table, project, vp);
      var sources := Sources(selfSourced, viewer, targets1);
      && AllValid(cmds, vp)
      && (pairwise ==> SegmentCount(cmds) <= Min(|sources|, |targets2|))
      && (pairwise ==> forall c :: c in cmds && c.Segment? ==>
            exists i :: 0 <= i < |sources| && i < |targets2|
              && Endpoint(sources[i], table, project, vp) == Some(c.from)
              && Endpoint(targets2[i], table, project, vp) == Some(c.to))
      && (!pairwise ==> SegmentCount(cmds) <= |sources| * |targets2|)
      && (!pairwise ==> forall c :: c in cmds && c.Segment? ==>
            exists i, j :: 0 <= i < |sources| && 0 <= j < |targets2|
              && Endpoint(sources[i], table, project, vp) == Some(c.from)
              && Endpoint(targets2[j], table, project, vp) == Some(c.to))
    ensures var cmds := ResolveLines(enableLine, targets1, targets2, selfSourced, pairwise, Some(viewer), territory,
                                     table, project, vp);
      var sources := Sources(selfSourced, viewer, targets1);
      enableLine && territory != 0 ==>
        && (pairwise ==> forall i :: (0 <= i < |sources| && i < |targets2|
                && Endpoint(sources[i], table, project, vp).Some? && Endpoint(targets2[i], table, project, vp).Some?) ==>
              Segment(Endpoint(sources[i], table, project, vp).value, Endpoint(targets2[i], table, project, vp).value) in cmds)
        && (!pairwise ==> forall i, j :: (0 <= i < |sources| && 0 <= j < |targets2|
                && Endpoint(sources[i], table, project, vp).Some? && Endpoint(targets2[j], table, project, vp).Some?) ==>
              Segment(Endpoint(sources[i], table, project, vp).value, Endpoint(targets2[j], table, project, vp).value) in cmds)
  {
    var sources := Sources(selfSourced, viewer, targets1);
    var src := Resolved(sources, table, project, vp);
    var dst := Resolved(targets2, table, project, vp);
    ResolvedValid(sources, table, project, vp);
    ResolvedValid(targets2, table, project, vp);
    if pairwise {
      PairsUpToMeaning(src, dst, Min(|src|, |dst|), vp);
    } else {
      AllToAllMeaning(src, dst, |src|, vp);
    }
  }

  /**
   * A self-sourced line starts from the viewer's EntityId, but lookups match
   * GameObjectIds: when no valid entity carries the viewer's EntityId as its
   * GameObjectId, nothing at all is drawn.
   */
  lemma ViewerLookedUpByGameObjectId(enableLine: bool, targets1: seq<nat>, targets2: seq<nat>, pairwise: bool,
                                     viewer: Entity, territory: nat, table: seq<Entity>, project: ScreenProjector,
                                     vp: Viewport)
    requires forall e :: e in table && e.isValid ==> e.gameObjectId != viewer.entityId
    ensures ResolveLines(enableLine, targets1, targets2, true, pairwise, Some(viewer), territory, table, project, vp) == []
  {
    var sources := Sources(true, viewer, targets1);
    if viewer.isValid && enableLine && targets2 != [] && territory != 0 {
      EndpointMeaning(viewer.entityId, table, project, vp);
      var src := Resolved(sources, table, project, vp);
      var dst := Resolved(targets2, table, project, vp);
      assert src == [None];
      if pairwise {
        assert PairsUpTo(src, dst, 1) == [];
      } else {
        assert AllToAll(src, dst, 1) == [];
      }
    }
  }

  /** A concrete viewer whose two IDs differ: the viewer is valid and on screen, yet no line is drawn. */
  lemma ViewerWithDistinctIdsScenario(target: Entity, project: ScreenProjector, vp: Viewport)
    requires target.gameObjectId != 0x1000_0001
    ensures var viewer := Entity(0x1000_0001, 0x2_1000_0001, 0, "viewer", Player, Vec3(0, 0, 0), 0, true, 0, "", None);
      ResolveLines(true, [], [target.gameObjectId], true, true, Some(viewer), 1, [viewer, target], project, vp) == []
  {
    var viewer := Entity(0x1000_0001, 0x2_1000_0001, 0, "viewer", Player, Vec3(0, 0, 0), 0, true, 0, "", None);
    ViewerLookedUpByGameObjectId(true, [], [target.gameObjectId], true, viewer, 1, [viewer, target], project, vp);
  }

  /** In pairwise mode with a single resolvable pair, the frame is one segment and its two end dots. */
  lemma SinglePairDraws(targets1: seq<nat>, targets2: seq<nat>, viewer: Entity, territory: nat, table: seq<Entity>,
                        project: ScreenProjector, vp: Viewport, p1: Point, p2: Point)
    requires |targets1| == 1 && |targets2| == 1 && territory != 0
    requires Endpoint(targets1[0], table, project, vp) == Some(p1)
    requires Endpoint(targets2[0], table, project, vp) == Some(p2)
    ensures ResolveLines(true, targets1, targets2, false, true, Some(viewer), territory, table, project, vp)
      == [Segment(p1, p2), Dot(p1), Dot(p2)]
  {
    var src := Resolved(targets1, table, project, vp);
    var dst := Resolved(targets2, table, project, vp);
    assert src == [Some(p1)] && dst == [Some(p2)];
    assert PairsUpTo(src, dst, 1) == [] + PairStep(Some(p1), Some(p2));
  }
}
