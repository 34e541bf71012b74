/**
 * Per-group paging on display. GroupCurrentPage maps an anchor point to the
 * index of the member shown; an entry is added at 0 the first time an anchor
 * is drawn, reset to 0 when it is out of range for the group, turned by a
 * click that hits no copyable line, and never removed.
 */
module Paging {
  import opened Wrappers
  import opened World
  import opened Configuration
  import opened ObjectInfo
  import opened Clustering

  type PageMap = map<Point, nat>

  /** What one group shows this frame. */
  datatype GroupView = GroupView(anchor: Point, shown: GameObjectInfo, count: nat, page: nat, lineRects: seq<LineRect>)

  /** TryAdd(anchor, 0), then the reset of an index that is out of range for the group. */
  function PageOnDisplay(pages: PageMap, anchor: Point, count: nat): (r: (nat, PageMap))
    requires count > 0
    ensures r.0 < count
    ensures r.1 == pages[anchor := r.0]
    ensures anchor !in pages ==> r.0 == 0
    ensures anchor in pages && pages[anchor] < count ==> r.0 == pages[anchor] && r.1 == pages
    ensures anchor in pages && pages[anchor] >= count ==> r.0 == 0
  {
    var stored := if anchor in pages then pages[anchor] else 0;
    if stored >= count then (0, pages[anchor := 0]) else (stored, pages[anchor := stored])
  }

  /** A click that copies nothing moves a group of several members to its next page. */
  function PageAfterClick(pages: PageMap, anchor: Point, page: nat, count: nat, hit: Option<nat>): (r: PageMap)
    requires count > 0
    ensures count == 1 || hit.Some? ==> r == pages
    ensures count > 1 && hit.None? ==> r == pages[anchor := (page + 1) % count]
  {
    if hit.None? && count > 1 then pages[anchor := (page + 1) % count] else pages
  }

  /** The page reached from `page` after k page turns. */
  function AdvanceTimes(page: nat, count: nat, k: nat): nat
    requires count > 0
  {
    if k == 0 then page else (AdvanceTimes(page, count, k - 1) + 1) % count
  }

  /** Turning the page k < count times from the first page lands on page k. */
  lemma {:induction false} AdvanceTimesFromFirst(count: nat, k: nat)
    requires k < count
    ensures AdvanceTimes(0, count, k) == k
  {
    if k > 0 {
      AdvanceTimesFromFirst(count, k - 1);
      assert AdvanceTimes(0, count, k) == (AdvanceTimes(0, count, k - 1) + 1) % count;
      SmallRemainder(k, count);
    }
  }

  lemma SmallRemainder(k: nat, count: nat)
    requires k < count
    ensures k % count == k
  {
  }

  /** Page turning visits every member once before it comes back to the first. */
  lemma AdvanceCycles(count: nat, i: nat, j: nat)
    requires count > 0 && i < j < count
    ensures AdvanceTimes(0, count, i) != AdvanceTimes(0, count, j)
    ensures AdvanceTimes(0, count, count) == 0
  {
    AdvanceTimesFromFirst(count, i);
    AdvanceTimesFromFirst(count, j);
    AdvanceTimesFromFirst(count, count - 1);
    assert AdvanceTimes(0, count, count) == count % count;
  }

  /** One group of the Draw loop: display its current member, then apply this frame's click, if any. */
  function GroupStep(pages: PageMap, g: Group, click: Option<Point>, cfg: Config, fontSize: nat)
    : (PageMap, Option<GroupView>)
  {
    var count := |g.members|;
    if count == 0 then (pages, None)
    else
      var (page, shownPages) := PageOnDisplay(pages, g.anchor, count);
      var rects := LineRects(InfoLines(g.members[page], cfg, count, page), g.anchor, fontSize);
      var after := match click
        case None => shownPages
        case Some(mouse) => PageAfterClick(shownPages, g.anchor, page, count, ClickedLine(rects, mouse));
      (after, Some(GroupView(g.anchor, g.members[page], count, page, rects)))
  }

  /** The Draw loop over the groups in dictionary order; clicks[i] is the click on group i's window. */
  function DrawPages(pages: PageMap, groups: seq<Group>, clicks: seq<Option<Point>>, cfg: Config, fontSize: nat)
    : (PageMap, seq<GroupView>)
    requires |clicks| == |groups|
  {
    if groups == [] then (pages, [])
    else
      var n := |groups| - 1;
      var (before, views) := DrawPages(pages, groups[..n], clicks[..n], cfg, fontSize);
      var (after, view) := GroupStep(before, groups[n], clicks[n], cfg, fontSize);
      (after, views + if view.Some? then [view.value] else [])
  }

  /** A displayed group shows a member that exists, and the page it keeps is in range for it. */
  lemma GroupStepInRange(pages: PageMap, g: Group, click: Option<Point>, cfg: Config, fontSize: nat)
    requires |g.members| > 0
    ensures var (after, view) := GroupStep(pages, g, click, cfg, fontSize);
      && view.Some? && view.value.page < |g.members| && view.value.shown == g.members[view.value.page]
      && view.value.count == |g.members|
      && g.anchor in after && after[g.anchor] < |g.members|
      && (forall k :: k != g.anchor ==> (k in after <==> k in pages) && (k in pages ==> after[k] == pages[k]))
  {
  }

  /** A single-member group always stays on page 0, click or not. */
  lemma SingleMemberNeverTurns(pages: PageMap, g: Group, click: Option<Point>, cfg: Config, fontSize: nat)
    requires |g.members| == 1
    ensures GroupStep(pages, g, click, cfg, fontSize).0 == pages[g.anchor := 0]
  {
  }

  /** A click that hits no copyable line turns the page of a group with several members. */
  lemma MissedClickTurnsPage(pages: PageMap, g: Group, mouse: Point, cfg: Config, fontSize: nat)
    requires |g.members| > 1
    ensures var (after, view) := GroupStep(pages, g, Some(mouse), cfg, fontSize);
      ClickedLine(view.value.lineRects, mouse).None? ==>
        after[g.anchor] == (view.value.page + 1) % |g.members|
    ensures var (after, view) := GroupStep(pages, g, Some(mouse), cfg, fontSize);
      ClickedLine(view.value.lineRects, mouse).Some? ==> after[g.anchor] == view.value.page
  {
  }

  /** A click above the first text line of the window hits no line, whatever the lines are. */
  lemma ClickAboveMisses(lines: seq<Line>, position: Point, fontSize: nat, mouse: Point)
    requires mouse.y < position.y
    ensures ClickedLine(LineRects(lines, position, fontSize), mouse).None?
  {
    var rects := LineRects(lines, position, fontSize);
    forall j | 0 <= j < |rects|
      ensures !HitsCopyable(rects[j], mouse)
    {
      RowStartsBelow(j, LineHeight(fontSize), position.y);
      assert rects[j] == LineRectAt(lines, position, fontSize, j);
    }
  }

  lemma RowStartsBelow(j: nat, lh: nat, y: int)
    ensures y + j * lh >= y
  {
  }

  /**
   * One frame of a group of several members, clicked above its lines, turns
   * its stored page to the next: the step AdvanceTimes counts.
   */
  lemma MissedClickStep(pages: PageMap, g: Group, mouse: Point, cfg: Config, fontSize: nat)
    requires |g.members| > 1
    requires g.anchor in pages && pages[g.anchor] < |g.members|
    requires mouse.y < g.anchor.y
    ensures GroupStep(pages, g, Some(mouse), cfg, fontSize).0
         == pages[g.anchor := AdvanceTimes(pages[g.anchor], |g.members|, 1)]
  {
    var count := |g.members|;
    var page := pages[g.anchor];
    ClickAboveMisses(InfoLines(g.members[page], cfg, count, page), g.anchor, fontSize, mouse);
    assert PageOnDisplay(pages, g.anchor, count) == (page, pages);
  }

  /**
   * Draw's page turning follows AdvanceTimes: in the frame where a group of
   * several members shows member k (reached after k missed clicks from the
   * first page), a click above its lines stores page AdvanceTimes(0, count,
   * k + 1), which is k + 1, or 0 once k is the last member.
   */
  lemma MissedClickFollowsCycle(pages: PageMap, g: Group, mouse: Point, k: nat, cfg: Config, fontSize: nat)
    requires |g.members| > 1 && k < |g.members|
    requires g.anchor in pages && pages[g.anchor] == AdvanceTimes(0, |g.members|, k)
    requires mouse.y < g.anchor.y
    ensures var (after, view) := GroupStep(pages, g, Some(mouse), cfg, fontSize);
      && view.Some? && view.value.page == k
      && g.anchor in after && after[g.anchor] == AdvanceTimes(0, |g.members|, k + 1)
      && after[g.anchor] == if k + 1 < |g.members| then k + 1 else 0
  {
    var count := |g.members|;
    AdvanceTimesFromFirst(count, k);
    MissedClickStep(pages, g, mouse, cfg, fontSize);
    if k + 1 < count {
      AdvanceTimesFromFirst(count, k + 1);
    } else {
      AdvanceCycles(count, 0, 1);
    }
  }

  /**
   * Draw never removes a page entry, records one for every non-empty group,
   * and leaves the entries of other anchors as they were.
   */
  lemma {:induction false} DrawPagesKeepsEntries(pages: PageMap, groups: seq<Group>, clicks: seq<Option<Point>>,
                                                 cfg: Config, fontSize: nat)
    requires |clicks| == |groups|
    ensures var after := DrawPages(pages, groups, clicks, cfg, fontSize).0;
      && pages.Keys <= after.Keys
      && (forall i :: 0 <= i < |groups| && |groups[i].members| > 0 ==> groups[i].anchor in after)
      && (forall k :: k in pages && (forall i :: 0 <= i < |groups| ==> groups[i].anchor != k) ==> after[k] == pages[k])
  {
    if groups != [] {
      var n := |groups| - 1;
      DrawPagesKeepsEntries(pages, groups[..n], clicks[..n], cfg, fontSize);
      var before := DrawPages(pages, groups[..n], clicks[..n], cfg, fontSize).0;
      if |groups[n].members| > 0 {
        GroupStepInRange(before, groups[n], clicks[n], cfg, fontSize);
      }
      assert forall i :: 0 <= i < n ==> groups[..n][i] == groups[i];
    }
  }

  /** Every view drawn shows page `page` of a group with `count` members, with page < count. */
  lemma {:induction false} DrawPagesViewsInRange(pages: PageMap, groups: seq<Group>, clicks: seq<Option<Point>>,
                                                 cfg: Config, fontSize: nat)
    requires |clicks| == |groups|
    ensures var views := DrawPages(pages, groups, clicks, cfg, fontSize).1;
      && |views| <= |groups|
      && forall v :: v in views ==> 0 < v.count && v.page < v.count
  {
    if groups != [] {
      var n := |groups| - 1;
      DrawPagesViewsInRange(pages, groups[..n], clicks[..n], cfg, fontSize);
      var before := DrawPages(pages, groups[..n], clicks[..n], cfg, fontSize).0;
      if |groups[n].members| > 0 {
        GroupStepInRange(before, groups[n], clicks[n], cfg, fontSize);
      }
    }
  }

  /**
   * When the anchors are distinct (as clustering guarantees), after Draw
   * every non-empty group's stored page is in range for that group.
   */
  lemma {:induction false} DrawPagesInRange(pages: PageMap, groups: seq<Group>, clicks: seq<Option<Point>>,
                                            cfg: Config, fontSize: nat)
    requires |clicks| == |groups|
    requires forall i, j :: 0 <= i < j < |groups| ==> groups[i].anchor != groups[j].anchor
    ensures var after := DrawPages(pages, groups, clicks, cfg, fontSize).0;
      forall i :: 0 <= i < |groups| && |groups[i].members| > 0 ==>
        groups[i].anchor in after && after[groups[i].anchor] < |groups[i].members|
  {
    if groups != [] {
      var n := |groups| - 1;
      DrawPagesInRange(pages, groups[..n], clicks[..n], cfg, fontSize);
      var before := DrawPages(pages, groups[..n], clicks[..n], cfg, fontSize).0;
      if |groups[n].members| > 0 {
        GroupStepInRange(before, groups[n], clicks[n], cfg, fontSize);
      }
    }
  }
}
