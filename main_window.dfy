/**
 * The overlay window. Its three per-frame caches and the page dictionary are
 * process-wide static fields in the plugin; here they are the fields of one
 * MainWindow object. OnUpdate rebuilds the caches each frame; Draw reads
 * them and updates the page dictionary.
 */
module Overlay {
  import opened Wrappers
  import opened World
  import opened Configuration
  import opened ObjectInfo
  import opened AnnotationScan
  import opened Clustering
  import opened Paging

  class MainWindow {
    var cachedGameObjects: seq<GameObjectInfo>
    var overlayPositions: map<nat, Point>
    var groupedObjects: seq<Group>
    var groupCurrentPage: PageMap

    /**
     * The groups hold exactly the cached records, no group is empty and no
     * two groups share an anchor (so the anchors are proper dictionary keys).
     */
    ghost predicate Valid()
      reads this
    {
      && multiset(Members(groupedObjects)) == multiset(cachedGameObjects)
      && (forall i :: 0 <= i < |groupedObjects| ==> |groupedObjects[i].members| > 0)
      && (forall i, j :: 0 <= i < j < |groupedObjects| ==> groupedObjects[i].anchor != groupedObjects[j].anchor)
    }

    constructor ()
      ensures Valid()
      ensures cachedGameObjects == [] && overlayPositions == map[] && groupedObjects == [] && groupCurrentPage == map[]
    {
      cachedGameObjects := [];
      overlayPositions := map[];
      groupedObjects := [];
      groupCurrentPage := map[];
    }

    /**
     * The per-frame update. It returns before touching the caches when the
     * overlay is disabled, the screen is not ready (or the game is between
     * areas) or there is no local player, so the previous frame's contents
     * survive. Otherwise it clears the caches, scans the object table and
     * clusters the cached records' screen points.
     */
    method OnUpdate(cfg: Config, screenReady: bool, localPlayer: Option<Entity>, table: seq<Entity>,
                    project: Projector)
      requires Valid()
      requires WithinSliderBounds(cfg)
      modifies this
      ensures Valid()
      ensures groupCurrentPage == old(groupCurrentPage)
      ensures !cfg.enabled || !screenReady || localPlayer.None? ==>
        && cachedGameObjects == old(cachedGameObjects)
        && overlayPositions == old(overlayPositions)
        && groupedObjects == old(groupedObjects)
      ensures cfg.enabled && screenReady && localPlayer.Some? ==>
        var s := Scanned(table, localPlayer.value, cfg, project, Cap(cfg));
        && cachedGameObjects == Infos(s, localPlayer.value, table)
        && overlayPositions == PositionsOf(s, project)
        && groupedObjects == Cluster(cachedGameObjects, overlayPositions, cfg.mergeDistance)
    {
      if !cfg.enabled || !screenReady || localPlayer.None? {
        return;
      }
      var lp := localPlayer.value;

      cachedGameObjects := [];
      overlayPositions := map[];
      groupedObjects := [];

      var cached, positions, groups := RebuildCaches(cfg, lp, table, project);
      cachedGameObjects := cached;
      overlayPositions := positions;
      groupedObjects := groups;
    }

    /**
     * The drawing pass, reduced to what it decides: for each group in
     * dictionary order, which member is shown and how the page dictionary
     * changes. clicks[i] is a left click on group i's window (with the mouse
     * position), or None. Nothing is drawn when the overlay is disabled, the
     * screen is not ready or the cache is empty.
     */
    method Draw(cfg: Config, screenReady: bool, fontSize: nat, clicks: seq<Option<Point>>)
      returns (views: seq<GroupView>)
      requires Valid()
      requires |clicks| == |groupedObjects|
      modifies this`groupCurrentPage
      ensures !cfg.enabled || !screenReady || cachedGameObjects == [] ==>
        views == [] && groupCurrentPage == old(groupCurrentPage)
      ensures cfg.enabled && screenReady && cachedGameObjects != [] ==>
        (groupCurrentPage, views) == DrawPages(old(groupCurrentPage), groupedObjects, clicks, cfg, fontSize)
      ensures old(groupCurrentPage).Keys <= groupCurrentPage.Keys
      ensures forall v :: v in views ==> v.page < v.count
      ensures cfg.enabled && screenReady && cachedGameObjects != [] ==>
        forall i :: 0 <= i < |groupedObjects| ==>
          groupedObjects[i].anchor in groupCurrentPage
          && groupCurrentPage[groupedObjects[i].anchor] < |groupedObjects[i].members|
    {
      views := [];
      if !cfg.enabled || !screenReady || |cachedGameObjects| == 0 {
        return;
      }
      ghost var start := groupCurrentPage;
      var i := 0;
      while i < |groupedObjects|
        invariant 0 <= i <= |groupedObjects|
        invariant (groupCurrentPage, views) == DrawPages(start, groupedObjects[..i], clicks[..i], cfg, fontSize)
      {
        DrawPagesSnoc(start, groupedObjects, clicks, i, cfg, fontSize);
        var after, view := DrawGroup(groupCurrentPage, groupedObjects[i], clicks[i], cfg, fontSize);
        groupCurrentPage := after;
        if view.Some? {
          views := views + [view.value];
        }
        i := i + 1;
      }
      assert groupedObjects[..i] == groupedObjects && clicks[..i] == clicks;
      DrawPagesKeepsEntries(start, groupedObjects, clicks, cfg, fontSize);
      DrawPagesViewsInRange(start, groupedObjects, clicks, cfg, fontSize);
      DrawPagesInRange(start, groupedObjects, clicks, cfg, fontSize);
    }
  }

  /**
   * Lines 42-75 of OnUpdate: the scan of the object table, then the
   * clustering of the cached records, whose groups partition the cache into
   * non-empty groups with distinct anchors.
   */
  method RebuildCaches(cfg: Config, lp: Entity, table: seq<Entity>, project: Projector)
    returns (cached: seq<GameObjectInfo>, positions: map<nat, Point>, groups: seq<Group>)
    requires WithinSliderBounds(cfg)
    ensures var s := Scanned(table, lp, cfg, project, Cap(cfg));
      && cached == Infos(s, lp, table)
      && positions == PositionsOf(s, project)
      && groups == Cluster(cached, positions, cfg.mergeDistance)
    ensures multiset(Members(groups)) == multiset(cached)
    ensures forall i :: 0 <= i < |groups| ==> |groups[i].members| > 0
    ensures forall i, j :: 0 <= i < j < |groups| ==> groups[i].anchor != groups[j].anchor
  {
    var examined;
    cached, positions, examined := ScanObjectTable(table, lp, cfg, project);
    groups := ClusterObjects(cached, positions, cfg.mergeDistance);
    ScanHasPositions(table, lp, cfg, project, Cap(cfg));
    ClusterIsValid(cached, positions, cfg.mergeDistance);
  }

  /** Drawing one more group is one more GroupStep on the pages left by the earlier groups. */
  lemma DrawPagesSnoc(pages: PageMap, groups: seq<Group>, clicks: seq<Option<Point>>, i: nat, cfg: Config, fontSize: nat)
    requires |clicks| == |groups| && i < |groups|
    ensures var (before, views) := DrawPages(pages, groups[..i], clicks[..i], cfg, fontSize);
      var (after, view) := GroupStep(before, groups[i], clicks[i], cfg, fontSize);
      DrawPages(pages, groups[..i + 1], clicks[..i + 1], cfg, fontSize)
        == (after, views + if view.Some? then [view.value] else [])
  {
    assert groups[..i + 1][..i] == groups[..i] && clicks[..i + 1][..i] == clicks[..i];
  }

  /**
   * The body of Draw's loop for one group: TryAdd the anchor, reset an
   * out-of-range page, lay out the shown member's lines and, on a left click
   * that hits no copyable line, turn the page of a group of several members.
   */
  method DrawGroup(pages: PageMap, g: Group, click: Option<Point>, cfg: Config, fontSize: nat)
    returns (after: PageMap, view: Option<GroupView>)
    ensures (after, view) == GroupStep(pages, g, click, cfg, fontSize)
    ensures view.Some? <==> |g.members| > 0
    ensures view.Some? ==> view.value.page < view.value.count && g.anchor in after && after[g.anchor] < |g.members|
  {
    after := pages;
    var groupPos := g.anchor;
    var objects := g.members;
    if |objects| == 0 {
      return after, None;
    }
    if groupPos !in after {
      after := after[groupPos := 0];
    }
    var currentPage := after[groupPos];
    if currentPage >= |objects| {
      currentPage := 0;
      after := after[groupPos := 0];
    }
    var objInfo := objects[currentPage];
    var _, _, lineRects := DrawObjectInfoAt(objInfo, cfg, groupPos, fontSize, |objects|, currentPage);
    if click.Some? {
      var clickedLine := FindClickedLine(lineRects, click.value);
      if clickedLine.None? && |objects| > 1 {
        after := after[groupPos := (currentPage + 1) % |objects|];
      }
    }
    view := Some(GroupView(groupPos, objInfo, |objects|, currentPage, lineRects));
  }
}
