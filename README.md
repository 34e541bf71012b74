# JiaTools overlay logic in Dafny

JiaTools is a Dalamud plugin for Final Fantasy XIV. It annotates nearby game
objects on screen and lists every object in a searchable table. It can also
draw connector lines between chosen objects. This project models and proves
the plugin's decision logic. Drawing calls, game memory and configuration
plumbing stay outside the model.

**Overlay scan (`AnnotationScan`, `Overlay.MainWindow.OnUpdate`).** Each frame
the overlay walks the object table in order. It keeps entities that:

- have a non-zero EntityId;
- are not farther than `Range` from the local player;
- are of a kind the settings show;
- project onto the screen.

It stops once `MaxObjects` records are cached. The cached record of each entity
is `ObjectInfo.GameObjectInfo`. Its status list drops entries with status id 0.

**Clustering (`Clustering`).** The cached screen points are clustered greedily.
A point joins the nearest existing anchor strictly within `MergeDistance`, and
the earliest anchor wins a tie. Otherwise the point founds a new group at its
own position.

**Paging (`Paging`, `Overlay.MainWindow.Draw`).** Each group shows one member
at a time. The page index lives in a dictionary keyed by anchor, and it
survives across frames. A click that hits no copyable text line turns the page.

**Object list (`ObjectRows`, `ObjectListUi.ObjectListWindow.TableRows`).** The
table lists valid entities that pass two filters:

- eight kind checkboxes;
- a case-insensitive substring search over six column texts.

**Connector lines (`TargetLists`, `ConnectorLines`,
`ObjectListUi.ObjectListWindow`).** Two de-duplicated lists of GameObjectIds are
edited by buttons and by public setters. Each frame they are resolved either
pairwise or all-to-all into line segments and dots. Only endpoints that project
to a finite point near the viewport are drawn.

**Action types (`ActionHelper.GetTypeString`).** Maps an action's cast type
number to a Chinese shape label followed by `(n)`.

Modelling conventions:

- World and screen coordinates are integers, and distances are compared
  squared (`Vector3.Distance(a, b) > r` becomes `DistSq3(a, b) > r*r`).
- The game's services are parameters:
  - the object table is a `seq<Entity>`;
  - `WorldToScreen` is a function returning an `Option`;
  - the local player, the current target and the territory id are values;
  - the viewport size is a `Viewport`.
- The overlay's static collections (`CachedGameObjects`, `OverlayPositions`,
  `GroupedObjects`, `GroupCurrentPage`) are the fields of one `MainWindow`
  object. `GroupedObjects` is a dictionary whose enumeration order is
  insertion order, so it is a sequence of groups in creation order.
- Entity ids are unbounded naturals. GameObjectIds are kept apart from
  EntityIds, since the source mixes the two in one place (see
  `ConnectorLines.ViewerLookedUpByGameObjectId`).

## Model

| member | source | states |
|---|---|---|
| ActionHelper.TypeLabel | JiaTools/Helpers/ActionHelper.cs:7-22 | exactly types 2, 5, 6 and 7 are 圆形; exactly 3 and 13 are 扇形; exactly 4 and 12 are 矩形; exactly the types above 15 are 类型错误, so each of 0..15 has a real label; 0 is 未知 and 9 is 不存在此类型 |
| ActionHelper.GetTypeString | JiaTools/Helpers/ActionHelper.cs:5-25 | the result is the type's label, then `(`, then a digit run without leading zeros that reads back as the type, then `)`; splitting at the last `(` gives back the label and the type |
| ActionHelper.GetTypeStringInjective | JiaTools/Helpers/ActionHelper.cs:24 | two types with the same string are the same type (the number suffix tells apart types that share a label) |
| Text.X8RoundTrip | JiaTools/Windows/ObjectListWindow.cs:116 | the `X8` form of an id reads back as that id |
| Text.DecimalRoundTrip | JiaTools/Windows/ObjectListWindow.cs:122 | the decimal form of a number reads back as that number |
| Text.Contains | JiaTools/Windows/ObjectListWindow.cs:137-142 | `Contains` is true exactly when the needle occurs at some position of the haystack |
| World.SearchById | JiaTools/Windows/MainWindow.cs:335 | returns the first entity of the table with that GameObjectId, and returns none only when no entity has it |
| World.FindValid | JiaTools/Windows/ObjectListWindow.cs:449 | returns the first valid entity with that GameObjectId, as `FirstOrDefault` does, and returns none only when no valid entity has it |
| Configuration.DefaultConfig | JiaTools/Configuration.cs:9-21 | defaults are enabled, Range 30, MaxObjects 10 and MergeDistance 50, all within the settings sliders' bounds |
| ObjectInfo.KeptStatuses | JiaTools/Windows/MainWindow.cs:342-352 | the kept statuses are exactly the listed ones with a non-zero status id |
| ObjectInfo.KeptStatusesInOrder | JiaTools/Windows/MainWindow.cs:342-352 | the kept statuses are a subsequence of the status list, in the list's order |
| ObjectInfo.KeptStatusesCounts | JiaTools/Windows/MainWindow.cs:342-352 | every status with a non-zero id is kept as often as it is listed, and none with id 0 is kept |
| ObjectInfo.InfoOf | JiaTools/Windows/MainWindow.cs:300-355 | the record copies id, kind, name, data id, position and rotation; with a local player its distance is the squared 3-D distance to it, without one there is none; a battle entity's HP, max HP, casting flag, cast action and cast times are copied and its statuses are `KeptStatuses` of its list, and while casting its cast heading and target name are taken from it; it has no zero status; a non-battle entity keeps the defaults (not casting, 0 HP, no statuses, no target name); it has a cast heading exactly while casting; it has an empty cast target name when not casting |
| ObjectInfo.CreateGameObjectInfo | JiaTools/Windows/MainWindow.cs:300-355 | the status loop builds exactly the record `InfoOf` describes |
| ObjectInfo.InfoLinesShape | JiaTools/Windows/MainWindow.cs:144-150 | the lines always include name and kind; a non-copyable `[page/total]` header comes first exactly when the group has several members; the name line copies the name; the kind line is copyable |
| ObjectInfo.StatusLinesBounded | JiaTools/Windows/MainWindow.cs:219-239 | the status block is a header with the full status count plus at most five status lines, and it is absent when the list is off or empty |
| ObjectInfo.CastLinesPresence | JiaTools/Windows/MainWindow.cs:188-217 | the casting block appears exactly when cast info is on and the object is casting, and then has 3 to 5 lines |
| ObjectInfo.LineRectsSnoc | JiaTools/Windows/MainWindow.cs:255-280 | line i's rectangle spans the background's width and rows `y+i*lh` to `y+(i+1)*lh`, with lh = font size + 2, and carries line i's copy value |
| ObjectInfo.FieldLinesStart | JiaTools/Windows/MainWindow.cs:148-149 | the field lines open with the name line and a copyable kind line |
| ObjectInfo.ComposeLines | JiaTools/Windows/MainWindow.cs:144-239 | the header, field and cast lines followed by the status block its loop appends equal the composed lines `InfoLines` |
| ObjectInfo.ComposeStatusBlock | JiaTools/Windows/MainWindow.cs:219-239 | the status loop builds exactly `StatusBlock`: the header, then one line per status among the first five |
| ObjectInfo.LayOutLines | JiaTools/Windows/MainWindow.cs:255-280 | the layout loop yields exactly `LineRects`, one stacked row per line |
| ObjectInfo.DrawObjectInfoAt | JiaTools/Windows/MainWindow.cs:141-283 | the rectangles returned are those of the composed lines (at least two); the background's corner is 4 up and left of the anchor, and its width is 18 font sizes plus margins |
| ObjectInfo.ClickedLine | JiaTools/Windows/MainWindow.cs:117-128 | a hit is the first rectangle that contains the mouse (bounds inclusive) and has a non-empty copy value; there is no hit exactly when no such rectangle exists |
| ObjectInfo.FindClickedLine | JiaTools/Windows/MainWindow.cs:117-128 | the loop with `break` finds exactly `ClickedLine` |
| AnnotationScan.ShouldShowObject | JiaTools/Windows/MainWindow.cs:285-298 | the local player (same GameObjectId) follows only ShowLocalPlayer; other players follow ShowPlayers; BattleNpc, EventNpc and EventObj follow their own flags; every other kind is hidden |
| AnnotationScan.LocalPlayerIgnoresShowPlayers | JiaTools/Windows/MainWindow.cs:291-292 | changing ShowPlayers never changes whether the local player is shown |
| AnnotationScan.Cap | JiaTools/Windows/MainWindow.cs:53 | the scan keeps MaxObjects records when MaxObjects ≥ 1, and one record otherwise, because the cap is tested after adding |
| AnnotationScan.Scanned | JiaTools/Windows/MainWindow.cs:43-54 | the scan never takes more records than the room it is given |
| AnnotationScan.ScannedOnlyAdmitted | JiaTools/Windows/MainWindow.cs:43-54 | every scanned entity is from the table and admitted: non-zero id, distance not above Range, a shown kind, and projected |
| AnnotationScan.FilterIsAdmitted | JiaTools/Windows/MainWindow.cs:45-49 | the uncapped reference `Filter`: an entity is in it exactly when it is in the table and admitted |
| AnnotationScan.ScannedIsFirstAdmitted | JiaTools/Windows/MainWindow.cs:43-54 | the scan is exactly the first `cap` admitted entities in table order |
| AnnotationScan.ScannedKeepsOrder | JiaTools/Windows/MainWindow.cs:43-51 | the scanned entities are a subsequence of the table |
| AnnotationScan.ScannedAppend | JiaTools/Windows/MainWindow.cs:43-54 | scanning a table in two parts is scanning the first part and then the second with the room left |
| AnnotationScan.PositionsCoverScanned | JiaTools/Windows/MainWindow.cs:49-52 | every scanned entity's EntityId has a screen position, and the positions' keys are exactly the scanned EntityIds |
| AnnotationScan.ScanHasPositions | JiaTools/Windows/MainWindow.cs:49-59 | every cached record's EntityId has a screen position, so the clustering loop's `TryGetValue` never skips a record |
| AnnotationScan.ScanObjectTable | JiaTools/Windows/MainWindow.cs:43-54 | the loop caches the records and positions of `Scanned`; the entries it examined already give the whole scan; when it stops before the end of the table those entries filled the cap, and the cap was still unfilled before the last examined entry, so it stops at the entry that fills it |
| AnnotationScan.ScanUntilFull | JiaTools/Windows/MainWindow.cs:43-54 | the loop caches the records and positions of the scan of the examined prefix, filled to the cap when it stops early, and the cap was unfilled before the last entry it examined |
| AnnotationScan.ScanEntry | JiaTools/Windows/MainWindow.cs:44-52 | an entry yields a record exactly when the scan admits it, and then it is `InfoOf` the entry with its projected screen position |
| AnnotationScan.RangeScenario | JiaTools/Windows/MainWindow.cs:46 | a battle NPC 10 units away is cached with the default Range of 30 and dropped with Range 5 |
| Clustering.NearestAnchor | JiaTools/Windows/MainWindow.cs:60-69 | the chosen anchor is strictly within MergeDistance, no anchor is nearer, and every earlier anchor is strictly farther (the earliest wins a tie); there is no choice exactly when every anchor is at least MergeDistance away |
| Clustering.Assign | JiaTools/Windows/MainWindow.cs:71-74 | a point either joins a group or founds exactly one new group |
| Clustering.AssignJoinsNearest | JiaTools/Windows/MainWindow.cs:60-74 | a point joins an existing group exactly when some anchor is strictly within MergeDistance, and then it joins the nearest one, the earliest on a tie, with no anchor moved; otherwise it is appended as a new group anchored at its own position |
| Clustering.AssignKeepsInvariant | JiaTools/Windows/MainWindow.cs:60-74 | one assignment keeps the clustering invariant: non-empty groups; each anchor is its first member's position; later members lie strictly within MergeDistance of the anchor; anchors are pairwise at least MergeDistance apart |
| Clustering.ClusterInvariant | JiaTools/Windows/MainWindow.cs:56-75 | the whole clustering pass establishes that invariant |
| Clustering.AnchorsDistinct | JiaTools/Windows/MainWindow.cs:16 | with a positive MergeDistance no two groups share an anchor, so the anchor dictionary's keys are distinct |
| Clustering.ClusterPartitions | JiaTools/Windows/MainWindow.cs:56-75 | when every record has a position, the groups' members are exactly the records (as a multiset): every cached object is in exactly one group |
| Clustering.ClusterIsValid | JiaTools/Windows/MainWindow.cs:56-75 | when every record has a position and MergeDistance is positive, the groups hold exactly the records, none is empty and no two share an anchor |
| Clustering.ThreePointScenario | JiaTools/Windows/MainWindow.cs:56-75 | points (100,100), (105,102) and (300,300) with MergeDistance 50 form two groups: the first two at (100,100) and the third alone |
| Clustering.ClusterObjects | JiaTools/Windows/MainWindow.cs:56-75 | the outer loop builds exactly `Cluster` |
| Clustering.FindNearestGroup | JiaTools/Windows/MainWindow.cs:60-69 | the running minimum with its strict comparisons finds exactly `NearestAnchor` |
| Paging.PageOnDisplay | JiaTools/Windows/MainWindow.cs:90-97 | an unseen anchor gets page 0; a stored page at or above the member count is reset to 0 and saved; an in-range page is kept unchanged; the shown page is always below the member count |
| Paging.PageAfterClick | JiaTools/Windows/MainWindow.cs:130-131 | a click that hits no line moves a group of several members to `(page+1) % count`; a hit, or a single-member group, leaves the pages alone |
| Paging.AdvanceTimesFromFirst | JiaTools/Windows/MainWindow.cs:131 | k < count page turns from the first page reach page k (the pages Draw shows, by `MissedClickFollowsCycle`) |
| Paging.AdvanceCycles | JiaTools/Windows/MainWindow.cs:131 | turning pages visits every member once and returns to the first after count turns (the pages Draw shows, by `MissedClickFollowsCycle`) |
| Paging.GroupStepInRange | JiaTools/Windows/MainWindow.cs:88-131 | a non-empty group is displayed, and it shows member `page` with page < count; afterwards its stored page is below count and every other anchor's entry is unchanged |
| Paging.SingleMemberNeverTurns | JiaTools/Windows/MainWindow.cs:130 | a single-member group stays on page 0, click or not |
| Paging.MissedClickTurnsPage | JiaTools/Windows/MainWindow.cs:117-131 | for a group of several members, a click that hits no copyable line stores `(page+1) % count`, and a hit keeps the displayed page |
| Paging.ClickAboveMisses | JiaTools/Windows/MainWindow.cs:117-131 | a click above the window's first text line hits no line, whatever the lines are |
| Paging.MissedClickStep | JiaTools/Windows/MainWindow.cs:117-131 | a frame of a group of several members clicked above its lines stores the page one turn on (`AdvanceTimes` by 1) and changes no other entry |
| Paging.MissedClickFollowsCycle | JiaTools/Windows/MainWindow.cs:88-131 | in the frame whose stored page is `AdvanceTimes(0, count, k)`, Draw shows member k and a click above the lines stores `AdvanceTimes(0, count, k+1)`, that is k+1, or the first page after the last member |
| Paging.DrawPagesKeepsEntries | JiaTools/Windows/MainWindow.cs:86-97 | Draw never removes a page entry, records one for every non-empty group, and leaves the entries of anchors not drawn untouched |
| Paging.DrawPagesViewsInRange | JiaTools/Windows/MainWindow.cs:86-99 | at most one view per group, each showing a page below its group's count |
| Paging.DrawPagesInRange | JiaTools/Windows/MainWindow.cs:86-97 | with distinct anchors, after Draw every non-empty group's stored page is in range for that group |
| Overlay.MainWindow.constructor | JiaTools/Windows/MainWindow.cs:14-17 | the caches and the page dictionary start empty |
| Overlay.MainWindow.OnUpdate | JiaTools/Windows/MainWindow.cs:31-76 | when disabled, not ready or without a local player, the three caches keep their old contents; otherwise they hold the scan's records and positions and their clustering; pages are never touched; the window invariant (groups partition the cache, no empty group, distinct anchors) is kept |
| Overlay.RebuildCaches | JiaTools/Windows/MainWindow.cs:43-75 | the rebuilt caches are the scan's records and positions and their clustering, and they satisfy the window invariant |
| Overlay.MainWindow.Draw | JiaTools/Windows/MainWindow.cs:78-139 | nothing is drawn and no page changes when disabled, not ready or with an empty cache; otherwise pages and views follow `DrawPages`; entries are never removed; every view's page is in range, and after drawing every group's stored page is in range |
| Overlay.DrawGroup | JiaTools/Windows/MainWindow.cs:88-131 | one iteration of Draw's loop does exactly `GroupStep`: it displays a member exactly when the group is non-empty, and leaves that group's stored page in range |
| TargetLists.AddUnique | JiaTools/Windows/ObjectListWindow.cs:314-315 | the value is in the result; the result's elements are the old ones plus it; the old list is a prefix; at most one element is added; a list without duplicates stays without them |
| TargetLists.AddUniqueIdempotent | JiaTools/Windows/ObjectListWindow.cs:314-315 | adding the same id twice is the same as adding it once |
| TargetLists.RemoveAt | JiaTools/Windows/ObjectListWindow.cs:340 | removes exactly element i: elements before i are unchanged, later ones shift down by one, and the bag loses exactly that element |
| TargetLists.RemoveAtKeepsNoDuplicates | JiaTools/Windows/ObjectListWindow.cs:332-341 | removing from a duplicate-free list keeps it duplicate-free, takes the removed id out entirely, and keeps every other id |
| ConnectorLines.IsValidScreenPosition | JiaTools/Windows/ObjectListWindow.cs:521-535 | a NaN or infinite point is rejected; an accepted point is no farther than 1000 beyond the top-left edges |
| ConnectorLines.InvalidMeansFarOff | JiaTools/Windows/ObjectListWindow.cs:532-534 | a finite point is rejected exactly when it lies more than 1000 beyond some viewport edge |
| ConnectorLines.OnScreenIsValid | JiaTools/Windows/ObjectListWindow.cs:532-534 | every point on the viewport is accepted |
| ConnectorLines.EndpointMeaning | JiaTools/Windows/ObjectListWindow.cs:449-459 | a resolved endpoint is a valid screen point that projects from a valid entity with that GameObjectId; an id that no valid entity has never resolves |
| ConnectorLines.ResolvedValid | JiaTools/Windows/ObjectListWindow.cs:449-459 | every endpoint a list of ids resolves to is a valid screen point |
| ConnectorLines.PairStep | JiaTools/Windows/ObjectListWindow.cs:446-463 | a pair draws something exactly when both of its ids resolve |
| ConnectorLines.PairsUpToMeaning | JiaTools/Windows/ObjectListWindow.cs:441-463 | pairwise mode draws at most one segment per pair, only valid points, every segment joins source i to target i for one index i, and every pair whose two ends resolve gets its segment and both dots |
| ConnectorLines.SourceCmds | JiaTools/Windows/ObjectListWindow.cs:478-506 | a source contributes nothing exactly when it does not resolve (missing, not projected or invalid) |
| ConnectorLines.FanOutMeaning | JiaTools/Windows/ObjectListWindow.cs:487-504 | a source's fan-out draws at most one segment per target, only valid points, every segment starts at the source, and every resolved target gets its segment from the source and its dot |
| ConnectorLines.AllToAllMeaning | JiaTools/Windows/ObjectListWindow.cs:474-512 | all-to-all mode draws at most sources·targets segments, only valid points, every segment joins a resolved source to a resolved target, every resolved source gets its dot, and every pair of a resolved source and a resolved target gets its segment and the target's dot |
| ConnectorLines.Sources | JiaTools/Windows/ObjectListWindow.cs:422-434 | with the viewer as source the sources are the viewer's EntityId (if the viewer is valid) or nothing; otherwise they are list 1 |
| ConnectorLines.ResolveLines | JiaTools/Windows/ObjectListWindow.cs:400-436 | nothing is drawn when lines are off, list 2 is empty, list 1 is empty and not replaced by the viewer, there is no local player, the territory is 0, or there is no source |
| ConnectorLines.ResolveLinesMeaning | JiaTools/Windows/ObjectListWindow.cs:436-512 | every drawn point is valid; pairwise mode draws at most min(sources, list 2) segments, each from source i's endpoint to list 2's i-th endpoint, and one for every i whose two endpoints resolve; all-to-all draws at most sources·list 2 segments, each from some source's endpoint to some list 2 endpoint, and one for every such pair that resolves |
| ConnectorLines.ViewerLookedUpByGameObjectId | JiaTools/Windows/ObjectListWindow.cs:429-478 | with the viewer as source, when no valid entity has the viewer's EntityId as its GameObjectId, nothing at all is drawn |
| ConnectorLines.ViewerWithDistinctIdsScenario | JiaTools/Windows/ObjectListWindow.cs:425-453 | a valid, listed viewer whose two ids differ draws no line to an existing target |
| ConnectorLines.SinglePairDraws | JiaTools/Windows/ObjectListWindow.cs:441-463 | one resolvable pair in pairwise mode draws exactly a segment and a dot on each end, in that order |
| ObjectRows.IsObjectKindVisible | JiaTools/Windows/ObjectListWindow.cs:254-267 | seven kinds follow their own checkbox and every other kind follows "其他" |
| ObjectRows.SelectAllAndNone | JiaTools/Windows/ObjectListWindow.cs:224-235 | with every box ticked every kind is listed, and with none ticked no kind is |
| ObjectRows.ShortTypeName | JiaTools/Windows/ObjectListWindow.cs:269-282 | the seven filterable kinds have their bilingual names and every other kind shows its enumeration name |
| ObjectRows.RowOf | JiaTools/Windows/ObjectListWindow.cs:116-123 | the id columns are upper-case hex and read back as the GameObjectId and TargetObjectId; the DataId column is decimal and reads back as the DataId; name, marker and type are copied |
| ObjectRows.MatchesFilter | JiaTools/Windows/ObjectListWindow.cs:134-146 | an empty filter matches; otherwise a row matches exactly when the lower-cased filter occurs in one of its six lower-cased columns |
| ObjectRows.FilterIgnoresCase | JiaTools/Windows/ObjectListWindow.cs:136 | lower-casing the filter text never changes which rows match |
| ObjectRows.ObjectIdFindsRow | JiaTools/Windows/ObjectListWindow.cs:116-137 | typing an object's full `X8` id, in any ASCII case, finds its row |
| ObjectRows.Rows | JiaTools/Windows/ObjectListWindow.cs:107-146 | there are never more rows than entities |
| ObjectRows.RowsMeaning | JiaTools/Windows/ObjectListWindow.cs:107-146 | a row is listed exactly when it belongs to a valid entity that passes the kind and text filters |
| ObjectRows.RowsOfShownEntities | JiaTools/Windows/ObjectListWindow.cs:107-146 | the table lists exactly one row per shown entity, the k-th row being the k-th shown entity's row |
| ObjectRows.ShownEntitiesInOrder | JiaTools/Windows/ObjectListWindow.cs:107-146 | the shown entities are a subsequence of the object table, in its order |
| ObjectRows.ShownEntitiesCounts | JiaTools/Windows/ObjectListWindow.cs:107-146 | a valid entity passing both filters is shown as often as the table holds it, and no other entity is shown |
| ObjectRows.RowsInTableOrder | JiaTools/Windows/ObjectListWindow.cs:107-146 | the listed rows are every entity's row with the hidden ones dropped, in table order |
| ObjectRows.EverythingListedByDefault | JiaTools/Windows/ObjectListWindow.cs:11-32 | with the initial filters (empty text, every box ticked) every valid entity is listed |
| ObjectListUi.ObjectListWindow.constructor | JiaTools/Windows/ObjectListWindow.cs:11-32 | empty filter and lists, every kind box ticked, all line flags off |
| ObjectListUi.ObjectListWindow.ClickClearFilter | JiaTools/Windows/ObjectListWindow.cs:209-212 | the filter text becomes empty |
| ObjectListUi.ObjectListWindow.ClickSelectAllKinds | JiaTools/Windows/ObjectListWindow.cs:224-228 | every kind becomes visible |
| ObjectListUi.ObjectListWindow.ClickSelectNoKinds | JiaTools/Windows/ObjectListWindow.cs:231-235 | no kind remains visible |
| ObjectListUi.ObjectListWindow.TableRows | JiaTools/Windows/ObjectListWindow.cs:107-146 | the table loop yields exactly `Rows` for the current filters |
| ObjectListUi.ObjectListWindow.ClickAddTarget1 | JiaTools/Windows/ObjectListWindow.cs:310-318 | a parsed non-zero id is added unless already present, and the input box is cleared even for a duplicate; a failed or zero parse changes nothing; lists stay duplicate-free |
| ObjectListUi.ObjectListWindow.ClickAddCurrentTarget1 | JiaTools/Windows/ObjectListWindow.cs:320-325 | the current target's GameObjectId is added unless it is already listed; with no target nothing changes; lists stay duplicate-free |
| ObjectListUi.ObjectListWindow.ClickRemoveTarget1 | JiaTools/Windows/ObjectListWindow.cs:332-341 | list 1 loses exactly element i; lists stay duplicate-free |
| ObjectListUi.ObjectListWindow.ClickAddTarget2 | JiaTools/Windows/ObjectListWindow.cs:355-363 | as for list 1, on list 2 |
| ObjectListUi.ObjectListWindow.ClickAddCurrentTarget2 | JiaTools/Windows/ObjectListWindow.cs:365-370 | as for list 1, on list 2 |
| ObjectListUi.ObjectListWindow.ClickRemoveTarget2 | JiaTools/Windows/ObjectListWindow.cs:377-386 | list 2 loses exactly element i; lists stay duplicate-free |
| ObjectListUi.ObjectListWindow.ClickClearAll | JiaTools/Windows/ObjectListWindow.cs:392-397 | both lists are emptied and the viewer stops being the source; the line and pairwise flags are untouched |
| ObjectListUi.ObjectListWindow.OnTerritoryChanged | JiaTools/Windows/ObjectListWindow.cs:59-73 | the same reset as "清空全部"; the line and pairwise flags are untouched |
| ObjectListUi.ObjectListWindow.Dispose | JiaTools/Windows/ObjectListWindow.cs:49-57 | lines are switched off and both lists emptied; the viewer-as-source flag is kept |
| ObjectListUi.ObjectListWindow.SetDrawLineSelf | JiaTools/Windows/ObjectListWindow.cs:563-574 | list 1 is empty, list 2 is `[target2]`, and the viewer-as-source flag is the argument; lines on, pairwise on |
| ObjectListUi.ObjectListWindow.SetDrawLinePair | JiaTools/Windows/ObjectListWindow.cs:576-588 | list 1 is `[target1]`, list 2 is `[target2]`, and the viewer is not the source; lines on, pairwise on |
| ObjectListUi.ObjectListWindow.ClearDrawLine | JiaTools/Windows/ObjectListWindow.cs:590-597 | the "清空全部" reset, and lines off as well |
| ObjectListUi.ObjectListWindow.DrawObjectLine | JiaTools/Windows/ObjectListWindow.cs:400-519 | the commands issued are exactly `ResolveLines` of the window's current state |
| ObjectListUi.DrawPairs | JiaTools/Windows/ObjectListWindow.cs:441-469 | the pairwise loop issues exactly `PairsUpTo` of the resolved endpoints over the shorter length |
| ObjectListUi.DrawPair | JiaTools/Windows/ObjectListWindow.cs:446-463 | one pair draws a segment and both dots exactly when both ids resolve to valid screen points, as `PairStep` of their endpoints |
| ObjectListUi.DrawAllToAll | JiaTools/Windows/ObjectListWindow.cs:474-512 | the all-to-all loop issues exactly `AllToAll` of the resolved endpoints over every source |
| ObjectListUi.DrawSource | JiaTools/Windows/ObjectListWindow.cs:478-506 | one source issues exactly `SourceCmds` of its endpoint: nothing when it does not resolve, else its fan-out, then its own dot |
| ObjectListUi.DrawFan | JiaTools/Windows/ObjectListWindow.cs:487-504 | the inner loop issues exactly `FanOut` over the resolved targets: a segment and a target dot per resolvable target |

## Left out

- ImGui rendering is not modelled: windows, colours, fonts, tooltips, the hover highlight, the clipboard, chat and notification output. A click is an input (`Option<Point>` per group), and copying is reduced to which line was hit.
- Floating point is not modelled. Positions, distances, the viewport and screen points are integers, and `Vector3.Distance` is compared squared. Degrees, health percentages and cast progress are not modelled.
- Text formatted with F1/F2/F3 is not modelled. Copy values built that way (position, rotation, distance, cast heading, cast time) are the constant `Formatted`, which is always non-empty.
- NaN and infinity are modelled only on the connector path (`ScreenPos.NonFinite`). The overlay projector returns finite points or nothing.
- `ulong.TryParse(..., HexNumber)` is a parameter `parseHex`, and the 64-bit range of ids is not enforced.
- `ToLower` is modelled on ASCII letters only. Other characters are kept unchanged, and culture-specific case mapping is not modelled.
- Lumina sheet lookups (action and status names) are left out. They change only display text, never a copy value.
- `MarkerHelper` is not part of this model. The marker column is taken as given on the entity.
- The unsafe read of `CastRotation` is left out. It is the entity's `castRotation` field.
- Exception handling (the `try`/`catch` blocks in the table loop and in `DrawObjectLine`) is left out. The model assumes no collaborator throws.
- The overlay's `BetweenAreas` and `IsScreenReady` checks are one `screenReady` input. The null checks on `ClientState`, `ObjectTable` and `Gui` are left out.
- Configuration persistence, the plugin's command wiring and both settings windows are left out, apart from the slider bounds used as `WithinSliderBounds`. The settings `Opacity`, `FontScale` (the font size is an input), `UseHexID`, `ShowMana` and `ShowMarker` do not affect the modelled logic.
- The checkbox bindings (`ImGui.Checkbox(..., ref field)`) and the two text boxes' editing are left out. They write a field directly.
- The removal of the `TerritoryChanged` subscription in `Dispose` is left out, because event wiring is not modelled.
- Overlay.MainWindow.Draw: the model assumes `ImGui.Begin` always succeeds and covers at most one click per group per frame. It does not model the unreachable `lines.Count == 0` return in `DrawObjectInfoAt`, since a name line and a kind line are always composed.
- Overlay.MainWindow.OnUpdate: it requires the settings within the sliders' bounds. A positive MergeDistance is what keeps anchors distinct.
- ObjectListUi.ObjectListWindow.ClickAddTarget1, ClickAddCurrentTarget1 and ClickRemoveTarget1 require `!target1IsLocalPlayer`, because those buttons are drawn only while the viewer is not the source.
- Clustering.Cluster: with MergeDistance 0 a second object at an existing anchor's exact position starts a second group with that anchor, where the source's dictionary assignment would replace the first group. OnUpdate's slider bounds keep MergeDistance at 1 or more, and ClusterIsValid requires it to be positive.
- IGameObject.Equals (the local-player test in `ShouldShowObject`) is modelled as equality of GameObjectIds.
