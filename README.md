# Family tree: chart layout, view rules and forms

A Dafny model of the client side of a family-tree web application: the chart that lays a
flat list of people and parent-child links out as trees, the view that shapes the server's
tree data, searches and filters the people list and colours the cards, the person sidebar
with its relatives and edit form, the extraction of an image's public id from its delivery
URL, and the state machines of the six dialogs (change password, reset password with OTP,
add and delete a relationship, add a child, add a person).

The modules follow the source files:

- `TreeGraph`, `TreeLayout`, `ChartLayout` (functions) and `LayoutPass` (a class whose
  methods run the pass as the source does, appending to `allNodes` and `allLinks`) model the
  layout engine of `components/tree/family-tree-chart.tsx`. `TreeLayoutProps` and
  `ChartLayoutProps` prove what the layout promises: widths, nested and disjoint slots,
  parents centred over their children, one link per placed child, one emitted node per
  root-to-node path, a lane for isolated people. `ChartRender` covers the connector path, the
  label and the focus stroke; `ChartViewport` the zoom transforms and the shared
  `savedTransform`/`initialTransform` state.
- `TreeView` models `components/tree/family-tree-view.tsx`; `PersonSidebar` models
  `components/tree/person-sidebar.tsx`; `PublicId` models `extractPublicId` of `lib/utils.ts`.
- `ChangePassword`, `ResetPassword`, `AddRelationship`, `DelRelationship`, `AddChild` and
  `AddPerson` model the dialogs, each as a class whose fields are the dialog's state.
  `Requests` holds what they send and how a request ends; `JsText` holds the JavaScript text
  rules they rely on (`trim`, `||` on strings, `parseInt`, `String(n)`).

Modelling choices:

- Coordinates are exact reals. The chart's ids are generic (`K`); the view instantiates them
  with optional names, as a node without a name has an undefined id.
- The layout recurses forever on a cycle reachable from a root, so the layout functions take a
  ghost rank map under which every child ranks below its parent; nodes no root reaches may lie
  on cycles.
- A TreeNode object is a value carrying a serial number; a link holds the serials of its two
  objects, and drawing reads the objects' final coordinates through `allNodes`.
- Every awaited API call splits its handler in two: a method up to the request (which returns
  the request, or `None` when the handler stops) and a method that takes the call's `Outcome`.
- The current time, the token in local storage and the user's answer to a confirmation prompt
  are parameters.

## Model

| member | source | states |
|---|---|---|
| TreeGraph.MapKeys | components/tree/family-tree-chart.tsx:121-124 | the map's keys hold every node id exactly once and nothing else |
| TreeGraph.MapKeysOrder | components/tree/family-tree-chart.tsx:121-124 | keys keep the order of first insertion: a key listed earlier was first set earlier |
| TreeGraph.DataMap | components/tree/family-tree-chart.tsx:122-124 | the records are kept for exactly the ids of the nodes |
| TreeGraph.DataMapLastWins | components/tree/family-tree-chart.tsx:122-124 | a repeated id keeps the record of its last node |
| TreeGraph.ChildrenOf | components/tree/family-tree-chart.tsx:127-134 | a child list is no longer than the link list and names only map keys |
| TreeGraph.ParentsOf | components/tree/family-tree-chart.tsx:127-134 | a parent list is no longer than the link list and names only map keys |
| TreeGraph.ChildrenFromLinks | components/tree/family-tree-chart.tsx:127-134 | every listed child comes from a link from the parent to it, and the parent is a key |
| TreeGraph.ParentsFromLinks | components/tree/family-tree-chart.tsx:127-134 | every listed parent comes from a link from it to the child, and the child is a key |
| TreeGraph.ChildCount | components/tree/family-tree-chart.tsx:127-134 | between two keys, a child is listed once per link from the parent to it |
| TreeGraph.ParentCount | components/tree/family-tree-chart.tsx:127-134 | between two keys, a parent is listed once per link from it to the child |
| TreeGraph.DanglingLinkDropped | components/tree/family-tree-chart.tsx:128-130 | a link naming an id missing from the map changes no list |
| TreeGraph.GraphOfAllBalanced | components/tree/family-tree-chart.tsx:131-132 | each child list is mirrored by the parent lists, occurrence for occurrence |
| TreeGraph.GraphOfAllClosed | components/tree/family-tree-chart.tsx:127-134 | every list names only ids that have lists themselves |
| TreeGraph.GraphOfDataKeys | components/tree/family-tree-chart.tsx:121-124 | the records cover exactly the keys |
| TreeGraph.GraphOfWellFormed | components/tree/family-tree-chart.tsx:121-134 | the adjacency built from any input has distinct keys, lists for every key, only keys in the lists, and balanced lists |
| TreeGraph.NoDup | components/tree/family-tree-chart.tsx:121-124 | a list without repeats, the property of the map's keys |
| TreeGraph.Ids | components/tree/family-tree-chart.tsx:122-123 | the ids of the input nodes, one per node, in order |
| TreeGraph.FirstIndex | components/tree/family-tree-chart.tsx:121-124 | the first position of a key in a list: it holds the key and no earlier position does |
| TreeGraph.KeySetOf | components/tree/family-tree-chart.tsx:121-124 | the set of a key list's elements, exactly those listed |
| TreeGraph.EmptyLists | components/tree/family-tree-chart.tsx:123 | every key with empty child and parent lists, as each entry is created |
| TreeGraph.ChildrenMap | components/tree/family-tree-chart.tsx:127-134 | a child list for exactly the keys |
| TreeGraph.ParentsMap | components/tree/family-tree-chart.tsx:127-134 | a parent list for exactly the keys |
| TreeGraph.GraphOf | components/tree/family-tree-chart.tsx:121-134 | the map the chart builds: keys, records, child and parent lists; its properties are the `GraphOf...` lemmas |
| TreeGraph.KeySet | components/tree/family-tree-chart.tsx:121-124 | the set of the map's keys |
| TreeGraph.WellFormed | components/tree/family-tree-chart.tsx:121-134 | what the layout relies on: distinct keys, both lists for every key, only keys in the lists, child and parent lists balanced |
| TreeGraph.GraphOfBalanced | components/tree/family-tree-chart.tsx:131-132 | `c` is among the children of `p` exactly as often as `p` is among the parents of `c` |
| TreeGraph.GraphOfClosed | components/tree/family-tree-chart.tsx:128-130 | every id in a child or parent list has lists of its own |
| TreeLayout.DimsFor | components/tree/family-tree-chart.tsx:110-114 | the node width, height, spacing, level height and label length for the canvas width, with the breakpoints 768 and 1024 |
| TreeLayout.SubtreeWidth | components/tree/family-tree-chart.tsx:167-179 | a subtree is at least one node and its spacing wide, exactly that for a leaf |
| TreeLayoutProps.SubtreeWidthCoversChildren | components/tree/family-tree-chart.tsx:173-178 | an inner node's width is at least the sum of its children's widths |
| TreeLayout.Place | components/tree/family-tree-chart.tsx:182-219 | the placed node has the id, y, serial and subtree width it was given and one placed child per child |
| TreeLayout.PlaceRow | components/tree/family-tree-chart.tsx:194-207 | a row of `n` ids gives `n` subtrees and never reuses a serial |
| TreeLayout.Footprint | components/tree/family-tree-chart.tsx:169 | a leaf's width: one node and the spacing beside it |
| TreeLayout.Max | components/tree/family-tree-chart.tsx:178 | `Math.max`: one of the two and at least both |
| TreeLayout.Ranked | components/tree/family-tree-chart.tsx:167-179 | every ranked node's children rank lower, so the recursion below it ends |
| TreeLayout.RowBelow | components/tree/family-tree-chart.tsx:173-175 | every id of a row ranks below the bound |
| TreeLayout.RowWidth | components/tree/family-tree-chart.tsx:173-175 | the `reduce` that sums the subtree widths of the first `n` ids of a row |
| TreeLayout.Nodes | components/tree/family-tree-chart.tsx:196-217 | what a subtree appends to `allNodes`: each child's subtree in order, then the node itself |
| TreeLayout.RowNodes | components/tree/family-tree-chart.tsx:196-207 | the nodes a row of subtrees appends, one subtree after another |
| TreeLayout.Links | components/tree/family-tree-chart.tsx:196-207 | what a subtree appends to `allLinks`: for each child its subtree's links, then the link to it |
| TreeLayout.RowLinks | components/tree/family-tree-chart.tsx:196-207 | the links a row of subtrees appends under its parent |
| TreeLayoutProps.PlaceTidy | components/tree/family-tree-chart.tsx:182-219 | every placed subtree is tidy: children one level lower in consecutive slots from the left edge, each centred in a slot as wide as its subtree |
| TreeLayoutProps.PlaceWithin | components/tree/family-tree-chart.tsx:192-200 | every node of a subtree lies inside its slot, half a footprint in from either edge |
| TreeLayoutProps.PlaceSiblingsApart | components/tree/family-tree-chart.tsx:196-200 | the subtrees of later children lie at least one footprint right of all earlier ones |
| TreeLayoutProps.PlaceChildren | components/tree/family-tree-chart.tsx:209-214 | the children are the node's children in link order one level lower, and the parent sits midway between its first and last child |
| TreeLayoutProps.TidyBetween | components/tree/family-tree-chart.tsx:210-214 | a leaf stays at its slot centre; a parent lies between its first and last child |
| TreeLayoutProps.TidyWithin | components/tree/family-tree-chart.tsx:192-200 | the nodes of a tidy subtree stay within its slot |
| TreeLayoutProps.TidySiblingsApart | components/tree/family-tree-chart.tsx:196-200 | siblings' subtrees in a tidy row do not overlap |
| TreeLayoutProps.RowSlots | components/tree/family-tree-chart.tsx:194-200 | a row's slots add up to its width and end at its right edge |
| TreeLayoutProps.LinksPerChild | components/tree/family-tree-chart.tsx:202-206 | a subtree's links point, in order, at every node it emits except its own, each from its parent |
| TreeLayoutProps.RowLinksToEachChild | components/tree/family-tree-chart.tsx:202-206 | each child of a row is linked from the row's parent |
| TreeLayoutProps.PlaceRefs | components/tree/family-tree-chart.tsx:183-190 | each emitted node is a fresh object: serials distinct and consecutive |
| TreeLayoutProps.PlaceCount | components/tree/family-tree-chart.tsx:182-219 | a subtree emits a node once per path from its root to it, never when unreachable |
| TreeLayoutProps.PathCountToOrphan | components/tree/family-tree-chart.tsx:137 | only the node itself reaches a node that is nobody's child |
| TreeLayoutProps.Tidy | components/tree/family-tree-chart.tsx:182-219 | a placed subtree is tidy: the node spans its slot and its children are a tidy row one level lower, the parent midway between the first and last |
| TreeLayoutProps.TidyRow | components/tree/family-tree-chart.tsx:194-200 | consecutive slots from a left edge, each as wide as its subtree, each subtree tidy and centred in its slot |
| TreeLayoutProps.RowTidy | components/tree/family-tree-chart.tsx:194-207 | the row placed for any list of children is tidy from its left edge |
| TreeLayoutProps.RowLinksPerChild | components/tree/family-tree-chart.tsx:202-206 | a row's links point, in order, at every node it emits, each from its parent |
| TreeLayoutProps.RowRefs | components/tree/family-tree-chart.tsx:183-190 | a row's nodes are fresh objects with consecutive serials |
| TreeLayoutProps.PathCount | components/tree/family-tree-chart.tsx:182-219 | the number of paths from a node down to another |
| TreeLayoutProps.RowCount | components/tree/family-tree-chart.tsx:196-207 | a row emits a node once per path from one of its roots |
| TreeLayoutProps.RowPathCountToOrphan | components/tree/family-tree-chart.tsx:137 | no path from a row reaches a node that is nobody's child unless the row holds it |
| TreeLayoutProps.CountId | components/tree/family-tree-chart.tsx:217 | how many of the pushed nodes carry an id |
| TreeLayoutProps.RowPathCount | components/tree/family-tree-chart.tsx:196-200 | the number of paths to a node from the first `n` ids of a row, the count `RowCount` compares the row's output with |
| ChartLayout.Roots | components/tree/family-tree-chart.tsx:137 | the roots are exactly the parentless keys, in map order |
| ChartLayout.WithRelationships | components/tree/family-tree-chart.tsx:222 | the roots kept are exactly those with a child or a parent, in order |
| ChartLayout.Isolated | components/tree/family-tree-chart.tsx:143-145 | the isolated nodes are exactly the keys with neither children nor parents, in map order |
| ChartLayout.TreeRoots | components/tree/family-tree-chart.tsx:137-145 | the roots laid out as trees are exactly the parentless keys with a child |
| ChartLayoutProps.RootsComplete | components/tree/family-tree-chart.tsx:137 | every parentless key is a root |
| ChartLayoutProps.WithRelationshipsComplete | components/tree/family-tree-chart.tsx:222 | every root with a relationship is kept |
| ChartLayoutProps.IsolatedComplete | components/tree/family-tree-chart.tsx:143-145 | every key without children or parents is isolated |
| ChartLayoutProps.TreeRootsComplete | components/tree/family-tree-chart.tsx:222 | every parentless key with a child is laid out as a tree |
| ChartLayout.Lane | components/tree/family-tree-chart.tsx:147-164 | one lane node per isolated id, in order, with consecutive serials |
| ChartLayoutProps.LaneAt | components/tree/family-tree-chart.tsx:148-160 | the `i`-th isolated node sits at the lane's x and `60 + i·(nodeHeight + 15)` |
| ChartLayoutProps.LaneCount | components/tree/family-tree-chart.tsx:154-164 | the lane holds one node per occurrence of an id in its list |
| ChartLayoutProps.LayoutLane | components/tree/family-tree-chart.tsx:154-164 | `allNodes` starts with the lane, in map order |
| ChartLayout.RowWidths | components/tree/family-tree-chart.tsx:226-233 | `rootWidths` holds one width per root |
| ChartLayoutProps.RowWidthsAt | components/tree/family-tree-chart.tsx:229-233 | the `j`-th root width is the subtree width of the `j`-th root |
| ChartLayout.Forest | components/tree/family-tree-chart.tsx:236-244 | one tree per root with a relationship |
| ChartLayout.LaneWidth | components/tree/family-tree-chart.tsx:148 | `isolatedColumnWidth`: the node width plus 40 |
| ChartLayout.LaneX | components/tree/family-tree-chart.tsx:149 | `isolatedColumnX`: half a lane in from the left margin |
| ChartLayout.LaneSpacing | components/tree/family-tree-chart.tsx:151 | `isolatedVerticalSpacing`: the node height plus 15 |
| ChartLayout.LaneY | components/tree/family-tree-chart.tsx:150-160 | the y of the `i`-th isolated node, `60 + i` spacings |
| ChartLayout.IsRoot | components/tree/family-tree-chart.tsx:137 | no parents |
| ChartLayout.HasRelationships | components/tree/family-tree-chart.tsx:222 | a child or a parent |
| ChartLayout.IsIsolated | components/tree/family-tree-chart.tsx:143-145 | neither children nor parents |
| ChartLayout.Acyclic | components/tree/family-tree-chart.tsx:167-219 | every node below a tree root is ranked, each child below its parent: the condition under which the recursion ends |
| ChartLayout.TotalRootWidth | components/tree/family-tree-chart.tsx:225-233 | `totalRootWidth`, the sum of the tree roots' subtree widths |
| ChartLayout.ForestLeft | components/tree/family-tree-chart.tsx:236 | `mainTreeStartX`: `isolatedColumnWidth + 50 - totalRootWidth / 2` |
| ChartLayout.ForestLinks | components/tree/family-tree-chart.tsx:239-244 | the links of the root trees, each tree's in turn |
| ChartLayout.Layout | components/tree/family-tree-chart.tsx:139-245 | `allNodes` (the lane, then the root trees) and `allLinks` at the end of the pass; its properties are the `ChartLayoutProps` lemmas |
| ChartLayout.HasLists | components/tree/family-tree-chart.tsx:123 | every id of a list has both its child and parent lists in the map |
| ChartLayout.RankBound | components/tree/family-tree-chart.tsx:229-233 | every id of the row ranks below the bound, so the width and placement recursion started from a row (the tree roots here) ends |
| ChartLayoutProps.ForestPacked | components/tree/family-tree-chart.tsx:224-245 | the root trees sit side by side in slots from `isolatedColumnWidth + 50 - totalRootWidth/2`, all roots at y = 60 |
| ChartLayoutProps.ForestApart | components/tree/family-tree-chart.tsx:239-244 | root trees do not overlap |
| ChartLayoutProps.LayoutCount | components/tree/family-tree-chart.tsx:137-245 | a node appears in `allNodes` once per root-to-node path, once if isolated, never if unreachable |
| ChartLayoutProps.IsolatedOnce | components/tree/family-tree-chart.tsx:143-164 | an isolated node is emitted exactly once, in the lane |
| ChartLayoutProps.LayoutRefs | components/tree/family-tree-chart.tsx:155-190 | every entry of `allNodes` is a distinct object |
| ChartLayoutProps.LayoutLinksCount | components/tree/family-tree-chart.tsx:202-206 | one link per emitted node that is not a lane node or a root |
| ChartLayoutProps.LaneRefs | components/tree/family-tree-chart.tsx:154-164 | the lane's nodes are fresh objects with consecutive serials |
| ChartLayoutProps.IsolatedNoDup | components/tree/family-tree-chart.tsx:143-145 | the isolated ids are distinct |
| ChartLayoutProps.ForestLinksCount | components/tree/family-tree-chart.tsx:239-244 | the root trees' links number their nodes other than the roots |
| LayoutPass.SetNodes | components/tree/family-tree-chart.tsx:121-124 | the node loop leaves the keys and records of `MapKeys` and `DataMap` with empty lists |
| LayoutPass.AttachLinks | components/tree/family-tree-chart.tsx:127-134 | the link loop leaves exactly the child and parent lists of `ChildrenOf`/`ParentsOf` |
| LayoutPass.Pass.constructor | components/tree/family-tree-chart.tsx:109-121 | a pass starts with the sizes for its width, an empty map and empty lists |
| LayoutPass.Pass.BuildMap | components/tree/family-tree-chart.tsx:120-134 | the adjacency built is `GraphOf` of the input |
| LayoutPass.Pass.PlaceIsolated | components/tree/family-tree-chart.tsx:153-164 | appends exactly the lane to `allNodes` |
| LayoutPass.Pass.PositionSubtree | components/tree/family-tree-chart.tsx:182-219 | appends the nodes and links of `Place`, in the source's order |
| LayoutPass.Pass.PositionChildren | components/tree/family-tree-chart.tsx:192-207 | the loop over the children appends the row of `PlaceRow` and its links |
| LayoutPass.Pass.PositionChild | components/tree/family-tree-chart.tsx:197-206 | one child's subtree, then the link to it |
| LayoutPass.Pass.MeasureRoots | components/tree/family-tree-chart.tsx:225-233 | `rootWidths` and `totalRootWidth` are the roots' widths and their sum |
| LayoutPass.Pass.PlaceRoots | components/tree/family-tree-chart.tsx:222-245 | the root trees appended are the row placed from `mainTreeStartX` |
| LayoutPass.Pass.PositionRoots | components/tree/family-tree-chart.tsx:239-244 | the loop over the roots appends each tree in its consecutive slot |
| LayoutPass.Pass.PositionRoot | components/tree/family-tree-chart.tsx:240-244 | one root's tree in the next slot |
| LayoutPass.Pass.Draw | components/tree/family-tree-chart.tsx:139-245 | from fresh lists the pass ends with `Layout` |
| LayoutPass.Pass.Run | components/tree/family-tree-chart.tsx:120-245 | the whole pass leaves `GraphOf` of the input and the `allNodes`/`allLinks` of `Layout` |
| LayoutPass.LayoutOf | components/tree/family-tree-chart.tsx:139-245 | the lane followed by the root trees is the layout |
| ChartRender.ElbowPath | components/tree/family-tree-chart.tsx:259-268 | the connector leaves the bottom centre of the source box, turns at the midway height and enters the top centre of the target box |
| ChartRender.FindRef | components/tree/family-tree-chart.tsx:259-263 | the object a link refers to, or none exactly when no node has the serial |
| ChartRender.FindRefDistinct | components/tree/family-tree-chart.tsx:204-205 | among distinct objects a serial finds its own object |
| ChartRender.LayoutLinkDrawn | components/tree/family-tree-chart.tsx:202-206 | every link's two objects are in `allNodes`, and its connector turns half a level below the parent |
| ChartRender.TidyLinksSpan | components/tree/family-tree-chart.tsx:202-206 | every link of a tidy subtree joins two of its nodes one level apart |
| ChartRender.LabelName | components/tree/family-tree-chart.tsx:344 | the label text is the id, else the name, else "Unknown", empty texts counting as missing |
| ChartRender.Truncate | components/tree/family-tree-chart.tsx:345 | a name within the limit is kept; a longer one becomes its first `maxLen - 3` characters and "...", exactly `maxLen` long |
| ChartRender.LabelFits | components/tree/family-tree-chart.tsx:336-346 | a drawn label never exceeds the responsive maximum, and a short name is drawn whole |
| ChartRender.NodeStroke | components/tree/family-tree-chart.tsx:361-371 | the focused node's box is outlined red and 4 wide, any other white and 2 wide |
| ChartRender.LinkPath | components/tree/family-tree-chart.tsx:259-268 | the connector of a link, read through the two objects it refers to, or none when one is missing |
| ChartRender.Spans | components/tree/family-tree-chart.tsx:202-206 | a link joins two listed nodes, the target one level below the source |
| ChartRender.TidyRowLinksSpan | components/tree/family-tree-chart.tsx:202-206 | every link of a tidy row joins two nodes of the row or its parent, one level apart |
| ChartRender.TidyForestLinksSpan | components/tree/family-tree-chart.tsx:239-244 | every link of a tidy row of root trees joins two of its nodes, one level apart |
| ChartViewport.TranslateApply | components/tree/family-tree-chart.tsx:401-404 | `t.translate` moves a point as `t` moves the shifted point |
| ChartViewport.ScaleApply | components/tree/family-tree-chart.tsx:401-404 | `t.scale` moves a point as `t` moves the scaled point |
| ChartViewport.CenterOn | components/tree/family-tree-chart.tsx:401-404 | the transform has zoom `s` and maps the chosen point to the canvas centre |
| ChartViewport.CenterOnApply | components/tree/family-tree-chart.tsx:401-404 | any point lands at the centre plus `s` times its offset from the chosen point |
| ChartViewport.Min | components/tree/family-tree-chart.tsx:391-392 | the lower end of `d3.extent` is a least element of the list |
| ChartViewport.Max | components/tree/family-tree-chart.tsx:391-392 | the upper end of `d3.extent` is a greatest element of the list |
| ChartViewport.Min3 | components/tree/family-tree-chart.tsx:396 | `Math.min` of three is one of them and below all |
| ChartViewport.FitWidth | components/tree/family-tree-chart.tsx:394 | the fitted width exceeds the nodes' x extent by at least a node and 100 |
| ChartViewport.FitHeight | components/tree/family-tree-chart.tsx:395 | the fitted height exceeds the nodes' y extent by at least a node and 100 |
| ChartViewport.AutoFitScale | components/tree/family-tree-chart.tsx:396-404 | the auto-fit zoom is the least of the two ratios and 0.8, and the extent's centre lands at the canvas centre |
| ChartViewport.FitScaleBounds | components/tree/family-tree-chart.tsx:396 | on a canvas of at least 500 by 500 the auto-fit zoom is positive and within both ratios |
| ChartViewport.CenterOnFits | components/tree/family-tree-chart.tsx:396-404 | a box centred at a zoom that shrinks it into the canvas lands inside the 40-pixel margins |
| ChartViewport.AutoFitShowsAll | components/tree/family-tree-chart.tsx:388-404 | on the canvas sizes the chart uses, the auto-fit shows every node's box inside the margins |
| ChartViewport.FindNode | components/tree/family-tree-chart.tsx:433 | the focused node found is the first with the id, none exactly when no node has it |
| ChartViewport.FocusOn | components/tree/family-tree-chart.tsx:434-438 | focusing zooms to 1.2 with the node at the canvas centre |
| ChartViewport.StepsKeepConsistent | components/tree/family-tree-chart.tsx:380-456 | once an initial transform exists, a current one does too, whatever step follows |
| ChartViewport.InitialFixedOnce | components/tree/family-tree-chart.tsx:406-417 | the first render with nodes fixes the auto-fit as initial and current transform; later renders keep the initial one; with no focused node shown, a later render keeps the current transform, or takes the auto-fit when there is none |
| ChartViewport.RenderFocuses | components/tree/family-tree-chart.tsx:421-446 | a render with a focused id some node has ends on the first such node at zoom 1.2 |
| ChartViewport.ResetIdempotent | components/tree/family-tree-chart.tsx:46-51 | resetting twice is resetting once, through `resetFunc` or its twin `handleResetZoom` (lines 451-456) |
| ChartViewport.GesturesKeepInitial | components/tree/family-tree-chart.tsx:380-383 | gestures change only the current transform, to the last gesture's |
| ChartViewport.ResetAfterGestures | components/tree/family-tree-chart.tsx:46-51 | after any gestures a reset (`resetFunc`, or its twin `handleResetZoom` at lines 451-456) restores exactly the first auto-fit, and changes nothing without one |
| ChartViewport.Viewport.constructor | components/tree/family-tree-chart.tsx:32-40 | the zoom state starts with no transforms and the first-render flag set |
| ChartViewport.Viewport.Render | components/tree/family-tree-chart.tsx:374-447 | the drawing effect's zoom part is `RenderStep` |
| ChartViewport.Viewport.OnZoom | components/tree/family-tree-chart.tsx:380-383 | a gesture stores its transform |
| ChartViewport.Viewport.ResetZoom | components/tree/family-tree-chart.tsx:46-51 | the reset the parent's button runs through `window.familyTreeResetZoom` (`resetFunc`; `handleResetZoom` at lines 451-456 is the same) is `ResetStep` |
| ChartViewport.Viewport.Remount | components/tree/family-tree-chart.tsx:32-40 | a new chart gets a fresh flag and zoom and keeps the shared transforms |
| ChartViewport.Apply | components/tree/family-tree-chart.tsx:401-404 | where a transform puts a point: scaled by `k`, then shifted |
| ChartViewport.Translate | components/tree/family-tree-chart.tsx:402 | `t.translate(dx, dy)` |
| ChartViewport.Scale | components/tree/family-tree-chart.tsx:403 | `t.scale(s)` |
| ChartViewport.Xs | components/tree/family-tree-chart.tsx:390 | the nodes' x values, one per node, in order |
| ChartViewport.Ys | components/tree/family-tree-chart.tsx:391 | the nodes' y values, one per node, in order |
| ChartViewport.FitScale | components/tree/family-tree-chart.tsx:396 | the auto-fit zoom: the least of the two ratios and 0.8 |
| ChartViewport.FitCentre | components/tree/family-tree-chart.tsx:398-399 | the centre of the nodes' extent |
| ChartViewport.AutoFit | components/tree/family-tree-chart.tsx:388-404 | `defaultTransform`; `AutoFitScale` and `AutoFitShowsAll` state its properties |
| ChartViewport.InsideMargins | components/tree/family-tree-chart.tsx:396 | a box, once moved, lies inside the canvas less its 40-pixel margins |
| ChartViewport.RenderStep | components/tree/family-tree-chart.tsx:385-447 | the drawing effect's zoom part; `InitialFixedOnce` and `RenderFocuses` state what it does |
| ChartViewport.ZoomStep | components/tree/family-tree-chart.tsx:380-383 | a gesture stores its transform as `savedTransform` |
| ChartViewport.ResetStep | components/tree/family-tree-chart.tsx:451-456 | `handleResetZoom`, and `resetFunc` at lines 46-51 with the same body: back to `initialTransform` when the zoom and an initial transform exist, else nothing |
| ChartViewport.RemountStep | components/tree/family-tree-chart.tsx:32-40 | a new chart: fresh flag and zoom, shared transforms kept |
| ChartViewport.Consistent | components/tree/family-tree-chart.tsx:407-411 | once an initial transform exists a current one does too, and a chart past its first render has an initial transform |
| ChartViewport.Gestures | components/tree/family-tree-chart.tsx:380-383 | a run of gestures, one `ZoomStep` each |
| ChartViewport.Viewport.State | components/tree/family-tree-chart.tsx:32-40 | the transforms, the first-render flag and the zoom reference the chart holds |
| TreeView.NameMap | components/tree/family-tree-view.tsx:115-120 | the id-to-name map never holds an empty name |
| TreeView.NameMapLast | components/tree/family-tree-view.tsx:115-120 | an id is mapped exactly when some node with a non-zero id and a name has it, and to the name of the last such node |
| TreeView.BuildNameMap | components/tree/family-tree-view.tsx:115-120 | the `forEach` loop builds `NameMap` |
| TreeView.Endpoint | components/tree/family-tree-view.tsx:130-131 | a link end becomes the mapped name, else the id's decimal text |
| TreeView.ShapeLinks | components/tree/family-tree-view.tsx:129-132 | one relabelled link per link, in order |
| TreeView.ShapeNodes | components/tree/family-tree-view.tsx:123-126 | one node per node, its id its name, every other field kept |
| TreeView.ShapedLinkEnd | components/tree/family-tree-view.tsx:111-132 | a link end shows the name of the last named node with that id, else the id as text |
| TreeView.ShapeWithoutNodes | components/tree/family-tree-view.tsx:111-132 | a response whose nodes are not an array gives no nodes, and each link end keeps its id as text that parses back to it |
| TreeView.ChartLinks | components/tree/family-tree-view.tsx:134-138 | the chart receives the shaped links, each end a defined name |
| TreeView.GenderOf | components/tree/family-tree-view.tsx:157 | "male"/"M" gives M, "female"/"F" gives F, anything else O |
| TreeView.NumberOrZero | components/tree/family-tree-view.tsx:153-158 | a missing number defaults to 0 |
| TreeView.TextOrNull | components/tree/family-tree-view.tsx:159-162 | a missing or empty text becomes null |
| TreeView.ReadOnlyPerson | components/tree/family-tree-view.tsx:152-163 | a published node becomes a person with the chart's id, its name or "Unknown", its gender mapped, id and level defaulting to 0, `desc` before `description` |
| TreeView.ReadOnlyPeople | components/tree/family-tree-view.tsx:152-164 | one person per node, in node order |
| TreeView.ReadOnlyNormal | components/tree/family-tree-view.tsx:152-163 | a normalised person is normal, and normalising it again changes nothing |
| TreeView.KeepMember | components/tree/family-tree-view.tsx:178-180 | a person is kept exactly when listed and accepted |
| TreeView.KeepAppend | components/tree/family-tree-view.tsx:178-180 | filtering keeps the list's order |
| TreeView.KeepAllOrNone | components/tree/family-tree-view.tsx:178-180 | all accepted keeps everyone, none accepted keeps no one |
| TreeView.FindFirst | components/tree/family-tree-view.tsx:197 | `find` returns the first accepted person, none exactly when no one is accepted |
| TreeView.FindByName | components/tree/family-tree-view.tsx:197 | the first person with the name, none exactly when no one has it |
| TreeView.FindById | components/tree/family-tree-view.tsx:58 | the first person with the id, none exactly when no one has it |
| TreeView.SearchMatchesMember | components/tree/family-tree-view.tsx:178-180 | a person is a result exactly when its lower-cased name contains the lower-cased, untrimmed term |
| TreeView.SearchMatchesOrder | components/tree/family-tree-view.tsx:178-180 | results keep the people list's order |
| TreeView.LevelFilterBounds | components/tree/family-tree-view.tsx:422-427 | an empty filter shows everyone, one that does not parse shows no one |
| TreeView.LevelFilterMember | components/tree/family-tree-view.tsx:422-427 | a filter that parses shows exactly the people at that level |
| TreeView.LevelFilterOfLevel | components/tree/family-tree-view.tsx:422-427 | typing a level's decimal text shows exactly the people at that level |
| TreeView.PersonColor | components/tree/family-tree-view.tsx:212-219 | light yellow exactly when no link names the person, otherwise blue, pink or grey by gender |
| TreeView.ChartColor | components/tree/family-tree-view.tsx:369-372 | the light grey for a name exactly when no person has it |
| TreeView.ChartColorOfFirst | components/tree/family-tree-view.tsx:369-372 | the chart colour of a name is the colour of the first person with it |
| TreeView.View.constructor | components/tree/family-tree-view.tsx:40-52 | the view starts with no people, no search, no selection and no filter |
| TreeView.View.HandleSearch | components/tree/family-tree-view.tsx:175-186 | the term is kept; a blank term empties the results and clears the focus, any other gives the matching people in order |
| TreeView.View.ClearSearch | components/tree/family-tree-view.tsx:189-193 | the term, the results and the focus are cleared |
| TreeView.View.HandleSearchResultClick | components/tree/family-tree-view.tsx:205-209 | focus and term become the person's name and the results close |
| TreeView.View.HandleNodeClick | components/tree/family-tree-view.tsx:196-202 | the first person with the name is selected and the sidebar opened; an unknown name changes nothing |
| TreeView.View.SelectPerson | components/tree/family-tree-view.tsx:433-436 | a card click selects the person and opens the sidebar |
| TreeView.View.PeopleChanged | components/tree/family-tree-view.tsx:56-63 | new people replace the selection by the entry with its id, when there is one |
| TreeView.View.TreeLoaded | components/tree/family-tree-view.tsx:108-138 | the chart data arrives: the links become the shaped links of the answer, and nothing else changes |
| TreeView.View.SetLevelFilter | components/tree/family-tree-view.tsx:390-408 | the filter text is what was typed |
| TreeView.HasNameEntry | components/tree/family-tree-view.tsx:117 | `node.personId && node.name`: a non-zero id and a non-empty name |
| TreeView.Shape | components/tree/family-tree-view.tsx:111-138 | `validTreeData`: the shaped nodes and links; `ShapeNodes`, `ShapeLinks` and `ShapeWithoutNodes` state its parts |
| TreeView.Normal | components/tree/family-tree-view.tsx:152-163 | a person as normalisation leaves one: a name and no empty optional text |
| TreeView.GenderText | components/tree/family-tree-view.tsx:157 | the gender text a published node carries |
| TreeView.NodeOf | components/tree/family-tree-view.tsx:152-163 | the published node of a person |
| TreeView.ReadOnlyOfNode | components/tree/family-tree-view.tsx:152-163 | normalising a normal person's node gives the person back |
| TreeView.Keep | components/tree/family-tree-view.tsx:178-180 | `filter`: no longer than the list; `KeepMember` and `KeepAppend` state membership and order |
| TreeView.SearchMatches | components/tree/family-tree-view.tsx:178-180 | the search results; `SearchMatchesMember` and `SearchMatchesOrder` state them |
| TreeView.LevelFilter | components/tree/family-tree-view.tsx:422-427 | the cards under the level filter; the `LevelFilter...` lemmas state them |
| TreeView.Mentioned | components/tree/family-tree-view.tsx:213-215 | some link has the name at one end |
| TreeView.View.ShownPeople | components/tree/family-tree-view.tsx:422-427 | the cards shown: `LevelFilter` of the people and the filter text |
| TreeView.View.CardColor | components/tree/family-tree-view.tsx:432 | a card's colour, `PersonColor` over the loaded links |
| TreeView.View.NodeColor | components/tree/family-tree-view.tsx:369-371 | the chart's colour for a name, `ChartColor` over the loaded people and links |
| PersonSidebar.Parents | components/tree/person-sidebar.tsx:162-164 | no more parents than links |
| PersonSidebar.Children | components/tree/person-sidebar.tsx:166-168 | no more children than links |
| PersonSidebar.ParentsCount | components/tree/person-sidebar.tsx:162-164 | `x` is listed among the parents of `y` once per link from `x` to `y`, duplicates kept |
| PersonSidebar.ChildrenCount | components/tree/person-sidebar.tsx:166-168 | `y` is listed among the children of `x` once per link from `x` to `y` |
| PersonSidebar.ParentChildSymmetry | components/tree/person-sidebar.tsx:162-168 | `x` is a parent of `y` exactly as often as `y` is a child of `x` |
| PersonSidebar.RelativesMember | components/tree/person-sidebar.tsx:162-168 | shown as parent and child exactly when the link exists |
| PersonSidebar.FormOf | components/tree/person-sidebar.tsx:61-70 | the form takes the person's fields, missing texts as "" |
| PersonSidebar.FormLevel | components/tree/person-sidebar.tsx:66 | the form's level text parses back to the person's level |
| PersonSidebar.SaveRequest | components/tree/person-sidebar.tsx:82-107 | a blank level is required, a level that does not parse or is not positive is refused, otherwise the update carries the parsed level and the texts with "" as null |
| PersonSidebar.SaveLeadingNumber | components/tree/person-sidebar.tsx:88-92 | a positive number followed by other text ("3x") saves as that number |
| PersonSidebar.SaveUntouched | components/tree/person-sidebar.tsx:82-107 | saving an untouched form sends the person back unchanged when its level is positive and is refused otherwise |
| PersonSidebar.SaveEnabled | components/tree/person-sidebar.tsx:323 | the Save button is enabled exactly when no save is running and the name has a character other than white space |
| PersonSidebar.SaveEnabledSendsName | components/tree/person-sidebar.tsx:100-107 | a save from the enabled button that passes the level checks sends the typed name, which is not blank |
| PersonSidebar.Sidebar.constructor | components/tree/person-sidebar.tsx:46-58 | the sidebar starts with no person, an empty form, not editing and no error |
| PersonSidebar.Sidebar.PersonChanged | components/tree/person-sidebar.tsx:61-74 | a new person refills the form, stops editing and clears the error |
| PersonSidebar.Sidebar.StartEdit | components/tree/person-sidebar.tsx:186 | the edit button starts editing |
| PersonSidebar.Sidebar.EditFields | components/tree/person-sidebar.tsx:239-298 | typing sets the form |
| PersonSidebar.Sidebar.Save | components/tree/person-sidebar.tsx:79-100 | for a selected person, the save is refused with its message, fails without a token (null or the empty string), or sends the update of `SaveRequest` addressed to the person's id |
| PersonSidebar.Sidebar.SaveDone | components/tree/person-sidebar.tsx:109-117 | success leaves editing mode, failure shows the fixed message |
| PersonSidebar.Sidebar.CancelEdit | components/tree/person-sidebar.tsx:121-132 | cancel refills the form from the person, stops editing and clears the error |
| PersonSidebar.Occurrences | components/tree/person-sidebar.tsx:162-168 | how often a name is listed |
| PersonSidebar.LinkCount | components/tree/person-sidebar.tsx:162-168 | how many links go from one name to another |
| PublicId.LastDot | lib/utils.ts:15 | the last dot of a text, none exactly when it has no dot |
| PublicId.VersionEnd | lib/utils.ts:15 | a version segment found is `v`, digits and `/` |
| PublicId.MatchAtComplete | lib/utils.ts:15-16 | a decomposition at a start makes the attempt there succeed, with its id when it has a version |
| PublicId.MatchAtSound | lib/utils.ts:15-16 | a successful attempt comes from a decomposition there, with a version segment whenever one fits |
| PublicId.MatchFromFirst | lib/utils.ts:16 | the scan reports the first index where an attempt succeeds |
| PublicId.ExtractPublicIdSound | lib/utils.ts:8-26 | every reported id is the id of a decomposition the engine prefers over all others |
| PublicId.ExtractPublicIdOfPreferred | lib/utils.ts:8-26 | the id of the preferred decomposition is reported |
| PublicId.ExtractPublicIdNone | lib/utils.ts:8-26 | null exactly when the URL has no "/upload/", id, dot and dot-free extension |
| PublicId.FirstUploadVersioned | lib/utils.ts:12-20 | after the first "/upload/" a version segment is left out and the id up to the last dot is reported |
| PublicId.CommentExample | lib/utils.ts:12-14 | the comment's example URL gives "folder/image" |
| PublicId.IsLineTerminator | lib/utils.ts:15 | the characters the expression's `.` does not match |
| PublicId.NoLineTerminator | lib/utils.ts:15 | a text `.+` can match |
| PublicId.NoDot | lib/utils.ts:15 | a text `[^.]+` can match |
| PublicId.IsVersion | lib/utils.ts:15 | a version segment `v\d+/` |
| PublicId.UploadAt | lib/utils.ts:15 | "/upload/" at a position |
| PublicId.DigitRunEnd | lib/utils.ts:15 | the end of the run of digits from a position: all digits before it, none at it |
| PublicId.SplitExtension | lib/utils.ts:15 | `(.+)(?:\.[^.]+)$` on the rest of the URL: the text before the last dot |
| PublicId.SplitExtensionOf | lib/utils.ts:15 | an id and a dot-free extension split back into the id |
| PublicId.MatchAt | lib/utils.ts:15-16 | the attempt at one position, with the version segment first |
| PublicId.WithVersion | lib/utils.ts:15 | the rest of the expression with the version segment taken |
| PublicId.MatchFrom | lib/utils.ts:16 | the leftmost successful attempt from a position |
| PublicId.ExtractPublicId | lib/utils.ts:8-26 | `extractPublicId`; `ExtractPublicIdSound`, `ExtractPublicIdOfPreferred` and `ExtractPublicIdNone` state what it returns |
| PublicId.Decomposes | lib/utils.ts:15 | the expression's meaning: text, "/upload/", an optional version, the id, ".", a dot-free extension |
| PublicId.Preferred | lib/utils.ts:15-16 | the decomposition the engine reports: the earliest "/upload/", and there the one with a version |
| PublicId.PreferredFirst | lib/utils.ts:15-16 | the first successful attempt, with its version when one fits, is the preferred decomposition |
| PublicId.SameSplit | lib/utils.ts:15 | two version-free decompositions at the same start have the same id |
| PublicId.NoVersionAt | lib/utils.ts:15 | when the version branch fails at a position, no decomposition there has a version |
| ChangePassword.Check | components/user-changepassword-dialog.tsx:38-56 | the four checks in order, each message exactly when its check is the first to fail |
| ChangePassword.FailureMessage | components/user-changepassword-dialog.tsx:84 | a failed change shows the server's detail, else the fixed text |
| ChangePassword.Dialog.constructor | components/user-changepassword-dialog.tsx:27-31 | the dialog starts with empty fields, no error and not loading |
| ChangePassword.Dialog.Submit | components/user-changepassword-dialog.tsx:33-66 | a failed check shows its message; a missing or empty token shows "Bạn chưa đăng nhập"; otherwise old and new password go out |
| ChangePassword.Dialog.Complete | components/user-changepassword-dialog.tsx:66-88 | success closes the dialog and clears the three fields; failure shows why and keeps them |
| ChangePassword.Dialog.Close | components/user-changepassword-dialog.tsx:91-97 | closing clears the fields and the error |
| ResetPassword.SendFailure | components/reset-password-form.tsx:59-73 | 404 and 429 show the detail or their own text, other statuses the generic text, no response the network text |
| ResetPassword.ResetCheck | components/reset-password-form.tsx:85-98 | the three checks in order, each message exactly when its check is the first to fail |
| ResetPassword.DigitsAt | components/reset-password-form.tsx:120 | the captured group is made of digits |
| ResetPassword.FirstMatchFrom | components/reset-password-form.tsx:120 | the leftmost position where `(\d+) attempts remaining` matches |
| ResetPassword.AttemptsGroup | components/reset-password-form.tsx:120-121 | the group exists exactly when the pattern matches somewhere |
| ResetPassword.RemainingOfMatch | components/reset-password-form.tsx:120-122 | a count is read exactly when the pattern matches, and it is the leftmost match's digits |
| ResetPassword.RemainingOfMessage | components/reset-password-form.tsx:118-124 | a detail saying "N attempts remaining" after digit-free text yields N |
| ResetPassword.ResetRefused | components/reset-password-form.tsx:110-134 | 400 shows the detail or its text; 429 with "attempts remaining" shows the detail and takes the count when the pattern matches; other failures as in the source |
| ResetPassword.AfterTicksValue | components/reset-password-form.tsx:34-39 | `n` ticks take `n` seconds off the countdown and stop at 0 |
| ResetPassword.Form.constructor | components/reset-password-form.tsx:17-31 | the form starts empty, at step one, with 5 attempts |
| ResetPassword.Form.TickOnce | components/reset-password-form.tsx:34-39 | one tick lowers a positive countdown by one |
| ResetPassword.Form.SendOtp | components/reset-password-form.tsx:41-54 | both messages cleared; an empty email is refused, otherwise it is sent |
| ResetPassword.Form.SendOtpDone | components/reset-password-form.tsx:53-76 | success starts step two with a countdown of 60 and 5 attempts; failure shows `SendFailure` |
| ResetPassword.Form.Reset | components/reset-password-form.tsx:79-103 | both messages cleared; a failed check shows its message, otherwise email, OTP and password go out |
| ResetPassword.Form.ResetDone | components/reset-password-form.tsx:102-137 | success shows its message; failure shows the message and attempts of `ResetRefused` |
| ResetPassword.Form.ChangeAccount | components/reset-password-form.tsx:275-282 | back to step one with the OTP, passwords and messages cleared and the email kept |
| ResetPassword.MatchesAt | components/reset-password-form.tsx:120 | `(\d+) attempts remaining` matches at a position |
| ResetPassword.RemainingIn | components/reset-password-form.tsx:120-122 | `parseInt(match[1])` when the pattern matches; `RemainingOfMatch` states it |
| ResetPassword.FirstMatchOfParts | components/reset-password-form.tsx:120 | with no digit before it, a run of digits followed by " attempts remaining" is the leftmost match and its group |
| ResetPassword.Tick | components/reset-password-form.tsx:34-39 | one second of the countdown: down by one, never below 0 |
| ResetPassword.AfterTicks | components/reset-password-form.tsx:34-39 | the countdown after `n` ticks; `AfterTicksValue` states it |
| ResetPassword.Form.SendEnabled | components/reset-password-form.tsx:185 | the send button is enabled when not sending and the countdown is over |
| AddRelationship.Check | components/tree/add-relationship-modal.tsx:41-49 | both ids required first, then different texts; each message exactly when its check fails first |
| AddRelationship.FailureMessage | components/tree/add-relationship-modal.tsx:66-70 | 404 names the ids, anything else shows the server's message or the fixed text |
| AddRelationship.SendsCanonicalIds | components/tree/add-relationship-modal.tsx:41-56 | two different ids typed as decimal text pass and are sent as those numbers |
| AddRelationship.SameIdPassesCheck | components/tree/add-relationship-modal.tsx:46-56 | an id and the same id with a leading zero pass the check and are both sent as that person |
| AddRelationship.Modal.constructor | components/tree/add-relationship-modal.tsx:32-35 | the modal starts with empty ids and no error |
| AddRelationship.Modal.Submit | components/tree/add-relationship-modal.tsx:37-56 | a failed check shows its message; a missing or empty token fails with no response; otherwise the parsed ids go out |
| AddRelationship.Modal.Complete | components/tree/add-relationship-modal.tsx:56-73 | success clears both ids and closes; failure shows `FailureMessage` |
| AddRelationship.Modal.Close | components/tree/add-relationship-modal.tsx:76-83 | ignored while submitting, otherwise ids and error cleared and the modal closed |
| AddRelationship.LinkOf | components/tree/add-relationship-modal.tsx:56 | the two ids as `parseInt` reads them; `SendsCanonicalIds` and `SameIdPassesCheck` state it |
| AddRelationship.ParseLeadingZero | components/tree/add-relationship-modal.tsx:56 | `parseInt` reads digits with a leading zero as the digits |
| DelRelationship.Check | components/tree/del-relationship-modal.tsx:41-49 | both ids required first, then different texts |
| DelRelationship.SameChecksAsAdd | components/tree/del-relationship-modal.tsx:41-49 | the delete modal accepts and refuses the same pairs as the add modal |
| DelRelationship.FailureMessage | components/tree/del-relationship-modal.tsx:73-78 | 404 says the link is gone, anything else shows the server's detail or the fixed text |
| DelRelationship.Modal.constructor | components/tree/del-relationship-modal.tsx:32-35 | the modal starts with empty ids and no error |
| DelRelationship.Modal.Submit | components/tree/del-relationship-modal.tsx:37-63 | a failed check shows its message; a declined confirmation stops with no request and nothing changed; a missing or empty token fails; otherwise the parsed ids go out |
| DelRelationship.Modal.Complete | components/tree/del-relationship-modal.tsx:63-81 | success clears both ids and closes; failure shows `FailureMessage` |
| DelRelationship.Modal.Close | components/tree/del-relationship-modal.tsx:84-91 | ignored while submitting, otherwise ids and error cleared and the modal closed |
| Requests.NewPersonOf | components/tree/add-child-modal.tsx:57-65 | the name and description trimmed, an empty date or trimmed description sent as null |
| Requests.NewPersonTrimmed | components/tree/add-person-modal.tsx:46-64 | a sent name is never blank, and name and description carry no outer white space |
| Requests.MessageOr | components/tree/add-child-modal.tsx:77 | a failed creation shows the server's non-empty message, else the dialog's fixed text |
| Requests.TrimTwice | components/tree/add-child-modal.tsx:58 | trimming twice is trimming once |
| Requests.Outcome.Status | components/tree/add-relationship-modal.tsx:66 | `error.response?.status`: present only when the server answered with a refusal |
| Requests.Outcome.Detail | components/tree/del-relationship-modal.tsx:77 | `error.response?.data?.detail`: present only on a refusal that carried one |
| Requests.Outcome.Message | components/tree/add-child-modal.tsx:77 | `error.response?.data?.message`: present only on a refusal that carried one |
| AddChild.ChildPayload | components/tree/add-child-modal.tsx:57-65 | the child's level is the parent's plus one and its only parent is the parent |
| AddChild.ChildPayloadValid | components/tree/add-child-modal.tsx:46-65 | a child that passes the name check is sent trimmed, one level below its parent |
| AddChild.Modal.constructor | components/tree/add-child-modal.tsx:34-40 | the modal starts cleared, gender M |
| AddChild.Modal.Submit | components/tree/add-child-modal.tsx:42-65 | a blank name is refused; a missing or empty token fails; otherwise `ChildPayload` goes out |
| AddChild.Modal.Complete | components/tree/add-child-modal.tsx:65-80 | success clears the fields and the caller's `onSuccess` closes the modal; failure shows the server's message or the fixed text and keeps the fields |
| AddChild.Modal.Close | components/tree/add-child-modal.tsx:83-93 | ignored while submitting, otherwise fields and error cleared and the modal closed |
| AddChild.Modal.Cleared | components/tree/add-child-modal.tsx:67-72 | the fields at their initial values |
| AddPerson.LevelOf | components/tree/add-person-modal.tsx:147 | the level typed is the number read, 0 when none |
| AddPerson.LevelOfTyped | components/tree/add-person-modal.tsx:147 | a level's decimal text sets that level, a blank field 0 |
| AddPerson.LevelOfLeadingNumber | components/tree/add-person-modal.tsx:147 | a number followed by other text sets the number |
| AddPerson.PersonPayload | components/tree/add-person-modal.tsx:56-64 | the typed fields, the level as it stands and no parents |
| AddPerson.Modal.constructor | components/tree/add-person-modal.tsx:33-40 | the modal starts cleared, gender M and level 0 |
| AddPerson.Modal.TypeLevel | components/tree/add-person-modal.tsx:147 | typing in the level field sets `LevelOf` of the text |
| AddPerson.Modal.Submit | components/tree/add-person-modal.tsx:42-64 | a blank name is refused; a missing or empty token fails; otherwise `PersonPayload` goes out |
| AddPerson.Modal.Complete | components/tree/add-person-modal.tsx:64-81 | success clears the fields and closes the modal; failure shows why |
| AddPerson.Modal.Close | components/tree/add-person-modal.tsx:84-95 | ignored while submitting, otherwise fields and error cleared and the modal closed |
| AddPerson.Modal.Cleared | components/tree/add-person-modal.tsx:66-75 | the fields at their initial values |
| JsText.OrElse | components/user-changepassword-dialog.tsx:84 | `opt || fallback`: the text unless missing or empty |
| JsText.OrNull | components/tree/add-child-modal.tsx:61-63 | `s || null`: null exactly for the empty text |
| JsText.NatToString | components/tree/family-tree-view.tsx:130-131 | `String(n)`: decimal digits without a superfluous leading zero |
| JsText.ParseIntOfIntToString | components/tree/person-sidebar.tsx:88 | `parseInt(String(n))` is `n` |
| JsText.ParseIntLeadingNumber | components/tree/person-sidebar.tsx:88 | `parseInt` reads a leading number and ignores the text after it |
| JsText.ParseIntOfDigits | components/tree/add-relationship-modal.tsx:56 | a text of decimal digits is read whole, leading zeros and all |
| JsText.ParseIntOfBlank | components/tree/family-tree-view.tsx:425 | a blank text never parses |
| JsText.BlankIsAllSpace | components/tree/add-child-modal.tsx:46 | `!s.trim()` exactly when the text is white space only |
| JsText.IsJsSpace | components/tree/add-child-modal.tsx:46 | the white space and line terminators `trim` removes |
| JsText.AllSpace | components/tree/add-child-modal.tsx:46 | a text of white space only |
| JsText.TrimStart | components/tree/add-child-modal.tsx:46 | the text without its leading white space: a suffix that starts with a non-space, empty exactly for an all-space text |
| JsText.TrimEnd | components/tree/add-child-modal.tsx:46 | the text without its trailing white space: a prefix that ends with a non-space, empty exactly for an all-space text |
| JsText.Trim | components/tree/add-child-modal.tsx:46 | `trim`; `BlankIsAllSpace` and `TrimTwice` state it |
| JsText.IsBlank | components/tree/add-child-modal.tsx:46 | `!s.trim()` |
| JsText.IsTruthy | components/tree/add-child-modal.tsx:54 | `!!token` for a nullable string: both null and the empty string are falsy |
| JsText.Includes | components/tree/family-tree-view.tsx:179 | `includes`: the text occurs at some position |
| JsText.OccursAt | components/tree/family-tree-view.tsx:179 | the text occurs at a position |
| JsText.IsDecimalDigit | components/tree/add-person-modal.tsx:147 | a decimal digit |
| JsText.DigitValue | components/tree/add-person-modal.tsx:147 | a digit's value in the radix, -1 exactly for a non-digit in decimal |
| JsText.DigitPrefix | components/tree/add-person-modal.tsx:147 | the longest run of digits at the start of a text |
| JsText.DigitsValue | components/tree/add-person-modal.tsx:147 | the number a run of digits denotes |
| JsText.ParseInt | components/tree/add-person-modal.tsx:147 | `parseInt` with no radix; the `ParseInt...` lemmas state it |
| JsText.ParseSigned | components/tree/add-person-modal.tsx:147 | `parseInt` after the white space: an optional sign, then the number |
| JsText.ParseUnsigned | components/tree/add-person-modal.tsx:147 | `parseInt` after the sign: hexadecimal after `0x`, decimal otherwise |
| JsText.ParseUnsignedOfDigits | components/tree/add-person-modal.tsx:147 | a run of digits followed by a non-digit is read whole |
| JsText.ParseIntOfNegative | components/tree/person-sidebar.tsx:88 | the text of a negative number parses back to it |
| JsText.ParseIntOfNonNegative | components/tree/person-sidebar.tsx:88 | the text of a non-negative number parses back to it |
| JsText.DigitChar | components/tree/family-tree-view.tsx:130 | the digit character of a value below 10 |
| JsText.IntToString | components/tree/person-sidebar.tsx:66 | `String(n)` for an integer |
| JsText.NatToStringLeadingZero | components/tree/family-tree-view.tsx:130 | a number's decimal text has no superfluous leading zero |
| JsText.DigitsValueOfNatToString | components/tree/family-tree-view.tsx:130 | the decimal text of a number denotes that number |

## Left out

- Building the SVG with d3 (groups, markers, avatars and their image fallback, fonts,
  clip paths) and the click handlers on nodes: only the numbers they are drawn from are modelled.
- The 750 ms transitions and the `scaleExtent` clamp of gestures: d3 applies them, and a
  transition ends on its target, which is what the model records.
- The resize listener, the canvas size (taken as a parameter, at least 500 by 500 where a
  lemma needs it), the registration of `resetFunc` as the `window.familyTreeResetZoom` global
  (line 53; the function itself is modelled by `ResetStep`) and the click-outside handler of
  the sidebar.
- `fetchData`'s loading and error flags, the order of its calls and the `{ data: [...] }`
  unwrapping of the people list: only the data shaping is modelled.
- `deletePerson` in the sidebar: a confirmation, one request and a browser alert, with no
  state of its own beyond `isDeleting`.
- Alerts, console logging, the sign-out and redirect after a password change or reset, and
  the `onSuccess`/`onDataUpdate` refetch callbacks.
- The API layer (`lib/api.ts`), the session context, routing, pages and the other dialogs
  (register, login, profile), which sequence network calls.
- `cn` in `lib/utils.ts`, which delegates to two styling libraries.
- `toLowerCase` is an abstract function parameter: Unicode case mapping is not modelled.
- Numbers are exact: IEEE-754 rounding is not modelled, and `parseInt`'s `NaN` is `None`
  (sent as `null` by `JSON.stringify`).
- JsText.ParseInt: the negative zero of `parseInt("-0")` is read as 0.
- ResetPassword.MinLength: the new-password field's placeholder asks for 8 characters while the
  check demands 6; the model follows the check.
- AddRelationship.SameIdPassesCheck: the same-person check compares the typed texts, so an id
  and the same id with a leading zero are both sent as one person; the model keeps this
  behaviour and states it.
- ChartRender.NodeStroke: without a focused person the source leaves the boxes' default
  outline, which the model gives as white and 2 wide.
- ChartRender.Truncate: strings are sequences of Unicode scalar values, while JavaScript's
  `length` and `substring` count UTF-16 code units, so a name with a character outside the
  Basic Multilingual Plane (an emoji) measures longer in the browser and may be cut at a
  different point.
- ChangePassword.Check: the six-character minimum is counted in Unicode scalar values, not
  UTF-16 code units, so a five-character password with one emoji is refused here and
  accepted by the browser.
- ResetPassword.ResetCheck: the same scalar-value count for the new password's minimum.
- The focused name: the chart tests `if (focusedPerson)`, so an empty name means no focus;
  the model passes `None` for it, and the view never focuses an empty name.
- PersonSidebar.Sidebar.Save: does not refuse a blank name itself, as `handleSave` does not;
  the guard is the button's, stated separately as `SaveEnabled`.
