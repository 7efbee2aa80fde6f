# GWatch: a verified model of its algorithmic cores

GWatch is a network monitor: a server with a browser interface, and agents on the machines it
watches. This project models the parts of it that are algorithms rather than plumbing, and proves
what they promise:

- **The network map** (`web/netmap.js`, `web/netmap-tools.js`). Any list of nodes with "depends on"
  links, loops included, becomes a forest; from it come a tree drawing, how far an outage reaches,
  a what-if simulation, what filters and folding leave visible, and places arranged by hand.
- **The agent's configuration file** (`cmd/gwatch-agent/configfile.go`, `checkin.go`). The file and
  the copy beside it as a two-copy commit protocol under power cuts, and the rotation of the token.
- **The remote collector** (`cmd/gwatch-agent/collector.go`). Assigned checks brought in line with
  each check-in, and the jobs that run them sharing eight slots.
- **Keyed lists** (`renderKeyed` in `web/components.js`). Children edited in place towards a target
  order, keeping each element's identity and moving as few as the walk can.
- **The agent's log** (`cmd/gwatch-agent/agentlog.go`). Tokens taken out of text to a fixed point,
  and a file that is moved aside when it is full.
- **Charts and versions** (`web/charts.js`, `web/chart-config.js`, `web/fmt.js`). Round axis ticks,
  which series share a chart and an axis, clean series lists, and the order of version numbers.

`dafny verify dfyconfig.toml` checks everything.

## How it is laid out

| file | what it holds |
|---|---|
| `wrappers.dfy`, `ordering.dfy`, `text.dfy` | Option and Result, filtering, stable sorting by a comparator, plain text and numbers |
| `chains.dfy` | following links upwards: loops, depth, what lies above a node |
| `forest.dfy`, `trees.dfy`, `treelayout.dfy`, `onedrawing.dfy` | building the forest, what is below and above a node, the tree drawing, and that it is the only one of its kind |
| `loops.dfy` | which links of loops are dropped among part of the nodes |
| `outage.dfy`, `whatif.dfy`, `mapview.dfy` | states and lines of the map, the simulation, filtering and folding |
| `arrange.dfy`, `tidy.dfy`, `redraw.dfy` | places arranged by hand, the tidy-up of the rest, and drawing again what it left |
| `keyed.dfy` | the keyed list |
| `configdoc.dfy`, `durations.dfy`, `crash.dfy`, `rotation.dfy` | the document, durations in it, power cuts, the token |
| `redact.dfy`, `comeback.dfy`, `log.dfy` | redaction, the tokens it leaves and redacting again, and the log file |
| `collector.dfy`, `jobpool.dfy` | the collector's table of jobs, and the jobs themselves |
| `ticks.dfy`, `chartplan.dfy`, `seriesconfig.dfy`, `versions.dfy` | charts and versions |

Ids are abstract values that can only be compared for equality; names are compared by a collation the
caller passes in. Positions are reals. A turn is a pair (c, s) with c² + s² = 1, and the direction of
one point from another is a function `dir` that the caller passes in and that gives such a pair (the
source uses `Math.atan2`, `Math.cos` and `Math.sin`). What the file system, the clock, the browser or
another goroutine decides is a parameter or a free choice of the next step.

## Where the code and its description differ

- The comment on `buildForest` (web/netmap.js:256) says a loop is broken at its first node met, which
  becomes a root. The code (web/netmap.js:275) drops the last link of the walk that closes,
  so the first node met keeps its link: `Trees.FirstMetKeepsItsLink`, and `Trees.TwoNodeLoop` for the
  smallest loop.
- The what-if banner counts a node as cut off when anything the simulation takes down is above it, and
  else as quiet when anything it puts into maintenance is; the map goes by the nearest failure, real or
  simulated. Where both name a kind, they differ exactly when the nearest failure is maintenance and a
  simulated outage is further up, or the nearest is a real outage and no simulated one is above:
  `WhatIf.KindsDisagree`. `WhatIf.KindsDisagreeInChain` and `WhatIf.RealOutageInChain` are three nodes in
  a row for the one and the other. Even fully spread the banner counts nodes the map never marks, namely
  below a real failure that does not reach them: `WhatIf.MissedByMap`.
- A pin the tidy-up left alone may hang from a node it moved, and then its group is turned when the map is
  drawn again: `Redraw.RedrawnWhereLeft` says exactly which nodes are not drawn where the tidy-up left them.
- Between the moment the file holds a new token and the moment its save returns, a restart presents
  the new token while the agent still presents the old one; otherwise the two are the same, whatever
  earlier power cuts brought back: `CrashSafety.TokensSurvive`. `CrashSafety.TokenWindow` is a run into that
  moment.
- Whichever of the two writes of a save a power cut interrupts, the other file is whole; but the copy may
  be too old, because a save returns even when its copy could not be written. A cut in the next write of
  the file then brings back an older document: `CrashSafety.FailedCopyGoesBack`. Exactly when it cannot
  is `CrashSafety.CopyDecides`. Without `keepConfigBackup` at the start of a run two power cuts can leave
  nothing to read at all: `CrashSafety.WithoutKeepingAllIsLost`.
- When the rename of a full log fails, the file is truncated all the same, and what agent.log held is
  lost unless agent.log.1 already was the end of what was written: `AgentLog.FailedRenameLosesLines`, and
  `AgentLog.FilesTellWhatIsLost`, which reads it off the two files.
- Redaction works on one write at a time. A write the disk cuts short can end in what the next one makes
  a token of (`AgentLog.CutShortJoins`); nine characters on either side of each seam tell whether that
  happens: `AgentLog.SeamsDecide`.
- A token can still be read after `redactSecrets` took it out if the replacement text can be part of it:
  if one holds the other, if the token begins with an end of the replacement, or if it ends with a
  beginning of it, and the token holds nothing in the usual form. `ComingBack.TokensThatComeBack` shows
  that to be exact for tokens given in any list. Given alone, a token that ends with a beginning of the
  replacement and begins with the same can be taken out of every text after all ("[aaa[aaa[", not
  "aaaaaaa["): `ComingBack.LoneTokensThatComeBack` is exact for that case. "nnnnnnnn" and "[abcdefgh" are
  taken out of every text in any list, as is every token the agent accepts.
- Folding may move the root of a loop: the links dropped are worked out again from the visible nodes
  (web/netmap.js:939). `MapView.FoldingRestricts` says exactly when that agrees with the whole map, and
  `MapView.FoldingMovesRoot` is three nodes for which it does not.
- A string that is no version compares equal to every string, so the order goes through a string exactly
  when it is a version: `Versions.OrderGoesThroughVersions`. `agentIsBehind` is a strict order all the same.

## Model

| member | source | states |
|---|---|---|
| Forests.CollectNodes | web/netmap.js:260-261 | ids in the order they first appear, each standing for the last node with it |
| Forests.CollectLinks | web/netmap.js:262-266 | a link is kept exactly when it names another node of the list |
| Forests.FollowUp | web/netmap.js:271-277 | one walk upwards: it ends at a root, or comes round, and then which node it comes round from |
| Forests.WalkCloses | web/netmap.js:274-275 | the node a walk closes at is on a loop, and is the one the loop's first walker enters behind |
| Forests.ClosingIsNew | web/netmap.js:271-277 | a loop that closes now has lost no link before |
| Forests.BreakLoops | web/netmap.js:267-278 | no chain is endless any more; exactly one link of each loop is dropped, the one where it closes, and no other link |
| Forests.Assembled | web/netmap.js:279-285 | links broken at every loop, with the lists made from them, form a forest: children undo parents, roots are what has none |
| Forests.BuildForest | web/netmap.js:259-286 | the whole forest for any list of nodes: links, cycles, and children and roots as `Forests.HangsFromWhatItDependsOn` and `Forests.ListsAreByName` tell them from the list |
| Forests.ListsAreByName | web/netmap.js:258-285 | when the collation is an order: the roots, and the children of any node, are in the order of their names, of their ids where those are alike, and else as they are first met |
| Forests.HangsFromWhatItDependsOn | web/netmap.js:262-285 | a node hangs from the one it depends on, exactly when that is another node of the list and no loop was broken there; where one was, it is a root |
| Forests.LastNodeCounts | web/netmap.js:260 | of several nodes with one id the last is the one the forest knows |
| Forests.KeysAsMet | web/netmap.js:261 | ids are walked in the order in which they first appear |
| Trees.EachLoopLosesOneLink | web/netmap.js:267-278 | for every node on a loop, exactly one of the dropped links is on that loop |
| Trees.LoopFreeLosesNothing | web/netmap.js:267-278 | without loops no link is lost |
| Trees.FirstMetKeepsItsLink | web/netmap.js:274-275 | where no node depends on itself: the link dropped for a loop is the one into the node of the loop that is met first, and that node keeps its own |
| Trees.TwoNodeLoop | web/netmap.js:256-278 | of two nodes that depend on each other the second becomes the root, not the first met |
| Trees.InOneTree | web/netmap.js:279-285 | every node is in the tree of exactly one root |
| Trees.SubSplits | web/netmap.js:288-293 | a tree is its root and its children's trees |
| Trees.SubDisjoint | web/netmap.js:288-293 | trees of nodes at the same depth have nothing in common |
| Trees.SubtreeSize | web/netmap.js:288-293 | the number counted is the number of nodes at or below |
| Trees.AncestorsOf | web/netmap.js:615-620 | exactly the nodes above, nearest first |
| Trees.DescendantsOf | web/netmap.js:607-613 | exactly the nodes above which the given one is, each once: the children in order, then the children of each of what is listed, in turn; one fewer than the subtree size |
| TreeLayout.PlaceTrees | web/netmap.js:327-337 | every tree owns a stretch of slots of its own, and any two nodes of different trees are a slot and a half apart |
| TreeLayout.UnrelatedApart | web/netmap.js:329-337 | of two nodes neither of which is above the other, one's whole tree is a slot or more to the left of the other's |
| TreeLayout.TreesNoOverlap | web/netmap.js:329-337 | two nodes of the trees differ by a slot or a level at least |
| TreeLayout.TreesHangTidily | web/netmap.js:333-335 | each child is one level below, siblings are a slot apart, and a parent is midway between its first and last child |
| TreeLayout.LinesNeverCross | web/netmap.js:329-337 | two lines between the same levels never meet, at any height |
| TreeLayout.PerRow | web/netmap.js:343 | the number asked for, if not nought; else as many as the trees are slots wide, or without trees the square root of twice the nodes rounded up, but four at least; one at least in any case |
| TreeLayout.CeilSqrt | web/netmap.js:343 | the square root rounded up |
| TreeLayout.BlockFits | web/netmap.js:345-347 | every node of the block is within the rows and columns the block is said to take |
| TreeLayout.RowIsQuotient | web/netmap.js:345 | counting off rows gives the quotient and the remainder |
| TreeLayout.AddBlock | web/netmap.js:341-348 | every node of the block exactly in its row and column under the trees, which stay as they are; nothing overlaps, and how many slots and levels that takes |
| TreeLayout.SplitRoots | web/netmap.js:317-321 | the linked nodes are exactly those of the trees drawn, the larger tree first and then by name; the rest stand alone |
| TreeLayout.LayoutMap | web/netmap.js:315-350 | with or without the block: no two nodes overlap, no lines cross, every parent is midway over its children, larger trees are further left, then by name; the trees take the slots their leaves need, the block is exactly placed, and how many slots and levels there are |
| OneDrawing.OneWayToDraw | web/netmap.js:315-337 | that settles where every linked node is: however the trees are drawn so, they are drawn alike |
| Outage.Visit | web/netmap.js:654-675 | the walk gives each node what its ancestors alone determine |
| Outage.MapStates | web/netmap.js:650-678 | every node's status and cause, as `Outage.ShownFromEntries` and `Outage.CauseFromEntries` tell them from the entries and the simulation |
| Outage.ShownFromEntries | web/netmap.js:650-664 | a simulated node shows what it is simulated to be; one that is switched off is paused, any other shows the status the overview gives it, or unknown |
| Outage.FailedFromEntries | web/netmap.js:655-663 | a node has failed exactly when it is simulated to, or when it is not switched off and the overview says it is down or in maintenance |
| Outage.InheritsNearest | web/netmap.js:666-673 | what is handed down is the nearest failed ancestor at its exact distance, while every node on the way lets it through |
| Outage.CauseIsNearest | web/netmap.js:665-669 | a node has a cause exactly when its nearest failed ancestor reaches it, and the cause is that one at that distance |
| Outage.CauseNeedsFailed | web/netmap.js:665-669 | conversely every cause is a nearest failed ancestor |
| Outage.CauseFromEntries | web/netmap.js:665-675 | a node's cause told from the entries: its nearest failed ancestor, exactly when every node on the way passes that on, or when it is simulated and has spread that far |
| Outage.SwitchedOffStopsMaintenance | web/netmap.js:667-673 | one that is switched off takes no cause from real maintenance, and stops it for what hangs below |
| Outage.MarkedAllTheWay | web/netmap.js:686-693 | from the cause down to the node every line is marked with no gap, the first cut or quiet, later ones affected or quiet |
| Outage.MarkedOnlyThere | web/netmap.js:686-693 | any other line is unmarked; and what each line is, by the node it leaves and the one it leads to |
| WhatIf.MaxDepthOf | web/netmap-tools.js:75-83 | the greatest height of a failed node: none is further from what is below it, and one is as far |
| WhatIf.Simulation.AddFailure | web/netmap-tools.js:127-131 | the failure is added, spreading starts again from the failed nodes alone, and plays unless motion is to be reduced |
| WhatIf.Simulation.RemoveFailure | web/netmap-tools.js:132-137 | the failure is gone and the depth is cut to what is left; with the last one all is cleared |
| WhatIf.Simulation.StepOnce | web/netmap-tools.js:138 | one ring further, but never beyond the deepest; nothing else changes |
| WhatIf.Simulation.StartPlay | web/netmap-tools.js:140-147 | starts from the failed nodes alone with one timer |
| WhatIf.Simulation.Tick | web/netmap-tools.js:146 | each tick spreads a ring; at the end the timer stops |
| WhatIf.Simulation.ClearAll | web/netmap-tools.js:148 | nothing failed, depth nought, no timer |
| WhatIf.EveryRunIsSound | web/netmap-tools.js:121-149 | after any run of operations 0 ≤ depth ≤ the deepest, and at most one timer runs |
| WhatIf.PlayStopsWhenSpread | web/netmap-tools.js:140-147 | enough ticks after play it has spread all the way and the timer has stopped |
| WhatIf.StepsAddUp | web/netmap-tools.js:138 | any number of steps spreads by as many rings, as far as there are any |
| WhatIf.AddedAndRemoved | web/netmap-tools.js:127-137 | a failure added and taken out leaves the others, not spread; one taken out of several leaves the rest spread as far as it was, or as far as they reach |
| WhatIf.EndedIsStart | web/netmap-tools.js:132-148 | cleared, or with its last failure taken out, a simulation is as it was at the start |
| WhatIf.Reach | web/netmap-tools.js:89-96 | exactly what is below a failure, and below maintenance only; the two are disjoint |
| WhatIf.SimulatedCauses | web/netmap.js:648-678 | simulated causes are exactly the nodes whose nearest failed ancestor is simulated and no further than the depth |
| WhatIf.SpreadingOnlyAdds | web/netmap.js:648-678 | a greater depth only adds nodes and alters no cause, real or simulated |
| WhatIf.SpreadMeetsReach | web/netmap-tools.js:89-96 | fully spread, with nothing really failing, the nodes with a cause are exactly those the banner counts |
| WhatIf.MissedByMap | web/netmap-tools.js:89-96 | fully spread, whatever really fails: the banner counts a node the map shows no cause on exactly when its nearest failure is a real one that does not reach it and a simulated one is further up |
| WhatIf.KindsDisagree | web/netmap-tools.js:89-96 | for every node with a cause: when the banner counts it at all, and when it names another kind than the map |
| WhatIf.KindsDisagreeInChain | web/netmap-tools.js:89-96 | three nodes in a row: simulated maintenance below a simulated outage |
| WhatIf.RealOutageInChain | web/netmap-tools.js:89-96 | three nodes in a row: a real outage below simulated maintenance |
| MapView.ClimbFrom | web/netmap.js:591-597 | adds exactly the chain above a match, the nearest first and after what was drawn before, also when it runs into a loop |
| MapView.MapEntries | web/netmap.js:582-600 | exactly the matching nodes and what they depend on, each match before what is above it and in the order of the list; context exactly on those that do not match; of repeated ids the last node |
| MapView.AboveIsLeast | web/netmap.js:577-597 | for any list: besides the matches, the least set that holds what they depend on and is closed under "depends on" |
| MapView.FoldedHere | web/netmap.js:935 | the folded nodes that have something below them |
| MapView.HiddenBy | web/netmap.js:936-937 | hidden is exactly what is below a folded node, although hidden ones are skipped |
| MapView.FoldedMore | web/netmap.js:937 | skipping a hidden node loses nothing |
| PartLoops.DropsAgree | web/netmap.js:267-278 | a part of the nodes loses the links the whole loses exactly when each loop still whole is first entered where it was |
| MapView.FoldingRestricts | web/netmap.js:938-939 | loops or not: the forest of what stays visible is the restriction of the full one exactly when its whole loops are first entered where they were |
| MapView.FoldingMovesRoot | web/netmap.js:938-939 | three nodes with a loop, where folding the third away moves the root from one node of the loop to the other |
| MapView.DrawnForest | web/netmap.js:930-939 | the forest that is drawn, for any entries and any stored folds, and when it is the full one with clusters folded: always, if nothing depends on itself |
| MapView.ToggleFolded | web/netmap.js:1349-1356 | folds or unfolds one node and touches no other |
| MapView.ToggleTwice | web/netmap.js:1349-1356 | toggling twice folds the same nodes as before; the list itself is as before exactly from an unfolded node, or from a folded one that is its last |
| Arrange.PlaceTree | web/netmap.js:715-740 | places a whole tree, each node as the nodes above it determine |
| Arrange.ArrangePositions | web/netmap.js:709-750 | every node the layout placed gets one place, as the nodes above it determine; one no walk comes to stays where it is |
| Arrange.FollowStep | web/netmap.js:728-734 | a node without a place keeps its turned offset from the one above |
| Arrange.GroupMovesRigidly | web/netmap.js:728-734 | a stored node's group is the layout's own, turned about that node and set down where it is |
| Arrange.TurnsAreTurns | web/netmap.js:720-738 | every turn used is a rotation |
| Arrange.DistancesKept | web/netmap.js:728-734 | within a group all distances are the layout's |
| Arrange.StoredIsKept | web/netmap.js:719-720 | a stored node is drawn exactly at its stored place |
| Arrange.DrawnAs | web/netmap.js:735-749 | a node is drawn on the page where its place in cells says, and marked stored and pinned exactly when it is |
| Arrange.NothingToFollow | web/netmap.js:709-740 | one with nothing above it to follow is not turned: it is where it is stored, or where the layout put it |
| Arrange.NeverMirrored | web/netmap.js:728-734 | seen from the node it follows, what the layout has on one side stays on that side |
| Arrange.GroupFacesAway | web/netmap.js:723-727 | a moved node's group faces the way it now hangs |
| Arrange.NothingStoredIsAuto | web/netmap.js:735-738 | with nothing stored the result is the automatic layout |
| Tidying.CarriedBy | web/netmap.js:752-759 | exactly the nodes below with no pin in between, each once |
| Tidying.CarriedByOne | web/netmap.js:752-759 | no node is carried by two pins |
| Tidying.Unpin | web/netmap.js:1358-1366 | the pin and the places of what it carried go; every other pin stays |
| Tidying.BestOf | web/netmap.js:792-800 | the turn chosen has the fewest clashes of those tried, and is the first such |
| Tidying.BestIsNoWorse | web/netmap.js:792-800 | the first turn tried is none, so the one chosen gives no more clashes than leaving the group as it is |
| Tidying.TidyingNeverAddsClashes | web/netmap.js:780-807 | a step of the tidy-up leaves its group overlapping no more of the others than before |
| Tidying.CountClashes | web/netmap.js:796-797 | counting pair by pair gives the number of overlapping pairs |
| Tidying.ChooseTurn | web/netmap.js:792-800 | stopping at the first clear turn gives that same choice |
| Tidying.TidyNode | web/netmap.js:780-807 | one node of the walk: its group given the first turn that overlaps least, and remembered if it turned |
| Tidying.StepTakesTurn | web/netmap.js:779-807 | told without counting clashes: the group takes the first of the turns that leaves fewest of its nodes on top of what it is kept clear of, and everything else stays |
| Tidying.KeptToTenths | web/netmap.js:798-803 | a place is remembered in cells to the nearest tenth, and not as a pin |
| Tidying.WalkIsTopDown | web/netmap.js:768-809 | the walk is from the top down: a node, then each child's tree in turn, one tree after another |
| Tidying.TidyUnpinned | web/netmap.js:768-809 | the whole tidy-up |
| Tidying.TidyKeepsPins | web/netmap.js:761-766 | every pin stays unchanged; only carried nodes are given places |
| Tidying.TidyTwice | web/netmap.js:761-766 | tidying again changes nothing |
| Redraw.RedrawnWhereLeft | web/netmap.js:709-809 | drawing again with the places a tidy-up gives: what it turned is where it was left, to a tenth of a cell; a node it did not turn is where it was left exactly if what it follows still hangs in the same direction, or the layout has the two in one place |
| Keyed.Container.KeepFirstOfEachKey | web/components.js:985-989 | keeps the first child of each key and takes out the rest |
| Keyed.Container.MatchItems | web/components.js:990-1009 | what is shown for each item: the kept element, its swap, or a new one; duplicates are skipped |
| Keyed.Container.RemoveLeft | web/components.js:1010 | takes out exactly the elements no item asked for |
| Keyed.WhoMoves | web/components.js:1011-1015 | an element is not at the cursor exactly when it overtakes a survivor |
| Keyed.StepStays | web/components.js:1013 | where the next element is at the cursor, nothing moves and the prefix grows |
| Keyed.StepMoves | web/components.js:1014 | elsewhere it is put before the cursor, and the prefix grows |
| Keyed.Container.PlaceInOrder | web/components.js:1011-1015 | the children become the target; only elements that overtake are moved |
| Keyed.Container.RenderKeyed | web/components.js:981-1018 | for any children and items: the elements there are at the end are the first item of each key, in order; each key keeps the element that had it; an element is moved exactly when it overtakes |
| Keyed.InOrderMovesNothing | web/components.js:1011-1015 | if the surviving keys keep their order no element moves |
| ConfigDocs.Bytes | cmd/gwatch-agent/configfile.go:216-243 | known keys in their order, then the others alphabetically |
| ConfigDocs.UnknownKeys | cmd/gwatch-agent/configfile.go:199-214 | exactly the keys nothing reads, sorted |
| ConfigDocs.ReadsBack | cmd/gwatch-agent/configfile.go:216-243 | reading what was written gives the document back, and each key is written once |
| ConfigDocs.WrittenOneWay | cmd/gwatch-agent/configfile.go:216-243 | a document has one written form |
| ConfigDocs.OthersByText | cmd/gwatch-agent/configfile.go:199-243 | in what is written known keys come first in their order, then the others in the order of their text |
| ConfigDocs.Disk.KeepConfigBackup | cmd/gwatch-agent/configfile.go:140-155 | the copy becomes the file exactly when that is whole, holds something and differs; nothing else changes |
| ConfigDocs.ConfigDoc.Save | cmd/gwatch-agent/configfile.go:249-264 | the file is written, then the copy; only the first has to work, and a failure changes nothing |
| ConfigDocs.LoadConfigDoc | cmd/gwatch-agent/configfile.go:97-132 | absent, blank, damaged with and without a copy, and whole files |
| ConfigDocs.WhatIsLoaded | cmd/gwatch-agent/configfile.go:97-132 | each case by itself: a whole file is read whatever the copy holds, a damaged one from a copy that can stand in, and what is no document never, even with a copy |
| ConfigDocs.LastLineCounts | cmd/gwatch-agent/configfile.go:199-243 | of several lines for one key the last counts, and a key without a line is not there |
| ConfigDocs.StoreToken | cmd/gwatch-agent/configfile.go:666-676 | loading afterwards gives the same document with the new token alone changed |
| CrashSafety.NextSteady | cmd/gwatch-agent/configfile.go:245-298 | what every step keeps, failed writes and power cuts inside any write included: the agent presents what a restart would load, but while it writes the copy of what it saves |
| CrashSafety.RunSteady | cmd/gwatch-agent/main.go:831-833 | so it holds in every state of every run, whatever was lost before |
| CrashSafety.CopyDecides | cmd/gwatch-agent/configfile.go:245-264 | in any run: no power cut in the write of the file can leave anything older than a given document to be read exactly when neither reading nor the copy gives anything older before |
| CrashSafety.SettingsSurvive | cmd/gwatch-agent/configfile.go:88-132 | as long as no write of the file is cut whose copy is older than what was committed by then, one of the two files is whole, and loading gives the last committed document or one whose save began later, which differs from the first in its token only |
| CrashSafety.NeverGoesBack | cmd/gwatch-agent/configfile.go:245-248 | what can be read at any moment of any run is never lost to something older, as long as from then on no write of the file is cut whose copy is older than that |
| CrashSafety.CopiesKeepAll | cmd/gwatch-agent/configfile.go:245-264 | in a run in which no write of the copy fails both hold wherever the power is cut |
| CrashSafety.FailedCopyGoesBack | cmd/gwatch-agent/configfile.go:249-264 | one save whose copy fails, then one power cut: an older document than the committed one is loaded |
| CrashSafety.TokensSurvive | cmd/gwatch-agent/checkin.go:434-441 | in every run, whatever was lost before: a restart would load the token presented exactly when the agent is not between the two writes of a save that changes it, and otherwise the replacement |
| CrashSafety.TokensSurviveCuts | cmd/gwatch-agent/configfile.go:245-264 | in every run: a power cut leaves the token a restart would load; in the write of the file that or its replacement, exactly when the copy holds one of the two |
| CrashSafety.TokenWindow | cmd/gwatch-agent/configfile.go:249-264 | any agent given a new token comes through a run to that moment |
| CrashSafety.WithoutKeepingAllIsLost | cmd/gwatch-agent/main.go:831-833 | two power cuts without the first copy leave nothing to read |
| Durations.DurationReadsBack | cmd/gwatch-agent/configfile.go:406-440 | every duration of whole seconds is read back as it was, negative ones included |
| Durations.WrittenInUnits | cmd/gwatch-agent/configfile.go:425-440 | a duration is written in the largest of hours, minutes and seconds it is a whole number of |
| Durations.PartsAddUp | cmd/gwatch-agent/configfile.go:406-423 | hours, minutes and seconds in one text are added up, the hour being 3 600 000 million nanoseconds |
| Durations.SignCounts | cmd/gwatch-agent/configfile.go:406-414 | a sign before a duration counts, and a lone zero needs no unit |
| Durations.ParseDuration | cmd/gwatch-agent/configfile.go:406-414 | nothing is read that 64 bits do not hold |
| Durations.BareSeconds | cmd/gwatch-agent/configfile.go:415-423 | a bare whole number, quoted or not, is so many seconds, as far as a duration goes; what is neither text nor a number is none |
| TokenRotation.AgentRuntime.TakeToken | cmd/gwatch-agent/checkin.go:414-444 | taken up only when acceptable, new, from the file, and saved; otherwise nothing changes; the token stays the one a restart reads |
| TokenRotation.AgentRuntime.Apply | cmd/gwatch-agent/checkin.go:383-386 | an answer without a token changes nothing |
| TokenRotation.AcceptedIsRedacted | cmd/gwatch-agent/checkin.go:263-276 | no token the agent would accept can be in its log |
| TokenRotation.AcceptableIsOneToken | cmd/gwatch-agent/checkin.go:263-276 | told without the rule: a token is acceptable exactly when redaction takes all of it for one token, it has no dash, and it has 16 to 128 characters |
| Redaction.ComesFrom | cmd/gwatch-agent/agentlog.go:65-72 | where in the text a piece of the result came from: from the text whole, or from the text up to a mark |
| Redaction.PassCleans | cmd/gwatch-agent/agentlog.go:65-72 | a pass leaves nothing of what it looks for and brings nothing back |
| Redaction.RedactSecrets | cmd/gwatch-agent/agentlog.go:63-72 | of all that is looked for nothing is left that a mark cannot be part of; if that is all, redacting again changes nothing; where no token given is in the text, what has the shape of one is taken out as the members below say |
| Redaction.TokenTakenWhole | cmd/gwatch-agent/agentlog.go:61-72 | of anything in the shape of a token, however long, no character is left but the prefix |
| Redaction.FirstTokenGoes | cmd/gwatch-agent/agentlog.go:61-72 | the first in a text is taken out to its very end, and what comes after is a text of its own |
| Redaction.NoTokenNoChange | cmd/gwatch-agent/agentlog.go:61-72 | a text without one stays as it is |
| Redaction.ClassIsAlphabet | cmd/gwatch-agent/agentlog.go:61 | a token goes on over letters, digits, underscores and dashes, and ends at anything else |
| Redaction.SecretsTakenWhole | cmd/gwatch-agent/agentlog.go:63-72 | whatever tokens were given before, what is left in the shape of one is taken out whole |
| Redaction.FirstValueGoes | cmd/gwatch-agent/agentlog.go:65-70 | of a token given by value the first place goes, and what comes after is a text of its own |
| Redaction.NoValueNoChange | cmd/gwatch-agent/agentlog.go:65-70 | where it is not in a text nothing goes |
| Redaction.RedactedInTurn | cmd/gwatch-agent/agentlog.go:65-71 | the tokens given are taken out in turn, those shorter than eight characters not at all, and what has the shape of one last |
| Redaction.RedactedHoldsNoToken | cmd/gwatch-agent/agentlog.go:63-72 | a token a mark cannot be part of is nowhere in the result, whatever other tokens are given, nor is anything in the shape of one |
| Redaction.RedactionChangesOnlyTokens | cmd/gwatch-agent/agentlog.go:63-72 | text with nothing in it to take out is left alone, whatever the tokens; where none of them overlaps the mark all other text is changed |
| ComingBack.TokensThatComeBack | cmd/gwatch-agent/agentlog.go:63-72 | given among some tokens, a token can be read in the redaction of some text exactly when it holds nothing in the shape of one and overlaps the mark |
| ComingBack.LoneTokensThatComeBack | cmd/gwatch-agent/agentlog.go:63-72 | the same for a token that is the only one given, where an end like the mark counts only if one pass can put the mark there |
| ComingBack.BracketAtBothEnds | cmd/gwatch-agent/agentlog.go:63-72 | one that tells the two apart: taken out of every text when it is the only token, but not among others |
| ComingBack.RedactedOnceForAll | cmd/gwatch-agent/agentlog.go:63-72 | for a token given alone redacting again never changes anything exactly when the token never comes back or is the replacement text |
| ComingBack.ListsSettle | cmd/gwatch-agent/agentlog.go:63-72 | for any number of tokens each of which does not overlap the mark, is the mark, or holds something in the usual form, redacting again changes nothing |
| ComingBack.TokensThatSettle | cmd/gwatch-agent/agentlog.go:63-72 | those are the only tokens of which that can be said: any other, given among some of them, makes redacting some text again change it |
| Redaction.RedactedGrowth | cmd/gwatch-agent/agentlog.go:71 | redaction lets text grow by nine tenths at the most |
| Redaction.RedactedInPieces | cmd/gwatch-agent/agentlog.go:115 | lines redacted one at a time are the text redacted at once |
| Text.TrimIs | cmd/gwatch-agent/agentlog.go:67 | trimming takes white space off both ends, and all that is there |
| AgentLog.CappedLog.Write | cmd/gwatch-agent/agentlog.go:100-119 | the files after a write, whatever the rename, the open and the disk do: when the log is full and the rename works, agent.log.1 is what agent.log was |
| AgentLog.FilesAreTheEnd | cmd/gwatch-agent/agentlog.go:100-119 | the size is the file's length; agent.log is the end of what was written, and with agent.log.1 before it as long as renames work |
| AgentLog.EnoughIsKept | cmd/gwatch-agent/agentlog.go:100-119 | while renames work and no write is longer than some length: the files hold all there ever was, or agent.log.1 is a full log, less than that length short of the limit |
| AgentLog.SizeIsCapped | cmd/gwatch-agent/agentlog.go:106-117 | after a write the file is no longer than the limit, or the write, and what redaction added |
| AgentLog.FailedRenameLosesLines | cmd/gwatch-agent/agentlog.go:108-114 | after a failed rename the two files are the end of what was written exactly when agent.log.1 alone was so before |
| AgentLog.FilesTellWhatIsLost | cmd/gwatch-agent/agentlog.go:108-114 | if no rename failed before, exactly when the two files together end with what agent.log.1 holds |
| AgentLog.DifferentLinesAreLost | cmd/gwatch-agent/agentlog.go:108-114 | two different lines, one in each file, for which they are not |
| AgentLog.SeamsDecide | cmd/gwatch-agent/agentlog.go:100-119 | for any writes, cut short or not: the files hold no token all along a run exactly when they held none at first and no seam makes one |
| AgentLog.CutShortJoins | cmd/gwatch-agent/agentlog.go:115 | from no log at all, a write cut off after the prefix and a line that goes on like a token make one |
| AgentLog.FilesHoldNoTokens | cmd/gwatch-agent/agentlog.go:20-24 | from redacted files on, while whole lines are written in full, the two files hold no token, the seam between them included, even when renames or opens fail |
| AgentLog.FilesEndTheText | cmd/gwatch-agent/agentlog.go:100-119 | as long as renames and opens work too they are the end of the redaction of everything logged |
| Collector.WantedIs | cmd/gwatch-agent/collector.go:143-155 | one check per valid id, up to the limit |
| Collector.LastOneWins | cmd/gwatch-agent/collector.go:145-155 | of two definitions of an id read before the limit, the later counts |
| Collector.WantedFromRead | cmd/gwatch-agent/collector.go:143-155 | checks are read in order until the limit is reached; of what was read every valid id is wanted, with its last valid definition |
| Collector.CollectorRunner.Choose | cmd/gwatch-agent/collector.go:143-155 | stopping at the limit gives that choice |
| Collector.CollectorRunner.StopUnwanted | cmd/gwatch-agent/collector.go:158-166 | exactly the jobs that are not wanted, or wanted differently, are cancelled |
| Collector.CollectorRunner.StartMissing | cmd/gwatch-agent/collector.go:167-176 | a new job for each definition that has none, no other touched |
| Collector.CollectorRunner.Assign | cmd/gwatch-agent/collector.go:127-183 | the jobs not cancelled are exactly those of the table, one per wanted check; a job with an unchanged definition is the same job; none without an assignment |
| Collector.AnsweredIsSound | cmd/gwatch-agent/collector.go:127-183 | an answer keeps the table right: the jobs not cancelled are those of the table, each under its own id |
| Collector.EveryTableIsSound | cmd/gwatch-agent/collector.go:127-183 | so it is right after any sequence of check-ins |
| Collector.RunsWhatWasAsked | cmd/gwatch-agent/collector.go:127-183 | of all jobs ever started those not cancelled are one for each check the last answer asked for, with its definition |
| Collector.UnchangedIsNotRestarted | cmd/gwatch-agent/collector.go:158-162 | a check every answer defines alike is one job all along |
| JobPool.StepKeepsSound | cmd/gwatch-agent/collector.go:213-248 | every step of every job keeps slots and running checks equal |
| JobPool.EveryRunIsSound | cmd/gwatch-agent/collector.go:213-248 | in every interleaving the checks running are the slots taken, eight at most |
| JobPool.OnlyCancelledJobsEnd | cmd/gwatch-agent/collector.go:213-248 | in every run a job goes on for as long as it is not cancelled |
| JobPool.RoundAgain | cmd/gwatch-agent/collector.go:213-248 | where a slot is free, a job left alone waits, takes it, runs its check, gives the slot back, delivers, and all is as it was |
| JobPool.CancelledDoesLittle | cmd/gwatch-agent/collector.go:214-246 | a cancelled job begins one more check at most and delivers one more result at most |
| JobPool.CancelledEnds | cmd/gwatch-agent/collector.go:214-246 | each step of a cancelled job brings it nearer its end: four at most |
| JobPool.CancelledCanAlwaysEnd | cmd/gwatch-agent/collector.go:214-246 | nothing can keep a cancelled job from ending |
| JobPool.CancelledMayRunOnceMore | cmd/gwatch-agent/collector.go:219-246 | both bounds are met by one run |
| Ticks.FloorLog10 | web/charts.js:31 | the whole part of the decimal logarithm |
| Ticks.NiceNumIs | web/charts.js:30-37 | a one, two or five with zeros, within two thirds and five thirds, or from one to two and a half times |
| Ticks.NiceNumExactly | web/charts.js:30-37 | exactly which: rounded, 1 below 1.5, 2 below 3, 5 below 7, else 10; rounded up, the least of them that is not below |
| Ticks.StepsCounted | web/charts.js:42-48 | how many steps fit: fewer than one and a half times what was asked plus two, and not far too few |
| Ticks.PlaceTicks | web/charts.js:44-49 | the ticks are all the multiples of the step from the last not above the range to the first not below it |
| Ticks.NiceTicks | web/charts.js:39-51 | evenly spaced ticks at multiples of the round step meant for the range, that cover it with less than a step over at each end, fewer than 1.5(n - 1) + 3 |
| ChartPlan.GroupByUnits | web/charts.js:134-143 | the groups, a chart's worth of units at a time in order of first appearance |
| ChartPlan.UnitsInOrder | web/charts.js:135-136 | units are listed in the order in which series first name them |
| ChartPlan.GroupsAreStretches | web/charts.js:134-143 | the groups are the stretches of that list, a chart's worth each, with all the series of their units |
| ChartPlan.EachInOneGroup | web/charts.js:126-143 | every series is in exactly one group |
| ChartPlan.GroupsAreFew | web/charts.js:139-141 | no more groups than the units need |
| ChartPlan.LineChart.SetData | web/charts.js:242-252 | the units in order of first appearance, and each series' axis: left for the first unit, right for any other |
| ChartPlan.AxesTellUnitsUpToTwo | web/charts.js:244-249 | series share an axis exactly when they share a unit, if and only if there are at most two units |
| ChartPlan.ChartAgreesWithGroup | web/charts.js:242-246 | the chart works out the group's own units again, in the same order |
| ChartPlan.EverySeriesOnce | web/chart-config.js:738-744 | every series is on exactly one chart, however they are split |
| ChartPlan.ChartsInOrder | web/chart-config.js:738-744 | the charts of what belongs together follow one another, before those of what is first met later |
| ChartPlan.KeysTell | web/chart-config.js:735-741 | series belong together exactly when they are of one check, or of one node, as the split says |
| ChartPlan.EveryChartIsReadable | web/chart-config.js:735-744 | no chart is empty or has three units, its series all belong together by what the charts are split by, and its axes tell units apart |
| SeriesConfig.NormalizeSeries | web/chart-config.js:94-110 | the clean list, first of each key |
| SeriesConfig.KeyTellsApart | web/chart-config.js:88-91 | two clean series have one key only if they are the same: an OID called avg is not the latency |
| SeriesConfig.NormalizedIs | web/chart-config.js:93-110 | exactly the series that can be made clean, each once |
| SeriesConfig.CleanedIs | web/chart-config.js:93-110 | which stored series can be made clean, and what becomes of one: its check, its metric or the latency, and whether the metric is the check's own |
| SeriesConfig.SeriesInOrder | web/chart-config.js:93-110 | series stay in the order in which they first appear |
| SeriesConfig.NormalizedTwice | web/chart-config.js:93-110 | cleaning again changes nothing |
| Versions.CompareVersions | web/fmt.js:369-387 | the comparison part by part |
| Versions.CompareTellsOlder | web/fmt.js:376-387 | -1 exactly when the first is the older: the first part that differs is smaller, or none differs and it has a suffix that comes before the other's as text, or the other has none; 1 the other way round |
| Versions.BehindIsOlder | web/fmt.js:390-397 | an agent is behind exactly when both are versions and its own is the older |
| Versions.ZerosDoNotCount | web/fmt.js:378-381 | a missing part is a zero |
| Versions.WhatIsAVersion | web/fmt.js:370-375 | a version is one line that begins with a digit, or a v and a digit, white space round it apart |
| Text.ComparesAsText | web/fmt.js:387 | texts are compared at the first character in which they differ, and a beginning comes first |
| Text.WorthJoined | web/fmt.js:374 | each digit counts ten times what the one after it does |
| Versions.CompareIsOrder | web/fmt.js:361-387 | swapping turns the answer round; 0 exactly on equal padded numbers and suffix, or when one is no version |
| Versions.CompareIsTransitive | web/fmt.js:361-387 | the order goes through any version, strictly where the ends are versions too |
| Versions.OrderGoesThroughVersions | web/fmt.js:376-377 | strings in order by way of a third are in order themselves exactly when the third is a version |
| Versions.BehindIsStrict | web/fmt.js:390-397 | being behind is a strict order on everything an agent may report |
| Versions.ReleaseAfterItsCandidates | web/fmt.js:382-385 | a release ranks above its own numbers with any suffix |
| Versions.VersionReadsBack | web/fmt.js:370-375 | a written version is read back, with or without the v |

## Left out

- The clusters layout (`layoutClusters`): its places are taken as given wherever arranged positions start from a layout.
- Drawing, dragging, zooming, tips, help, wallboards, routing and the in-browser mock: user interface.
- Local-time axis ticks and the day arithmetic of timestacks: they depend on the platform's calendar.
- HTTP, TLS, service managers, packaging, command lines and listener rebinding: input and output.
- The queue of held readings and results, and delivery of results to the server.
- Floating point: reals and exact integers stand for it. Rounding a stored place to a tenth is modelled; `toFixed(10)` on ticks and the precision of very long version parts are not.
- Null nodes, entries without a node and nodes without an id: skipped before the model starts.
- JSON text: a file holds whole lines of keys and values, or is absent, blank, zeros, cut short or otherwise unreadable; a value is an opaque token.
- Angles: `dir` stands for the direction `atan2` gives, and a tidy-up is given its list of turns, the first being none.
- Durations.BareSeconds: takes the product with a second as exact, where the source multiplies in floating point, which it is up to about 4.6 thousand million seconds.
- Fractions in durations ("1.5h", 0.5) and durations that are not whole seconds.
- CrashSafety.SettingsSurvive: an edit of agent.json by hand while the agent runs is not a step.
- The older agent's separate token file that `storeToken` keeps in step (configfile.go:677-683).
- Check-in intervals, collection settings and inventories in `apply`: independent of the token.
- State kept between two runs of a check (content hash and value), time-outs and the spread of first runs in `runJob`.
- Collector.CollectorRunner.Assign: whether a definition is valid and its text are taken from the definition as given; `Validate` and `definitionKey` are not looked into.
- The focus a browser drops while `renderKeyed` moves an element; an `update` that returns the same element counts as returning none.
- Keyed.Container.RenderKeyed: counts moves from an empty record (`moved == {}`), which is bookkeeping the page does not have.
- Ticks.NiceTicks: asks for min ≤ max and at least two ticks, because for anything else the source computes with NaN or divides by zero.
- White space outside ASCII in trimmed text, and characters outside the basic plane in compared suffixes.
- Redaction.RedactSecrets: promises a clean result only for tokens no mark can be part of; `ComingBack.TokensThatComeBack` shows that no more can be promised, but for those with something in the usual form in them. When redacting again changes nothing is said by `ComingBack.ListsSettle` and `ComingBack.TokensThatSettle`, not for each list with several tokens the mark overlaps.
- Redaction.RedactionChangesOnlyTokens: says nothing about which texts a list holding the replacement text, or part of it, leaves unchanged by putting back what it took out.
- ChartPlan.LineChart.SetData: leaves out the order of points within a series, the colours, the time range and the stops the arrow keys move between.
- Defaults and clamps of `normalizeChartConfig` other than its list of series; check ids that are not whole numbers.
