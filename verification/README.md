# Cloonix client: what its data structures and its geometry keep

A Dafny model of the stateful core of the cloonix clients, with proofs. Each
group of modules follows one part of the program.

**The hyperzor path cache** (`PathText`, `TreeStore`, `HyperStore`,
`StoreInvariants`, `StoreRelease`, `StoreLookup`, `StoreKinds`, `StoreNames`,
`StoreRuns`, `StoreStale`, `Hyperzor`).
Nets with their virtual machines, satellites and lans are held twice: as
head-inserted lists and as rows of a GTK tree. Every record caches the printed
path of each row it owns, and a click is resolved by raw string-prefix tests
against these caches, so that `"1"` also matches `"10:2"`. Proved: which rows
such a test can confuse, that the order of the lists makes the first match the
right one, that a click returns what the captions of the tree show, what every
run of additions and releases keeps, and exactly which releases spoil the cache.

**The blink registry** (`BlinkLists`, `BlinkRegistry`, `BlinkBatch`). Entries
are threaded on a hash chain and on a global list at once, created and deleted
by timers, with a tombstone in between. Lookup stops at the first entry with
the name and only then looks at the tombstone. Proved: lookup means "the entry
of that name that is not dying" in every reachable state, the links stay right
through every insertion and removal, and each batch of counters alone
determines what blinks.

**The canvas** (`Affine`, `ItemTree`, `DamageReport`, `WalkResults`, `ItemWalk`,
`Viewport`, `ZoomLaws`, `AspectLaws`, `Panner`). Recursive walks over a tree of items that carry affine
matrices: painting with culling, looking up an item, reporting damage, zooming,
centring and dragging. Matrices are six reals with a proved group library.
`WalkResults` says item by item what the walks paint, report, pick and leave.
`ItemWalk` and the classes in `Viewport` and `Panner` change their state in
place and are proved against the functions and laws of the other modules.

**Slot tables** (`ResponseSlots`, `ProcessTable`). The multiplexer of replies
that keeps a slot number in the top byte of a request number, and the table of
launched processes with its high-water mark, both under callbacks that come
back into the table.

**Layout synchronisation** (`LayoutSync`). The cache of layouts last exchanged
with the server, the periodic comparison, and the receive path.

**Warnings** (`TextLines`, `PopupQueue`). Two rings of a thousand warnings, the
popup that shows the flagged ones one by one, and the history window, whose
text is cut to its last thousand lines after every append.

**Force layout** (`ForceLayout`). The repulsion pass over a connected group and
the step from force to movement.

`Options` holds the `Option` datatype, `Sequences` two notions on sequences that
several modules share.

## Where the code differs from its intent

* Releasing the last member of a category removes the category's title row but
  refreshes only members of that category (store.c:528-532, 553-557, 578-582).
  When another title row follows, that row and those below it move up while
  their records keep the old paths. `StoreRuns.ReleaseResolves` gives the exact
  condition for one release and `StoreStale.EveryRunExact` for whole runs,
  `StoreRuns.SpoilingRun` a run that goes wrong, and
  `StoreRelease.FreeNetRepairs` what restores the cache. The row that takes the
  vacated place is lost (`StoreRuns.HarmfulLosesRow`); a row behind it resolves
  to another one (`StoreStale.Misnamed`).
* The documentation of `cr_canvas_zoom` promises that without centre
  maintenance the upper left point stays where it is, and that the centre stays
  when only auto-scaling is set (cr-canvas.c:1916-1921). The code only scales
  the root matrix. `ZoomLaws.ZoomUncentred` says exactly when a point stays,
  `ZoomLaws.CornerLost` gives an example where the corner does not.
* `cr_canvas_center_scale` measures each axis "as if there was no rotation"
  (cr-canvas.c:1792-1801). Where the root matrix has a zero on its diagonal, as
  when turned by a quarter, a measure is zero, the new root is singular and the
  requested centre is lost. `ZoomLaws.CentreReadBack` gives the exact condition
  on the limited factors, `ZoomLaws.DiagonalDecides` on the root itself when
  nothing is limited, `ZoomLaws.QuarterTurn` the case of a quarter turn, and
  `ZoomLaws.LimitsKeepCentre` shows that a positive smallest scale, as the
  program sets one, rules it out.
* With the aspect kept, `cr_canvas_center_scale` promises an equal or larger area
  than requested (cr-canvas.c:1770-1772), and the canvas means to show more area
  or, with `show_less`, less on a resize (cr-canvas.c:759-769). The code takes the
  factor nearer to 1, which is the smaller one only when the two together are
  more than 2. `AspectLaws.AspectShows` and `AspectLaws.MoreArea` give the exact
  conditions, `AspectLaws.AspectShowsLess` a request that shows half the height.
* The history window is to show the last thousand warnings. It is cut to a
  thousand lines (popup.c:122-127), and the empty line behind the last line end
  is one of them, so that a full ring lists 999 warnings of one line each.
  `PopupQueue.HistoryListed` gives the exact condition, `PopupQueue.ShownLast`
  what is shown instead, and `PopupQueue.ThousandWarnings` the first case.
* A received layout for a cached satellite is not sent back, except when the
  message carries end points that a satellite without ends does not have;
  `LayoutSync.NoEcho` gives the exact condition, `LayoutSync.FarEndEchoed` a
  message that comes back, and `LayoutSync.PeerNotEchoed` shows that a peer
  running the same program sends none.
* `insert_next_warning` means to add a newline only when one is missing, but
  looks at the terminating zero (popup.c:326), so that it always adds one.
  `PopupQueue.LinesIntended` says for which texts that is what is meant,
  `PopupQueue.BlankLines` what the others cost the window, and
  `PopupQueue.BlankLineShown` shows one.
* The high-water mark of the process table stays where it was when the last
  slot in use is the one at the mark (pid_clone.c:281-286), and a later launch
  below it does not correct it. `ProcessTable.FreeMark` and
  `ProcessTable.LaunchMark` say exactly when the mark is the largest slot in
  use, `ProcessTable.StaleMark` is a run after which it is not. It is always an
  upper bound, which is all that the scans need.

## Model

| member | source | states |
|---|---|---|
| PathText.DecimalPrefix | cloonix/client/hyperzor/src/store.c:239-246 | a printed index that is a string prefix of another one is never the larger number |
| PathText.PrefixMeaning | cloonix/client/hyperzor/src/store.c:96-246 | what a prefix test between two printed paths says about them: all components but the last agree, the last is no larger, and equal digit counts make it the ancestor |
| PathText.AncestorPrefix | cloonix/client/hyperzor/src/store.c:96-246 | the printed path of a row is a proper string prefix of the path of every row below it, so the test never misses an ancestor |
| PathText.TextInjective | cloonix/client/hyperzor/src/store.c:335-343 | different rows never print the same path |
| PathText.TextLength | cloonix/client/hyperzor/src/store.c:335-343 | a row four levels deep prints in at most 43 characters for any 31-bit indices, so the 64-byte cache field never truncates |
| PathText.DecimalValue | cloonix/client/hyperzor/src/store.c:335-343 | a printed index read back digit by digit is the index |
| PathText.TextSnoc | cloonix/client/hyperzor/src/store.c:335-343 | a row prints as its parent does, with a colon and its own index behind |
| TreeStore.AppendPath | cloonix/client/hyperzor/src/store.c:414-427 | adding a leaf moves no existing row |
| TreeStore.RemovePath | cloonix/client/hyperzor/src/store.c:430-435 | removing a row moves no row outside its parent |
| TreeStore.RemoveOk | cloonix/client/hyperzor/src/store.c:430-435 | removing a row with everything below it leaves a well-formed tree |
| TreeStore.RemoveAbsorb | cloonix/client/hyperzor/src/store.c:605-625 | removing rows below a row first makes no difference to removing the row |
| StoreInvariants.AllocNetKeeps | cloonix/client/hyperzor/src/store.c:587-634 | a new net keeps lists and tree in step (reversed order, counts, title rows) and every cached path right |
| StoreInvariants.AllocMemberKeeps | cloonix/client/hyperzor/src/store.c:438-505 | so does a new member of any category, whether or not it brings its title row |
| StoreRelease.FreeMemberShape | cloonix/client/hyperzor/src/store.c:508-584 | releasing a member keeps lists and tree in step: reversed order, counters equal to both lengths, a title row exactly for a nonzero count |
| StoreRelease.LastOfCategorySids | cloonix/client/hyperzor/src/store.c:528-532 | releasing the last member of a category keeps the net's cached paths right if and only if its title was the last row of the net |
| StoreRelease.FreeMemberAgree | cloonix/client/hyperzor/src/store.c:508-584 | over the whole store: a release keeps all cached paths right if and only if it is not one that empties a category whose title is followed by another |
| StoreRelease.FreeNetForm | cloonix/client/hyperzor/src/store.c:605-672 | the release loops of a net end, and together they remove exactly the net's row with all below it and refresh every remaining record |
| StoreRelease.FreeNetRepairs | cloonix/client/hyperzor/src/store.c:389-411 | from any state with lists and tree in step, however stale the caches, releasing a net makes every cached path right |
| StoreLookup.Locate | cloonix/client/hyperzor/src/store.c:414-505 | every row of the tree is owned by some record: its net, graph, kill, title, member or action row |
| StoreLookup.NetMatchAt | cloonix/client/hyperzor/src/store.c:235-259 | descending tree order of the net list makes the first raw prefix match the exact one, for any number of nets |
| StoreLookup.MemberMatch | cloonix/client/hyperzor/src/store.c:96-158 | the same inside a category, for any number of members |
| StoreLookup.OtherCategory | cloonix/client/hyperzor/src/store.c:187-230 | a category whose row was not clicked never captures the click |
| StoreLookup.LookupPlace | cloonix/client/hyperzor/src/store.c:235-259 | the walk resolves the path of every place of the store to that place's kind, net and name |
| StoreLookup.LookupExact | cloonix/client/hyperzor/src/store.c:235-259 | while the cached paths are right, the path of any row of the tree resolves to exactly the record that owns the row |
| StoreKinds.PlaceShown | cloonix/client/hyperzor/src/store.c:96-230 | the kind and names of each record are those that the captions on its row and on the rows above it show |
| StoreKinds.LookupShows | cloonix/client/hyperzor/src/store.c:235-259 | while the cached paths are right, a click on a row returns spice, ssh, sys, kil, a title or a member exactly for the rows with those captions, and the names on its net's and its member's row |
| StoreNames.AllocNetNames | cloonix/client/hyperzor/src/store.c:587-634 | a new net fails if and only if its name is in use, and otherwise stands, without members, before the others, which stay |
| StoreNames.AllocMemberNames | cloonix/client/hyperzor/src/store.c:438-505 | a new member fails if and only if no net has the name, and otherwise stands before the members of its category in that net; all else stays |
| StoreNames.FreeMemberNames | cloonix/client/hyperzor/src/store.c:508-584 | a release succeeds if and only if the net of the name lists a member of the name in the category, and takes exactly the first one out, the others in order |
| StoreNames.FreeNetNames | cloonix/client/hyperzor/src/store.c:605-672 | releasing a net fails if and only if no net has the name, and otherwise leaves the others with their members |
| StoreRuns.HarmfulLosesRow | cloonix/client/hyperzor/src/store.c:528-532 | after a release that empties a followed category, the row that now has the path of the removed title resolves to nothing |
| StoreRuns.ReleaseResolves | cloonix/client/hyperzor/src/store.c:508-584 | a release leaves every remaining row resolvable if and only if it is not of that kind |
| StoreRuns.RunKeeps | cloonix/client/hyperzor/src/store.c:438-700 | every run of additions and releases keeps lists and tree in step, and the caches right wherever no spoiling release was left unrepaired |
| StoreRuns.EveryRun | cloonix/client/hyperzor/src/store.c:438-700 | so from the empty store, after any run without such a release, every row resolves to its record |
| StoreRuns.SpoilingRun | cloonix/client/hyperzor/src/store.c:508-534 | a machine and a satellite are added to a net and every row resolves; releasing the machine leaves a row that does not |
| StoreStale.OldPathsStay | cloonix/client/hyperzor/src/store.c:235-259 | after the last member of a category was released, every path outside the category still resolves to what stood there before, whatever stands there now |
| StoreStale.Misnamed | cloonix/client/hyperzor/src/store.c:528-532 | when two titles follow the emptied category, a click on the second names the first |
| StoreStale.MisnamedMember | cloonix/client/hyperzor/src/store.c:528-532 | and a click on a member below it names the member of the first with the same place |
| StoreStale.MarksDecide | cloonix/client/hyperzor/src/store.c:235-259 | in a store whose moved titles are marked, every row resolves to its record if and only if no title is marked |
| StoreStale.RunMarked | cloonix/client/hyperzor/src/store.c:438-700 | over any run the marks are kept exactly: a release that empties a category marks the later titles of its net and drops its own, the release of a net drops all |
| StoreStale.EveryRunExact | cloonix/client/hyperzor/src/store.c:438-700 | after any run from the empty store every row resolves if and only if no title is left that moved since it was refreshed |
| Hyperzor.HyperzorStore.NetAlloc | cloonix/client/hyperzor/src/store.c:587-634 | the list and tree updates in place give the store the proofs speak of, by names and in full; exactly a name in use is fatal |
| Hyperzor.HyperzorStore.MemberAlloc | cloonix/client/hyperzor/src/store.c:438-505 | likewise for a member; exactly an unknown net is fatal |
| Hyperzor.HyperzorStore.MemberFree | cloonix/client/hyperzor/src/store.c:508-584 | likewise for a release, wherever the member stands in its list; exactly an unknown net or member is fatal |
| Hyperzor.HyperzorStore.FreeAll | cloonix/client/hyperzor/src/store.c:605-625 | the loop that releases the head until a category is empty ends and does what releasing them one by one does |
| Hyperzor.HyperzorStore.NetFree | cloonix/client/hyperzor/src/store.c:605-672 | releasing a net in place takes exactly that net out and ends with all cached paths right |
| Hyperzor.HyperzorStore.Recompute | cloonix/client/hyperzor/src/store.c:346-385 | the loop renews every member's paths and changes nothing else |
| Hyperzor.HyperzorStore.FindNames | cloonix/client/hyperzor/src/store.c:235-259 | the loops over nets, categories and members compute the specified lookup, which for the path of a row returns what the row shows |
| Hyperzor.HyperzorStore.Clicked | cloonix/client/hyperzor/src/store.c:235-259 | a click on any row names the record that owns the row and returns what the row shows |
| BlinkLists.LiveUnique | cloonix/client/cairo_canvas/src/eventfull_eth.c:68-81 | there is never more than one live entry of a name |
| BlinkLists.FirstDecides | cloonix/client/cairo_canvas/src/eventfull_eth.c:68-81 | when the first entry of a name in its chain is dying, no entry of that name is live |
| BlinkLists.ChainWithout | cloonix/client/cairo_canvas/src/eventfull_eth.c:284-306 | removing an entry from the global list removes it at one place of its own chain |
| BlinkLists.OtherChain | cloonix/client/cairo_canvas/src/eventfull_eth.c:284-306 | and leaves every other chain as it is |
| BlinkLists.HashParts | cloonix/client/cairo_canvas/src/eventfull_eth.c:55-64 | the hash of a name is the exclusive or of its bytes |
| BlinkRegistry.Registry.Lookup | cloonix/client/cairo_canvas/src/eventfull_eth.c:68-81 | the first-match walk of a hash chain returns the entry of the name that is not dying, if there is one in the global list |
| BlinkRegistry.Registry.Link | cloonix/client/cairo_canvas/src/eventfull_eth.c:252-266 | insertion at the head of both lists keeps all links of all 256 chains and of the global list consistent, and the counter equal to its length |
| BlinkRegistry.Registry.Unlink | cloonix/client/cairo_canvas/src/eventfull_eth.c:284-306 | removal from both lists at once keeps them consistent and takes out exactly that entry |
| BlinkRegistry.Registry.ObjCreate | cloonix/client/cairo_canvas/src/eventfull_eth.c:271-281 | schedules one creation; a live entry of the name is fatal |
| BlinkRegistry.Registry.CreateFires | cloonix/client/cairo_canvas/src/eventfull_eth.c:236-268 | any pending creation may fire: it enters both lists with its interface count when the displayed item was found, and is fatal exactly when a live entry of the name exists by then |
| BlinkRegistry.Registry.ObjDelete | cloonix/client/cairo_canvas/src/eventfull_eth.c:311-321 | marks exactly the live entry of the name and gives it its one delete timer; an unknown or dying name changes nothing |
| BlinkRegistry.Registry.DeleteFires | cloonix/client/cairo_canvas/src/eventfull_eth.c:284-306 | any pending delete timer may fire: its entry leaves both lists, and no timer and no list refers to it any more, so it is freed once |
| BlinkBatch.Note | cloonix/client/cairo_canvas/src/eventfull_eth.c:172-190 | one record adds to the waiting bits of its entry exactly what that record calls for |
| BlinkBatch.Transfer | cloonix/client/cairo_canvas/src/eventfull_eth.c:85-126 | the displayed bits of an entry become those its records call for, and the waiting bits are cleared |
| BlinkBatch.Arrival | cloonix/client/cairo_canvas/src/eventfull_eth.c:154-193 | after a batch every entry's waiting bits are those of the batch; it is fatal exactly when a record of a live name has a number out of range |
| BlinkBatch.BlinkOnObj | cloonix/client/cairo_canvas/src/eventfull_eth.c:130-151 | every live entry of the global list shows the batch, dying ones are left alone |
| BlinkBatch.PacketsData | cloonix/client/cairo_canvas/src/eventfull_eth.c:197-205 | an interface shows rx or tx after a batch if and only if some record of that batch for its name and number had packets, whatever earlier batches were |
| Affine.ApplyMul | cloonix/client/cairo_canvas/crcanvas_gtk/cr-item.c:396-424 | multiplying matrices composes their action on points |
| Affine.MulAssoc | cloonix/client/cairo_canvas/crcanvas_gtk/cr-item.c:396-424 | matrix multiplication is associative |
| Affine.InverseLaws | cloonix/client/cairo_canvas/crcanvas_gtk/cr-item.c:108-113 | the inverse of an invertible matrix is a two-sided inverse |
| Affine.BackAndForth | cloonix/client/cairo_canvas/crcanvas_gtk/cr-item.c:108-113 | points and distances survive the way through a matrix and its inverse, both ways |
| Affine.EncloseContains | cloonix/client/cairo_canvas/crcanvas_gtk/cr-item.c:165-179 | the minimum and maximum over four transformed corners enclose the image of every point of the rectangle |
| Affine.EncloseLeast | cloonix/client/cairo_canvas/crcanvas_gtk/cr-item.c:165-179 | and no smaller upright rectangle does |
| ItemTree.TestInsideExact | cloonix/client/cairo_canvas/crcanvas_gtk/cr-item.c:564-574 | the culling test says exactly whether two upright rectangles share a point |
| ItemTree.PaintCovers | cloonix/client/cairo_canvas/crcanvas_gtk/cr-item.c:675-741 | an item at any depth below visible items, with a point of its bounds, recalculated ones if it is flagged, whose image lies in the requested rectangle, is painted |
| ItemTree.FindChildExact | cloonix/client/cairo_canvas/crcanvas_gtk/cr-item.c:396-424 | the search succeeds if and only if the item is in the tree, leaving the product along a path to it; otherwise the caller's matrix is what it was |
| ItemTree.PickItemReached | cloonix/client/cairo_canvas/crcanvas_gtk/cr-item.c:437-474 | the item picked by a position lies at the end of the path whose product is left in the context; with no item the context is restored |
| ItemTree.PickThenFind | cloonix/client/cairo_canvas/crcanvas_gtk/cr-canvas.c:989-1046 | in a tree without repeated items, looking the picked item up again gives the very matrix the pick left |
| DamageReport.DeliverContains | cloonix/client/cairo_canvas/crcanvas_gtk/cr-item.c:132-203 | a rectangle delivered above the root contains the image, under the composition of all matrices on the way, of every point of the reported bounds |
| DamageReport.DeliverPasses | cloonix/client/cairo_canvas/crcanvas_gtk/cr-item.c:146-153 | a report passes if and only if every item up to the first that needs an update is itself reporting |
| DamageReport.OldAllHeard | cloonix/client/cairo_canvas/crcanvas_gtk/cr-item.c:812-853 | in the old-bounds pass, the device hears every item with bounds that is flagged or below a flagged one, in order, and no other |
| DamageReport.RemoveAllHeard | cloonix/client/cairo_canvas/crcanvas_gtk/cr-item.c:784-807 | when a subtree is removed, the device hears all its items with bounds, whatever the flags of the ancestors |
| DamageReport.NewDamageCovers | cloonix/client/cairo_canvas/crcanvas_gtk/cr-item.c:855-909 | whatever a flagged visible item will show within its bounds, recalculated if they are due, at any depth, lies in damage reported by the new-bounds pass |
| DamageReport.OldDamageCovers | cloonix/client/cairo_canvas/crcanvas_gtk/cr-item.c:812-853 | wherever a flagged item was shown under the remembered matrices, at any depth, lies in damage reported by the old-bounds pass |
| DamageReport.SettledOk | cloonix/client/cairo_canvas/crcanvas_gtk/cr-item.c:855-909 | the new-bounds pass clears every flag of a visible tree and remembers every current matrix |
| DamageReport.OldMatchesNew | cloonix/client/cairo_canvas/crcanvas_gtk/cr-item.c:812-909 | however matrices and flags were changed since, each item reporting old bounds reports the rectangle a full report would have given at the end of the previous update |
| DamageReport.NextUpdateRepaintsOld | cloonix/client/cairo_canvas/crcanvas_gtk/cr-canvas.c:324-329 | across two updates of a canvas: every flagged item's old area is repainted, and it is the area of the previous update |
| DamageReport.OldImageRepainted | cloonix/client/cairo_canvas/crcanvas_gtk/cr-canvas.c:324-329 | the image of a flagged item's bounds under the matrices of the previous update, whatever was changed since, lies in the damage of the next one |
| WalkResults.PaintedTree | cloonix/client/cairo_canvas/crcanvas_gtk/cr-item.c:675-741 | painting gives every flagged item seen its recalculated bounds, clears the flag of every item reached, and changes no other field of any item |
| WalkResults.SettledTree | cloonix/client/cairo_canvas/crcanvas_gtk/cr-item.c:855-909 | reporting new bounds does the same and remembers the matrix of every item seen |
| WalkResults.PaintInOrder | cloonix/client/cairo_canvas/crcanvas_gtk/cr-item.c:675-741 | the items painted are exactly the visible ones that touch the requested rectangle, each once, parents first and kids from the first to the last |
| WalkResults.PaintAllDue | cloonix/client/cairo_canvas/crcanvas_gtk/cr-item.c:675-741 | none with an image point in the requested rectangle is missing |
| WalkResults.OldHeard | cloonix/client/cairo_canvas/crcanvas_gtk/cr-item.c:812-853 | the old-bounds pass is heard of exactly the items with bounds that are flagged or below a flagged one |
| WalkResults.NewHeard | cloonix/client/cairo_canvas/crcanvas_gtk/cr-item.c:855-909 | the new-bounds pass is heard of exactly the visible items, flagged or below a flagged one, that have bounds by then |
| WalkResults.PickTopmost | cloonix/client/cairo_canvas/crcanvas_gtk/cr-item.c:437-474 | the item picked accepts the position, takes part in the test with all above it, and is the one painted last of all that do; none is picked only if there is none |
| ItemWalk.Node.ReportOldBounds | cloonix/client/cairo_canvas/crcanvas_gtk/cr-item.c:812-853 | the walk over live items reports what the specification says and changes only the marks it resets |
| ItemWalk.Node.ReportNewBounds | cloonix/client/cairo_canvas/crcanvas_gtk/cr-item.c:855-909 | the walk reports what the specification says and leaves every item as the new-bounds pass should, bounds recalculated where due |
| ItemWalk.Node.Update | cloonix/client/cairo_canvas/crcanvas_gtk/cr-canvas.c:324-329 | the two passes in order: exactly the flagged items with bounds are heard, where they were shown and what they will show lies in the damage, and every item is left with its bounds up to date |
| ItemWalk.Node.InvokePaint | cloonix/client/cairo_canvas/crcanvas_gtk/cr-item.c:675-741 | the walk paints exactly the visible items that touch the rectangle, in order and with none missing, and leaves due bounds recalculated |
| ItemWalk.Node.FindBelow | cloonix/client/cairo_canvas/crcanvas_gtk/cr-item.c:396-424 | the search multiplies and divides the caller's matrix in place as specified, changing no item but its cached inverse |
| ItemWalk.Node.InvokeTest | cloonix/client/cairo_canvas/crcanvas_gtk/cr-item.c:437-474 | the pick does so in the drawing context, and finds the topmost item that accepts the position |
| Viewport.TranslateTo | cloonix/client/cairo_canvas/crcanvas_gtk/cr-canvas.c:1694-1731 | the translation all centring ends with puts the wanted user point on the wanted device point |
| Viewport.TranslateMoves | cloonix/client/cairo_canvas/crcanvas_gtk/cr-panner.c:50-70 | a translation by the user distance of d moves every device image by exactly d |
| Viewport.Canvas.CenterOn | cloonix/client/cairo_canvas/crcanvas_gtk/cr-canvas.c:1694-1731 | the requested user point, kept within the scroll region in a finite world, is displayed at the viewport centre, for any invertible root matrix |
| Viewport.Canvas.MaintainCenter | cloonix/client/cairo_canvas/crcanvas_gtk/cr-canvas.c:722-745 | after a resize the user point of the old centre is at the new centre, and every image moved by half the growth |
| Viewport.Canvas.AutoScale | cloonix/client/cairo_canvas/crcanvas_gtk/cr-canvas.c:772-818 | scaling to a new widget size keeps the centre, or the upper left point when the centre is not maintained; without the aspect kept each axis grows by the ratio of its sizes |
| Viewport.Canvas.Zoom | cloonix/client/cairo_canvas/crcanvas_gtk/cr-canvas.c:1923-1960 | zooming keeps the user point at the viewport centre when the centre is maintained; the root stays invertible if and only if no limited factor is zero |
| Viewport.Canvas.CenterScale | cloonix/client/cairo_canvas/crcanvas_gtk/cr-canvas.c:1774-1827 | the requested point ends up at the centre and the root stays invertible, whatever rotation, limits and aspect, exactly unless a limited factor is zero |
| Viewport.Canvas.GetCenterScale | cloonix/client/cairo_canvas/crcanvas_gtk/cr-canvas.c:1840-1856 | reads the user point at the centre and the user size of the viewport |
| ZoomLaws.LimitedScale | cloonix/client/cairo_canvas/crcanvas_gtk/cr-canvas.c:1375-1409 | for an unrotated equal-axis scale within the range, limiting the factor is clamping the resulting scale |
| ZoomLaws.ZoomStep | cloonix/client/cairo_canvas/src/topo.c:97-108 | limiting after every zoom step is limiting once at the end |
| ZoomLaws.ZoomInOut | cloonix/client/cairo_canvas/src/topo.c:97-108 | n zoom-ins give min(max, 1.4^n s) and n zoom-outs max(min, 0.9^n s), with the centre kept |
| ZoomLaws.CenterScaleRoundTrip | cloonix/client/cairo_canvas/crcanvas_gtk/cr-canvas.c:1774-1856 | setting and then reading centre and size returns the centre unless a limited factor is zero, and the size when unrotated, without aspect, and no limit changes the requested factors |
| ZoomLaws.CentreReadBack | cloonix/client/cairo_canvas/crcanvas_gtk/cr-canvas.c:1774-1856 | every requested centre is read back if and only if neither limited factor is zero |
| ZoomLaws.SameRoot | cloonix/client/cairo_canvas/crcanvas_gtk/cr-canvas.c:1811-1818 | with a zero factor two different requests leave the same root matrix, so no reading of it could return both |
| ZoomLaws.QuarterTurn | cloonix/client/cairo_canvas/crcanvas_gtk/cr-canvas.c:1792-1801 | on a canvas turned by a quarter every request asks for two zero factors, and the centre is lost |
| ZoomLaws.QuarterExists | cloonix/client/cairo_canvas/crcanvas_gtk/cr-canvas.c:1375-1390 | an invertible quarter turn that the limits can measure |
| ZoomLaws.RequestedZero | cloonix/client/cairo_canvas/crcanvas_gtk/cr-canvas.c:1792-1801 | without the aspect kept, each requested factor is zero exactly when the root has a zero at one place of its diagonal |
| ZoomLaws.DiagonalDecides | cloonix/client/cairo_canvas/crcanvas_gtk/cr-canvas.c:1774-1856 | without limits and aspect, every requested centre is read back if and only if the diagonal of the root has no zero |
| ZoomLaws.NoLimit | cloonix/client/cairo_canvas/crcanvas_gtk/cr-canvas.c:1392-1408 | without limits the factors used are the requested ones, so that such a turn loses the centre |
| ZoomLaws.LimitsKeepCentre | cloonix/client/cairo_canvas/crcanvas_gtk/cr-canvas.c:1401-1408 | a positive smallest scale rules zero factors out, whatever the rotation and the request |
| ZoomLaws.PointKept | cloonix/client/cairo_canvas/crcanvas_gtk/cr-canvas.c:1916-1960 | scaling the root keeps the user point at a device point if and only if each scaled axis has it at coordinate zero |
| ZoomLaws.ZoomUncentred | cloonix/client/cairo_canvas/crcanvas_gtk/cr-canvas.c:1916-1960 | a zoom without a maintained centre, limits applied, keeps the corner, the centre or any other point exactly under that condition |
| ZoomLaws.CornerLost | cloonix/client/cairo_canvas/crcanvas_gtk/cr-canvas.c:1916-1960 | on a canvas scrolled by ten and zoomed by two it does not stay |
| ZoomLaws.ZoomLosesPoints | cloonix/client/cairo_canvas/crcanvas_gtk/cr-canvas.c:1916-1960 | the same zoom through the canvas loses both the corner and the centre, also when the canvas scales by itself |
| AspectLaws.ScaleChoice | cloonix/client/cairo_canvas/crcanvas_gtk/cr-canvas.c:749-770 | with the aspect kept, the axis whose size changed less decides both factors, or the one that changed more with show_less |
| AspectLaws.MoreArea | cloonix/client/cairo_canvas/crcanvas_gtk/cr-canvas.c:759-769 | that shows more area, or less with show_less, if and only if the two factors are equal or together more than 2, or 2 with the second one smaller |
| AspectLaws.RequestedFactors | cloonix/client/cairo_canvas/crcanvas_gtk/cr-canvas.c:1792-1801 | each axis asks for the size of the viewport along it in user units over the size requested, whatever the root |
| AspectLaws.RequestedAspect | cloonix/client/cairo_canvas/crcanvas_gtk/cr-canvas.c:1803-1809 | with the aspect kept, a request uses the factor nearer to 1 on both axes |
| AspectLaws.AspectShows | cloonix/client/cairo_canvas/crcanvas_gtk/cr-canvas.c:1770-1818 | one axis then shows exactly the size requested, and neither shows less if and only if the factors are as in the previous condition |
| AspectLaws.AspectShowsLess | cloonix/client/cairo_canvas/crcanvas_gtk/cr-canvas.c:1770-1818 | 200 by 400 requested of a 100 by 100 widget shows 200 by 200 |
| AspectLaws.LimitedScales | cloonix/client/cairo_canvas/crcanvas_gtk/cr-canvas.c:1392-1408 | limiting the factors cuts the scale of each axis, if not zero, from above and then from below by its own limits |
| AspectLaws.TurnedScale | cloonix/client/cairo_canvas/crcanvas_gtk/cr-canvas.c:1384-1390 | the scales to which the limits apply are those a turned matrix was made with, whatever the turn |
| AspectLaws.TargetWithin | cloonix/client/cairo_canvas/crcanvas_gtk/cr-canvas.c:1694-1731 | in a region at least as large as the viewport, centring aims at the point requested where the viewport fits, and otherwise puts its edge on the edge of the region |
| Panner.ClimbKeepsDevice | cloonix/client/cairo_canvas/crcanvas_gtk/cr-item.c:543-562 | at every level an event climbs to, matrix and coordinates still denote the same device point |
| Panner.EventReachesDevicePoint | cloonix/client/cairo_canvas/crcanvas_gtk/cr-item.c:503-562 | so a handler at any level recovers the pointer position the event started with |
| Panner.PointerReaches | cloonix/client/cairo_canvas/crcanvas_gtk/cr-canvas.c:989-1007 | a motion delivered through the looked-up item of any tree of invertible matrices reaches the panner with the pointer's own position |
| Panner.CrPanner.Pan | cloonix/client/cairo_canvas/crcanvas_gtk/cr-panner.c:50-70 | a pan by d moves every device image by exactly d in an infinite world, and brings the user point it aims at, kept within the scroll region, to the centre in either; wherever the region lets it, every image moves by d |
| Panner.CrPanner.OnEvent | cloonix/client/cairo_canvas/crcanvas_gtk/cr-panner.c:104-152 | at every motion that pans, the grabbed user point is displayed under the cursor in an infinite world, and the pan covers the whole distance since the last one in either; a throttled motion changes nothing, so none is lost |
| Panner.CrPanner.Drag | cloonix/client/cairo_canvas/crcanvas_gtk/cr-panner.c:104-152 | over a whole drag the grabbed point is under the pointer of the last motion that panned, and only motions less than 100 ms after it are outstanding |
| ResponseSlots.PackExact | cloonix/client/lib_client/src/client_clownix.c:66-87 | slot number and low 24 bits are both recovered from a packed request number, which is not negative |
| ResponseSlots.PackBits | cloonix/client/lib_client/src/client_clownix.c:66-87 | a tid of 24 bits is sent with the slot above it and comes back whole, and what lies above 24 bits is lost |
| ResponseSlots.TrackKeeps | cloonix/client/lib_client/src/client_clownix.c:66-87 | a new request takes the first free slot from 1 on, which is neither waiting nor running a callback, and only that, or none when all are taken |
| ResponseSlots.EnterKeeps | cloonix/client/lib_client/src/client_clownix.c:90-96 | a reply runs its own request's callback with the original low bits; a reply that finds its slot empty, to an overflow request or a second one, runs nothing |
| ResponseSlots.LeaveKeeps | cloonix/client/lib_client/src/client_clownix.c:96-99 | when a callback returns only its own slot is emptied: what it registered meanwhile stays |
| ResponseSlots.EveryRun | cloonix/client/lib_client/src/client_clownix.c:66-99 | over every interleaving of requests, replies and returns, each tracked request is either waiting or had its callback run, exactly once |
| ResponseSlots.EndCallbacks.SetResponseCallback | cloonix/client/lib_client/src/client_clownix.c:66-87 | the loop over the array finds the slot of the specification |
| ResponseSlots.EndCallbacks.CallBegins | cloonix/client/lib_client/src/client_clownix.c:90-96 | the callback that runs, and its argument, are those of the request the reply answers |
| ResponseSlots.EndCallbacks.CallEnds | cloonix/client/lib_client/src/client_clownix.c:96-99 | only the slot of the callback that returns is cleared in the array |
| ProcessTable.BoundedScan | cloonix/client/lib_client/src/pid_clone.c:142-155 | a scan up to the high-water mark finds what a scan of the whole table finds |
| ProcessTable.LaunchKeeps | cloonix/client/lib_client/src/pid_clone.c:230-268 | a launch changes one slot, the first free one, to the new clone with its pid and callback; it keeps the count of running clones and the high-water mark |
| ProcessTable.LaunchThenDie | cloonix/client/lib_client/src/pid_clone.c:291-307 | when a clone dies while no smaller slot holds its pid, its own launch is reported: the callback it was launched with is called, and nothing if it had none |
| ProcessTable.EveryLaunch | cloonix/client/lib_client/src/pid_clone.c:230-311 | over every run a launch keeps its slot, pid and callback until it is reported, and after that its callback was called exactly once if it had one and never if not |
| ProcessTable.LaunchFails | cloonix/client/lib_client/src/pid_clone.c:252-253 | a launch is fatal if and only if no slot from 1 on is free |
| ProcessTable.DieKeeps | cloonix/client/lib_client/src/pid_clone.c:291-307 | a death callback gets the data of its own launch and had not been called before |
| ProcessTable.FreeKeeps | cloonix/client/lib_client/src/pid_clone.c:272-287 | only the slot of the dead clone is cleared, and the mark stays above every used slot |
| ProcessTable.EveryRun | cloonix/client/lib_client/src/pid_clone.c:230-311 | in every reachable state, launches inside death callbacks included, bounded scans are full scans and no launch had its death callback called twice |
| ProcessTable.MarkMeans | cloonix/client/lib_client/src/pid_clone.c:245-251 | an exact mark is the largest slot in use, or no slot is in use |
| ProcessTable.FreeMark | cloonix/client/lib_client/src/pid_clone.c:281-286 | clearing the slot at the mark leaves the mark exact if and only if another slot is in use; clearing another slot changes nothing |
| ProcessTable.LaunchMark | cloonix/client/lib_client/src/pid_clone.c:243-251 | a launch leaves the mark exact if and only if it was exact for a slot in use or the new slot reaches it |
| ProcessTable.StaleMark | cloonix/client/lib_client/src/pid_clone.c:281-286 | a run of two clones after which the table is empty and the mark is not exact, not even after the next launch |
| ProcessTable.Clones.PidFindIdent | cloonix/client/lib_client/src/pid_clone.c:142-155 | the loop to the mark finds the first slot of the whole table with that process |
| ProcessTable.Clones.PidCloneLaunch | cloonix/client/lib_client/src/pid_clone.c:419-439 | the launch in place fills the first free slot with pid, launch number and callback, and fails exactly when there is none |
| ProcessTable.Clones.PidCloneFreeIdent | cloonix/client/lib_client/src/pid_clone.c:272-287 | the release in place is the specified one |
| ProcessTable.Clones.PidDeadClone | cloonix/client/lib_client/src/pid_clone.c:291-311 | with a callback that launches any clones: the dead clone's slot is cleared, all other clones stay, and its callback was called once |
| ProcessTable.Clones.TimerClonesCheck | cloonix/client/lib_client/src/pid_clone.c:121-138 | every slot the sweep empties held a process that is gone and had its callback called, each callback called is of such a process or of a clone started meanwhile, the others stay, although callbacks move the bound of the loop; and no slot holds a process that is gone afterwards unless a callback that was called started one |
| LayoutSync.TakenOk | cloonix/client/cairo_canvas/src/layout_topo.c:159-198 | the cache holds one record per name, and taking one up replaces that name's record only |
| LayoutSync.InSyncTest | cloonix/client/cairo_canvas/src/layout_topo.c:499-532 | the comparison with the first cached record of a name is the comparison with the server's picture |
| LayoutSync.PicturedIs | cloonix/client/cairo_canvas/src/layout_topo.c:499-532 | the comparison says exactly whether some cached record of the name is within one unit on both axes, end points included, with equal hidden flag |
| LayoutSync.AdjustedLayout | cloonix/client/cairo_canvas/src/layout_topo.c:267-333 | a sent item does not move although the record passed lives in the buffer that is filled again; a received one is put exactly where the message says |
| LayoutSync.NoEcho | cloonix/client/cairo_canvas/src/layout_topo.c:376-394 | a message for a cached item sets its position and hidden flag exactly, and it is not sent back if and only if the message has no far end points |
| LayoutSync.PeerNotEchoed | cloonix/client/cairo_canvas/src/make_layout.c:84-145 | a layout made by the same program elsewhere is never sent back |
| LayoutSync.FarEndEchoed | cloonix/client/cairo_canvas/src/layout_topo.c:499-532 | a message with an end point five units away is |
| LayoutSync.SyncList.AddLayout | cloonix/client/cairo_canvas/src/layout_topo.c:267-333 | list, items and buffer after a record is taken up, with the argument read before or after the buffer is refilled as in the source |
| LayoutSync.SyncList.Receive | cloonix/client/cairo_canvas/src/layout_topo.c:376-394 | a received layout enters the cache and moves the item only if it was cached |
| LayoutSync.SyncList.SyncOne | cloonix/client/cairo_canvas/src/layout_topo.c:588-640 | one item is sent, as displayed, exactly when no cached record of its name is within one unit on both axes with equal hidden flag; no other item's comparison changes |
| LayoutSync.SyncList.TimerSynchro | cloonix/client/cairo_canvas/src/layout_topo.c:588-640 | after a pass every item has a cached record within one unit on both axes with equal hidden flag; exactly the items that had none were sent, as displayed, and none moved |
| LayoutSync.SyncList.TwoPasses | cloonix/client/cairo_canvas/src/layout_topo.c:588-640 | a second pass without movement sends nothing |
| LayoutSync.SyncList.ReceiveThenPass | cloonix/client/cairo_canvas/src/layout_topo.c:376-640 | after a message for a cached item the item is where it says, and the next pass mentions its name if and only if the message has far end points |
| PopupQueue.Popup.InsertNextWarning | cloonix/client/cairo_canvas/src/popup.c:312-333 | the warning enters both rings at equal write positions and the open window, which is cut to a thousand lines; the program ends exactly when 999 warnings are pending |
| PopupQueue.Popup.ExtractNextWarning | cloonix/client/cairo_canvas/src/popup.c:229-244 | the oldest pending flagged warning is taken, and none is left behind before it |
| PopupQueue.Popup.PopupTimeout | cloonix/client/cairo_canvas/src/popup.c:249-296 | a popup closes exactly 32 ticks after it opened, and an idle popup opens with the next flagged warning |
| PopupQueue.Popup.Ticks | cloonix/client/cairo_canvas/src/popup.c:249-296 | k pending flagged warnings are all shown, once each and in order, within 33 k ticks plus those the open popup has left |
| PopupQueue.Popup.Run | cloonix/client/cairo_canvas/src/popup.c:249-333 | over any interleaving of ticks and insertions nothing is lost or shown twice, and the j-th flagged warning waiting pops up within 33 j ticks plus those the open popup has left, whatever is inserted later |
| PopupQueue.Popup.FillItUp | cloonix/client/cairo_canvas/src/popup.c:135-148 | a turn around the ring appends the last min(n, 1000) warnings oldest first, shows what the cut to a thousand lines leaves of them, and empties the pending ring |
| PopupQueue.Popup.OpenView | cloonix/client/cairo_canvas/src/popup.c:153-183 | opening the window does this once, and what was still to pop up never will; further warnings extend the same text |
| PopupQueue.Popup.ScrollToBottom | cloonix/client/cairo_canvas/src/popup.c:101-129 | after an append the window shows the last thousand lines of what it showed with the new text behind |
| PopupQueue.Popup.ViewShows | cloonix/client/cairo_canvas/src/popup.c:101-148 | at any time, of warnings of one line each appended since it was opened, the open window shows the last 999, oldest first |
| PopupQueue.Popup.CloseView | cloonix/client/cairo_canvas/src/popup.c:73-82 | closing the window changes neither ring nor what pops up |
| TextLines.TrimOnce | cloonix/client/cairo_canvas/src/popup.c:122-127 | cutting the text after every append gives what one cut at the end would give |
| TextLines.TrimmedEnd | cloonix/client/cairo_canvas/src/popup.c:122-127 | what a cut leaves is the text behind one of its line ends, with the last 999 of them |
| PopupQueue.ShownLast | cloonix/client/cairo_canvas/src/popup.c:122-148 | of n warnings of one line each the last min(n, 999) are shown |
| PopupQueue.ShownWhole | cloonix/client/cairo_canvas/src/popup.c:122-127 | any warnings are all shown if and only if they have less than a thousand line ends |
| PopupQueue.HistoryListed | cloonix/client/cairo_canvas/src/popup.c:135-148 | the last min(n, 1000) of n warnings of one line each are listed if and only if n is less than a thousand |
| PopupQueue.ThousandWarnings | cloonix/client/cairo_canvas/src/popup.c:135-148 | of a thousand warnings all but the first are listed |
| PopupQueue.LinesIntended | cloonix/client/cairo_canvas/src/popup.c:324-327 | the lines kept are the ones meant if and only if no text ends in a newline |
| PopupQueue.BlankLines | cloonix/client/cairo_canvas/src/popup.c:324-327 | each text that does costs the window one line more than meant |
| PopupQueue.DoubledLines | cloonix/client/cairo_canvas/src/popup.c:122-148 | warnings of one line that bring their own newline are all shown if and only if there are less than 500 |
| PopupQueue.BlankLineShown | cloonix/client/cairo_canvas/src/popup.c:324-327 | such a warning is shown with an empty line behind it |
| ForceLayout.PushOpposite | cloonix/client/cairo_canvas/src/move.c:83-105 | the forces of two items on each other are opposite, lan factor included |
| ForceLayout.PushCentral | cloonix/client/cairo_canvas/src/move.c:83-105 | and act along the line between them |
| ForceLayout.PushOutward | cloonix/client/cairo_canvas/src/move.c:83-105 | and away from each other, with a size that times the distance is 500, or 5 when one is a lan |
| ForceLayout.NoNetPush | cloonix/client/cairo_canvas/src/move.c:538-548 | the nested traversal of a group of any size adds nothing to the total force on either axis nor to the total turning moment |
| ForceLayout.SetRepulseForce | cloonix/client/cairo_canvas/src/move.c:83-120 | frozen, apart and coinciding items: no force, the pairwise force, or a nonzero kick of at most the factor |
| ForceLayout.RepulsionForceItem | cloonix/client/cairo_canvas/src/move.c:448-457 | the loop adds to one item the pushes of the whole group |
| ForceLayout.RepulsionPass | cloonix/client/cairo_canvas/src/move.c:538-548 | when not frozen and no two members coincide the pass adds zero net force and zero net moment to the group; positions do not change |
| ForceLayout.MoveSingleStep | cloonix/client/cairo_canvas/src/move.c:297-321 | velocity, position and cleared force after a step; an item moves only when nothing it is tied to is grabbed |
| ForceLayout.RestIffWeak | cloonix/client/cairo_canvas/src/move.c:269-315 | an item at rest stays at rest if and only if the force on it is below a threshold for its kind |
| ForceLayout.SpeedMonotone | cloonix/client/cairo_canvas/src/move.c:297-315 | a stronger force never gives a lower speed |
| ForceLayout.SpeedFollows | cloonix/client/cairo_canvas/src/move.c:297-315 | an item at rest moves the way it is pushed, and a speed under three times itself as force stays as it is |
| ForceLayout.Slows | cloonix/client/cairo_canvas/src/move.c:297-316 | without a force an item of any kind slows down by a fixed amount while fast and to at most 0.85 of its speed below, and never turns back |
| ForceLayout.ComesToRest | cloonix/client/cairo_canvas/src/move.c:297-316 | so it comes to rest within 30 steps from any speed, and stays there |

## Left out

- BlinkBatch.Arrival: records of live names with number 15 are required not to occur; the guard admits that number (eventfull_eth.c:166) although an entry has fifteen bits.
- ResponseSlots.EnterKeeps: a reply to an occupied slot is the one its request waits for, and no reply comes for a callback being run; the source indexes its sixteen slots with any top byte.
- ZoomLaws.ZoomInOut: for unrotated root matrices of one scale on both axes, as the program's own canvas has.
- AspectLaws.AspectShows: for unrotated roots with positive scales, and factors that no limit changes.
- Viewport.Canvas.Zoom: a current x scale of zero is excluded where the source divides by it, that is with a negative largest or a positive smallest scale; the square root that removing a rotation needs is a parameter.
- DamageReport.OldMatchesNew: the changes considered are of matrices, flags and visibility after an update of a visible tree; bounds recalculated by painting, cr_item_cancel_matrix and scrolling, which overwrite the remembered matrix, are not.
- ItemWalk.Node.InvokeTest: whether an item accepts a position is a given of the item, and items are named by their number; signal emission is a direct call.
- Panner.CrPanner.OnEvent: scroll bars and their integer adjustments are not modelled; in a finite world the grabbed point is promised nothing, since the scroll region may stop the pan.
- PopupQueue.Popup.ScrollToBottom: only newlines end a line; carriage returns and paragraph separators in a text, which end one in a GTK text buffer too, are not counted.
- ForceLayout.MoveSingleStep: a movement is added to the position directly; the item matrix it goes through is a translation.
- ForceLayout.RepulsionPass: one group; groups are visited one after the other and share no item.
- ProcessTable.Clones.PidDeadClone: a death callback may launch clones and does nothing else to the table.
- ProcessTable.Clones.TimerClonesCheck: what /proc answers during one sweep is a fixed set.
- Virtual machines, satellites and lans of the hyperzor store have three copies of each routine; the model has one with a category.
- The linked lists of the store and of the layout cache are sequences; only the blink registry models its pointers.
- Names of 64 characters and more, which the source truncates, and all GTK view, column and colour detail of the tree.
- Adding and removing canvas items changes a live list in the source; the walks are proved on a tree that stays as it is, removal on values.
- Device extents that an item may add to its bounds in device units.
- Floating point: coordinates, forces and matrices are reals; a singular matrix is its own inverse here, while cairo does not say what it leaves of one; that the centre is lost then does not depend on it, see SameRoot.
- Zooming to the world, scroll regions and the rotation that limits see through their arc tangent.
- Layouts of nodes with their interfaces and of a2b satellites, whose ends lie on a circle.
- Spring forces, close-range forces and the horizon force of the layout: not symmetric, no conservation.
- Clocks: timers are "any pending timer may fire next"; waitid, /proc and clone are parameters.
- stats.c of hyperzor, bandwidth plots, processor and memory gauges: they repeat list shapes or have no further property.
- Sockets, XML messages, menus, dialogs and drawing.
