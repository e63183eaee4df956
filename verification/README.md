# Verified models of the Midas terminal engine and agent runtime

Midas carries its own terminal UI engine and agent runtime. This project models
the algorithms and protocols underneath its widgets and proves what they are for:

- **Terminal output.** The regular-screen renderer (`MainScreen`) against a
  terminal of rows, viewport and cursor with the control functions of ECMA-48,
  5th edition: every frame, patched or repainted, leaves exactly the new lines.
  `MainScreenClearing` is the mode that clears when content shrinks,
  `MainScreenRenderer` the renderer as an object over its own fields, proved to
  do what `MainScreen` specifies, and `BoundedWriter` its output buffer. `KittyImages`
  is the image list of the full-screen renderer against what the terminal stores, and
  `AltScreenRows` what its frames leave on the screen.
- **Terminal input.** `InputSequences`, `KeyLists`, `KeyGrammar`, `Reports`,
  `StdinBuffer`, `StdinSessions`, `StdinRoundTrip`, `StdinReader` and `Utf8` (RFC 3629,
  section 4): keys and bracketed pastes, printed and cut into reads, come back.
- **Layout.** `StackSizes` and `StackShares`, `Layout`, `LayoutSizes`, `LayoutHits` and
  `LayoutBoxes`, `ScrollView` and `Scrollbar`: space allocation, boxes and clips, hit
  testing, scrolling, and dragging as the inverse of painting.
- **Focus and scheduling.** `Overlays`, `OverlayFocus` and `OverlayManager`,
  `RenderSchedule` and `RenderFrames`, `ColorQueries`: protocols as steps under any
  interleaving, with the objects that take the steps.
- **Text.** `EditDistance`, `ByteSearch`, `LineEndings`, `MultiEdit` and `EditRefusals`,
  `SearchCorpus`, `SearchMatches`, `SearchCells` and `SearchIndex`, `EditorWrap` and
  `EditorLayout`.
- **Runs.** `AgentRuns`, `Failover` with `Rotation` and `FailoverChoices`, `Goals` and
  `GoalLimits`.

Each module follows one shape. Functions say what an operation does to plain values;
lemmas state what it is for, over all inputs, runs or reachable states; and where the
program changes fields, slices or tables in loops, methods and classes do the same
and are proved to compute those functions. `Bags`, `Options` and `Spaces` are shared
helpers.

Some promises hold only under a condition, which is then proved to be exact: after a
frame that wants its cursor above a viewport of several rows, some frame of the same
size is drawn wrong, such as one that changes the viewport's first row (`MainScreen`),
unless shrinking clears (`MainScreenClearing`); a doubled escape in front of a key that
starts with an introducer needs a read that ends between them, and none may end one byte
into the sequence behind a lone escape (`StdinRoundTrip`); an image whose row goes
missing from a shorter frame is not evicted (`KittyImages`) and stays on the screen
(`AltScreenRows`); a reply that an attempt began to stream before it was given up has
been announced to the reader (`Failover`, `AgentRuns`); a lone carriage return is
rewritten by an edit (`LineEndings`); an old text that overlaps a shifted copy of itself
may be taken for unique (`ByteSearch`); a width of zero drops the text of a line
(`EditorWrap`); zero-width graphemes have no column of their own, and a vertical move
past a short wrapped line shows on the line after it (`EditorLayout`); a duration limit
below a millisecond is stored as none (`Goals`).

## Model

| member | source | states |
|---|---|---|
| MainScreen.RenderDraws | internal/tui/main_screen.go:404-721 | From any state in sync, or from any terminal at all once a frame was drawn at another size, one frame of any kind leaves row i holding new line i, every row below blank, the viewport top tracked, the cursor in the wanted column and on the wanted row or else the first one of the viewport, shown only if wanted, and the tracked cursor row right if and only if the wanted one is not above the viewport |
| MainScreen.EveryRunShowsItsLastFrame | internal/tui/main_screen.go:404-745 | Over every sequence of frames and resizes the terminal ends up showing exactly the last frame with the cursor in its place; only a frame followed by another at the same size must leave its cursor reachable |
| MainScreen.SafeFramesKeepTheirCursor | internal/tui/main_screen.go:404-745 | The condition is exact: after a frame, every next frame of the same size is drawn right if and only if that frame kept its cursor out of the rows above the viewport, or the viewport has one row |
| MainScreen.NextFramesAreRight | internal/tui/main_screen.go:604-745 | From any state with the rows in step and the cursor where it is believed or held at the top of the viewport below that, all next frames of the same size are drawn right if and only if the cursor row is known or the viewport has one row |
| MainScreen.LostCursorSpoilsTheNextFrame | internal/tui/main_screen.go:604-745 | From every state with a lost cursor and more than one row, changing the first row of the viewport and nothing else is drawn wrong |
| MainScreen.RepaintDraws | internal/tui/main_screen.go:435-481 | A full render draws the frame, cleared over any terminal or uncleared over a blank one in sync |
| MainScreen.TruncateDraws | internal/tui/main_screen.go:549-602 | Deleting trailing lines erases exactly those rows and leaves the rest and the viewport |
| MainScreen.PatchDraws | internal/tui/main_screen.go:604-720 | Rewriting a changed range, appending with scrolling, and erasing leftover rows gives the new content whatever the old one was |
| MainScreen.FinishDraws | internal/tui/main_screen.go:711-720 | Once rows and viewport are right, placing the cursor completes the frame: rows stay, the cursor stands in the wanted column and row |
| MainScreen.RangeBounds | internal/tui/main_screen.go:519-536 | The first and last changed row bound every difference between the two frames, and appended rows always count as changed |
| MainScreen.PositionCursorTracks | internal/tui/main_screen.go:723-745 | Cursor placement changes no row and ends in the wanted column; the row is the wanted one or, if that is above the viewport, the first one in it, and the believed row stays right exactly when it is not above |
| MainScreen.ShorterFramesLoseTheCursor | internal/tui/main_screen.go:404-745 | Lost cursors happen: after a frame longer than the viewport, dropping its last line with the cursor on the first row searched for it puts the cursor out of reach and spoils some next frame |
| MainScreen.TwoFramesLoseTheCursor | internal/tui/main_screen.go:404-745 | From a blank terminal two frames are enough for that, whatever the lines are |
| MainScreen.BlankStartIsInSync | internal/tui/main_screen.go:59-79 | A renderer as constructed is in sync with a blank terminal |
| MainScreenClearing.ClearingRunsAreRight | internal/tui/main_screen.go:404-745 | With clearing on shrink and no overlay, over every sequence of frames and resizes, wherever they want their cursors, the terminal shows the last frame with the viewport at its end and the cursor in its place, and the renderer knows rows, viewport and cursor |
| MainScreenClearing.ClearingKeepsTheTail | internal/tui/main_screen.go:404-721 | One such frame, shorter ones included, leaves the viewport showing the end of the content and the cursor row tracked |
| MainScreenClearing.WhenCleared | internal/tui/main_screen.go:498-606 | At the same size and without a clear on shrink, terminal and scrollback are erased if and only if a row above the viewport changes, or lines are cut off up to a place above the viewport or more of them than it has |
| MainScreenRenderer.TuiMainScreen.RenderMainScreen | internal/tui/main_screen.go:404-721 | The method over the renderer's own fields computes the specified frame on the specified screen |
| MainScreenRenderer.TuiMainScreen.FindChanges | internal/tui/main_screen.go:519-536 | The difference loop finds the specified range |
| MainScreenRenderer.TuiMainScreen.PaintPatch | internal/tui/main_screen.go:610-709 | The move, scroll, rewrite and erase loops write the specified patch |
| MainScreenRenderer.TuiMainScreen.PaintTruncated | internal/tui/main_screen.go:551-594 | The loops for deleted trailing lines write the specified truncation |
| MainScreenRenderer.TuiMainScreen.PositionHardwareCursor | internal/tui/main_screen.go:723-745 | Cursor placement on the fields is the specified one |
| BoundedWriter.Writer.Append | internal/tui/main_screen.go:158-177 | Appending loses nothing and keeps order; every piece written is within one unit of the bound and ends between code points |
| BoundedWriter.Writer.Flush | internal/tui/main_screen.go:195-203 | Flushing hands over the buffer once, or nothing when it is empty |
| BoundedWriter.Utf16Prefix | internal/tui/main_screen.go:179-193 | The prefix is the longest of whole code points within the limit |
| BoundedWriter.WriteAll | internal/tui/main_screen.go:148-203 | The pieces put together are the text, none empty or over the bound, all but the last full |
| BoundedWriter.UnitsAreUtf16 | internal/tui/main_screen.go:179-193 | The units counted are the 16-bit code units of the text in UTF-16 |
| InputSequences.ExtractLosesNothing | internal/tui/stdin_buffer.go:136-178 | Sequences and remainder spell the buffer byte for byte |
| InputSequences.RestIsIncomplete | internal/tui/stdin_buffer.go:136-178 | No complete sequence is left at the start of the remainder |
| InputSequences.ExtractIsIncremental | internal/tui/stdin_buffer.go:123-178 | Cutting input in two and carrying the remainder over gives the same sequences if and only if the cut does not split a doubled escape before an introducer, split UTF-8 included |
| InputSequences.ExtractSplitsLast | internal/tui/stdin_buffer.go:136-178 | When the exception applies the doubled escape does come apart |
| Utf8.FullRuneIsStable | internal/tui/stdin_buffer.go:123-134 | A complete encoding is not changed by the bytes after it |
| Utf8.PartialRuneIsOneByte | internal/tui/stdin_buffer.go:123-134 | An incomplete encoding decodes as one byte, so it is held back |
| Utf8.EncodedIsDecoded | internal/tui/stdin_buffer.go:123-134 | Input that starts with the encoding of a character decodes as it, over the encoding and no more |
| Utf8.DecodedIsEncoded | internal/tui/stdin_buffer.go:123-134 | What decodes as more than a replacement of one byte is the encoding of what it decodes as |
| KeyLists.KeysAreReadBack | internal/tui/stdin_buffer.go:136-178 | A list of keys, printed and read at once, comes back key for key if and only if no doubled escape stands before a key that starts with an introducer |
| KeyLists.PartRead | internal/tui/stdin_buffer.go:136-178 | A read of any part of printed keys gives exactly the keys it has reached when it takes in no such place and does not end inside one that depends on it, and otherwise takes a doubled escape for a single one |
| KeyGrammar.RuneIsKey | internal/tui/stdin_buffer.go:123-178 | A whole UTF-8 character other than escape is one key |
| KeyGrammar.EscapedRuneIsKey | internal/tui/stdin_buffer.go:116-120 | Escape before a character that introduces nothing is one key |
| KeyGrammar.SingleShiftIsKey | internal/tui/stdin_buffer.go:109-115 | A single-shift sequence of three is one key |
| KeyGrammar.CommandStringIsKey | internal/tui/stdin_buffer.go:97-108 | An operating system command, device control or application string with its terminator is one key if and only if no terminator stands inside it |
| KeyGrammar.ControlSequenceIsKey | internal/tui/stdin_buffer.go:74-96 | A control sequence of parameters, intermediates and final (ECMA-48, section 5.4) is one key if and only if it is not the start of an old mouse report and, when private with a less-than sign, is a well-formed mouse report |
| KeyGrammar.OldMouseReportIsKey | internal/tui/stdin_buffer.go:75-80 | An old mouse report with its three bytes is one key if and only if these split into characters that need no more bytes, as ASCII always does |
| Reports.MouseReportsAreRecognised | internal/tui/stdin_buffer.go:89-93 | The test for SGR mouse reports accepts exactly three numbers between semicolons and a press or a release |
| Reports.PrintablesAreNamed | internal/tui/stdin_buffer.go:180-189 | A sequence names a printable character if and only if it is a Kitty report of its decimal number, leading zeros and alternate keys allowed, in range |
| StdinSessions.MarkerEndsText | internal/tui/stdin_buffer.go:227-262 | A marker ends the first text free of it, wherever the bytes were cut |
| StdinSessions.GoingWellMeans | internal/tui/stdin_buffer.go:211-269 | A read of so many bytes of a session goes well if and only if it reaches past no clash and does not end between the two bytes that tell a lone escape apart |
| StdinRoundTrip.ReadAccounts | internal/tui/stdin_buffer.go:211-269 | One read from any state of the session, in paste mode or out of it, reports the next events and keeps the rest if and only if it goes well; otherwise an event is wrong |
| StdinRoundTrip.ChunkingReportsTheSession | internal/tui/stdin_buffer.go:191-269 | Keys and pastes printed and cut into reads come out as exactly the events of the session if and only if the cuts are fair: one at each doubled escape before an introducer, none behind a lone escape and one byte of the sequence after it |
| StdinRoundTrip.SessionRoundTrips | internal/tui/stdin_buffer.go:191-269 | With fair cuts the events are the keys and pastes typed if and only if none repeats a Kitty report, and without repeats if and only if the cuts are fair |
| StdinRoundTrip.UnambiguousSessionsAreFair | internal/tui/stdin_buffer.go:191-269 | Without clashes and lone escapes every way of cutting is fair |
| StdinRoundTrip.PasteDropsPartialKey | internal/tui/stdin_buffer.go:236-248 | An incomplete key in front of a paste is dropped: the events are exactly the complete keys and the paste, and nothing is lost if and only if no incomplete one is there |
| StdinReader.ExtractSequences | internal/tui/stdin_buffer.go:136-178 | The position loop extracts the specified sequences |
| StdinReader.CollectBoundaries | internal/tui/stdin_buffer.go:123-134 | The boundary loop yields the specified ends |
| StdinReader.Reader.Process | internal/tui/stdin_buffer.go:211-269 | The method over buffer, paste mode and paste buffer does the specified step |
| Reports.RepetitionsAreDropped | internal/tui/stdin_buffer.go:191-202 | Of keys read in a row exactly those are dropped that spell the character named by the report just before them, and the others come in order |
| RenderSchedule.StepStaysSafe | internal/tui/base.go:244-336 | No requested frame is lost: every step of every interleaving of requests, timers, cancelled callbacks already queued and synchronous renders, painting after the lock is released included, keeps a render on its way |
| RenderSchedule.NoRequestIsLost | internal/tui/base.go:244-336 | From the start, after any interleaving of enabled steps: unless stopped a pending request has something outstanding that will look at it, and with none pending the newest content is shown or about to be painted |
| RenderSchedule.RequestKeepsMoving | internal/tui/base.go:258-336 | While a request is pending or a frame about to be painted some step of the loop, a timer or a painting thread is possible |
| RenderSchedule.UnpromptedWorks | internal/tui/base.go:276-344 | Each such step leaves less work |
| RenderSchedule.EveryRequestIsShown | internal/tui/base.go:244-344 | Left alone the program comes to rest within as many steps as there is work, with the newest content painted and nothing requested |
| RenderSchedule.NewestContentIsShown | internal/tui/base.go:244-344 | Whatever happened since the start, left alone it comes to rest within that many steps with the newest content on the screen |
| RenderFrames.RequestsAreCoalesced | internal/tui/base.go:244-344 | Under any interleaving no more frames are painted than were asked for anew: any number of requests made while one is pending costs one frame, and nothing is painted unasked |
| RenderSchedule.RenderGate.RequestRender | internal/tui/base.go:258-274 | The method does the specified transition of the gate, and in every world it leaves no request without something outstanding |
| RenderSchedule.RenderGate.ScheduleRender | internal/tui/base.go:309-336 | Arming the throttle timer is the specified transition, and in every world it leaves no request without something outstanding |
| RenderSchedule.RenderGate.RunTimer | internal/tui/base.go:316-334 | A timer callback, live or superseded, is the specified transition, and in every world it leaves no request without something outstanding |
| RenderSchedule.RenderGate.RequestImmediateRender | internal/tui/base.go:276-299 | The preempting path is the specified transition, and in every world it leaves no request without something outstanding |
| RenderSchedule.RenderGate.RenderSynchronously | internal/tui/base.go:244-256 | A synchronous render is the specified transition, and in every world it leaves no request without something outstanding |
| RenderSchedule.RenderGate.RunImmediate | internal/tui/base.go:286-298 | The immediate callback, its frame already painted or not, is the specified transition, and in every world it leaves no request without something outstanding |
| ColorQueries.QueryQueue.RunTimeout | internal/tui/base.go:543-559 | A timeout settles its query once and leaves a placeholder, keeping queue and queries in step |
| ColorQueries.StepKeepsConsistent | internal/tui/base.go:458-502 | Reply count and queue length stay equal, and queue and queries in step, under any interleaving |
| ColorQueries.QueriesSettleOnce | internal/tui/base.go:535-569 | At every moment of every run a query has at most one result; with timers and deliveries done, exactly one |
| ColorQueries.TimersAreCancelled | internal/tui/base.go:458-569 | At every moment of every run a registered query is settled exactly when its timer neither runs nor can be cancelled, whichever of timer and registration came first |
| ColorQueries.RepliesGoInOrder | internal/tui/base.go:458-490 | A reply goes to the oldest query or placeholder, which is the k-th one exactly when nothing was pruned, and touches no other |
| ColorQueries.PlaceholdersAreBounded | internal/tui/base.go:492-502 | After a timeout the queue holds at most 128 entries or starts with a live query, and nothing was dropped below 128 |
| ColorQueries.QueryQueue.ConsumeReply | internal/tui/base.go:458-490 | The method does the specified transition of the queue, keeping queue and queries in step |
| ColorQueries.QueryQueue.QueryBackgroundColor | internal/tui/base.go:535-542 | Asking is the specified transition, keeping queue and queries in step |
| ColorQueries.QueryQueue.PrunePlaceholders | internal/tui/base.go:492-502 | The pruning loop drops the specified placeholders, keeping queue and queries in step |
| ColorQueries.QueryQueue.RegisterTimer | internal/tui/base.go:560-567 | A timer registered late, after its query settled, is cancelled, keeping queue and queries in step |
| Overlays.RestoreStaysInStack | internal/tui/overlay.go:119-408 | Over every run of every operation, with visibility changing at will between them, the restore record names an overlay in the stack |
| Overlays.ClosingRestoresFocus | internal/tui/overlay.go:251-408 | Over every run of showing, closing and raising, focus is on the original component or an open overlay; with none open the original component has it |
| Overlays.FocusComesBack | internal/tui/overlay.go:251-408 | From a plain start, after every such run focus is on the original component or an overlay still open, and on the original one when all are closed |
| Overlays.StepStaysTidy | internal/tui/overlay.go:251-408 | Every single operation keeps focus, links, raise order and restore record in the invariant |
| Overlays.RemoveStaysTidy | internal/tui/overlay.go:213-288 | Closing any overlay retargets the links past it and keeps the invariant |
| Overlays.LinksLeadBack | internal/tui/overlay.go:196-219 | Pre-focus links are acyclic: from every overlay they lead back to the original component |
| Overlays.ShowThenHide | internal/tui/overlay.go:251-288 | Opening and closing an overlay restores focus exactly when the overlay raised last had it or none captures |
| Overlays.TopmostIsCapturing | internal/tui/overlay.go:478-489 | The topmost overlay is visible, capturing, and raised no earlier than any other such one |
| OverlayFocus.FocusGivesFocus | internal/tui/overlay.go:319-328 | Focusing a visible overlay raises that one above all others, makes it the topmost if it captures, gives it the keyboard and leaves the others as they were; for an absent or invisible one nothing changes |
| OverlayFocus.UnhidingGivesFocus | internal/tui/overlay.go:291-317 | Showing a hidden capturing overlay again raises it and gives it the keyboard if it is visible then, and otherwise only marks it shown |
| OverlayFocus.ShowGivesFocus | internal/tui/overlay.go:251-264 | Opening notes where focus was and gives the keyboard to the new overlay if it is visible and captures, and otherwise leaves it |
| OverlayFocus.HidingPassesFocusOn | internal/tui/overlay.go:291-317 | Hiding passes the keyboard, if the overlay had it, to the topmost one left or to where it was before |
| OverlayFocus.ClosingPassesFocusOn | internal/tui/overlay.go:267-288 | Closing passes the keyboard, if the overlay had it, to the topmost one left or to where it was before |
| OverlayFocus.UnfocusPassesFocusOn | internal/tui/overlay.go:332-370 | Letting go without a target passes the keyboard to the topmost overlay if that is another one, and otherwise to where it was before |
| OverlayFocus.UnfocusGoesWhereTold | internal/tui/overlay.go:332-370 | Letting go with a target passes the keyboard there, at once from the overlay itself or when the component it waits for lets go; an overlay that neither has it nor waits changes nothing |
| OverlayFocus.TakenFocusComesBack | internal/tui/overlay.go:123-183 | A component that takes the keyboard from an overlay not opened from it keeps it while keys come in, and gives it back to the overlay when it lets go |
| OverlayFocus.BlockerPassesFocusOn | internal/tui/overlay.go:123-183 | Such a component may hand the keyboard on while it is mounted, and the overlay then waits for the next one; unmounted it gives the keyboard back, and after a release focus goes where that said |
| OverlayFocus.RepairGivesFocus | internal/tui/overlay.go:522-544 | Before a key, focus leaves an overlay that does not show for the topmost one, and returns to one that waits for it |
| OverlayFocus.OrdersStayBelow | internal/tui/overlay.go:251-408 | Over every run the counter stays at or above every raise order given out |
| OverlayManager.Manager.SetFocusInternal | internal/tui/overlay.go:123-165 | Moving focus over the manager's fields is the specified transition |
| OverlayManager.Manager.ShowOverlay | internal/tui/overlay.go:251-264 | Opening is the specified transition, and with every overlay visible it keeps the focus and link invariant |
| OverlayManager.Manager.HideOverlay | internal/tui/overlay.go:267-288 | Closing is the specified transition, and with every overlay visible it keeps the focus and link invariant |
| OverlayManager.Manager.RetargetPreFocus | internal/tui/overlay.go:213-219 | The retargeting loop changes exactly the specified links |
| OverlayManager.Manager.FocusOverlay | internal/tui/overlay.go:319-328 | Raising an overlay is the specified transition, and with every overlay visible it keeps the focus and link invariant |
| OverlayManager.Manager.RepairFocusForInput | internal/tui/overlay.go:522-544 | Repairing focus before input is the specified transition, and with every overlay visible it keeps the focus and link invariant |
| Layout.LayoutClips | internal/tui/layout.go:116-299 | Every box's clip is exactly its rectangle within the clips around it, through nested scroll views moved and clipped again |
| Layout.PrunedHitTestIsExhaustive | internal/tui/layout.go:506-534 | Skipping subtrees by clip finds exactly the boxes whose clip contains the point, deepest first |
| Layout.VisitIsExhaustive | internal/tui/layout.go:511-522 | The pruned visit equals filtering all boxes in tree order |
| Layout.SortSorts | internal/tui/layout.go:523-528 | Hits come deepest first and in tree order at each depth |
| Layout.LayoutTranslates | internal/tui/layout.go:116-128 | Laying out lower equals laying out and moving down |
| Layout.ScrollContentIsLaidOutInPlace | internal/tui/layout.go:170-199 | What a scroll view shows is its content laid out directly at the new position |
| Layout.ColumnStacks | internal/tui/layout.go:228-236 | The children of a vertical stack stand one below the other, each as high as its share, a gap apart |
| Layout.RowStacks | internal/tui/layout.go:268-297 | The children of a horizontal stack stand side by side, each as wide as its share, a gap apart, aligned inside the height |
| Layout.ExactColumnsFill | internal/tui/layout.go:203-237 | When the allocation is exact the children fill the stack from edge to edge |
| LayoutHits.HitsLieUnderThePoint | internal/tui/layout.go:506-534 | A point hits exactly the boxes it lies in together with every box on the way down to them, through scrolled and clipped content, each at its depth |
| LayoutSizes.ColumnEndsWithItsLast | internal/tui/layout.go:201-237 | A vertical stack given no height lays out exactly its visible children, in order, from its top edge to its bottom one |
| LayoutSizes.RowIsAsHighAsItsHighest | internal/tui/layout.go:240-297 | A horizontal stack given no height lays out exactly its visible children, in order, and is as high as what the highest paints at the width it got |
| LayoutSizes.ColumnGivesWhatIsAsked | internal/tui/layout.go:201-237 | A vertical stack given no height gives each child its basis or what it paints at the width of the stack, or the nearest size between its bounds |
| LayoutSizes.ScrollFitsItsContent | internal/tui/layout.go:170-199 | A scroll view shares its width between content and scrollbar column but never leaves the content none, and given no height is as high as its content |
| LayoutBoxes.LayoutComponent | internal/tui/layout.go:130-299 | Laying out builds a fresh tree of box objects, moved and clipped again in place under scroll views, that stands for the specified layout |
| LayoutBoxes.TranslateLayoutBox | internal/tui/layout.go:116-121 | The recursive move changes a subtree in place to its specified translation |
| LayoutBoxes.UpdateLayoutClips | internal/tui/layout.go:123-128 | The recursive update changes a subtree in place to its specified clips |
| LayoutBoxes.LayoutColumn | internal/tui/layout.go:228-236 | The loop places the visible children one below the other as specified |
| LayoutBoxes.LayoutRow | internal/tui/layout.go:268-297 | The loop places the visible children side by side as specified |
| LayoutBoxes.Visit | internal/tui/layout.go:511-522 | The walk over the box objects finds the specified hits in tree order |
| Scrollbar.DragPaintsTheThumb | internal/tui/alt_screen_mouse.go:444-452 | For every overflowing content and thumb offset the dragged position is in bounds and paints the thumb at exactly that offset |
| Scrollbar.ThumbTravelWithinScroll | internal/tui/layout.go:350-360 | The thumb has no more places than there are scroll positions |
| Scrollbar.RoundingInverts | internal/tui/layout.go:375-375 | Rounding down a scale undoes rounding up it |
| Scrollbar.ThumbStaysOnTrack | internal/tui/layout.go:334-373 | The thumb stays on its track, at the ends for the end positions, and moves with the content |
| Scrollbar.ThumbIsProportional | internal/tui/layout.go:350-355 | The thumb is to the track what the track is to the content, to the nearest row but no less than two where there is room, and the whole track for content that fits |
| Scrollbar.ThumbShowsThePosition | internal/tui/layout.go:355-374 | The thumb is as far down its way as the view is down the content, to the nearest row |
| Scrollbar.DragIsProportional | internal/tui/alt_screen_mouse.go:444-452 | A drag scrolls as far down the content as the thumb is down its way, to the nearest row, to the last one at the end and to the first where the thumb has no way to go |
| Scrollbar.GrabbedThumbFollowsPointer | internal/tui/alt_screen_mouse.go:444-488 | A thumb held where it was pressed moves by as many rows as the pointer, up to the ends |
| Scrollbar.ScrollScrollbarToPointer | internal/tui/alt_screen_mouse.go:444-452 | The method leaves the view at the dragged position, no longer suppressing following |
| ScrollViews.ScrollingKeepsValid | internal/tui/scroll_view.go:232-335 | Every operation keeps the position in range, and a relative move reports exactly what it could not cover |
| ScrollViews.GrowthFollowsOrHolds | internal/tui/scroll_view.go:305-335 | Growing content keeps a following view at the end and any other view where it is |
| ScrollViews.FollowsFromTheEnd | internal/tui/scroll_view.go:232-335 | Taken to the end, a view that follows it shows the last row however often its content grows; taken elsewhere, or told not to follow, it stays where it is |
| ScrollViews.MovesGoAsAsked | internal/tui/scroll_view.go:232-278 | Moving goes to the row asked for, or as far as the content reaches, and a relative move is short exactly at an end |
| ScrollViews.ShrinkingHoldsTheTop | internal/tui/scroll_view.go:305-335 | A following view whose viewport alone shrinks keeps its first row, and goes to the end with the next growth |
| ScrollViews.ScrollView.ScrollTo | internal/tui/scroll_view.go:232-253 | The method does the specified transition and keeps the position in range |
| ScrollViews.ScrollView.ScrollBy | internal/tui/scroll_view.go:255-278 | The method does the specified transition, keeps the position in range, and moves by exactly what it does not return |
| ScrollViews.ScrollView.UpdateLayout | internal/tui/scroll_view.go:305-335 | The method does the specified transition and keeps the position in range |
| StackSizes.AllocateIsExactOrSaturated | internal/tui/stack.go:170-206 | Every size stays in its clamp range, entries of zero weight keep their base, and the total is the target or every entry is at its limit |
| StackSizes.DistributeUsesUpOrSaturates | internal/tui/stack.go:208-261 | Distribution never overshoots and stops short only when no entry can take more |
| StackSizes.DistributeTotal | internal/tui/stack.go:208-261 | The total in closed form, so it never crosses the target |
| StackSizes.FullPassMakesProgress | internal/tui/stack.go:210-260 | A pass with candidates always distributes something, so the exit for none is never taken |
| StackSizes.GiveMoves | internal/tui/stack.go:237-255 | Serving one entry moves exactly what leaves the remainder |
| StackShares.DistributeIsFair | internal/tui/stack.go:208-261 | A distribution is the result if and only if it is fairly shared: pass after pass each entry that can still move takes the largest amount that is at most one or its weighted share of what is left, within what is left and its bounds, until the amount is used up or none can move |
| StackShares.NoMoreThanItsShare | internal/tui/stack.go:237-255 | In a fair pass no entry takes more than its weighted share of the amount and one cell besides |
| StackShares.PassIsFair | internal/tui/stack.go:210-260 | One pass serves the entries that can move fairly, and leaves the amount less what they took |
| StackShares.FairPassIsUnique | internal/tui/stack.go:210-260 | Fairness leaves a pass no choice |
| StackShares.BasesAreNearest | internal/tui/stack.go:170-190 | Each size starts from the basis, or else the entry's own size, at the nearest value between the bounds, the minimum winning |
| StackShares.AllocateIsFair | internal/tui/stack.go:179-206 | What the starting sizes leave of the space between the gaps, or exceed it by, is fairly shared; without a given space they stay |
| StackSizes.DistributeStackSizes | internal/tui/stack.go:208-261 | The in-place loops leave the array at the specified distribution |
| StackSizes.AllocateStackSizes | internal/tui/stack.go:179-206 | The method returns the specified allocation |
| KittyImages.ListAlwaysAgrees | internal/tui/alt_screen.go:511-690 | Over any run, whatever the terminal held before, a row is written with its data exactly where the terminal lacks it, and after every frame the list says exactly what the terminal holds |
| KittyImages.FrameAgrees | internal/tui/alt_screen.go:615-690 | One frame keeps list and terminal in agreement though deletions are written before the rows |
| KittyImages.ListIsInOrderOfUse | internal/tui/alt_screen.go:511-536 | After a frame the images it does not place keep their order in front, and behind them come those placed, each with what its last row says, in the order of those rows |
| AltScreenRows.EveryFrameIsShown | internal/tui/alt_screen.go:615-690 | Over any run in which no frame drops an image with its row, whatever else writes to the terminal across resizes, starts and resets, every row of the last frame is on the screen after it, text and images |
| AltScreenRows.FrameIsShown | internal/tui/alt_screen.go:615-690 | The condition is exact: every row shows what the frame has for it if and only if the frame is no patch in which a placed image loses its row |
| KittyImages.FrameWithinLimits | internal/tui/alt_screen.go:538-572 | After a frame that redraws images the off-screen ones are within all three limits and every visible one is listed |
| KittyImages.LimitsHoldOverRuns | internal/tui/alt_screen.go:511-690 | Over any run in which no frame has fewer rows than the last of its size, redrawing images or not, after every frame the off-screen images are within all three limits and every visible one is listed |
| KittyImages.FullFramesKeepLimits | internal/tui/alt_screen.go:511-690 | So over any run of frames that fill the height |
| KittyImages.LimitsNeedFullFrames | internal/tui/alt_screen.go:621-690 | Whatever images they hold, two frames of one size keep the limits if and only if the second shows no fewer rows: an image whose row goes missing is off the screen and not evicted |
| KittyImages.EvictionIsLeast | internal/tui/alt_screen.go:550-571 | Eviction keeps visible images, deletes the longest unused others, and no more than it takes to have at most 16 of them, 32 MiB transmitted and 64 MiB decoded |
| KittyImages.EvictionNeverStuck | internal/tui/alt_screen.go:555-563 | The exit for an index of -1 is unreachable |
| KittyImages.Renderer.PrepareKittyScreen | internal/tui/alt_screen.go:511-572 | The loops over list and running totals give the specified lines, list and deletions |
| KittyImages.Renderer.RenderAltScreen | internal/tui/alt_screen.go:619-690 | The image part of the frame over the renderer's fields is the specified one |
| KittyImages.Renderer.CachedKittyImageIndex | internal/tui/alt_screen.go:574-581 | The loop finds the first entry of an image or -1 |
| EditDistance.DistanceIsMinimal | internal/tui/fuzzy.go:171-198 | The table is the least cost over all optimal-string-alignment scripts |
| EditDistance.DistanceIsAMeasure | internal/tui/fuzzy.go:171-198 | The distance is symmetric and zero only between equal texts |
| EditDistance.DistanceOneIsOneEdit | internal/tui/fuzzy.go:147-198 | The distance is one exactly between texts a single insertion, deletion, substitution or neighbour swap apart |
| EditDistance.ComputeDistance | internal/tui/fuzzy.go:171-198 | The nested loops over the two-dimensional table compute the distance |
| EditDistance.MatchesWithTypo | internal/tui/fuzzy.go:153-166 | The typo fallback accepts exactly texts of three or more characters one edit apart, and reports their common prefix |
| MultiEdit.ExecuteSubstitutes | internal/tools/edit.go:74-107 | On success right-to-left splicing is one simultaneous substitution of each old text at its place in the original, behind the byte order mark the file began with, if it did |
| MultiEdit.OrderDoesNotMatter | internal/tools/edit.go:75-107 | Giving the edits in another order gives the same outcome |
| MultiEdit.EditsInPlace | internal/tools/edit.go:63-111 | Without lone carriage returns the replaced ranges are ranges of the file's own bytes and every other byte stays, byte order mark included |
| MultiEdit.OneEndingIsWritten | internal/tools/edit.go:68-107 | What is written has a single line ending: CRLF only, or no carriage return at all |
| LineEndings.MixedMeansBoth | internal/tools/edit.go:121-125 | The counting test holds exactly when both a CRLF and a bare line feed occur |
| LineEndings.RestoreIsExact | internal/tools/edit.go:68-107 | The line-ending round trip is exact if and only if there is no lone carriage return |
| LineEndings.LoneCrIsRewritten | internal/tools/edit.go:74-74 | A lone carriage return is rewritten as a line feed |
| MultiEdit.LocateAllIsEach | internal/tools/edit.go:75-89 | Looking up all edits succeeds exactly when each does, at the places each would have alone |
| MultiEdit.AcceptedTexts | internal/tools/edit.go:76-88 | An old text is accepted exactly when it occurs and does not occur again at or past the end of its first occurrence |
| EditRefusals.WhyRefused | internal/tools/edit.go:63-104 | A call is refused for mixed endings; else for the first edit whose old text is empty, missing or there twice without overlap; else exactly where the first occurrences of two old texts share a byte; else where nothing would change; and otherwise succeeds |
| ByteSearch.CountOneMeansUnique | internal/tools/edit.go:81-88 | Counting one occurrence means being unique, for every content, if and only if the text has no border |
| MultiEdit.OverlappingTextIsAccepted | internal/tools/edit.go:81-88 | Overlapping copies are not noticed: a text occurring twice is accepted |
| MultiEdit.EditFile | internal/tools/edit.go:63-111 | The loops compute the specified outcome, errors in the same order |
| MultiEdit.Splice | internal/tools/edit.go:97-101 | The splicing loop stays in bounds and computes the simultaneous substitution |
| SearchCorpus.CorpusIsCollapsed | internal/tui/alt_screen_search.go:89-162 | The searched text is the whole transcript with white space collapsed, by grapheme clusters where a query is collapsed by characters |
| SearchCorpus.CollapsedIsTidy | internal/tui/alt_screen_search.go:68-87 | Collapsed text has single separators and none at its ends |
| SearchCorpus.BuildsAlike | internal/tui/alt_screen_search.go:113-156 | The ASCII path builds the same text, its word spans being the cluster spans joined |
| SearchCorpus.BuildCorpus | internal/tui/alt_screen_search.go:89-162 | The loops build the specified corpus |
| SearchCorpus.NormalizeQuery | internal/tui/alt_screen_search.go:68-87 | The loop collapses a query as specified |
| SearchMatches.FastPathAgrees | internal/tui/alt_screen_search.go:113-156 | Every match range gets the same segments with the ASCII path as without |
| SearchMatches.BuildIsSound | internal/tui/alt_screen_search.go:89-162 | Spans are non-empty, ordered in text and on screen, and cover the text but for single separators |
| SearchMatches.SegmentsCoverTheMatch | internal/tui/alt_screen_search.go:182-202 | The segments of a match are exactly the cells of the characters it touches |
| SearchCells.SegmentsCoverCharacters | internal/tui/alt_screen_search.go:89-202 | A cell is covered by a match if and only if its line has a character there that is no space and that the match meets: columns from the widths before it to those and its own, text positions by the collapsed text before it |
| SearchMatches.RealMatchesAreKept | internal/tui/alt_screen_search.go:206-208 | A match with anything but separators in it is never dropped |
| SearchMatches.FindMatches | internal/tui/alt_screen_search.go:164-210 | The scan with one shared forward span index gives each match the segments of a scan of all spans |
| SearchMatches.MatchesAreOrdered | internal/tui/alt_screen_search.go:164-210 | No match reaches below the start of a later one |
| SearchMatches.FirstStartingAt | internal/tui/alt_screen_search.go:560-562 | The binary search for the selection finds the first match that starts at or below the row |
| SearchMatches.FirstEndingAt | internal/tui/alt_screen_search.go:670-673 | The binary search for the first visible match finds the first that ends at or below the row |
| SearchMatches.FindVisible | internal/tui/alt_screen_search.go:670-694 | Binary search and early stop find every segment on the rows of the viewport, cut to its columns, and drop those nothing is left of |
| SearchMatches.VisibleCells | internal/tui/alt_screen_search.go:683-694 | A screen cell is highlighted for a match if and only if it is in the window and shows a cell of one of the match's segments |
| SearchIndex.AnyHistoryIsFresh | internal/tui/alt_screen_search.go:229-260 | After any history of calls the index answers like a fresh search, and unchanged means the previous answer |
| SearchIndex.FreshIsSearchable | internal/tui/alt_screen_search.go:164-210 | Every search result satisfies what both binary searches rely on |
| SearchIndex.Index.Search | internal/tui/alt_screen_search.go:238-260 | The method over the cached fields is the specified lookup and answers like a fresh search |
| EditorWrap.WrapTilesExactly | internal/tui/editor.go:633-664 | The visual lines tile a logical line on grapheme boundaries if and only if the width is positive or the line is empty |
| EditorWrap.WrapFits | internal/tui/editor.go:633-664 | Every visual line fits the width or is one over-wide grapheme; every cut is as late as possible and spares words that fit a line |
| EditorWrap.WrapKeepsFitting | internal/tui/editor.go:637-639 | A line is cut exactly when it does not fit as a whole and has more than one grapheme |
| EditorWrap.WrapLine | internal/tui/editor.go:633-664 | The loop computes the specified wrapping |
| EditorLayout.EveryCursorHasOneLine | internal/tui/editor.go:605-673 | Every cursor position belongs to exactly one visual line if and only if the width is positive or the text is empty |
| EditorLayout.ColumnInverts | internal/tui/editor.go:707-717 | A boundary's column leads back to it if and only if it ends the line or precedes a grapheme with a width |
| EditorLayout.ColumnFallsInside | internal/tui/editor.go:707-717 | The boundary found is the last not past the column, or the end of a line too short for it |
| EditorLayout.MoveLandsOnTarget | internal/tui/editor.go:675-705 | A vertical move lands on the line it aims at if and only if that line ends its logical line or is wider than the column |
| EditorLayout.AwayAndBack | internal/tui/editor.go:675-705 | Moving away and back returns to the same place exactly under the inversion condition |
| EditorLayout.LayoutText | internal/tui/editor.go:605-626 | The loops lay out the specified visual lines |
| EditorLayout.CursorVisualLine | internal/tui/editor.go:666-673 | The loop finds the only line the cursor lies on |
| EditorLayout.ByteAtColumn | internal/tui/editor.go:707-717 | The loop finds the specified boundary and its byte |
| EditorLayout.Cursor.MoveVertical | internal/tui/editor.go:675-705 | A vertical move keeps the preferred column and clamps to the first and last line, or asks for history at an edge |
| AgentRuns.OnlyStreamedStartsLeak | internal/chat/chat.go:724-835 | When the attempts are agent runs, nothing of those given up is seen if and only if none of them had begun to stream a reply; in a run that ends normally the content seen is then the last attempt's, once each and in order |
| AgentRuns.StreamedStartLeaks | internal/chat/chat.go:801-832 | A provider that sends its start and is then overloaded: the run fails over and the start has been shown |
| AgentRuns.AgentRunsAreGuarded | pkg/agent/loop.go:22-209 | In an agent run no streamed start or tool result overtakes an event held back, and while nothing meaningful happened one is let through if and only if the first reply began to stream |
| AgentRuns.StreamAssistant | pkg/agent/loop.go:149-203 | The loop over a streamed reply pushes the specified events: the start once, from the stream or else with the whole reply |
| AgentRuns.Run | pkg/agent/loop.go:49-112 | The loop over turns pushes the specified events, up to a broken reply |
| Failover.OnlyTheLastAttemptIsSeen | internal/chat/chat.go:724-835 | For attempts of any events, in a run that ends normally the assistant, tool and tool-result events delivered are those of the last attempt, once each and in order, if and only if no attempt given up held a streamed start or a tool result and none overtakes an event held back in the last |
| Failover.NothingLeaks | internal/chat/chat.go:724-835 | However a run ends, only what the last attempt alone would deliver is seen if and only if no attempt given up held a streamed start or a tool result |
| Failover.WhatIsSeen | internal/chat/chat.go:724-835 | What is delivered is the streamed starts and tool results of the attempts given up, then what the last attempt alone delivers |
| Failover.OnlyTheLastAttemptTalks | internal/chat/chat.go:724-835 | But for streamed starts, what the assistant and its tools do is delivered from the last attempt alone, once each and in order, all of it in a run that ends normally and a first part otherwise |
| Failover.GivenUpIsIdle | internal/chat/chat.go:788-800 | An attempt is given up only if nothing meaningful happened in it |
| Failover.OpeningIsSeenOnce | internal/chat/chat.go:770-833 | Agent starts, turn starts and user messages are delivered by the first attempt alone: the opening is not repeated, and after a failover later turn starts and steered messages are dropped too |
| Failover.ScanKeepsTalk | internal/chat/chat.go:774-833 | But for streamed starts, while an attempt is read what the assistant and its tools do is delivered or held back once and in order, none delivered before something meaningful |
| Failover.ScanShowsUnguarded | internal/chat/chat.go:774-833 | Streamed starts and tool results are delivered at once, and they alone before something meaningful |
| Failover.ScanKeepsOrder | internal/chat/chat.go:774-833 | No content is lost, and it keeps its order if and only if no streamed start or tool result comes before anything meaningful but after an event held back |
| Failover.AttemptsAreBounded | internal/chat/chat.go:724-835 | Failover ends: at most n + 1 attempts over n models, all different |
| Failover.NextModelIsFresh | cmd/midas/main.go:1888-1903 | The model failed over to is in the catalog and was not tried |
| FailoverChoices.EveryMoveFits | cmd/midas/main.go:1888-1903 | Over a whole run each attempt given up was live, idle and ended unavailable, and the next model is an untried, usable, configured one the settings permit; a provider that refused the credentials is left, and one that did not is left only when nothing eligible of it is configured |
| FailoverChoices.EveryStopIsDue | internal/chat/chat.go:724-835 | Over a whole run it stops at an attempt that may be followed only where nothing eligible is configured, or as many better models as the limit allows were not; for another provider's model when being configured is a matter of the provider |
| FailoverChoices.WhyAttemptsFollow | internal/chat/chat.go:724-835 | An attempt followed by another ended unavailable, idle and live with failover on, and the next model is the first configured one of what is on offer |
| FailoverChoices.WhyTheRunStops | internal/chat/chat.go:724-835 | The last attempt is one that may not be followed, or nothing on offer is configured |
| FailoverChoices.NextModelFits | cmd/midas/main.go:1888-1903 | No configured eligible model of the same provider is better than the one moved to, and the failed provider comes first |
| Failover.Forward | internal/chat/chat.go:724-835 | The loop delivers the specified events and tries the specified models |
| Rotation.CandidatesAreSound | cmd/midas/main.go:1976-2041 | Candidates are usable, untried catalog models within the limit: the failed provider's by rank, then one from each other provider |
| Rotation.OrderedSorts | cmd/midas/main.go:1995-2015 | The catalog is ranked by the score |
| Rotation.SameProviderSound | cmd/midas/main.go:2016-2026 | The failed provider's candidates are its best usable models, all of them below the limit |
| Rotation.OtherProvidersSound | cmd/midas/main.go:2027-2039 | Each other provider contributes at most one usable model |
| Rotation.OtherProvidersBest | cmd/midas/main.go:2027-2039 | Each other provider contributes its best usable model, and none is passed over while there is room |
| FailoverChoices.CandidatesAreOffered | cmd/midas/main.go:1976-2041 | The candidates are all eligible models of the failed provider by rank and then the best of each other one, or the limit of them and none better left out |
| FailoverChoices.BeforeMeans | cmd/midas/main.go:1995-2015 | The score ranks by interface, then by kind of reasoning, then by a context window no smaller than the failed one, then by identifier |
| FailoverChoices.RankingIsStable | cmd/midas/main.go:1995-2015 | Models that rank alike keep the order of the catalog |
| Rotation.RotationCandidates | cmd/midas/main.go:1976-2041 | The two loops with their early exits collect the specified candidates |
| Goals.ActiveMeansSince | internal/goal/store.go:38-200 | After any run a goal is active exactly when an active-since time is set |
| Goals.UpdateTakesEffect | internal/goal/store.go:110-169 | A successful update sets exactly the objective, status, evidence or blocker asked for and keeps limits and totals |
| Goals.ClosedStays | internal/goal/store.go:110-200 | A closed goal changes only by clearing or a successful creation |
| Goals.ClosedStaysOverRuns | internal/goal/store.go:110-200 | A closed goal is unchanged by any run without those |
| Goals.TotalsCountEveryTurn | internal/goal/store.go:171-235 | Token and turn totals are the sums over every turn ever recorded, and the history is the last 500 events of the full log |
| Goals.ActiveTimeIsHonest | internal/goal/store.go:238-245 | With a clock that does not run back, reported active time never exceeds the true one and lags it by less than a millisecond a freeze |
| Goals.LimitStaysReachedOverRuns | internal/goal/goal.go:79-90 | A limit once reported stays reported over every run that keeps the goal and whenever it is asked, though freezing rounds time down |
| GoalLimits.LimitsAreReported | internal/goal/goal.go:79-90 | After any run the limit reported is decided by the limits of the last creation and the turns really recorded since, tokens before turns before time; time is reported only when truly up, and less than a millisecond late for each freeze |
| GoalLimits.WhenCreated | internal/goal/store.go:38-77 | A goal is created exactly for a text, limits not negative and no open goal; an open one with the same text is handed out again, and nothing changes otherwise |
| GoalLimits.WhenUpdated | internal/goal/store.go:110-169 | An update goes through exactly when it asks something sensible of an open goal: a text, or a known status with evidence or a blocker where it closes |
| GoalLimits.WhenTurned | internal/goal/store.go:171-188 | A turn is recorded exactly for an active goal and tokens that are not negative |
| Spaces.TrimCutsBlanks | internal/goal/goal.go:92-98 | Trimming cuts white space off both ends and nothing else, and leaves nothing exactly of a text without any other character |
| Goals.ShortLimitsVanish | internal/goal/store.go:65-70 | A duration limit is in force exactly from one whole millisecond up |
| Goals.Store.CreateGoal | internal/goal/store.go:38-77 | Creating over the stored cell is the specified step and keeps an active goal one with a start time |
| Goals.Store.UpdateGoal | internal/goal/store.go:110-169 | Updating is the specified step, errors in the same order, and keeps an active goal one with a start time |
| Goals.Store.Record | internal/goal/store.go:171-188 | Recording a turn is the specified step |
| Goals.Store.Remove | internal/goal/store.go:190-200 | Clearing is the specified step |

## Left out

- Image rows, crash and debug logs and the Termux resize path of the regular-screen
  renderer; a line too wide for the terminal is an error there and is not modelled,
  so every line printed is taken to fit its row. Terminal reflow on a resize is
  covered by allowing any terminal content after a size change.
- Widths, grapheme segmentation and escape stripping are abstract: each grapheme
  has a width, and widths add up. Segmenting a slice that starts and ends on grapheme
  boundaries is taken to give the slice's graphemes.
- BoundedWriter: text is the code points it decodes to; bytes that are not valid
  UTF-8 count as the one replacement character each they decode to.
- MainScreenRenderer.TerminalWriter.Append: one terminal operation at a time; that the
  bytes go out in bounded pieces is modelled in BoundedWriter, whose pieces put
  together are the bytes.
- StdinRoundTrip.SessionRoundTrips: timers do not fire; flushing an incomplete sequence
  after a delay, clearing, and the hand-over of events outside the lock are not
  modelled. An escape key is one only in front of a longer sequence, because by itself
  it waits for the timer; right before a paste it is dropped, as
  StdinRoundTrip.PasteDropsPartialKey shows. Empty reads, which report an empty key,
  are not among the chunks.
- Overlays.ClosingRestoresFocus: `Visible` callbacks, `SetHidden`, `Unfocus` and
  focus set from outside are not among its operations; they are in
  Overlays.RestoreStaysInStack.
- Overlay placement, compositing and mouse dispatch: they only compute.
- RenderSchedule: painting a frame is one step, apart from the sections that hold the
  lock; starting again after `Stop`, the two-second stop timeout and the
  length of delays; no minimum spacing of frames is claimed.
- LayoutBoxes.LayoutComponent: a box gets its children when it is built instead of one
  by one, and scroll views come in as values; parent pointers, painting of lines and
  scrollbar cells, the render cache and visibility callbacks are not modelled.
- Layout: which lines a leaf paints when it has more of them than its height.
- StackSizes: shares are exact integers where the program divides floating-point numbers.
- Scrollbar: quotients are exact rationals where the program uses floating point;
  the hover and auto-hide timers are not modelled.
- KittyImages.FrameWithinLimits: a frame that redraws no image evicts nothing; for those the
  limits are in KittyImages.LimitsHoldOverRuns.
- KittyImages: rows are text or complete placements; parsing of the escape
  sequences and images a terminal drops on its own are not modelled. Leaving the
  full screen is covered by starting again.
- SearchIndex: the regular expression engine is a parameter that yields ordered
  ranges of UTF-16 positions. Keeping the selection across changes, revealing it and
  styling highlights are not modelled.
- EditorWrap.WrapLine: positions in a line are counted in graphemes; EditorLayout
  turns them into the bytes the program counts in.
- EditorLayout.Cursor.MoveVertical: the layout used is that of the current text; a
  stale layout kept from an earlier width, history text and chips are not modelled.
- EditDistance: `FuzzyMatch` scoring and filtering, and case folding of the runes
  compared.
- MultiEdit: reading and writing the file, path resolution, cancellation and
  argument parsing.
- AgentRuns: which steps a turn's tools take, whether it is the last one and what is
  steered in are given; cache warming and the agent's end event are not modelled.
- Failover: an attempt is any finite sequence of events with an end; notices,
  compaction, storage and goal turns are not modelled. Whether a failure counts as
  unavailable or as refused credentials is given with it.
- FailoverChoices.EveryStopIsDue: with as many unconfigured candidates as the limit allows,
  the program does not look at the models behind them.
- Goals: the goal file is one cell; JSON, file errors, cancellation and identifiers
  drawn at random are not modelled.
- Machine integers are unbounded throughout; no 64-bit wrap-around is modelled.
- Widgets, themes, pickers, the rest of `internal/tui`, `internal/remote`,
  `internal/stats`, settings, profiles, skills, the other tools and the rest of `cmd`.
