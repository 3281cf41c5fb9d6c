# Startdde: display and settings, verified

A Dafny model of the parts of startdde that carry real state: how monitors are laid out and applied
to the X server, how display configurations are edited, saved and migrated, how touchscreens are
mapped, and how settings are kept in a binary X property. `dafny verify dfyconfig.toml` verifies all of it.

| module | what it models |
|---|---|
| `Ints` | Go's fixed-width integers |
| `RandR` | the X server as its clients see it: CRTCs, outputs, modes, screen size and its range; obedient or not |
| `XorgPlan`, `XorgSearch`, `XorgProgram`, `XorgEvents`, `XorgApply` | `apply` in `display/xorg.go`: CRTC allocation, when the search for it can fail, the combined effect of requests in any order, the cached tables that follow the server's events, and the call as a whole |
| `WlRect` | `wl_display/rect.go`: moving one screen against another with int16 arithmetic |
| `XSettingsCodec`, `XSettingsLayout`, `XSettingsStream`, `XSettingsCut`, `XSettingsStore` | the XSETTINGS property: format, the bytes it puts where, reading and writing, what a property cut short still says, and `setSettings` against a simple map |
| `XResources` | the X resource text |
| `Text`, `Sorting` | Go's `strings.Split`, `strings.Join`, `strings.Index` and `sort.Strings` |
| `DisplayConfig`, `ConfigUuid`, `ConfigMigration` | the stored configuration and its migration to new monitor ids |
| `Modes` | mode lookup and `filterModeInfos` |
| `MonitorState`, `Transaction`, `SaveAndFind` | edits, resets and stored configurations of one monitor; apply, save and clean over whole runs; where a save puts what was applied and who finds it there |
| `ConfigStore`, `DisplayManager` | the same as objects: the pointer structure of the store with its deep clones, and the `Monitor` and `Manager` classes, each method one step of the two modules above |
| `ConfigBuilders` | the configurations built for the mirror and extend modes |
| `TouchMatrix`, `TouchMap` | the transformation matrix of a touchscreen, and which touchscreen belongs to which monitor |

Go's iteration over a map is an arbitrary choice in every loop. Requests to X, file writes and what was
read from files enter as parameters that say whether they went well; an X server that is not obedient
may refuse any request. Nil pointers are options, except in `ConfigStore` and `DisplayManager`, where
they are null.

## Where the code falls short of what one would expect

The code is modelled as it is. In these cases a natural expectation fails, and what holds instead is
proved as an equivalence or shown by an input.

- `apply`: an enabled monitor can lose its CRTC to another monitor that shared it
  (`XorgPlan.ClonedMonitorsLoseOne`); every monitor is reached exactly if none shared
  (`XorgPlan.PlanKeepsEveryMonitorIff`, `XorgApply.XMonitorManager.Apply`).
- The greedy search for a CRTC can fail although an allotment exists (`XorgPlan.GreedyCanFailNeedlessly`);
  it can fail exactly when some newcomer's CRTCs can all go to others (`XorgSearch.SomeOrderFailsIff`).
- If the server does not support the new screen size, `apply` returns an error and leaves switched off
  the CRTCs that stood in the way (`XorgApply.RefusedSizeLeavesOff`); the server is as before exactly if
  there were none (`XorgApply.UntouchedIff`).
- `bestMovePosition`: wide screens can leave no move, because int16 wraps around
  (`WlRect.WideScreensCanFail`); the exact condition is `WlRect.FindsNoMove` (`WlRect.NoCandidateIff`).
- `setSettings`: a property beyond 40960 bytes need not read back (`XSettingsStore.NumberBeyondTheLimit`);
  it does exactly when nothing but zeros follows from the first field that is cut
  (`XSettingsStore.ReadsBackIff`).
- `SysConfig.updateUuid` can report a change that it gave up on (`ConfigMigration.ReportCanBeWrong`); the
  exact condition is `ConfigMigration.ReportIsRightIff`.
- `filterModeInfos`: a resolution can be lost if a mode name does not determine its size
  (`Modes.ResolutionCanBeLost`); it survives under the exact condition of `Modes.ResolutionSurvivesIff`.
  The zero mode would hide duplicates, exactly as `Modes.DuplicatesIff` says, but no list that comes
  from X holds it (`Modes.ToModeInfos`, `Modes.NoDuplicates`).
- `resetChanges` restores the unturned size of the mode (`MonitorState.ResetTurnsSizeBack`, exactly as
  `MonitorState.ResetKeepsGeometryIff` says) and leaves the recorded changes (`MonitorState.ResetLeavesStaleChanges`); what is then modified describes the
  monitor exactly when the edits had come back by themselves (`MonitorState.ResetDescribesIff`).
- A reset leaves the configuration kept for the next save, exactly if the apply before it went through
  (`Transaction.ResetKeepsFuture`).
- A change of the display mode leaves it too, and it is then saved under the new mode
  (`SaveAndFind.ExtendSavedAsMirror`); where it is found afterwards is `SaveAndFind.SavedUnderAnotherMode`.
- In the only-one mode what is saved can be lost when the monitors are listed in another order
  (`SaveAndFind.ListingLosesSaved`). When one look-up finds it is `SaveAndFind.SavedIsGivenIff`, for any
  mode and any listing; when all listings do is `SaveAndFind.AlwaysFoundIff`.
- Mirror mode takes a best size that all monitors share without asking whether it is among their modes
  (`ConfigBuilders.BestSizeCanBeMissing`, `ConfigBuilders.MirrorSizesIff`).
- Extend mode makes monitors overlap beyond 32767 (`ConfigBuilders.ThirdMonitorCanOverlap`,
  `ConfigBuilders.DisjointIff`).
- A touchscreen configuration that was read half way hides a record as long as its monitor is connected
  (`TouchMap.HalfReadStaysHidden`); the exact condition is `TouchMap.InitialisedAgreesIff`.

## Model

| member | source | states |
|---|---|---|
| `RandR.XServer.SetScreenSize` | display/xorg.go:921-928 | the screen gets the size or nothing changes; an obedient server grants exactly the sizes in its range that cut off no active CRTC (RandR protocol specification, section 7, RRSetScreenSize) |
| `RandR.XServer.SetCrtcConfig` | display/xorg.go:937-957 | one CRTC and the outputs it gains or loses change together, or nothing does; an obedient server grants every admissible request (section 7, RRSetCrtcConfig) |
| `RandR.TurnedRect` | display/util.go:286-297 | for each of the four rotations (bits 1, 2, 4, 8) and any reflections: a CRTC takes the size of its mode, exchanged exactly for 90 and 270 degrees |
| `XorgProgram.ProgramOneMore` | display/xorg.go:793-798 | one more SetCrtcConfig extends the combined effect of those before it, so the order in which the map of requests is visited does not matter |
| `XorgProgram.ProgramFits` | display/xorg.go:793-798 | programming any part of the requests keeps every active CRTC inside the screen, if each request lies inside |
| `XorgProgram.ProgramStaysConsistent` | display/xorg.go:793-798 | the CRTC table and the output table still agree afterwards |
| `XorgProgram.StillAllowed` | display/xorg.go:793-798 | carrying out some of the requests makes none of the others inadmissible |
| `XorgProgram.DisableOneMore` | display/xorg.go:751-758 | switching off one more CRTC extends the combined effect of those switched off before |
| `XorgPlan.GetFreeCrtcMap` | display/xorg.go:558-569 | exactly the CRTCs without outputs are free |
| `XorgPlan.TurnedEdges` | display/xorg.go:899-907 | where a monitor ends: x + mode width and y + mode height for 0 and 180 degrees, x + mode height and y + mode width for 90 and 270 |
| `XorgPlan.FindFreeCrtc` | display/xorg.go:571-583 | hands out a free CRTC that can drive the output and takes it out of the free ones; 0 only if there is none |
| `XorgPlan.FreeDisabled` | display/xorg.go:622-639 | afterwards exactly the unused CRTCs and those of monitors to be disabled are free, and the disabled outputs are collected |
| `XorgPlan.PlanOne` | display/xorg.go:643-668 | one monitor gets its CRTC, or no CRTC that is still free can drive it |
| `XorgPlan.PlanEnabled` | display/xorg.go:642-668 | every enabled monitor is planned, in any order of the map, or some newcomer is left over that no free CRTC can drive |
| `XorgPlan.AddDisabled` | display/xorg.go:670-678 | a CRTC that is still free is switched off, whatever was planned for it |
| `XorgPlan.PlanCrtcs` | display/xorg.go:619-678 | the outcome is a plan or a proof that the search is stuck; if any free CRTC can drive any newcomer, it fails exactly when newcomers outnumber free CRTCs |
| `XorgPlan.AllocationIsSound` | display/xorg.go:619-677 | newly enabled monitors get distinct, free CRTCs that can drive them, and a monitor that has a CRTC keeps it |
| `XorgPlan.PlanKeepsEveryMonitorIff` | display/xorg.go:619-678 | the plan keeps every enabled monitor exactly when none of them shared its CRTC with another monitor |
| `XorgPlan.KeptAtTarget` | display/xorg.go:659-666 | a monitor that the plan keeps is configured on its own CRTC |
| `XorgPlan.AloneMeansKept` | display/xorg.go:659-666 | a monitor alone on its CRTC is not overwritten in the plan |
| `XorgPlan.SharingLosesOne` | display/xorg.go:659-677 | of two monitors on one CRTC, one loses its configuration |
| `XorgPlan.ClonedMonitorsLoseOne` | display/xorg.go:643-668 | a consistent server whose one CRTC shows the same picture on two outputs: there is a plan for both monitors, and every plan forgets one of them |
| `XorgPlan.StuckMeansTooMany` | display/xorg.go:654-657 | "failed to find free crtc" then means that newcomers outnumber free CRTCs |
| `XorgPlan.PlanMeansEnough` | display/xorg.go:654-657 | the converse: a plan exists only with enough free CRTCs |
| `XorgPlan.GreedyCanFailNeedlessly` | display/xorg.go:571-583 | an instance where the greedy search fails although another allotment serves everyone |
| `XorgSearch.VisitedIsAllotment` | display/xorg.go:642-668 | whatever the loop has handed out, in any order and with any picks, is an allotment to the monitors visited |
| `XorgSearch.AllotmentIsVisited` | display/xorg.go:642-668 | every allotment is what some order of visits hands out |
| `XorgSearch.SomeOrderFailsIff` | display/xorg.go:571-583 | for all tables: in some order, with some picks, "failed to find free crtc" is the outcome exactly when all free CRTCs that can drive some newcomer can be handed to other newcomers |
| `XorgSearch.StuckIffStarving` | display/xorg.go:654-657 | the allotments in which the planning of XorgPlan ends are exactly those that starve some newcomer |
| `XorgEvents.CrtcConfigIsAnnounced` | display/xorg.go:1142-1178 | the events RandR sends for a SetCrtcConfig mention every change and do not lie |
| `XorgEvents.RequestIsAnnounced` | display/xorg.go:1142-1178 | whatever one request does to the server has an announcement, and a mere change of the screen size needs none |
| `XorgEvents.StepKeepsSettling` | display/xorg.go:1142-1198 | whatever the server does next, handling what is queued would bring every cached entry up to date |
| `XorgEvents.DrainedMeansUpToDate` | display/xorg.go:386-410 | over every run: once the queue is empty, the cached tables are those of the server |
| `XorgEvents.RunCanEnd` | display/xorg.go:386-410 | no interleaving gets stuck: any run that has followed the history of the server part of the way can be continued until every change is made and every announcement handled |
| `XorgApply.GetScreenWidthHeight` | display/xorg.go:888-919 | the smallest screen that covers every connected and enabled monitor, each edge cut off at 65535; a monitor turned by 90 or 270 degrees is covered to x + mode height and y + mode width |
| `XorgApply.ShownIsCovered` | display/xorg.go:888-919 | the same of every shown monitor, by the bits of its rotation |
| `XorgApply.ScreenCoversIff` | display/xorg.go:909-916 | it covers them all exactly when none ends beyond 65535 |
| `XorgApply.ReflectionsDoNotTurn` | display/util.go:59-80 | the reflections that are let through do not swap width and height |
| `XorgApply.FindOutputInCrtcCfgs` | display/xorg.go:602-611 | the first output planned for the CRTC, or 0 |
| `XorgApply.ShouldDisableIff` | display/xorg.go:719-749 | when a CRTC must be off, field by field |
| `XorgApply.XMonitorManager.DecideDisable` | display/xorg.go:719-749 | a CRTC is switched off first exactly if asked for, if an edge of its turned picture lies beyond the new screen, or if the first output planned for it is a connected, enabled monitor that differs from it in x, y, width, height, rotation or reflection |
| `XorgApply.XMonitorManager.DisableOne` | display/xorg.go:715-759 | at most this CRTC is switched off; the screen fits after the request |
| `XorgApply.XMonitorManager.DisableCrtcs` | display/xorg.go:714-759 | exactly the CRTCs with outputs that are in the way, field by field, are switched off, in any order; the loop stops at the first refusal; every state on the way fits the screen |
| `XorgApply.XMonitorManager.MakeRoom` | display/xorg.go:686-770 | afterwards every CRTC that is still active fits the new screen, so an obedient server refuses the resize exactly for a size out of its range, and then the CRTCs in the way stay switched off |
| `XorgApply.XMonitorManager.ProgramOne` | display/xorg.go:793-798 | granted or refused, the state is the combined effect of what was granted, and the screen fits |
| `XorgApply.XMonitorManager.ProgramCrtcs` | display/xorg.go:793-798 | every planned request is made, refusals are skipped, and an obedient server grants them all |
| `XorgApply.XMonitorManager.Commit` | display/xorg.go:686-800 | every state on the way fits the screen; an obedient server leads to an error exactly when it does not support the computed size, and else to the outcome |
| `XorgApply.XMonitorManager.Apply` | display/xorg.go:613-839 | over the whole call, refusals included, every active CRTC stays inside the screen, and the server goes from state to state by single requests; with an obedient server either the CRTCs run out and nothing changes, or the computed size is not supported and exactly the CRTCs in the way are left switched off, or the tables agree, the screen fits, the plan is visible and every enabled monitor is alone on its CRTC exactly when none shared one |
| `XorgApply.XMonitorManager.HandleEvent` | display/xorg.go:1142-1178 | one announcement brings one cached entry in line |
| `XorgApply.XMonitorManager.CompareAll` | display/xorg.go:412-466 | true exactly when the cached tables show what was planned and every disabled output is without CRTC |
| `XorgApply.PlanStaysInside` | display/xorg.go:686-688 | every planned request lies inside the computed screen |
| `XorgApply.PlanIsAllowed` | display/xorg.go:793-798 | after room was made, every planned request is admissible |
| `XorgApply.FinalOutputs` | display/xorg.go:793-803 | where every output ends up: disabled ones nowhere, kept ones on their CRTC |
| `XorgApply.FinalMatches` | display/xorg.go:412-466 | after programming, compareAll holds of the server |
| `XorgApply.MatchingIsShown` | display/xorg.go:412-466 | compareAll succeeds only if every CRTC planned for a monitor shows it alone at its x, y, mode, rotation and reflection, and every disabled output is without CRTC |
| `XorgApply.ReachedIffKept` | display/xorg.go:613-682 | a monitor ends up alone on its CRTC as requested exactly when the plan kept it |
| `XorgApply.OutcomeOf` | display/xorg.go:613-839 | the whole outcome, from the plan and the combined effect of the requests |
| `XorgApply.UntouchedIff` | display/xorg.go:767-770 | an apply that ends because the size is refused leaves the server as it was exactly when no CRTC had to be switched off |
| `XorgApply.RefusedSizeLeavesOff` | display/xorg.go:751-770 | an instance: both monitors of the cloned server disabled, the empty screen refused, CRTC 1 left switched off |
| `XorgApply.NothingShown` | display/xorg.go:888-919 | with no monitor shown the computed screen is empty, so the call fails exactly when the server does not support an empty screen |
| `XorgApply.ApplyIsConfirmed` | display/xorg.go:386-466 | for the requests that a successful apply made: in every run of the server and its event queue compareAll succeeds once every announcement is handled, however they interleave, and every run can be continued to that point |
| `WlRect.EvenAxisIsExact` | wl_display/rect.go:28-45 | on one axis, even sizes and no wrap-around: the truncating int16 test is true overlap |
| `WlRect.EvenIntersectsIsExact` | wl_display/rect.go:28-45 | for even sizes in the no-wrap range, intersects is overlap of the open rectangles |
| `WlRect.AxisIsOffByAtMostOne` | wl_display/rect.go:28-45 | on one axis and for any sizes, a false answer hides at most one pixel of overlap, and a true answer needs intervals that at least touch |
| `WlRect.IntersectsIsOffByAtMostOne` | wl_display/rect.go:28-45 | for rectangles of any sizes in the no-wrap range: a false answer leaves at most one pixel of overlap on some axis, and a true answer needs rectangles that at least touch on both |
| `WlRect.TryPair` | wl_display/rect.go:56-104 | one corner pair: better only if allowed, shorter and free of overlap |
| `WlRect.BestMoveOffset` | wl_display/rect.go:47-110 | the first of the shortest admissible moves, in the order of the loops; none only if no pair is admissible |
| `WlRect.MovedIsEdgeToEdge` | wl_display/rect.go:90-97 | where the moved rectangle ends up does not depend on where it was |
| `WlRect.CornersAre` | wl_display/rect.go:48-53 | corners 0 and 2 are on the left, 1 and 3 on the right, 0 and 1 at the top, 2 and 3 at the bottom |
| `WlRect.AllowedIffMayMeet` | wl_display/rect.go:71-87 | which corners may meet, by sides: side by side, left and right at the same height; one above the other, top and bottom on the same side; diagonally, opposite corners; else any |
| `WlRect.AxisBothWays` | wl_display/rect.go:28-45 | placed next to the other on either side of one axis the test still reads an overlap exactly when the doubled middle is so near zero that both moves wrap around |
| `WlRect.AxisAligned` | wl_display/rect.go:28-45 | the same for aligned edges, in closed form |
| `WlRect.NoCandidateIff` | wl_display/rect.go:47-110 | for all inputs: no move is found exactly under a condition on the sizes and the position of the second rectangle |
| `WlRect.SmallScreensAlwaysMove` | wl_display/rect.go:47-110 | sizes that together stay below 2^15 always leave a move |
| `WlRect.WideScreensCanFail` | wl_display/rect.go:47-110 | two screens 20000 wide for which the left-right mode finds none |
| `WlRect.CandidatesAreExact` | wl_display/rect.go:82-99 | in range and with even sizes, the admissible moves are the allowed ones that do not overlap |
| `WlRect.BestMovePosition` | wl_display/rect.go:112-150 | fails exactly when no move is found, and never in range; otherwise the shortest admissible move of corners that may meet, shifted to start at the origin; in range the rectangles stand side by side, above each other or diagonally, as asked for, corner lies against corner and at most one row or column is shared, none if no side is a single pixel; with even sizes no move of corners that may meet, without overlap, is shorter |
| `WlRect.DiagonalKeepsOrder` | wl_display/rect.go:80-83 | an instance: two screens apart on the diagonal can meet at the near corners, at a squared distance of 5000 |
| `WlRect.OddSizesAreApart` | wl_display/rect.go:112-150 | the same bound on the overlap for every admissible move, whatever the parity of the sizes |
| `XSettingsStream.ByteBuffer.WriteHeader` | xsettings/xsettings_writer.go:176-183 | appends exactly the encoded header (XSETTINGS specification, "_XSETTINGS_SETTINGS Format") |
| `XSettingsStream.ByteBuffer.WriteItem` | xsettings/xsettings_writer.go:163-174 | appends exactly the encoded item |
| `XSettingsStream.ByteBuffer.WriteString` | xsettings/xsettings_writer.go:189-193 | appends length, text and padding |
| `XSettingsStream.ByteBuffer.WriteColor` | xsettings/xsettings_writer.go:195-200 | appends the four channels |
| `XSettingsStream.WriteItems` | xsettings/xsettings_writer.go:81-83 | appends all items in order |
| `XSettingsStream.MarshalSettingData` | xsettings/xsettings_writer.go:74-86 | writes the encoding of the whole store, and so the bytes of that layout |
| `XSettingsLayout.EncodeIsLaidOut` | xsettings/xsettings_writer.go:163-200 | what is written, byte by byte: the byte order at 0, serial and count at 4 and 8 with the low byte first; for each item the type byte 0, 1 or 2, the length of the name at 2, the name at 4, the serial after the padding, then the bytes of the value; zeros for padding |
| `XSettingsLayout.LayoutIsRead` | xsettings/xsettings_reader.go:85-178 | any bytes laid out like that are read as that store, whatever the padding holds |
| `XSettingsStream.ByteReader.Read` | xsettings/xsettings_reader.go:111-133 | a read that finds too little uses up the rest and leaves zeros |
| `XSettingsStream.ByteReader.ReadHeader` | xsettings/xsettings_reader.go:154-161 | consumes exactly what decoding a header consumes |
| `XSettingsStream.ByteReader.ReadItem` | xsettings/xsettings_reader.go:135-178 | consumes exactly what decoding an item consumes |
| `XSettingsStream.UnmarshalSettingData` | xsettings/xsettings_reader.go:85-109 | reads what decoding yields, from any bytes, and from laid out ones the store they stand for |
| `XSettingsCodec.HeaderRoundTrip` | xsettings/xsettings_reader.go:154-161 | a written header is read back, whatever follows it |
| `XSettingsCodec.ValueRoundTrip` | xsettings/xsettings_reader.go:163-178 | a written value of any of the three types is read back |
| `XSettingsCodec.ItemRoundTrip` | xsettings/xsettings_reader.go:135-152 | a written item is read back |
| `XSettingsCodec.ItemsRoundTrip` | xsettings/xsettings_reader.go:101-106 | any number of written items is read back |
| `XSettingsCodec.RoundTrip` | xsettings/xsettings_reader.go:85-109 | unmarshal after marshal is the identity on every well-formed store |
| `XSettingsCodec.EncodingIsInjective` | xsettings/xsettings_writer.go:74-86 | different well-formed stores have different encodings |
| `XSettingsCodec.ItemIsAligned` | xsettings/xsettings_writer.go:141-200 | every encoded item is a multiple of four bytes long |
| `XSettingsStore.XSManager.GetPropItem` | xsettings/xsettings_reader.go:75-83 | the first item with the name, or none |
| `XSettingsStore.XSManager.ModifyProperty` | xsettings/xsettings_writer.go:13-72 | the items with the name get the value and one more write; a value of the wrong type stops the program |
| `XSettingsStore.XSManager.UpdateOne` | xsettings/xsettings.go:251-269 | one setting is changed or added |
| `XSettingsStore.XSManager.SetSettings` | xsettings/xsettings.go:240-277 | decode, update and encode amount to one step on the decoded store; a panic leaves the property as it was |
| `XSettingsStore.PanicsIff` | xsettings/xsettings.go:251-269 | a run panics exactly if a setting comes after one of the same name and another type |
| `XSettingsStore.UpdateRefines` | xsettings/xsettings.go:251-269 | one setting does to the decoded store what it does to a map from names to values and write counts |
| `XSettingsStore.CallRefines` | xsettings/xsettings.go:240-277 | one call does too, and its result reads back as long as it stays within 40960 bytes |
| `XSettingsStore.StoreRefinesMap` | xsettings/xsettings.go:240-277 | over every run of calls from an empty property the encoded store represents the map: unique names, last values, write counts |
| `XSettingsStore.RunHoldsLastValue` | xsettings/xsettings.go:240-277 | after any run the map holds, for each name, the value set last and the number of times it was set |
| `XSettingsStore.RunIsLaidOut` | xsettings/xsettings.go:240-277 | after any run the bytes of the property: byte order 0, the number of calls at 4, the number of names at 8, and for each name somewhere its type, its last value and its number of writes |
| `XSettingsStore.RunCountsCalls` | xsettings/xsettings.go:248-250 | the map counts the calls |
| `XSettingsStore.RunLooksUpLastValue` | xsettings/xsettings.go:240-277 | what a reader sees after any run: the value set last, the item count, and serials counting calls and writes modulo 2^32 |
| `XSettingsStore.TooLongIsLost` | xsettings/xsettings_setting.go:54-67 | a string longer than 40960 bytes with a nonzero byte in it does not survive, wherever it is in the store |
| `XSettingsCut.ItemsCut` | xsettings/xsettings_reader.go:111-178 | any number of items read from bytes that stop short: they come back exactly when all bytes of the fields that were cut are zero, because a short read leaves zeros |
| `XSettingsCut.CutReadsBackIff` | xsettings/xsettings_reader.go:85-133 | a well-formed store cut off after any number of bytes reads back exactly when everything from its first cut field on is zero |
| `XSettingsStore.ReadsBackIff` | xsettings/xsettings_setting.go:54-67 | for every well-formed store: the next call finds it as it was left exactly when it is at most 40960 bytes long, or everything from the first cut field on is zero |
| `XSettingsStore.NumberBeyondTheLimit` | xsettings/xsettings.go:240-277 | one call with a long string and a number reaches a store of 40964 bytes that reads back exactly when the number is zero |
| `XResources.MarshalXResources` | xsettings/xsettings_xresource.go:115-121 | writes one line for each entry, in order |
| `XResources.UnmarshalXResources` | xsettings/xsettings_xresource.go:123-142 | reads one entry from each line that has exactly one separator |
| `XResources.RoundTripIff` | xsettings/xsettings_xresource.go:115-142 | a list survives writing and reading exactly when no key and no value contains a line break or a colon followed by a tab |
| `XResources.ReadIsClean` | xsettings/xsettings_xresource.go:123-142 | whatever the text, what is read contains neither |
| `XResources.Get` | xsettings/xsettings_xresource.go:106-113 | the first entry with the key, or nil |
| `XResources.UpdateProperty` | xsettings/xsettings_xresource.go:92-104 | the first entry with the key gets the value in place, or a new one is appended; every other entry is untouched |
| `XResources.UpdateReachesText` | xsettings/xsettings_xresource.go:62-142 | an update between reading and writing: the stored text then gives the key its new value and every other key its old one |
| `ConfigUuid.OutputIdsAreWellFormedIff` | display/util.go:219-247 | the ids of an output end as they should and contain no delimiter, exactly when the name they are made of allows it |
| `ConfigUuid.CurrentIdIsOwn` | display/monitor.go:537-544 | a new id names the monitor that owns it |
| `ConfigUuid.UpdatedId` | display/displayconf.go:432-443 | an id that ends in "|v1" stays; any other becomes the new id of the first monitor that bears it, and stays if there is none |
| `ConfigUuid.UpdateUuidTwice` | display/displayconf.go:432-443 | an id is rewritten once and for all, even if the monitors are listed anew |
| `ConfigUuid.UpdateMonitors` | display/displayconf.go:450-465 | the entries that survive the loop and whether any id was rewritten |
| `ConfigUuid.UpdateMode` | display/displayconf.go:445-474 | all ids of a mode are rewritten or none, while the report says whether any could be |
| `ConfigUuid.AllSurviveIff` | display/displayconf.go:467-473 | the update is kept exactly when every id is new or known |
| `ConfigUuid.ModeUpdatedTwice` | display/displayconf.go:445-474 | rewriting a mode twice is rewriting it once, even if the monitors are listed anew |
| `ConfigUuid.SilentModeIsUnchanged` | display/displayconf.go:445-474 | no report, no change |
| `ConfigUuid.ModeChangesIff` | display/displayconf.go:445-474 | a mode changes exactly when some id of it could be rewritten and every id is new or known |
| `ConfigUuid.RekeyedTwice` | display/displayconf.go:246-276 | moving the entries of a map to their new keys twice is moving them once, in any order of visits, as long as the second time moves nothing new |
| `ConfigUuid.NothingMoves` | display/displayconf.go:246-276 | if nothing is to move the map stays as it is |
| `ConfigUuid.RekeyedChangesIff` | display/displayconf.go:246-276 | the map changes exactly when some entry moves to another key or has its value rewritten to another |
| `ConfigUuid.SizeKeptIff` | display/displayconf.go:273-275 | entries are lost exactly when two of them go to the same key |
| `ConfigUuid.FoundAtDestination` | display/displayconf.go:273-275 | without collisions every entry is found at its new key |
| `ConfigMigration.NewKeyTwice` | display/displayconf.go:251-263 | the key of a screen whose monitors are all known is rewritten once and for all, and stays known, in whatever order the monitors are listed |
| `ConfigMigration.NewKeyIsLookupKey` | display/monitor.go:486-506 | the rewritten key is the one the connected monitors are looked up under, in whatever order they are listed |
| `ConfigMigration.TwoMonitorsKey` | display/monitor.go:486-506 | an instance: the key of two monitors is their new ids in order, with a comma between them |
| `ConfigMigration.UpdateOnlyOneMap` | display/displayconf.go:410-424 | the map of the only-one mode is moved to new ids, in any order of visits |
| `ConfigMigration.UpdateScreen` | display/displayconf.go:391-430 | every mode and the only-one id of a screen are rewritten, and a report tells whether any of them said so |
| `ConfigMigration.ScreenMigratedTwice` | display/displayconf.go:391-430 | rewriting a rewritten screen changes nothing |
| `ConfigMigration.ModeKeepsSettings` | display/displayconf.go:445-474 | apart from the id, no field of any monitor changes |
| `ConfigMigration.SysConfig.UpdateUuids` | display/displayconf.go:246-314 | the whole configuration is migrated in two phases; the report is true exactly when some entry was to move or had no colon |
| `ConfigMigration.SysConfig.UpdateScreens` | display/displayconf.go:247-276 | screens whose monitors are all known move to their canonical key |
| `ConfigMigration.SysConfig.UpdateOneScreen` | display/displayconf.go:252-263 | one screen: whether it moves, where to, and as what |
| `ConfigMigration.SysConfig.UpdateOneFillMode` | display/displayconf.go:282-299 | one fill mode key: whether it is valid, whether it moves, and where to |
| `ConfigMigration.SysConfig.UpdateFillModes` | display/displayconf.go:278-313 | fill modes move to new ids and keys without a colon are dropped |
| `ConfigMigration.FillModeKeyTwice` | display/displayconf.go:282-299 | a fill mode key is rewritten once and for all |
| `ConfigMigration.NewFillModeKeyIs` | display/displayconf.go:282-299 | for any id and size: the key made of them moves exactly when the id does, to the new id and the same size; a key without a colon is none |
| `ConfigMigration.MigrationIsIdempotent` | display/displayconf.go:246-314 | migrating a migrated configuration changes nothing, in whatever order the maps are visited and the monitors are listed the second time |
| `ConfigMigration.SameScreensMove` | display/displayconf.go:247-263 | which screens move does not depend on the order of the monitors |
| `ConfigMigration.SilentMeansUnchanged` | display/displayconf.go:246-314 | a false report means that nothing changed |
| `ConfigMigration.ReportCanBeWrong` | display/displayconf.go:459-473 | an instance where the report is wrong: a mode with one known and one unknown old id is reported but left alone |
| `ConfigMigration.OnlyOneChangesIff` | display/displayconf.go:410-424 | the map of the only-one mode changes exactly when it holds an id that can be rewritten or a mode that changes |
| `ConfigMigration.ScreenChangesIff` | display/displayconf.go:391-430 | a screen changes exactly when one of its modes, its only-one map or its only-one id does |
| `ConfigMigration.ScreensChangeIff` | display/displayconf.go:247-276 | the screens change exactly when one whose monitors are all known gets another key or changes itself |
| `ConfigMigration.FillModesChangeIff` | display/displayconf.go:278-313 | the fill modes change exactly when a key has no colon or moves |
| `ConfigMigration.ReportIsRightIff` | display/displayconf.go:246-314 | for every configuration: what changes at all, and that the report is right exactly when nothing moves or something that moves also changes |
| `ConfigMigration.UnknownScreenUntouched` | display/displayconf.go:259-263 | a screen that names an unknown monitor stays exactly as it was |
| `ConfigMigration.ScreensKeptIff` | display/displayconf.go:261-275 | no screen is lost exactly when no two of them go to the same key |
| `ConfigMigration.MigratedScreenIsFound` | display/displayconf.go:246-276 | without collisions the migrated screen is found under the key the connected monitors are looked up under, with only ids rewritten |
| `Modes.FindFirstMode` | display/mode.go:118-125 | the first mode that satisfies the condition, or the zero mode |
| `Modes.FilterModeInfos` | display/mode.go:61-116 | the loop computes the filter |
| `Modes.NewModeIsKept` | display/mode.go:66-112 | a mode with the saved id is kept, and so is one with a plain name if no mode before it has its width, height and rounded rate |
| `Modes.VariantIsDropped` | display/mode.go:78-91 | an unsaved variant is dropped if some mode of its width and height has a name that ends in a digit |
| `Modes.VariantNameIff` | display/mode.go:58-58 | the names the pattern matches: digits, an x, digits, and at least one more character, none a digit |
| `Modes.ResultIsSubsequence` | display/mode.go:61-116 | the result is a subsequence of the input in its order |
| `Modes.SavedModesAreKept` | display/mode.go:66-70 | every mode with the saved id is kept |
| `Modes.KeptBecauseNew` | display/mode.go:72-112 | any other mode is kept because no earlier one has its size and rounded rate |
| `Modes.DuplicatesNeedZeroMode` | display/mode.go:96-108 | two kept modes of equal size and rate, neither saved, need the zero mode before them |
| `Modes.NoDuplicates` | display/mode.go:61-116 | in a list without the zero mode no two kept modes, the later one not saved, have equal width, height and rounded rate |
| `Modes.ToModeInfos` | display/mode.go:191-199 | the known modes of the ids, and never the zero mode: no list that comes from X has duplicates |
| `Modes.DuplicatesIff` | display/mode.go:61-116 | for any list: a duplicate is kept exactly when the zero mode comes before every mode that passes and looks like it, and one that passes, looks like it and is not saved comes after |
| `Modes.ZeroModeHidesDuplicates` | display/mode.go:96-108 | an instance with the zero mode, as only a list built elsewhere can hold it |
| `Modes.ResolutionSurvivesIff` | display/mode.go:72-112 | a resolution survives exactly when one of its modes is saved or not shadowed by a name |
| `Modes.NoResolutionIsLost` | display/mode.go:72-112 | if a name determines its size, no resolution is lost |
| `Modes.ResolutionCanBeLost` | display/mode.go:72-112 | if not, one can be |
| `Modes.FilterIsIdempotent` | display/mode.go:61-116 | filtering a filtered list changes nothing |
| `MonitorState.RunsKeepGeometry` | display/monitor.go:202-384 | over every sequence of edits and applied configurations the shown size is width and height of the mode for 0 and 180 degrees, and height and width for 90 and 270 |
| `MonitorState.RotationTurns` | display/monitor.go:355-384 | after a change of the rotation the monitor keeps its mode and shows it turned exactly for 90 and 270 degrees |
| `MonitorState.ResetKeepsGeometryIff` | display/monitor.go:408-411 | a reset breaks this exactly when the restored rotation turns a mode that is not square |
| `MonitorState.ResetTurnsSizeBack` | display/monitor.go:392-415 | an instance: an upright monitor that is moved and reset comes back with the size of its unturned mode |
| `MonitorState.SelectModeHasSizeIff` | display/monitor.go:274-284 | the selected mode has the wanted size exactly when a mode or the best mode has it |
| `MonitorState.ConfiguredShows` | display/manager.go:2097-2111 | what an enabled configuration makes of a monitor, field by field |
| `MonitorState.ConfiguredHasSizeIff` | display/manager.go:2103-2110 | a configured monitor has the configured size exactly when one of its modes has it, upright for 0 and 180 degrees and turned for 90 and 270 |
| `MonitorState.ConfigRoundTrip` | display/manager.go:2094-2113 | storing a monitor and applying what was stored gives back position, rotation and reflection, and the size exactly when a mode or the best mode has it |
| `MonitorState.CodeIsParsed` | display/util.go:59-80 | a rotation and a reflection come back from the code they are sent as |
| `MonitorState.RefreshShowsConfigured` | display/manager.go:1365-1381 | once X shows what a configuration asks for, the refreshed monitor is what configuring it would make of it |
| `MonitorState.FirstEditBacksUp` | display/monitor.go:186-200 | after any edits either none took effect or the backup holds the state before the first |
| `MonitorState.ResetUndoesEdits` | display/monitor.go:392-415 | a reset undoes any number of edits; the size comes back exactly when the rotation did not turn it |
| `MonitorState.EditsAreRecorded` | display/monitor.go:108-116 | after any edits, every recorded change is the present value and what is not recorded has not changed |
| `MonitorState.EditsReachConfig` | display/displayconf.go:558-587 | a configuration that described the monitor describes it again once the recorded changes are made to it, reflection and brightness aside |
| `MonitorState.ResetLeavesStaleChanges` | display/monitor.go:392-415 | an instance: a reset leaves the recorded position, so a later edit brings it back |
| `MonitorState.ResetDescribesIff` | display/monitor.go:392-415 | after any edits and a reset the modified configuration describes the monitor exactly when the edits had already come back to what the reset restores |
| `Transaction.IdIgnoresOrder` | display/monitor.go:486-506 | the id of the connected monitors does not depend on the order in which they are listed |
| `Transaction.IdOfTwo` | display/monitor.go:486-506 | one monitor goes by its own ids; those of two are put in order, with a comma between them |
| `Transaction.FutureIsJustified` | display/manager.go:1991-2026 | over every run, replacements of the whole configuration included, whatever is kept for the next save was applied, for that very set of monitors, and nothing has superseded it |
| `Transaction.StoredOnlyBySave` | display/manager.go:1894-2043 | only a save, the operations that store a screen of their own and a replacement of the whole configuration, by the system service or under new monitor ids, change the stored screens; no edit, apply, reset or clean does |
| `Transaction.SaveTouchesOneScreen` | display/displayconf.go:218-228 | a save changes at most the screen of the connected monitors |
| `Transaction.SaveSafety` | display/manager.go:1894-2026 | over every run: what a save stores is the configuration last applied, successfully and for the same monitors, with no failed apply and no clean since, and until the save nothing alters the stored screens but saves whose file could not be written, operations that store a screen of their own and replacements of the whole configuration |
| `SaveAndFind.SavedIsGivenIff` | display/manager.go:1909-1930 | for a save and a later look-up by any monitors, listed in any order, in any mode: what was saved is given exactly when the look-up goes to the place where the save put it and, in the only-one mode, that is a single configuration, or when it goes elsewhere and the same was there before |
| `SaveAndFind.SavedIsFoundIff` | display/manager.go:1459-1468 | the same monitors in the same mode, listed anew in any order: what was saved is found in the single, mirror and extend modes; in the only-one mode exactly when it is a single configuration and the same enabled monitor comes first, or the same was already stored for the one that does |
| `SaveAndFind.AlwaysFoundIff` | display/xorg.go:861-872 | over every order in which the monitors can be listed: what was saved is found in all of them exactly in a mode with one place for it, or if the only-one mode finds it under each enabled monitor |
| `SaveAndFind.ListingLosesSaved` | display/manager.go:1503-1512 | an instance: two enabled monitors in the only-one mode, saved for one listing and not found for the other |
| `Transaction.ResetKeepsFuture` | display/manager.go:2028-2043 | a reset does not drop what was applied: after a reset and a later edit, a save stores something exactly when the apply had gone through, and then what was applied |
| `Transaction.AskedAreChanged` | display/manager.go:2009-2016 | each entry asked for has every property recorded by the first connected monitor that bears its id, old or new, and is otherwise the stored one; an entry that no monitor bears is the stored one |
| `Transaction.EditsAreAskedFor` | display/manager.go:2009-2016 | after any edits of a monitor, from a state its stored entry described, the entry asked for describes the edited monitor |
| `SaveAndFind.SavedUnderAnotherMode` | display/manager.go:1913-1929 | for any mode at the time of the apply, any mode it is changed to before the save, any later look-up and any listings: what was applied is found exactly where the mode at the time of the save puts it, or where the same was stored before |
| `SaveAndFind.ExtendSavedAsMirror` | display/manager.go:1913-1929 | an instance: what was applied in the extend mode is saved as the mirror configuration, and given back in the extend mode exactly when the screen stored meanwhile already had it there |
| `ConfigStore.CloneConfigs` | display/displayconf.go:596-606 | new, distinct objects with equal values |
| `ConfigStore.CloneMode` | display/displayconf.go:524-531 | a new object with equal value that shares nothing, nil for nil |
| `ConfigStore.CloneOnlyOneMap` | display/displayconf.go:486-491 | a clone of every entry, no two of them shared |
| `ConfigStore.CloneScreen` | display/displayconf.go:476-493 | a deep clone: equal value, all objects new, its modes all different objects |
| `ConfigStore.GetSingleMonitorConfigs` | display/displayconf.go:608-613 | the configurations of the single mode |
| `ConfigStore.GetMonitorConfigs` | display/displayconf.go:615-643 | mode 1 gives the mirror configurations, mode 2 those of the extend mode, mode 3 those of the id |
| `ConfigStore.SetSingleMonitorConfigs` | display/displayconf.go:645-650 | in place, only the single mode changes |
| `ConfigStore.KeepOne` | display/displayconf.go:683-695 | of several configurations the first enabled one is kept, if there is one |
| `Transaction.OnlyOneKeepsFirst` | display/displayconf.go:683-695 | of several configurations the first enabled one; a single one, or several disabled ones, as they are |
| `ConfigStore.SetOnlyOneMonitorConfigs` | display/displayconf.go:671-698 | in place, only the entry of the id changes |
| `ConfigStore.SetMonitorConfigs` | display/displayconf.go:652-669 | in place, only the configurations of the mode change: mirror for 1, extend for 2, the entry of the id for 3 |
| `DisplayManager.Monitor.Clone` | display/monitor.go:130-171 | a copy of every field but the backup |
| `DisplayManager.Monitor.MarkAsChanged` | display/monitor.go:186-200 | the flag is raised and the first change takes the backup |
| `DisplayManager.Monitor.Enable` | display/monitor.go:202-217 | the edit of the same name, in place; afterwards the monitor is as asked for |
| `DisplayManager.Monitor.SetMode` | display/monitor.go:219-259 | the edit of the same name; an error exactly for a mode that is neither current nor listed, and else the current mode has the id |
| `DisplayManager.Monitor.SetModeBySize` | display/monitor.go:286-296 | the edit of the same name, in place |
| `DisplayManager.Monitor.SetRefreshRate` | display/monitor.go:298-311 | the edit of the same name, in place |
| `DisplayManager.Monitor.SetPosition` | display/monitor.go:313-340 | the edit of the same name, rejected while an apply is under way; else the monitor stands at x, y |
| `DisplayManager.Monitor.SetReflect` | display/monitor.go:342-353 | the edit of the same name, in place; afterwards the monitor has the reflection |
| `DisplayManager.Monitor.SetRotation` | display/monitor.go:355-384 | the edit of the same name, in place: afterwards the monitor has the rotation, and width and height of its mode, exchanged for 90 and 270 degrees |
| `DisplayManager.Monitor.ResetChanges` | display/monitor.go:392-415 | the reset, in place |
| `DisplayManager.Monitor.UseConfig` | display/manager.go:2083-2113 | the monitor takes its configuration or is switched off |
| `DisplayManager.GetConnectedMonitors` | display/xorg.go:861-872 | the connected monitors, each once, in any order |
| `DisplayManager.GetMonitorsId` | display/monitor.go:486-506 | the id of the listed monitors |
| `DisplayManager.GetOnlyOneMonitorUuid` | display/manager.go:1503-1512 | the id of the first enabled monitor in mode 3; none in any other mode or if none is enabled |
| `DisplayManager.GetMonitorByUuid` | display/monitor.go:537-544 | the first monitor with the id, old or new |
| `DisplayManager.ModifyConfigs` | display/manager.go:2010-2016 | every configuration gets the changes recorded by the first monitor that bears its id, in place, even if the list holds it twice, and is otherwise what it was |
| `DisplayManager.GetConfigByUuid` | display/displayconf.go:700-707 | the configuration returned is listed, has the id, and no earlier one does; null if none has it |
| `DisplayManager.ConfiguredShowsItsConfig` | display/manager.go:2083-2113 | the first configuration with the id decides: if enabled, the monitor is on with its x, y, rotation and reflection; if disabled, or if there is none, it is off and otherwise as before |
| `DisplayManager.Manager.ApplySysMonitorConfigs` | display/manager.go:2065-2139 | an error exactly if nothing is enabled or X refuses; unless nothing is enabled, each copy is on with x, y, rotation and reflection of the first configuration with its id if that one is enabled, and off otherwise; without an error the live monitors show what X reports, and a mode that is given becomes the display mode |
| `DisplayManager.ConfigureMonitors` | display/manager.go:2083-2113 | every monitor of the map shows what the first configuration with its id asks for, or is switched off, in any order |
| `DisplayManager.UpdateMonitors` | display/xorg.go:806-816 | every monitor that X reports on is updated from its report, in any order, and the others stay as they were |
| `DisplayManager.Monitor.Update` | display/manager.go:1365-1381 | what a monitor shows comes from the report; what was edited and recorded stays |
| `DisplayManager.Manager.GetSysScreenConfig` | display/displayconf.go:136-147 | a deep clone of what is stored, or an empty screen |
| `DisplayManager.Manager.SetSysScreenConfig` | display/displayconf.go:218-228 | a deep clone is stored; no object of the store is written and every other screen keeps its value |
| `DisplayManager.Manager.SetFuture` | display/manager.go:1972-1978 | a clone is kept with the id |
| `DisplayManager.Manager.GetFuture` | display/manager.go:1980-1989 | a clone of what is kept, if it is for these monitors |
| `DisplayManager.Manager.ClearFuture` | display/manager.go:1964-1970 | nothing is kept |
| `DisplayManager.Manager.GetSuitableSysMonitorConfigs` | display/manager.go:1459-1468 | a clone of the stored configuration that suits the number of monitors and the display mode |
| `DisplayManager.Manager.CloneMonitorMap` | display/manager.go:2050-2063 | new copies of all monitors under the same ids, equal in every field but the backup |
| `DisplayManager.Manager.TryChanges` | display/manager.go:2004-2019 | what is asked of X is the stored configuration with the changes recorded by the first monitor that bears each id; the store is not written, and the live monitors only from what X reports after it went well |
| `DisplayManager.Manager.ApplyChanges` | display/manager.go:1991-2026 | one ApplyChanges step, and nothing while an apply is under way or nothing has changed; if it goes well, the stored configuration with the recorded changes is kept for the next save, and the live monitors show what X reports; else nothing is kept |
| `DisplayManager.Manager.SaveScreen` | display/manager.go:1909-1930 | the stored screen of the connected monitors gets what is kept for them |
| `DisplayManager.Manager.Save` | display/manager.go:1894-1938 | one Save step; the monitors are cleaned exactly if something was stored and the file was written |
| `DisplayManager.Manager.MarkClean` | display/manager.go:1940-1956 | backups, recorded changes, the flag and the kept configuration are gone |
| `DisplayManager.Manager.ResetChangesWithoutApply` | display/manager.go:2028-2043 | every monitor is reset if anything had changed, and nothing else but the flag is written |
| `ConfigBuilders.GetSizeModeMap` | display/mode.go:270-277 | exactly the sizes of the modes |
| `ConfigBuilders.AllHaveIff` | display/util.go:155-159 | a size is counted once for every monitor exactly when all support it |
| `ConfigBuilders.GetMonitorsCommonSizes` | display/util.go:135-160 | the shared best size, supported or not, if the best modes are equal; else exactly the sizes that all support |
| `ConfigBuilders.GetMaxAreaSize` | display/util.go:162-173 | the first size of the largest area |
| `ConfigBuilders.GetPriorMonitor` | display/manager.go:2209-2230 | the list is sorted in place by port priority and connection time, and a monitor is returned that has the smallest priority and, of those, the earliest time |
| `ConfigBuilders.GetDefaultPrimaryMonitor` | display/manager.go:2189-2199 | the built-in monitor if it is listed, with the list untouched; else one that comes first, with the list sorted by rank; none only for an empty list |
| `ConfigBuilders.BuildConfigForModeMirror` | display/manager.go:1399-1426 | an error exactly if the best modes differ and no size is common; else every monitor is on, upright, at the origin with its first mode of the largest common size, under its own id, in the order in which the search for the primary monitor leaves the list |
| `ConfigBuilders.MirrorIsBuilt` | display/manager.go:1408-1423 | a built mirror configuration bears id and name of its monitor, is on, at the origin, upright, not reflected, at brightness 1 and of the chosen size if the monitor has it |
| `ConfigBuilders.MirrorSizesIff` | display/manager.go:1415-1417 | all monitors show the chosen size exactly when all support it; a best size missing from the modes leaves a monitor without size |
| `ConfigBuilders.BestSizeCanBeMissing` | display/manager.go:1415-1417 | an instance: two monitors share a best mode that neither lists, and both are left without a size |
| `ConfigBuilders.ChosenSizeIsSupported` | display/util.go:135-160 | with each best mode among the modes the chosen size is supported by all |
| `ConfigBuilders.OnePrimary` | display/manager.go:1412-1414 | distinct ids make exactly one configuration primary |
| `ConfigBuilders.SortMonitorsSorts` | display/util.go:249-261 | sort.Slice: the same monitors, and no monitor before one that should come first, if the order is transitive and no two monitors come before each other |
| `ConfigBuilders.OrderMakesSense` | display/util.go:250-260 | the order of the primary monitor and the ids is transitive, and with distinct names no two monitors come before each other |
| `ConfigBuilders.SortedIsById` | display/util.go:249-261 | in a sorted list with distinct names the primary monitor comes first and the others by ascending ids |
| `ConfigBuilders.SortForExtend` | display/manager.go:1653-1658 | the primary monitor and the list sorted for it |
| `ConfigBuilders.BuildConfigForModeExtend` | display/manager.go:1653-1685 | every monitor is on, upright, under its own id, side by side in the sorted order, each starting at the sum of the widths before it, cut off at 32767; with distinct names that order is the primary monitor, then ascending ids |
| `ConfigBuilders.ExtendIsBuilt` | display/manager.go:1660-1683 | a built extend configuration bears id and name of its monitor, is on, upright, at brightness 1, has the best mode, and starts where the one before it ends, or at 32767 |
| `ConfigBuilders.PrimaryIsFirst` | display/manager.go:1656-1665 | the primary monitor comes first and starts at zero |
| `ConfigBuilders.PositionsGrow` | display/manager.go:1673-1676 | positions never wrap: from left to right they only grow |
| `ConfigBuilders.DisjointIff` | display/manager.go:1673-1681 | no two monitors overlap exactly when the widths of all but the last add up to at most 32767 |
| `ConfigBuilders.ThirdMonitorCanOverlap` | display/manager.go:1673-1681 | an instance: the third of three monitors 16384 wide overlaps the second |
| `TouchMatrix.TransformationMatrix.S4` | display/touchscreen.go:93-106 | one of the two shapes a spelled-out case can have |
| `TouchMatrix.TransformationMatrix.Spell` | display/touchscreen.go:150-190 | each of the sixteen cases is the product of placement, reflection and rotation; any other code leaves the identity |
| `TouchMatrix.GenTransformationMatrixAux` | display/touchscreen.go:127-193 | the same, for the part of the whole display the monitor takes; no number comes out exactly for one of the sixteen codes on a display without width or height |
| `TouchMatrix.ProductMaps` | display/touchscreen.go:127-193 | a touched point goes to the turned, then mirrored, then placed point |
| `TouchMatrix.TurnedPoints` | display/touchscreen.go:127-193 | where a touched point (u, v) goes for each of the four rotations and each reflection, written out |
| `TouchMatrix.MapsIntoPart` | display/touchscreen.go:127-193 | the unit square goes into the monitor's part of the screen, no two points to the same |
| `TouchMatrix.ReachesWholePart` | display/touchscreen.go:127-193 | every point of the part is reached |
| `TouchMatrix.SameSymmetryIff` | display/touchscreen.go:151-189 | two codes are the same symmetry exactly when they share a case: eight symmetries, each spelled twice |
| `TouchMap.TouchManager.InitTouchMap` | display/manager.go:2430-2455 | what was read is recorded, and shown if it is for an attached touchscreen and reading went through |
| `TouchMap.TouchManager.DoSetTouchMap` | display/manager.go:2457-2523 | an error exactly if no touchscreen has the id; every touchscreen of the id that responds gets the mapping of the monitor, or is switched off with it, and no other device is touched |
| `TouchMap.TouchManager.UpdateTouchscreenMap` | display/manager.go:2525-2540 | recorded and shown together, for this id only |
| `TouchMap.TouchManager.RemoveTouchscreenMap` | display/manager.go:2542-2552 | gone from both, for this id only |
| `TouchMap.TouchManager.AssociateTouch` | display/manager.go:2554-2571 | unless it fails, the id is recorded for the monitor; if the record changes, every touchscreen of the id that responds follows the monitor; no other id is touched, and if what is shown was what was recorded, it still is |
| `TouchMap.TouchManager.ClearUnplugged` | display/manager.go:2781-2793 | exactly the records of unplugged touchscreens go |
| `TouchMap.TouchManager.HandleUnrecorded` | display/manager.go:2818-2873 | the same for a touchscreen that is not recorded |
| `TouchMap.TouchManager.HandleOne` | display/manager.go:2799-2873 | the first of these that applies is recorded: a recorded connected monitor, the named output, the first monitor of the size, the built-in one unless the touchscreen is on USB; a named output that is not connected ends the search; every touchscreen that responds follows the monitor recorded for it, and an unrecorded one that names no output follows the primary monitor, if that is connected |
| `TouchMap.TouchManager.HandleTouchscreenChanged` | display/manager.go:2776-2874 | each id ends up where its touchscreens, in order, send it, and a single touchscreen with a single monitor; from any sound state the property then shows just what is recorded, for attached touchscreens and real monitors; every touchscreen that responds follows the monitor recorded for it, or the primary one if it is unrecorded and names no output |
| `TouchMap.TouchManager.RemoveTouchscreenByIdx` | display/manager.go:2295-2304 | the last touchscreen takes the place of the one that goes, and every other keeps its own |
| `TouchMap.TouchManager.RemoveTouchscreenByPath` | display/manager.go:2306-2336 | the last touchscreen with the path goes, if there is one |
| `TouchMap.TouchManager.RemoveTouchscreenByDeviceNode` | display/manager.go:2338-2352 | the first touchscreen with the device node goes, if there is one |
| `TouchMap.TouchManager.HandleAdded` | display/manager.go:2365-2388 | plugging in keeps the agreement between property and records |
| `TouchMap.TouchManager.HandleRemoved` | display/manager.go:2393-2399 | so does unplugging |
| `TouchMap.TouchManager.HandleServiceGone` | display/manager.go:2355-2360 | no touchscreen is left, and property and records still agree |
| `TouchMap.TouchManager.Init` | display/manager.go:2411-2427 | after initialisation property and records agree exactly when for every id reading went through, or nothing was read for it, or its touchscreen is not attached or its monitor not connected |
| `TouchMap.HandledIsGood` | display/manager.go:2776-2874 | for every id: attached, shown as recorded, and of a connected monitor or the built-in one |
| `TouchMap.ChosenIsDecided` | display/manager.go:2799-2861 | what is recorded for a touchscreen after it has been handled, case by case |
| `TouchMap.FirstDecides` | display/manager.go:2799-2861 | of several touchscreens with one id the first decides, if it finds a connected monitor |
| `TouchMap.SingleGoesToSingle` | display/manager.go:2795-2797 | a single touchscreen is recorded for a single monitor, whatever was recorded before |
| `TouchMap.HandledTwice` | display/manager.go:2776-2874 | handling a change once more changes nothing, in whatever order the monitors are listed then |
| `TouchMap.HandledAgreesIff` | display/manager.go:2776-2874 | from any state that shows nothing unrecorded: afterwards the property shows just what is recorded exactly when it did before, or no touchscreen with the id is attached, or the recorded monitor is not connected |
| `TouchMap.InitialisedAgreesIff` | display/manager.go:2411-2454 | for what was read: after initialisation the property shows just what is recorded exactly when reading went through, nothing was read, or the touchscreen is not attached or the monitor not connected |
| `TouchMap.HalfReadStaysHidden` | display/manager.go:2440-2454 | after a reading that went wrong half way a record stays hidden as long as its monitor is connected |
| `Ints.ToInt16Inside` | wl_display/rect.go:28-45 | an int16 conversion inside another can be left out, as Go's wrapping arithmetic has it |

## Left out

- The X protocol itself, D-Bus, gsettings, file reads and writes, JSON and gob: only whether they went well is modelled.
- Mutexes, goroutines, timers and the one-second delay in `apply`: every operation is one atomic step, and the wait for events is a run that drains the queue.
- Setting the fill modes, the cursor and the primary output in `apply`, and the asynchronous brightness setting: they do not touch what is modelled.
- `UserConfig` and its migration: the same pattern as the migration of the system configuration, with simpler values.
- Old configuration formats and their conversion, greeter and Wayland code, EDID parsing, MD5, scale factors, colour temperature.
- `modifySuitableSysMonitorConfigs`, the mode switches, `setPrimary` and the brightness store: in a run they are the event that stores a screen of its own. What `handleSysConfigUpdated` and `updateConfigUuid` do around the replacement of the configuration is left out; in a run they are the event that replaces it.
- Floating point: refresh rates, brightness and the touch matrix are real numbers; the rounding of a refresh rate to text is taken as a function of the rate.
- go-x11-client's padding function is not part of this model; padding is to a multiple of four bytes, as the XSETTINGS specification has it.
- ConfigMigration.SysConfig.UpdateUuids: screens are values here, so the in-place change of a mode's list that another pointer could see is not modelled.
- DisplayManager.Manager.ApplySysMonitorConfigs: does not choose the primary output, which is only passed on to X; the report of X reaches a monitor's placement, mode and rotation, while its ids, modes and names are constants.
- Monitors plugged in or out while `apply` is under way, and the delayed layout that follows: in a run they are a clean between two other events.
- ConfigBuilders.BuildConfigForModeExtend: with two equal names the comparison of the sort is not an order, and nothing is said of the order that results.
- TouchMatrix.GenTransformationMatrixAux: where Go divides by zero it is only said that infinities or NaNs come out, not which.
- XSettingsStore.StoreRefinesMap: holds as long as the property stays within the 40960 bytes that one read returns; beyond, XSettingsStore.ReadsBackIff says what the next call finds.
- XSettingsStore.XSManager.ModifyProperty: items and values are values here; the source changes them through pointers that only the decoded store holds.
- XSettingsStore.XSManager.SetSettings: a type assertion that panics is an outcome that leaves the property as it was.
- DisplayManager.Monitor.SetMode: D-Bus errors are a truth value, here and in the other edits, and property-changed signals are left out.
- TouchMap.TouchManager.DoSetTouchMap: what a device is set to is the area and orientation that TouchMatrix turns into a matrix; gestures, and a device that opens but then fails half way, are left out.
