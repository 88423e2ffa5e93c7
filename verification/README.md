# Verified models of the desktop daemon's stateful parts

This project models five parts of the daemon that keep state over a whole session, and proves what every
run of them keeps:

- the **dock**: entries, windows, back-pointers, docked flags, the saved list of docked applications, and
  the queue of attach and detach closures that another goroutine drains (`Dock*.dfy`, `WindowSlice.dfy`,
  `DesktopPath.dfy`);
- the **clipboard**: the INCR transfer of section 2.7.2 of the ICCCM as two interleaved processes over one
  property, the ownership timestamps of section 2.2 of the ICCCM, and the event hooks
  (`IncrTransfer.dfy`, `SelectionOwnership.dfy`);
- the **audio port priority policy**, its reconciliation with the hardware, and the bounded automatic
  switching (`PortRanking.dfy`, `SortPorts.dfy`, `PriorityPolicy.dfy`, `PolicyRuns.dfy`,
  `PriorityManager.dfy`, `AutoSwitch.dfy`);
- the **wallpaper loop** (`WallpaperLoop.dfy`) and the **launch recorder** (`LaunchRecorder.dfy`).

Code that computes a value is a function. Code that updates fields is a class whose methods are proved
equal to a step function; the lemmas are about every run of those steps. For the dock this is layered:
`DockModel` is the step system, `DockInvariant`, `DockQueue` and `DockedApps` prove what its runs keep, and
the objects of `DockManager` are proved to perform those steps on the heap, up to the iteration order
behind the saved names. `DockLaws` says what each operation does to the whole state in terms of entries and
windows alone, without the functions the step system is made of.

`dafny verify dfyconfig.toml` checks all files.

## Where the code differs from the obvious claim

The model follows the code. Each difference has a counterexample or an exact condition.

- One call of `sortPorts` does not sort every list. `SortsExactlyWhen` gives the lists it does sort;
  `OneCallMayNotSort` is the smallest failure; repeated calls reach the stable sort.
- A later foreign owner moves the lost timestamp forward, so requests between the first and the latest
  foreign change are accepted although the manager did not own the selection (`AcceptanceGap`).
- `SetTheFirstType` on its own keeps the port list ordered only when the ports of that type already lead
  (`TypeFirstKeepsOrderExactly`).
- A launcher update replaces a docked entry's desktop file without saving the list
  (`LauncherUpdateExactly`).
- `Move` sends no signal, so a listener that replays the signals is wrong after every successful move, and
  only then (`StepMirrorsExactly`).
- An entry that cannot be exported is not listed, but its window keeps the back-pointer
  (`AttachNeedsExport`) and stays off the dock until it is destroyed (`StraysStay`). Nothing else in the
  table suffers (`RunKeepsCore`).
- A client list that names a window twice and later once queues a removal for a window that is still
  listed (`ClientListExactly`), and the window then falls off the dock (`ThinnedFallsOff`).
- Without a stored policy `defaultInit` adds ports that are configured disabled, so the first port may be
  one (`DefaultMayPickDisabled`); `DefaultFirstPort` says which port it is and exactly when it is offered.
- Automatic switching is bounded only while a default device exists (`SwitchesWithoutDevice`), and every
  reset of the retry counter, which keeps the target, allows as many retries again (`ResetsReopen`,
  `InputReopens`).
- After `Init` with a stored ranking the ports need not follow the completed ranking, because the one
  `sortPorts` call may not suffice (`InitOrdersExactly`).
- When the home or scratch directory nests with another listed directory, the stored name of a docked
  application depends on the order in which the runtime visits a map, and only then
  (`OrderFreeExactly`, `ProgramOrderFree`).
- A docked path comes back unchanged from its stored form only under the condition of `RoundTripExactly`.

## Model

| member | source | states |
|---|---|---|
| PortRanking.PreferPicksSmallerRank | audio/priority_policy.go:178-186 | GetPreferType returns the type that ranks first, and -1 exactly when neither type is ranked |
| PortRanking.OrderedIsGrouped | audio/priority_policy.go:145-170 | an ordered port list is its own stable sort, so order and per-type order determine the list |
| PortRanking.PartitionPermutes | audio/priority_policy.go:360-387 | splitting a list into one type and the rest neither loses nor duplicates a port |
| SortPorts.SortOncePermutes | audio/priority_policy.go:152-170 | one call of sortPorts is a permutation |
| SortPorts.SortOnceStable | audio/priority_policy.go:152-170 | ports of equal type are never reordered |
| SortPorts.SortOnceProgress | audio/priority_policy.go:152-170 | one call is the identity on an ordered list and strictly reduces the number of inversions of any other |
| SortPorts.SortOnceLast | audio/priority_policy.go:152-170 | after one call a port of the lowest priority present is last |
| SortPorts.SortsExactlyWhen | audio/priority_policy.go:152-170 | one call sorts a list if and only if each port is preceded by at most one more lower-priority port than other ports |
| SortPorts.OneCallMayNotSort | audio/priority_policy.go:154-155 | types 4, 2, 0 become 2, 0, 4, which is not ordered |
| SortPorts.RepeatReachesStableSort | audio/priority_policy.go:152-170 | as many calls as there are inversions reach the stable sort |
| SortPorts.PassPrefix | audio/priority_policy.go:155-168 | one inner loop moves every port above a threshold one place forward, as far as the front allows |
| PriorityPolicies.PriorityPolicy.CompleteTypes | audio/priority_policy.go:135-142 | appends the missing types; the result is a permutation of all types if and only if the given types were valid and distinct, and the default ranking if there were none |
| PriorityPolicies.CompletedExactly | audio/priority_policy.go:135-142 | the completed ranking is a permutation of all types if and only if the given one had valid types, each once |
| PolicyRuns.CompletedIncreases | audio/priority_policy.go:135-142 | the missing types are appended in increasing order behind the given ones |
| PriorityPolicies.PriorityPolicy.GetPreferType | audio/priority_policy.go:178-186 | the loop computes the preferred type |
| PriorityPolicies.PriorityPolicy.SortPorts | audio/priority_policy.go:152-170 | the nested loops permute the ports and, unless a port has the invalid type, equal the one-call sort |
| PriorityPolicies.PriorityPolicy.InnerLoop | audio/priority_policy.go:155-168 | the inner loop leaves the places before i alone and passes once over the rest |
| PriorityPolicies.PriorityPolicy.CompareAndSwap | audio/priority_policy.go:156-167 | swaps two neighbours of different type exactly when the second one's type is preferred |
| PriorityPolicies.SwapsExactly | audio/priority_policy.go:156-167 | which neighbours are swapped, invalid and unranked types included |
| PriorityPolicies.PriorityPolicy.FindPortIndex | audio/priority_policy.go:200-208 | index of the first port with the key, or -1 if there is none |
| PriorityPolicies.PriorityPolicy.InsertPortBeforeIndex | audio/priority_policy.go:216-228 | inserts at the index clamped to the list, keeping the rest |
| PriorityPolicies.PriorityPolicy.AddPort | audio/priority_policy.go:231-263 | inserts before the first port the new type is preferred to or equals |
| PriorityPolicies.PriorityPolicy.RemovePortByIndex | audio/priority_policy.go:266-273 | removes the port exactly when the index is in range |
| PriorityPolicies.PriorityPolicy.RemovePortByName | audio/priority_policy.go:276-279 | removes the first port with the key exactly when there is one |
| PriorityPolicies.HasElement | audio/priority_policy.go:93-101 | true exactly when some listed port has the card and port name |
| PriorityPolicies.PriorityPolicy.SetPorts | audio/priority_policy.go:289-318 | both loops, one deleting while it scans, drop the unlisted keys and add the missing ones |
| PriorityPolicies.PriorityPolicy.DropUnlisted | audio/priority_policy.go:290-302 | the loop that removes from the list it walks keeps exactly the listed keys, in order |
| PriorityPolicies.PriorityPolicy.AddUnknown | audio/priority_policy.go:304-317 | the second loop adds each listed port whose key is still missing |
| PriorityPolicies.PriorityPolicy.GetTheFirstPort | audio/priority_policy.go:321-331 | the first port, or the invalid one |
| PriorityPolicies.PriorityPolicy.SetTheFirstType | audio/priority_policy.go:343-357 | moves a valid type to the front and rejects an invalid one |
| PriorityPolicies.PriorityPolicy.SetTheFirstPort | audio/priority_policy.go:360-387 | chosen port, other ports of its type in order, then the rest in order; fails exactly when the port is unknown |
| PriorityPolicies.PriorityPolicy.RaiseKind | audio/priority_policy.go:377-384 | the loop that ranges over the slice it changes is an exact stable partition |
| PriorityPolicies.PriorityPolicy.RemoveCard | audio/priority_policy.go:390-399 | keeps exactly the other cards' ports, in order |
| PolicyRuns.RunKeepsRanking | audio/priority_policy.go:135-399 | every sequence of additions, reconciliations, removals, choices and sorts keeps the ranking a permutation of all types and the ports ordered by it |
| PolicyRuns.StepKeepsRanking | audio/priority_policy.go:216-399 | each single operation does |
| PolicyRuns.AddedOrdered | audio/priority_policy.go:231-244 | AddPort into an ordered list leaves it ordered, whatever the ranking, complete or not |
| PolicyRuns.AddIndexExactly | audio/priority_policy.go:231-244 | a port of a ranked type goes before the first port of the same or a worse rank and behind only better ones; one of an unranked type goes to the end |
| PolicyRuns.ReconciledOrdered | audio/priority_policy.go:289-318 | so does SetPorts |
| PolicyRuns.PortFirstOrdered | audio/priority_policy.go:360-387 | the list after SetTheFirstPort is ordered by the new ranking, whatever the ranking was, complete or not |
| PolicyRuns.PortFirstPermutes | audio/priority_policy.go:360-387 | SetTheFirstPort is a permutation of the ports |
| PolicyRuns.PortFirstStable | audio/priority_policy.go:360-387 | the chosen port comes first, and otherwise ports of equal type keep their order |
| PolicyRuns.TypeFirstComplete | audio/priority_policy.go:343-357 | SetTheFirstType keeps the ranking a permutation of all types |
| PolicyRuns.TypeFirstExactly | audio/priority_policy.go:343-357 | a valid type moves to the front and the others keep their relative order; an invalid one changes nothing |
| PolicyRuns.TypeFirstKeepsOrderExactly | audio/priority_policy.go:342-357 | on its own it keeps the ports ordered if and only if the ports of that type already lead |
| PolicyRuns.SetPortsKeys | audio/priority_policy.go:289-318 | SetPorts leaves exactly the argument's keys, and no duplicate key if there was none |
| PolicyRuns.SetPortsSurvivors | audio/priority_policy.go:289-318 | surviving ports keep their old relative order |
| PolicyRuns.AddMissingLast | audio/priority_policy.go:304-317 | the list is worked through in order, each port added only if no listed one has its card and name |
| PolicyRuns.RemoveCardExactly | audio/priority_policy.go:390-399 | RemoveCard keeps exactly the other cards' ports, in their order within each type |
| PolicyRuns.SetPortsIdempotent | audio/priority_policy.go:289-318 | a second call with the same argument changes nothing |
| PolicyRuns.ChoiceIsSticky | audio/priority_policy.go:231-387 | after SetTheFirstPort succeeds, from any ranking and port order, SetPorts calls that still list the port and add no new port of its type leave it first |
| PolicyRuns.DisplacesExactly | audio/priority_policy.go:289-318 | a SetPorts call displaces the chosen port if and only if its list drops the port or brings a new key of its type |
| PolicyRuns.StickyExactly | audio/priority_policy.go:231-387 | the port stays first throughout a sequence of SetPorts calls if and only if none of them does that |
| PortConfigs.ConfigKeeper.GetCardAndPortConfig | audio/config_keeper.go:162-179 | gets or creates, enabled unless the settings say otherwise, changing neither a stored configuration nor what is enabled |
| PortConfigs.ConfigKeeper.SetEnabled | audio/config_keeper.go:181-185 | changes whether that port is enabled, and no other |
| PriorityManagers.PriorityManager.constructor | audio/priority_manager.go:21-27 | two separate empty policies |
| PriorityManagers.PriorityManager.SetPorts | audio/priority_manager.go:117-150 | reconciles each policy with the plugged-in, enabled ports of its direction, and changes no setting |
| PriorityManagers.PriorityManager.Collect | audio/priority_manager.go:120-143 | the inner loop splits one card's usable ports by direction, in order |
| PriorityManagers.OfferedIsListed | audio/priority_manager.go:117-150 | a key is handed to the policy exactly when some card offers it |
| PriorityManagers.FirstPortIsOffered | audio/priority_manager.go:117-150 | afterwards, for any ranking and any order of the old ports, the first port is invalid if and only if nothing is offered in its direction; otherwise it is plugged in and enabled |
| PriorityManagers.FirstPortIsSwitchable | audio/priority_manager.go:117-150 | the same spelled out: the first port is invalid if and only if no current card has a port that is plugged in, not disabled in the settings and of the direction; otherwise such a port has its key |
| PriorityManagers.UsableExactly | audio/priority_manager.go:120-147 | a policy is handed exactly the plugged-in, enabled ports of its direction, each with its card, name and type |
| PriorityManagers.AvailableExactly | audio/priority_manager.go:95-111 | defaultInit adds exactly the plugged-in ports of the direction, enabled or not |
| PriorityManagers.PriorityManager.DefaultInit | audio/priority_manager.go:89-112 | completes both rankings and adds each policy the plugged-in ports of exactly its direction, in card order |
| PriorityManagers.PriorityManager.AddCard | audio/priority_manager.go:96-111 | the inner loop adds one card's plugged-in ports to the policy of their direction |
| PriorityManagers.DefaultInitRanks | audio/priority_manager.go:89-112 | from empty policies defaultInit ranks all types and lists exactly the plugged-in ports, ordered |
| PriorityManagers.PriorityManager.Init | audio/priority_manager.go:153-170 | a stored policy is reconciled, then completed, then sorted once; without one the default is built |
| PriorityManagers.InitOrdersExactly | audio/priority_manager.go:160-167 | after Init the ports follow the completed ranking if and only if what SetPorts left is nearly ordered by it |
| PriorityManagers.InitKeepsOrder | audio/priority_manager.go:160-167 | when the stored ranking knows all types involved and the stored ports follow it, Init leaves them ordered and its sort moves nothing |
| PriorityManagers.InitFirstPortIsOffered | audio/priority_manager.go:159-167 | right after Init has read a stored policy, too, the first port is invalid if and only if nothing is offered, and otherwise plugged in and enabled |
| PriorityManagers.DefaultFirstPort | audio/priority_manager.go:89-112 | after defaultInit the first port is invalid if and only if nothing is plugged in; otherwise it is the last listed port of the smallest type present, and it is offered if and only if it is enabled |
| PriorityManagers.DefaultMayPickDisabled | audio/priority_manager.go:94-104 | a single plugged-in, disabled sink port is first although nothing is offered |
| AutoSwitch.Audio.AutoSwitchPort | audio/audio_events.go:221-265 | a request implies that switching is enabled, the first port valid and the device not already on it; it names the port as the target and uses up exactly one of its retries, also when the target changes; without a request nothing is remembered; the two directions do not affect each other |
| AutoSwitch.Audio.NeedAutoSwitchOutputPort | audio/audio_events.go:179-219 | the chain of early returns asks for a switch exactly when switching is enabled, a first port exists, and there is no device or one on another port with a retry left |
| AutoSwitch.Audio.NeedAutoSwitchInputPort | audio/audio_events.go:137-177 | the same for input, with its fixed limit |
| AutoSwitch.NeedSwitchExactly | audio/audio_events.go:179-219 | exactly when a switch is requested, by the stored target and counter |
| AutoSwitch.RememberExactly | audio/audio_events.go:234-242 | the counter goes up for the same target and starts at 0 for a new one |
| AutoSwitch.SettledNeverSwitches | audio/audio_events.go:207-214 | events that find the device on the first port, or switching disabled, never cause a switch, however the counter is reset |
| AutoSwitch.Audio.ResetInputCount | audio/audio_events.go:611 | the target is kept, so its retries start over |
| AutoSwitch.Audio.ResetCounts | audio/audio.go:572-573 | a new connection to the sound server does so for both directions |
| AutoSwitch.SwitchesAreBounded | audio/audio_events.go:137-265 | with a default device and one first port at most limit + 1 switches however many events fire, plus limit for each reset of the counter |
| AutoSwitch.FailingUsesBudget | audio/audio_events.go:137-265 | without resets, when switching keeps failing, exactly the remaining budget is used |
| AutoSwitch.ResetsReopen | audio/audio.go:1433-1437 | the bound is reached: k resets do allow limit * k further switches |
| AutoSwitch.InputReopens | audio/audio_events.go:158-163 | input after eleven failed switches is refused, and after one reset gets ten more |
| AutoSwitch.SwitchesWithoutDevice | audio/audio_events.go:137-219 | without a default device every event switches |
| IncrTransfer.StepKeepsInv | clipboard/manager.go:532-805 | every step of either side keeps the protocol invariant |
| IncrTransfer.Conservation | clipboard/manager.go:532-805 | received, unread and unsent bytes make up the data, in order, in every reachable state |
| IncrTransfer.NeverOverwrites | clipboard/manager.go:569-598 | the sender only writes when the property has been deleted |
| IncrTransfer.MeasureDecreases | clipboard/manager.go:532-805 | every step lowers a measure, so no interleaving runs forever |
| IncrTransfer.StuckMeansComplete | clipboard/manager.go:532-805 | when nothing can happen any more the receiver holds equal data, type and format, after ceil(n / 65432) non-empty chunks, all but the last of 65432 bytes, and one empty one |
| IncrTransfer.RunsStayInside | clipboard/manager.go:532-805 | the invariant and the step bound hold along every run |
| IncrTransfer.TransferIsCorrect | clipboard/manager.go:532-805 | every interleaving from the start conserves the data, is finite, and ends with an equal target |
| IncrTransfer.JoinSplit | clipboard/manager.go:569-598 | joining the chunks gives the data back |
| IncrTransfer.SplitShape | clipboard/manager.go:569-598 | ceil(n / 65432) chunks, none empty, none over the maximum |
| IncrTransfer.HeaderSaysLength | clipboard/manager.go:551-555 | the announcement is one 32-bit number of type INCR: the length modulo 2^32, low byte first |
| IncrTransfer.DirectAnswerIsTaken | clipboard/manager.go:701-721 | an answer that does not announce an incremental transfer is the whole target, and the property is deleted |
| IncrTransfer.DeletionIsTold | clipboard/manager.go:746-760 | deleting the property tells both sides if there was one, and nobody otherwise |
| IncrTransfer.SendTargetIncr | clipboard/manager.go:569-598 | the loop writes the chunks in order and then one empty value |
| IncrTransfer.ReceiveTargetIncr | clipboard/manager.go:746-804 | the loop joins all values before the first empty one and takes type and format from that one; it fails exactly when none is empty |
| IncrTransfer.ReadsBack | clipboard/manager.go:569-804 | what the send loop writes, the receive loop turns back into the same target |
| SelectionOwnership.Selection.HandleOwnerChange | clipboard/manager.go:225-268 | the stored timestamps are those of the whole history of owner changes |
| SelectionOwnership.Selection.CanConvertSelection | clipboard/manager.go:350-375 | the branches compute the acceptance test |
| SelectionOwnership.StampsMean | clipboard/manager.go:225-268 | for every timely history: when the manager last acquired the selection, and the latest foreign change after it |
| SelectionOwnership.UpdatedExactly | clipboard/manager.go:225-268 | one owner change, timely or not: a foreign one older than the manager's own is ignored |
| SelectionOwnership.RequestRule | clipboard/manager.go:221-375 | a CurrentTime request passes if and only if the manager owns the selection now; one at time t if and only if acquire <= t and, if lost, t precedes the latest foreign change |
| SelectionOwnership.AcceptanceGap | clipboard/manager.go:225-375 | no request inside the latest ownership period is refused, and exactly which requests outside it are accepted |
| SelectionOwnership.AcceptsAfterLoss | clipboard/manager.go:233-235 | a request accepted for a time at which the manager did not own the selection |
| EventCaptors.EventCaptor.Register | clipboard/event_captor.go:70-82 | the hook is listed, last, before the triggering action starts |
| EventCaptors.EventCaptor.HandleEvent | clipboard/event_captor.go:126-151 | the oldest matching hook takes the event and leaves; the others keep their order |
| EventCaptors.EventCaptor.Expire | clipboard/event_captor.go:40-68 | exactly the hooks older than the limit are dropped |
| EventCaptors.FreshInOrder | clipboard/event_captor.go:40-68 | expiry drops exactly the hooks older than 11 seconds and keeps the others in registration order |
| WallpaperLoop.WSLoop.GetNotShowed | appearance/wallpaper-slideshow.go:173-191 | exactly the files not shown yet |
| WallpaperLoop.WSLoop.DrawNext | appearance/wallpaper-slideshow.go:193-202 | draws an unshown file and marks it, or returns "" exactly when there is none |
| WallpaperLoop.WSLoop.Reset | appearance/wallpaper-slideshow.go:204-211 | forgets what was shown |
| WallpaperLoop.WSLoop.AddToShowed | appearance/wallpaper-slideshow.go:213-218 | marks one file |
| WallpaperLoop.WSLoop.GetNext | appearance/wallpaper-slideshow.go:220-235 | an unshown file while there is one, otherwise the first of a new round; "" if and only if there are no files |
| WallpaperLoop.RestOfRound | appearance/wallpaper-slideshow.go:173-235 | from any point on, the files not shown yet come next, each once |
| WallpaperLoop.FullRound | appearance/wallpaper-slideshow.go:173-235 | once all are shown, the next results are one complete round |
| WallpaperLoop.RoundsArePermutations | appearance/wallpaper-slideshow.go:173-235 | whatever was marked and whatever is drawn: first the unmarked files, then blocks that are permutations of the list |
| LaunchRecorder.SubRecorder.UninstallHint | apps/subrecorder.go:283-290 | performs the hint step |
| LaunchRecorder.SubRecorder.HandleAdded | apps/subrecorder.go:292-308 | performs the added step |
| LaunchRecorder.SubRecorder.HandleRemoved | apps/subrecorder.go:310-325 | performs the removed step |
| LaunchRecorder.SubRecorder.HandleDirRemoved | apps/subrecorder.go:327-355 | drops exactly the applications under the directory, and reports whether any was dropped |
| LaunchRecorder.SubRecorder.MarkLaunched | apps/subrecorder.go:357-369 | sets the flag of a known application, and reports whether it changed |
| LaunchRecorder.CheckStatus | apps/subrecorder.go:217-242 | afterwards exactly the installed applications are known, old flags survive, unseen ones are new; reports exactly whether the known set changed |
| LaunchRecorder.RunKeepsDisjoint | apps/subrecorder.go:283-369 | on every run no application is both known and remembered as removed |
| LaunchRecorder.RunIsPerApplication | apps/subrecorder.go:283-369 | every run of the three maps is, for each application, the run of a single status without maps |
| LaunchRecorder.ComesBack | apps/subrecorder.go:292-355 | an application that goes away and returns has its old flag if no uninstall was hinted, and is new if it was hinted or went with its directory, whatever happened in between |
| LaunchRecorder.DirRemovedExactly | apps/subrecorder.go:327-355 | removing a directory drops exactly the applications inside it, so "kde" leaves "kdeconnect", and touches nothing else |
| LaunchRecorder.OnceLaunched | apps/subrecorder.go:357-369 | once marked, an application counts as launched until it is removed |
| LaunchRecorder.HintedUninstall | apps/subrecorder.go:283-325 | a hint followed by a removal makes the application new when it comes back, launched before or not |
| LaunchRecorder.OthersUntouched | apps/subrecorder.go:283-369 | an event about one application leaves every other one alone |
| LaunchRecorder.AddedExactly | apps/subrecorder.go:292-308 | an added application is known with its old flag, else the one remembered, else as new; its hint is gone |
| LaunchRecorder.RemovedExactly | apps/subrecorder.go:310-325 | a removed one is no longer known; its flag is remembered unless its removal was hinted, and the hint stays |
| WindowSlice.DiffIsExact | dock/window_slice.go:43-77 | for all sorted slices add and remove are the exact multiset differences |
| WindowSlice.DiffIsSorted | dock/window_slice.go:43-77 | both results are sorted |
| WindowSlice.DiffApplies | dock/window_slice.go:43-77 | the old list minus remove plus add is the new list |
| WindowSlice.DiffSortedWindowSlice | dock/window_slice.go:43-77 | the two-index loop and its two tails compute the difference |
| DesktopPath.ProgramTable | dock/desktop_file_path.go:32-51 | the program's directories can be told apart if and only if the home and scratch directories nest with no other listed directory and start with no listed code |
| DesktopPath.RoundTripExactly | dock/desktop_file_path.go:74-106 | for every order of both map iterations, unzip after zip returns the path if and only if it has exactly one .desktop extension, starts with no code, and lies in a listed directory or has at least 11 bytes |
| DesktopPath.ZipAnyOrder | dock/desktop_file_path.go:88-95 | when the directories can be told apart, every iteration order stores the same name |
| DesktopPath.OrderMatters | dock/desktop_file_path.go:88-95 | for any table in which two listed directories both contain the path, two orders of its entries store different names |
| DesktopPath.OrderFreeExactly | dock/desktop_file_path.go:88-95 | every order stores the same name for every path if and only if no listed directory lies inside another |
| DesktopPath.ProgramOrderFree | dock/desktop_file_path.go:32-51 | for the program's table: if and only if the home and scratch directories nest with no other listed one |
| DesktopPath.AnyOrder | dock/desktop_file_path.go:89-93 | a map may be visited in any order, each entry exactly once |
| DesktopPath.ExtSurvives | dock/desktop_file_path.go:81-95 | replacing the directory by its code never cuts into the extension |
| DesktopPath.StoredAs | dock/desktop_file_path.go:74-106 | in any iteration order, a .desktop file in a listed directory is stored as the code and the rest without the extension, and restored from that |
| DesktopPath.StoredOutside | dock/desktop_file_path.go:88-95 | a file outside the listed directories only loses its extension |
| DesktopPath.ShortenGoesOn | dock/desktop_file_path.go:88-93 | the loop goes on after a match, with what the match left |
| DesktopPath.ProgramCodes | dock/desktop_file_path.go:32-44 | the four directories and their codes /S@, /L@, /H@ and /D@ |
| DesktopPath.ZipDesktopPath | dock/desktop_file_path.go:88-95 | the loop applies every matching directory in iteration order |
| DesktopPath.UnzipDesktopPath | dock/desktop_file_path.go:97-106 | the loop restores the first matching code; too short a path is the slicing failure |
| DockEntries.MoveBack | dock/app_entries.go:123-146 | moving there and back is the identity |
| DockEntries.MoveKeepsOthers | dock/app_entries.go:123-146 | the moved entry lands at the new index and all others keep their order |
| DockEntries.MoveInPlace | dock/app_entries.go:123-146 | the in-place appends on the shared backing array compute the move |
| DockEntries.IdsOfRemove | dock/app_entries.go:96-104 | with unique ids, dropping the signalled id from a mirror matches the removal |
| DockEntries.MoveBreaksMirror | dock/app_entries.go:123-146 | a successful move changes the list of ids, which no signal reports |
| DockLaws.AttachJoinsFirst | dock/dock_manager_entries.go:174-180 | with an entry of the window's inner id the first such entry gains the window, keeping its current window if it has one; no entry is added and every other one is unchanged |
| DockLaws.AttachAddsOne | dock/dock_manager_entries.go:180-189 | without one exactly one entry with that id, the window and its application is added at the end, if it can be exported; the back-pointer is set either way |
| DockLaws.DetachTakesOut | dock/app_entry.go:228-257 | the entry with the window loses it, and goes if it is left with no window and not docked; otherwise its current window is one of those left, if any |
| DockLaws.DetachMissesNone | dock/dock_manager_entries.go:192-197 | a window in no entry changes nothing |
| DockLaws.UnattachedIsIdentified | dock/dock_manager_entries.go:98-114 | a window without entry is identified only if it was not, taking inner id and application, then attached if listed and to be shown |
| DockLaws.AttachedIsReviewed | dock/dock_manager_entries.go:91-97 | a window with an entry is left alone if listed and to be shown, and detached otherwise |
| DockLaws.AdditionRuns | dock/dock_manager_xevent.go:80-104 | the queued addition registers the window if need be and looks at it if it got that far |
| DockLaws.RemovalForgets | dock/dock_manager_xevent.go:112-122 | the queued removal detaches a registered window and forgets its inner id, not its application |
| DockLaws.ComesBackIdentified | dock/dock_manager_xevent.go:80-131 | removed and added again, a window is identified anew and attached to an entry of its new identity |
| DockLaws.PropertyLooksAgain | dock/dock_manager_xevent.go:364-375 | an identity change detaches and forgets first; that or a need for it looks again; anything else changes nothing |
| DockLaws.DestroyedAndMapped | dock/dock_manager_xevent.go:204-222 | a destroyed window is detached and unregistered, a mapped one registered if it was not |
| DockLaws.ActiveChanges | dock/dock_manager_xevent.go:149-182 | a registered window becomes active, flagged and current in its entry alone; otherwise the last active one is remembered and no flag changes |
| DockLaws.ClientListQueues | dock/dock_manager_xevent.go:66-135 | behind what was queued come the additions and then the removals, each ascending and exactly as often as the lists differ |
| DockLaws.PopRunsOldest | dock/dock_manager.go:495-500 | the oldest closure is taken and run |
| DockLaws.DockEntryDocks | dock/dock_manager_dock_app.go:143-187 | an undocked entry is docked: as it is if its application is installed or has a scratch file, else as the new scratch file's application, else not at all; then the list is saved |
| DockLaws.RequestDocksFirst | dock/dock_manager.go:360-385 | a dock request docks the first entry with the application's inner id and leaves every other one |
| DockLaws.RequestAddsOne | dock/dock_manager.go:360-385 | without such an entry it adds exactly one, at the index if in range and at the end otherwise, or only uses up an id if the scratch file or the export fails |
| DockLaws.UndockReleases | dock/dock_manager_dock_app.go:194-245 | an entry without windows goes; one with windows stays, and if its application was a scratch file it takes the identity found for its current window, or no application for a hashed one |
| DockLaws.UndockRequestActs | dock/dock_manager.go:398-409 | a request to undock a file acts on the first docked entry that has the file, else on the first that has the hash, and changes nothing if and only if there is neither |
| DockLaws.UpdateReplaces | dock/dock_manager_init.go:152-173 | a launcher update gives the first entry with the file, else with the hash, its new application and inner id, and changes nothing else |
| DockLaws.MoveTakesAndPuts | dock/dock_manager.go:411-420 | a move puts the entry at its new place, keeps the order of the others and saves; out of range or in place it changes nothing |
| DockLaws.StartsDocked | dock/dock_manager_entries.go:132-164 | the dock starts with one docked entry per stored application, in order |
| DockInvariant.AttachWindowKeeps | dock/dock_manager_entries.go:174-190 | attaching keeps the table consistent and concerns that window only: it ends up attached if there is a place for it, and a stray if its new entry cannot be exported |
| DockInvariant.DetachWindowKeeps | dock/dock_manager_entries.go:192-202 | detaching keeps the table consistent, detaches that window and no other, and removes an entry left with nothing |
| DockInvariant.AttachOrDetachKeeps | dock/dock_manager_entries.go:83-115 | exactly where the window ends up: a stray stays one; otherwise attached if it is listed, to be shown and has a place, and a stray if only the place is missing |
| DockInvariant.TaskKeeps | dock/dock_manager_xevent.go:77-134 | the queued closures keep the table consistent and concern their own window only |
| DockInvariant.FallbackFindsNothing | dock/dock_manager_xevent.go:117-130 | an unregistered window is in no entry, so the fallback removal never finds one |
| DockInvariant.PropertyKeeps | dock/dock_manager_xevent.go:364-375 | re-identification keeps the table consistent |
| DockInvariant.DestroyKeeps | dock/dock_manager_xevent.go:204-212 | a destroyed window is detached and unregistered, the table stays consistent |
| DockInvariant.ActivateKeeps | dock/dock_manager_xevent.go:149-182 | exactly the active window's entry is flagged, with it as current window |
| DockInvariant.DeactivateKeeps | dock/dock_manager_xevent.go:151-156 | losing the active window keeps the table consistent: the first time getActiveWindow still returns it, the second time at most one flag stays set |
| DockInvariant.UndockKeeps | dock/dock_manager_dock_app.go:194-245 | undocking keeps the table consistent and detaches no window |
| DockInvariant.RequestKeeps | dock/dock_manager.go:354-386 | a dock request keeps the table consistent and attaches no window |
| DockInvariant.MoveKeeps | dock/app_entries.go:123-146 | so does a move |
| DockInvariant.UpdateKeeps | dock/dock_manager_init.go:152-173 | so does a launcher update |
| DockInvariant.StepKeepsCore | dock/dock_manager_xevent.go:66-375 | whether or not exports succeed, every step keeps the entry table consistent, and only a window whose own entry could not be exported becomes a stray |
| DockInvariant.RunKeepsCore | dock/dock_manager_xevent.go:66-375 | so does every run, in every interleaving |
| DockInvariant.StraysStay | dock/dock_manager_entries.go:83-115 | a stray stays off the dock through every step but the destruction of its window |
| DockInvariant.StepKeepsInv | dock/dock_manager_xevent.go:66-375 | with successful exports every step keeps the whole invariant, back-pointers included |
| DockInvariant.RunKeepsInv | dock/dock_manager_xevent.go:66-375 | so does every run with successful exports |
| DockInvariant.TableIsConsistent | dock/app_entry.go:196-257 | what consistency means, exports or not: each window in at most one entry with an agreeing back-pointer, listed entries docked or with a window, docked entries with an application, current window and window records exact, the active flag agreeing with getActiveWindow and set on at most one entry; a back-pointer names an entry without the window only for a stray |
| DockInvariant.AttachNeedsExport | dock/dock_manager_entries.go:174-190 | attaching keeps the table consistent if and only if the entry exists or can be exported |
| DockInvariant.StartIsConsistent | dock/dock_manager_entries.go:117-138 | the dock starts consistent, and without strays when exports succeed |
| DockQueue.ClientListExactly | dock/dock_manager_xevent.go:66-135 | a client-list change keeps the window's last queued operation truthful if and only if the window does not merely become rarer |
| DockQueue.StepKeepsQueue | dock/dock_manager_xevent.go:66-135 | on every step that does not merely thin the window out, the last queued operation for it, if any, is an add exactly when it is listed |
| DockQueue.PopSettles | dock/dock_manager.go:495-500 | running a window's last queued operation leaves it attached exactly when it is listed, unless its own export failed before |
| DockQueue.StepKeepsSettled | dock/dock_manager_xevent.go:66-375 | a settled live window stays settled through every step |
| DockQueue.RunKeepsSettled | dock/dock_manager_xevent.go:66-375 | and through every run, whatever happens to other windows |
| DockQueue.SettledSinceLastPop | dock/dock_manager.go:495-500 | whatever came before, short of a failed export: from one executed operation on, an empty queue means attached exactly when listed |
| DockQueue.DockFollowsClientList | dock/dock_manager_entries.go:62-138 | from start-up on, in every interleaving and whatever happens to other windows, once the queue is empty a live showable window that was never merely thinned out is on the dock if and only if it is in the client list |
| DockQueue.UntruthfulPop | dock/dock_manager_xevent.go:112-131 | a removal queued last for a window that is still listed takes it off the dock with nothing queued to bring it back |
| DockQueue.ThinnedFallsOff | dock/dock_manager_xevent.go:66-135 | a list that named the window twice and now names it once leads to exactly that |
| DockedApps.StepKeepsSound | dock/dock_manager_entries.go:31-40 | whether or not exports succeed, every step keeps ids unique and every docked entry with an application |
| DockedApps.StepSaves | dock/dock_manager_dock_app.go:134-245 | every step but a launcher update either saves the docked entries or leaves them and the saved list alone |
| DockedApps.StepKeepsSaved | dock/dock_manager_dock_app.go:134-245 | after every step but a launcher update the saved list is the zipped names of the docked entries in list order, for any one iteration order of the directory map |
| DockedApps.RunKeepsSaved | dock/dock_manager.go:354-420 | and over every run without launcher updates, failed exports included |
| DockedApps.SavedAnyOrder | dock/dock_manager_dock_app.go:134-141 | where the iteration order makes no difference, a list that names each docked entry under an order of its own is the one saved under any fixed order |
| DockedApps.StepAnyOrder | dock/dock_manager_dock_app.go:134-245 | there, no step depends on the iteration order |
| DockedApps.RunKeepsNames | dock/dock_manager.go:354-420 | over every run without launcher updates, for any directories and each step with its own iteration order, the saved list names exactly the docked entries in list order |
| DockedApps.RunKeepsSavedAnyOrder | dock/dock_manager.go:354-420 | and where the order makes no difference, it is their names under every order |
| DockedApps.LauncherUpdateExactly | dock/dock_manager_init.go:152-173 | a launcher update keeps the saved list right if and only if it changes no docked entry's zipped name |
| DockedApps.RequestDocksExactly | dock/dock_manager.go:354-386 | a dock request that can succeed docks its entry, saves its file and leaves the others; one that cannot changes neither list |
| DockedApps.UndockUndoesRequest | dock/dock_manager_dock_app.go:194-245 | undocking a freshly docked application restores the entries and the saved list |
| DockedApps.UndockUndoesDock | dock/dock_manager_dock_app.go:161-245 | undocking restores the whole state when an installed application's running entry was docked |
| DockedApps.UndockLeaves | dock/dock_manager_dock_app.go:194-245 | an entry without windows goes, one with windows stays undocked with them, the others keep place and content |
| DockedApps.StepMirrorsExactly | dock/app_entries.go:78-146 | a listener that replays the signals has the entry list after a step if and only if the step is not a successful move |
| DockedApps.RunMirrors | dock/dock_manager_init.go:47-66 | over every run without moves the mirror is exact, failed exports included |
| DockedApps.SavedAndMirroredFromStart | dock/dock_manager_entries.go:117-138 | both hold of every run from start-up, for any directories and every iteration order of each step, failed exports included |
| DockManager.AppEntry.constructor | dock/app_entry.go:62-75 | a new entry has no windows and is not docked |
| DockManager.AppEntry.UpdateWindowInfos | dock/app_entry.go:327-336 | the loop leaves one record per window |
| DockManager.AppEntry.UpdateIsActive | dock/app_entry.go:338-345 | active exactly when the active window is among the entry's windows |
| DockManager.AppEntry.AttachWindow | dock/app_entry.go:196-225 | adds the window, its record and the active flag; the first one becomes current |
| DockManager.AppEntry.DetachWindow | dock/app_entry.go:228-257 | drops the window; the next current window is some remaining one; reports exactly whether the entry is to be removed |
| DockManager.AppEntry.Release | dock/dock_manager_dock_app.go:223-241 | undocks an entry that keeps its windows, giving it a new identity if it had a scratch file |
| DockManager.Manager.GetByInnerId | dock/app_entries.go:62-72 | the first entry with the inner id |
| DockManager.Manager.GetByWindowId | dock/app_entries.go:184-198 | the first entry that has the window |
| DockManager.Manager.IndexOfId | dock/app_entries.go:106-114 | the last entry with the id |
| DockManager.Manager.GetActiveWindow | dock/dock_manager_hide_state.go:188-197 | the active window, or the one before it right after it is gone |
| DockManager.Manager.FindSameFile | dock/app_entries.go:200-210 | the first entry with the desktop file |
| DockManager.Manager.FindSameHash | dock/app_entries.go:212-226 | the first entry with the inner id of the desktop file |
| DockManager.Manager.GetByDesktopFilePath | dock/app_entries.go:200-234 | by file first, then by hash if the file can be parsed |
| DockManager.Manager.Insert | dock/app_entries.go:78-94 | inserts at the index, or at the end if it is out of range, and signals that place |
| DockManager.Manager.Remove | dock/app_entries.go:96-104 | removes a listed entry and signals it; otherwise does nothing |
| DockManager.Manager.MoveItem | dock/app_entries.go:123-146 | moves exactly when the two indices differ and are in range |
| DockManager.Manager.RegisterWindow | dock/dock_manager_xevent.go:32-50 | registers a window once |
| DockManager.Manager.AttachWindow | dock/dock_manager_entries.go:174-190 | performs the attach step on the objects, with the flag from getActiveWindow |
| DockManager.Manager.DetachWindow | dock/dock_manager_entries.go:192-202 | performs the detach step, with the flag from getActiveWindow |
| DockManager.Manager.AttachOrDetachWindow | dock/dock_manager_entries.go:83-115 | performs the attach-or-detach step |
| DockManager.Manager.HandleClientListChanged | dock/dock_manager_xevent.go:66-135 | replaces the client list and queues the additions, then the removals |
| DockManager.Manager.RunAdd | dock/dock_manager_xevent.go:80-104 | performs the queued addition |
| DockManager.Manager.RunRemove | dock/dock_manager_xevent.go:112-131 | performs the queued removal |
| DockManager.Manager.AccessEntry | dock/dock_manager.go:495-500 | takes the oldest closure and runs it |
| DockManager.Manager.HandlePropertyNotify | dock/dock_manager_xevent.go:364-375 | detaches and forgets on an identity change, then attaches or detaches; from a consistent table, the property step |
| DockManager.Manager.HandleDestroyNotify | dock/dock_manager_xevent.go:204-212 | performs the destroy step |
| DockManager.Manager.HandleActiveWindowChanged | dock/dock_manager_xevent.go:149-182 | flags and makes current over all entries, or moves the active window to the previous one when there is none now |
| DockManager.Manager.SaveDockedApps | dock/dock_manager_dock_app.go:134-141 | the loop saves exactly the docked entries' names in list order, each under an iteration order of its own; where the order makes no difference, that is the saved list of the step |
| DockManager.Manager.DockAppEntry | dock/dock_manager_dock_app.go:161-187 | docks an undocked entry, through a scratch file where one is needed, and fails exactly when that cannot be written |
| DockManager.Manager.UndockAppEntry | dock/dock_manager_dock_app.go:194-245 | performs the undock step, up to the iteration order of the saved names |
| DockManager.Manager.DockExisting | dock/app_entry_ifc.go:141-150 | docks a listed entry and saves exactly when it was docked |
| DockManager.Manager.RequestDockApp | dock/dock_manager.go:354-386 | performs the dock request, on the existing entry or a new one |
| DockManager.Manager.DockNew | dock/dock_manager.go:365-385 | a new entry is docked, exported, inserted at the index and saved, or nothing but the id counter changes |
| DockManager.Manager.RequestUndockFile | dock/dock_manager.go:398-409 | performs the undock request |
| DockManager.Manager.HandleLauncherItemUpdated | dock/dock_manager_init.go:152-173 | replaces the application of the entry found, without saving |
| DockManager.Manager.MoveEntryTo | dock/dock_manager.go:411-420 | moves and then saves |

## Left out

- X, D-Bus, pulse and file answers are parameters (what a window looks like, whether an export or a scratch
  file succeeds, what a desktop file parses to), so every answer is covered; the calls themselves are not
  modelled.
- Atomicity: each handler, queued closure and event delivery is one step; races inside a handler are not
  modelled, and neither is the order of lock acquisition.
- Window identification, icons, names, menus, geometry and the hide state of the dock; what a window is
  identified as is arbitrary.
- The Wayland windows of the dock (dock/wl_manager.go).
- WindowInfo objects are values keyed by window id; an object that outlives its registration and the
  exported current-window property are not modelled. Entry ids are the counter without its timestamp
  suffix.
- DockManager.Manager.DockAppEntry: does not model a scratch desktop file that is written but cannot be
  parsed back, where the source dereferences nil.
- Saved applications whose export fails at start-up; the stored list is taken without its duplicates.
- `handleLauncherItemDeleted` is the undock request without a hash; it has no member of its own.
- DockQueue.DockFollowsClientList: excludes client lists that name the window less often than before yet
  still name it; ThinnedFallsOff shows what happens then.
- DockInvariant.RunKeepsInv: assumes that exports succeed; RunKeepsCore says what holds without that.
- PolicyRuns.StickyExactly: assumes that a list names no port twice.
- DetectPortType's keyword matching: a port's type is a field, and only its range matters.
- The JSON load and save of the audio settings (what was loaded is a parameter of `Init`, and a load that
  fails leaves the policies as they were); volume, balance and mute settings.
- PriorityManagers.FirstPortIsOffered: assumes that no stored port has the invalid type -1, which DetectPortType never
  returns; such a port in front would read as "no port".
- audio/priority_old.go, which priority_policy.go supersedes.
- INCR transfers: data is a whole number of format units, so that a zero value length means empty data;
  hooks do not expire during a transfer; the announced length is written modulo 2^32 and never read back.
- WallpaperLoop.WSLoop.GetNext: the empty file name is excluded, because the source takes it for "nothing left".
- The slideshow timer, the delayed saves, and the status and configuration files.
- accounts, bluetooth, fprintd, gestures, calltrace and the other services: mostly thin wrappers around
  outside services.
