# Geofence synchronization engine — a Dafny model

This project models the core of the Geofence app's `MapKitService`, plus the
submit validator of its add-geofence screen, and proves properties about them.

- **Geofences and their regions** (`geofence.dfy`, module `GeofenceModel`).
  A geofence has an id, a centre, an inner *zone* circle, an outer *wifi*
  circle and a note. Each circle becomes a monitored region whose identifier
  is the id followed by `_zone` or `_wifi`. The module also covers the map
  annotation title and the stored encoding of a geofence.
- **The region resolver** (`handler.dfy`, module `Handler`).
  - It decodes a region identifier back to a geofence and kind.
  - It decides whether a selection enters the pending list.
  - It picks the selection that becomes current after the current one is
    left.
  - Drawing and monitoring appear only as abstract commands.
- **The synchronizer** (`synchronizer.dfy`, module `Synchronizer`). It handles
  region enter, region exit, and add/remove/refresh, each treated as one
  atomic step on a state. The state is the stored geofence list, the pending selections
  (the regions the device is inside, oldest first) and the current selection.
  A step also returns the commands issued, the notifications emitted and
  whether the list was saved. In front of the enter and exit handlers sits
  each chain's repeat filter (`distinctUntilChanged`), modelled as an
  engine that remembers the last (region id, current geofence id) pair each
  chain let through, and the region id a dropped event leaves in its chain's
  subject.
- **The add-geofence forms** (`addgeofence.dfy`, module `AddGeofenceForms`).
  This covers the three forms, the rule that enables Submit, and how an
  edited form replaces the stored one.
- **Support modules.** `text.dfy` models the Foundation string operations
  the code relies on: `contains`, `replacingOccurrences(of:with: "")` and
  trimming with `.whitespaces`. `sequences.dfy` models `firstIndex(where:)`
  and `filter`. `wrappers.dfy` defines `Option` and `Result`.

The main results:

- **Pending/current invariant.** From start-up and through any run of events,
  filtered or not, nothing is current exactly when nothing is pending. A
  current selection denotes a pending region, and no region is pending twice
  (`Valid`, `RunPreservesValid`).
- **Region-id round trip.** For a geofence id that contains neither suffix,
  both regions resolve back to the geofence and their own kind. The
  plain-id condition is needed: with the id `a_zone`, the wifi region
  decodes as the zone region of `a` (`RoundTripNeedsPlainId`,
  `ZoneLookingIdMisreads`).
- **Exit replacement follows the code.** When the current selection is left,
  the replacement is computed from the *oldest* pending entry, not from the
  geofence that was left. `ExitPromotionFollowsOldestPending` is a reachable
  example: the zone region of `a` is still pending, yet `b` becomes current.
  The example needs an exit from another region just before the last exit,
  because the exit chain's filter drops a pair equal to the last one it let
  through, however long ago that was.
- **Switching kinds on enter.** The enter handler switches to the other
  region of the current geofence in both directions: entering the outer
  region while the inner one is current switches to the outer one. The
  repeat filter can postpone an enter. Walking into the inner circle, out of
  it and straight back in keeps the outer region current for the moment,
  because the second entry repeats the enter chain's last pair. Its region
  id stays in the enter subject, and leaving the outer circle afterwards,
  which leaves nothing current, brings it back: nothing and then the inner
  region are announced as current, and the inner region ends up pending and
  current (`ReentryIsDropped`).
- **Repeats are harmless but not idempotent in general.** Delivering the
  same region event twice in a row changes nothing the second time, as long
  as the other chain holds no dropped region id (`RepeatIsHarmless`). A pair
  repeated after other events is dropped too. Its region id is held and
  comes back once the current geofence changes (`Replay`), and that can
  change the outcome, as the two scenarios above show.
- **Add does not check ids.** Adding a geofence whose id is already stored
  appends it anyway. Its regions then resolve to the earlier entry
  (`AddedDuplicateIsShadowed`).

Two behaviours of the code are easy to misread, and the model follows the
code in both:

- The replacement is computed from `interceptedGeofences.first`
  (`MapKitService/MapKitSynchronizer.swift:151-152`), not from the region
  that was left.
- The enter flag (`MapKitService/MapKitSynchronizer.swift:103-106`) only
  checks that the kinds differ, so it switches wifi to zone and also zone to
  wifi.

Identity is by key everywhere. A selection is matched by its geofence id and
its kind, because the source compares with `isEqualTo` (ids only) plus the
type. The invariant is therefore stated on keys.

## Model

| member | source | states |
|---|---|---|
| GeofenceModel.RawValue | MapKitService/Model/Geofence.swift:16-19 | the kinds are stored as "zone" and "wifi", and decoding a stored value gives the kind back |
| GeofenceModel.KindFromRaw | MapKitService/Model/Geofence.swift:54-59 | a stored kind decodes as zone exactly when it is "zone"; any other string, known or not, decodes as wifi |
| GeofenceModel.SameGeofenceIgnoresContents | MapKitService/Model/Geofence.swift:38-42 | two geofences are the same when their ids match, whatever their centre, circles and note |
| GeofenceModel.RegionSuffix | MapKitService/Model/Geofence.swift:127-134 | a region's identifier suffix is "_" followed by the kind's stored value, five characters long |
| GeofenceModel.ToRegion | MapKitService/Model/Geofence.swift:123-140 | a region has the id plus the kind's suffix as identifier, the geofence's centre, the radius of the circle of that kind, and notifies on both entry and exit |
| GeofenceModel.RegionIdentifiersDiffer | MapKitService/Model/Geofence.swift:127-134 | the two regions of one geofence never share an identifier |
| GeofenceModel.Title | MapKitService/Model/Geofence.swift:75-80 | the title starts with "Id: " and the id; it is exactly that when the note is empty, and otherwise continues with ". " and the note |
| GeofenceModel.EncodeCircle | MapKitService/Model/Geofence.swift:61-65 | a circle is stored under its kind's raw value |
| GeofenceModel.DecodeCircle | MapKitService/Model/Geofence.swift:54-59 | decoding a circle keeps its radius and never fails on the kind |
| GeofenceModel.EncodeGeofence | MapKitService/Model/Geofence.swift:111-121 | the stored form holds the id, the latitude, the longitude, both encoded circles and the note |
| GeofenceModel.DecodeGeofence | MapKitService/Model/Geofence.swift:98-109 | decoding rebuilds the centre from the latitude and longitude and decodes both circles |
| GeofenceModel.CodecRoundTrip | MapKitService/Model/Geofence.swift:98-121 | encoding then decoding gives back the same kind, circle and geofence |
| Text.ContainsIffOccurs | MapKitService/MapKitHandler.swift:62 | the substring scan finds "_zone" exactly when it starts at some index |
| Text.DeleteAll | MapKitService/MapKitHandler.swift:63 | deleting every occurrence never lengthens the string, leaves a string without one unchanged, and shortens a string with one by at least the pattern's length |
| Text.DeleteAllCutsEach | MapKitService/MapKitHandler.swift:63 | deletion cuts the first occurrence, keeps the text before it and goes on deleting in the rest |
| Text.DeleteAllSkipsPrefix | MapKitService/MapKitHandler.swift:63 | deletion leaves a prefix where the pattern never starts untouched |
| Text.LineBreakIsNotWhitespace | Geofence/AddGeofence/AddGeofenceInteractor.swift:53 | the whitespace set holds tab, space and the no-break and ideographic spaces but no line feed, carriage return or line separator, so trimming keeps a line break between spaces |
| Text.Trim | Geofence/AddGeofence/AddGeofenceInteractor.swift:53 | the result is a slice of the text with only whitespace cut off before and after it; it is empty exactly when the text is all whitespace, and otherwise starts and ends on a non-whitespace character |
| Text.TrimCutsBlankEnds | Geofence/AddGeofence/AddGeofenceInteractor.swift:53 | trimming the start and then the end cuts a blank prefix and a blank suffix, and keeps non-whitespace characters at both ends of what is left |
| Sequences.FirstIndex | MapKitService/MapKitHandler.swift:65 | finding nothing means no element matches; a found index is the earliest match |
| Sequences.Filter | MapKitService/MapKitHandler.swift:77 | a filter keeps exactly the matching elements, in their original order, each as many times as it occurs |
| Sequences.FilterMoreThanOne | MapKitService/MapKitHandler.swift:77-78 | a filter keeps more than one element exactly when two positions match |
| Sequences.FirstIndexOfFilter | MapKitService/MapKitHandler.swift:77-78 | the first zone entry of the filtered group is the earliest pending entry that is both in the group and a zone |
| Handler.KindOf | MapKitService/MapKitHandler.swift:62 | a region identifier denotes the zone kind exactly when "_zone" occurs anywhere in it, and wifi otherwise |
| Handler.ParseId | MapKitService/MapKitHandler.swift:63 | the parsed id is no longer than the identifier, and an identifier holding neither suffix is its own id |
| Handler.Resolve | MapKitService/MapKitHandler.swift:61-67 | resolution fails with geofenceNotFound exactly when no stored geofence has the parsed id; otherwise it returns the first stored geofence with that id, tagged zone exactly when "_zone" occurs |
| Handler.ZoneIdRoundTrip | MapKitService/MapKitHandler.swift:62-63 | a plain id followed by "_zone" decodes to that id and the zone kind |
| Handler.WifiIdRoundTrip | MapKitService/MapKitHandler.swift:62-63 | a plain id followed by "_wifi" decodes to that id and the wifi kind |
| Handler.RegionIdRoundTrip | MapKitService/MapKitHandler.swift:62-63 | either region identifier of a geofence with a plain id decodes back to the geofence's id and the region's kind |
| Handler.ResolveRegionOfStored | MapKitService/MapKitHandler.swift:61-66 | an event from either region of a stored geofence with a plain id resolves to a geofence with its id and to the region's kind |
| Handler.RoundTripNeedsPlainId | MapKitService/MapKitHandler.swift:62-63 | for the id "a_zone" the wifi region decodes as the zone kind with id "a", so the plain-id condition cannot be dropped |
| Handler.ZoneLookingIdMisreads | MapKitService/MapKitHandler.swift:62-63 | for any plain id `a`, the identifier `a_zone_wifi` decodes as the zone kind with id `a` |
| Handler.FirstWithIdUnique | MapKitService/MapKitHandler.swift:65 | there is only one earliest stored geofence with a given id |
| Handler.FirstWithIdExtends | MapKitService/MapKitSynchronizer.swift:169-170 | appending to the stored list never changes which geofence is the earliest with an id |
| Handler.ShouldInsert | MapKitService/MapKitHandler.swift:69-74 | a selection is inserted exactly when no pending entry has the same id and kind |
| Handler.Insert | MapKitService/MapKitSynchronizer.swift:112-114 | after the conditional append the region is pending; the list is unchanged when it already was, and otherwise grows by exactly the selection at the end |
| Handler.DistinctKeysAppend | MapKitService/MapKitSynchronizer.swift:112-114 | appending a region that is not pending keeps every pending region distinct |
| Handler.InsertIdempotent | MapKitService/MapKitSynchronizer.swift:112-114 | inserting the same selection twice is inserting it once, and insertion keeps pending regions distinct |
| Handler.RemoveMatching | MapKitService/MapKitSynchronizer.swift:147-149 | removal keeps exactly the entries with a different id or kind, in order and each as many times as it occurs; afterwards the region is not pending; a list without the region is unchanged |
| Handler.RemoveMatchingCons | MapKitService/MapKitSynchronizer.swift:147-149 | removal walks the list front to back, dropping each entry for the region and keeping the rest |
| Handler.DistinctKeysRemove | MapKitService/MapKitSynchronizer.swift:147-149 | removal keeps pending regions distinct |
| Handler.SelectNext | MapKitService/MapKitHandler.swift:76-83 | the choice keeps the given geofence's id; if two pending entries belong to that geofence and one is a zone, it is the earliest such zone entry, and otherwise it is the given selection itself |
| Handler.SelectNextGroup | MapKitService/MapKitHandler.swift:77-80 | the group of pending entries of the given geofence has more than one entry exactly when two entries carry its id; it has no zone entry exactly when no pending entry of the geofence is a zone; a zone entry found in it is the earliest pending zone entry of the geofence |
| Handler.TwoWithIdMeansBothKinds | MapKitService/MapKitHandler.swift:77-78 | with distinct pending regions, two entries of one geofence are its zone region and its wifi region |
| Handler.BothKindsMeansTwoWithId | MapKitService/MapKitHandler.swift:77-78 | pending zone and wifi regions of one geofence are two entries of it |
| Handler.SelectNextDistinct | MapKitService/MapKitHandler.swift:76-83 | with distinct pending regions, the choice is the zone region exactly when both regions of the geofence are pending, and the given selection otherwise |
| Handler.MonitorRequests | MapKitService/MapKitHandler.swift:31-59 | a draw or remove command starts or stops monitoring both regions of the geofence, the zone region first |
| Handler.MonitoredRegionsResolve | MapKitService/MapKitHandler.swift:31-42 | both regions a draw command starts monitoring notify on entry and exit, and their events resolve back to the geofence's id and to the right kind |
| Synchronizer.Enter | MapKitService/MapKitSynchronizer.swift:94-119 | an unknown region changes nothing. A resolved region becomes pending, appended only when absent. It becomes current when nothing is current or when it is the other kind of the current geofence; otherwise the current selection stays. Exactly one notification, the new current selection, is emitted when it switches, and none otherwise |
| Synchronizer.Exit | MapKitService/MapKitSynchronizer.swift:134-158 | an unknown region changes nothing. Otherwise every entry for the region leaves the pending list. Leaving a region that is not current changes nothing else and emits nothing. Leaving the current region emits the new current selection: nothing when no entry is left, and otherwise the choice made from the oldest pending entry |
| Synchronizer.UpdateGeofence | MapKitService/MapKitSynchronizer.swift:161-194 | add appends without checking ids, draws, saves and emits the list. Remove fails with geofenceNotFound exactly when no stored geofence has the id; otherwise it deletes the first one with the id, stops monitoring, saves and emits. Refresh only redraws and emits. Pending and current are never touched |
| Synchronizer.Step | MapKitService/MapKitSynchronizer.swift:173-176 | a failed update changes nothing; region events never change the stored list; updates never change pending or current |
| Synchronizer.InitialIsValid | MapKitService/MapKitSynchronizer.swift:31-51 | the start-up state satisfies the pending/current invariant |
| Synchronizer.EnterPreservesValid | MapKitService/MapKitSynchronizer.swift:110-119 | an enter step keeps the pending/current invariant |
| Synchronizer.ExitPreservesValid | MapKitService/MapKitSynchronizer.swift:145-158 | an exit step keeps the pending/current invariant |
| Synchronizer.UpdatePreservesValid | MapKitService/MapKitSynchronizer.swift:161-194 | a successful update keeps the pending/current invariant |
| Synchronizer.StepPreservesValid | MapKitService/MapKitSynchronizer.swift:80-194 | every step keeps the pending/current invariant |
| Synchronizer.Deliver | MapKitService/MapKitSynchronizer.swift:81-136 | a region event whose (region id, current geofence id) pair equals the last one its chain let through is dropped: state, pairs and output are untouched, and its region id stays held by its chain. Any other event reaches its handler, whose notifications come first; when the handler keeps the current geofence id and nothing held would pass, the outcome is exactly the handler's. Updates are never filtered; region events never touch the stored list; a delivery keeps every held id one its chain would drop again |
| Synchronizer.Replay | MapKitService/MapKitSynchronizer.swift:81-96 | after the current geofence changes, held region ids whose new pair passes the filter reach their handlers, the enter chain's first, until every id still held would be dropped again; nothing happens when none would pass; replays never touch the stored list, issue no command and hold no more ids than before |
| Synchronizer.Run | MapKitService/MapKitSynchronizer.swift:80-89 | a run of no events leaves the engine as it was and emits nothing; `RunSnoc` states how each further event is delivered after the run before it |
| Synchronizer.ReplayReleasesHeldEnter | MapKitService/MapKitSynchronizer.swift:81-119 | a held entry whose pair with the new current geofence passes the filter reaches the enter handler, whose notifications come first; when no exit is held, the replay is exactly that handler's step and the entry is no longer held |
| Synchronizer.ReplayReleasesHeldExit | MapKitService/MapKitSynchronizer.swift:121-158 | a held exit whose new pair passes the filter, with no held entry passing before it, reaches the exit handler, whose notifications come first; when no entry is held, the replay is exactly that handler's step and the exit is no longer held |
| Synchronizer.RegionRunKeepsStored | MapKitService/MapKitSynchronizer.swift:80-158 | a run of region events alone never changes the stored list, issues no command and saves nothing |
| Synchronizer.RunKeepsSettled | MapKitService/MapKitSynchronizer.swift:81-96 | after any run from an engine whose held region ids its chains would all drop again, the same holds of every id still held |
| Synchronizer.ReplayPreservesValid | MapKitService/MapKitSynchronizer.swift:81-158 | replayed region events keep the pending/current invariant |
| Synchronizer.RunSnoc | MapKitService/MapKitSynchronizer.swift:81-89 | a run extended by one event is the run followed by delivering that event where the run ends: the engine is the delivery's, and the logged commands, notifications and save are the run's followed by the delivery's |
| Synchronizer.DeliverPreservesValid | MapKitService/MapKitSynchronizer.swift:80-194 | a delivered event, filtered or not, keeps the pending/current invariant |
| Synchronizer.RunPreservesValid | MapKitService/MapKitSynchronizer.swift:80-194 | every run of events from a valid state ends in a valid state |
| Synchronizer.RepeatIsHarmless | MapKitService/MapKitSynchronizer.swift:87-89 | when the other chain holds no region id, a region event delivered twice in a row leaves the state as the first delivery left it and emits nothing the second time |
| Synchronizer.ReentryIsDropped | MapKitService/MapKitSynchronizer.swift:81-158 | from start-up, after entering a geofence's wifi region, entering its zone region and leaving it, the wifi region is current; entering the zone region again is dropped and held, although the enter handler would switch to it; leaving the wifi region then announces nothing and then the zone region as current, and the zone region ends up the only pending one and current |
| Synchronizer.ReentryRun | MapKitService/MapKitSynchronizer.swift:81-158 | the same run for any stored list in which the two region ids resolve to the two regions of one geofence |
| Synchronizer.HeldEntryReturns | MapKitService/MapKitSynchronizer.swift:81-158 | leaving the only pending region while the enter chain holds the other region of its geofence leaves nothing current, after which the held entry passes and its region becomes pending and current, announcing nothing and then that region |
| Synchronizer.EnterIdempotent | MapKitService/MapKitSynchronizer.swift:94-119 | a duplicated enter notification changes nothing more and emits nothing |
| Synchronizer.ExitIdempotent | MapKitService/MapKitSynchronizer.swift:134-158 | a duplicated exit notification changes nothing more and emits nothing |
| Synchronizer.StaleEventAfterRemove | MapKitService/MapKitSynchronizer.swift:173-179 | after the only geofence with an id is removed, enter and exit events from its regions change nothing |
| Synchronizer.UnknownRegionChangesNothing | MapKitService/MapKitSynchronizer.swift:134-137 | an enter or exit event whose parsed id no stored geofence has changes nothing and emits nothing |
| Synchronizer.RemovedIdIsGone | MapKitService/MapKitSynchronizer.swift:174-177 | deleting the only stored entry with an id leaves no entry with that id |
| Synchronizer.WalkInAndOut | MapKitService/MapKitSynchronizer.swift:94-158 | from start-up, entering a geofence's wifi region, then its zone region, then leaving the zone region and the wifi region emits wifi, zone, wifi and nothing as current, and ends back at the start-up state |
| Synchronizer.WalkInAndOutDelivered | MapKitService/MapKitSynchronizer.swift:81-158 | the same walk through the repeat filter from start-up: every event passes, the engine emits wifi, zone, wifi and nothing as current, ends at the start-up state and holds no region id |
| Synchronizer.LeaveFirstAndReturn | MapKitService/MapKitSynchronizer.swift:134-158 | leaving the oldest pending region while a newer one is current only drops it; entering it again appends it and, being the other kind of the current geofence, makes it current |
| Synchronizer.EnterTwoGeofences | MapKitService/MapKitSynchronizer.swift:94-119 | from start-up, the first region entered becomes current; a region of another geofence entered next is queued behind it and does not take over |
| Synchronizer.EnterOtherKindOfFirst | MapKitService/MapKitSynchronizer.swift:103-118 | entering the other region of the current geofence queues it and makes it the current selection, leaving the other pending entries in place |
| Synchronizer.LeaveLastCurrent | MapKitService/MapKitSynchronizer.swift:145-157 | leaving the current, newest pending region makes the oldest entry current when its geofence has no second pending entry |
| Synchronizer.AddedDuplicateIsShadowed | MapKitService/MapKitSynchronizer.swift:169-172 | adding a geofence whose id is already stored leaves its regions resolving to the earlier entry |
| Synchronizer.ResolveSoleGeofence | MapKitService/MapKitHandler.swift:61-66 | a region of the earliest stored geofence with a plain id resolves to exactly that geofence and the region's kind |
| Synchronizer.AddEnterExitScenario | MapKitService/MapKitSynchronizer.swift:94-194 | adding a geofence and then entering its wifi region, entering its zone region, leaving the zone region and leaving the wifi region emits the one-entry list, then wifi, zone, wifi and nothing as current, and ends with nothing pending |
| Synchronizer.AddThenWalkDelivered | MapKitService/MapKitSynchronizer.swift:81-194 | delivering an add to the start-up engine of an empty list draws, saves and emits the one-entry list and leaves the start-up engine of that list; walking into the geofence's wifi and zone regions and out again through the engine then emits wifi, zone, wifi and nothing as current and ends with nothing pending |
| Synchronizer.ExitPromotionFollowsOldestPending | MapKitService/MapKitSynchronizer.swift:127-153 | from start-up, five events reach a state where `a`'s wifi region is current and its zone region pending; leaving `a`'s wifi region then is dropped by the exit filter, and after an exit from `b`'s zone region it makes `b`'s wifi region current |
| Synchronizer.OldestPendingRun | MapKitService/MapKitSynchronizer.swift:81-153 | the same seven events for any stored list in which the four region ids resolve to the regions of two geofences |
| Synchronizer.EnterFresh | MapKitService/MapKitSynchronizer.swift:110-118 | entering a region that is not pending appends it, and makes it current exactly when the switch flag holds |
| Synchronizer.ExitOther | MapKitService/MapKitSynchronizer.swift:145-150 | leaving a region that is not current only removes it from the pending list |
| Synchronizer.ExitCurrent | MapKitService/MapKitSynchronizer.swift:150-153 | leaving the current region while others are pending makes the choice made from the oldest pending entry current |
| AddGeofenceForms.FormIdentifier | Geofence/AddGeofence/AddGeofenceInteractor.swift:21-25 | the form types are identified by "radius", "note" and "wifiStrength" |
| AddGeofenceForms.FormIdentifiersDistinct | Geofence/AddGeofence/AddGeofenceInteractor.swift:21-25 | two form types share an identifier only when they are the same type |
| AddGeofenceForms.CreateForms | Geofence/AddGeofence/AddGeofenceInteractor.swift:38-44 | exactly three forms, in the order radius, wifi strength and note, with their titles and keyboards; all are required and all are empty |
| AddGeofenceForms.HasTextIffNotBlank | Geofence/AddGeofence/AddGeofenceInteractor.swift:53 | a form counts as filled exactly when its text is present and holds a character outside the whitespace set |
| AddGeofenceForms.CheckEnableToSubmit | Geofence/AddGeofence/AddGeofenceInteractor.swift:46-60 | Submit is enabled exactly when a form list exists and every required form in it is filled; without a list it is disabled |
| AddGeofenceForms.AllHaveText | Geofence/AddGeofence/AddGeofenceInteractor.swift:52-57 | the early-exit scan succeeds exactly when every scanned form is filled |
| AddGeofenceForms.OptionalFormsIgnored | Geofence/AddGeofence/AddGeofenceInteractor.swift:50 | the Submit rule gives the same answer on the required forms alone, so forms that are not required never affect it |
| AddGeofenceForms.CreatedFormsNotSubmittable | Geofence/AddGeofence/AddGeofenceInteractor.swift:38-60 | freshly created forms do not enable Submit |
| AddGeofenceForms.SetupForms | Geofence/AddGeofence/AddGeofenceInteractor.swift:76-78 | setup shows the existing forms when there are some, and otherwise creates the forms and keeps them |
| AddGeofenceForms.SetupFormsIdempotent | Geofence/AddGeofence/AddGeofenceInteractor.swift:76-78 | setting up twice shows and keeps the same forms as setting up once, including text already typed |
| AddGeofenceForms.ReplaceForm | Geofence/AddGeofence/AddGeofenceInteractor.swift:81-83 | the edited form replaces only the first form with its identifier; the length and every other form are unchanged; an unknown identifier changes nothing |
| AddGeofenceForms.ReplaceFormIdempotent | Geofence/AddGeofence/AddGeofenceInteractor.swift:81-83 | applying the same edit twice is applying it once |
| AddGeofenceForms.TextDidChange | Geofence/AddGeofence/AddGeofenceInteractor.swift:80-86 | an edit replaces its form, then Submit is re-evaluated on the result; without a form list nothing is replaced and Submit is disabled |
| AddGeofenceForms.FillingEveryFormEnablesSubmit | Geofence/AddGeofence/AddGeofenceInteractor.swift:80-86 | typing non-blank text into each of the three created forms enables Submit |

## Left out

- Reactive scheduling is not modelled: `observeOn`, `flatMap` over storage
  loads and the interleaving of the two chains. Each event is treated as
  one atomic step, and the state carries the stored list that the step
  would load. In the source a step is not atomic: loads and saves run on
  `GeofenceStorage`'s own scheduler
  (`MapKitService/Model/GeofenceStorage.swift:39`, `:64`), so the region
  handlers' `map` and `subscribe` run there too, and an update computes on
  the synchronizer's scheduler between a load and a save on the storage
  one. The repeat filter is modelled (`Deliver`), and so is
  the region id a dropped event leaves in its subject, which `combineLatest`
  pairs again with each new current geofence (`Replay`). The `nil` reset of
  a subject reaches the `filter` in front of the repeat filter and is
  dropped there, so it is not an event of the model; it shows only as the
  held id being cleared.
- Synchronizer.Replay: held ids are replayed right after the step that
  changed the current geofence, against the state that step left, the
  enter chain's first. In the source the re-emission is queued on the
  synchronizer's scheduler carrying the current geofence of the moment it was made,
  and events queued earlier run before it; that interleaving is left out.
- Synchronizer.RepeatIsHarmless: it assumes the other chain holds no
  region id. When it does, the first delivery can change the current
  geofence and release that held event. The released event can undo part
  of the first delivery, and the repeat, paired with the new current
  geofence, passes the filter and redoes it.
- Synchronizer.Enter: an unknown region id is a no-op step. In the source,
  the thrown `geofenceNotFound` terminates that Rx subscription, so later
  events would be ignored. Subscription lifetime is out of scope.
- Synchronizer.Exit: same as `Enter` for an unknown region id.
- Synchronizer.UpdateGeofence: saving always succeeds. `GeofenceStorage`
  (JSON through `UserDefaults`, and the DEBUG `fatalError` on a coding
  failure) is not part of this model. `State.stored` stands for the
  persisted list. The `unknownError` thrown when the synchronizer has been
  deallocated is not modelled either. Updates are applied one after the
  other to the latest list, so the lost update of the source is not
  modelled: two adds issued back to back
  (`MapKitService/MapKitService.swift:81`) can both load the same list, and
  the later save then drops the geofence the earlier one added.
- MapKit and CoreLocation effects are left out: annotations, overlays,
  `MapCircle` renderers and the location manager's region bookkeeping. The
  draw and remove calls are the commands `DrawAndStartMonitor` and
  `RemoveAndStopMonitor`, and `MonitorRequests` gives the region requests
  they amount to. Overlay removal by coordinate is not modelled.
- Coordinates and radii are opaque reals that are only copied. Double
  arithmetic, and the `Double(...)` parsing in `getGeofenceProperties`, are
  left out. The same goes for `didClickSubmitButton`, which dismisses the
  view and forwards those properties.
- Strings are sequences of Unicode scalars. Swift's grapheme clusters and
  canonical equivalence, which `contains`, `replacingOccurrences` and
  `count` respect, are not modelled.
- `GeofenceArea`'s default UUID id is not modelled: ids are parameters.
- `getAllGeofenceArea` (a plain storage load), `zoomToUserLocation`,
  `didClickAlignButton`, the authorisation callback and `subtitle` are
  left out: they are display or I/O only.
- The UI layers are not part of this model: view controllers, the table
  data source, the form cell's debounce timer, `GeofenceViewModel`, the
  router and the `MapKitService` facade. Only `UserAction` is kept from the
  facade.
