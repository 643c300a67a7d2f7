# Layout logic of a customised conferencing client, in Dafny

This project models the layout logic of a customised video-conferencing web
client and proves properties of it. A trainer runs a session and attendees
join. The layout logic decides who gets a thumbnail and in which order. The
model has four parts.

- **Filmstrip ordering** (`filmstrip.dfy`, with `stable_sort.dfy`):
  - choose the remote participants for the current layout;
  - give each an order key from a chain of priority bands (trainer, missing
    local flag, inactive connection, screen share, recently active, unmuted
    video, anyone else);
  - sort stably by key;
  - optionally promote the dominant speaker to key 3 and sort again;
  - mark each position hidden or not against a cap derived from `lastN`.

  The sort is a verified insertion sort. It is proved stable, and proved to be
  the only stable sort, so it behaves like the source's comparator, which
  returns 0 on ties.
- **Video layout state** (`video_layout.dfy`):
  - the remote thumbnails keyed by participant id;
  - a buffer of remote streams per participant and type, kept so a thumbnail
    created later can replay them;
  - the pinned participant, and focus on pin changes;
  - flex-order assignment;
  - the large-video update decision, and the container shown when one is
    hidden;
  - the filmstrip reset.

  Thumbnails and the large-video manager are opaque records holding the fields
  the layout code reads and writes.
- **Event router** (`middleware.dfy`): a step function from (store, layout)
  and an action to the next (store, layout). The reducers run first, then the
  fixed reaction on the video layout runs. The composite invariant is proved
  over any run of actions: every thumbnail belongs to a present, non-local
  participant named `trainer` or `active`.
- **Configuration overrides** (`config.dfy`):
  - a JSON value type;
  - per-target whitelist filtering;
  - a deep merge that overwrites arrays;
  - nesting of dotted URL parameters into objects;
  - the fallback configuration built from a base URL.

`wrappers.dfy` (optional values), `text.dfy` (prefix test, splitting and
joining on dots) and `registry.dfy` (participant, stream and track records,
first-match track lookup) are shared by the rest.

Conventions:
- JavaScript `undefined` is `None`.
- `!p.local` is "`local` is not `Some(true)`".
- `p?.local ?? true` is `local.GetOr(true)`.
- A code path that would throw becomes either a precondition or a `None`
  result; each case is named below.

Observation (not a finding): the order-key bands overlap. A recency index of
10 or more gives keys 20, 21, …, which collide with the unmuted-video band
(20) and the catch-all band (30). Past 89 they reach the inactive band
(100 + index). The model reproduces this as written.

## Model

| member | source | states |
|---|---|---|
| Text.SplitDots | react/features/base/config/functions.any.js:502-503 | a dotted parameter name splits into at least one piece, and no piece contains a dot |
| Text.JoinSplit | react/features/base/config/functions.any.js:502-503 | joining the pieces of a split with dots gives back the original name |
| Text.SplitDotsOf | react/features/base/config/functions.any.js:502-503 | splitting a dot-join of dot-free pieces gives back exactly those pieces |
| Text.SplitInjective | react/features/base/config/functions.any.js:500-510 | two different parameter names never nest at the same path |
| Registry.VideoTrackOf | react/features/filmstrip/components/web/Filmstrip.js:208-212 | none is found iff the participant has no video track in the list; otherwise the result is the first video track of that participant in list order, as `find` returns |
| StableSort.Sort | react/features/filmstrip/components/web/Filmstrip.js:254-259 | the result is ordered by key and is a permutation (same multiset) of the input |
| StableSort.SortIsStable | react/features/filmstrip/components/web/Filmstrip.js:254-259 | for every key, the elements with that key appear in the result in their input order |
| StableSort.StableSortUnique | react/features/filmstrip/components/web/Filmstrip.js:254-259 | two key-ordered sequences with the same per-key subsequences are equal, so any stable sort gives the same result as this one |
| StableSort.SortSortedIsIdentity | react/features/filmstrip/components/web/Filmstrip.js:272-277 | sorting an already ordered strip changes nothing |
| StableSort.UniqueKeyPosition | react/features/filmstrip/components/web/Filmstrip.js:386-391 | in an ordered strip, an element whose key no other element has sits at the position equal to the number of smaller keys |
| Filmstrip.RemoteParticipants | react/features/filmstrip/components/web/Filmstrip.js:173-182 | a participant is in the remote strip iff it is not local and, outside tile view, its name does not start with "Trainer"; multiplicity and store order are stated by RemoteParticipantsCount and RemoteParticipantsAppend |
| Filmstrip.RemoteParticipantsCount | react/features/filmstrip/components/web/Filmstrip.js:173-182 | each kept participant is in the strip as often as the store lists it, any other not at all |
| Filmstrip.RemoteParticipantsAppend | react/features/filmstrip/components/web/Filmstrip.js:173-182 | the strip of two runs of participants is the first run's strip followed by the second's, so the filter keeps store order |
| Filmstrip.TrainerSlot | react/features/filmstrip/components/web/Filmstrip.js:316-318 | the trainer slot holds exactly the participants whose name starts with "Trainer", and is empty in tile view; multiplicity and order by TrainerSlotCount and TrainerSlotAppend |
| Filmstrip.TrainerSlotCount | react/features/filmstrip/components/web/Filmstrip.js:316-318 | a trainer is in the slot as often as the store lists it, anyone else not at all |
| Filmstrip.TrainerSlotAppend | react/features/filmstrip/components/web/Filmstrip.js:316-318 | the slot of two runs of participants is the first run's slot followed by the second's |
| Filmstrip.TrainerSlotComplementsRemote | react/features/filmstrip/components/web/Filmstrip.js:173-182 | outside tile view each non-local participant is in exactly one of the remote strip and the trainer slot; in tile view all are in the strip |
| Filmstrip.MaxVisible | react/features/filmstrip/components/web/Filmstrip.js:176-186 | the cap is unlimited iff lastN is below one; otherwise it lies between 0 and lastN, and is exactly lastN in tile view (one less outside it, by TileViewShowsOneMore) |
| Filmstrip.TileViewShowsOneMore | react/features/filmstrip/components/web/Filmstrip.js:183-185 | for lastN of at least one, tile view shows exactly one more thumbnail than the other layout |
| Filmstrip.IndexOf | react/features/filmstrip/components/web/Filmstrip.js:199-201 | the index is -1 iff the id is not in the recency list, and otherwise is the first position holding the id |
| Filmstrip.OrderKey | react/features/filmstrip/components/web/Filmstrip.js:189-243 | key 1 iff trainer-named; key 2 iff an active, present-remote, non-fake participant is sharing its screen; never key 3; never key 20 without a video track when not recently active |
| Filmstrip.OrderKeyBands | react/features/filmstrip/components/web/Filmstrip.js:189-243 | with at most ten recently active participants each band is an if-and-only-if with the rule that picks it: 200 iff the local flag is not false; 100 + recency index iff the connection is not active; 10 + recency index iff active, not a remote screen share and recently active; 20 iff additionally not recent, remote and with unmuted video; 30 for the rest |
| Filmstrip.Rank | react/features/filmstrip/components/web/Filmstrip.js:189-253 | every remote participant keeps its place in store order and receives its order key |
| Filmstrip.FirstDominant | react/features/filmstrip/components/web/Filmstrip.js:267 | the index is -1 iff nobody is flagged as dominant speaker, and otherwise is the first flagged position |
| Filmstrip.Promote | react/features/filmstrip/components/web/Filmstrip.js:269-271 | only the chosen entry changes, and its key becomes 3 |
| Filmstrip.DominantIndex | react/features/filmstrip/components/web/Filmstrip.js:262-271 | a speaker is chosen only when the indicator is on, the strip is longer than lastN, and the first flagged participant sits at or beyond lastN; otherwise one of those conditions fails |
| Filmstrip.DominantOverride | react/features/filmstrip/components/web/Filmstrip.js:262-278 | the strip stays ordered and keeps its length; without a chosen speaker it is unchanged; with one, exactly that entry's key becomes 3, and for every key the entries holding it keep the relative order they have in the strip with that one key changed, so the second sort moves nobody else past an equal key |
| Filmstrip.PromoteBands | react/features/filmstrip/components/web/Filmstrip.js:269-277 | promoting one entry leaves every other band as it was, and its old band loses exactly that entry, the rest in order |
| Filmstrip.SpeakerBands | react/features/filmstrip/components/web/Filmstrip.js:269-277 | after the second sort the promoted key holds the speaker alone, and its old band is the others of that band in their order |
| Filmstrip.Tiles | react/features/filmstrip/components/web/Filmstrip.js:386-391 | each position keeps its participant and key, and is hidden iff a cap is set and the position is at least the cap |
| Filmstrip.VisibleCount | react/features/filmstrip/components/web/Filmstrip.js:386-391 | exactly min(cap, length) thumbnails are visible, or all of them when there is no cap |
| Filmstrip.SortedStrip | react/features/filmstrip/components/web/Filmstrip.js:254-259 | the ranked remote participants come out ordered by key |
| Filmstrip.LayoutShape | react/features/filmstrip/components/web/Filmstrip.js:173-391 | the rendered strip is a permutation of the remote participants' ids, with non-decreasing keys and the hidden flag against the cap |
| Filmstrip.OrderedIds | react/features/filmstrip/components/web/Filmstrip.js:254-278 | sorting and the override keep exactly the remote participants, each as often as it appears |
| Filmstrip.DominantOverrideIds | react/features/filmstrip/components/web/Filmstrip.js:262-278 | the override changes keys, never who is in the strip |
| Filmstrip.OrderedIsStable | react/features/filmstrip/components/web/Filmstrip.js:173-277 | for every key untouched by the override (all keys when nothing is promoted), the final strip's participants with that key are exactly the store's kept participants with that key, in store order |
| Filmstrip.RankedBand | react/features/filmstrip/components/web/Filmstrip.js:173-259 | ranking the remote strip and taking the entries of one key gives the store's kept participants with that key, in store order |
| Filmstrip.OrderedPromotedBands | react/features/filmstrip/components/web/Filmstrip.js:173-278 | when a speaker is promoted, key 3 holds the speaker alone, and the speaker's old band is the store's band with only the speaker removed, the others in store order |
| Filmstrip.SortedStripHasNoDominantKey | react/features/filmstrip/components/web/Filmstrip.js:189-243 | no key from the band chain equals the promoted key 3 |
| Filmstrip.DominantSpeakerLeftHidden | react/features/filmstrip/components/web/Filmstrip.js:262-271 | as written: a concrete strip where the dominant speaker has nothing ranked before it that could push it out, yet stays hidden and is not promoted |
| Filmstrip.DominantSpeakerReorderedWithoutCap | react/features/filmstrip/components/web/Filmstrip.js:262-278 | as written: with lastN 0 nothing is hidden, yet the speaker of the same strip is promoted ahead of a recently active attendee |
| Filmstrip.DominantIndexCorrected | react/features/filmstrip/components/web/Filmstrip.js:261-271 | corrected: the first dominant speaker is chosen iff the indicator is on, a cap is set and its position is hidden under the cap |
| Filmstrip.DominantOverrideCorrected | react/features/filmstrip/components/web/Filmstrip.js:261-278 | corrected: ordered result of the same length, unchanged when no speaker is chosen |
| Filmstrip.PromotedSpeakerVisible | react/features/filmstrip/components/web/Filmstrip.js:261-278 | corrected: when fewer entries than the cap carry keys below 3, the first dominant speaker ends up visible |
| Filmstrip.PromotedLandsEarly | react/features/filmstrip/components/web/Filmstrip.js:269-277 | promoting one entry of a strip without key 3 and sorting again puts it no later than the number of keys below 3 |
| Filmstrip.LayoutCorrectedShowsDominantSpeaker | react/features/filmstrip/components/web/Filmstrip.js:261-278 | corrected, whole pipeline: a dominant speaker preceded by fewer trainer/screen-share keys than the cap is rendered visible |
| VideoLayout.PinnedId | modules/UI/videolayout/VideoLayout.js:271-275 | the pinned id is reported iff one is set and it is not empty |
| VideoLayout.GetRemoteVideoType | modules/UI/videolayout/VideoLayout.js:254-265 | a fake participant gives the shared-video type; otherwise there is a type iff the participant has a video track, and it is the type of its first video track in list order |
| VideoLayout.StreamIdOf | modules/UI/videolayout/VideoLayout.js:622 | a stream id is present iff there is a stream with a non-empty id |
| VideoLayout.VideoStreamOf | modules/UI/videolayout/VideoLayout.js:615-616 | the video stream exists iff a video track exists, and is that track's stream |
| VideoLayout.LargeVideoRequest | modules/UI/videolayout/VideoLayout.js:607-643 | an update is requested iff the participant is not on large, the call is forced, or the video container shows a different stream id than the participant's live one; the video type falls back to camera and is never empty |
| VideoLayout.VideoTypeOrCamera | modules/UI/videolayout/VideoLayout.js:632-638 | the type handed to the large video is the remote video type, or camera when there is none or it is empty; never empty |
| VideoLayout.UpdateLargeVideo | modules/UI/videolayout/VideoLayout.js:607-643 | nothing without a manager; without a request the manager is unchanged; with one it shows the participant, its current stream id and the requested type |
| VideoLayout.UpdateLargeVideoIfDisplayed | modules/UI/videolayout/VideoLayout.js:802-806 | only the participant on large triggers an update, and the displayed id never changes |
| VideoLayout.UpdateLargeVideoSettles | modules/UI/videolayout/VideoLayout.js:618-631 | after any update for an id, an unforced update for the same id changes nothing |
| VideoLayout.ForcedUpdateIdempotent | modules/UI/videolayout/VideoLayout.js:631-642 | repeating a forced update against the same store gives the same display |
| VideoLayout.OnVideoMute | modules/UI/videolayout/VideoLayout.js:377-390 | only the large video can change, and only when that participant is on large; then it is refreshed by force: same container, that participant, its current video stream id and its video type with the camera fallback |
| VideoLayout.OnVideoMuteIdempotent | modules/UI/videolayout/VideoLayout.js:377-390 | handling the same mute twice equals handling it once |
| VideoLayout.OnRemoteStreamAdded | modules/UI/videolayout/VideoLayout.js:185-211 | the stream is always filed under its owner and type, replacing only that slot; without a thumbnail nothing else changes; with one it is attached there; audio never touches the large video; a non-audio stream of the participant on large forces a refresh to its current stream and type |
| VideoLayout.Buffered | modules/UI/videolayout/VideoLayout.js:188-191 | the stream is filed under its owner and type, replacing only that slot, and nothing outside the buffer changes |
| VideoLayout.OnRemoteStreamRemoved | modules/UI/videolayout/VideoLayout.js:213-225 | the buffer is untouched; only that stream is detached from its owner's thumbnail, if attached |
| VideoLayout.RemovedStreamStaysBuffered | modules/UI/videolayout/VideoLayout.js:185-225 | a stream added and then removed is still in the buffer for a later thumbnail |
| VideoLayout.Replayed | modules/UI/videolayout/VideoLayout.js:368-373 | replaying leaves the buffer and every other thumbnail as they were and attaches every buffered stream to the thumbnail; the large video is refreshed by force iff the participant is on large and a buffered stream is not audio |
| VideoLayout.ReplayOneMore | modules/UI/videolayout/VideoLayout.js:368-373 | replaying one more buffered type through the stream handler extends the replay by exactly that type |
| VideoLayout.AddSavedRemoteStreams | modules/UI/videolayout/VideoLayout.js:368-373 | replaying the buffered streams one by one, in any order, gives the closed-form replay and leaves the buffer unchanged |
| VideoLayout.SetRemoteVideoOrder | modules/UI/videolayout/VideoLayout.js:414-426 | only the flex order of that thumbnail changes, to OrderFor of the participant's name: -1 iff the name is exactly "trainer", 2 for any other non-empty name, kept for a missing or empty name; nothing without a thumbnail |
| VideoLayout.OrderFor | modules/UI/videolayout/VideoLayout.js:414-426 | the order is kept for a missing or empty name; otherwise it is -1 iff the name is "trainer" and 2 iff it is not |
| VideoLayout.SetRemoteVideoOrderIdempotent | modules/UI/videolayout/VideoLayout.js:414-426 | setting the order twice equals setting it once |
| VideoLayout.OrderDependsOnNameOnly | modules/UI/videolayout/VideoLayout.js:414-426 | two stores that agree on the participant's name give the same order |
| VideoLayout.AddRemoteVideoContainer | modules/UI/videolayout/VideoLayout.js:349-357 | the thumbnail is installed under that id with every buffered stream attached and its flex order set from the participant's name; other thumbnails and the buffer are unchanged; the large video is refreshed by force iff that participant is on large and a buffered stream is not audio |
| VideoLayout.AddRemoteParticipantContainer | modules/UI/videolayout/VideoLayout.js:309-357 | no-op for an existing thumbnail or a local participant; otherwise adds exactly that id (shared-video kind iff fake, visible, unfocused, with the buffered streams, flex order from the name) and leaves the rest; the large video is refreshed by force iff that participant is on large and a buffered stream is not audio |
| VideoLayout.OnPinChange | modules/UI/videolayout/VideoLayout.js:297-300 | every thumbnail, local or remote, is focused iff its id is the pinned id; nothing else changes |
| VideoLayout.AtMostOneFocused | modules/UI/videolayout/VideoLayout.js:297-300 | with distinct thumbnail ids, after a pin change at most the pinned thumbnail is focused, and none when nobody is pinned |
| VideoLayout.RemoveParticipantContainer | modules/UI/videolayout/VideoLayout.js:509-526 | the pin is cleared iff that id was pinned, and then, through the pin change at 297-300, every remaining thumbnail, local included, is unfocused and otherwise unchanged; without that pin the other thumbnails are untouched; only that id leaves the thumbnail map |
| VideoLayout.AddThenRemove | modules/UI/videolayout/VideoLayout.js:509-526 | adding a new participant's container and removing it again restores the thumbnails, buffer, pin and local thumbnail |
| VideoLayout.SetLocalVideoVisible | modules/UI/videolayout/VideoLayout.js:179-183 | only the local thumbnail's visibility changes, and only if it exists |
| VideoLayout.OnParticipantConnectionStatusChanged | modules/UI/videolayout/VideoLayout.js:446-461 | nothing for the local participant or one not on large; otherwise only the large video changes, refreshed by force to that participant's current stream id and video type |
| VideoLayout.ConnectionStatusSettles | modules/UI/videolayout/VideoLayout.js:446-461 | after a status change for a remote participant, an unforced update for it changes nothing: the large video already shows its current stream |
| VideoLayout.ShowLargeVideoContainer | modules/UI/videolayout/VideoLayout.js:656-696 | rejected iff there is no manager; resolved unchanged iff visibility already matches; on hide the target is the pinned participant's video type, or the video container with no pin |
| VideoLayout.HideFallsBackToVideo | modules/UI/videolayout/VideoLayout.js:680-688 | with nobody pinned, hiding a container that was just shown returns the manager to the video container |
| VideoLayout.ResetFilmstripResult | modules/UI/videolayout/VideoLayout.js:780-790 | after a filmstrip reset no thumbnail remains, and the buffer and large video are untouched |
| VideoLayout.ResetFilmstrip | modules/UI/videolayout/VideoLayout.js:780-790 | removing every thumbnail one by one gives the closed-form reset; afterwards nobody is pinned iff nobody was, or the pinned participant had a thumbnail |
| VideoLayout.Reset | modules/UI/videolayout/VideoLayout.js:120-123 | no thumbnail and no large video remain, while the stream buffer survives |
| VideoLayout.GetAllVisibleThumbnails | modules/UI/videolayout/VideoLayout.js:48-59 | only visible thumbnails are returned; the local one comes first iff it is visible; every visible remote thumbnail is included, and the length is the number of visible remote thumbnails plus one for a visible local thumbnail |
| Middleware.Updated | react/features/video-layout/middleware.web.js:82 | an update keeps id, local flag and fake flag, and replaces name and connection status only when the action carries them |
| Middleware.Next | react/features/video-layout/middleware.web.js:34 | the reducers as the reactions see them: joins insert, leaves delete and drop a pin on the leaving id, updates overwrite only the fields carried, a dominant-speaker change flags exactly the new speaker, the layout is untouched except the pin |
| Middleware.Step | react/features/video-layout/middleware.web.js:31-139 | the reducers run before the reaction: the store after a step is the reducers' store, still keyed by id, and the stream buffer stays well formed |
| Middleware.OnUpdated | react/features/video-layout/middleware.web.js:82-104 | a remote participant gets a thumbnail iff its new name is "trainer" or "active" and loses it otherwise; the local one only has its own thumbnail shown iff eligible; without a status change the large video moves only through a removal |
| Middleware.StepWillLeave | react/features/video-layout/middleware.web.js:46-48 | leaving the conference leaves no thumbnail, no local thumbnail and no large video |
| Middleware.StepJoin | react/features/video-layout/middleware.web.js:50-63 | a join adds a thumbnail exactly for a non-local participant named "trainer" without one, and leaves existing thumbnails as they were |
| Middleware.StepLeave | react/features/video-layout/middleware.web.js:65-70 | a leave removes exactly the leaving participant's thumbnail |
| Middleware.StepUpdate | react/features/video-layout/middleware.web.js:72-110 | an update adds or removes the remote thumbnail by eligibility of the new name, or sets local visibility by it; no other id gains a thumbnail |
| Middleware.StepPin | react/features/video-layout/middleware.web.js:116-118 | a pin focuses exactly the thumbnail the action names, and none when it names nobody |
| Middleware.StepTrack | react/features/video-layout/middleware.web.js:124-135 | track actions never add or remove thumbnails; local tracks leave the layout as it was |
| Middleware.StepIgnores | react/features/video-layout/middleware.web.js:31-139 | joining the conference, filmstrip visibility and unhandled actions change neither store nor layout |
| Middleware.StepDominant | react/features/video-layout/middleware.web.js:112-114 | a dominant-speaker change flags exactly the new speaker in the store, changes no other participant field and no track, and leaves the layout as it was |
| Middleware.DominantKeepsInv | react/features/video-layout/middleware.web.js:112-114 | a dominant-speaker change keeps the composite invariant |
| Middleware.StepKeepsInv | react/features/video-layout/middleware.web.js:50-110 | every step keeps the composite invariant: each thumbnail belongs to a present, non-local participant named "trainer" or "active" |
| Middleware.Run | react/features/video-layout/middleware.web.js:31-139 | after any enabled run of actions the composite invariant holds, and a run ending in conference-leave leaves no thumbnail |
| Config.Merge | react/features/base/config/functions.any.js:390-395 | keys of both sides are kept; target-only keys are unchanged; a source value replaces the target value (arrays included) unless both are objects, in which case the value is the recursive merge of the two |
| Config.MergeIdempotent | react/features/base/config/functions.any.js:390-395 | merging the same source twice equals merging it once |
| Config.MergeSelf | react/features/base/config/functions.any.js:390-395 | an object merged into itself is unchanged |
| Config.MergeUnits | react/features/base/config/functions.any.js:390-395 | merging an empty source changes nothing, and merging into an empty target gives the source |
| Config.Pick | react/features/base/config/functions.any.js:419-421 | exactly the listed keys the object has, with their values |
| Config.Whitelisted | react/features/base/config/functions.any.js:417-425 | interface-config overrides are the whitelisted module defaults, whatever was supplied; a config override is the whitelisted keys of the supplied object (or of an array's named properties), and empty for anything else; other names pass through |
| Config.ApplyOverride | react/features/base/config/functions.any.js:380-397 | an empty filtered override leaves the target untouched; an object override is deep-merged into it |
| Config.OverrideConfigJSON | react/features/base/config/functions.any.js:367-399 | null targets stay null; a target changes only if its key is present; a present config becomes the deep merge of the whitelisted override into it; interface config receives the defaults; a logging object is merged unfiltered |
| Config.OtherKeysIgnored | react/features/base/config/functions.any.js:370-380 | only the keys config, interfaceConfig and loggingConfig of the override matter |
| Config.InterfaceConfigIgnoresSupplied | react/features/base/config/functions.any.js:417-419 | the supplied interface-config values never reach the target |
| Config.OverrideIdempotent | react/features/base/config/functions.any.js:367-399 | applying the same override twice gives the same objects as applying it once |
| Config.SetPath | react/features/base/config/functions.any.js:505-509 | fails iff a step before the last meets a truthy boolean, number or string; otherwise adds only its first key, leaves other top-level keys unchanged, keeps an array's items on the way; a one-step path is a plain assignment |
| Config.GetSetPath | react/features/base/config/functions.any.js:500-510 | a value set at a dotted path is read back from that path |
| Config.SetPathFresh | react/features/base/config/functions.any.js:505-507 | a path whose first key is missing can always be set, creating the intermediate objects |
| Config.SetPathOverwrites | react/features/base/config/functions.any.js:500-510 | setting a path twice equals setting it only the second time |
| Config.LaterParamWins | react/features/base/config/functions.any.js:500-510 | of two parameters with the same name, the later value is the one nested |
| Config.ParamsKeepKeys | react/features/base/config/functions.any.js:500-510 | nesting parameters never drops a top-level key |
| Config.ParamsSnoc | react/features/base/config/functions.any.js:500-510 | nesting one more parameter after a run of them sets its path on the run's result, and fails when the run failed |
| Config.Roots | react/features/base/config/functions.any.js:496-498 | an empty root object exists for exactly the non-null targets |
| Config.SetConfigFromURLParams | react/features/base/config/functions.any.js:472-513 | fails exactly when nesting a parameter would throw; otherwise every target keeps its presence; the content is stated by ConfigParamReachesTarget |
| Config.ConfigParamReachesTarget | react/features/base/config/functions.any.js:472-513 | after any earlier parameters, a last parameter "config.key" with a whitelisted dot-free key and a non-object value fails iff the earlier ones failed or left a truthy primitive under "config", and otherwise that key of the config holds the value |
| Config.InterfaceDefaultsAlwaysApplied | react/features/base/config/functions.any.js:496-512 | with an interface-config target, the URL path always applies the whitelisted defaults, whatever the parameters |
| Config.CreateFakeConfig | react/features/base/config/functions.any.js:26-40 | the fallback config has domain = host name, muc = "conference." + host name, bosh = base URL + "http-bind", and p2p enabled |

## Left out

- React rendering is not modelled: JSX, styles, class names, the toggle button, shortcuts and the local tile-view thumbnail. The model returns the (id, key, hidden) list the render maps over.
- Filmstrip writes each participant's `order` field in place on the store records. The model computes the keys instead of mutating the records.
- Filmstrip wraps the override in a try/catch. Nothing in the model can throw, so the catch is not represented.
- The crash at Filmstrip.js:190 (a remote participant without a name) is a precondition (`RemotesNamed`).
- The crash in `setRemoteVideoOrder` when a thumbnail's participant is missing from the store is a precondition. So is the router reading a participant that is absent on update (`CanStep`).
- A dotted parameter path running through a truthy boolean, number or string would throw, since the module runs in strict mode. It is modelled as a `None` result. An array on the path receives the next key as a named property, which `JArr` carries next to its items.
- Config.SetPath: an array on the path takes every next key, an index such as "0" or "length" included, as a named property. JavaScript would write or read the element there, or change the length: `config.list=[1,2]` then `config.list.0=5` gives `[5,2]` there but `[1,2]` with a property "0" holding 5 here. The model has no holes or `undefined` elements to write past the end with.
- Config.SetPath: a path segment that reaches `Object.prototype` in JavaScript (`__proto__`, `constructor`, `toString` and the like) is an ordinary key here. There, `config.__proto__.K=v` writes K on the shared prototype, `_.pick` finds the inherited K, and the merge copies it into `config`; `config.__proto__.__proto__.x=1` throws. The model assumes parameter names carry no such segment, which is up to `parseURLParams`, a function outside this model.
- Config.SetConfigFromURLParams: for the same reason, "fails exactly when nesting would throw" and the contents it produces hold only for parameter names without prototype segments.
- Config.SetPathFresh: "can always be set" likewise assumes the path has no prototype segment.
- Config.Whitelisted: picks from an array's named properties only. A whitelisted name that is also an array index ("0", "1", …) would pick the element in JavaScript; the model assumes no whitelist name is an index.
- Thumbnail internals are not modelled, because they are UI side effects: view updates, display names, indicators, avatars, audio levels, connection indicators, `hideStats`, and the `updateMutedForNoTracks` calls.
- `LargeVideoManager` internals are not modelled: how the manager switches containers, resizing, and the promise chains. Updates are applied as if their promises resolved. A rejected update would leave the manager unchanged, and that case is not represented.
- `isVideoContainer` and the container-type constants are defined in files outside this model. The model compares against the video-container type only. Only the constants' distinctness matters.
- Other VideoLayout operations are outside the layout core and not modelled: `onDisplayNameChanged`, `onLastNEndpointsChanged`, `updateAllVideos`, `togglePin`, `changeLocalVideo`, `init`, `initLargeVideo`, flip-X handling, `resizeVideoArea` and `refreshLayout`. The local thumbnail is part of the state as given. `onDominantSpeakerChanged` returns at once. `mucJoined` only refreshes indicators, which the model does not hold. The router's reaction to both leaves the layout as it was.
- The store's reducers are not part of this model. `Middleware.Next` is a stated simplification. Joins insert. Leaves delete and take a pin on the leaving participant with them. Updates overwrite only the name and connection status they carry. A dominant-speaker change sets each participant's `dominantSpeaker` flag, true for exactly the new speaker, which Filmstrip.js:267 reads. Pins name a present participant or nobody. Tracks are appended or dropped. The pin is kept in the layout state.
- The router's `clientResized` dispatch, window sizes and console logging are not modelled.
- Middleware.StepKeepsInv: holds for joins of ids not yet in the store. A second join of a present id that has a thumbnail, under a different name, would overwrite the record and leave the thumbnail. The model assumes participants join once.
- VideoLayout.GetAllVisibleThumbnails: does not state the order of the remote thumbnails, because JavaScript object key order is not modelled.
- `restoreConfig` (local storage, JSON parsing), `parseURLParams` and URL parsing are not modelled. Parameters and the host name are inputs.
- The whitelists and the literal interface-config defaults are parameters, because their values live in other files or are plain data.
- Config.ApplyOverride: a non-empty override that is not an object is modelled as leaving the target unchanged. Lodash would copy a string's or array's index keys into the target. Only a `loggingConfig` value can be such a value.
- JSON numbers are integers. Object key order, aliasing between the three targets, and `undefined` values are not modelled.

## Findings

| source | as written | input that shows it | evidently intended | confidence | as-written member | corrected member |
|---|---|---|---|---|---|---|
| react/features/filmstrip/components/web/Filmstrip.js:262-271 | The first dominant speaker is promoted only when its sorted index is at least `lastN`. Outside tile view the visible cap is `lastN - 1`, so a speaker at index `lastN - 1` stays hidden. When `lastN < 1` nothing is hidden, yet the speaker is still promoted and reordered. | Three active remote attendees a, b, c. a and b are recently active, in that order. b is the dominant speaker. `lastN` is 2, not tile view. The keys are 10, 11, 30, so b sits at index 1. The cap is 1, and b is hidden and not promoted. With `lastN` 0 on the same strip nothing is hidden, but b is promoted ahead of a (Filmstrip.DominantSpeakerReorderedWithoutCap). | Promote the first dominant speaker iff a cap is set and its index is at or beyond the cap ("only if they are outside the box"), so that it becomes visible | medium, not executed | Filmstrip.DominantSpeakerLeftHidden | Filmstrip.LayoutCorrectedShowsDominantSpeaker |
