# Verified models of the video applications

This project models, in Dafny, the parts of the repository that hold its hardest logic, and proves what they promise:
the Bech32 encoder of the edge worker, the exclusive video playback of the web client, the delivery queue of the
crawler, and a number of smaller algorithms. `dafny verify dfyconfig.toml` checks everything.

| files | what they model |
|---|---|
| `LinearCode`, `Bech32` | the checksum as a linear code over GF(32), and `polymod`, `hrpExpand`, `createChecksum` as refinements of it |
| `JsInt32`, `Regrouping`, `Npub`, `KnownKeys` | JavaScript's int32 shifts, `convertBits` with its unmasked accumulator, `hexToNpub`, and the two keys of NIP-19 |
| `PlaybackContext`, `PlaybackSelection`, `PlaybackEntries`, `PlaybackProvider` | the playback coordinator: its registry, its visibility map, its debounced choice, the values in its maps, and the component's own imperative form, which keeps an invariant |
| `PlaybackSystem`, `PlaybackRuns`, `PlaybackRegistry`, `PlaybackVisibility`, `PlaybackElements`, `PlaybackSighting`, `VideoPlayer` | many players under one coordinator as a step system, what its runs do, which videos are registered and which are in the visibility map, what starts and stops each element, the way from the sight of a video to its playing, and the player's renders, effects and handlers in imperative form, which keep the guard |
| `VideoFallback`, `VideoResets`, `VideoPreflights`, `VideoChanges`, `VideoSources` | the effect that sets a player's source, with its dependencies, and the handlers that move the index and spend the HLS flag; what happens between two resets; which source is in place in the end; what exactly each step changes; and the imperative form |
| `Bags`, `Crawler`, `CrawlerDelivery`, `CrawlerOutcome`, `CrawlerPoison`, `CrawlerReach`, `CrawlerProcess` | the crawler as interleaved segments between awaits, its conservation laws, its tables, how each run ends, the order of the queue, what it can and can never deliver, and its imperative form, which keeps those laws |
| `Comments`, `Interactions`, `InteractionsMeaning`, `KeyedDedup`, `NoteTokens`, `EscapeHtml`, `Shuffle`, `ServiceWorker`, `ServiceWorkerAnswers`, `Numbers`, `Options` | comment threads, batched interactions, deduplicated pages, the note tokenizer, HTML escaping, the shuffle, the service worker's caches |

Conventions. A function or a step function states what one operation does; a method with the source's loops and
assignments is proved equal to it; lemmas then say what it means. The classes keep, in `Valid()`, invariants that the
lemmas prove of every step: `VideoPlaybackProvider` that it is coherent, `VideoPlayer` its guard, `VideoSources` that
the effect has seen the dependencies and every source was well chosen, `CrawlerProcess` its conservation laws, gate and
table. A run is a list of steps in any order, so a statement about all runs is a statement about all interleavings.
Strings are sequences of `char`. Media elements behave as the HTML standard says (section 4.8.11), and React as version
18 documents: the effects that a render queues run later, in order, the cleanups of a render before its effects; a
detached ref is null before the cleanups of an unmounted component run; an unmounted component receives no events.

What the code does not do although its comments say so, each with the exact condition:

- "Ensures only one video plays at a time": a frame requested by the mute effect resumes its element without asking
  whether the player is still mounted. `StraysIffFrameOutstanding` says exactly when a removed element can go on playing,
  and `TwoElementsPlay` gives the run. `AtMostOneVideoPlays` holds for all runs in which no player leaves in that state.
- "Maximum number of video references to keep in memory": an id that is shifted out while it is active keeps its
  element. `BoundedIffNothingSpared` gives the condition, and `RefsUnbounded` shows that there is no bound otherwise.
- A mounted player's video is not always registered. `RegisteredIff` says for every run exactly which videos are: those
  that were mounted and since then not taken out by a removed player, a cleanup or an eviction. Because the context's
  functions are new at every render, each render of the provider makes every player clean up, and only mounting
  registers, so such a render empties the registry (`RenderEmptiesRegistry`, and `MountedButUnknown` for a run).
- "trying HLS as last resort": HLS comes first at every index, and the flag that is spent at the end has no effect on
  which sources are set, in any run (`FlagChoosesNothing`, `SourcesOfRun`); a failure makes the effect run exactly when
  it moves the index and no authorization is required (`FailureLoadsIff`).
- "to cancel in-flight fetches when effect re-runs": a preflight check that is in flight is not cancelled, and when it is
  answered last, the source of an older run of the effect replaces the present one. `PresentIff` gives the condition,
  `StaleSource` a run, and `InOrderIsPresent` shows that answers in order do no harm.
- A crawler batch that contains a video whose id is already in `seen_videos` is never recorded in full
  (`DeliverableIff`), a queued video can still be delivered exactly when its id is not in that table
  (`QueuedDeliverableIff`), and one failed insertion makes undeliverable videos out of those inserted before it
  (`PartialFailureSpoils`).
- The batched interactions count an event for one video only; `AgreeIff` and, in terms of the tags, `AgreeOnTags` say
  exactly for which events they agree with the hook for one video.
- "Deduplicates by pubkey:kind:d_tag": of several videos without a d tag the analytics keep the first only, whereas the
  feed, which falls back to the event id, keeps them all (`EmptyNamesDiffer`).
- `hexToNpub` accepts keys of odd length, and those collide with others (`OddLengthCollides`).
- A render of the provider that changes neither the active video nor the mute setting pauses the element that plays
  (`RenderSettles`): every player cleans up, and only those two changes make an element play again.
- A waiting choice of another video survives the debounced selection (`SelectionTakesEffect`, `WaitingChoiceWins`).

## Model

| member | source | states |
|---|---|---|
| LinearCode.SameRegisterIffSyndromeZero | frontend-web/compute-js/src/index.js:709-722 | two words of one length leave the same remainder exactly when their difference leaves none |
| LinearCode.ZerosInjective | frontend-web/compute-js/src/index.js:709-722 | feeding zeros never merges two registers, so trailing symbols cannot hide an error |
| LinearCode.BurstChangesRegister | frontend-web/compute-js/src/index.js:709-722 | words that differ only within as many symbols as the register holds are told apart exactly when they differ |
| LinearCode.TailIsUnique | frontend-web/compute-js/src/index.js:724-732 | one and only one tail takes the register to a given value |
| LinearCode.LongerBurstEscapes | frontend-web/compute-js/src/index.js:709-722 | one symbol more than the register holds, and some change goes unnoticed wherever it is placed |
| Bech32.BchIsLinear | frontend-web/compute-js/src/index.js:711-718 | the generator's feedback is additive over GF(2) and its last coefficient is injective |
| Bech32.GenIsPackedGenerator | frontend-web/compute-js/src/index.js:711 | the five hexadecimal constants are the generator polynomial of BIP-173 times 1, x, x^2, x^3, x^4 |
| Bech32.WordStep | frontend-web/compute-js/src/index.js:713-719 | one round of shifts, masks and XORs on the 30-bit word is one step of the GF(32) register |
| Bech32.Polymod | frontend-web/compute-js/src/index.js:709-722 | the loop computes the packed remainder, always below 2^30 |
| Bech32.CreateChecksum | frontend-web/compute-js/src/index.js:724-732 | the six symbols returned are the checksum of the data |
| Bech32.ChecksumIsUnique | frontend-web/compute-js/src/index.js:724-732 | data followed by six symbols has remainder 1 exactly when they are the checksum |
| Bech32.BurstDetected | frontend-web/compute-js/src/index.js:709-732 | of two words that differ within six consecutive symbols, the valid one is told from the other exactly when they differ |
| Bech32.SwapDetected | frontend-web/compute-js/src/index.js:709-732 | an adjacent swap keeps a word valid exactly when it swaps equal symbols |
| Bech32.SevenSymbolsEscape | frontend-web/compute-js/src/index.js:709-732 | seven consecutive symbols can be changed into another valid word, at any place |
| Bech32.InsertionDetected | frontend-web/compute-js/src/index.js:709-732 | a symbol inserted before the last one keeps a valid word valid exactly when it is 0 and the last one is 1, the known weakness of BIP-173 |
| Bech32.HrpExpand | frontend-web/compute-js/src/index.js:697-707 | the loops give, for every prefix, a zero in the middle, the character codes divided by 32 before it, and the codes modulo 32 after it |
| Bech32.ExpandedParts | frontend-web/compute-js/src/index.js:697-707 | the same by arithmetic, position by position, for prefixes of every length |
| Bech32.ExpandedInjective | frontend-web/compute-js/src/index.js:697-707 | different prefixes expand differently |
| JsInt32.AppendDigit | frontend-web/compute-js/src/index.js:682 | shifting the wrapped accumulator and or-ing a digit is appending the digit to the unbounded stream, wrapped |
| JsInt32.ReadDigit | frontend-web/compute-js/src/index.js:684-686 | shifting and masking the wrapped accumulator reads the digit of the unbounded stream |
| JsInt32.OrOfDisjoint | frontend-web/compute-js/src/index.js:682 | bitwise or of a multiple and a smaller number is their sum |
| JsInt32.DivDiv | frontend-web/compute-js/src/index.js:685-686 | dividing twice is dividing by the product, for the floor that an arithmetic shift takes |
| Regrouping.ConvertBits | frontend-web/compute-js/src/index.js:676-695 | for data of every length, although the accumulator is never masked and wraps, the result is the regrouping of the same bit stream, of the right length, padded or cut as asked |
| Regrouping.RoundTrip | frontend-web/compute-js/src/index.js:676-695 | converting to narrower groups (or groups of the same width) with padding and back without gives the data |
| Regrouping.RegroupsInjective | frontend-web/compute-js/src/index.js:676-695 | different data of one length have different groups |
| Regrouping.ValueInjective | frontend-web/compute-js/src/index.js:676-695 | digits of one width and number are determined by their value |
| Npub.HexToNpub | frontend-web/compute-js/src/index.js:648-674 | the result encodes the 5-bit groups of the key's bytes under the prefix npub, for every string whose pairs parse to bytes; for other strings the number and the alphabet of the groups |
| Npub.DecodeIffEncode | frontend-web/compute-js/src/index.js:648-674 | a reader built from BIP-173 accepts a string and reads certain symbols exactly when the encoder writes it for them |
| Npub.EncodeInjective | frontend-web/compute-js/src/index.js:666-673 | different symbols are written differently |
| Npub.TypingErrorDetected | frontend-web/compute-js/src/index.js:648-732 | an npub changed within six consecutive characters is rejected exactly when it was changed |
| Npub.BytesInjective | frontend-web/compute-js/src/index.js:650-656 | lower-case keys of even length are determined by their bytes |
| Npub.NpubInjective | frontend-web/compute-js/src/index.js:648-674 | keys of even length have the same npub exactly when they are the same |
| Npub.OddLengthCollides | frontend-web/compute-js/src/index.js:650-656 | every lower-case key of odd length has the same npub as a longer key |
| Npub.KeyRoundTrip | frontend-web/compute-js/src/index.js:648-695 | decoding an npub and regrouping its symbols gives the bytes of the key |
| Npub.NpubLength | frontend-web/compute-js/src/index.js:648-674 | 64 hexadecimal digits give 63 characters |
| Npub.HexDigits | frontend-web/compute-js/src/index.js:650-656 | the value of every hexadecimal digit, capital letters included, and of some characters that are none |
| Npub.WhatIsRead | frontend-web/compute-js/src/index.js:652-656 | two digits are read as a number of base 16; the first other character ends it, nothing read is byte 0, and a blank or a sign may come first |
| KnownKeys.PrefixIsNpub | frontend-web/compute-js/src/index.js:664-672 | the prefix that is fed to the checksum consists of the codes of the letters of npub, and expands to 3, 3, 3, 3, 0, 14, 16, 21, 2 |
| KnownKeys.FirstKey | frontend-web/compute-js/src/index.js:664-732 | the symbols of the first public key of NIP-19 are encoded as the npub given there, checksum included |
| KnownKeys.SecondKey | frontend-web/compute-js/src/index.js:664-732 | so are those of the second one; together the two strings use all 32 characters |
| PlaybackContext.OrderIsMostRecent | frontend-web/src/contexts/VideoPlaybackContext.tsx:44-77 | in every run the order is a duplicate-free list of at most 30 registered ids, by last registration, and none outside is more recent |
| PlaybackContext.MostRecentIsUnique | frontend-web/src/contexts/VideoPlaybackContext.tsx:44-65 | the history and the length determine that list |
| PlaybackContext.OrderIsFullOrComplete | frontend-web/src/contexts/VideoPlaybackContext.tsx:44-65 | with no unregistration, the list is full or holds every registered id |
| PlaybackContext.ElementsOfOrder | frontend-web/src/contexts/VideoPlaybackContext.tsx:44-77 | each listed id has its element, and an element outside the list belongs to an id that was active, or empty, when it was shifted out |
| PlaybackContext.BoundedIffNothingSpared | frontend-web/src/contexts/VideoPlaybackContext.tsx:56-64 | the map stays within 30 elements throughout a run exactly when nothing active is ever shifted out |
| PlaybackContext.RefsUnbounded | frontend-web/src/contexts/VideoPlaybackContext.tsx:56-64 | for every n some run leaves n elements in the map |
| PlaybackSelection.VisibleWellKept | frontend-web/src/contexts/VideoPlaybackContext.tsx:79-92 | in every run each id has one entry with a positive ratio, and at most one timer is pending |
| PlaybackSelection.SetEntryKeys | frontend-web/src/contexts/VideoPlaybackContext.tsx:82 | setting a known id keeps its place, a new id goes last |
| PlaybackSelection.DeleteEntryKeys | frontend-web/src/contexts/VideoPlaybackContext.tsx:84 | deleting an id keeps the order of the others |
| PlaybackSelection.MostVisibleIsFirstMaximum | frontend-web/src/contexts/VideoPlaybackContext.tsx:93-102 | the choice is the first entry with the largest ratio, and there is none exactly when no ratio is positive |
| PlaybackSelection.MostVisibleNone | frontend-web/src/contexts/VideoPlaybackContext.tsx:93-102 | in every run nothing is chosen exactly when the map is empty |
| PlaybackSelection.ApplyCoherent | frontend-web/src/contexts/VideoPlaybackContext.tsx:44-110 | every operation keeps the list duplicate-free and within 30, the map free of repeated keys and of ratios that are not positive, and one timer pending at most |
| PlaybackSelection.SelectionTakesEffect | frontend-web/src/contexts/VideoPlaybackContext.tsx:92-110 | when the timer fires and the provider renders, the active video is the first entry with the largest ratio, or none for an empty map, except when the choice agreed already and another was waiting |
| PlaybackSelection.AbsentIsNotChosen | frontend-web/src/contexts/VideoPlaybackContext.tsx:92-110 | a video without entry becomes active then only by that exception |
| PlaybackSelection.WaitingChoiceWins | frontend-web/src/contexts/VideoPlaybackContext.tsx:104-109 | a run in which the exception happens |
| PlaybackProvider.VideoPlaybackProvider.RegisterVideo | frontend-web/src/contexts/VideoPlaybackContext.tsx:44-65 | moves the id to the end, keeps its element, and prunes while there are more than 30 |
| PlaybackProvider.VideoPlaybackProvider.UnregisterVideo | frontend-web/src/contexts/VideoPlaybackContext.tsx:67-77 | takes the id out of the map, the visibility and the order |
| PlaybackProvider.VideoPlaybackProvider.UpdateVideoVisibility | frontend-web/src/contexts/VideoPlaybackContext.tsx:79-92 | sets or deletes the ratio and replaces the pending timer |
| PlaybackProvider.VideoPlaybackProvider.SelectMostVisible | frontend-web/src/contexts/VideoPlaybackContext.tsx:92-110 | scans the map and requests the choice when it differs from the active id |
| PlaybackProvider.VideoPlaybackProvider.SetActiveVideo | frontend-web/src/contexts/VideoPlaybackContext.tsx:35-42 | requests the id for the next render |
| PlaybackProvider.VideoPlaybackProvider.RenderProvider | frontend-web/src/contexts/VideoPlaybackContext.tsx:32-33 | commits the requested id and the ref that mirrors it |
| PlaybackEntries.VisibleIsLastReport | frontend-web/src/contexts/VideoPlaybackContext.tsx:79-85 | in every run a video is in the visibility map exactly with the ratio reported last, if that is positive and the video has not been unregistered or evicted since |
| PlaybackEntries.ElementIsLastRegistered | frontend-web/src/contexts/VideoPlaybackContext.tsx:54 | in every run the element kept for a video is the one of its last registration |
| PlaybackEntries.OldestIsShiftedOut | frontend-web/src/contexts/VideoPlaybackContext.tsx:56-64 | when 30 videos are listed and another one registers, the oldest leaves the list, and keeps its element and its entry exactly when it is active or has the empty id |
| PlaybackEntries.ElementIsLastMounted | frontend-web/src/components/VideoPlayer.tsx:198-207 | in every interleaving the element kept for a video is that of the player of this video that mounted last |
| PlaybackEntries.OnlyPendingTimersChoose | frontend-web/src/contexts/VideoPlaybackContext.tsx:35-42 | the next active video is changed only by a choice and by the pending timer, which is spent by it; what is active changes only by a render of the provider |
| PlaybackSystem.AlwaysExclusive | frontend-web/src/components/VideoPlayer.tsx:230-297 | in every interleaving, a mounted element that plays without being active has a play event or a pausing effect ahead |
| PlaybackSystem.QuietMeansActive | frontend-web/src/components/VideoPlayer.tsx:230-255 | when nothing is pending, every mounted element that plays shows the active video |
| PlaybackSystem.RerenderedGuarded | frontend-web/src/components/VideoPlayer.tsx:877-902 | a render of the provider restores the guard of every player, whatever the new active id |
| PlaybackRuns.AtMostOneVideoPlays | frontend-web/src/components/VideoPlayer.tsx:248-253 | if no player leaves with a frame outstanding, all elements that play when the system is settled, removed ones included, are mounted and show one video |
| PlaybackRuns.StraysIffFrameOutstanding | frontend-web/src/components/VideoPlayer.tsx:271-287 | an unmounted player can end up playing with nothing left to pause it exactly when a frame is outstanding at its unmounting |
| PlaybackRuns.StrayPlaysOn | frontend-web/src/components/VideoPlayer.tsx:877-902 | such an element plays on whatever else happens; only a pause by the browser, or a source set by a preflight check that was pending at the unmounting, can stop it |
| PlaybackRuns.TwoElementsPlay | frontend-web/src/components/VideoPlayer.tsx:271-287 | a run that ends, settled, with a removed element and the active one playing |
| PlaybackRuns.TwoPlayersOfOneVideo | frontend-web/src/components/VideoPlayer.tsx:125-126 | two players of one id both play, so at most one plays only with one player per video |
| PlaybackRuns.ContextRuns | frontend-web/src/components/VideoPlayer.tsx:179-227 | the coordinator inside any run of the system makes a run of its own, so all that is shown of it holds there |
| PlaybackVisibility.AlwaysAccompanied | frontend-web/src/components/VideoPlayer.tsx:217-227 | in every run the last thing an unmounted player does is its cleanup, and every entry of the visibility map is that of a player which is mounted or has effects left |
| PlaybackVisibility.UnmountedIsNotChosen | frontend-web/src/components/VideoPlayer.tsx:877-902 | in every run, when all players of a video are unmounted and their effects have run, the timer and the next render make it active only by the exception of a waiting choice |
| PlaybackRegistry.RegisteredIff | frontend-web/src/components/VideoPlayer.tsx:199-207 | in every run a video is listed exactly when a player was mounted for it and since then no removed player, no cleanup and no eviction took it out; its element is kept under the same condition, an eviction while active not counting |
| PlaybackRegistry.StepOrder | frontend-web/src/contexts/VideoPlaybackContext.tsx:44-77 | what one step of the system does to the membership of one id in the list and in the element map |
| PlaybackRegistry.RenderEmptiesRegistry | frontend-web/src/components/VideoPlayer.tsx:879-902 | once the effects of a render of the provider have run, and no player was mounted meanwhile, list and element map are empty |
| PlaybackRegistry.MountedButUnknown | frontend-web/src/components/VideoPlayer.tsx:889-902 | a run that ends with a mounted player whose video is not registered |
| PlaybackRuns.VisibilityRestored | frontend-web/src/components/VideoPlayer.tsx:218-227 | cleanup and report together move a visible video to the end of the map and leave one timer |
| PlaybackSighting.SightedIsReported | frontend-web/src/components/VideoPlayer.tsx:217-227 | in every run: once a sighted player's effect has run, its video is in the visibility map with exactly that ratio, or absent for a ratio that is not positive, and only a new timer is pending; a failed video in view reports nothing |
| PlaybackSighting.FailureIsReported | frontend-web/src/components/VideoPlayer.tsx:217-227 | when a video begins to fail or recovers, the ratio last seen is reported again, nothing while it fails in view, and 0 when it was never seen or fails out of view |
| PlaybackSighting.MountedIsUnseen | frontend-web/src/components/VideoPlayer.tsx:217-227 | a player that has just mounted reports 0, so its video is not in the map |
| PlaybackSighting.LargestIsChosen | frontend-web/src/contexts/VideoPlaybackContext.tsx:92-110 | in every run, when the timer fires and the provider renders with no other choice waiting, the first video with the largest ratio becomes active, and every player is rendered with it |
| PlaybackSighting.SightedIsChosen | frontend-web/src/components/VideoPlayer.tsx:217-227 | a player sighted at a larger ratio than every other video is the active one after its effect, the timer and the render |
| PlaybackSighting.SightedPlays | frontend-web/src/components/VideoPlayer.tsx:217-255 | and once the queued effects have run, its element plays and that of another video is paused |
| PlaybackElements.RenderSettles | frontend-web/src/components/VideoPlayer.tsx:230-297 | after a render of the provider and all its effects an element plays exactly when its video is active and ready, and has just become active or the mute setting has changed |
| PlaybackElements.ReloadSettles | frontend-web/src/components/VideoPlayer.tsx:230-255 | after a change of its loading or error state an active player plays if it is ready and is let be if not, and any other is paused |
| PlaybackElements.StepPlays | frontend-web/src/components/VideoPlayer.tsx:230-321 | exactly which actions of its own player start and stop an element, and how they change its play events and frames; no other step touches it |
| PlaybackElements.PlaysUntilStopped | frontend-web/src/components/VideoPlayer.tsx:230-321 | in every interleaving an element that plays does so until one of these actions of its own player |
| PlaybackElements.EndedAndClicked | frontend-web/src/components/VideoPlayer.tsx:563-577 | a video that ends, or is clicked while shown as paused, plays again, and plays on after its play event exactly when it is active; a second click pauses it |
| PlaybackElements.PressedIsCleanedUp | frontend-web/src/components/VideoPlayer.tsx:879-902 | a long press runs the cleanup: the element is paused and its video, and no other, leaves both maps |
| VideoPlayer.VideoPlayer.RenderWithProvider | frontend-web/src/components/VideoPlayer.tsx:125-126 | a render that the provider caused queues the cleanup, the report and, when the activity or the mute setting changed, the effects that depend on them; the guard is restored |
| VideoPlayer.VideoPlayer.Unmount | frontend-web/src/components/VideoPlayer.tsx:184-207 | the ref is detached, the element removed, the cleanup left to run; the guard is kept |
| VideoPlayer.VideoPlayer.ControlPlayback | frontend-web/src/components/VideoPlayer.tsx:230-255 | plays when active and ready, pauses and rewinds whenever inactive, and sets isPlaying to the activity |
| VideoPlayer.VideoPlayer.SyncMuted | frontend-web/src/components/VideoPlayer.tsx:258-297 | follows the global setting, flags the change, and requests a frame exactly when the video should be playing |
| VideoPlayer.VideoPlayer.FirstFrame | frontend-web/src/components/VideoPlayer.tsx:274-276 | the outer frame only requests the inner one |
| VideoPlayer.VideoPlayer.ResumeAfterMute | frontend-web/src/components/VideoPlayer.tsx:276-288 | the inner frame plays the captured element if it is paused and clears the flag; the guard is kept |
| VideoPlayer.VideoPlayer.MuteSettled | frontend-web/src/components/VideoPlayer.tsx:290-295 | the timeout of a mute effect that resumes nothing clears the flag and changes nothing else |
| VideoPlayer.VideoPlayer.PlayRefused | frontend-web/src/components/VideoPlayer.tsx:312-318 | a refused play() is recorded and leaves the element as it is |
| VideoPlayer.VideoPlayer.CleanUp | frontend-web/src/components/VideoPlayer.tsx:879-887 | pauses and rewinds the element while the ref holds it |
| VideoPlayer.VideoPlayer.FlushEffect | frontend-web/src/components/VideoPlayer.tsx:218-297 | takes the oldest effect and runs it with the values it captured; the guard is kept |
| VideoPlayer.VideoPlayer.HandlePlay | frontend-web/src/components/VideoPlayer.tsx:609-619 | an inactive element that started is paused, an active one is recorded as playing; the guard is kept |
| VideoPlayer.VideoPlayer.HandlePause | frontend-web/src/components/VideoPlayer.tsx:620-628 | records the pause unless the muted state is being changed |
| VideoPlayer.VideoPlayer.HandleEnded | frontend-web/src/components/VideoPlayer.tsx:563-577 | rewinds, plays again and reports the end; the guard is kept |
| VideoPlayer.VideoPlayer.TogglePlay | frontend-web/src/components/VideoPlayer.tsx:300-321 | pauses or plays as the component believes it is playing, and flips that belief; the guard is kept |
| VideoFallback.FlagChoosesNothing | frontend-web/src/components/VideoPlayer.tsx:549-554 | in every run, resets included, two players that differ only in the HLS flag and in what is shown run the effect at the same steps and set the same sources |
| VideoFallback.FailureLoadsIff | frontend-web/src/components/VideoPlayer.tsx:540-561 | in every run a failure makes the effect run exactly when it moves the index and no authorization is required; spending the flag changes no dependency and leaves the player in its loading state |
| VideoFallback.EveryLoadAccounted | frontend-web/src/components/VideoPlayer.tsx:671-874 | every source that is set is the one called for by the values of a state of the run: HLS if given and playable, else the URL at the index of that state, or that URL after HLS.js broke |
| VideoFallback.SourcesOfRun | frontend-web/src/components/VideoPlayer.tsx:722-846 | with HLS and HLS.js every source is the HLS URL unless HLS.js broke, with native HLS always; without either, every source is direct |
| VideoResets.AfterFailures | frontend-web/src/components/VideoPlayer.tsx:540-561 | in every run without a reset, whatever is answered, loaded or broken in between: index, HLS flag and reports after n failures in closed form, and what is shown after each failure |
| VideoResets.ReportedLast | frontend-web/src/components/VideoPlayer.tsx:549-560 | onError is called only after every index from the first one on was current and the HLS flag was spent |
| VideoResets.CapturesClimb | frontend-web/src/components/VideoPlayer.tsx:697-722 | in every run without a reset the effect captures URLs at indices that never decrease, and leaves none of those reached out unless authorization is required |
| VideoResets.CapturesInOrder | frontend-web/src/components/VideoPlayer.tsx:671-874 | without verification or a new header function either, the captures are exactly the next URLs, one per failure that moves the index, until a denial ends them |
| VideoResets.CapturesConserved | frontend-web/src/components/VideoPlayer.tsx:714-718 | in every run, resets included, each capture is pending or was answered, once |
| VideoResets.CapturesPending | frontend-web/src/components/VideoPlayer.tsx:714-718 | without answers the captures are pending in their order |
| VideoPreflights.PresentIff | frontend-web/src/components/VideoPlayer.tsx:714-718 | in every run, when nothing is pending, the last source that was set is that of the present dependencies exactly when no source of a later run of the effect was set before it |
| VideoPreflights.InOrderIsPresent | frontend-web/src/components/VideoPlayer.tsx:671-874 | if the preflight checks are answered in the order they were asked, the source in place is the one the present dependencies call for |
| VideoPreflights.StaleSource | frontend-web/src/components/VideoPlayer.tsx:714-718 | a run that ends at the second URL with the first one, which had failed, as its source |
| VideoChanges.EffectRunsIff | frontend-web/src/components/VideoPlayer.tsx:671-874 | in every run the effect runs exactly once for new URLs, another HLS URL, a change of the verification, a new header function, the confirmation of the age and a failure that moves the index, unless authorization is required, and for nothing else |
| VideoChanges.StartsEmpty | frontend-web/src/components/VideoPlayer.tsx:104-123 | a player starts without URLs, with the flag unspent, and the effect runs once before any URL is known |
| VideoChanges.UrlsStartOver | frontend-web/src/components/VideoPlayer.tsx:649-669 | new URLs start over at src, or at the first fallback URL when there is no src, followed by the others in order; without any URL the old list stays and the error is shown |
| VideoChanges.AgeStartsOver | frontend-web/src/components/VideoPlayer.tsx:596-606 | the confirmation of the age captures the first URL again and ends the need for authorization |
| VideoChanges.OthersKeepPlace | frontend-web/src/components/VideoPlayer.tsx:672-686 | every other step keeps the list, the index, the flag and the number of reports |
| VideoChanges.DeniedIff | frontend-web/src/components/VideoPlayer.tsx:696-712 | authorization is required exactly from a denial on, of an unverified capture that had a URL or by the network, until the age is confirmed |
| VideoChanges.ChosenIff | frontend-web/src/components/VideoPlayer.tsx:720-846 | what a capture calls for: HLS.js, native HLS, a fetch with authorization or the URL itself, each exactly when |
| VideoChanges.LoadsIff | frontend-web/src/components/VideoPlayer.tsx:714-861 | in every run a source is set exactly by the answer to a pending run, as its capture calls for, unless a fetch was superseded, or by a fatal error of an HLS.js source whose capture had a URL |
| VideoChanges.ShownAfter | frontend-web/src/components/VideoPlayer.tsx:482-861 | what each step does to the spinner and to the error |
| VideoSources.VideoSources.Render | frontend-web/src/components/VideoPlayer.tsx:672-686 | the effect runs exactly when a dependency differs from those of its last run |
| VideoSources.VideoSources.HandleError | frontend-web/src/components/VideoPlayer.tsx:540-561 | takes the next URL, or spends the HLS flag, or reports; afterwards the effect has seen the dependencies and all sources are well chosen |
| VideoSources.VideoSources.InitializeUrls | frontend-web/src/components/VideoPlayer.tsx:649-669 | starts over with the given URLs, or sets the error when there are none; the HLS flag stays |
| VideoSources.VideoSources.HandleAgeVerified | frontend-web/src/components/VideoPlayer.tsx:596-606 | starts over at the first URL without the authorization requirement; the HLS flag stays |
| VideoSources.VideoSources.LoadVideoSource | frontend-web/src/components/VideoPlayer.tsx:720-861 | sets HLS through HLS.js, HLS natively, or the URL, in this order, and shows that it is loading; without a URL it does nothing |
| VideoSources.VideoSources.AfterAuthCheck | frontend-web/src/components/VideoPlayer.tsx:696-718 | requires authorization after a denial, else loads the source |
| Crawler.Conservation | frontend-mobile/crawler/crawler.js:57-111 | in every interleaving all pushed videos are queued, in flight or delivered, and the counters count runs and failures |
| Crawler.EveryEventAccountedFor | frontend-mobile/crawler/crawler.js:43-48 | eventsFound = duplicates + newVideos + without URL + rejected + running |
| CrawlerDelivery.GateHolds | frontend-mobile/crawler/crawler.js:60-76 | no two runs for one event are past the gate, in every interleaving of SELECT and INSERT |
| CrawlerDelivery.AdmittedOnce | frontend-mobile/crawler/crawler.js:60-76 | over a whole run an event id passes at most once, and not if an earlier session had seen it |
| CrawlerDelivery.InOnePlace | frontend-mobile/crawler/crawler.js:97-110 | a pushed video is exactly once in exactly one of queue, flight and delivered batches; others are nowhere |
| CrawlerDelivery.TableIsExact | frontend-mobile/crawler/crawler.js:194-205 | seen_videos holds the initial ids and the first rows of batches the API accepted, each inserted once |
| CrawlerDelivery.DeliveredOnce | frontend-mobile/crawler/crawler.js:194-205 | no video id is delivered twice |
| CrawlerDelivery.StepLawful | frontend-mobile/crawler/crawler.js:57-219 | every step keeps the conservation law, the counters, the gate and the exact table; the process keeps them in every segment |
| CrawlerOutcome.VideoLookupDecides | frontend-mobile/crawler/crawler.js:85-95 | a run whose lookup in seen_videos succeeds ends, in every continuation, as a duplicate if the id is in the table at that moment, and as new if it is not |
| CrawlerOutcome.ToldEnds | frontend-mobile/crawler/crawler.js:92-105 | and it does end so in its next segment |
| CrawlerOutcome.EventLookupDecides | frontend-mobile/crawler/crawler.js:60-83 | a run whose lookup in seen_events succeeds ends as a duplicate if the id is there, and otherwise as its extraction says |
| CrawlerOutcome.ExtractionDecides | frontend-mobile/crawler/crawler.js:78-90 | once the event is inserted, a run is rejected when the extraction throws, ends without a URL, or goes on to look its video up |
| CrawlerOutcome.FailureRejects | frontend-mobile/crawler/crawler.js:61-90 | a failing lookup or insertion, a conflict included, ends the run as rejected in every continuation |
| CrawlerOutcome.NothingOldPushed | frontend-mobile/crawler/crawler.js:85-102 | in every run no video is pushed whose id an earlier session had recorded |
| CrawlerOutcome.FirstInFirstOut | frontend-mobile/crawler/crawler.js:97-110 | in every run without a failed batch the batches and then the queue are the videos in the order they were pushed, the queue holds fewer than ten, and a batch one to ten |
| CrawlerOutcome.FullQueueSubmitted | frontend-mobile/crawler/crawler.js:107-110 | a push submits the first ten videos in the same segment exactly when it makes the queue hold ten or more |
| CrawlerOutcome.FailedBatchIsNext | frontend-mobile/crawler/crawler.js:206-219 | a batch that failed is in front of the queue again, unrecorded, and comes first in the next submission |
| CrawlerPoison.DeliverableIff | frontend-mobile/crawler/crawler.js:178-219 | a submitted batch can come to be recorded in full exactly when its ids are distinct and new |
| CrawlerPoison.QueuedDuplicateNeverDelivered | frontend-mobile/crawler/crawler.js:213-218 | a queued video whose id is in seen_videos is delivered in no continuation |
| CrawlerReach.QueuedDeliverableIff | frontend-mobile/crawler/crawler.js:178-219 | in every run a queued video can still be delivered exactly when its id is not in seen_videos |
| CrawlerPoison.PartialFailureSpoils | frontend-mobile/crawler/crawler.js:196-218 | a failed insertion after the first row requeues videos that can never be delivered |
| CrawlerPoison.SameVideoTwice | frontend-mobile/crawler/crawler.js:85-110 | two events with one video are both queued, even one after the other, and their batch cannot be recorded |
| CrawlerProcess.CrawlerProcess.ProcessVideoEvent | frontend-mobile/crawler/crawler.js:57-64 | counts the event and looks it up |
| CrawlerProcess.CrawlerProcess.AfterEventLookup | frontend-mobile/crawler/crawler.js:66-76 | counts a duplicate or goes on to insert the event |
| CrawlerProcess.CrawlerProcess.AfterEventInsert | frontend-mobile/crawler/crawler.js:78-90 | gives up on a conflict, an exception or a missing URL, else looks the video up |
| CrawlerProcess.CrawlerProcess.AfterVideoLookup | frontend-mobile/crawler/crawler.js:92-110 | counts a duplicate or pushes the video, and submits a full queue |
| CrawlerProcess.CrawlerProcess.Execute | frontend-mobile/crawler/crawler.js:61-76 | what the database does with a SELECT or an INSERT on the primary key |
| CrawlerProcess.CrawlerProcess.SubmitVideoBatch | frontend-mobile/crawler/crawler.js:178-182 | takes up to ten videos from the front of the queue |
| CrawlerProcess.CrawlerProcess.AfterResponse | frontend-mobile/crawler/crawler.js:184-218 | goes on to record the batch, or to read the refusal, or puts the batch back |
| CrawlerProcess.CrawlerProcess.AfterRefusal | frontend-mobile/crawler/crawler.js:206-213 | counts the error and puts the batch back |
| CrawlerProcess.CrawlerProcess.InsertRow | frontend-mobile/crawler/crawler.js:197-204 | inserts one row unless its id is present |
| CrawlerProcess.CrawlerProcess.AfterRow | frontend-mobile/crawler/crawler.js:196-218 | the next row, the end, or the whole batch back in front |
| Comments.SortIsStable | frontend-web/src/hooks/useComments.ts:104-105 | the sort is chronological and keeps the order of equal times |
| Comments.EndsIffNoCycle | frontend-web/src/hooks/useComments.ts:111-122 | the recursion ends exactly when no comment leading up to the given one is its own ancestor |
| Comments.ExactlyTheDescendants | frontend-web/src/hooks/useComments.ts:108-122 | the result holds the proper descendants and nothing else, oldest first, each as often as a copy can be chosen of every comment on the chain up to the given one |
| Comments.EachDescendantOnce | frontend-web/src/hooks/useComments.ts:45-51 | for a list without repeated ids, as the merged ones of addressable roots, each proper descendant occurs exactly once |
| Comments.GetDescendants | frontend-web/src/hooks/useComments.ts:111-122 | the recursive method with its loop computes that list |
| Comments.DirectMember | frontend-web/src/hooks/useComments.ts:93-106 | the direct replies are the comments whose parent is the id, each as often as it occurs |
| Comments.DirectInOrder | frontend-web/src/hooks/useComments.ts:93-106 | the direct replies are oldest first, and those of one moment come in the order of the list |
| Comments.DescendantsInOrder | frontend-web/src/hooks/useComments.ts:111-122 | of the descendants of one moment the direct replies come first, in the order of the list, and then the descendants of each direct reply in turn |
| Interactions.DeletedIds | frontend-web/src/hooks/useBatchedVideoInteractions.ts:96-103 | the loops collect the ids named by e tags of the deletions |
| Interactions.FindVideo | frontend-web/src/hooks/useBatchedVideoInteractions.ts:110-127 | the first tag that resolves decides |
| Interactions.BatchedInteractions | frontend-web/src/hooks/useBatchedVideoInteractions.ts:40-153 | the loops give every video the summary of the undeleted events about it, or nothing after a failed query |
| Interactions.SummaryMeans | frontend-web/src/hooks/useBatchedVideoInteractions.ts:131-141 | flags are set exactly when there is a like or repost, exactly when the id is not null, and the id is that of the last one |
| Interactions.AgreeIff | frontend-web/src/hooks/useVideoSocialMetrics.ts:83-141 | the batched hook and the hook for one video agree on all collections of given events exactly when each event counts for the video in both or in neither |
| Interactions.AgreeOnTags | frontend-web/src/hooks/useBatchedVideoInteractions.ts:110-127 | the same condition on the tags: in likes that name the video no earlier tag picks another one, and a repost names the video's address exactly when it is picked first and the repost is queried |
| Interactions.LikesNotInvented | frontend-web/src/hooks/useVideoSocialMetrics.ts:83-141 | the batched hook reports no like that the other does not |
| Interactions.TwoTagsDiffer | frontend-web/src/hooks/useBatchedVideoInteractions.ts:110-127 | a like that names two videos counts for both in one hook, for the first in the other |
| Interactions.DeletionsSuffice | frontend-web/src/hooks/useBatchedVideoInteractions.ts:83-93 | asking for the deletions of the fetched events only loses none of them |
| InteractionsMeaning.PickedIff | frontend-web/src/hooks/useBatchedVideoInteractions.ts:113-128 | a tag picks a listed video by its id, or the first listed one with a vine id whose address 34236:pubkey:vineId it names |
| InteractionsMeaning.DeletedIff | frontend-web/src/hooks/useBatchedVideoInteractions.ts:96-103 | an event counts as deleted exactly when some deletion names its id, which is not empty, in an e tag |
| InteractionsMeaning.SimpleReportsIff | frontend-web/src/hooks/useVideoSocialMetrics.ts:83-141 | the hook for one video reports a like exactly when some undeleted reaction with one of the three contents names the video by id or address, and a repost exactly when some undeleted event of kind 16 names its address |
| InteractionsMeaning.BatchedReportsIff | frontend-web/src/hooks/useBatchedVideoInteractions.ts:55-145 | the batched hook reports a like of a video exactly when the first picking tag of some undeleted like picks it, and a repost exactly when that holds of an event of kind 16 that names the address of a listed video |
| InteractionsMeaning.EmptyIdIsSkipped | frontend-web/src/hooks/useBatchedVideoInteractions.ts:130 | a video with an empty id is reported as untouched, whatever names it |
| InteractionsMeaning.RepostCountsInBoth | frontend-web/src/hooks/useBatchedVideoInteractions.ts:118-142 | a repost of the only video at an address, by its address, counts in both hooks |
| KeyedDedup.FilterSeen | frontend-web/src/components/VideoFeed.tsx:87-96 | the filter with the seen set computes the deduplicated list |
| KeyedDedup.EachKeyOnce | frontend-web/src/components/VideoFeed.tsx:87-96 | the result has every key of the input once and no other |
| KeyedDedup.DedupIsStable | frontend-web/src/components/VideoFeed.tsx:87-96 | a page appended extends the feed by its own new keys and changes nothing before |
| KeyedDedup.SameAddressIff | frontend-web/src/components/VideoFeed.tsx:91 | keys are equal exactly when public key, kind and name are |
| KeyedDedup.SameFeedVideoIff | frontend-web/src/components/VideoFeed.tsx:90-93 | the feed takes two items for one video exactly when public key, kind and vine id are the same, an event id standing in for a missing vine id |
| KeyedDedup.SameRawVideoIff | frontend-web/src/hooks/useCreatorAnalytics.ts:46-49 | the analytics do so exactly when public key, kind and d tag are, whatever the event ids |
| KeyedDedup.AddressWritten | frontend-web/src/components/VideoFeed.tsx:91 | how an address of a short video is written |
| KeyedDedup.EmptyNamesDiffer | frontend-web/src/hooks/useCreatorAnalytics.ts:46-51 | of two videos of one author and kind without a d tag the analytics keep the first, the feed keeps both |
| KeyedDedup.FetchAllUserVideos | frontend-web/src/hooks/useCreatorAnalytics.ts:24-52 | fetches until a page is shorter than 50 or four pages are in, then deduplicates by public key, kind and d tag as it is |
| KeyedDedup.FirstTwoHundred | frontend-web/src/lib/funnelcakeClient.ts:311-318 | for a fixed list the result is the deduplication of its first 200 videos, after min(4, length/50 + 1) requests, although a full last page is taken to have a successor |
| NoteTokens.Tokenize | frontend-web/src/components/NoteContent.tsx:27-108 | the parts are the leftmost matches and the match-free text between them, without gap or overlap; an empty text gives one empty part |
| NoteTokens.Exec | frontend-web/src/components/NoteContent.tsx:32 | finds the leftmost match from a position on |
| NoteTokens.Lossless | frontend-web/src/components/NoteContent.tsx:32-108 | the source spans of contiguous parts concatenate to the text |
| NoteTokens.TokenizedUnique | frontend-web/src/components/NoteContent.tsx:24-108 | there is only one such list of parts |
| NoteTokens.PartsApart | frontend-web/src/components/NoteContent.tsx:32-97 | no part reaches into another, so no hashtag or reference lies inside a URL |
| NoteTokens.SpanIsGreedy | frontend-web/src/components/NoteContent.tsx:25 | a repetition takes as many characters of its class as there are |
| NoteTokens.MatchIff | frontend-web/src/components/NoteContent.tsx:24 | the expression matches at a position exactly a URL up to the next white space, a reference of one of four kinds as far as its alphabet goes, or a hashtag as far as letters, digits and underscores go |
| NoteTokens.ClassesAre | frontend-web/src/components/NoteContent.tsx:24 | the characters of the classes of white space and of word characters, one by one |
| NoteTokens.PartMeans | frontend-web/src/components/NoteContent.tsx:40-93 | each part is shown as a link, a mention, a link to a tag or as text exactly according to what its characters are and to how a reference decodes |
| EscapeHtml.EscapeText | frontend-web/compute-js/src/index.js:925-933 | null and empty give the empty string, and five replacements in sequence give the character-wise escape |
| EscapeHtml.EscapedCharacters | frontend-web/compute-js/src/index.js:927-932 | what each of the five characters becomes, and that every other one stays |
| EscapeHtml.EscapeIsSimultaneous | frontend-web/compute-js/src/index.js:927-932 | the five global replacements equal one replacement of every character at once |
| EscapeHtml.EscapeConcat | frontend-web/compute-js/src/index.js:927-932 | escaping distributes over concatenation |
| EscapeHtml.NoRawDelimiters | frontend-web/compute-js/src/index.js:927-932 | no angle bracket or quote is left |
| EscapeHtml.RoundTrip | frontend-web/compute-js/src/index.js:927-932 | reading the character references back gives the text |
| EscapeHtml.EscapeInjective | frontend-web/compute-js/src/index.js:927-932 | different texts have different escapes |
| Shuffle.ShuffleArray | frontend-mobile/website/nostr-video-player.js:288-295 | swaps inside a fresh copy as the choices say and leaves the input alone |
| Shuffle.OneToOne | frontend-mobile/website/nostr-video-player.js:288-295 | for distinct elements, choices and permutations correspond one to one |
| Shuffle.EveryPermutationReached | frontend-mobile/website/nostr-video-player.js:288-295 | the choices computed from a permutation lead to it |
| Shuffle.DeterminedIffDistinct | frontend-mobile/website/nostr-video-player.js:288-295 | different choices always give different results exactly when the elements are distinct |
| Shuffle.ChoicesCount | frontend-mobile/website/nostr-video-player.js:290-291 | there are n! ways to choose |
| Shuffle.ThreeElements | frontend-mobile/website/nostr-video-player.js:289-293 | the six results for three elements, choice by choice |
| ServiceWorker.AlwaysSound | frontend-mobile/mobile/web/sw.js:132-261 | in every interleaving each entry is an ok response to that request, and each answer is a network response, such an entry, or the error its handler allows |
| ServiceWorker.FailingApiAnswered | frontend-mobile/mobile/web/sw.js:183-198 | a failing API request is answered when its handler has taken two steps, in every interleaving, deletions of caches included: from the entry in the cache it opened, with 503 exactly when there is none, with a failure exactly when the storage failed |
| ServiceWorker.EntryAnswers | frontend-mobile/mobile/web/sw.js:186-192 | an entry that is there when the handler opens the cache answers the request, whatever is deleted afterwards |
| ServiceWorker.EntryAtFailureAnswers | frontend-mobile/mobile/web/sw.js:183-192 | so does one that was there when the fetch failed, if the API cache is not deleted before it is opened |
| ServiceWorkerAnswers.HitIsServed | frontend-mobile/mobile/web/sw.js:132-150 | for assets, fonts and images, in every interleaving: if the cache that was opened holds the request when it is matched, that entry is the answer for good, and a background update is started exactly for assets and fonts |
| ServiceWorkerAnswers.MissIsFetched | frontend-mobile/mobile/web/sw.js:152-160 | if it does not and the network responds, that response is the answer for good, and it is put into that cache exactly when it is ok |
| ServiceWorkerAnswers.FailingAssetAnswered | frontend-mobile/mobile/web/sw.js:161-164 | whatever fails, storage or network, an asset is answered with the 404 |
| ServiceWorkerAnswers.FailingFontRetried | frontend-mobile/mobile/web/sw.js:231-234 | a font or an image is fetched once more then, and the outcome is the answer, uncached |
| ServiceWorkerAnswers.ApiIsFetched | frontend-mobile/mobile/web/sw.js:168-182 | an API request that the network answers gets that response, at once when it is not ok, and otherwise when the API cache is open, into which it is put |
| ServiceWorkerAnswers.ApiFailsOver | frontend-mobile/mobile/web/sw.js:183-186 | when the network fails the handler turns to the API cache |
| ServiceWorkerAnswers.FetchStarts | frontend-mobile/mobile/web/sw.js:89-98 | the fetch event starts the handler of its kind and changes no cache |
| ServiceWorkerAnswers.PutStores | frontend-mobile/mobile/web/sw.js:156-158 | a put that succeeds makes the response the entry of its request and leaves every other entry; one that fails changes none |
| ServiceWorkerAnswers.UpdatePuts | frontend-mobile/mobile/web/sw.js:140-147 | a background update puts the response exactly when the network gives one that is ok |
| ServiceWorkerAnswers.PrecacheIsAllOrNone | frontend-mobile/mobile/web/sw.js:32-46 | installing caches the last response for every asset, or nothing when one of the responses is not ok |
| ServiceWorkerAnswers.OpeningKeeps | frontend-mobile/mobile/web/sw.js:134 | opening changes no cache that has a name and makes an empty one for a name that has none |
| ServiceWorkerAnswers.DeletedIsEmpty | frontend-mobile/mobile/web/sw.js:269-275 | a deleted cache is empty when it is opened again |

## Left out

- All rendering, styling, toasts, gestures, analytics and logging; the tests and the backend.
- Regrouping.ConvertBits: the group widths must sum to at most 31 bits, as for the 8 and 5 that the encoder uses; wider groups would not fit the int32 operators.
- Volume; the muted state is a field of the component in `VideoPlayer`, and enters the step system only through the effects that a change queues and the pauses the browser may add.
- PlaybackSystem.AlwaysExclusive: whether the component believes it is playing (`isPlaying`) is a field of the component in `VideoPlayer` but not of the step system; a click may find either there, which only adds runs.
- VideoPlayer.VideoPlayer.RenderWithProvider: effects that one render queues are taken in the order of the source, those that the other queues after them; a `NotSupportedError` reaches the failure handler, which is modelled in `VideoFallback`.
- What a source does once it is set: the levels and network errors of HLS.js, the outcome of a fetch with authorization (a blob, or the URL itself without a header; an aborted one sets nothing), GIF images. A fatal error, a lost access and a failed fetch are steps that may come at any moment.
- VideoResets.AfterFailures: failures are handled with the latest state; a handler that an older render captured may repeat a step.
- Npub.HexToNpub: a pair of characters such as "-f", which `parseInt` reads as a negative number, fixes only the number and the alphabet of the groups; which of them its sign bits change is not modelled.
- Bech32.Polymod: the words are 32-bit vectors with a logical shift; none of them reaches 2^30, where JavaScript's signed operators give the same.
- Real time: the debounce, the interval of the crawler and timeouts are steps that may come at any moment.
- Crawler shutdown on SIGINT, which may end a run at any point; the conservation laws are about runs before it.
- Crawler.Conservation: the parsing of an event's tags (`extractVideoData`) is reduced to its outcome: a URL, none, or an exception; the URL's hash is taken to identify it.
- A database operation either takes effect and succeeds or has no effect and fails.
- Comments.ExactlyTheDescendants: entries with one id are copies of one event, since an id is the hash of the contents (NIP-01); lists in which two different events share an id are not covered.
- Comments.GetDescendants: its precondition is that the recursion ends, which `EndsIffNoCycle` characterizes; on a cycle the source overflows the stack.
- Interactions.AgreeIff: the relay returns all matching events in one order; the hooks' limits on the number of events are not modelled.
- VideoFeed's moderation and verification filter, a plain filter on the deduplicated list.
- NoteTokens.Tokenize: the decoder of Nostr references is a parameter; characters are those of the model's strings, so a surrogate pair counts as the source counts it only if it is given as two.
- ServiceWorker.AlwaysSound: which handler a URL is routed to is a parameter; requests are compared by URL, without `Vary`; the answers of `addAll` arrive at one step.
- The route matcher of the website's router, whose literal segments are used as regular expressions.
- Open Graph generation, template replacement, WebSocket clients, Zendesk, key-value storage.
