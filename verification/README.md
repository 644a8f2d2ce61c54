# Verified models of the esp-embedded crates

This project models the stateful cores of `esp-embedded`, a set of `no_std` Rust
crates for ESP32 firmware, and proves properties of them over all inputs and over
whole runs, with flash stores, radio calls and power failing at any point. Where
a property fails on some of these runs, the condition under which it holds is
proved too, and the list below names it.

| modules | what they model |
|---|---|
| `Connection`, `ConnectionTask` | the station connection loop of the AP+STA build: its state, its await points, the three latched signals, the radio, and the manager calls that run in between |
| `ConnectionSafety`, `ConnectionTarget`, `ConnectionLink`, `ConnectionRetry` | safety of that loop over every interleaving, which network an attempt is for, what the loop reacts to and when it drops the link, and fairness and progress of its retries |
| `Flash`, `WifiSpec`, `WifiConfig` | the flash key-value store and the flash-backed WiFi configuration with its RAM mirror |
| `WifiKeys`, `WifiSlots`, `WifiRuns`, `WifiSurvival`, `WifiRecovery` | the slot layout, power-cut safety of removals, runs with failing stores, resets and power cuts, the survival of saved networks over them, and recovery from failed removals |
| `WifiBlanks`, `WifiCuts` | what empty SSIDs do to the slots, and what an interrupted removal can put into them |
| `WifiEffects` | what each manager call and each boot does, told from its arguments, the defaults and the flash layout |
| `WifiBoot`, `WifiInit`, `WifiLoop` | agreement of mirror and flash, idempotence of `init`, and the link from manager calls to the connection loop |
| `AppConfig` | what `define_config!` generates, on the same flash |
| `Sessions`, `SessionRuns` | the least-recently-used session store and the bounded map it implements |
| `Nonces`, `Cookies`, `Login`, `LoginRuns` | the nonce ring, the session cookie, challenge-response login over both stores, and who is authorised over runs of it, logins overlapping |
| `Dns`, `DnsProofs` | the captive-portal DNS responder and its reading by RFC 1035 |

Two modelling choices recur. A store may fail at any time: a `Driver` says, by attempt
number, which single-key stores the flash carries out, and every theorem is for
all drivers. A power cut is a driver that stops working after some number of
attempts, followed by a reboot. For the connection loop, a program counter names
every await, and a run is any interleaving of loop steps and manager calls;
`ConnectionTask` is the loop in the source's own shape, proved to follow that
transition system.

Where the code does not meet a property outright, the project says exactly when
it does:

- `connect_async` is polled on a stopped radio exactly when the last
  reconfiguration ended in a failed `set_config` or `start_async`, or in a failed
  `stop_async` on a radio already stopped (`StoppedRadioPolledIff`,
  `FailedRestartIsPolledStopped`).
- It is polled for the network the loop last read from the list exactly if the loop's
  index was in range and the radio took that configuration, or had it already
  (`PollIsForPickedIff`); otherwise it can be polled for the empty SSID
  (`ShrunkListPollsPlaceholder`, `FailedConfigPollsPlaceholder`).
- A device booted and left alone runs exactly the configured interfaces unless its
  access point is disabled, its station enabled and no network saved; then it
  keeps beaconing (`BootedRadioMatchesIff`, `BootedApOutlivesItsSwitch`).
- A removal whose stores may fail keeps RAM and flash together exactly if no stray
  slot follows the list and the networks from the removed one on are all alike
  (`FailedRemovalSafeIff`). Otherwise the next add can overwrite the last network
  and bring the removed one back (`FailedRemovalThenAdd`); an add keeps every
  network in flash, in order, exactly if list and slots were in step
  (`AddKeepsCoverIff`). Without an add, the next boot or successful removal mends
  list and slots (`FailedRemovalsRecover`).
- A removal cut by power loses no other network, but a reload finds one that was never
  saved exactly if the cut fell between the SSID and the password of a moved
  network and the mixture is not by chance in flash (`CutInventsNothingIff`,
  `RemovalInventsNothingIff`).
- A power cut during a removal can leave a gap in the slots exactly if an earlier
  half-failed add left a stray slot (`CutRemovalSafeIff`).
- A list with empty SSIDs reloads in step with its slots, so that the next add keeps
  every network in flash and in order, exactly if no empty SSID stands before
  another name (`BlankSsidSafeIff`). Otherwise that add loses a network exactly if
  it takes the slot of one without a second copy (`BlankSsidLosesIff`, with
  `BlankSsidLosesNetwork` as the shortest run).
- `init` is idempotent unless an empty `STA_SSID` is configured, or there are no
  slots, and no network is saved (`InitIsIdempotentIff`).
- After a boot the settings agree with flash unless one particular write of the
  station switch was lost (`BootAgreesIff`); no failure can lose it exactly if some
  slot loads, or no `STA_SSID` that fits is configured, or the station is not
  stored as disabled (`BootAlwaysAgreesIff`).
- Slot keys stay in the documented range 0 to 49 exactly up to 20 networks, and
  stay distinct exactly up to 123 (`ReservedRangeIff`, `SlotKeysSeparateIff`).
- Verified nonces are accounted for by insertions exactly for the classes of nonces
  that leave out 0, which marks a blank or spent slot (`NoncesAccountedIff`,
  `SessionsNeverOutnumberNonces`); `ZeroIsTheBlankMark` says exactly when
  `verify(0)` is true.
- Saving a session id that is already stored can store it twice
  (`SaveStoredIdIff`).
- Retrying from an out-of-range index misses one network in its first round
  (`OutOfRangeStartMissesOne`).

The README of the repository says environment defaults are written on first boot
only; the code writes the station network again whenever `init` finds the list
empty (`esp-wifi/src/config.rs:182`), and the model follows the code.

## Model

| member | source | states |
|---|---|---|
| ConnectionSafety.ConnectOnlyWhenStaReady | esp-wifi/src/tasks.rs:106-202 | on every run, if the last reconfiguration was not cut short by a failed radio call, `connect_async` is polled only on a started radio with a station interface and with the station enabled; earlier failures do not matter once one has completed |
| ConnectionSafety.LoopHeadAgreement | esp-wifi/src/tasks.rs:123-201 | at every loop head the state is `StaDisabled` exactly when the station is disabled unless STA_TOGGLED is latched, although the successful-connection path skips recomputing it; after a completed reconfiguration a stopped radio means the station is disabled or the toggle is latched |
| ConnectionSafety.QuiescentRadioMatchesConfig | esp-wifi/src/tasks.rs:267-328 | whenever the loop waits with neither switch signal latched and its last reconfiguration complete, the radio is up in exactly the enabled interfaces if and only if the loop has touched it since the driver started it or both are enabled |
| ConnectionSafety.BootedRadioMatchesIff | esp-wifi/src/tasks.rs:106-140 | on every run from start-up without other calls or radio failures, at every select the radio is up in exactly the enabled interfaces if and only if the access point is enabled, the station disabled or a network saved |
| ConnectionSafety.StoppedRadioPolledIff | esp-wifi/src/tasks.rs:267-328 | on every run, a poll of `connect_async` finds the radio stopped exactly when the last reconfiguration ended in a failed `set_config` or `start_async`, or in a failed `stop_async` on a stopped radio |
| ConnectionSafety.BootedApOutlivesItsSwitch | esp-wifi/src/driver.rs:85-103 | the exception occurs: started in the combined mode, the radio keeps its access point although it is disabled |
| ConnectionSafety.FailedRestartIsPolledStopped | esp-wifi/src/tasks.rs:267-328 | each of these endings does lead to such a poll, by one failed call and no other: a failed `set_config`, a failed `start_async`, and a failed `stop_async` when the station is enabled on a device booted with both interfaces off |
| ConnectionTarget.PollIsForPickedIff | esp-wifi/src/tasks.rs:123-140 | on every run, a poll is for the network last read at the loop head exactly if the index was in range there and the radio took that configuration or already had it; otherwise the mode is as before the loop head |
| ConnectionTarget.ShrunkListPollsPlaceholder | esp-wifi/src/tasks.rs:64-76 | the index can be out of range with every radio call succeeding: the list shrinks after the state was computed, and the poll is for the empty SSID |
| ConnectionTarget.FailedConfigPollsPlaceholder | esp-wifi/src/tasks.rs:135-138 | and so can the configuration be refused: one failed `set_config` at the loop head leads to the same poll |
| ConnectionSafety.RunKeepsInv | esp-wifi/src/tasks.rs:106-202 | at every await point of every interleaving with manager calls, every switch reading the loop acts on is current or its signal is latched |
| ConnectionTask.RunConnection | esp-wifi/src/tasks.rs:106-202 | the loop itself, with arbitrary calls, results and events at its awaits, makes a run of the transition system, and so polls `connect_async` on a stopped radio only after the failures named above |
| ConnectionTask.ComputeState | esp-wifi/src/tasks.rs:64-76 | reads the switch before the list, with other calls running in between |
| ConnectionTask.ApplyApReconfig | esp-wifi/src/tasks.rs:267-328 | stop, read, configure, start, leaving early on a failure or when nothing is enabled |
| ConnectionTask.Poll | esp-wifi/src/tasks.rs:142-148 | the fixed order of `select4`: a toggle is taken only with no reconfiguration latched, a connection request only with neither, and an event of the state action only with no signal at all |
| ConnectionTask.React | esp-wifi/src/tasks.rs:150-200 | each branch, with what it disconnects, resets or skips |
| ConnectionLink.SignalsAreKept | esp-wifi/src/tasks.rs:142-170 | on every run a signal is latched exactly from when a call raises it until the select takes it, and taking one leaves the other two |
| ConnectionLink.TakenLeadsTo | esp-wifi/src/tasks.rs:150-201 | what each thing taken leads to: a signal first drops a connection, then reconfigures or moves to the requested index; each state answers only its own events; a lost connection goes back to index 0 |
| ConnectionLink.IndexMoves | esp-wifi/src/tasks.rs:165-196 | the index moves only to a requested value, to 0 after a toggle or a lost connection, and one on along the ring after a failed attempt with networks saved |
| ConnectionLink.ReconfigurationMode | esp-wifi/src/tasks.rs:277-309 | the mode each reading of the switches asks of the radio, with the placeholder station |
| ConnectionLink.ConnectedIffLinked | esp-wifi/src/tasks.rs:150-183 | on every run the state is `Connected` at the loop head and in the select exactly while a connection stands, with the index it was made under; the radio is never stopped, nor another attempt made, while it stands |
| ConnectionLink.RestsAfterFailure | esp-wifi/src/tasks.rs:184-196 | on every run the pause comes between a failed attempt or a lost connection and the next attempt |
| ConnectionRetry.AttemptsFollowPicks | esp-wifi/src/tasks.rs:162-196 | with only connection failures, attempt j uses the clamped j-th successor of the starting index, which a connection request names, a toggle and a lost connection reset to 0, and a reconfiguration keeps |
| ConnectionRetry.FirstAttempt | esp-wifi/src/tasks.rs:165-196 | the first attempt after a lost connection or a toggle is for the first network, and after a request in range for the one asked for |
| ConnectionRetry.EveryNetworkIsTried | esp-wifi/src/tasks.rs:123-201 | progress: with n networks saved and every attempt failing, 8 n + 21 steps of the loop try every one of them |
| ConnectionRetry.FairRetry | esp-wifi/src/tasks.rs:184-200 | any n + 1 consecutive attempts try every saved network, and any n do unless they begin out of range |
| ConnectionRetry.OutOfRangeStartMissesOne | esp-wifi/src/tasks.rs:75 | from an out-of-range index the first n attempts miss exactly one network, unless it is the last |
| WifiLoop.CallsAreEnvSteps | esp-wifi/src/config.rs:278-430 | every manager call changes the loop's configuration and latches its signals exactly as a short sequence of the loop's environment steps |
| WifiConfig.FlashBackedWifiConfig.Init | esp-wifi/src/config.rs:85-219 | the in-place load and default writing compute `WifiSpec.Init`, for any mirror, flash and failures |
| WifiConfig.FlashBackedWifiConfig.LoadNetworks | esp-wifi/src/config.rs:118-129 | the slot loop, skipping empty SSIDs and dropping what does not fit |
| WifiConfig.FlashBackedWifiConfig.WriteStaSlot | esp-wifi/src/config.rs:221-230 | the SSID, then the password, stopping at a failure |
| WifiConfig.FlashBackedWifiConfig.ConfigureAp | esp-wifi/src/config.rs:310-343 | both halves are attempted, each mirrored alone; success and the signal need both |
| WifiConfig.FlashBackedWifiConfig.AddStaNetwork | esp-wifi/src/config.rs:365-396 | refuses over-long text and a full list; otherwise writes the slot at the list's end and appends on success |
| WifiConfig.FlashBackedWifiConfig.AddAndConnectStaNetwork | esp-wifi/src/config.rs:398-406 | an add, then a request for the network just added |
| WifiConfig.FlashBackedWifiConfig.RemoveStaNetwork | esp-wifi/src/config.rs:408-430 | RAM first, then every slot, stopping at the first failed store |
| WifiConfig.FlashBackedWifiConfig.SetApEnabled | esp-wifi/src/config.rs:278-286 | flash first; the mirror and the signal follow only a successful store |
| WifiConfig.FlashBackedWifiConfig.SetStaEnabled | esp-wifi/src/config.rs:355-363 | flash first; the mirror and STA_TOGGLED follow only a successful store |
| WifiEffects.LayoutLoads | esp-wifi/src/config.rs:10-25 | each setting is loaded from its own key, 0 to 6, and the list is the occupied slots in order |
| WifiEffects.SlotLayout | esp-wifi/src/config.rs:118-129 | slot i is read from the texts under keys 10 + 2 i and 11 + 2 i, an empty SSID as no network and an empty password as none |
| WifiEffects.SetterEffect | esp-wifi/src/config.rs:288-308 | a text setter succeeds exactly for acceptable text and a working store, then changes that one setting in the mirror and that one key in flash, and signals or resets as the setting requires; otherwise it changes neither |
| WifiEffects.SwitchEffect | esp-wifi/src/config.rs:278-286 | a switch call succeeds exactly if its store does, then holds in mirror and flash and raises its own signal |
| WifiEffects.ConfigureEffect | esp-wifi/src/config.rs:310-343 | the name goes to key 1 and the password to key 2, each mirrored if its own half is good; success and signal need both |
| WifiEffects.AddEffect | esp-wifi/src/config.rs:365-396 | an add succeeds exactly if name and password fit in 64 bytes, the list is not full and both stores work; then list and slot end in that name with that password, and nothing else has changed |
| WifiEffects.AddCallsEffect | esp-wifi/src/config.rs:398-406 | both adding calls are that, and the second requests the index of the network just added |
| WifiEffects.AddedReloads | esp-wifi/src/config.rs:377-391 | after a successful named add to matched slots without a stray, a reload returns what it would have before and then that name with that password |
| WifiEffects.RemoveEffect | esp-wifi/src/config.rs:408-430 | a removal takes the entry from RAM whatever its stores do, and succeeds exactly if all of them work; then the slots hold the rest by text, and blanks |
| WifiEffects.BootSettings | esp-wifi/src/config.rs:85-219 | after a boot whose stores succeed, each setting is as stored or else its default if that fits, and the list as stored or else the environment's network, which enables the station; both switches are stored |
| WifiKeys.SlotKeysSeparateIff | esp-wifi/src/config.rs:20-25 | slot keys are distinct from each other and from the settings exactly up to 123 slots |
| WifiKeys.ReservedRangeIff | README.md:82-85 | slot keys stay in the documented range exactly up to 20 slots |
| WifiSlots.WriteSlotsIsPrefix | esp-wifi/src/config.rs:418-428 | a removal performs a prefix of its key writes, and returns true exactly when the prefix is everything |
| WifiSlots.RemovalSurvivesPowerCut | esp-wifi/src/config.rs:408-430 | after any prefix of the key writes every other network still sits whole in some slot, and a reload finds it unless its SSID is empty |
| WifiSlots.RemovalResynchronises | esp-wifi/src/config.rs:408-430 | whenever a removal returns true every slot encodes the RAM list, whatever flash held before, and a reload returns that list normalised |
| WifiRuns.RunRefinement | esp-wifi/src/config.rs:365-430 | over every run of calls, failing stores, resets and power cuts, the list matches flash slot by slot with at most one stray slot, and a reload returns it normalised plus that one entry; added SSIDs are non-empty, and removals fail or are cut only where the two exact conditions below allow |
| WifiRuns.FailedRemovalSafeIff | esp-wifi/src/config.rs:408-430 | every way a removal's stores can fail keeps RAM and flash matched exactly when no stray slot was present and the networks from the removed one on are all alike |
| WifiRuns.FailedRemovalThenAdd | esp-wifi/src/config.rs:377-430 | otherwise, a removal whose first store fails and the next add leave flash with the last network lost and the removed one back |
| WifiRecovery.FailedRemovalsRecover | esp-wifi/src/config.rs:408-430 | over every run where a removal from matched slots without a stray slot may fail anywhere, but nothing is added and no second removal fails before they match again: each boot and each removal that returns true makes them match |
| WifiRuns.RebootRefinement | esp-wifi/src/config.rs:118-200 | every run that begins by booting from gap-free flash, environment defaults included, is of that kind |
| WifiSurvival.SavedNetworkSurvives | esp-wifi/src/config.rs:365-430 | over every run with failing stores, failed removals of others, removals and boots cut by power, stray slots and gaps, a saved network that no event removes stays in the list and in what a reload finds, if named adds are made with list and slots in step |
| WifiSurvival.AdmissibleRunsKeepSaved | esp-wifi/src/config.rs:365-430 | in particular over every run of `RunRefinement`, removals of other networks included |
| WifiSurvival.RemovalKeepsCover | esp-wifi/src/config.rs:418-428 | after any prefix of a removal's writes, from any slots that hold the list in order, the remaining networks are still all in the slots and in order |
| WifiSurvival.AddKeepsCoverIff | esp-wifi/src/config.rs:377-391 | adding a network that flash does not hold keeps the list in the slots in order exactly when slot i held network i of the list |
| WifiSurvival.BootCovers | esp-wifi/src/config.rs:118-200 | a boot from any flash, gaps included, gives a list that the slots hold in order and that has every network found in a slot |
| WifiRuns.CutRemovalSafeIff | esp-wifi/src/config.rs:418-428 | every power cut during a removal leaves the slots gap-free exactly when no stray slot was present |
| WifiBlanks.BlankSsidSafeIff | esp-wifi/src/config.rs:118-129 | for any list in the slots, empty SSIDs included, any capacity and any network not in flash: after the list is loaded, the next add keeps all its networks in flash and in order exactly if no empty SSID stood before another name |
| WifiBlanks.BlankSsidLosesIff | esp-wifi/src/config.rs:377-391 | the add then loses a network exactly if a name stood in the slot it takes and nowhere else |
| WifiBlanks.AddKeepsMirrors | esp-wifi/src/config.rs:365-396 | any names a caller adds with success, empty ones included, form such a list |
| WifiBlanks.BlankSsidLosesNetwork | esp-wifi/src/config.rs:118-129 | the shortest run that loses one: an empty SSID, a network, a reload, an add |
| WifiCuts.CutInventsNothingIff | esp-wifi/src/config.rs:221-230 | cut after any number of its key writes, a removal leaves a reload only networks it found before, exactly unless the cut fell between the SSID and password of a moved network and the mixture is not among them |
| WifiCuts.RemovalInventsNothingIff | esp-wifi/src/config.rs:408-430 | no cut of a removal invents a network exactly if each one after the removed, with the password of the one before it, is in flash already |
| WifiBoot.MirrorAgreesOverRuns | esp-wifi/src/config.rs:85-430 | over any run of calls, software resets, power cycles and power cuts with arbitrary store failures, a reboot would load exactly the settings in RAM, if each boot meets the condition of `BootAlwaysAgreesIff` |
| WifiBoot.CallKeepsAgrees | esp-wifi/src/config.rs:310-343 | every single call keeps that agreement, a half-failed `configure_ap` and a failed removal included |
| WifiBoot.BootAgreesIff | esp-wifi/src/config.rs:182-200 | a boot with arbitrary store failures ends in agreement exactly unless the last write of the station switch is lost while flash says disabled |
| WifiBoot.BootAlwaysAgreesIff | esp-wifi/src/config.rs:85-219 | a boot ends in agreement whichever of its stores fail exactly if some slot loads, or no network that fits is configured, or flash does not say the station is disabled |
| WifiInit.InitIsIdempotentIff | esp-wifi/src/config.rs:85-219 | after an `init` whose stores succeed, a second boot writes no key and gives the same configuration with its list normalised, exactly unless the environment's network can never be loaded back and no slot is occupied |
| WifiInit.FirstBootSettles | esp-wifi/src/config.rs:132-218 | for every flash content and choice of defaults, such an `init` leaves nothing for another to write, with the same exception |
| AppConfig.WifiKeepsAppFields | README.md:82-85 | no WiFi call, boot or power cut changes a field of another store whose keys avoid the reserved range |
| AppConfig.AppKeepsWifi | esp-persistent-config/src/lib.rs:233-244 | a setter of such a store changes nothing WiFi loads |
| AppConfig.SharedFlashRuns | README.md:27-29 | over every run of both stores on one flash, with failing stores, resets, power cuts and `init_config` after each boot, the network list stays tracked, the WiFi settings agree, and the application's fields are what a boot would load |
| AppConfig.SharedBootIsFaithful | esp-persistent-config/src/lib.rs:217-231 | booting both stores from gap-free flash starts such a run |
| AppConfig.InitReloadsSame | esp-persistent-config/src/lib.rs:217-231 | `init_config`, whichever of its stores fail, changes no field a boot loads |
| AppConfig.Config.InitConfig | esp-persistent-config/src/lib.rs:217-231 | loads every field or applies and writes its default; RAM ends as what a boot loads before and after |
| AppConfig.InitStoresDefaults | esp-persistent-config/src/lib.rs:217-231 | an `init_config` whose stores succeed leaves under each key what it held at the field's type, or the default, and touches no other key |
| AppConfig.Config.SetField | esp-persistent-config/src/lib.rs:233-244 | RAM follows flash, and neither moves if the store fails |
| Flash.FlashStore.Store | esp-persistent-config/src/lib.rs:166-176 | refuses before `init`; otherwise one atomic key store that may fail |
| Sessions.LruMemoryStore.Load | esp-session-mgmt/src/lib.rs:67-82 | finds the first record with the id, removes it if expired, touches it otherwise |
| Sessions.LruMemoryStore.Save | esp-session-mgmt/src/lib.rs:84-110 | updates in place, fills the first hole, or overwrites the first record of least last activity |
| Sessions.LruMemoryStore.Delete | esp-session-mgmt/src/lib.rs:112-123 | empties the first slot with the id |
| Sessions.LruMemoryStore.Exists | esp-session-mgmt/src/lib.rs:125-128 | true exactly if some slot holds the id |
| Sessions.SaveRefinesMap | esp-session-mgmt/src/lib.rs:84-110 | with a fresh id, adds to the map if there is room and otherwise displaces exactly one record of minimal last activity, changing no other |
| Sessions.LoadRefinesMap | esp-session-mgmt/src/lib.rs:67-82 | is a lookup with expiry in the map, whatever holes exist |
| Sessions.DeleteRefinesMap | esp-session-mgmt/src/lib.rs:112-123 | removes that key and reports whether it was there |
| Sessions.SaveStoredIdIff | esp-session-mgmt/src/lib.rs:89-105 | saving a stored id keeps ids unique exactly when no hole precedes its copy |
| SessionRuns.EvictionIsLeastRecent | esp-session-mgmt/src/lib.rs:84-110 | over every run, a session is evicted only when the other N - 1 were each saved or loaded at or after its own last use |
| SessionRuns.UncrowdedSessionStays | esp-session-mgmt/src/lib.rs:67-123 | the converse: over every run a session stays stored while it is not deleted, is loaded in time, and fewer others than there are slots are saved or loaded since its own last use |
| SessionRuns.SaveDropsIff | esp-session-mgmt/src/lib.rs:84-110 | saving a fresh id drops a session exactly if no slot is free and it is in the first of those least recently active |
| SessionRuns.LoadObeysPolicy | esp-session-mgmt/src/lib.rs:29-36 | over every run, a load succeeds exactly for a stored session whose policy holds at that moment, idle time counted from its last use |
| SessionRuns.FailedLoadIsFinal | esp-session-mgmt/src/lib.rs:67-82 | once a load fails, every later load of that id fails until it is saved again |
| Nonces.NonceStore.Insert | esp-web-utils/src/lib.rs:82-85 | overwrites the slot at the index and advances it round the ring |
| Nonces.NonceStore.Verify | esp-web-utils/src/lib.rs:87-98 | consumes the first slot with the nonce, in time or not |
| Nonces.RingRefinesHistory | esp-web-utils/src/lib.rs:74-98 | over every run whose insertions are non-zero and distinct within the last N, slot k mod N holds insertion k of the last N, blank once presented |
| Nonces.VerifyMeansFreshAndUnused | esp-web-utils/src/lib.rs:87-98 | after any such run, `verify` is true exactly for a nonce among the last N inserted, not presented since, and under 30 s old |
| Nonces.VerifiedWasIssued | esp-web-utils/src/lib.rs:82-98 | over any run at all, repeated and zero insertions included, a non-zero nonce is verified only if it is among the last N inserted, under 30 s ago |
| Nonces.NoncesAreSpentAtMostOnce | esp-web-utils/src/lib.rs:82-98 | over any run, for one non-zero nonce or all of them, successful verifications plus nonces still held never exceed insertions |
| Nonces.NoncesAccountedIff | esp-web-utils/src/lib.rs:74-98 | that accounting holds over all runs exactly for the classes of nonces without 0 |
| Nonces.ZeroIsNeverSpent | esp-web-utils/src/lib.rs:87-98 | verifying 0 changes nothing, so it succeeds any number of times while it succeeds at all |
| Nonces.ZeroIsTheBlankMark | esp-web-utils/src/lib.rs:74-98 | after any run with fresh insertions `verify(0)` is true exactly if the first blank or spent slot is stamped under 30 s ago |
| Login.AppState.HandleLogin | esp-web-utils/src/lib.rs:221-267 | spends the nonce first; answers 200 exactly if it was good, the stored name is the one given and the response is the digest of nonce, name and password, and then saves a session of an hour for that user and sets its cookie; every other path answers 401 and changes no session |
| Login.AppState.Authorize | esp-web-utils/src/lib.rs:124-155 | reads the cookie and loads that session, or redirects |
| Login.LoginAuthorises | esp-web-utils/src/lib.rs:124-266 | the pair of the cookie that a login set, sent back by a browser with no pair named `session` before it, authorises that user exactly up to an hour later |
| LoginRuns.SessionsNeverOutnumberNonces | esp-web-utils/src/lib.rs:221-264 | whatever is attempted and however logins overlap, sessions created on nonces of a class never outnumber the insertions of that class, exactly for the classes without 0 |
| LoginRuns.VisitAuthorisedIff | esp-web-utils/src/lib.rs:124-266 | over every run of issued nonces, login halves in any interleaving, visits and deletions with fresh tokens, a visit is authorised exactly if its cookie names the token of a completed login that no later request deleted, visited too late or displaced, last used at most an hour ago; and then as that login's user |
| LoginRuns.StoredUnlessEnded | esp-session-mgmt/src/lib.rs:67-123 | a stored session outlives a request exactly unless that request deletes it, visits it too late, or is a login that finds no free slot and this session first among the least recently active |
| LoginRuns.UncrowdedLoginStays | esp-web-utils/src/lib.rs:124-266 | after a login its cookie is good while it is not deleted, each visit with it comes within an hour, and no login completes once as many others as there are slots were active since its last use |
| LoginRuns.HandlerServes | esp-web-utils/src/lib.rs:221-267 | the handler of a login that nothing interrupts is its two halves served in turn |
| LoginRuns.FinishSavesIff | esp-web-utils/src/lib.rs:229-255 | the second half of a login saves a session exactly if its nonce had been verified, the stored name is the one given and the response is the digest of that nonce, name and password; a wrong response leaves the session store as it was |
| LoginRuns.GrantedAnswersIssuedNonce | esp-web-utils/src/lib.rs:225-248 | every completed login answered the nonce of its first half with exactly that digest, and that nonce had been verified: 0, or one among the last N issued and under 30 s old; and if the nonces issued were non-zero and distinct within each last N, one not presented before |
| LoginRuns.VisitIsAuthorized | esp-web-utils/src/lib.rs:124-155 | a visit in these runs leaves the session store as the check in front of protected pages does |
| Cookies.FormatSetCookie | esp-session-mgmt/src/lib.rs:153-169 | appends the text piece by piece and succeeds exactly if it fits the buffer |
| Cookies.FormatClearCookie | esp-session-mgmt/src/lib.rs:171-181 | appends the clearing text piece by piece and succeeds exactly if it fits the buffer |
| Cookies.ClearedPairReadsNone | esp-session-mgmt/src/lib.rs:171-181 | the pair of a cleared cookie, sent back, is read as no session id |
| Cookies.SetCookieStartsWithPair | esp-session-mgmt/src/lib.rs:159-162 | the text begins with the pair of the record's id, ended by a semicolon |
| Cookies.SetCookieSplits | esp-session-mgmt/src/lib.rs:159-168 | the text splits at semicolons into exactly the pair, path, age and flags configured |
| Cookies.SetCookieFits | esp-session-mgmt/src/lib.rs:141-169 | with either configuration the text takes at most 101 of the 128 bytes |
| Cookies.CookieRoundTrip | esp-web-utils/src/lib.rs:137-147 | the printed pair, anywhere in a header where no earlier segment is white space followed by `session=`, reads back as the id, for every id |
| Cookies.BrowserHeaderReads | esp-web-utils/src/lib.rs:137-147 | in the form browsers send, pairs joined by a semicolon and a space, the first pair named `session` is the one read |
| Cookies.SegmentReadsIff | esp-web-utils/src/lib.rs:138-145 | a segment yields an id exactly if its text is white space, `session=`, perhaps a plus sign, the id in digits, and white space |
| Cookies.HeaderReadsIff | esp-web-utils/src/lib.rs:137-147 | a header yields exactly the id of the first segment whose text has that form |
| Cookies.MaxAgeRoundsDown | esp-session-mgmt/src/lib.rs:153-169 | the printed age is the whole seconds left of the policy, and 0 for a past deadline |
| Cookies.ClearCookieSplits | esp-session-mgmt/src/lib.rs:171-181 | the clearing text splits into the empty pair, the path, an age of 0 and the flags |
| Cookies.ReadIdIsFirst | esp-web-utils/src/lib.rs:137-147 | an id read from any header stands in it as text, in the first segment of that form |
| Dns.ScanName | esp-services/src/dns.rs:43-63 | the scan loop, for any query: terminates, stays in bounds, and computes `Scan` |
| Dns.Respond | esp-services/src/dns.rs:31-112 | one round of the responder writes exactly the specified reply, or none |
| DnsProofs.ScanReadsLabels | esp-services/src/dns.rs:43-63 | for any octets, the scan reads the labels to a root octet, a label cut short or the packet's end, stops there, and the buffer holds the first 128 bytes of the labels joined by dots |
| DnsProofs.EveryQueryHasLabels | esp-services/src/dns.rs:43-63 | every query begins with such labels |
| DnsProofs.ScanReadsName | esp-services/src/dns.rs:43-63 | every uncompressed name is read to just past its root octet |
| DnsProofs.ReplyDecodes | esp-services/src/dns.rs:72-107 | a reply decodes, by an independent RFC 1035 decoder that follows pointers, to the same id and question, and for QTYPE 1 and 255, and no other, to one address record for the name asked |
| DnsProofs.AnyQueryAnsweredIff | esp-services/src/dns.rs:33-100 | which queries are answered, for any octets: those with QR clear, OPCODE 0 and a question, RD and the other bits free, with four octets left where the name stops, whose reply fits; only types 1 and 255 need room for an answer |
| DnsProofs.AnsweredIff | esp-services/src/dns.rs:33-100 | among well-formed queries, the standard ones whose reply fits a packet |
| DnsProofs.LegalNamesAreAnswered | esp-services/src/dns.rs:93-100 | names of at most 255 octets always fit |
| DnsProofs.RepliesAreFinal | esp-services/src/dns.rs:36-41 | every reply fits a packet, repeats the id, echoes the question's octets, and is never itself replied to |

## Left out

- Connection loop as a transition system: `Connection` works on values with a program counter, because other calls interleave at every await; `ConnectionTask` gives the imperative form and its `RunConnection` stops after a given number of polls, since the source's loop never ends.
- Access-point SSID and password inside the connection loop: only their reconfiguration signal is modelled; a half-failed `configure_ap` changes the SSID in RAM without a signal, so no agreement is claimed for them.
- Radio hardware: a radio call succeeds or fails; a failed `disconnect_async` has no effect; cancellation of a pending `connect_async` by the select is not modelled, nor are the AP-only and STA-only builds.
- Timers: the 5 s and 30 s pauses are awaits of unspecified length.
- Overlapping manager calls: calls run one after another; two adds whose store writes interleave are not modelled.
- Flash internals: a store is one atomic write to a key map that succeeds or fails without effect, reads never fail, and a value stored at another type reads as absent; sequential-storage, wear levelling and the shared-flash adapters are not part of this model.
- Text: `String<64>` is a sequence of at most 64 characters, so text is taken as bytes; UTF-8 validation and the display of DNS names are left out.
- WifiKeys.SlotKeysSeparateIff: keys are computed with wrap-around as a release build does; a debug build would stop at slot 123.
- Time: instants are tick counts at 1 MHz; `last_active + duration` does not overflow in the model, where the source would stop.
- Sessions.LruMemoryStore.Save: requires at least one slot, because the source indexes slot 0 of an empty array.
- LoginRuns.VisitAuthorisedIff: session tokens are taken as fresh; the source draws them at random and does not check, and `SaveStoredIdIff` says what saving a stored one does.
- Nonces.NonceStore.Insert: the store has at least one slot, for the same reason.
- Login digest: SHA-256 and hexadecimal formatting are an arbitrary function of nonce, name and password; tokens and times are parameters.
- `WifiConfig` getters, `impl_wifi_delegation!` and the trait crates: they return a field or forward a call unchanged.
- DHCP, mDNS, HTTP serving and OTA: they start library services or pass a byte stream to the OTA writer, and keep no state of their own.
- Logging and `log_sta_ip`.
