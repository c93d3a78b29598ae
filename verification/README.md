# Kiosk display controller — a Dafny model

The membership kiosk shows an idle screen with rotating ads. It polls the
back end for new card scans and shows the scanned member for a few seconds
(idle mode), or prepends the scan to a recent-scan list (list mode). A
settings panel and an optional lock password guard the idle/list toggle.

This project models the browser-side controller as one immutable `Kiosk`
record with a pure function per event handler. It also models the three
pure server-side helpers the controller depends on:

- message parsing and member status (`api/utils.php`);
- the ad schedule filter (`api/get_ads.php`);
- the ad-image name check (`api/get_ad_image.php`).

Modules follow the program's files:

| module | file | what it holds |
|---|---|---|
| `Text` | `text.dfy` | trimming with PHP's and JavaScript's whitespace classes, ASCII case mapping, decimal digits, `basename`, `pathinfo` extension, `str_pad` |
| `Values` | `values.dfy` | dynamic values with JavaScript truthiness and `String()`, PHP `empty`, `isset` and `(int)` |
| `Timers` | `timers.dfy` | `TimerManager`: one slot per timer name, plus the set of handles the host would still fire |
| `StateStore` | `store.dfy` | `StateService` `get`, `set` and `initialize` with the `_keyMap` persistence rule, and `getNextAd` |
| `Passwords` | `passwords.dfy` | `PasswordService`, with `btoa` as an encoder parameter |
| `ScanDedup` | `scan_dedup.dfy` | how `handleScanPoll` classifies a poll reply |
| `KioskState` | `kiosk_state.dfy` | the controller record, configuration, screen names and the invariant |
| `Ui` | `ui.dfy` | the state side of `UIManager` |
| `Controller` | `controller.dfy` | every handler of `app.js`, boot, and the event step |
| `ControllerProps` | `controller_props.dfy` | properties of the controller: invariant, polling, settings, toggle, ad rotation |
| `PasswordFlows` | `password_flows.dfy` | the settings save and the three password prompts |
| `MemberMessages` | `messages.dfy` | `api/utils.php` |
| `AdFeed` | `ad_feed.dfy` | `api/get_ads.php` |
| `AdImage` | `ad_image.dfy` | `api/get_ad_image.php` |

## Timers and events

- A timer slot holds the handle that `setTimeout`/`setInterval` returned.
- A handle is *live* while the host would still fire it:
  - `clear` kills the handle;
  - firing kills a one-shot handle.
- `Controller.Step` applies one event:
  - a timer tick whose slot does not hold a live handle changes nothing;
  - every other event runs its handler.
- Each awaited fetch is one atomic step whose outcome is an input:
  - a poll tick carries the scan reply;
  - an ad-refresh tick carries the ad list;
  - the list-mode scan list arrives as its own event.

## Behaviour as written

- `getNextAd` reads `Config.ads`, which `config.js` never defines, so in the program it always returns null. `StateStore.GetNextAd` takes the ad list as a parameter, so its rotation can be stated at all.
- `Config.adSettings.refreshInterval` is undefined, so closing settings starts `adListRefresh` with a zero delay (`Shipped.settingsAdRefresh == 0`).
- `adListRefresh` is not a repeating timer name, and `refreshAdList` never restarts it. The ad list is therefore refreshed once per start, not every `adsRefresh` milliseconds as the `config.js` comment says (`ControllerProps.RefreshRunsOnce`).

## Model

| member | source | states |
|---|---|---|
| Timers.KindOf | static/js/timeManager.js:28-35 | a timer repeats exactly when its name is one of scanPoll, quote, weather, dateTime, adInterval; every other name is one-shot |
| Timers.Clear | static/js/timeManager.js:12-21 | the slot ends empty and its handle stops being live; a clear of an empty slot changes nothing; other slots and their handles are untouched; a well-formed table stays well-formed |
| Timers.Start | static/js/timeManager.js:28-35 | the old handle of the slot is no longer live and the slot holds a fresh live handle with the given delay, so a name never owns two live handles; other slots are untouched; well-formedness and "repeating slots hold live handles" are kept |
| Timers.OtherStaysLive | static/js/timeManager.js:12-35 | starting or clearing one name never kills another name's live handle |
| Timers.OtherStaysSpent | static/js/timeManager.js:12-35 | starting or clearing one name never revives another name's spent handle |
| Timers.Fire | static/js/timeManager.js:28-35 | the host firing a handle spends it only for a one-shot name and leaves the slot filled; a repeating handle stays live |
| Timers.ClearAll | static/js/timeManager.js:22-27 | after clearing every name no slot is filled and exactly the handles the slots held stop being live; on a well-formed table nothing stays live |
| Passwords.ObfuscateInjective | static/js/passwordService.js:5-13 | with an injective encoder on Latin-1 text, two different passwords never share an obfuscated form, including when the encoder throws and the plain text is stored |
| Passwords.SetPassword | static/js/passwordService.js:29-43 | a non-empty text is stored in obfuscated form and reported as success; null and empty text remove the secret and report success; any other input fails and changes nothing; staging is never touched |
| Passwords.RemovePassword | static/js/passwordService.js:45-48 | afterwards no password is set; staging is kept |
| Passwords.StoreAttempt | static/js/passwordService.js:50-52 | staging a new password never changes the stored secret |
| Passwords.ClearAttempt | static/js/passwordService.js:58-60 | clearing the staged password never changes the stored secret |
| Passwords.SetThenVerify | static/js/passwordService.js:16-36 | after setting a non-empty password it is set, it verifies, and no other entry verifies |
| Passwords.RemovedRejectsAll | static/js/passwordService.js:21-27 | after removal no entry at all verifies |
| StateStore.StorageKeysDistinct | static/js/stateService.js:29-37 | persisted keys map to distinct storage keys, none of them the lock password's |
| StateStore.Set | static/js/stateService.js:54-66 | reading the key back gives the value written; every other key reads as before; a key outside the persistence map never touches storage |
| StateStore.SetStorage | static/js/stateService.js:58-64 | for a persisted key, null and undefined remove the storage entry and other values store their string form; no other storage entry changes, and the password entry is never created or removed |
| StateStore.SetOverwrite | static/js/stateService.js:54-66 | a second write of the same key wins completely, in memory and in storage |
| StateStore.SetCommutes | static/js/stateService.js:54-66 | writes to different keys commute, in memory and in storage |
| StateStore.Loaded | static/js/stateService.js:40-46 | a stored non-empty string is read back raw; a missing or empty entry falls back to the default |
| StateStore.PersistedKeysComplete | static/js/stateService.js:39-46 | the keys `initialize` loads are exactly the persisted keys |
| StateStore.LoadKeysKeeps | static/js/stateService.js:39-46 | loading a list of keys leaves every key outside the list as it was |
| StateStore.LoadKeysValue | static/js/stateService.js:39-46 | each loaded key ends with its value read from the initial storage, even though each load writes storage back before the next one reads |
| StateStore.InitializeLoads | static/js/stateService.js:39-46 | after `initialize` every persisted key holds its stored string or its default |
| StateStore.InitializeKeepsTransient | static/js/stateService.js:39-46 | `initialize` leaves keys that are not persisted alone |
| StateStore.StoredFalseIsTruthy | static/js/stateService.js:45 | a stored "false" ads flag comes back as the non-empty string "false", which is truthy |
| StateStore.DisabledAdsReloadEnabled | static/js/stateService.js:45-61 | switching ads off and reloading the page gives a truthy ads flag: disabling ads does not survive a reload |
| StateStore.PersistedStringSurvivesReload | static/js/stateService.js:40-61 | a non-empty string written under any persisted key, such as the screen mode or the last scan id, reads back unchanged after a reload |
| StateStore.JsRem | static/js/stateService.js:94 | JavaScript's `%` stays strictly between minus the divisor and the divisor, and equals the mathematical remainder for a non-negative dividend |
| StateStore.GetNextAd | static/js/stateService.js:89-111 | no ads gives null; otherwise the index moves on by one modulo the list length, the ad at that index is returned, and an explicit duration takes precedence |
| StateStore.NextAdDurationFallback | static/js/stateService.js:99-107 | without an explicit duration an ad never gets a zero duration while the general default is set; a type default is only used for an ad of that type, and any other type gets the general default |
| StateStore.NextAdFirstRound | static/js/stateService.js:93-95 | from index -1, the first round of calls visits 0, 1, …, in list order |
| StateStore.NextAdPeriodic | static/js/stateService.js:93-95 | the sequence of indices repeats with the period of the list length |
| StateStore.NextAdWraps | static/js/stateService.js:93-95 | one call past the last ad wraps to the first ad |
| ScanDedup.Classify | static/js/app.js:46-77 | an update with a truthy id records the reply's id and check-in and is new exactly when the id differs, or when the trimmed check-in differs and the date guard holds; an error reply records only a truthy id and is never new; any other reply records nothing |
| ScanDedup.RepeatIsNotNew | static/js/app.js:49-65 | once a reply's id and check-in are recorded, the same reply never counts as new again, whatever the guard says |
| ScanDedup.RememberedFromReply | static/js/app.js:49-70 | what a reply records depends only on the reply, not on what was remembered |
| ScanDedup.AsWrittenIgnoresRecheckIn | static/js/app.js:60 | as written, a reply with the remembered id is never new, whatever its check-in |
| ScanDedup.IntendedGuardShowsRecheckIn | static/js/app.js:59-64 | with the intended guard, the same id with a changed past check-in is new, where the code as written ignores it |
| KioskState.ScreenOf | static/js/uiManager.js:138-160 | a screen name is recognised exactly when it is idle, member, settings, list or password; any other name is kept as an unknown screen |
| Ui.HideAds | static/js/uiManager.js:125-135 | the ad container is hidden and nothing else changes |
| Ui.TogglePressedFor | static/js/uiManager.js:610-618 | the toggle shows pressed exactly in list mode |
| Ui.ShowScreen | static/js/uiManager.js:138-171 | the screen becomes current; member, settings and list hide the ads; a known screen sets the toggle from the persisted mode read on entry; an unknown one leaves the toggle; nothing else changes |
| Ui.ShowPasswordPanel | static/js/uiManager.js:173-183 | the panel is active with the action pending; the current screen and everything else are unchanged |
| Ui.HidePasswordPanel | static/js/uiManager.js:185-192 | the panel is inactive with nothing pending; the current screen and everything else are unchanged |
| Ui.StatusClass | static/js/uiManager.js:371-458 | allowed gives status-ok, warning gives status-warning, and every other status gives status-denied |
| Ui.StatusClassOfDetermined | static/js/uiManager.js:371-458 | across the endpoint and the screen: denied exactly for an unauthorised member, a warning exactly for an authorised member with messages, ok otherwise |
| Ui.DisplayMemberInfo | static/js/uiManager.js:353-459 | the ad and poll timers are cleared and no longer live, other slots untouched; the member screen shows with the ads hidden and the status class set |
| Ui.Prepend | static/js/uiManager.js:286-351 | the new item comes first, then the old items in order, and the list is cut from the end to at most the bound |
| Ui.PrependLoop | static/js/uiManager.js:338-346 | inserting first and then removing the last item while over the bound gives exactly the bounded prepend |
| Ui.PrependScanItem | static/js/uiManager.js:286-351 | the recent-scan list becomes the bounded prepend and the placeholder is hidden; nothing else changes |
| Ui.RenderScanList | static/js/uiManager.js:532-541 | a missing or empty list shows the placeholder and no items; otherwise the items replace the list in order |
| Controller.StartTimer | static/js/timeManager.js:28-35 | starting a timer changes only the timer table, and keeps the controller invariant |
| Controller.ClearTimer | static/js/timeManager.js:12-21 | clearing a timer changes only the timer table, and keeps the controller invariant |
| Controller.HaltAds | static/js/app.js:418-423 | the halt stops and clears the rotation timer, hides the ads, marks the cycle stopped, and changes nothing else |
| Controller.AdDelay | static/js/app.js:455 | the delay is the ad's duration when non-zero, else the configured default when non-zero, else 15000; it is never zero |
| Controller.ShowNextAd | static/js/app.js:416-458 | it halts unless the mode is idle, ads are on and the list is non-empty; otherwise the index moves on with JavaScript's remainder and that ad shows with the rotation timer restarted at its delay; mode, password and list are untouched |
| Controller.RefreshAdList | static/js/app.js:387-414 | with ads off it halts; a fetched list replaces the old one, the index restarts at -1, and the rotation advances only in idle mode; a failed fetch empties the list and halts |
| Controller.RememberScan | static/js/app.js:49-70 | the last scan id and check-in take the reply's values when it supplies them; every other key is unchanged |
| Controller.ShowMember | static/js/app.js:79-101 | a new scan in idle mode shows the member with a live one-shot timer at the member timeout; polling and rotation are stopped |
| Controller.ListMember | static/js/app.js:102-105 | a new scan in list mode is prepended, bounded, to the recent-scan list; nothing else changes |
| Controller.DispatchScan | static/js/app.js:78-105 | a scan that is not new changes nothing; a new one never touches store or password, and changes the screen only to the member screen |
| Controller.HandleScanPoll | static/js/app.js:39-109 | nothing happens on the settings screen or when the fetch fails; otherwise the reply is recorded and, if new, dispatched by the persisted mode |
| Controller.EnsurePolling | static/js/app.js:89-92 | afterwards a poll timer is set; one already set is kept as is |
| Controller.MemberTimeout | static/js/app.js:82-101 | acts only while the member screen is current: shows idle, restarts polling if none is set, and advances the ads exactly when ads are on |
| Controller.ScanListArrived | static/js/app.js:111-122 | a fetched list is rendered; a failed fetch shows the placeholder and keeps the items |
| Controller.OpenSettings | static/js/app.js:124-133 | the settings screen shows with the ads hidden; poll, member, rotation and ad-refresh timers are all cleared; other timers, store and password are untouched |
| Controller.ResumeAds | static/js/app.js:145-162 | with ads on, the ad-list refresh restarts with the settings delay, and the rotation is stopped unless returning to idle; with ads off both ad timers are cleared and the ads halted |
| Controller.CloseSettings | static/js/app.js:135-163 | returns to the persisted mode's screen, ensures polling, then resumes or stops the ads |
| Controller.OpenPrompt | static/js/app.js:233-236 | the panel opens with the action pending and the password timeout restarts; nothing else changes |
| Controller.SaveFields | static/js/app.js:206-222 | language, city, country and ads flag take the given values; every other key is unchanged |
| Controller.SavePassword | static/js/app.js:229-252 | an empty typed password changes nothing; a typed one never changes store, screen or rotation |
| Controller.WithSettings | static/js/app.js:199-222 | the valid form's fields are saved and nothing but the store changes |
| Controller.SaveSettings | static/js/app.js:165-274 | an invalid form changes nothing; a valid one saves the fields and then handles the typed password |
| Controller.PerformModeToggle | static/js/app.js:276-293 | idle switches to list mode and screen with the toggle pressed; any other mode switches to idle with the toggle released; only the mode key changes in the store; password and panel are untouched |
| Controller.HandleToggleClick | static/js/app.js:295-305 | with no password set the toggle acts at once; with one set, mode, screen and store are unchanged, and the toggle prompt opens with a live password timeout |
| Controller.PerformPasswordRemoval | static/js/app.js:375-385 | afterwards no password is set, and only the password changes |
| Controller.ApplyStagedPassword | static/js/app.js:321-336 | a non-empty staged password becomes the stored one and staging is cleared; with nothing staged nothing changes |
| Controller.HandlePasswordConfirm | static/js/app.js:307-347 | a correct entry clears the timeout, hides the panel and runs the action pending before the hide; a wrong one restarts the timeout and changes nothing else |
| Controller.HandlePasswordCancel | static/js/app.js:356-360 | the panel is hidden with nothing pending and the timeout cleared; nothing else changes |
| Controller.HandlePasswordTimeout | static/js/app.js:362-367 | an active panel is hidden; nothing else changes |
| Controller.HandlePasswordInputActivity | static/js/app.js:369-373 | typing restarts the timeout only while the panel is active |
| Controller.HandleRemovePasswordClick | static/js/app.js:349-354 | the removal prompt opens, whether or not a password is set, and the password is untouched |
| Controller.StartClocks | static/js/app.js:473-475 | boot leaves the poll timer live at the poll interval |
| Controller.BootAds | static/js/app.js:480-485 | with ads off, boot starts no ad timer; in every case it never touches store, password or screen |
| Controller.Boot | static/js/app.js:461-488 | boot reaches a state that satisfies the controller invariant |
| Controller.Dispatch | static/js/app.js:39-458 | every handler an event runs keeps the controller invariant |
| Controller.Step | static/js/app.js:39-458 | a timer event whose handle is not live changes nothing; every event keeps the invariant |
| ControllerProps.RunKeepsInv | static/js/app.js:39-458 | every sequence of events keeps the invariant: well-formed timers, live repeating timers, an index inside the list, a filled rotation slot only while the cycle runs, and a pending action exactly while the panel is active |
| ControllerProps.BootedRunKeepsInv | static/js/app.js:461-488 | every run from boot keeps the invariant |
| ControllerProps.NoLeakedHandle | static/js/timeManager.js:28-35 | in every reachable state each live handle sits in a slot, so it can be cancelled |
| ControllerProps.ToggleTwiceRestoresMode | static/js/app.js:276-293 | two unlocked toggles restore the mode and its screen |
| ControllerProps.LockedToggleNeedsPassword | static/js/app.js:295-347 | with a password set, the toggle alone changes no mode; the correct password then flips it and closes the panel; a wrong one keeps the mode and the prompt |
| ControllerProps.RememberTwice | static/js/app.js:49-51 | recording the same reply twice is recording it once |
| ControllerProps.PollTwiceActsOnce | static/js/app.js:39-109 | the same reply polled twice acts once |
| ControllerProps.NewScanShowsMember | static/js/app.js:79-101 | in idle mode a new scan shows the member with the member timer live at the member timeout; polling and rotation are cleared; mode and panel are unchanged |
| ControllerProps.NewScanListed | static/js/app.js:102-105 | in list mode a new scan is prepended to the list; screen, timers and mode are unchanged |
| ControllerProps.ShowNextAdKeepsSpent | static/js/app.js:416-458 | advancing the ads never revives another timer's spent handle |
| ControllerProps.BackToIdlePolling | static/js/app.js:85-92 | returning to idle leaves the poll timer live and other spent timers spent |
| ControllerProps.MemberTimeoutReturns | static/js/app.js:82-101 | after the member timer fires: idle screen, polling live, the member timer spent, and the rotation running whenever the ads may advance |
| ControllerProps.MemberScreenReturns | static/js/app.js:82-101 | the same through the event step: a live member timer can fire and brings the kiosk back to polling idle |
| ControllerProps.SettingsFreezePage | static/js/app.js:124-133 | after opening settings, poll, member, rotation and ad-refresh ticks change nothing |
| ControllerProps.ResumeAdsKeepsLive | static/js/app.js:145-162 | resuming the ads never kills a live timer other than the two ad timers |
| ControllerProps.ResumeAdsOn | static/js/app.js:145-155 | with ads on, the ad-list refresh is live, and returning to idle with ads to show restarts the rotation |
| ControllerProps.ResumeAdsOff | static/js/app.js:156-162 | with ads off, both ad timers are cleared and the cycle is stopped |
| ControllerProps.CloseSettingsResumes | static/js/app.js:135-163 | closing settings shows the persisted mode's screen with polling live; the ad-list refresh is live when ads are on; the rotation runs in idle mode with ads to show, and is stopped in list mode or with ads off |
| ControllerProps.RefreshShowsFirst | static/js/app.js:399-406 | a fetched non-empty list in idle mode shows its first ad |
| ControllerProps.BootAdsAdvance | static/js/app.js:481-484 | after the boot refresh the second advance shows the second ad, and the ad-list refresh is live |
| ControllerProps.AdvanceFromFirst | static/js/app.js:416-458 | advancing from the first ad shows the second with its delay and keeps a live ad-list refresh |
| ControllerProps.BootAdsStartsAtSecond | static/js/app.js:480-485 | booting in idle mode with two or more ads starts the rotation at the second ad: the first is shown and at once replaced |
| ControllerProps.RefreshRunsOnce | static/js/app.js:387-412 | after an ad-list refresh tick the `adListRefresh` handle is spent and no further refresh tick can happen: the list is refreshed once per start |
| ControllerProps.ShowNextAdAdvances | static/js/app.js:434-457 | while the ads may advance, the index moves to the next one modulo the list length and the rotation timer runs at that ad's delay |
| ControllerProps.ShowNextAdKeepsLive | static/js/app.js:416-458 | advancing the ads never kills another timer's live handle |
| ControllerProps.IndexAfterWraps | static/js/app.js:437-439 | after n advances from -1 the index is n-1 modulo the list length |
| ControllerProps.ShowNextAdRotates | static/js/app.js:434-457 | one advance keeps the rotation running at the next index, with that ad's delay |
| ControllerProps.RotationIndex | static/js/app.js:416-458 | n advances from -1 keep the rotation running, at the index n advances reach |
| ControllerProps.RotationNext | static/js/app.js:416-458 | one more advance moves the rotation to the next index |
| ControllerProps.RotationOrder | static/js/app.js:416-458 | n advances from a fresh list show ad (n-1) modulo its length, with that ad's delay, so ads show in list order and wrap around |
| ControllerProps.TwoAdsAlternate | static/js/app.js:437-457 | with two ads, odd advances show the first ad at its duration and even advances the second at its own |
| PasswordFlows.ValidCityTrimmed | static/js/app.js:176-184 | a form that passes validation has a non-empty, trimmed city |
| PasswordFlows.ValidCountryUpper | static/js/app.js:177-192 | a form that passes validation has a country of two upper-case ASCII letters |
| PasswordFlows.SavedLocationNormalised | static/js/app.js:174-222 | an invalid form changes nothing; a valid one stores the trimmed city, the trimmed upper-cased country, the language and the ads flag, and no other key |
| PasswordFlows.FirstPasswordLocks | static/js/app.js:239-248 | with no password set, a typed password is set at once: it verifies, no other entry does, and no prompt opens |
| PasswordFlows.ChangeStagesPassword | static/js/app.js:230-238 | with a password set, a typed one is only staged: the stored secret is unchanged and the change prompt opens with a live timeout |
| PasswordFlows.ConfirmAppliesStaged | static/js/app.js:321-336 | confirming the change prompt makes the staged password the only one that verifies, clears staging and closes the panel |
| PasswordFlows.ChangePasswordFlow | static/js/app.js:229-336 | saving a new password and confirming with the current one makes the new one the only one that verifies |
| PasswordFlows.WrongPasswordKeepsCurrent | static/js/app.js:340-346 | a wrong entry keeps the password, the staging, the prompt, the store and the screen |
| PasswordFlows.RemovalUnlocks | static/js/app.js:349-385 | confirming removal leaves no password set, so nothing verifies and the next toggle acts at once |
| PasswordFlows.RemovalWithoutPasswordStaysOpen | static/js/app.js:349-354 | with no password set, the removal prompt still opens, and then no entry confirms it |
| MemberMessages.ImageExtensionOfTrimmed | api/utils.php:63 | on a trimmed prefix the `$` anchor means plain end of string |
| MemberMessages.ParseSingleMessage | api/utils.php:55-69 | without `;` the message is the trimmed text with no icon; an icon is trimmed, contains no `;` and ends in an image extension; the text is always trimmed; when the split happens is stated by `MemberMessages.ParseSplitsIcon` and `MemberMessages.ParseKeepsPlainSemicolon` |
| MemberMessages.ParseRoundTrip | api/utils.php:55-69 | joining a trimmed image name and a trimmed text with `;` parses back to exactly that icon and text |
| MemberMessages.ParseKeepsPlainSemicolon | api/utils.php:59-68 | when the part before the first `;` is not an image name, the whole trimmed string, `;` included, is the text |
| MemberMessages.ParseSplitsIcon | api/utils.php:59-66 | when the trimmed part before the first `;` is an image name, it becomes the icon and the trimmed rest becomes the text |
| MemberMessages.ParseExample | api/utils.php:55-69 | " warn.png ; Pay now " parses to the icon "warn.png" and the text "Pay now" |
| MemberMessages.QualifiesIffNonEmpty | api/utils.php:80-88 | a field is kept exactly when its trimmed text is not PHP-empty |
| MemberMessages.Contribution | api/utils.php:80-88 | a field gives no message when its trimmed text is PHP-empty, and otherwise gives its parse |
| MemberMessages.ExtractConcat | api/utils.php:77-91 | messages come out in field order |
| MemberMessages.ExtractBound | api/utils.php:77-91 | there are never more messages than fields, so at most 12 |
| MemberMessages.ExtractEmptyIff | api/utils.php:77-91 | there are no messages exactly when every field is missing or PHP-empty after trimming |
| MemberMessages.DetermineMemberStatus | api/utils.php:100-109 | denied exactly when not authorised; warning exactly when authorised with messages; allowed otherwise |
| MemberMessages.StatusWarningIff | api/utils.php:77-109 | an authorised member is in warning exactly when some message field is not empty |
| MemberMessages.BuildScanCheckResponse | api/utils.php:40-53 | update_found with data keeps every data field and adds the status; error adds the message, defaulting to "Unknown error", and the last scan id only when it is set; any other status gives the status alone |
| AdFeed.NumericOfDigits | api/get_ads.php:47 | a plain digit string is a numeric section name with its decimal value |
| AdFeed.DigitStringsCompare | api/get_ads.php:64 | two equal-length digit strings compare as their numbers, which is also their byte order |
| AdFeed.DateWindowByValue | api/get_ads.php:52-66 | for eight-digit dates, an ad is in its date window exactly when start ≤ today ≤ end |
| AdFeed.TimeBound | api/get_ads.php:57-61 | the time bound is always six characters: HHMMSS of the left-padded HHMMSSsss time |
| AdFeed.WrappedDayRange | api/get_ads.php:69-81 | a wrapped day range is the week minus the days strictly between its ends |
| AdFeed.FridayToMonday | api/get_ads.php:69-81 | a Friday-to-Monday range is active Friday, Saturday, Sunday and Monday |
| AdFeed.TypeOfExtension | api/get_ads.php:93-101 | jpg, jpeg, png, gif and svg are images; mp4, webm and ogg are videos; pdf is pdf; anything else is dropped |
| AdFeed.SectionAd | api/get_ads.php:45-113 | a section emits an ad exactly when it is eligible, active and of a known type; the ad has that type, the proxy source with the url-encoded trimmed name, and a duration of PAUSE × 1000 |
| AdFeed.UrlEncodeSafe | api/get_ads.php:104 | letters, digits, `-`, `_` and `.` pass through `urlencode` unchanged |
| AdFeed.UrlRoundTrip | api/get_ads.php:104 | decoding an ASCII name's `urlencode` gives the name back |
| AdFeed.GetAds | api/get_ads.php:21-35 | an unreadable file and an unparsable file give their two error replies |
| AdFeed.ActiveAdsMember | api/get_ads.php:45-117 | an ad is in the reply exactly when some section emits it |
| AdFeed.ActiveAdsOrder | api/get_ads.php:45-117 | the reply follows section order |
| AdFeed.ActiveAdsBound | api/get_ads.php:45-117 | there are never more ads than sections |
| AdImage.SanitizeNoControl | api/get_ad_image.php:12 | after sanitising no control character is left, newlines included |
| AdImage.SanitizePlain | api/get_ad_image.php:12 | sanitising leaves a plain name unchanged |
| AdImage.ContentTypeOf | api/get_ad_image.php:29-43 | exactly jpg, jpeg, png, gif and svg are accepted, with types image/jpeg, image/png, image/gif and image/svg+xml |
| AdImage.CheckName | api/get_ad_image.php:12-43 | an accepted name is the sanitised base name, free of traversal, of allowed characters only, with a whitelisted extension; a refusal is 400 or 415, and 415 exactly for a well-formed name with another extension |
| AdImage.NoNewlineInName | api/get_ad_image.php:22-26 | the pattern's end anchor would let a final newline through, but the sanitised name never holds one |
| AdImage.PlainNameChecked | api/get_ad_image.php:12-26 | a plain name passes the sanitising, the traversal test and the pattern unchanged |
| AdImage.PlainImageAccepted | api/get_ad_image.php:12-43 | a plain image name is accepted with its content type |
| AdImage.PlainOtherRefused | api/get_ad_image.php:29-42 | a plain name with another extension is refused with 415 |
| AdImage.ResolveAsWritten | api/get_ad_image.php:44-66 | as written, a file is sent only if both paths resolve and the resolved base is a prefix of the resolved file |
| AdImage.ServeAsWritten | api/get_ad_image.php:12-66 | as written, a missing parameter is a fatal error and a file is sent only for an accepted name |
| AdImage.AsWrittenEscapesDirectory | api/get_ad_image.php:44-55 | as written, with a base directory without a trailing slash and a file system on which the unseparated path exists, a plain image name is sent from outside that directory |
| AdImage.EscapeExample | api/get_ad_image.php:44-55 | with the directory "/srv/ads" on a file system where every path exists, the name "x.png" is sent as written as "/srv/adsx.png", outside the directory, and once corrected as "/srv/ads/x.png", inside it |
| AdImage.AsWrittenRefusesMissingJoin | api/get_ad_image.php:44-58 | as written, whenever the unseparated path does not exist, a valid image name is refused with 403 (`AdImage.AsWrittenRefusesMissingJoin`, against `AdImage.CorrectedServesExisting`) |
| AdImage.CorrectedServesExisting | api/get_ad_image.php:44-66 | corrected, an image that exists and is readable inside the directory is sent |
| AdImage.JoinPath | api/get_ad_image.php:44 | the joined path starts with the directory, with exactly one separator before the name |
| AdImage.Resolve | api/get_ad_image.php:44-66 | a file is sent only if it resolves to a readable file inside the resolved base directory, separator included |
| AdImage.Serve | api/get_ad_image.php:12-66 | a missing parameter is a fatal error; a file is sent only for an accepted name |
| AdImage.ServeStaysInside | api/get_ad_image.php:44-60 | every file served resolves inside the resolved base directory |
| AdImage.ServeKeepsExampleInside | api/get_ad_image.php:44-55 | on the same inputs where the code as written escapes, the joined path stays inside the directory |
| AdImage.NonImageAdsRefused | api/get_ad_image.php:29-42 | the pdf and video ads that the feed routes through this proxy are refused with 415 |
| AdImage.PdfExample | api/get_ad_image.php:29-42 | the feed's "x.pdf" is a plain pdf name and is refused with 415 |
| Values.JsOr | static/js/stateService.js:40-46 | the `or` fallback is truthy exactly when the stored value or the default is, and is always one of the two: the stored value when it is truthy, the default otherwise |
| Values.PhpIntStringRoundTrip | api/get_ads.php:54-55 | an integer written as a string and read back with `(int)` is the same integer |
| Text.TrimKeepsMiddle | static/js/app.js:176-177 | trimming keeps one contiguous stretch of the input; every character cut off before or after it is whitespace of the given class, and the stretch neither starts nor ends with one, so it runs from the first non-whitespace character to the last |
| Text.TrimIdempotent | static/js/app.js:176 | trimming twice is trimming once |
| Text.DecimalRoundTrip | static/js/stateService.js:61 | an integer's decimal string reads back as the integer |
| Text.DigitsOrder | api/get_ads.php:64 | on equal-length digit strings, the numeric order is the byte order |
| Text.PadLeft | api/get_ads.php:57-58 | padding keeps a long enough string, and otherwise fills to the width with the pad character and keeps the string as a suffix |
| Text.PhpBasename | api/get_ad_image.php:13 | the base name has no `/` and ends the path without its trailing slashes; it is either that whole path or is preceded in it by a `/`, so it is everything after the last slash |
| Text.PathExtension | api/get_ads.php:93 | the extension contains no `.` and no `/`, and a base name without `.` has the empty extension |
| Text.ExtensionAfterLastDot | api/get_ads.php:93 | when the base name holds a `.`, the extension ends the base name right after a `.`; as it holds no `.` itself, it is exactly what follows the last dot |

## Left out

- Network, database and HTTP:
  - the fetches become event inputs;
  - `getDbConnection` and `getMemberDetails`, and the query code of `check_scan.php` and `get_scan_list.php`, are not modelled;
  - the member row reaches `MemberMessages` as a map of values.
- DOM rendering: element creation, texts, translations and `loadTranslations`, weather, date and time formatting, focus, the fade timeouts and `displayAd`'s elements. Every element the handlers look up is taken to exist.
- Clocks, `realpath`, `is_file`, `is_readable`, `readfile` and the INI file are inputs:
  - the INI file is given as parsed sections;
  - `parse_ini_file`'s typed scanning is not modelled;
  - `(int)` reads leading digits only, so exponent and float forms are not modelled;
  - JSON encoding and response headers are left out.
- `btoa` is a parameter. The model assumes it is injective on Latin-1 text and yields Latin-1 text. Passwords are sequences of code points, not UTF-16 units.
- JavaScript numbers are integers. Floats, NaN and overflow are not modelled.
- `toUpperCase` and `strtolower` map ASCII letters only. Unicode case mappings such as ß → SS are not modelled.
- Two composite values are never compared by identity. A composite scan id compares by value.
- Timing:
  - boot, each poll and each refresh run to completion before the next event;
  - the interleavings the `await`s allow are not modelled;
  - timer delays are recorded but time itself is not modelled.
- The `quote`, `weather` and `dateTime` callbacks change nothing the model keeps.
- A reply with status `update_found` is taken to carry `stats`. Without it the source throws; that path is not modelled.
- The dead branch at `app.js:56-58` and the `!adConfig` branch at `app.js:443-450`:
  - the first cannot be reached and is not modelled;
  - the second can only be reached from a stored index below -1, which the invariant excludes, and is modelled as a halt.
- The `saveSettings` catch branch, the status messages and `setPassword`'s failure message are not modelled. The model's steps do not throw.
- `simulateScan` and the event-listener wiring at the end of `initializeApp` are not modelled.
- `Controller.SavePassword`: its contract states only the frame. What it does with a typed password is stated by `PasswordFlows.FirstPasswordLocks` and `PasswordFlows.ChangeStagesPassword`.
- `Controller.BootAds`, `Controller.Boot` and `Controller.Dispatch`: their contracts state the frame and the invariant. The ads at boot are stated by `ControllerProps.BootAdsStartsAtSecond`, and each handler by its own row.
- `AdFeed.GetAds`: its contract states the two error replies. The ads of a readable file are stated by `AdFeed.SectionAd` and `AdFeed.ActiveAdsMember`.

## Findings

| source | as written | input that shows it | evidently intended | confidence | as-written member | corrected member |
|---|---|---|---|---|---|---|
| static/js/app.js:60 | `Date(x) <= Date.now()` calls `Date` without `new`: it returns the current date as a string, which compares as NaN, so the guard is always false | scan id 100 checks in at 10:00, then again at 10:05; the second check-in is ignored | a past check-in under the same id counts as a new scan | high, not executed | ScanDedup.AsWrittenIgnoresRecheckIn | ScanDedup.IntendedGuardShowsRecheckIn |
| api/get_ad_image.php:44-55 | the file path is the base directory and the name concatenated with no separator; the prefix test uses the base without a separator | base "/srv/ads" and file "x.png": when a file "/srv/adsx.png" exists, it is sent, from outside the directory; on an ordinary file system where it does not, every image, "/srv/ads/x.png" included, is refused with 403 | the name is joined with a separator, and the prefix test includes it | high, not executed | AdImage.AsWrittenEscapesDirectory | AdImage.ServeStaysInside |
