/** The event handlers of the kiosk page, one pure transition each. An
    awaited fetch is one atomic step whose result is an input (None for a
    failed request); a timer callback runs only while the host still holds
    its handle. */
module Controller {
  import opened Text
  import opened Values
  import opened Timers
  import opened StateStore
  import opened Passwords
  import AdFeed
  import opened ScanDedup
  import opened KioskState
  import opened Ui

  /** `TimerManager.start(n, …, interval)` on the kiosk's table. */
  function StartTimer(k: Kiosk, n: Name, interval: int): (r: Kiosk)
    ensures r.timers == Start(k.timers, n, interval)
    ensures r.(timers := k.timers) == k
    ensures Inv(k) && (n != AdInterval || k.adCycleRunning) ==> Inv(r)
  {
    k.(timers := Start(k.timers, n, interval))
  }

  /** `TimerManager.clear(n)` on the kiosk's table. */
  function ClearTimer(k: Kiosk, n: Name): (r: Kiosk)
    ensures r.timers == Clear(k.timers, n)
    ensures r.(timers := k.timers) == k
    ensures Inv(k) ==> Inv(r)
  {
    k.(timers := Clear(k.timers, n))
  }

  // ---------------------------------------------------------------------
  // Ad rotation

  /** The three statements that stop the rotation: clear `adInterval`, hide
      the ads, mark the cycle stopped. */
  function HaltAds(k: Kiosk): (r: Kiosk)
    ensures !IsSet(r.timers, AdInterval) && !r.adsShown && !r.adCycleRunning
    ensures r.timers == Clear(k.timers, AdInterval)
    ensures r.(timers := k.timers, adsShown := k.adsShown, adCycleRunning := k.adCycleRunning) == k
    ensures Inv(k) ==> Inv(r)
  {
    HideAds(ClearTimer(k, AdInterval).(adCycleRunning := false))
  }

  /** `adConfig.duration || Config.adSettings.defaultDuration || 15000`:
      the first non-zero of the three, so never a zero delay. */
  function AdDelay(ad: AdFeed.Ad, cfg: Config): (d: int)
    ensures d != 0
    ensures ad.duration != 0 ==> d == ad.duration
    ensures ad.duration == 0 && cfg.defaultDuration != 0 ==> d == cfg.defaultDuration
    ensures ad.duration == 0 && cfg.defaultDuration == 0 ==> d == 15000
  {
    if ad.duration != 0 then ad.duration
    else if cfg.defaultDuration != 0 then cfg.defaultDuration
    else 15000
  }

  /** The rotation may advance: idle mode, ads enabled, a non-empty list. */
  predicate CanAdvance(k: Kiosk) {
    IsIdle(k) && AdsOn(k) && k.adList != []
  }

  /** `showNextAd()`: halts unless the rotation may advance; otherwise moves
      the index on by one with JavaScript's remainder and shows that ad,
      restarting `adInterval` with its delay. An index that lands outside
      the list (only from a negative stored index) halts after storing it. */
  function ShowNextAd(k: Kiosk, cfg: Config): (r: Kiosk)
    ensures !CanAdvance(k) ==> r == HaltAds(k)
    ensures CanAdvance(k) ==> r.adIndex == JsRem(k.adIndex + 1, |k.adList|)
    ensures CanAdvance(k) && 0 <= r.adIndex ==>
      && r.adIndex < |k.adList| && r.adCycleRunning && r.adsShown
      && r.timers == Start(k.timers, AdInterval, AdDelay(k.adList[r.adIndex], cfg))
    ensures CanAdvance(k) && k.adIndex >= -1 ==> r.adIndex == (k.adIndex + 1) % |k.adList|
    ensures r.store == k.store && r.vault == k.vault && r.screen == k.screen
    ensures r.adList == k.adList && r.panelActive == k.panelActive && r.pending == k.pending
    ensures r.scanList == k.scanList && r.togglePressed == k.togglePressed
    ensures Inv(k) ==> Inv(r)
  {
    if !CanAdvance(k) then HaltAds(k)
    else
      var index := JsRem(k.adIndex + 1, |k.adList|);
      if index < 0 then HaltAds(k.(adIndex := index))
      else
        k.(adCycleRunning := true, adIndex := index, adsShown := true,
           timers := Start(k.timers, AdInterval, AdDelay(k.adList[index], cfg)))
  }

  /** `refreshAdList()` with the fetch's result (None when the request fails
      or does not return an array): halts without fetching when ads are
      disabled; on success replaces the list, resets the index to -1 and
      advances when idle; on failure empties the list and halts. */
  function RefreshAdList(k: Kiosk, cfg: Config, result: Option<seq<AdFeed.Ad>>): (r: Kiosk)
    ensures !AdsOn(k) ==> r == HaltAds(k)
    ensures AdsOn(k) && result.Some? ==>
      var k1 := k.(adList := result.value, adIndex := -1);
      r == if IsIdle(k) then ShowNextAd(k1, cfg) else k1
    ensures AdsOn(k) && result.None? ==> r.adList == [] && !r.adCycleRunning && !IsSet(r.timers, AdInterval)
    ensures r.store == k.store && r.vault == k.vault && r.screen == k.screen
    ensures Inv(k) ==> Inv(r)
  {
    if !AdsOn(k) then HaltAds(k)
    else match result
      case Some(ads) =>
        var k1 := k.(adList := ads, adIndex := -1);
        if IsIdle(k1) then ShowNextAd(k1, cfg) else k1
      case None => HaltAds(k.(adList := []))
  }

  // ---------------------------------------------------------------------
  // Scan polling

  /** The store after remembering what a reply says to remember. */
  function RememberScan(s: Store, u: PollUpdate): (r: Store)
    ensures Get(r, LastScanId) == Remember(Get(s, LastScanId), u.setId)
    ensures Get(r, LastCheckIn) == Remember(Get(s, LastCheckIn), u.setCheckIn)
    ensures forall j :: j != LastScanId && j != LastCheckIn ==> Get(r, j) == Get(s, j)
  {
    var s1 := if u.setId.Some? then Set(s, LastScanId, u.setId.value) else s;
    if u.setCheckIn.Some? then Set(s1, LastCheckIn, u.setCheckIn.value) else s1
  }

  /** The reply's classification against the remembered id and check-in. */
  function PollNews(k: Kiosk, resp: ScanResponse, guard: bool): PollUpdate {
    Classify(Get(k.store, LastScanId), Get(k.store, LastCheckIn), resp, guard)
  }

  /** A new scan in idle mode: the member screen, and the one-shot
      `memberScreen` timer that returns from it. */
  function ShowMember(k: Kiosk, cfg: Config, resp: ScanResponse): (r: Kiosk)
    ensures r.screen == Member && r.memberData == Some(resp) && !r.adsShown
    ensures r.memberClass == StatusClass(resp.memberStatus)
    ensures IsLive(r.timers, MemberScreen) && r.timers.entries[MemberScreen].interval == cfg.memberScreenTimeout
    ensures !IsSet(r.timers, ScanPoll) && !IsSet(r.timers, AdInterval)
    ensures r.store == k.store && r.vault == k.vault && r.adList == k.adList && r.adIndex == k.adIndex
    ensures r.adCycleRunning == k.adCycleRunning && r.scanList == k.scanList
    ensures r.panelActive == k.panelActive && r.pending == k.pending
    ensures Inv(k) ==> Inv(r)
  {
    var k1 := DisplayMemberInfo(k.(memberData := Some(resp)), resp);
    StartTimer(k1, MemberScreen, cfg.memberScreenTimeout)
  }

  /** A new scan in list mode: the item at the head of the list. */
  function ListMember(k: Kiosk, cfg: Config, resp: ScanResponse): (r: Kiosk)
    ensures r.scanList == Prepend(resp, k.scanList, cfg.maxListItems) && r.memberData == Some(resp)
    ensures r.(scanList := k.scanList, noScansShown := k.noScansShown, memberData := k.memberData) == k
    ensures Inv(k) ==> Inv(r)
  {
    PrependScanItem(k.(memberData := Some(resp)), resp, cfg.maxListItems)
  }

  /** What a successful poll does once its reply is remembered, by the mode
      read after remembering. */
  function DispatchScan(k: Kiosk, cfg: Config, resp: ScanResponse, isNew: bool): (r: Kiosk)
    ensures !isNew ==> r == k
    ensures r.store == k.store && r.vault == k.vault
    ensures r.screen == Member || r.screen == k.screen
    ensures Inv(k) ==> Inv(r)
  {
    if IsIdle(k) && isNew then ShowMember(k, cfg, resp)
    else if IsList(k) && isNew then ListMember(k, cfg, resp)
    else k
  }

  /** `handleScanPoll()` with the poll's result and the value of the date
      guard: nothing while the settings screen is current or when the
      request fails; otherwise the reply's id and check-in are remembered,
      and a new scan is shown on the member screen (idle mode) or put at the
      head of the list (list mode). */
  function HandleScanPoll(k: Kiosk, cfg: Config, result: Option<ScanResponse>, guard: bool): (r: Kiosk)
    ensures k.screen == Settings || result.None? ==> r == k
    ensures k.screen != Settings && result.Some? ==>
      var u := PollNews(k, result.value, guard);
      r == DispatchScan(k.(store := RememberScan(k.store, u)), cfg, result.value, u.isNew)
    ensures Inv(k) ==> Inv(r)
  {
    if k.screen == Settings then k
    else match result
      case None => k
      case Some(resp) =>
        var u := PollNews(k, resp, guard);
        DispatchScan(k.(store := RememberScan(k.store, u)), cfg, resp, u.isNew)
  }

  /** Restarts the scan poll when its slot is empty. */
  function EnsurePolling(k: Kiosk, cfg: Config): (r: Kiosk)
    ensures IsSet(r.timers, ScanPoll)
    ensures IsSet(k.timers, ScanPoll) ==> r == k
    ensures !IsSet(k.timers, ScanPoll) ==> r == StartTimer(k, ScanPoll, cfg.scanPoll)
    ensures Inv(k) ==> Inv(r)
  {
    if !IsSet(k.timers, ScanPoll) then StartTimer(k, ScanPoll, cfg.scanPoll) else k
  }

  /** The `memberScreen` timer's callback: acts only while the member
      screen is still current; then shows the idle screen, restarts the scan
      poll when its slot is empty, and advances the ads when they are
      enabled. */
  function MemberTimeout(k: Kiosk, cfg: Config): (r: Kiosk)
    ensures k.screen != Member ==> r == k
    ensures k.screen == Member ==>
      var k1 := EnsurePolling(ShowScreen(k, Idle), cfg);
      r == if AdsOn(k) then ShowNextAd(k1, cfg) else k1
    ensures Inv(k) ==> Inv(r)
  {
    if k.screen != Member then k
    else
      var k1 := EnsurePolling(ShowScreen(k, Idle), cfg);
      if AdsOn(k1) then ShowNextAd(k1, cfg) else k1
  }

  /** The scan list fetched for list mode: its data (possibly null) or a
      failed request. */
  datatype ListFetch = ListOk(data: Option<seq<ScanResponse>>) | ListFailed

  /** `fetchAndRenderList()` once its request completes: render the data, or
      show the placeholder over the old list. */
  function ScanListArrived(k: Kiosk, result: ListFetch): (r: Kiosk)
    ensures result.ListOk? ==> r == RenderScanList(k, result.data)
    ensures result.ListFailed? ==> r.noScansShown && r.scanList == k.scanList
    ensures r.(scanList := k.scanList, noScansShown := k.noScansShown) == k
    ensures Inv(k) ==> Inv(r)
  {
    match result
    case ListOk(data) => RenderScanList(k, data)
    case ListFailed => k.(noScansShown := true)
  }

  // ---------------------------------------------------------------------
  // Settings

  /** `openSettings()`: shows the settings screen and stops the scan poll,
      the member timeout, the rotation and the list refresh. */
  function OpenSettings(k: Kiosk): (r: Kiosk)
    ensures r.screen == Settings && !r.adsShown
    ensures !IsSet(r.timers, ScanPoll) && !IsSet(r.timers, MemberScreen)
    ensures !IsSet(r.timers, AdInterval) && !IsSet(r.timers, AdListRefresh)
    ensures forall n :: n != ScanPoll && n != MemberScreen && n != AdInterval && n != AdListRefresh ==>
      (IsSet(r.timers, n) <==> IsSet(k.timers, n)) && (IsSet(k.timers, n) ==> r.timers.entries[n] == k.timers.entries[n])
    ensures r.store == k.store && r.vault == k.vault && r.adCycleRunning == k.adCycleRunning
    ensures Inv(k) ==> Inv(r)
  {
    var k1 := ShowScreen(k, Settings);
    HideAds(ClearTimer(ClearTimer(ClearTimer(ClearTimer(k1, ScanPoll), MemberScreen), AdInterval), AdListRefresh))
  }

  /** The screen of the persisted mode: `showScreen` is called with the
      stored value itself. */
  function ModeScreen(k: Kiosk): ScreenName {
    ScreenOf(JsToString(Mode(k)))
  }

  /** The ad part of `closeSettings()`: with ads enabled, start the list
      refresh and either advance the rotation (returning to idle mode) or
      stop it; with ads disabled, stop both ad timers. */
  function ResumeAds(k: Kiosk, cfg: Config, adsOn: bool, toIdle: bool): (r: Kiosk)
    ensures adsOn ==> AdListRefresh in r.timers.entries && r.timers.entries[AdListRefresh] == Handle(k.timers.nextId, cfg.settingsAdRefresh)
    ensures !adsOn ==> r == HaltAds(ClearTimer(k, AdListRefresh))
    ensures adsOn && !toIdle ==> !IsSet(r.timers, AdInterval) && !r.adCycleRunning
    ensures r.store == k.store && r.vault == k.vault && r.screen == k.screen
    ensures Inv(k) ==> Inv(r)
  {
    if adsOn then
      var k1 := StartTimer(k, AdListRefresh, cfg.settingsAdRefresh);
      if toIdle then ShowNextAd(k1, cfg) else HaltAds(k1)
    else
      HaltAds(ClearTimer(k, AdListRefresh))
  }

  /** `closeSettings()`: returns to the persisted mode's screen, makes sure
      the scan poll runs, and resumes or stops the ads. */
  function CloseSettings(k: Kiosk, cfg: Config): (r: Kiosk)
    ensures r == ResumeAds(EnsurePolling(ShowScreen(k, ModeScreen(k)), cfg), cfg, AdsOn(k), IsIdle(k))
    ensures Inv(k) ==> Inv(r)
  {
    ResumeAds(EnsurePolling(ShowScreen(k, ModeScreen(k)), cfg), cfg, AdsOn(k), IsIdle(k))
  }

  /** What the settings form holds when Save is pressed. */
  datatype SettingsInput = SettingsInput(language: string, adsOn: bool, city: string, country: string, newPassword: string)

  /** The city as saved: trimmed. */
  function CityInput(inp: SettingsInput): string {
    JsTrim(inp.city)
  }

  /** The country as saved: trimmed, then upper-cased. */
  function CountryInput(inp: SettingsInput): string {
    AsciiUpper(JsTrim(inp.country))
  }

  /** The form passes validation: a city, and a country of exactly two
      letters. */
  predicate SettingsValid(inp: SettingsInput) {
    var country := CountryInput(inp);
    && CityInput(inp) != ""
    && |country| == 2 && IsAsciiLetter(country[0]) && IsAsciiLetter(country[1])
  }

  /** The password prompt for `action`: the panel opens with the action
      pending and `passwordTimeout` starts. */
  function OpenPrompt(k: Kiosk, cfg: Config, action: Action): (r: Kiosk)
    ensures r.panelActive && r.pending == Some(action)
    ensures r.timers == Start(k.timers, PasswordTimeout, cfg.timeoutDuration)
    ensures r.(panelActive := k.panelActive, pending := k.pending, timers := k.timers) == k
    ensures Inv(k) ==> Inv(r)
  {
    var k1 := ShowPasswordPanel(k, action);
    StartTimer(k1, PasswordTimeout, cfg.timeoutDuration)
  }

  /** The four writes of a valid save, in order; the language is written
      only when it differs from the stored one. */
  function SaveFields(s: Store, language: Val, city: Val, country: Val, adsOn: Val): (r: Store)
    ensures Get(r, Language) == language && Get(r, WeatherCity) == city
    ensures Get(r, WeatherCountry) == country && Get(r, AdsEnabled) == adsOn
    ensures forall j :: j != Language && j != WeatherCity && j != WeatherCountry && j != AdsEnabled ==>
      Get(r, j) == Get(s, j)
  {
    var s1 := if Get(s, Language) != language then Set(s, Language, language) else s;
    Set(Set(Set(s1, WeatherCity, city), WeatherCountry, country), AdsEnabled, adsOn)
  }

  /** The store after a valid save of `inp`. */
  function SaveToStore(s: Store, inp: SettingsInput): Store {
    SaveFields(s, Str(inp.language), Str(CityInput(inp)), Str(CountryInput(inp)), Bool(inp.adsOn))
  }

  /** The password branch of a valid save: a typed password is staged
      behind the `change_password` prompt when one is already set, and set
      directly otherwise. */
  function SavePassword(k: Kiosk, cfg: Config, enc: string -> string, typed: string): (r: Kiosk)
    ensures typed == "" ==> r == k
    ensures r.store == k.store && r.screen == k.screen && r.adCycleRunning == k.adCycleRunning
    ensures Inv(k) ==> Inv(r)
  {
    if typed == "" then k
    else if IsPasswordSet(k.vault) then
      OpenPrompt(k.(vault := StoreAttempt(k.vault, typed)), cfg, ChangePassword)
    else
      k.(vault := SetPassword(enc, k.vault, Passwords.Text(typed)).0)
  }

  /** The kiosk with the form's fields saved. */
  function WithSettings(k: Kiosk, inp: SettingsInput): (r: Kiosk)
    ensures r.store == SaveToStore(k.store, inp)
    ensures r.(store := k.store) == k
    ensures Inv(k) ==> Inv(r)
  {
    k.(store := SaveToStore(k.store, inp))
  }

  /** `saveSettings()` without its texts: an invalid form changes nothing;
      a valid one saves its fields and then handles a typed password. */
  function SaveSettings(k: Kiosk, cfg: Config, enc: string -> string, inp: SettingsInput): (r: Kiosk)
    ensures !SettingsValid(inp) ==> r == k
    ensures SettingsValid(inp) ==> r == SavePassword(WithSettings(k, inp), cfg, enc, inp.newPassword)
    ensures Inv(k) ==> Inv(r)
  {
    if !SettingsValid(inp) then k
    else SavePassword(WithSettings(k, inp), cfg, enc, inp.newPassword)
  }

  // ---------------------------------------------------------------------
  // Mode toggle and password prompt

  /** A toggle goes to list mode from idle mode, and to idle mode from any
      other. */
  predicate TogglesToList(k: Kiosk) {
    IsIdle(k)
  }

  /** `performModeToggle()`: persists and shows the other mode; into list
      mode it stops the rotation, into idle mode it starts it when ads are
      enabled and the cycle is not already marked running. */
  function PerformModeToggle(k: Kiosk, cfg: Config): (r: Kiosk)
    ensures TogglesToList(k) ==> IsList(r) && r.screen == List && r.togglePressed
    ensures !TogglesToList(k) ==> IsIdle(r) && r.screen == Idle && !r.togglePressed
    ensures forall j :: j != ScreenDisplay ==> Get(r.store, j) == Get(k.store, j)
    ensures r.vault == k.vault && r.panelActive == k.panelActive && r.pending == k.pending
    ensures Inv(k) ==> Inv(r)
  {
    var toList := TogglesToList(k);
    var k1 := k.(store := Set(k.store, ScreenDisplay, Str(if toList then "list" else "idle")));
    var k2 := ShowScreen(k1, if toList then List else Idle);
    if toList then HaltAds(k2)
    else if AdsOn(k2) && !k2.adCycleRunning then ShowNextAd(k2, cfg)
    else k2
  }

  /** `handleToggleClick()`: toggles directly without a lock password,
      otherwise opens the prompt for `toggle`. */
  function HandleToggleClick(k: Kiosk, cfg: Config): (r: Kiosk)
    ensures !IsPasswordSet(k.vault) ==> r == PerformModeToggle(k, cfg)
    ensures IsPasswordSet(k.vault) ==>
      && Mode(r) == Mode(k) && r.screen == k.screen && r.store == k.store
      && r.panelActive && r.pending == Some(Toggle)
      && IsLive(r.timers, PasswordTimeout) && r.timers.entries[PasswordTimeout].interval == cfg.timeoutDuration
    ensures Inv(k) ==> Inv(r)
  {
    if !IsPasswordSet(k.vault) then PerformModeToggle(k, cfg)
    else OpenPrompt(k, cfg, Toggle)
  }

  /** `performPasswordRemoval()`. */
  function PerformPasswordRemoval(k: Kiosk): (r: Kiosk)
    ensures !IsPasswordSet(r.vault) && r.vault.staged == k.vault.staged
    ensures r.(vault := k.vault) == k
    ensures Inv(k) ==> Inv(r)
  {
    k.(vault := RemovePassword(k.vault))
  }

  /** The `change_password` branch: a truthy staged password is set and the
      staging cleared; with nothing staged nothing changes. */
  function ApplyStagedPassword(k: Kiosk, enc: string -> string): (r: Kiosk)
    ensures k.vault.staged.Some? && k.vault.staged.value != "" ==>
      r.vault == ClearAttempt(SetPassword(enc, k.vault, Passwords.Text(k.vault.staged.value)).0)
    ensures !(k.vault.staged.Some? && k.vault.staged.value != "") ==> r == k
    ensures r.(vault := k.vault) == k
    ensures Inv(k) ==> Inv(r)
  {
    match k.vault.staged
    case Some(p) =>
      if p != "" then k.(vault := ClearAttempt(SetPassword(enc, k.vault, Passwords.Text(p)).0)) else k
    case None => k
  }

  /** The action a confirmed password runs, from the panel already hidden. */
  function RunAction(k: Kiosk, cfg: Config, enc: string -> string, action: Option<Action>): (r: Kiosk)
    ensures Inv(k) ==> Inv(r)
  {
    match action
    case Some(Toggle) => PerformModeToggle(k, cfg)
    case Some(Remove) => PerformPasswordRemoval(k)
    case Some(ChangePassword) => ApplyStagedPassword(k, enc)
    case None => k
  }

  /** `handlePasswordConfirm()` with the entered text: a correct password
      stops `passwordTimeout`, hides the panel and runs the action that was
      pending before hiding; a wrong one leaves the panel open and restarts
      `passwordTimeout`. */
  function HandlePasswordConfirm(k: Kiosk, cfg: Config, enc: string -> string, entered: Option<string>): (r: Kiosk)
    ensures VerifyPassword(enc, k.vault, entered) ==>
      r == RunAction(HidePasswordPanel(ClearTimer(k, PasswordTimeout)), cfg, enc, k.pending)
    ensures !VerifyPassword(enc, k.vault, entered) ==>
      r == StartTimer(k, PasswordTimeout, cfg.timeoutDuration)
    ensures Inv(k) ==> Inv(r)
  {
    var pendingAction := k.pending;
    if VerifyPassword(enc, k.vault, entered) then
      RunAction(HidePasswordPanel(ClearTimer(k, PasswordTimeout)), cfg, enc, pendingAction)
    else
      StartTimer(k, PasswordTimeout, cfg.timeoutDuration)
  }

  /** `handlePasswordCancel()`. */
  function HandlePasswordCancel(k: Kiosk): (r: Kiosk)
    ensures !r.panelActive && r.pending.None? && !IsSet(r.timers, PasswordTimeout)
    ensures r.(panelActive := k.panelActive, pending := k.pending, timers := k.timers) == k
    ensures Inv(k) ==> Inv(r)
  {
    HidePasswordPanel(ClearTimer(k, PasswordTimeout))
  }

  /** The `passwordTimeout` callback: hides an open panel. */
  function HandlePasswordTimeout(k: Kiosk): (r: Kiosk)
    ensures !r.panelActive && r.pending == (if k.panelActive then None else k.pending)
    ensures r.(panelActive := k.panelActive, pending := k.pending) == k
    ensures Inv(k) ==> Inv(r)
  {
    if k.panelActive then HidePasswordPanel(k) else k
  }

  /** `handlePasswordInputActivity()`: typing in an open panel restarts
      `passwordTimeout`. */
  function HandlePasswordInputActivity(k: Kiosk, cfg: Config): (r: Kiosk)
    ensures k.panelActive ==> r == StartTimer(k, PasswordTimeout, cfg.timeoutDuration)
    ensures !k.panelActive ==> r == k
    ensures Inv(k) ==> Inv(r)
  {
    if k.panelActive then StartTimer(k, PasswordTimeout, cfg.timeoutDuration) else k
  }

  /** `handleRemovePasswordClick()`: opens the prompt for `remove`, whether
      or not a password is set. */
  function HandleRemovePasswordClick(k: Kiosk, cfg: Config): (r: Kiosk)
    ensures r == OpenPrompt(k, cfg, Remove)
    ensures r.panelActive && r.pending == Some(Remove) && r.vault == k.vault
    ensures Inv(k) ==> Inv(r)
  {
    OpenPrompt(k, cfg, Remove)
  }

  // ---------------------------------------------------------------------
  // Boot and events

  /** The kiosk before `initializeApp()` runs: no timers, nothing pending,
      an empty ad list at index -1. The state service's initial
      `currentScreen` is read by no handler before boot's last `showScreen`,
      so any screen serves here. */
  function Blank(s: Store, v: Vault): (r: Kiosk)
    ensures Inv(r)
  {
    Kiosk(s, Empty, v, Idle, false, None, [], -1, false, false, None, "", [], false, false)
  }

  /** The lock password as the password service reads it from local storage. */
  function StoredPassword(storage: map<string, string>): Option<string> {
    if PasswordStorageKey in storage then Some(storage[PasswordStorageKey]) else None
  }

  /** The three repeating timers boot starts: clock, weather, scan poll. */
  function StartClocks(k: Kiosk, cfg: Config): (r: Kiosk)
    ensures IsLive(r.timers, ScanPoll) && r.timers.entries[ScanPoll].interval == cfg.scanPoll
    ensures r.(timers := k.timers) == k
    ensures Inv(k) ==> Inv(r)
  {
    StartTimer(StartTimer(StartTimer(k, DateTime, cfg.dateTime), Weather, cfg.weatherRefresh), ScanPoll, cfg.scanPoll)
  }

  /** The ad part of `initializeApp()`: with ads enabled, the list is fetched
      (which advances the rotation in idle mode), the refresh is started, and
      the rotation advances once more in idle mode. */
  function BootAds(k: Kiosk, cfg: Config, ads: Option<seq<AdFeed.Ad>>): (r: Kiosk)
    ensures !AdsOn(k) ==> r == k
    ensures r.store == k.store && r.vault == k.vault && r.screen == k.screen
    ensures Inv(k) ==> Inv(r)
  {
    if AdsOn(k) then
      var k1 := RefreshAdList(k, cfg, ads);
      var k2 := StartTimer(k1, AdListRefresh, cfg.adsRefresh);
      if IsIdle(k2) then ShowNextAd(k2, cfg) else k2
    else k
  }

  /** `initializeApp()` with local storage's contents, the configured
      defaults and the result of the ad fetch: the state is loaded, the
      clock, weather and scan poll timers start, the ads start when
      enabled, and the persisted mode's screen is shown. The translations
      and the first weather fetch are left out; the scan list that list
      mode fetches arrives later as its own event. */
  function Boot(storage: map<string, string>, d: Defaults, cfg: Config, ads: Option<seq<AdFeed.Ad>>): (r: Kiosk)
    ensures Inv(r)
  {
    var k0 := Blank(Initialize(Store(map[], storage), d), Vault(StoredPassword(storage), None));
    var k1 := BootAds(StartClocks(k0, cfg), cfg, ads);
    ShowScreen(k1, ModeScreen(k1))
  }

  /** What can happen to a running kiosk: a timer firing (with the result
      of the request its callback awaits, where it has one), a completed
      scan-list request, or a click or keystroke. */
  datatype Event =
    | PollTick(poll: Option<ScanResponse>, guard: bool)
    | MemberScreenTick
    | PasswordTimeoutTick
    | AdTick
    | AdRefreshTick(ads: Option<seq<AdFeed.Ad>>)
    | ClockTick
    | WeatherTick
    | ScanListArrives(list: ListFetch)
    | OpenSettingsClick
    | CloseSettingsClick
    | SaveClick(form: SettingsInput)
    | ToggleClick
    | ConfirmClick(entered: Option<string>)
    | CancelClick
    | PasswordTyped
    | RemovePasswordClick

  /** The timer whose callback an event is. */
  function TimerOf(e: Event): Option<Name> {
    match e
    case PollTick(_, _) => Some(ScanPoll)
    case MemberScreenTick => Some(MemberScreen)
    case PasswordTimeoutTick => Some(PasswordTimeout)
    case AdTick => Some(AdInterval)
    case AdRefreshTick(_) => Some(AdListRefresh)
    case ClockTick => Some(DateTime)
    case WeatherTick => Some(Weather)
    case _ => None
  }

  /** A timer event happens only while its slot holds a live handle: a
      cancelled or spent handle never fires. Other events can always
      happen. */
  predicate Enabled(k: Kiosk, e: Event) {
    TimerOf(e).Some? ==> IsLive(k.timers, TimerOf(e).value)
  }

  /** The handler an event runs, on the table after the host has fired the
      timer (spending a one-shot handle). The clock and weather callbacks
      change nothing the model keeps. */
  function Dispatch(k: Kiosk, cfg: Config, enc: string -> string, e: Event): (r: Kiosk)
    ensures Inv(k) ==> Inv(r)
  {
    match e
    case PollTick(poll, guard) => HandleScanPoll(k, cfg, poll, guard)
    case MemberScreenTick => MemberTimeout(k, cfg)
    case PasswordTimeoutTick => HandlePasswordTimeout(k)
    case AdTick => ShowNextAd(k, cfg)
    case AdRefreshTick(ads) => RefreshAdList(k, cfg, ads)
    case ClockTick => k
    case WeatherTick => k
    case ScanListArrives(list) => ScanListArrived(k, list)
    case OpenSettingsClick => OpenSettings(k)
    case CloseSettingsClick => CloseSettings(k, cfg)
    case SaveClick(form) => SaveSettings(k, cfg, enc, form)
    case ToggleClick => HandleToggleClick(k, cfg)
    case ConfirmClick(entered) => HandlePasswordConfirm(k, cfg, enc, entered)
    case CancelClick => HandlePasswordCancel(k)
    case PasswordTyped => HandlePasswordInputActivity(k, cfg)
    case RemovePasswordClick => HandleRemovePasswordClick(k, cfg)
  }

  /** One step of the page: an enabled event fires its timer and runs its
      handler; an event that is not enabled does not happen. */
  function Step(k: Kiosk, cfg: Config, enc: string -> string, e: Event): (r: Kiosk)
    ensures !Enabled(k, e) ==> r == k
    ensures Inv(k) ==> Inv(r)
  {
    if !Enabled(k, e) then k
    else
      var fired := match TimerOf(e) case Some(n) => Fire(k.timers, n) case None => k.timers;
      Dispatch(k.(timers := fired), cfg, enc, e)
  }

  /** The kiosk after a sequence of events. */
  function Run(k: Kiosk, cfg: Config, enc: string -> string, events: seq<Event>): Kiosk
    decreases |events|
  {
    if events == [] then k else Run(Step(k, cfg, enc, events[0]), cfg, enc, events[1..])
  }
}
