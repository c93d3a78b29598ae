/** Properties of the kiosk controller across handlers and event
    sequences: the invariant every reachable state keeps, the mode toggle
    and its password gate, the settings screen freezing and resuming the
    page, the scan poll's deduplication, the ad rotation's order, and the
    password flows. */
module ControllerProps {
  import opened Text
  import opened Values
  import opened Timers
  import opened StateStore
  import opened Passwords
  import AdFeed
  import opened ScanDedup
  import opened KioskState
  import opened Ui
  import opened Controller

  // ---------------------------------------------------------------------
  // Reachable states

  /** Every state an event sequence reaches from a state satisfying the
      invariant satisfies it: timer slots stay well formed (so no live
      handle is ever left without a slot that can cancel it), the ad index
      stays in range and the panel flags agree. */
  lemma {:induction false} RunKeepsInv(k: Kiosk, cfg: Config, enc: string -> string, events: seq<Event>)
    requires Inv(k)
    ensures Inv(Run(k, cfg, enc, events))
    decreases |events|
  {
    if events != [] {
      RunKeepsInv(Step(k, cfg, enc, events[0]), cfg, enc, events[1..]);
    }
  }

  /** Every state reachable from boot satisfies the invariant. */
  lemma BootedRunKeepsInv(storage: map<string, string>, d: Defaults, cfg: Config,
                          ads: Option<seq<AdFeed.Ad>>, enc: string -> string, events: seq<Event>)
    ensures Inv(Run(Boot(storage, d, cfg, ads), cfg, enc, events))
  {
    RunKeepsInv(Boot(storage, d, cfg, ads), cfg, enc, events);
  }

  /** In a reachable state every handle the host would still fire sits in
      exactly the slot of one timer name. */
  lemma NoLeakedHandle(k: Kiosk, h: nat)
    requires Inv(k) && h in k.timers.live
    ensures exists n :: n in k.timers.entries && k.timers.entries[n].id == h
  {
    assert h in Ids(k.timers);
  }

  // ---------------------------------------------------------------------
  // Mode toggle

  /** Two toggles from idle or list mode come back to the same mode and
      screen. */
  lemma ToggleTwiceRestoresMode(k: Kiosk, cfg: Config)
    requires IsIdle(k) || IsList(k)
    ensures var r := PerformModeToggle(PerformModeToggle(k, cfg), cfg);
      Mode(r) == Mode(k) && r.screen == (if IsIdle(k) then Idle else List)
  {
  }

  /** With a lock password set, a toggle click changes nothing but opening
      the prompt; confirming with the right password then toggles, and a
      wrong one leaves the mode and the open prompt as they were. */
  lemma LockedToggleNeedsPassword(k: Kiosk, cfg: Config, enc: string -> string, entered: Option<string>)
    requires IsPasswordSet(k.vault)
    ensures var p := HandleToggleClick(k, cfg);
      && Mode(p) == Mode(k) && p.screen == k.screen && p.panelActive && p.pending == Some(Toggle)
      && (VerifyPassword(enc, k.vault, entered) ==>
            var r := HandlePasswordConfirm(p, cfg, enc, entered);
            Mode(r) == Str(if IsIdle(k) then "list" else "idle") && !r.panelActive)
      && (!VerifyPassword(enc, k.vault, entered) ==>
            var r := HandlePasswordConfirm(p, cfg, enc, entered);
            Mode(r) == Mode(k) && r.panelActive && r.pending == Some(Toggle))
  {
    var p := HandleToggleClick(k, cfg);
    assert p.vault == k.vault;
    if VerifyPassword(enc, k.vault, entered) {
      var h := HidePasswordPanel(ClearTimer(p, PasswordTimeout));
      assert Mode(h) == Mode(k);
      assert HandlePasswordConfirm(p, cfg, enc, entered) == PerformModeToggle(h, cfg);
    }
  }

  // ---------------------------------------------------------------------
  // Scan polling

  /** Remembering the same reply twice remembers it once. */
  lemma RememberTwice(s: Store, u: PollUpdate)
    ensures RememberScan(RememberScan(s, u), u) == RememberScan(s, u)
  {
    if u.setId.Some? {
      var t := Set(s, LastScanId, u.setId.value);
      SetOverwrite(s, LastScanId, u.setId.value, u.setId.value);
      if u.setCheckIn.Some? {
        SetCommutes(t, LastScanId, u.setId.value, LastCheckIn, u.setCheckIn.value);
        SetOverwrite(t, LastCheckIn, u.setCheckIn.value, u.setCheckIn.value);
      }
    } else if u.setCheckIn.Some? {
      SetOverwrite(s, LastCheckIn, u.setCheckIn.value, u.setCheckIn.value);
    }
  }

  /** The same reply polled twice acts once: the second poll finds its id
      and check-in remembered, shows nothing and changes nothing, whatever
      the date guard says either time. */
  lemma PollTwiceActsOnce(k: Kiosk, cfg: Config, resp: ScanResponse, g1: bool, g2: bool)
    ensures var r1 := HandleScanPoll(k, cfg, Some(resp), g1);
      HandleScanPoll(r1, cfg, Some(resp), g2) == r1
  {
    if k.screen != Settings {
      var u := PollNews(k, resp, g1);
      var s1 := RememberScan(k.store, u);
      var r1 := DispatchScan(k.(store := s1), cfg, resp, u.isNew);
      assert r1.store == s1 && r1.screen != Settings;
      var u2 := PollNews(r1, resp, g2);
      RepeatIsNotNew(Get(k.store, LastScanId), Get(k.store, LastCheckIn), resp, g1, g2);
      RememberedFromReply(Get(k.store, LastScanId), Get(k.store, LastCheckIn), Get(s1, LastScanId), Get(s1, LastCheckIn), resp, g1, g2);
      RememberTwice(k.store, u);
      assert RememberScan(s1, u2) == s1;
    }
  }

  /** A new scan in idle mode shows the member on the member screen, stops
      the scan poll and the rotation, and leaves a live one-shot timer for
      the configured time; the mode and the password panel are untouched. */
  lemma NewScanShowsMember(k: Kiosk, cfg: Config, resp: ScanResponse, guard: bool)
    requires Inv(k) && k.screen != Settings && IsIdle(k) && PollNews(k, resp, guard).isNew
    ensures var r := HandleScanPoll(k, cfg, Some(resp), guard);
      && r.screen == Member && r.memberData == Some(resp) && !r.adsShown
      && IsLive(r.timers, MemberScreen) && r.timers.entries[MemberScreen].interval == cfg.memberScreenTimeout
      && !IsSet(r.timers, ScanPoll) && !IsSet(r.timers, AdInterval)
      && Mode(r) == Mode(k) && r.panelActive == k.panelActive && r.pending == k.pending
  {
    var u := PollNews(k, resp, guard);
    var k1 := k.(store := RememberScan(k.store, u));
    assert Mode(k1) == Mode(k);
  }

  /** A new scan in list mode goes to the head of the recent-scan list,
      which stays within the configured length; the screen is untouched. */
  lemma NewScanListed(k: Kiosk, cfg: Config, resp: ScanResponse, guard: bool)
    requires k.screen != Settings && IsList(k) && PollNews(k, resp, guard).isNew
    ensures var r := HandleScanPoll(k, cfg, Some(resp), guard);
      && r.scanList == Prepend(resp, k.scanList, cfg.maxListItems) && !r.noScansShown
      && r.screen == k.screen && r.timers == k.timers && Mode(r) == Mode(k)
  {
    var u := PollNews(k, resp, guard);
    var k1 := k.(store := RememberScan(k.store, u));
    assert Mode(k1) == Mode(k);
  }

  /** `showNextAd` never revives another timer's spent handle. */
  lemma ShowNextAdKeepsSpent(k: Kiosk, cfg: Config, m: Name)
    requires Inv(k) && m != AdInterval && m in k.timers.entries && !IsLive(k.timers, m)
    ensures !IsLive(ShowNextAd(k, cfg).timers, m)
  {
    if CanAdvance(k) {
      var i := JsRem(k.adIndex + 1, |k.adList|);
      if i >= 0 {
        OtherStaysSpent(k.timers, AdInterval, m, AdDelay(k.adList[i], cfg));
      } else {
        OtherStaysSpent(k.timers, AdInterval, m, 0);
      }
    } else {
      OtherStaysSpent(k.timers, AdInterval, m, 0);
    }
  }

  /** The idle screen with the scan poll made sure of keeps the live and
      the spent handles of the other timers. */
  lemma BackToIdlePolling(k: Kiosk, cfg: Config, m: Name)
    requires Inv(k) && m != ScanPoll && m in k.timers.entries && !IsLive(k.timers, m)
    ensures var k1 := EnsurePolling(ShowScreen(k, Idle), cfg);
      && Inv(k1) && k1.screen == Idle && IsLive(k1.timers, ScanPoll) && !IsLive(k1.timers, m)
      && k1.store == k.store && k1.adList == k.adList
  {
    if !IsSet(k.timers, ScanPoll) {
      OtherStaysSpent(k.timers, ScanPoll, m, cfg.scanPoll);
    }
  }

  /** The member timer's callback on the member screen, after its handle
      is spent: back to the idle screen with a live scan poll, the rotation
      resumed when it may, and the member timer not live. */
  lemma MemberTimeoutReturns(k: Kiosk, cfg: Config)
    requires Inv(k) && k.screen == Member && MemberScreen in k.timers.entries && !IsLive(k.timers, MemberScreen)
    ensures var r := MemberTimeout(k, cfg);
      && r.screen == Idle && IsLive(r.timers, ScanPoll) && !IsLive(r.timers, MemberScreen)
      && (CanAdvance(k) ==> IsLive(r.timers, AdInterval) && r.adsShown)
  {
    var k1 := EnsurePolling(ShowScreen(k, Idle), cfg);
    BackToIdlePolling(k, cfg, MemberScreen);
    if AdsOn(k) {
      ShowNextAdKeepsLive(k1, cfg, ScanPoll);
      ShowNextAdKeepsSpent(k1, cfg, MemberScreen);
      if CanAdvance(k) {
        ShowNextAdAdvances(k1, cfg);
      }
    }
  }

  /** When the member timer fires on the member screen, the idle screen
      comes back with a live scan poll, the rotation resumes when it may,
      and the spent member timer does not fire again. */
  lemma MemberScreenReturns(k: Kiosk, cfg: Config, enc: string -> string)
    requires Inv(k) && k.screen == Member && IsLive(k.timers, MemberScreen)
    ensures Enabled(k, MemberScreenTick)
    ensures var r := Step(k, cfg, enc, MemberScreenTick);
      && r.screen == Idle && IsLive(r.timers, ScanPoll) && !IsLive(r.timers, MemberScreen)
      && (CanAdvance(k) ==> IsLive(r.timers, AdInterval) && r.adsShown)
  {
    var k0 := k.(timers := Fire(k.timers, MemberScreen));
    assert Inv(k0) && !IsLive(k0.timers, MemberScreen);
    MemberTimeoutReturns(k0, cfg);
    assert Dispatch(k0, cfg, enc, MemberScreenTick) == MemberTimeout(k0, cfg);
  }

  // ---------------------------------------------------------------------
  // Settings

  /** Once the settings screen is open, no scan poll, member timeout, ad
      change or ad-list refresh can fire: each such event leaves the page
      as it is. */
  lemma SettingsFreezePage(k: Kiosk, cfg: Config, enc: string -> string, e: Event)
    requires e.PollTick? || e.MemberScreenTick? || e.AdTick? || e.AdRefreshTick?
    ensures Step(OpenSettings(k), cfg, enc, e) == OpenSettings(k)
  {
    var s := OpenSettings(k);
    assert TimerOf(e).Some? && !IsLive(s.timers, TimerOf(e).value);
  }

  /** Resuming the ads keeps every other timer's live handle. */
  lemma ResumeAdsKeepsLive(k: Kiosk, cfg: Config, adsOn: bool, toIdle: bool, m: Name)
    requires Inv(k) && m != AdInterval && m != AdListRefresh && IsLive(k.timers, m)
    ensures IsLive(ResumeAds(k, cfg, adsOn, toIdle).timers, m)
  {
    if adsOn {
      var k1 := StartTimer(k, AdListRefresh, cfg.settingsAdRefresh);
      OtherStaysLive(k.timers, AdListRefresh, m, cfg.settingsAdRefresh);
      if toIdle {
        ShowNextAdKeepsLive(k1, cfg, m);
      } else {
        OtherStaysLive(k1.timers, AdInterval, m, 0);
      }
    } else {
      OtherStaysLive(k.timers, AdListRefresh, m, 0);
      OtherStaysLive(Clear(k.timers, AdListRefresh), AdInterval, m, 0);
    }
  }

  /** With ads enabled, resuming leaves a live list refresh, and going back
      to idle mode with ads to show leaves a live rotation on screen. */
  lemma ResumeAdsOn(k: Kiosk, cfg: Config, toIdle: bool)
    requires Inv(k)
    ensures var r := ResumeAds(k, cfg, true, toIdle);
      && IsLive(r.timers, AdListRefresh)
      && (toIdle && CanAdvance(k) ==> IsLive(r.timers, AdInterval) && r.adsShown && r.adCycleRunning)
  {
    var k1 := StartTimer(k, AdListRefresh, cfg.settingsAdRefresh);
    if toIdle {
      ShowNextAdKeepsLive(k1, cfg, AdListRefresh);
      if CanAdvance(k) {
        assert CanAdvance(k1);
        ShowNextAdAdvances(k1, cfg);
      }
    } else {
      OtherStaysLive(k1.timers, AdInterval, AdListRefresh, 0);
    }
  }

  /** With ads disabled, resuming leaves neither ad timer set and the
      rotation stopped. */
  lemma ResumeAdsOff(k: Kiosk, cfg: Config, toIdle: bool)
    ensures var r := ResumeAds(k, cfg, false, toIdle);
      !IsSet(r.timers, AdInterval) && !IsSet(r.timers, AdListRefresh) && !r.adCycleRunning
  {
  }

  /** Closing the settings screen shows the persisted mode's screen, leaves
      a live scan poll, and with ads enabled a live list refresh and, in
      idle mode with ads to show, a live rotation; with ads disabled no ad
      timer remains. */
  lemma CloseSettingsResumes(k: Kiosk, cfg: Config)
    requires Inv(k)
    ensures var r := CloseSettings(k, cfg);
      && r.screen == ModeScreen(k) && IsLive(r.timers, ScanPoll)
      && (AdsOn(k) ==> IsLive(r.timers, AdListRefresh))
      && (CanAdvance(k) ==> IsLive(r.timers, AdInterval) && r.adsShown && r.adCycleRunning)
      && (AdsOn(k) && !IsIdle(k) ==> !IsSet(r.timers, AdInterval) && !r.adCycleRunning)
      && (!AdsOn(k) ==> !IsSet(r.timers, AdInterval) && !IsSet(r.timers, AdListRefresh) && !r.adCycleRunning)
  {
    var k1 := EnsurePolling(ShowScreen(k, ModeScreen(k)), cfg);
    ResumeAdsKeepsLive(k1, cfg, AdsOn(k), IsIdle(k), ScanPoll);
    if AdsOn(k) {
      ResumeAdsOn(k1, cfg, IsIdle(k));
    } else {
      ResumeAdsOff(k1, cfg, IsIdle(k));
    }
  }

  /** The ad list is refreshed once per start: `adListRefresh` is not a
      repeating name and `refreshAdList` never restarts it, so its tick
      spends the handle and no later refresh tick can happen. */
  lemma RefreshRunsOnce(k: Kiosk, cfg: Config, enc: string -> string, ads: Option<seq<AdFeed.Ad>>, later: Option<seq<AdFeed.Ad>>)
    requires Inv(k) && IsLive(k.timers, AdListRefresh)
    ensures var r := Step(k, cfg, enc, AdRefreshTick(ads));
      && AdListRefresh in r.timers.entries && !IsLive(r.timers, AdListRefresh)
      && Step(r, cfg, enc, AdRefreshTick(later)) == r
  {
    var k1 := k.(timers := Fire(k.timers, AdListRefresh));
    FireSpendsRefresh(k);
    RefreshStep(k, cfg, enc, ads);
    RefreshKeepsSpent(k1, cfg, ads);
    SpentRefreshIgnored(RefreshAdList(k1, cfg, ads), cfg, enc, later);
  }

  /** A refresh tick without a live handle does not happen. */
  lemma SpentRefreshIgnored(k: Kiosk, cfg: Config, enc: string -> string, ads: Option<seq<AdFeed.Ad>>)
    requires !IsLive(k.timers, AdListRefresh)
    ensures Step(k, cfg, enc, AdRefreshTick(ads)) == k
  {
    assert !Enabled(k, AdRefreshTick(ads));
  }

  /** Firing the one-shot `adListRefresh` spends its handle and keeps Inv. */
  lemma FireSpendsRefresh(k: Kiosk)
    requires Inv(k) && IsLive(k.timers, AdListRefresh)
    ensures var k1 := k.(timers := Fire(k.timers, AdListRefresh));
      Inv(k1) && AdListRefresh in k1.timers.entries && !IsLive(k1.timers, AdListRefresh)
  {
  }

  /** A refresh tick on a live handle fires it, then runs `refreshAdList`. */
  lemma RefreshStep(k: Kiosk, cfg: Config, enc: string -> string, ads: Option<seq<AdFeed.Ad>>)
    requires IsLive(k.timers, AdListRefresh)
    ensures Step(k, cfg, enc, AdRefreshTick(ads))
      == RefreshAdList(k.(timers := Fire(k.timers, AdListRefresh)), cfg, ads)
  {
    assert Enabled(k, AdRefreshTick(ads));
  }

  /** `refreshAdList` never revives a spent `adListRefresh` handle. */
  lemma RefreshKeepsSpent(k: Kiosk, cfg: Config, ads: Option<seq<AdFeed.Ad>>)
    requires Inv(k) && AdListRefresh in k.timers.entries && !IsLive(k.timers, AdListRefresh)
    ensures var r := RefreshAdList(k, cfg, ads);
      AdListRefresh in r.timers.entries && !IsLive(r.timers, AdListRefresh)
  {
    if !AdsOn(k) || ads.None? {
      OtherStaysSpent(k.timers, AdInterval, AdListRefresh, 0);
    } else if IsIdle(k) {
      ShowNextAdKeepsSpent(k.(adList := ads.value, adIndex := -1), cfg, AdListRefresh);
    }
  }

  // ---------------------------------------------------------------------
  // Boot

  /** A fetched list in idle mode with ads enabled restarts the rotation
      at the list's first ad. */
  lemma RefreshShowsFirst(k: Kiosk, cfg: Config, list: seq<AdFeed.Ad>)
    requires Inv(k) && AdsOn(k) && IsIdle(k) && list != []
    ensures var r := RefreshAdList(k, cfg, Some(list));
      && Inv(r) && CanAdvance(r) && r.adList == list && r.adIndex == 0
  {
    var k0 := k.(adList := list, adIndex := -1);
    ShowNextAdAdvances(k0, cfg);
  }

  /** The end of the ad start: the list refresh starts and the rotation
      advances once more. */
  lemma BootAdsAdvance(k: Kiosk, cfg: Config)
    requires Inv(k) && CanAdvance(k) && k.adIndex == 0 && |k.adList| >= 2
    ensures var r := ShowNextAd(StartTimer(k, AdListRefresh, cfg.adsRefresh), cfg);
      && r.adList == k.adList && r.adIndex == 1 && r.adsShown
      && IsLive(r.timers, AdInterval) && r.timers.entries[AdInterval].interval == AdDelay(k.adList[1], cfg)
      && IsLive(r.timers, AdListRefresh) && r.timers.entries[AdListRefresh].interval == cfg.adsRefresh
  {
    var k2 := StartTimer(k, AdListRefresh, cfg.adsRefresh);
    assert Inv(k2) && CanAdvance(k2) && k2.adIndex == 0 && k2.adList == k.adList;
    assert IsLive(k2.timers, AdListRefresh) && k2.timers.entries[AdListRefresh].interval == cfg.adsRefresh;
    AdvanceFromFirst(k2, cfg);
  }

  /** From the first ad of a list of two or more, `showNextAd` shows the
      second and keeps every other live timer. */
  lemma AdvanceFromFirst(k: Kiosk, cfg: Config)
    requires Inv(k) && CanAdvance(k) && k.adIndex == 0 && |k.adList| >= 2
    ensures var r := ShowNextAd(k, cfg);
      && r.adList == k.adList && r.adIndex == 1 && r.adsShown
      && IsLive(r.timers, AdInterval) && r.timers.entries[AdInterval].interval == AdDelay(k.adList[1], cfg)
      && (IsLive(k.timers, AdListRefresh) ==> IsLive(r.timers, AdListRefresh) && r.timers.entries[AdListRefresh] == k.timers.entries[AdListRefresh])
  {
    ModSmall(1, |k.adList|);
    var r := ShowNextAd(k, cfg);
    assert r.adIndex == 1;
    var t := Start(k.timers, AdInterval, AdDelay(k.adList[1], cfg));
    assert r.timers == t;
    assert IsLive(t, AdInterval) && t.entries[AdInterval].interval == AdDelay(k.adList[1], cfg);
    if IsLive(k.timers, AdListRefresh) {
      OtherStaysLive(k.timers, AdInterval, AdListRefresh, AdDelay(k.adList[1], cfg));
    }
  }

  /** Booting in idle mode with ads enabled and at least two ads advances
      the rotation twice (once when the list arrives, once more at the end
      of the ad start), so the first ad shown is the second of the list. */
  lemma BootAdsStartsAtSecond(k: Kiosk, cfg: Config, list: seq<AdFeed.Ad>)
    requires Inv(k) && AdsOn(k) && IsIdle(k) && |list| >= 2
    ensures var r := BootAds(k, cfg, Some(list));
      && r.adList == list && r.adIndex == 1 && r.adsShown
      && IsLive(r.timers, AdInterval) && r.timers.entries[AdInterval].interval == AdDelay(list[1], cfg)
      && IsLive(r.timers, AdListRefresh) && r.timers.entries[AdListRefresh].interval == cfg.adsRefresh
  {
    var k1 := RefreshAdList(k, cfg, Some(list));
    RefreshShowsFirst(k, cfg, list);
    BootAdsAdvance(k1, cfg);
  }

  // ---------------------------------------------------------------------
  // Ad rotation

  /** In a reachable state where the rotation may advance, `showNextAd`
      moves to the next ad in order, wrapping round, shows it, and leaves a
      live `adInterval` with that ad's delay. */
  lemma ShowNextAdAdvances(k: Kiosk, cfg: Config)
    requires Inv(k) && CanAdvance(k)
    ensures var r := ShowNextAd(k, cfg);
      && Inv(r) && CanAdvance(r) && r.adList == k.adList
      && r.adIndex == (k.adIndex + 1) % |k.adList|
      && r.adsShown && r.adCycleRunning
      && IsLive(r.timers, AdInterval)
      && r.timers.entries[AdInterval].interval == AdDelay(k.adList[r.adIndex], cfg)
  {
  }

  /** `showNextAd` keeps every other timer's live handle. */
  lemma ShowNextAdKeepsLive(k: Kiosk, cfg: Config, m: Name)
    requires Inv(k) && m != AdInterval && IsLive(k.timers, m)
    ensures IsLive(ShowNextAd(k, cfg).timers, m)
  {
    if CanAdvance(k) {
      var i := JsRem(k.adIndex + 1, |k.adList|);
      if i >= 0 {
        OtherStaysLive(k.timers, AdInterval, m, AdDelay(k.adList[i], cfg));
      } else {
        OtherStaysLive(k.timers, AdInterval, m, 0);
      }
    } else {
      OtherStaysLive(k.timers, AdInterval, m, 0);
    }
  }

  /** The kiosk after `n` changes of ad. */
  function Rotate(k: Kiosk, cfg: Config, n: nat): Kiosk
  {
    if n == 0 then k else ShowNextAd(Rotate(k, cfg, n - 1), cfg)
  }

  /** `r` is rotating through `list` and shows ad `i`: the invariant holds,
      the rotation may advance, and a live `adInterval` waits for ad `i`'s
      delay. */
  ghost predicate Rotating(r: Kiosk, cfg: Config, list: seq<AdFeed.Ad>, i: int)
  {
    && Inv(r) && CanAdvance(r) && r.adList == list
    && 0 <= i < |list| && r.adIndex == i
    && IsLive(r.timers, AdInterval)
    && r.timers.entries[AdInterval].interval == AdDelay(list[i], cfg)
  }

  /** The index after `n` steps of `(i + 1) rem len` from -1. */
  function IndexAfter(len: nat, n: nat): int
    requires len > 0
  {
    if n == 0 then -1 else JsRem(IndexAfter(len, n - 1) + 1, len)
  }

  /** From -1, `n > 0` steps of the JavaScript remainder reach
      `(n - 1) mod len`. */
  lemma {:induction false} IndexAfterWraps(len: nat, n: nat)
    requires len > 0 && n > 0
    ensures IndexAfter(len, n) == (n - 1) % len
  {
    if n > 1 {
      IndexAfterWraps(len, n - 1);
      ModNext(n - 2, len);
    }
  }

  /** One change of ad from a rotating state, in the remainder's terms. */
  lemma ShowNextAdRotates(p: Kiosk, cfg: Config)
    requires Inv(p) && CanAdvance(p)
    ensures Rotating(ShowNextAd(p, cfg), cfg, p.adList, JsRem(p.adIndex + 1, |p.adList|))
  {
    ShowNextAdAdvances(p, cfg);
  }

  /** `n > 0` changes of ad from a fresh list follow `IndexAfter`. */
  lemma {:induction false} RotationIndex(k: Kiosk, cfg: Config, n: nat)
    requires Inv(k) && CanAdvance(k) && k.adIndex == -1 && n > 0
    ensures Rotating(Rotate(k, cfg, n), cfg, k.adList, IndexAfter(|k.adList|, n))
  {
    if n == 1 {
      ShowNextAdRotates(k, cfg);
      assert Rotate(k, cfg, 1) == ShowNextAd(k, cfg);
    } else {
      RotationIndex(k, cfg, n - 1);
      RotationNext(Rotate(k, cfg, n - 1), cfg, k.adList, n - 1);
      assert Rotate(k, cfg, n) == ShowNextAd(Rotate(k, cfg, n - 1), cfg);
    }
  }

  /** The inductive step of `RotationIndex`. */
  lemma RotationNext(p: Kiosk, cfg: Config, list: seq<AdFeed.Ad>, m: nat)
    requires list != [] && Rotating(p, cfg, list, IndexAfter(|list|, m))
    ensures Rotating(ShowNextAd(p, cfg), cfg, list, IndexAfter(|list|, m + 1))
  {
    ShowNextAdRotates(p, cfg);
  }

  /** Starting from a fresh list (index -1), the `n`-th change of ad shows ad
      `(n - 1) mod |list|`: the rotation goes through the list in order and
      wraps round, with each change's delay the ad's own. */
  lemma RotationOrder(k: Kiosk, cfg: Config, n: nat)
    requires Inv(k) && CanAdvance(k) && k.adIndex == -1 && n > 0
    ensures Rotating(Rotate(k, cfg, n), cfg, k.adList, (n - 1) % |k.adList|)
  {
    RotationIndex(k, cfg, n);
    IndexAfterWraps(|k.adList|, n);
  }

  /** `((a mod m) + 1) mod m == (a + 1) mod m`. */
  lemma ModNext(a: nat, m: nat)
    requires m > 0
    ensures (a % m + 1) % m == (a + 1) % m
  {
    var r := a % m;
    assert a == (a / m) * m + r;
    if r + 1 < m {
      ModUnique(a + 1, m, a / m, r + 1);
      ModUnique(r + 1, m, 0, r + 1);
    } else {
      ModUnique(a + 1, m, a / m + 1, 0);
      ModUnique(r + 1, m, 1, 0);
    }
  }

  /** The remainder is the one `r` in `[0, m)` with `x == q * m + r`. */
  lemma ModUnique(x: int, m: int, q: int, r: int)
    requires m > 0 && 0 <= r < m && x == q * m + r
    ensures x % m == r
  {
    var q2 := x / m;
    assert x == q2 * m + x % m;
    assert (q - q2) * m == x % m - r;
    if q > q2 {
      MulAtLeast(q - q2, m);
    } else if q < q2 {
      MulAtLeast(q2 - q, m);
    }
  }

  lemma {:induction false} MulAtLeast(a: int, m: int)
    requires a >= 1 && m >= 0
    ensures a * m >= m
    decreases a
  {
    if a > 1 {
      MulAtLeast(a - 1, m);
      assert a * m == (a - 1) * m + m;
    }
  }

  /** Two ads with their own durations, from a fresh list: the odd-numbered
      changes show the first ad and wait for its duration, the even-numbered
      ones the second's. */
  lemma TwoAdsAlternate(k: Kiosk, cfg: Config, a: AdFeed.Ad, b: AdFeed.Ad, n: nat)
    requires Inv(k) && IsIdle(k) && AdsOn(k) && k.adList == [a, b] && k.adIndex == -1
    requires a.duration != 0 && b.duration != 0 && n > 0
    ensures var r := Rotate(k, cfg, n);
      && r.adIndex == (if n % 2 == 1 then 0 else 1)
      && IsLive(r.timers, AdInterval)
      && r.timers.entries[AdInterval].interval == (if n % 2 == 1 then a.duration else b.duration)
  {
    RotationOrder(k, cfg, n);
    Parity(n);
  }

  lemma Parity(n: nat)
    requires n > 0
    ensures (n - 1) % 2 == (if n % 2 == 1 then 0 else 1)
  {
    ModNext(n - 1, 2);
  }
}
