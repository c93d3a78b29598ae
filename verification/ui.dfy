/** The state side of the UI manager: which screen is current, the password
    panel's flags, the timers `displayMemberInfo` stops, the member status
    class, the bounded recent-scan list and the mode toggle's pressed state.
    Element creation, texts, focus and fades are left out; every element
    the handlers look up is taken to exist. */
module Ui {
  import opened Text
  import opened Values
  import opened Timers
  import opened StateStore
  import opened ScanDedup
  import opened KioskState
  import MemberMessages

  /** The screens that hide the ad container. */
  predicate HidesAds(name: ScreenName) {
    name.Member? || name.Settings? || name.List?
  }

  /** `hideAds()`. */
  function HideAds(k: Kiosk): (r: Kiosk)
    ensures !r.adsShown && r.(adsShown := k.adsShown) == k
  {
    k.(adsShown := false)
  }

  /** `updateToggleVisuals(mode)`: pressed exactly in list mode. */
  function TogglePressedFor(mode: Val): (pressed: bool)
    ensures pressed <==> mode == Str("list")
  {
    mode == Str("list")
  }

  /** `showScreen(name)`: records the screen as current, hides the ads for
      the member, settings and list screens, and, when the screen exists,
      shows the toggle for the persisted mode read on entry. An unknown name
      returns before the toggle is updated. */
  function ShowScreen(k: Kiosk, name: ScreenName): (r: Kiosk)
    ensures r.screen == name
    ensures HidesAds(name) ==> !r.adsShown
    ensures !HidesAds(name) ==> r.adsShown == k.adsShown
    ensures !name.Unknown? ==> (r.togglePressed <==> IsList(k))
    ensures name.Unknown? ==> r.togglePressed == k.togglePressed
    ensures r.(screen := k.screen, adsShown := k.adsShown, togglePressed := k.togglePressed) == k
    ensures Inv(k) ==> Inv(r)
  {
    var k1 := k.(screen := name);
    var k2 := if HidesAds(name) then HideAds(k1) else k1;
    if name.Unknown? then k2 else k2.(togglePressed := TogglePressedFor(Mode(k)))
  }

  /** `showPasswordPanel(action)`: the action becomes pending and the panel
      active; the current screen is not touched. */
  function ShowPasswordPanel(k: Kiosk, action: Action): (r: Kiosk)
    ensures r.panelActive && r.pending == Some(action)
    ensures r.(panelActive := k.panelActive, pending := k.pending) == k
  {
    k.(pending := Some(action), panelActive := true)
  }

  /** `hidePasswordPanel()`: inactive, nothing pending. */
  function HidePasswordPanel(k: Kiosk): (r: Kiosk)
    ensures !r.panelActive && r.pending.None?
    ensures r.(panelActive := k.panelActive, pending := k.pending) == k
  {
    k.(pending := None, panelActive := false)
  }

  /** The member screen's status class for a `member_status` value. */
  function StatusClass(memberStatus: Val): (c: string)
    ensures c in {"status-ok", "status-warning", "status-denied"}
    ensures c == "status-ok" <==> memberStatus == Str("allowed")
    ensures c == "status-warning" <==> memberStatus == Str("warning")
  {
    if memberStatus == Str("allowed") then "status-ok"
    else if memberStatus == Str("warning") then "status-warning"
    else "status-denied"
  }

  /** Across the two ends: the class the screen shows for the status the
      endpoint determines is denied exactly for an unauthorised member and
      a warning exactly for an authorised member with messages. */
  lemma StatusClassOfDetermined(authorised: bool, messages: seq<MemberMessages.Message>)
    ensures var c := StatusClass(Str(MemberMessages.DetermineMemberStatus(authorised, messages)));
      && (c == "status-denied" <==> !authorised)
      && (c == "status-warning" <==> authorised && messages != [])
      && (c == "status-ok" <==> authorised && messages == [])
  {
    var s := MemberMessages.DetermineMemberStatus(authorised, messages);
    assert "denied" != "allowed" && "denied" != "warning" && "allowed" != "warning";
    assert Str(s) == Str("allowed") <==> s == "allowed";
    assert Str(s) == Str("warning") <==> s == "warning";
  }

  /** `displayMemberInfo(scanResult)`: stops the ad rotation timer and the
      scan poll, hides the ads, sets the status class and shows the member
      screen. */
  function DisplayMemberInfo(k: Kiosk, resp: ScanResponse): (r: Kiosk)
    ensures !IsSet(r.timers, AdInterval) && !IsSet(r.timers, ScanPoll)
    ensures !IsLive(r.timers, AdInterval) && !IsLive(r.timers, ScanPoll)
    ensures forall n :: n != AdInterval && n != ScanPoll ==>
      (IsSet(r.timers, n) <==> IsSet(k.timers, n)) && (n in r.timers.entries ==> r.timers.entries[n] == k.timers.entries[n])
    ensures Valid(k.timers) ==> Valid(r.timers)
    ensures r.screen == Member && !r.adsShown
    ensures r.memberClass == StatusClass(resp.memberStatus)
    ensures r.store == k.store && r.vault == k.vault && r.adCycleRunning == k.adCycleRunning
    ensures r.adList == k.adList && r.adIndex == k.adIndex
    ensures r.panelActive == k.panelActive && r.pending == k.pending
    ensures r.scanList == k.scanList && r.memberData == k.memberData
  {
    var t := Clear(Clear(k.timers, AdInterval), ScanPoll);
    var k1 := HideAds(k.(timers := t));
    ShowScreen(k1.(memberClass := StatusClass(resp.memberStatus)), Member)
  }

  /** `prependScanItem` on the list: the item first, then the old items, cut
      from the end down to `maxItems`. */
  function Prepend(item: ScanResponse, list: seq<ScanResponse>, maxItems: nat): (r: seq<ScanResponse>)
    ensures |r| == if |list| + 1 <= maxItems then |list| + 1 else maxItems
    ensures maxItems > 0 ==> r[0] == item
    ensures forall i :: 1 <= i < |r| ==> r[i] == list[i - 1]
  {
    var l := [item] + list;
    if |l| <= maxItems then l else l[..maxItems]
  }

  /** The removal loop of `prependScanItem` as written: insert first, then
      remove the last child while there are more than `maxItems`. */
  method PrependLoop(item: ScanResponse, list: seq<ScanResponse>, maxItems: nat) returns (r: seq<ScanResponse>)
    ensures r == Prepend(item, list, maxItems)
  {
    r := [item] + list;
    while |r| > maxItems
      invariant |r| >= maxItems || r == [item] + list
      invariant r == ([item] + list)[..|r|]
      decreases |r|
    {
      r := r[..|r| - 1];
    }
  }

  /** The recent-scan list after `prependScanItem`: the placeholder is
      hidden and the list is bounded. */
  function PrependScanItem(k: Kiosk, item: ScanResponse, maxItems: nat): (r: Kiosk)
    ensures r.scanList == Prepend(item, k.scanList, maxItems) && !r.noScansShown
    ensures r.(scanList := k.scanList, noScansShown := k.noScansShown) == k
  {
    k.(scanList := Prepend(item, k.scanList, maxItems), noScansShown := false)
  }

  /** `renderScanList(data)`: a missing or empty list shows the placeholder
      and no items; otherwise the items, in order, replace the list. */
  function RenderScanList(k: Kiosk, data: Option<seq<ScanResponse>>): (r: Kiosk)
    ensures r.noScansShown <==> data.None? || data.value == []
    ensures r.scanList == if data.Some? then data.value else []
    ensures r.(scanList := k.scanList, noScansShown := k.noScansShown) == k
  {
    match data
    case None => k.(scanList := [], noScansShown := true)
    case Some(items) =>
      if items == [] then k.(scanList := [], noScansShown := true)
      else k.(scanList := items, noScansShown := false)
  }
}
