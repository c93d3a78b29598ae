/** The controller's whole state as one record: the state service's keys
    (persisted ones in `store`), the timer table, the password vault, the
    module variable `isAdCycleRunning`, and the parts of the page the
    handlers change and later read back. */
module KioskState {
  import opened Text
  import opened Values
  import opened Timers
  import opened StateStore
  import opened Passwords
  import AdFeed
  import opened ScanDedup

  /** The screens of the page. `showScreen` records `name + "Screen"`; the
      name is what is kept here, and a name with no element on the page is
      `Unknown`. */
  datatype ScreenName = Idle | Member | Settings | List | Password | Unknown(name: string)

  /** The screen a name denotes. */
  function ScreenOf(name: string): (r: ScreenName)
    ensures r.Unknown? <==> name !in {"idle", "member", "settings", "list", "password"}
    ensures r.Unknown? ==> r.name == name
  {
    if name == "idle" then Idle
    else if name == "member" then Member
    else if name == "settings" then Settings
    else if name == "list" then List
    else if name == "password" then Password
    else Unknown(name)
  }

  /** The actions the password panel can confirm: the literals the handlers
      pass to `showPasswordPanel`. */
  datatype Action = Toggle | Remove | ChangePassword

  /** The transient state-service keys are held as typed fields: they are
      never persisted, so `set` on them touches only memory.
      `screen` is `currentScreen`, `pending` is `passwordActionPending`
      (None for `null`),
      `panelActive` is `isPasswordPanelActive`, `adList`/`adIndex` are
      `currentAdList`/`currentAdIndex`; `adsShown` is the ad container's
      visibility, `memberClass` the member screen's status class,
      `scanList`/`noScansShown` the recent-scan list and its placeholder,
      and `togglePressed` the mode toggle's pressed state. */
  datatype Kiosk = Kiosk(
    store: Store,
    timers: Table,
    vault: Vault,
    screen: ScreenName,
    panelActive: bool,
    pending: Option<Action>,
    adList: seq<AdFeed.Ad>,
    adIndex: int,
    adCycleRunning: bool,
    adsShown: bool,
    memberData: Option<ScanResponse>,
    memberClass: string,
    scanList: seq<ScanResponse>,
    noScansShown: bool,
    togglePressed: bool)

  /** The constants of `Config` the controller uses. `settingsAdRefresh` is
      `Config.adSettings.refreshInterval`, which the shipped configuration
      does not define, so `setTimeout` runs it after no delay. */
  datatype Config = Config(
    memberScreenTimeout: int, scanPoll: int, dateTime: int, weatherRefresh: int,
    timeoutDuration: int, adsRefresh: int, settingsAdRefresh: int,
    defaultDuration: int, maxListItems: nat)

  const Shipped: Config := Config(7000, 1000, 1000, 900000, 8000, 60000, 0, 10000, 12)

  /** The persisted display mode, `get(screenDisplay)`. */
  function Mode(k: Kiosk): Val {
    Get(k.store, ScreenDisplay)
  }

  predicate IsIdle(k: Kiosk) {
    Mode(k) == Str("idle")
  }

  predicate IsList(k: Kiosk) {
    Mode(k) == Str("list")
  }

  /** `get(adsEnabled)` read as a condition. */
  predicate AdsOn(k: Kiosk) {
    JsTruthy(Get(k.store, AdsEnabled))
  }

  /** The invariant every transition keeps: a well-formed timer table whose
      repeating slots hold live handles; the rotation index is -1 or points
      into a non-empty list; a non-empty `adInterval` slot means the cycle
      is marked running; and the panel is active exactly when an action is
      pending. */
  ghost predicate Inv(k: Kiosk) {
    && Valid(k.timers) && RepeatingLive(k.timers)
    && k.adIndex >= -1
    && (k.adList != [] ==> k.adIndex < |k.adList|)
    && (IsSet(k.timers, AdInterval) ==> k.adCycleRunning)
    && (k.panelActive <==> k.pending.Some?)
  }
}
