/** The key/value state service: an in-memory record, part of which is
    mirrored into local storage through a fixed key map, its boot-time
    loading with defaults, and the configured-ad iterator `getNextAd`. */
module StateStore {
  import opened Text
  import opened Values

  /** The state keys the controller uses. */
  datatype Key =
    | Language | LastScanId | WeatherCity | WeatherCountry | LastCheckIn
    | AdsEnabled | ScreenDisplay
    | CurrentScreen | CurrentAdList | CurrentAdIndex | PasswordActionPending
    | IsPasswordPanelActive | Translations | WeatherData | MemberData

  /** `_keyMap`: the local-storage key a state key is persisted under. */
  function StorageKey(k: Key): Option<string> {
    match k
    case Language => Some("setting_language")
    case LastScanId => Some("setting_last_processed_scan_id")
    case WeatherCity => Some("setting_city")
    case WeatherCountry => Some("setting_country")
    case LastCheckIn => Some("setting_last_processed_checkin")
    case AdsEnabled => Some("setting_ads_enabled")
    case ScreenDisplay => Some("setting_screen")
    case _ => None
  }

  /** The storage key of the lock password, written only by the password service. */
  const PasswordStorageKey := "setting_lock_password"

  predicate Persisted(k: Key) {
    StorageKey(k).Some?
  }

  /** Distinct persisted keys use distinct storage keys, none of them the password's. */
  lemma StorageKeysDistinct(k: Key, j: Key)
    ensures StorageKey(k).Some? ==> StorageKey(k).value != PasswordStorageKey
    ensures StorageKey(k).Some? && StorageKey(j).Some? && k != j ==> StorageKey(k) != StorageKey(j)
  {
  }

  /** `state` is `_state` (a missing key reads as `undefined`); `storage` is
      local storage, which holds strings only. */
  datatype Store = Store(state: map<Key, Val>, storage: map<string, string>)

  /** `get(key)`. */
  function Get(s: Store, k: Key): Val {
    if k in s.state then s.state[k] else Undefined
  }

  /** Local storage after `set(k, v)`: a persisted key's entry holds the
      value's string form, or is removed for null and undefined. */
  function Mirror(storage: map<string, string>, k: Key, v: Val): map<string, string> {
    match StorageKey(k)
    case None => storage
    case Some(sk) => Edit(storage, sk, StoredForm(v))
  }

  /** What storage keeps for a value: its string form, or nothing for null
      and undefined. */
  function StoredForm(v: Val): Option<string> {
    if v.Null? || v.Undefined? then None else Some(JsToString(v))
  }

  /** `set(key, value)`: writes the state, and for a persisted key stores the
      value's string form or removes the entry when the value is null or
      undefined. */
  function Set(s: Store, k: Key, v: Val): (r: Store)
    ensures Get(r, k) == v
    ensures forall j {:trigger Get(r, j)} :: j != k ==> Get(r, j) == Get(s, j)
    ensures !Persisted(k) ==> r.storage == s.storage
  {
    Store(s.state[k := v], Mirror(s.storage, k, v))
  }

  /** What `set` does to local storage for a persisted key: stores the
      value's string form, or removes the entry for null and undefined, and
      leaves every other storage key (the password's among them) alone. */
  lemma SetStorage(s: Store, k: Key, v: Val)
    requires Persisted(k)
    ensures var r := Set(s, k, v); var sk := StorageKey(k).value;
      && ((v.Null? || v.Undefined?) ==> sk !in r.storage)
      && (!(v.Null? || v.Undefined?) ==> sk in r.storage && r.storage[sk] == JsToString(v))
      && r.storage - {sk} == s.storage - {sk}
      && (PasswordStorageKey in r.storage <==> PasswordStorageKey in s.storage)
  {
    var sk := StorageKey(k).value;
    var r := Set(s, k, v);
    assert sk != PasswordStorageKey;
    if v.Null? || v.Undefined? {
      assert r.storage == s.storage - {sk};
    } else {
      assert r.storage == s.storage[sk := JsToString(v)];
    }
  }

  /** A second `set` of the same key replaces the first: writing `v` and
      then `w` is writing `w`, and writing the same value twice is writing
      it once. */
  lemma SetOverwrite(s: Store, k: Key, v: Val, w: Val)
    ensures Set(Set(s, k, v), k, w) == Set(s, k, w)
  {
    assert s.state[k := v][k := w] == s.state[k := w];
    if StorageKey(k).Some? {
      MapEditOverwrite(s.storage, StorageKey(k).value, StoredForm(v), StoredForm(w));
    }
  }

  /** `set` on two different keys in either order gives the same store. */
  lemma SetCommutes(s: Store, k: Key, v: Val, j: Key, w: Val)
    requires k != j
    ensures Set(Set(s, k, v), j, w) == Set(Set(s, j, w), k, v)
  {
    assert s.state[k := v][j := w] == s.state[j := w][k := v];
    MirrorCommutes(s.storage, k, v, j, w);
  }

  lemma MirrorCommutes(st: map<string, string>, k: Key, v: Val, j: Key, w: Val)
    requires k != j
    ensures Mirror(Mirror(st, k, v), j, w) == Mirror(Mirror(st, j, w), k, v)
  {
    if StorageKey(k).Some? && StorageKey(j).Some? {
      StorageKeysDistinct(k, j);
      MapEditsCommute(st, StorageKey(k).value, StoredForm(v), StorageKey(j).value, StoredForm(w));
    }
  }

  /** Writing or removing two different entries of a map commutes. */
  lemma MapEditsCommute(st: map<string, string>, x: string, a: Option<string>, y: string, b: Option<string>)
    requires x != y
    ensures Edit(Edit(st, x, a), y, b) == Edit(Edit(st, y, b), x, a)
  {
  }

  /** A second edit of the same entry replaces the first. */
  lemma MapEditOverwrite(st: map<string, string>, x: string, a: Option<string>, b: Option<string>)
    ensures Edit(Edit(st, x, a), x, b) == Edit(st, x, b)
  {
    if b.Some? {
      assert Edit(st, x, a)[x := b.value] == st[x := b.value];
    } else {
      assert Edit(st, x, a) - {x} == st - {x};
    }
  }

  /** The map with entry `x` written (Some) or removed (None). */
  function Edit(st: map<string, string>, x: string, a: Option<string>): map<string, string> {
    if a.Some? then st[x := a.value] else st - {x}
  }

  /** A value read back from storage, or `d` when the entry is missing or
      empty: `localStorage.getItem(key) || d`. */
  function Loaded(storage: map<string, string>, key: string, d: Val): (r: Val)
    ensures key in storage && storage[key] != "" ==> r == Str(storage[key])
    ensures !(key in storage && storage[key] != "") ==> r == d
  {
    if key in storage && storage[key] != "" then Str(storage[key]) else d
  }

  /** The configured fallbacks for the values `initialize` loads. */
  datatype Defaults = Defaults(language: string, city: string, country: string, adsEnabled: bool)

  /** The value `initialize` loads for persisted key `k`: the raw stored
      string when there is a non-empty one, the key's default otherwise. */
  function InitialValue(st: map<string, string>, d: Defaults, k: Key): Val
    requires Persisted(k)
  {
    var key := StorageKey(k).value;
    match k
    case Language => Loaded(st, key, Str(d.language))
    case LastScanId => Loaded(st, key, Num(0))
    case WeatherCity => Loaded(st, key, Str(d.city))
    case WeatherCountry => Loaded(st, key, Str(d.country))
    case LastCheckIn => Loaded(st, key, Num(0))
    case AdsEnabled => Loaded(st, key, Bool(d.adsEnabled))
    case ScreenDisplay => Loaded(st, key, Str("idle"))
  }

  /** The persisted keys in the order `initialize()` loads them. */
  const PersistedKeys: seq<Key> :=
    [Language, LastScanId, WeatherCity, WeatherCountry, LastCheckIn, AdsEnabled, ScreenDisplay]

  lemma PersistedKeysComplete(k: Key)
    ensures Persisted(k) <==> k in PersistedKeys
  {
  }

  predicate Distinct(keys: seq<Key>) {
    forall i, j :: 0 <= i < j < |keys| ==> keys[i] != keys[j]
  }

  /** Loads `keys` one after the other: each reads its entry from the
      storage as the previous `set` calls left it, falls back to its default,
      and is written back through `set`. */
  function LoadKeys(s: Store, d: Defaults, keys: seq<Key>): Store
    requires forall i :: 0 <= i < |keys| ==> Persisted(keys[i])
    decreases |keys|
  {
    if keys == [] then s
    else LoadKeys(Set(s, keys[0], InitialValue(s.storage, d, keys[0])), d, keys[1..])
  }

  /** `initialize()`. */
  function Initialize(s: Store, d: Defaults): Store {
    LoadKeys(s, d, PersistedKeys)
  }

  /** Loading leaves every key outside the list as it was. */
  lemma {:induction false} LoadKeysKeeps(s: Store, d: Defaults, keys: seq<Key>, k: Key)
    requires forall i :: 0 <= i < |keys| ==> Persisted(keys[i])
    requires k !in keys
    ensures Get(LoadKeys(s, d, keys), k) == Get(s, k)
    decreases |keys|
  {
    if keys != [] {
      var s1 := Set(s, keys[0], InitialValue(s.storage, d, keys[0]));
      LoadKeysKeeps(s1, d, keys[1..], k);
    }
  }

  /** The loaded value depends only on the key's own storage entry. */
  lemma InitialValueLocal(st1: map<string, string>, st2: map<string, string>, d: Defaults, k: Key)
    requires Persisted(k)
    requires var sk := StorageKey(k).value; (sk in st1 <==> sk in st2) && (sk in st1 ==> st1[sk] == st2[sk])
    ensures InitialValue(st1, d, k) == InitialValue(st2, d, k)
  {
  }

  /** Loading a list of distinct persisted keys leaves each of them holding
      the value read from the storage as it was before the first `set`: no
      `set` writes another key's storage entry. */
  lemma {:induction false} LoadKeysValue(s: Store, d: Defaults, keys: seq<Key>, k: Key)
    requires forall i :: 0 <= i < |keys| ==> Persisted(keys[i])
    requires Distinct(keys) && k in keys
    ensures Get(LoadKeys(s, d, keys), k) == InitialValue(s.storage, d, k)
    decreases |keys|
  {
    var s1 := Set(s, keys[0], InitialValue(s.storage, d, keys[0]));
    if keys[0] == k {
      assert k !in keys[1..];
      LoadKeysKeeps(s1, d, keys[1..], k);
    } else {
      assert k in keys[1..] by {
        var j :| 0 <= j < |keys| && keys[j] == k;
        assert keys[1..][j - 1] == k;
      }
      LoadKeysValue(s1, d, keys[1..], k);
      SetStorage(s, keys[0], InitialValue(s.storage, d, keys[0]));
      StorageKeysDistinct(k, keys[0]);
      var sk := StorageKey(k).value;
      assert sk != StorageKey(keys[0]).value;
      assert sk in s1.storage <==> sk in s1.storage - {StorageKey(keys[0]).value};
      assert sk in s.storage <==> sk in s.storage - {StorageKey(keys[0]).value};
      assert sk in s.storage ==> s1.storage[sk] == (s1.storage - {StorageKey(keys[0]).value})[sk];
      InitialValueLocal(s1.storage, s.storage, d, k);
    }
  }

  /** What `initialize` leaves under a persisted key: the stored string when
      there is a non-empty one, the key's default otherwise. */
  lemma InitializeLoads(s: Store, d: Defaults, k: Key)
    requires Persisted(k)
    ensures Get(Initialize(s, d), k) == InitialValue(s.storage, d, k)
  {
    PersistedKeysComplete(k);
    LoadKeysValue(s, d, PersistedKeys, k);
  }

  /** `initialize` touches only the persisted keys. */
  lemma InitializeKeepsTransient(s: Store, d: Defaults, k: Key)
    requires !Persisted(k)
    ensures Get(Initialize(s, d), k) == Get(s, k)
  {
    PersistedKeysComplete(k);
    LoadKeysKeeps(s, d, PersistedKeys, k);
  }

  /** A stored ads flag is kept as the raw string, so the "false" that
      saving a disabled flag writes is a non-empty, truthy string after the
      next boot. */
  lemma StoredFalseIsTruthy(s: Store, d: Defaults)
    requires "setting_ads_enabled" in s.storage && s.storage["setting_ads_enabled"] == "false"
    ensures Get(Initialize(s, d), AdsEnabled) == Str("false")
    ensures JsTruthy(Get(Initialize(s, d), AdsEnabled))
  {
    InitializeLoads(s, d, AdsEnabled);
  }

  /** Saving the ads flag as `false` and booting again reads it back as
      enabled. */
  lemma DisabledAdsReloadEnabled(s: Store, d: Defaults, memory: map<Key, Val>)
    ensures JsTruthy(Get(Initialize(Store(memory, Set(s, AdsEnabled, Bool(false)).storage), d), AdsEnabled))
  {
    var saved := Set(s, AdsEnabled, Bool(false));
    assert saved.storage["setting_ads_enabled"] == "false";
    StoredFalseIsTruthy(Store(memory, saved.storage), d);
  }

  /** A non-empty string stored under a persisted key survives a reload
      unchanged: the screen mode and the last scan id, for instance. */
  lemma PersistedStringSurvivesReload(s: Store, d: Defaults, memory: map<Key, Val>, k: Key, x: string)
    requires Persisted(k) && x != ""
    ensures Get(Initialize(Store(memory, Set(s, k, Str(x)).storage), d), k) == Str(x)
  {
    var st := Set(s, k, Str(x)).storage;
    SetStorage(s, k, Str(x));
    InitializeLoads(Store(memory, st), d, k);
    StoredValueLoads(st, d, k);
  }

  /** A non-empty stored string is what `initialize` loads, whatever the key's default. */
  lemma StoredValueLoads(st: map<string, string>, d: Defaults, k: Key)
    requires Persisted(k) && StorageKey(k).value in st && st[StorageKey(k).value] != ""
    ensures InitialValue(st, d, k) == Str(st[StorageKey(k).value])
  {
  }

  // ---------------------------------------------------------------------
  // getNextAd

  /** JavaScript's `a % b` for a positive divisor: the sign follows `a`. */
  function JsRem(a: int, b: int): (r: int)
    requires b > 0
    ensures -b < r < b
    ensures a >= 0 ==> r == a % b
  {
    if a >= 0 then a % b else -((-a) % b)
  }

  /** A configured ad: its `type` and its optional `duration`. */
  datatype AdConfig = AdConfig(kind: string, duration: Option<int>)

  /** `Config.adSettings`: zero stands for an unset (falsy) setting. */
  datatype AdDefaults = AdDefaults(defaultDuration: int, imageDuration: int, pdfDuration: int)

  /** `getNextAd()` over the configured list `ads` and the current index:
      None when there is nothing to show, else the new index, the ad and its
      calculated duration. */
  function GetNextAd(ads: seq<AdConfig>, index: int, d: AdDefaults): (r: Option<(int, AdConfig, int)>)
    requires index >= -1
    ensures ads == [] <==> r.None?
    ensures r.Some? ==> 0 <= r.value.0 < |ads| && r.value.0 == (index + 1) % |ads|
    ensures r.Some? ==> r.value.1 == ads[r.value.0]
    ensures r.Some? && r.value.1.duration.Some? ==> r.value.2 == r.value.1.duration.value
  {
    if |ads| == 0 then None
    else
      var i := JsRem(index + 1, |ads|);
      var ad := ads[i];
      var duration :=
        if ad.duration.Some? then ad.duration.value
        else if ad.kind == "image" then (if d.imageDuration != 0 then d.imageDuration else d.defaultDuration)
        else if ad.kind == "pdf" then (if d.pdfDuration != 0 then d.pdfDuration else d.defaultDuration)
        else d.defaultDuration;
      Some((i, ad, duration))
  }

  /** Without an explicit duration an ad never gets a zero duration while
      the general default is set; a type default is only ever used for its
      own type, and an ad of any other type gets the general default. */
  lemma NextAdDurationFallback(ads: seq<AdConfig>, index: int, d: AdDefaults)
    requires index >= -1 && ads != []
    ensures var r := GetNextAd(ads, index, d).value;
      r.1.duration.None? && d.defaultDuration != 0 ==> r.2 != 0
    ensures var r := GetNextAd(ads, index, d).value;
      r.1.duration.None? && r.2 != d.defaultDuration ==>
        (r.1.kind == "image" && r.2 == d.imageDuration) || (r.1.kind == "pdf" && r.2 == d.pdfDuration)
    ensures var r := GetNextAd(ads, index, d).value;
      r.1.duration.None? && r.1.kind != "image" && r.1.kind != "pdf" ==> r.2 == d.defaultDuration
  {
  }

  /** The index after `n` calls starting from the reset value -1. */
  function IterateIndex(ads: seq<AdConfig>, d: AdDefaults, n: nat): (r: int)
    requires ads != []
    ensures -1 <= r < |ads|
  {
    if n == 0 then -1 else GetNextAd(ads, IterateIndex(ads, d, n - 1), d).value.0
  }

  /** From the reset value the first round shows the ads in list order. */
  lemma {:induction false} NextAdFirstRound(ads: seq<AdConfig>, d: AdDefaults, n: nat)
    requires ads != [] && n <= |ads|
    ensures IterateIndex(ads, d, n) == n - 1
  {
    if n > 0 {
      NextAdFirstRound(ads, d, n - 1);
      var r := GetNextAd(ads, n - 2, d);
      assert IterateIndex(ads, d, n) == r.value.0;
      ModSmall(n - 1, |ads|);
    }
  }

  /** After the last ad the iterator returns to the first, so the visit order
      repeats with the length of the list as its period. */
  lemma {:induction false} NextAdPeriodic(ads: seq<AdConfig>, d: AdDefaults, n: nat)
    requires ads != [] && n >= 1
    ensures IterateIndex(ads, d, n + |ads|) == IterateIndex(ads, d, n)
  {
    if n == 1 {
      NextAdWraps(ads, d);
    } else {
      NextAdPeriodic(ads, d, n - 1);
      assert IterateIndex(ads, d, n + |ads|)
          == GetNextAd(ads, IterateIndex(ads, d, n - 1 + |ads|), d).value.0;
    }
  }

  /** The call after the last ad of the first round shows the first ad. */
  lemma NextAdWraps(ads: seq<AdConfig>, d: AdDefaults)
    requires ads != []
    ensures IterateIndex(ads, d, 1 + |ads|) == IterateIndex(ads, d, 1) == 0
  {
    NextAdFirstRound(ads, d, |ads|);
    assert IterateIndex(ads, d, 1 + |ads|) == GetNextAd(ads, |ads| - 1, d).value.0;
  }

  lemma ModSmall(x: int, m: int)
    requires 0 <= x < m
    ensures x % m == x
  {
  }
}
