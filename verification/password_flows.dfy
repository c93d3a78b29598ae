/** Properties of the settings form and the lock-password flows: what a
    valid save stores, how a first password and a changed password come to
    be the one the prompt accepts, and what removing the password does. */
module PasswordFlows {
  import opened Text
  import opened Values
  import opened Timers
  import opened StateStore
  import opened Passwords
  import opened KioskState
  import opened Ui
  import opened Controller

  // ---------------------------------------------------------------------
  // Saving the form

  /** A form that passes validation holds a trimmed, non-empty city. */
  lemma ValidCityTrimmed(inp: SettingsInput)
    requires SettingsValid(inp)
    ensures CityInput(inp) != "" && Trim(CityInput(inp), IsJsSpace) == CityInput(inp)
  {
    TrimIdempotent(inp.city, IsJsSpace);
  }

  /** A form that passes validation holds a country of two upper-case ASCII
      letters. */
  lemma ValidCountryUpper(inp: SettingsInput)
    requires SettingsValid(inp)
    ensures var country := CountryInput(inp);
      |country| == 2 && 'A' <= country[0] <= 'Z' && 'A' <= country[1] <= 'Z'
  {
    var trimmed := JsTrim(inp.country);
    var country := CountryInput(inp);
    assert country[0] == AsciiUpperChar(trimmed[0]) && country[1] == AsciiUpperChar(trimmed[1]);
    UpperLetter(trimmed[0]);
    UpperLetter(trimmed[1]);
  }

  /** An upper-cased character that is an ASCII letter is an upper-case one. */
  lemma UpperLetter(c: char)
    requires IsAsciiLetter(AsciiUpperChar(c))
    ensures 'A' <= AsciiUpperChar(c) <= 'Z'
  {
  }

  /** A form that fails validation changes nothing; a valid one stores its
      city and country as normalised, the language and the ads switch, and
      touches no other key. */
  lemma SavedLocationNormalised(k: Kiosk, cfg: Config, enc: string -> string, inp: SettingsInput)
    ensures !SettingsValid(inp) ==> SaveSettings(k, cfg, enc, inp) == k
    ensures SettingsValid(inp) ==>
      var s := SaveSettings(k, cfg, enc, inp).store;
      && Get(s, WeatherCity) == Str(CityInput(inp)) && Get(s, WeatherCountry) == Str(CountryInput(inp))
      && Get(s, Language) == Str(inp.language) && Get(s, AdsEnabled) == Bool(inp.adsOn)
      && (forall j :: j != Language && j != WeatherCity && j != WeatherCountry && j != AdsEnabled ==>
            Get(s, j) == Get(k.store, j))
  {
  }

  // ---------------------------------------------------------------------
  // Setting and changing the password

  /** With no password set, saving a typed password sets it at once: the
      typed text is the one password the prompt accepts, and no prompt
      opens. */
  lemma FirstPasswordLocks(k: Kiosk, cfg: Config, enc: string -> string, inp: SettingsInput, other: string)
    requires GoodEncoder(enc) && SettingsValid(inp) && inp.newPassword != ""
    requires !IsPasswordSet(k.vault)
    ensures var r := SaveSettings(k, cfg, enc, inp);
      && IsPasswordSet(r.vault) && VerifyPassword(enc, r.vault, Some(inp.newPassword))
      && (other != inp.newPassword ==> !VerifyPassword(enc, r.vault, Some(other)))
      && r.panelActive == k.panelActive && r.pending == k.pending
  {
    SetThenVerify(enc, k.vault, inp.newPassword, other);
  }

  /** With a password set, saving a new one only stages it behind the
      `change_password` prompt, where the current password still holds. */
  lemma ChangeStagesPassword(k: Kiosk, cfg: Config, enc: string -> string, inp: SettingsInput)
    requires SettingsValid(inp) && inp.newPassword != "" && IsPasswordSet(k.vault)
    ensures var p := SaveSettings(k, cfg, enc, inp);
      && p.panelActive && p.pending == Some(ChangePassword)
      && p.vault.stored == k.vault.stored && p.vault.staged == Some(inp.newPassword)
      && IsLive(p.timers, PasswordTimeout)
  {
    var w := WithSettings(k, inp);
    assert SaveSettings(k, cfg, enc, inp) == OpenPrompt(w.(vault := StoreAttempt(w.vault, inp.newPassword)), cfg, ChangePassword);
  }

  /** Confirming the `change_password` prompt with the current password
      makes the staged password the one the prompt accepts and clears the
      staging. */
  lemma ConfirmAppliesStaged(p: Kiosk, cfg: Config, enc: string -> string, staged: string, current: string, other: string)
    requires GoodEncoder(enc) && staged != ""
    requires p.pending == Some(ChangePassword) && p.vault.staged == Some(staged)
    requires VerifyPassword(enc, p.vault, Some(current))
    ensures var r := HandlePasswordConfirm(p, cfg, enc, Some(current));
      && !r.panelActive && r.vault.staged.None?
      && VerifyPassword(enc, r.vault, Some(staged))
      && (other != staged ==> !VerifyPassword(enc, r.vault, Some(other)))
  {
    var h := HidePasswordPanel(ClearTimer(p, PasswordTimeout));
    assert HandlePasswordConfirm(p, cfg, enc, Some(current)) == ApplyStagedPassword(h, enc);
    SetThenVerify(enc, h.vault, staged, other);
  }

  /** The whole change: save a new password while one is set, then confirm
      with the current one; the new password is then the one accepted. */
  lemma ChangePasswordFlow(k: Kiosk, cfg: Config, enc: string -> string, inp: SettingsInput, current: string, other: string)
    requires GoodEncoder(enc) && SettingsValid(inp) && inp.newPassword != ""
    requires VerifyPassword(enc, k.vault, Some(current))
    ensures var r := HandlePasswordConfirm(SaveSettings(k, cfg, enc, inp), cfg, enc, Some(current));
      && !r.panelActive && r.vault.staged.None?
      && VerifyPassword(enc, r.vault, Some(inp.newPassword))
      && (other != inp.newPassword ==> !VerifyPassword(enc, r.vault, Some(other)))
  {
    ChangeStagesPassword(k, cfg, enc, inp);
    ConfirmAppliesStaged(SaveSettings(k, cfg, enc, inp), cfg, enc, inp.newPassword, current, other);
  }

  /** A wrong password at the `change_password` prompt leaves the current
      password and the staged one as they were, and the prompt open. */
  lemma WrongPasswordKeepsCurrent(k: Kiosk, cfg: Config, enc: string -> string, entered: Option<string>)
    requires !VerifyPassword(enc, k.vault, entered)
    ensures var r := HandlePasswordConfirm(k, cfg, enc, entered);
      && r.vault == k.vault && r.panelActive == k.panelActive && r.pending == k.pending
      && r.store == k.store && r.screen == k.screen
  {
  }

  // ---------------------------------------------------------------------
  // Removing the password

  /** Confirming the removal prompt with the current password unlocks the
      kiosk: no password is set, nothing verifies, and the next toggle acts
      at once. */
  lemma RemovalUnlocks(k: Kiosk, cfg: Config, enc: string -> string, current: string, later: Option<string>)
    requires VerifyPassword(enc, k.vault, Some(current))
    ensures var r := HandlePasswordConfirm(HandleRemovePasswordClick(k, cfg), cfg, enc, Some(current));
      && !IsPasswordSet(r.vault) && !r.panelActive
      && !VerifyPassword(enc, r.vault, later)
      && HandleToggleClick(r, cfg) == PerformModeToggle(r, cfg)
  {
    var p := HandleRemovePasswordClick(k, cfg);
    var h := HidePasswordPanel(ClearTimer(p, PasswordTimeout));
    assert HandlePasswordConfirm(p, cfg, enc, Some(current)) == PerformPasswordRemoval(h);
    RemovedRejectsAll(enc, h.vault, later);
  }

  /** The removal prompt opens even with no password set, and then no
      entry confirms it: it stays open until cancelled or timed out. */
  lemma RemovalWithoutPasswordStaysOpen(k: Kiosk, cfg: Config, enc: string -> string, entered: Option<string>)
    requires !IsPasswordSet(k.vault)
    ensures var p := HandleRemovePasswordClick(k, cfg);
      && p.panelActive && p.pending == Some(Remove)
      && var r := HandlePasswordConfirm(p, cfg, enc, entered);
         r.panelActive && r.pending == Some(Remove) && r.vault == k.vault
  {
  }
}
