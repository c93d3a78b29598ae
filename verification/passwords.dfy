/** The lock-password gate. The secret lives in local storage under its own
    key, obfuscated (base64 through `btoa`, which is not a security measure);
    a new password typed while one exists is staged in a module variable
    until the old one is confirmed. `btoa` itself is a parameter: any
    encoder that is injective on Latin-1 strings and answers in Latin-1. */
module Passwords {
  import opened Text

  /** What `btoa` accepts: every character below 256. */
  predicate Latin1(s: string) {
    forall i :: 0 <= i < |s| ==> s[i] as int < 256
  }

  /** The properties of `btoa` the model relies on. */
  ghost predicate GoodEncoder(enc: string -> string) {
    && (forall p :: Latin1(p) ==> Latin1(enc(p)))
    && (forall p :: Latin1(p) && p != "" ==> enc(p) != "")
    && (forall p, q :: Latin1(p) && Latin1(q) && enc(p) == enc(q) ==> p == q)
  }

  /** `obfuscate(plainText)`: `btoa(plainText)`, or the plain text itself when
      `btoa` throws because some character is above 255. */
  function Obfuscate(enc: string -> string, p: string): string {
    if Latin1(p) then enc(p) else p
  }

  /** Two different passwords never share an obfuscated form: either both are
      encoded, or the one that is not encoded still contains a character the
      encoder never produces. */
  lemma ObfuscateInjective(enc: string -> string, p: string, q: string)
    requires GoodEncoder(enc)
    requires Obfuscate(enc, p) == Obfuscate(enc, q)
    ensures p == q
  {
  }

  /** A value handed to `setPassword`: a string, `null`, or anything else. */
  datatype Input = Text(s: string) | NullInput | OtherInput

  /** `stored` is local storage's entry for the lock password (None when the
      key is absent); `staged` is `_newPasswordAttempt`. */
  datatype Vault = Vault(stored: Option<string>, staged: Option<string>)

  const Unset: Vault := Vault(None, None)

  /** `isPasswordSet()`. */
  predicate IsPasswordSet(v: Vault) {
    v.stored.Some? && v.stored.value != ""
  }

  /** `verifyPassword(entered)`; `None` is an `undefined` entry. */
  predicate VerifyPassword(enc: string -> string, v: Vault, entered: Option<string>) {
    && entered.Some? && entered.value != ""
    && v.stored.Some? && v.stored.value != ""
    && Obfuscate(enc, entered.value) == v.stored.value
  }

  /** `removePassword()`. */
  function RemovePassword(v: Vault): (r: Vault)
    ensures !IsPasswordSet(r)
    ensures r.staged == v.staged
  {
    v.(stored := None)
  }

  /** `setPassword(password)`: the new vault and the returned flag. */
  function SetPassword(enc: string -> string, v: Vault, input: Input): (r: (Vault, bool))
    ensures r.0.staged == v.staged
    ensures input.Text? && input.s != "" && Obfuscate(enc, input.s) != "" ==>
              r.1 && r.0.stored == Some(Obfuscate(enc, input.s))
    ensures (input.NullInput? || input == Text("")) ==> r.1 && r.0.stored == None
    ensures input.OtherInput? ==> !r.1 && r.0 == v
    ensures !r.1 ==> r.0 == v
  {
    match input
    case Text(p) =>
      if p != "" then
        var o := Obfuscate(enc, p);
        if o != "" then (v.(stored := Some(o)), true) else (v, false)
      else (RemovePassword(v), true)
    case NullInput => (RemovePassword(v), true)
    case OtherInput => (v, false)
  }

  /** `storeNewPasswordAttempt(p)`. */
  function StoreAttempt(v: Vault, p: string): (r: Vault)
    ensures r.stored == v.stored && r.staged == Some(p)
  {
    v.(staged := Some(p))
  }

  /** `clearNewPasswordAttempt()`. */
  function ClearAttempt(v: Vault): (r: Vault)
    ensures r.stored == v.stored && r.staged == None
  {
    v.(staged := None)
  }

  /** Setting a non-empty password makes it the one password the gate accepts. */
  lemma SetThenVerify(enc: string -> string, v: Vault, p: string, q: string)
    requires GoodEncoder(enc) && p != ""
    ensures SetPassword(enc, v, Text(p)).1
    ensures IsPasswordSet(SetPassword(enc, v, Text(p)).0)
    ensures VerifyPassword(enc, SetPassword(enc, v, Text(p)).0, Some(p))
    ensures q != p ==> !VerifyPassword(enc, SetPassword(enc, v, Text(p)).0, Some(q))
  {
    assert Obfuscate(enc, p) != "";
    if q != p && VerifyPassword(enc, SetPassword(enc, v, Text(p)).0, Some(q)) {
      ObfuscateInjective(enc, p, q);
    }
  }

  /** Nothing verifies once the secret is removed. */
  lemma RemovedRejectsAll(enc: string -> string, v: Vault, entered: Option<string>)
    ensures !VerifyPassword(enc, RemovePassword(v), entered)
  {
  }
}
