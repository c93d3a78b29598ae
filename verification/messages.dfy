/** The member-message helpers of the scan endpoint: parsing one
    "icon;text" message, collecting the messages of a member row in field
    order, the member status they imply, and the shape of the scan-check
    response. */
module MemberMessages {
  import opened Text
  import opened Values

  /** `MESSAGE_FIELDS`: the member columns that may carry a message. */
  const MessageFields: seq<string> := [
    "Message1", "Message2", "Message3",
    "Alerte1", "Alerte2", "Alerte3", "Alerte4", "Alerte5",
    "Alerte6", "Alerte7", "Alerte8", "Alerte9"
  ]

  /** `s` ends in one of the image extensions, letters compared without
      regard to ASCII case. */
  predicate EndsWithImageExtension(s: string) {
    var l := AsciiLower(s);
    IsSuffix(".png", l) || IsSuffix(".jpg", l) || IsSuffix(".jpeg", l)
    || IsSuffix(".gif", l) || IsSuffix(".svg", l)
  }

  /** The icon test `/\.(png|jpg|jpeg|gif|svg)$/i`: the `$` anchor also
      matches just before a final newline. */
  predicate HasImageExtension(s: string) {
    EndsWithImageExtension(s)
    || (|s| > 0 && s[|s| - 1] == '\n' && EndsWithImageExtension(s[..|s| - 1]))
  }

  /** On a trimmed string the anchor is plain end of string. */
  lemma ImageExtensionOfTrimmed(s: string)
    requires Trimmed(s, IsPhpTrimSpace)
    ensures HasImageExtension(s) <==> EndsWithImageExtension(s)
  {
  }

  /** A parsed message: `iconName` (null when there is none) and `text`. */
  datatype Message = Message(iconName: Option<string>, text: string)

  /** `parseSingleMessageString`: the trimmed message, split at its first
      ';' when the trimmed part before it names an image. */
  function ParseSingleMessage(raw: string): (r: Message)
    ensures Trimmed(r.text, IsPhpTrimSpace)
    ensures r.iconName.None? ==> r.text == PhpTrim(raw)
    ensures ';' !in PhpTrim(raw) ==> r == Message(None, PhpTrim(raw))
    ensures r.iconName.Some? ==>
      var icon := r.iconName.value;
      && Trimmed(icon, IsPhpTrimSpace) && ';' !in icon && EndsWithImageExtension(icon)
      && |r.text| < |PhpTrim(raw)|
  {
    var text := PhpTrim(raw);
    match IndexOf(text, ';')
    case None => Message(None, text)
    case Some(i) =>
      var potentialIcon := PhpTrim(text[..i]);
      if HasImageExtension(potentialIcon) then
        Message(Some(potentialIcon), PhpTrim(text[i + 1..]))
      else
        Message(None, text)
  }

  lemma JoinTrimmed(icon: string, text: string)
    requires icon != [] && Trimmed(icon, IsPhpTrimSpace)
    requires Trimmed(text, IsPhpTrimSpace)
    ensures Trimmed(icon + ";" + text, IsPhpTrimSpace)
  {
    var raw := icon + ";" + text;
    assert raw[0] == icon[0];
    if text == [] { assert raw[|raw| - 1] == ';'; }
    else { assert raw[|raw| - 1] == text[|text| - 1]; }
  }

  lemma JoinSplit(icon: string, text: string)
    requires ';' !in icon
    ensures IndexOf(icon + ";" + text, ';') == Some(|icon|)
    ensures (icon + ";" + text)[..|icon|] == icon
    ensures (icon + ";" + text)[|icon| + 1..] == text
  {
    var raw := icon + ";" + text;
    assert raw[..|icon|] == icon;
    assert raw[|icon|] == ';';
  }

  lemma ParseRoundTrip(icon: string, text: string)
    requires icon != [] && Trimmed(icon, IsPhpTrimSpace) && ';' !in icon
    requires EndsWithImageExtension(icon)
    requires Trimmed(text, IsPhpTrimSpace)
    ensures ParseSingleMessage(icon + ";" + text) == Message(Some(icon), text)
  {
    var raw := icon + ";" + text;
    JoinTrimmed(icon, text);
    TrimOfTrimmed(raw, IsPhpTrimSpace);
    JoinSplit(icon, text);
    TrimOfTrimmed(icon, IsPhpTrimSpace);
    TrimOfTrimmed(text, IsPhpTrimSpace);
  }

  /** A ';' whose left part is not an image name stays in the text. */
  lemma ParseKeepsPlainSemicolon(raw: string, i: nat)
    requires i < |PhpTrim(raw)| && PhpTrim(raw)[i] == ';' && ';' !in PhpTrim(raw)[..i]
    requires !HasImageExtension(PhpTrim(PhpTrim(raw)[..i]))
    ensures ParseSingleMessage(raw) == Message(None, PhpTrim(raw))
  {
    ParseAt(raw, PhpTrim(raw), i);
  }

  /** The parse, once the first ';' of the trimmed message is known. */
  lemma ParseAt(raw: string, t: string, i: nat)
    requires t == PhpTrim(raw) && i < |t| && t[i] == ';' && ';' !in t[..i]
    ensures ParseSingleMessage(raw) ==
      if HasImageExtension(PhpTrim(t[..i])) then Message(Some(PhpTrim(t[..i])), PhpTrim(t[i + 1..]))
      else Message(None, t)
  {
    FirstIndex(t, ';', i);
  }

  /** A ';' whose trimmed left part is an image name splits the message:
      that left part is the icon and the trimmed rest is the text. */
  lemma ParseSplitsIcon(raw: string, i: nat)
    requires i < |PhpTrim(raw)| && PhpTrim(raw)[i] == ';' && ';' !in PhpTrim(raw)[..i]
    requires HasImageExtension(PhpTrim(PhpTrim(raw)[..i]))
    ensures ParseSingleMessage(raw)
      == Message(Some(PhpTrim(PhpTrim(raw)[..i])), PhpTrim(PhpTrim(raw)[i + 1..]))
  {
    ParseAt(raw, PhpTrim(raw), i);
  }

  /** The concrete case " warn.png ; Pay now ": the icon "warn.png" and the
      text "Pay now". */
  lemma ParseExample(raw: string, icon: string, text: string)
    requires raw == " warn.png ; Pay now " && icon == "warn.png" && text == "Pay now"
    ensures ParseSingleMessage(raw) == Message(Some(icon), text)
  {
    ExampleTrimmed(raw);
    var t := PhpTrim(raw);
    ExampleIcon(t[..9], icon);
    ExampleText(t[10..], text);
    ParseSplitsIcon(raw, 9);
  }

  lemma ExampleTrimmed(raw: string)
    requires raw == " warn.png ; Pay now "
    ensures var t := PhpTrim(raw);
      && |t| == 18 && t[9] == ';' && ';' !in t[..9]
      && t[..9] == "warn.png " && t[10..] == " Pay now"
  {
    var m := raw[1..|raw| - 1];
    assert raw == [' '] + m + [' '];
    TrimPadded(m, ' ', IsPhpTrimSpace);
  }

  lemma ExampleIcon(left: string, icon: string)
    requires left == "warn.png " && icon == "warn.png"
    ensures PhpTrim(left) == icon && HasImageExtension(icon)
  {
    ExampleIconTrim(left, icon);
    ExampleIconIsImage(icon);
  }

  lemma ExampleIconTrim(left: string, icon: string)
    requires left == "warn.png " && icon == "warn.png"
    ensures PhpTrim(left) == icon
  {
    assert left == icon + [' '];
    TrimTrailing(icon, ' ', IsPhpTrimSpace);
  }

  lemma ExampleIconIsImage(icon: string)
    requires icon == "warn.png"
    ensures HasImageExtension(icon)
  {
    var l := AsciiLower(icon);
    assert l[4..] == ".png";
    assert IsSuffix(".png", l);
  }

  lemma ExampleText(right: string, text: string)
    requires right == " Pay now" && text == "Pay now"
    ensures PhpTrim(right) == text
  {
    assert right == [' '] + text;
    TrimLeading(text, ' ', IsPhpTrimSpace);
  }

  /** `trim((string)($memberData[$field] ?? ''))`. */
  function FieldText(member: map<string, Val>, field: string): string {
    PhpTrim(PhpToString(if field in member then member[field] else Null))
  }

  /** PHP truthiness of a string. */
  predicate PhpTruthyString(s: string) {
    !PhpEmptyString(s)
  }

  /** The field holds a message that is kept: its trimmed text is not
      `empty`, and its parse has a truthy icon or a truthy text. */
  predicate Qualifies(member: map<string, Val>, field: string) {
    var raw := FieldText(member, field);
    && !PhpEmptyString(raw)
    && var p := ParseSingleMessage(raw);
       (p.iconName.Some? && PhpTruthyString(p.iconName.value)) || PhpTruthyString(p.text)
  }

  /** An image name is never "" or "0". */
  lemma ImageNameTruthy(icon: string)
    requires EndsWithImageExtension(icon)
    ensures PhpTruthyString(icon)
  {
    assert |AsciiLower(icon)| == |icon|;
  }

  /** The icon-or-text test never drops a message: a non-empty field always
      parses to a truthy icon or a truthy text. */
  lemma QualifiesIffNonEmpty(member: map<string, Val>, field: string)
    ensures Qualifies(member, field) <==> !PhpEmptyString(FieldText(member, field))
  {
    var raw := FieldText(member, field);
    if !PhpEmptyString(raw) {
      TrimIdempotent(PhpToString(if field in member then member[field] else Null), IsPhpTrimSpace);
      var p := ParseSingleMessage(raw);
      if p.iconName.Some? {
        ImageNameTruthy(p.iconName.value);
      }
    }
  }

  /** What one field adds to the message list. */
  function Contribution(member: map<string, Val>, f: string): (r: seq<Message>)
    ensures r == [] <==> PhpEmptyString(FieldText(member, f))
    ensures r != [] ==> r == [ParseSingleMessage(FieldText(member, f))]
  {
    QualifiesIffNonEmpty(member, f);
    if Qualifies(member, f) then [ParseSingleMessage(FieldText(member, f))] else []
  }

  function ContributionOf(member: map<string, Val>): string -> seq<Message> {
    f => Contribution(member, f)
  }

  /** The `foreach` over `fields`, keeping the qualifying parsed messages. */
  function ExtractFrom(member: map<string, Val>, fields: seq<string>): seq<Message> {
    FlatMap(ContributionOf(member), fields)
  }

  /** `extractAndParseMemberMessages($memberData)`. */
  function ExtractMessages(member: map<string, Val>): seq<Message> {
    ExtractFrom(member, MessageFields)
  }

  /** Extraction follows field order: the messages of a split list are those
      of its first part followed by those of its second. */
  lemma ExtractConcat(member: map<string, Val>, a: seq<string>, b: seq<string>)
    ensures ExtractFrom(member, a + b) == ExtractFrom(member, a) + ExtractFrom(member, b)
  {
    FlatMapConcat(ContributionOf(member), a, b);
  }

  /** A single field contributes its parsed message exactly when its trimmed
      text is non-empty in PHP's sense. */
  lemma ExtractOne(member: map<string, Val>, f: string)
    ensures !PhpEmptyString(FieldText(member, f)) ==>
      ExtractFrom(member, [f]) == [ParseSingleMessage(FieldText(member, f))]
    ensures PhpEmptyString(FieldText(member, f)) ==> ExtractFrom(member, [f]) == []
  {
    assert [f][1..] == [];
    assert ExtractFrom(member, [f]) == ContributionOf(member)(f) + FlatMap(ContributionOf(member), []);
  }

  /** At most one message per field. */
  lemma {:induction false} ExtractBound(member: map<string, Val>, fields: seq<string>)
    ensures |ExtractFrom(member, fields)| <= |fields|
    decreases |fields|
  {
    if fields != [] {
      ExtractBound(member, fields[1..]);
    }
  }

  /** The message list is empty exactly when every field is empty. */
  lemma ExtractEmptyIff(member: map<string, Val>, fields: seq<string>)
    ensures ExtractFrom(member, fields) == [] <==>
      forall i :: 0 <= i < |fields| ==> PhpEmptyString(FieldText(member, fields[i]))
  {
    FlatMapEmpty(ContributionOf(member), fields);
  }

  /** `determineMemberStatus($isAutorisee, $messages)`. */
  function DetermineMemberStatus(authorised: bool, messages: seq<Message>): (r: string)
    ensures r in {"allowed", "warning", "denied"}
    ensures r == "denied" <==> !authorised
    ensures r == "warning" <==> authorised && messages != []
  {
    if !authorised then "denied"
    else if messages != [] then "warning"
    else "allowed"
  }

  /** An authorised member is shown as a warning exactly when one of the
      message fields holds non-empty text. */
  lemma StatusWarningIff(authorised: bool, member: map<string, Val>)
    ensures DetermineMemberStatus(authorised, ExtractMessages(member)) == "warning"
      <==> authorised && exists i :: 0 <= i < |MessageFields| && !PhpEmptyString(FieldText(member, MessageFields[i]))
  {
    ExtractEmptyIff(member, MessageFields);
  }

  /** `buildScanCheckResponse($status, $scanData, $errorMessage)` before JSON
      encoding. Keys are assumed non-numeric, so `array_merge` overwrites
      rather than renumbers. */
  function BuildScanCheckResponse(status: string, scanData: Option<map<string, Val>>,
                                  errorMessage: Option<string>): (r: map<string, Val>)
    ensures status == "update_found" && scanData.Some? ==>
      && r.Keys == scanData.value.Keys + {"status"}
      && (forall k :: k in scanData.value ==> r[k] == scanData.value[k])
      && ("status" !in scanData.value ==> r["status"] == Str(status))
    ensures status == "error" ==>
      && "status" in r && r["status"] == Str(status)
      && "message" in r && r["message"] == Str(errorMessage.GetOr("Unknown error"))
      && ("last_scan_id" in r <==>
            scanData.Some? && "last_scan_id" in scanData.value && PhpIsset(scanData.value["last_scan_id"]))
      && ("last_scan_id" in r ==> r["last_scan_id"] == scanData.value["last_scan_id"])
      && r.Keys <= {"status", "message", "last_scan_id"}
    ensures status != "error" && !(status == "update_found" && scanData.Some?) ==>
      r == map["status" := Str(status)]
  {
    var response := map["status" := Str(status)];
    if status == "update_found" && scanData.Some? then
      response + scanData.value
    else if status == "error" then
      var withMessage := response["message" := Str(errorMessage.GetOr("Unknown error"))];
      if scanData.Some? && "last_scan_id" in scanData.value && PhpIsset(scanData.value["last_scan_id"]) then
        withMessage["last_scan_id" := scanData.value["last_scan_id"]]
      else withMessage
    else response
  }
}
