/** The ad feed endpoint: reads the scheduling sections of the ad INI file
    and emits, in section order, the ads whose date, weekday and time
    windows contain the current moment, typed by file extension and pointed
    at the image proxy. The clock reading and the parsed INI file are inputs. */
module AdFeed {
  import opened Text
  import opened Values

  // ---------------------------------------------------------------------
  // PHP 8 numeric strings and comparison

  /** A numeric value `mantissa * 10^exponent`. */
  datatype Decimal = Decimal(mantissa: int, exponent: int)

  /** The optional exponent part of a numeric string: "" or e/E, an
      optional sign and at least one digit, up to the end. */
  function ParseExponent(r: string): Option<int> {
    if r == [] then Some(0)
    else if r[0] != 'e' && r[0] != 'E' then None
    else
      var v := r[1..];
      var neg := |v| > 0 && v[0] == '-';
      var d := if |v| > 0 && (v[0] == '-' || v[0] == '+') then v[1..] else v;
      if |d| > 0 && AllDigits(d) then Some(if neg then -(DigitsValue(d) as int) else DigitsValue(d))
      else None
  }

  /** PHP 8's numeric-string grammar (what `is_numeric` accepts): optional
      surrounding whitespace, an optional sign, digits with an optional
      decimal point (at least one digit in all), an optional exponent. */
  function ParseNumeric(s: string): (r: Option<Decimal>)
    ensures r.Some? ==> Trim(s, IsPhpLeadSpace) != []
  {
    var t := Trim(s, IsPhpLeadSpace);
    if t == [] then None
    else
      var neg := t[0] == '-';
      var u := if t[0] == '-' || t[0] == '+' then t[1..] else t;
      var ip := DigitPrefix(u);
      var r1 := u[|ip|..];
      var hasDot := |r1| > 0 && r1[0] == '.';
      var fp := if hasDot then DigitPrefix(r1[1..]) else "";
      var r2 := if hasDot then r1[1 + |fp|..] else r1;
      if |ip| + |fp| == 0 then None
      else match ParseExponent(r2)
        case None => None
        case Some(e) =>
          assert AllDigits(ip + fp);
          var m := DigitsValue(ip + fp);
          Some(Decimal(if neg then -(m as int) else m, e - |fp|))
  }

  /** `is_numeric($s)` for a string. */
  predicate IsNumeric(s: string) {
    ParseNumeric(s).Some?
  }

  predicate DecimalLess(a: Decimal, b: Decimal) {
    var k := if a.exponent <= b.exponent then a.exponent else b.exponent;
    a.mantissa * Pow10(a.exponent - k) < b.mantissa * Pow10(b.exponent - k)
  }

  /** PHP 8 `$a < $b` on two strings: numerically when both are numeric
      strings, byte-wise otherwise. */
  predicate PhpLess(a: string, b: string) {
    match (ParseNumeric(a), ParseNumeric(b))
    case (Some(x), Some(y)) => DecimalLess(x, y)
    case _ => LexLess(a, b)
  }

  /** A plain digit string is numeric with its decimal value. */
  lemma NumericOfDigits(d: string)
    requires d != [] && AllDigits(d)
    ensures ParseNumeric(d) == Some(Decimal(DigitsValue(d), 0))
  {
    assert !IsPhpLeadSpace(d[0]) && !IsPhpLeadSpace(d[|d| - 1]);
    TrimOfTrimmed(d, IsPhpLeadSpace);
    DigitPrefixOfDigits(d);
    assert d[|d|..] == [];
    assert d + "" == d;
  }

  /** Digit strings of one length, such as "YYYYMMDD" dates and "HHMMSS"
      times, compare by value, and that is their lexicographic order. */
  lemma DigitStringsCompare(a: string, b: string)
    requires a != [] && AllDigits(a) && AllDigits(b) && |a| == |b|
    ensures PhpLess(a, b) <==> DigitsValue(a) < DigitsValue(b)
    ensures PhpLess(a, b) <==> LexLess(a, b)
  {
    NumericOfDigits(a);
    NumericOfDigits(b);
    DigitsOrder(a, b);
  }

  // ---------------------------------------------------------------------
  // One section

  datatype AdType = Image | Video | Pdf

  /** An emitted ad: its `type`, its `src` and its `duration` in milliseconds. */
  datatype Ad = Ad(kind: AdType, src: string, duration: int)

  /** An INI section: its name and its key/value pairs as typed by the INI
      scanner. */
  datatype Section = Section(name: string, fields: map<string, Val>)

  /** The moment of the request: `date('Ymd')`, `date('N')` (1 for Monday to
      7 for Sunday) and `date('His')`. */
  datatype Clock = Clock(date: string, weekday: int, time: string)

  function Field(sec: Section, key: string): Val {
    if key in sec.fields then sec.fields[key] else Undefined
  }

  /** The section is an ad: numeric name, non-empty `NOM`, and the seven
      scheduling keys all set. */
  predicate Eligible(sec: Section) {
    && IsNumeric(sec.name)
    && !PhpEmpty(Field(sec, "NOM"))
    && PhpIsset(Field(sec, "DEBUT")) && PhpIsset(Field(sec, "FIN"))
    && PhpIsset(Field(sec, "DU")) && PhpIsset(Field(sec, "AU"))
    && PhpIsset(Field(sec, "DE")) && PhpIsset(Field(sec, "A"))
    && PhpIsset(Field(sec, "PAUSE"))
  }

  /** The first six characters of a time padded with zeros to nine: the
      HHMMSS part of an HHMMSSsss time. */
  function TimeBound(v: Val): (r: string)
    ensures |r| == 6
  {
    PadLeft(PhpToString(v), 9, '0')[..6]
  }

  /** The weekday window from `du` to `au`, which wraps past Sunday when
      `du > au`. */
  predicate InDayRange(du: int, au: int, day: int) {
    if du <= au then du <= day <= au else day >= du || day <= au
  }

  /** A wrapped window is the week minus the days strictly between its ends. */
  lemma WrappedDayRange(du: int, au: int, day: int)
    requires du > au
    ensures InDayRange(du, au, day) <==> !(au < day < du)
  {
  }

  /** Friday to Monday covers exactly Friday, Saturday, Sunday and Monday. */
  lemma FridayToMonday(day: int)
    requires 1 <= day <= 7
    ensures InDayRange(5, 1, day) <==> day in {5, 6, 7, 1}
  {
  }

  predicate InDateWindow(sec: Section, clk: Clock) {
    !PhpLess(clk.date, PhpToString(Field(sec, "DEBUT")))
    && !PhpLess(PhpToString(Field(sec, "FIN")), clk.date)
  }

  predicate InTimeWindow(sec: Section, clk: Clock) {
    !PhpLess(clk.time, TimeBound(Field(sec, "DE")))
    && !PhpLess(TimeBound(Field(sec, "A")), clk.time)
  }

  predicate Active(sec: Section, clk: Clock) {
    && InDateWindow(sec, clk)
    && InDayRange(PhpToInt(Field(sec, "DU")), PhpToInt(Field(sec, "AU")), clk.weekday)
    && InTimeWindow(sec, clk)
  }

  /** The file type named by a lower-case extension. */
  function TypeOfExtension(ext: string): (r: Option<AdType>)
    ensures r == Some(Image) <==> ext in {"jpg", "jpeg", "png", "gif", "svg"}
    ensures r == Some(Video) <==> ext in {"mp4", "webm", "ogg"}
    ensures r == Some(Pdf) <==> ext == "pdf"
  {
    if ext in {"jpg", "jpeg", "png", "gif", "svg"} then Some(Image)
    else if ext in {"mp4", "webm", "ogg"} then Some(Video)
    else if ext == "pdf" then Some(Pdf)
    else None
  }

  /** `trim((string)$ad['NOM'])`. */
  function FileName(sec: Section): string {
    PhpTrim(PhpToString(Field(sec, "NOM")))
  }

  function FileType(sec: Section): Option<AdType> {
    TypeOfExtension(AsciiLower(PathExtension(FileName(sec))))
  }

  const ProxyPath := "api/get_ad_image.php"

  /** The body of the section loop: the ad a section emits, if any. */
  function SectionAd(sec: Section, clk: Clock): (r: Option<Ad>)
    ensures r.Some? <==> Eligible(sec) && Active(sec, clk) && FileType(sec).Some?
    ensures r.Some? ==>
      && r.value.kind == FileType(sec).value
      && r.value.src == ProxyPath + "?file=" + UrlEncode(FileName(sec))
      && r.value.duration == PhpToInt(Field(sec, "PAUSE")) * 1000
  {
    if !Eligible(sec) then None
    else if !InDateWindow(sec, clk) then None
    else if !InDayRange(PhpToInt(Field(sec, "DU")), PhpToInt(Field(sec, "AU")), clk.weekday) then None
    else if !InTimeWindow(sec, clk) then None
    else
      match FileType(sec)
      case None => None
      case Some(t) => Some(Ad(t, ProxyPath + "?file=" + UrlEncode(FileName(sec)), PhpToInt(Field(sec, "PAUSE")) * 1000))
  }

  /** For eight-digit dates the date test is calendar order, inclusive. */
  lemma DateWindowByValue(sec: Section, clk: Clock)
    requires var debut := PhpToString(Field(sec, "DEBUT")); var fin := PhpToString(Field(sec, "FIN"));
      && |clk.date| == 8 && |debut| == 8 && |fin| == 8
      && AllDigits(clk.date) && AllDigits(debut) && AllDigits(fin)
    ensures var debut := PhpToString(Field(sec, "DEBUT")); var fin := PhpToString(Field(sec, "FIN"));
      InDateWindow(sec, clk) <==> DigitsValue(debut) <= DigitsValue(clk.date) <= DigitsValue(fin)
  {
    var debut := PhpToString(Field(sec, "DEBUT"));
    var fin := PhpToString(Field(sec, "FIN"));
    DigitStringsCompare(clk.date, debut);
    DigitStringsCompare(fin, clk.date);
  }

  // ---------------------------------------------------------------------
  // urlencode

  /** UTF-8 encoding of one code point. */
  function Utf8(c: char): (r: seq<nat>)
    ensures 1 <= |r| <= 4
    ensures forall i :: 0 <= i < |r| ==> r[i] < 256
    ensures c as int < 0x80 <==> r == [c as int]
  {
    var x := c as int;
    if x < 0x80 then [x]
    else if x < 0x800 then [0xC0 + x / 64, 0x80 + x % 64]
    else if x < 0x10000 then [0xE0 + x / 4096, 0x80 + (x / 64) % 64, 0x80 + x % 64]
    else [0xF0 + x / 262144, 0x80 + (x / 4096) % 64, 0x80 + (x / 64) % 64, 0x80 + x % 64]
  }

  /** The bytes `urlencode` leaves as they are. */
  predicate UrlSafeByte(b: nat) {
    ('a' as int <= b <= 'z' as int) || ('A' as int <= b <= 'Z' as int)
    || ('0' as int <= b <= '9' as int) || b == '-' as int || b == '_' as int || b == '.' as int
  }

  function HexDigit(d: nat): (c: char)
    requires d < 16
  {
    if d < 10 then ('0' as int + d) as char else ('A' as int + d - 10) as char
  }

  /** One byte as `urlencode` writes it. */
  function EncodeByte(b: nat): (r: string)
    requires b < 256
  {
    if UrlSafeByte(b) then [b as char]
    else if b == ' ' as int then "+"
    else ['%', HexDigit(b / 16), HexDigit(b % 16)]
  }

  function EncodeBytes(bs: seq<nat>): string
    requires forall i :: 0 <= i < |bs| ==> bs[i] < 256
  {
    if bs == [] then "" else EncodeByte(bs[0]) + EncodeBytes(bs[1..])
  }

  function EncodeChar(c: char): string {
    EncodeBytes(Utf8(c))
  }

  /** PHP `urlencode` of the UTF-8 form of `s`. */
  function UrlEncode(s: string): string {
    FlatMap(EncodeChar, s)
  }

  predicate UrlSafeChar(c: char) {
    c as int < 0x80 && UrlSafeByte(c as int)
  }

  /** Letters, digits, '-', '_' and '.' go through `urlencode` unchanged. */
  lemma {:induction false} UrlEncodeSafe(s: string)
    requires forall i :: 0 <= i < |s| ==> UrlSafeChar(s[i])
    ensures UrlEncode(s) == s
    decreases |s|
  {
    if s != [] {
      UrlEncodeSafe(s[1..]);
      assert EncodeChar(s[0]) == [s[0]];
    }
  }

  /** The inverse of `urlencode` on ASCII text, as PHP applies it to query
      parameters: '+' is a space, "%XY" the byte XY. */
  function HexValue(c: char): Option<nat> {
    if '0' <= c <= '9' then Some(c as int - '0' as int)
    else if 'A' <= c <= 'F' then Some(c as int - 'A' as int + 10)
    else if 'a' <= c <= 'f' then Some(c as int - 'a' as int + 10)
    else None
  }

  function UrlDecode(s: string): string
    decreases |s|
  {
    if s == [] then ""
    else if s[0] == '+' then " " + UrlDecode(s[1..])
    else if s[0] == '%' && |s| >= 3 && HexValue(s[1]).Some? && HexValue(s[2]).Some? then
      [(HexValue(s[1]).value * 16 + HexValue(s[2]).value) as char] + UrlDecode(s[3..])
    else [s[0]] + UrlDecode(s[1..])
  }

  lemma HexRoundTrip(d: nat)
    requires d < 16
    ensures HexValue(HexDigit(d)) == Some(d)
  {
  }

  lemma {:induction false} DecodeEncodedChar(c: char, rest: string)
    requires c as int < 0x80
    ensures UrlDecode(EncodeChar(c) + rest) == [c] + UrlDecode(rest)
  {
    var b := c as int;
    assert Utf8(c) == [b];
    assert EncodeChar(c) == EncodeByte(b) by {
      assert EncodeBytes([b]) == EncodeByte(b) + EncodeBytes([]);
    }
    if UrlSafeByte(b) {
      assert ([b as char] + rest)[1..] == rest;
    } else if b == ' ' as int {
      assert ("+" + rest)[1..] == rest;
    } else {
      var e := ['%', HexDigit(b / 16), HexDigit(b % 16)];
      HexRoundTrip(b / 16);
      HexRoundTrip(b % 16);
      assert (e + rest)[1] == HexDigit(b / 16) && (e + rest)[2] == HexDigit(b % 16);
      assert (e + rest)[3..] == rest;
    }
  }

  /** Decoding an encoded ASCII string gives it back. */
  lemma {:induction false} UrlRoundTrip(s: string)
    requires forall i :: 0 <= i < |s| ==> s[i] as int < 0x80
    ensures UrlDecode(UrlEncode(s)) == s
    decreases |s|
  {
    if s != [] {
      UrlRoundTrip(s[1..]);
      assert UrlEncode(s) == EncodeChar(s[0]) + UrlEncode(s[1..]);
      DecodeEncodedChar(s[0], UrlEncode(s[1..]));
      assert s == [s[0]] + s[1..];
    }
  }

  // ---------------------------------------------------------------------
  // The endpoint

  /** What the endpoint finds on disk: no readable file, a file
      `parse_ini_file` rejects, or the parsed sections in file order. */
  datatype IniFile = Unreadable | Unparsable | Parsed(sections: seq<Section>)

  /** The JSON reply: `buildSuccessResponse($activeAds)` or
      `buildErrorResponse($message)`. */
  datatype FeedReply = Success(ads: seq<Ad>) | Failure(message: string)

  function AdsOf(clk: Clock): Section -> seq<Ad> {
    sec => match SectionAd(sec, clk) case Some(ad) => [ad] case None => []
  }

  /** The section loop: every section's ad, in section order. */
  function ActiveAds(sections: seq<Section>, clk: Clock): seq<Ad> {
    FlatMap(AdsOf(clk), sections)
  }

  /** The whole request. */
  function GetAds(file: IniFile, clk: Clock): (r: FeedReply)
    ensures file.Unreadable? ==> r == Failure("Ad configuration file not found.")
    ensures file.Unparsable? ==> r == Failure("Could not read ad configuration.")
  {
    match file
    case Unreadable => Failure("Ad configuration file not found.")
    case Unparsable => Failure("Could not read ad configuration.")
    case Parsed(sections) => Success(ActiveAds(sections, clk))
  }

  lemma AdsOfSection(clk: Clock, sec: Section, ad: Ad)
    ensures ad in AdsOf(clk)(sec) <==> SectionAd(sec, clk) == Some(ad)
  {
  }

  /** Every emitted ad comes from an eligible, active section with a known
      file type, and every such section emits its ad. */
  lemma ActiveAdsMember(sections: seq<Section>, clk: Clock, ad: Ad)
    ensures ad in ActiveAds(sections, clk) <==>
      exists i :: 0 <= i < |sections| && SectionAd(sections[i], clk) == Some(ad)
  {
    FlatMapMember(AdsOf(clk), sections, ad);
    forall i | 0 <= i < |sections|
      ensures ad in AdsOf(clk)(sections[i]) <==> SectionAd(sections[i], clk) == Some(ad)
    {
      AdsOfSection(clk, sections[i], ad);
    }
  }

  /** The output follows file order: the ads of two consecutive runs of
      sections are those of the first followed by those of the second. */
  lemma ActiveAdsOrder(a: seq<Section>, b: seq<Section>, clk: Clock)
    ensures ActiveAds(a + b, clk) == ActiveAds(a, clk) + ActiveAds(b, clk)
  {
    FlatMapConcat(AdsOf(clk), a, b);
  }

  /** At most one ad per section. */
  lemma {:induction false} ActiveAdsBound(sections: seq<Section>, clk: Clock)
    ensures |ActiveAds(sections, clk)| <= |sections|
    decreases |sections|
  {
    if sections != [] {
      ActiveAdsBound(sections[1..], clk);
    }
  }
}
