/** The ad image proxy: sanitises and reduces the requested name to a base
    name, refuses anything but a plain image file name, and serves the file
    only when its resolved path lies in the configured image directory.
    `realpath` and the readability test are inputs. */
module AdImage {
  import opened Text
  import opened Values
  import AdFeed

  /** `FILTER_SANITIZE_SPECIAL_CHARS` for one character: quotes, '<', '>',
      '&' and control characters below 32 become "&#NN;". */
  function SanitizeChar(c: char): string {
    if c == '"' || c == '\'' || c == '<' || c == '>' || c == '&' || c as int < 32
    then "&#" + NatToDecimal(c as int) + ";"
    else [c]
  }

  function Sanitize(s: string): string {
    FlatMap(SanitizeChar, s)
  }

  /** After sanitising no control character is left, newlines included. */
  lemma {:induction false} SanitizeNoControl(s: string)
    ensures forall i :: 0 <= i < |Sanitize(s)| ==> Sanitize(s)[i] as int >= 32
    decreases |s|
  {
    if s != [] {
      SanitizeNoControl(s[1..]);
      var h := SanitizeChar(s[0]);
      assert forall i :: 0 <= i < |h| ==> h[i] as int >= 32;
      assert Sanitize(s) == h + Sanitize(s[1..]);
    }
  }

  /** A name made of letters, digits, '_', '.' and '-' is left alone. */
  lemma {:induction false} SanitizePlain(s: string)
    requires forall i :: 0 <= i < |s| ==> NameChar(s[i])
    ensures Sanitize(s) == s
    decreases |s|
  {
    if s != [] {
      SanitizePlain(s[1..]);
      assert Sanitize(s) == [s[0]] + Sanitize(s[1..]);
    }
  }

  /** The outcome of a request: an HTTP error with its message, the file sent
      with its content type, or the uncaught type error `basename` raises
      when the `file` parameter is missing. */
  datatype Reply = Refuse(code: int, message: string) | Send(contentType: string, path: string) | Fatal

  /** The proxy's view of the file system: `realpath` and the
      `is_file`/`is_readable` test. */
  datatype FileSystem = FileSystem(realpath: string -> Option<string>, readableFile: string -> bool)

  /** The class `[a-zA-Z0-9_.-]`. */
  predicate NameChar(c: char) {
    IsAsciiLetter(c) || IsAsciiDigit(c) || c == '_' || c == '.' || c == '-'
  }

  predicate AllNameChars(s: string) {
    forall i :: 0 <= i < |s| ==> NameChar(s[i])
  }

  /** `preg_match('/^[a-zA-Z0-9_.-]+$/', $s)`: the `$` also accepts one
      final newline. */
  predicate MatchesNamePattern(s: string) {
    (|s| > 0 && AllNameChars(s))
    || (|s| > 1 && s[|s| - 1] == '\n' && AllNameChars(s[..|s| - 1]))
  }

  /** The content type of each accepted extension. */
  function ContentTypeOf(ext: string): (r: Option<string>)
    ensures r.Some? <==> ext in {"jpg", "jpeg", "png", "gif", "svg"}
    ensures ext == "jpg" || ext == "jpeg" ==> r == Some("image/jpeg")
    ensures ext == "png" ==> r == Some("image/png")
    ensures ext == "gif" ==> r == Some("image/gif")
    ensures ext == "svg" ==> r == Some("image/svg+xml")
  {
    if ext == "jpg" || ext == "jpeg" then Some("image/jpeg")
    else if ext == "png" then Some("image/png")
    else if ext == "gif" then Some("image/gif")
    else if ext == "svg" then Some("image/svg+xml")
    else None
  }

  /** `basename()` of the sanitised parameter. */
  function BaseName(file: string): string {
    PhpBasename(Sanitize(file))
  }

  /** The traversal test: empty, "..", or a path separator. */
  predicate Traversal(f: string) {
    PhpEmptyString(f) || Contains(f, "..") || '/' in f || '\\' in f
  }

  /** `strtolower(pathinfo($filename, PATHINFO_EXTENSION))`. */
  function Extension(f: string): string {
    AsciiLower(PathExtension(f))
  }

  datatype Result = Accepted(name: string, contentType: string) | Rejected(reply: Reply)

  /** The checks on the name alone, in the order the script makes them: the
      sanitised base name and its content type, or the refusal. */
  function CheckName(file: string): (r: Result)
    ensures r.Accepted? ==>
      && r.name == BaseName(file)
      && !Traversal(r.name) && |r.name| > 0 && AllNameChars(r.name)
      && ContentTypeOf(Extension(r.name)) == Some(r.contentType)
    ensures r.Rejected? ==> r.reply.Refuse? && r.reply.code in {400, 415}
    ensures r.Rejected? && r.reply.code == 415 <==>
      !Traversal(BaseName(file)) && MatchesNamePattern(BaseName(file))
      && ContentTypeOf(Extension(BaseName(file))).None?
  {
    var filename := BaseName(file);
    if Traversal(filename) then
      Rejected(Refuse(400, "Invalid filename."))
    else if !MatchesNamePattern(filename) then
      Rejected(Refuse(400, "Filename contains invalid characters."))
    else
      match ContentTypeOf(Extension(filename))
      case None => Rejected(Refuse(415, "Unsupported image type."))
      case Some(ct) =>
        NoNewlineInName(file);
        Accepted(filename, ct)
  }

  /** The sanitised base name never ends in a newline, so the pattern's
      anchor is an exact end of string. */
  lemma NoNewlineInName(file: string)
    ensures MatchesNamePattern(BaseName(file)) ==> |BaseName(file)| > 0 && AllNameChars(BaseName(file))
  {
    var t := TrimEnd(Sanitize(file), IsSlash);
    var f := BaseName(file);
    SanitizeNoControl(file);
    if |f| > 0 {
      assert f[|f| - 1] == t[|t| - |f| + |f| - 1];
      assert t[|t| - 1] == Sanitize(file)[|t| - 1];
    }
  }

  /** A plain name: what the ad feed's file names are when they pass. */
  predicate PlainName(q: string) {
    q != [] && q != "0" && AllNameChars(q) && !Contains(q, "..")
  }

  /** A plain name reaches the extension test as it is. */
  lemma PlainNameChecked(q: string)
    requires PlainName(q)
    ensures BaseName(q) == q && !Traversal(q) && MatchesNamePattern(q)
  {
    SanitizePlain(q);
    BasenameOfPlain(q);
  }

  /** The name characters are ASCII. */
  lemma NameCharsAscii(q: string)
    requires AllNameChars(q)
    ensures forall i :: 0 <= i < |q| ==> q[i] as int < 0x80
  {
    forall i | 0 <= i < |q| ensures q[i] as int < 0x80 {
      assert NameChar(q[i]);
    }
  }

  /** A plain image name is accepted as it is. */
  lemma PlainImageAccepted(q: string)
    requires PlainName(q) && ContentTypeOf(Extension(q)).Some?
    ensures CheckName(q) == Accepted(q, ContentTypeOf(Extension(q)).value)
  {
    PlainNameChecked(q);
  }

  /** A plain name without an image extension is refused with 415. */
  lemma PlainOtherRefused(q: string)
    requires PlainName(q) && ContentTypeOf(Extension(q)).None?
    ensures CheckName(q) == Rejected(Refuse(415, "Unsupported image type."))
  {
    PlainNameChecked(q);
  }

  /** The resolution part of the script as written: the base directory and
      the name are joined without a separator, and the resolved path must
      merely start with the resolved base directory. */
  function ResolveAsWritten(filename: string, ct: string, baseDir: string, fs: FileSystem): (r: Reply)
    ensures !r.Fatal?
    ensures r.Send? ==> r == Send(ct, baseDir + filename)
    ensures r.Send? ==>
      && fs.realpath(baseDir).Some? && fs.realpath(baseDir + filename).Some?
      && IsPrefix(fs.realpath(baseDir).value, fs.realpath(baseDir + filename).value)
  {
    var fullPath := baseDir + filename;
    match fs.realpath(baseDir)
    case None => Refuse(500, "Server configuration error (base path).")
    case Some(realBase) =>
      match fs.realpath(fullPath)
      case None => Refuse(403, "Access to image forbidden.")
      case Some(realFile) =>
        if !IsPrefix(realBase, realFile) then Refuse(403, "Access to image forbidden.")
        else if !fs.readableFile(realFile) then Refuse(404, "Image not found.")
        else Send(ct, fullPath)
  }

  /** The whole script as written. */
  function ServeAsWritten(file: Option<string>, baseDir: string, fs: FileSystem): (r: Reply)
    ensures file.None? <==> r.Fatal?
    ensures r.Send? ==> CheckName(file.value).Accepted?
  {
    match file
    case None => Fatal
    case Some(q) =>
      match CheckName(q)
      case Rejected(reply) => reply
      case Accepted(filename, ct) => ResolveAsWritten(filename, ct, baseDir, fs)
  }

  /** A file system in which every path exists, is readable and resolves
      to itself. */
  const SelfResolving: FileSystem := FileSystem(p => Some(p), p => true)

  /** With the directory configured without a trailing slash (as the
      default "/path/to/your/images/directory" is) and paths resolving to
      themselves, a plain image name is served from the parent directory,
      outside the configured one: "/srv/ads" and "x.png" send
      "/srv/adsx.png". This needs that path to exist; where it does not,
      `AsWrittenRefusesMissingJoin` gives 403 instead. */
  lemma AsWrittenEscapesDirectory(baseDir: string, q: string)
    requires baseDir != [] && baseDir[|baseDir| - 1] != '/'
    requires PlainName(q) && ContentTypeOf(Extension(q)).Some?
    ensures ServeAsWritten(Some(q), baseDir, SelfResolving)
      == Send(ContentTypeOf(Extension(q)).value, baseDir + q)
    ensures !IsPrefix(baseDir + "/", baseDir + q)
  {
    PlainImageAccepted(q);
    assert NameChar(q[0]);
    SelfResolvingAsWritten(q, ContentTypeOf(Extension(q)).value, baseDir);
  }

  /** The concrete case: with the directory "/srv/ads" the name "x.png" is
      sent as "/srv/ads" + "x.png" as written, a path outside the
      directory, and as "/srv/ads" + "/" + "x.png" once corrected. */
  lemma EscapeExample(baseDir: string, q: string)
    requires baseDir == "/srv/ads" && q == "x.png"
    ensures ServeAsWritten(Some(q), baseDir, SelfResolving) == Send("image/png", baseDir + q)
    ensures !IsPrefix(baseDir + "/", baseDir + q)
    ensures Serve(Some(q), baseDir, SelfResolving) == Send("image/png", baseDir + "/" + q)
  {
    ExampleIsPlain();
    ExampleIsPng();
    AsWrittenEscapesDirectory(baseDir, q);
    ServeKeepsExampleInside(baseDir, q);
  }

  lemma ExampleIsPlain()
    ensures PlainName("x.png")
  {
    var q := "x.png";
    forall i | 0 <= i < |q| ensures NameChar(q[i]) {
    }
    assert !Contains("g", "..");
    assert "ng"[1..] == "g" && "ng"[..2][0] != '.';
    assert !Contains("ng", "..");
    assert "png"[1..] == "ng" && "png"[..2][0] != '.';
    assert !Contains("png", "..");
    assert ".png"[1..] == "png" && ".png"[..2][1] != '.';
    assert !Contains(".png", "..");
    assert q[1..] == ".png" && q[..2][0] != '.';
  }

  lemma ExampleIsPng()
    ensures ContentTypeOf(Extension("x.png")) == Some("image/png")
  {
    var q := "x.png";
    BasenameOfPlain(q);
    assert LastIndexOf(q, '.') == Some(1);
    assert PathExtension(q) == "png";
    assert AsciiLower("png") == "png";
  }

  /** On an ordinary file system the unseparated path usually does not
      exist: whenever it is missing, the script as written refuses the image
      with 403, however valid the name and wherever the file really is. */
  lemma AsWrittenRefusesMissingJoin(q: string, baseDir: string, fs: FileSystem)
    requires PlainName(q) && ContentTypeOf(Extension(q)).Some?
    requires fs.realpath(baseDir).Some? && fs.realpath(baseDir + q).None?
    ensures ServeAsWritten(Some(q), baseDir, fs) == Refuse(403, "Access to image forbidden.")
  {
    PlainImageAccepted(q);
  }

  /** The same name on the same file system is served by the corrected
      script when the file exists inside the directory. */
  lemma CorrectedServesExisting(q: string, baseDir: string, fs: FileSystem)
    requires PlainName(q) && ContentTypeOf(Extension(q)).Some?
    requires fs.realpath(baseDir).Some? && fs.realpath(JoinPath(baseDir, q)).Some?
    requires IsPrefix(JoinPath(fs.realpath(baseDir).value, ""), fs.realpath(JoinPath(baseDir, q)).value)
    requires fs.readableFile(fs.realpath(JoinPath(baseDir, q)).value)
    ensures Serve(Some(q), baseDir, fs) == Send(ContentTypeOf(Extension(q)).value, JoinPath(baseDir, q))
  {
    PlainImageAccepted(q);
    ResolveExisting(q, ContentTypeOf(Extension(q)).value, baseDir, fs);
  }

  lemma ResolveExisting(name: string, ct: string, baseDir: string, fs: FileSystem)
    requires fs.realpath(baseDir).Some? && fs.realpath(JoinPath(baseDir, name)).Some?
    requires IsPrefix(JoinPath(fs.realpath(baseDir).value, ""), fs.realpath(JoinPath(baseDir, name)).value)
    requires fs.readableFile(fs.realpath(JoinPath(baseDir, name)).value)
    ensures Resolve(name, ct, baseDir, fs) == Send(ct, JoinPath(baseDir, name))
  {
  }

  lemma SelfResolvingAsWritten(name: string, ct: string, baseDir: string)
    requires name != [] && name[0] != '/'
    ensures ResolveAsWritten(name, ct, baseDir, SelfResolving) == Send(ct, baseDir + name)
    ensures !IsPrefix(baseDir + "/", baseDir + name)
  {
    assert IsPrefix(baseDir, baseDir + name);
    assert (baseDir + name)[|baseDir|] == name[0];
    assert (baseDir + "/")[|baseDir|] == '/';
  }

  /** The directory joined to the name with exactly one separator. */
  function JoinPath(dir: string, name: string): (r: string)
    ensures IsPrefix(dir, r)
    ensures |dir| > 0 && dir[|dir| - 1] == '/' ==> r == dir + name
    ensures !(|dir| > 0 && dir[|dir| - 1] == '/') ==> r == dir + "/" + name
  {
    if |dir| > 0 && dir[|dir| - 1] == '/' then dir + name else dir + "/" + name
  }

  /** The resolution part as evidently intended: the name is looked up
      inside the directory, and only a resolved path inside the resolved
      directory is served. */
  function Resolve(filename: string, ct: string, baseDir: string, fs: FileSystem): (r: Reply)
    ensures !r.Fatal?
    ensures r.Send? ==> r == Send(ct, JoinPath(baseDir, filename))
    ensures r.Send? ==>
      var realBase := fs.realpath(baseDir);
      var realFile := fs.realpath(JoinPath(baseDir, filename));
      && realBase.Some? && realFile.Some?
      && IsPrefix(JoinPath(realBase.value, ""), realFile.value)
      && fs.readableFile(realFile.value)
  {
    var fullPath := JoinPath(baseDir, filename);
    match fs.realpath(baseDir)
    case None => Refuse(500, "Server configuration error (base path).")
    case Some(realBase) =>
      match fs.realpath(fullPath)
      case None => Refuse(403, "Access to image forbidden.")
      case Some(realFile) =>
        if !IsPrefix(JoinPath(realBase, ""), realFile) then Refuse(403, "Access to image forbidden.")
        else if !fs.readableFile(realFile) then Refuse(404, "Image not found.")
        else Send(ct, fullPath)
  }

  /** The whole script, corrected. */
  function Serve(file: Option<string>, baseDir: string, fs: FileSystem): (r: Reply)
    ensures file.None? <==> r.Fatal?
    ensures r.Send? ==> CheckName(file.value).Accepted?
  {
    match file
    case None => Fatal
    case Some(q) =>
      match CheckName(q)
      case Rejected(reply) => reply
      case Accepted(filename, ct) => Resolve(filename, ct, baseDir, fs)
  }

  /** Whatever `realpath` answers, the corrected script sends only the
      checked name inside the directory, and only when its resolved path
      lies inside the resolved directory. */
  lemma ServeStaysInside(file: Option<string>, baseDir: string, fs: FileSystem)
    ensures var r := Serve(file, baseDir, fs);
      r.Send? ==>
        && r.path == JoinPath(baseDir, CheckName(file.value).name)
        && fs.realpath(baseDir).Some? && fs.realpath(r.path).Some?
        && IsPrefix(JoinPath(fs.realpath(baseDir).value, ""), fs.realpath(r.path).value)
  {
    var r := Serve(file, baseDir, fs);
    if r.Send? {
      var c := CheckName(file.value);
      assert r == Resolve(c.name, c.contentType, baseDir, fs);
    }
  }

  /** The example that escapes as written is served from inside the
      directory once corrected. */
  lemma ServeKeepsExampleInside(baseDir: string, q: string)
    requires baseDir != [] && baseDir[|baseDir| - 1] != '/'
    requires PlainName(q) && ContentTypeOf(Extension(q)).Some?
    ensures Serve(Some(q), baseDir, SelfResolving)
      == Send(ContentTypeOf(Extension(q)).value, baseDir + "/" + q)
    ensures IsPrefix(baseDir + "/", baseDir + "/" + q)
  {
    PlainImageAccepted(q);
    SelfResolvingJoined(q, ContentTypeOf(Extension(q)).value, baseDir);
  }

  lemma SelfResolvingJoined(name: string, ct: string, baseDir: string)
    requires baseDir != [] && baseDir[|baseDir| - 1] != '/'
    ensures Resolve(name, ct, baseDir, SelfResolving) == Send(ct, baseDir + "/" + name)
    ensures IsPrefix(baseDir + "/", baseDir + "/" + name)
  {
    var p := baseDir + "/" + name;
    assert JoinPath(baseDir, "") == baseDir + "/";
    assert p[..|baseDir| + 1] == baseDir + "/";
  }

  /** A pdf or video ad from the feed, with a plain file name, is refused
      with 415 by the proxy the feed points it at, as written and corrected
      alike: only images pass the whitelist. */
  lemma NonImageAdsRefused(name: string, baseDir: string, fs: FileSystem)
    requires PlainName(name)
    requires AdFeed.TypeOfExtension(Extension(name)) in {Some(AdFeed.Pdf), Some(AdFeed.Video)}
    ensures Serve(Some(AdFeed.UrlDecode(AdFeed.UrlEncode(name))), baseDir, fs) == Refuse(415, "Unsupported image type.")
    ensures ServeAsWritten(Some(AdFeed.UrlDecode(AdFeed.UrlEncode(name))), baseDir, fs) == Refuse(415, "Unsupported image type.")
  {
    assert ContentTypeOf(Extension(name)).None?;
    NameCharsAscii(name);
    AdFeed.UrlRoundTrip(name);
    PlainOtherRefused(name);
  }

  /** The concrete case: the feed's "x.pdf" is refused with 415. */
  lemma PdfExample(name: string, baseDir: string, fs: FileSystem)
    requires name == "x.pdf"
    ensures PlainName(name) && AdFeed.TypeOfExtension(Extension(name)) == Some(AdFeed.Pdf)
    ensures Serve(Some(AdFeed.UrlDecode(AdFeed.UrlEncode(name))), baseDir, fs) == Refuse(415, "Unsupported image type.")
  {
    PdfIsPlain(name);
    PdfExtension(name);
    NonImageAdsRefused(name, baseDir, fs);
  }

  lemma PdfIsPlain(q: string)
    requires q == "x.pdf"
    ensures PlainName(q)
  {
    forall i | 0 <= i < |q| ensures NameChar(q[i]) {
    }
    assert !Contains("f", "..");
    assert "df"[1..] == "f" && "df"[..2][0] != '.';
    assert !Contains("df", "..");
    assert "pdf"[1..] == "df" && "pdf"[..2][0] != '.';
    assert !Contains("pdf", "..");
    assert ".pdf"[1..] == "pdf" && ".pdf"[..2][1] != '.';
    assert !Contains(".pdf", "..");
    assert q[1..] == ".pdf" && q[..2][0] != '.';
  }

  lemma PdfExtension(q: string)
    requires q == "x.pdf"
    ensures Extension(q) == "pdf"
  {
    BasenameOfPlain(q);
    assert LastIndexOf(q, '.') == Some(1);
    assert PathExtension(q) == "pdf";
    assert AsciiLower("pdf") == "pdf";
  }
}
