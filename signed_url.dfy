/** `getSignedUrl`: a time-limited URL for a stored object, carrying an MD5 signature
    that a server holding the same secret can recompute.

    MD5 with base64 output, `encodeURIComponent` and `decodeURIComponent` are library
    calls the model does not interpret: they are the fields of `Codecs`. The two URI
    codecs return `None` where JavaScript throws a `URIError`, and the whole call then
    fails. The result of `utils.checkBaseUrl`, the clock and the name of the shard-key
    query parameter are parameters. */
module SignedUrl {
  import opened Wrappers
  import opened Text
  import opened Decimal
  import opened Paths
  import opened Expiry

  /** The storage configuration, read once at start-up. */
  datatype Config = Config(
    bucketName: string,
    storageFolderName: string,
    secretString: string,
    urlExpires: int,        // seconds
    sessionAbsoluteMs: int  // milliseconds
  )

  /** The per-request context; only its optional shard key is read here. */
  datatype Context = Context(shardKey: Option<string>)

  /** The library calls taken as given. */
  datatype Codecs = Codecs(
    encodeUriComponent: string -> Option<string>,
    decodeUriComponent: string -> Option<string>,
    md5Base64: string -> string
  )

  /** JavaScript truthiness of an optional string: present and not empty. */
  predicate Truthy(o: Option<string>)
  {
    o.Some? && o.value != ""
  }

  /** A supplied filename with every '/' written as "%2f" before it is percent-encoded,
      so that a proxy that decodes "%2F" cannot split it into path segments. */
  function EscapeFilename(f: string): (r: string)
    ensures '/' !in r
    ensures |r| == |f| + 2 * Count(f, '/')
    ensures '/' !in f ==> r == f
  {
    SubstituteEscape(f, '/', "%2f");
    Substitute(f, '/', "%2f")
  }

  /** The display filename: the encoded escaped filename when one is given (and not empty),
      else the last segment of the key. `None` when the encoding throws. */
  function DisplayName(codecs: Codecs, optFilename: Option<string>, strPath: string): (r: Option<string>)
    ensures !Truthy(optFilename) ==> r.Some? && '/' !in r.value
  {
    if Truthy(optFilename) then codecs.encodeUriComponent(EscapeFilename(optFilename.value))
    else Some(Basename(strPath))
  }

  /** The display name contains no '/' whenever percent-encoding introduces none. */
  lemma DisplayNameSlashFree(codecs: Codecs, optFilename: Option<string>, strPath: string)
    requires forall s :: '/' !in s && codecs.encodeUriComponent(s).Some? ==> '/' !in codecs.encodeUriComponent(s).value
    requires DisplayName(codecs, optFilename, strPath).Some?
    ensures '/' !in DisplayName(codecs, optFilename, strPath).value
    ensures !Truthy(optFilename) ==> DisplayName(codecs, optFilename, strPath) == Some(Basename(strPath))
  {
  }

  /** The path part of the URL: bucket, storage folder, key and display name. */
  function CanonicalUri(cfg: Config, strPath: string, name: string): (r: string)
    ensures |r| > 0 && r[0] == '/' && !IsDigit(r[0])
  {
    "/" + cfg.bucketName + "/" + cfg.storageFolderName + "/" + strPath + "/" + name
  }

  /** A non-empty, slash-free display name is the last segment of the canonical URI,
      so the server sees the object's key and the display name as separate segments. */
  lemma CanonicalUriLastSegment(cfg: Config, strPath: string, name: string)
    requires name != [] && '/' !in name
    ensures Basename(CanonicalUri(cfg, strPath, name)) == name
  {
    var d := "/" + cfg.bucketName + "/" + cfg.storageFolderName + "/" + strPath;
    assert CanonicalUri(cfg, strPath, name) == d + "/" + name;
    BasenameOfJoin(d, name);
  }

  /** The base URL with every '_' written as "%5f" (host names may not hold underscores). */
  function EscapeBaseUrl(b: string): (r: string)
    ensures '_' !in r
    ensures |r| == |b| + 2 * Count(b, '_')
    ensures '_' !in b ==> r == b
  {
    SubstituteEscape(b, '_', "%5f");
    Substitute(b, '_', "%5f")
  }

  /** The URL-safe form of a base64 digest, as the source computes it: three successive
      global replacements, '+' to '-', then '/' to '_', then '=' removed. */
  function UrlSafeDigest(b64: string): (r: string)
    ensures '+' !in r && '/' !in r && '=' !in r
  {
    Substitute(Substitute(Substitute(b64, '+', "-"), '/', "_"), '=', "")
  }

  /** What one character of the digest becomes in the URL-safe form. */
  function UrlSafeChar(ch: char): string
  {
    if ch == '+' then "-" else if ch == '/' then "_" else if ch == '=' then "" else [ch]
  }

  /** The URL-safe form in one left-to-right pass: each character mapped on its own,
      so all other characters stay, in order. */
  function UrlSafeOnePass(s: string): string
  {
    if s == [] then [] else UrlSafeChar(s[0]) + UrlSafeOnePass(s[1..])
  }

  /** The three replacements do not interfere: together they are the one-pass mapping. */
  lemma {:induction false} UrlSafeDigestIsOnePass(s: string)
    ensures UrlSafeDigest(s) == UrlSafeOnePass(s)
  {
    if s != [] {
      var h, t := s[..1], s[1..];
      assert s == h + t;
      SubstituteAppend(h, t, '+', "-");
      var a1, b1 := Substitute(h, '+', "-"), Substitute(t, '+', "-");
      SubstituteAppend(a1, b1, '/', "_");
      var a2, b2 := Substitute(a1, '/', "_"), Substitute(b1, '/', "_");
      SubstituteAppend(a2, b2, '=', "");
      assert Substitute(a2, '=', "") == UrlSafeChar(s[0]);
      UrlSafeDigestIsOnePass(t);
    }
  }

  /** A digest without '+', '/' or '=' is already URL-safe and is left unchanged. */
  lemma UrlSafeDigestKeepsSafe(s: string)
    requires '+' !in s && '/' !in s && '=' !in s
    ensures UrlSafeDigest(s) == s
  {
    SubstituteAbsent(s, '+', "-");
    SubstituteAbsent(s, '/', "_");
    SubstituteAbsent(s, '=', "");
  }

  /** The signed string: the expiry in decimal, the decoded canonical URI, the secret. */
  function SignaturePayload(expires: int, decodedUri: string, secret: string): string
  {
    IntDecimal(expires) + decodedUri + secret
  }

  /** The signed string fixes the expiry, because the decoded URI starts with a non-digit
      ('/'). Under the same secret it fixes the decoded URI (so the key and the display
      name), and for the same URI it fixes the secret. */
  lemma SignaturePayloadDeterminesExpires(e1: int, e2: int, u1: string, u2: string, s1: string, s2: string)
    requires |u1| > 0 && !IsDigit(u1[0]) && |u2| > 0 && !IsDigit(u2[0])
    requires SignaturePayload(e1, u1, s1) == SignaturePayload(e2, u2, s2)
    ensures e1 == e2
    ensures u1 + s1 == u2 + s2
    ensures u1 == u2 ==> s1 == s2
    ensures s1 == s2 ==> u1 == u2
  {
    var p1, p2 := IntDecimal(e1), IntDecimal(e2);
    assert p1 + u1 + s1 == p1 + (u1 + s1);
    assert p2 + u2 + s2 == p2 + (u2 + s2);
    NumeralPrefixUnique(e1, e2, u1 + s1, u2 + s2);
    if u1 == u2 {
      CancelPrefix(u1, s1, s2);
    }
    if s1 == s2 {
      assert u1 == (u1 + s1)[..|u1|];
      assert u2 == (u2 + s2)[..|u2|];
    }
  }

  /** The `md5` value before URI encoding. */
  function Signature(codecs: Codecs, secret: string, expires: int, decodedUri: string): (r: string)
    ensures '+' !in r && '/' !in r && '=' !in r
  {
    UrlSafeDigest(codecs.md5Base64(SignaturePayload(expires, decodedUri, secret)))
  }

  /** The `expires` value in seconds, from the configuration, the URL type, the optional
      creation date and the current time in milliseconds. */
  function UrlExpires(cfg: Config, urlType: UrlType, optCreationDate: Option<int>, now: int): int
    requires urlType == Session ==> cfg.sessionAbsoluteMs % 1000 == 0
  {
    ExpiresSeconds(now, CreationDate(optCreationDate, now), WindowSeconds(urlType, cfg.urlExpires, cfg.sessionAbsoluteMs))
  }

  /** With non-negative configuration the URL is valid at least one window past the
      current second, and exactly that long when no creation date is given. */
  lemma UrlExpiresAtLeastOneWindow(cfg: Config, urlType: UrlType, optCreationDate: Option<int>, now: int)
    requires urlType == Session ==> cfg.sessionAbsoluteMs % 1000 == 0
    requires cfg.urlExpires >= 0 && cfg.sessionAbsoluteMs >= 0
    ensures var w := WindowSeconds(urlType, cfg.urlExpires, cfg.sessionAbsoluteMs);
      && w > 0
      && UrlExpires(cfg, urlType, optCreationDate, now) >= CeilDiv(now, 1000) + w
      && (optCreationDate == None ==> UrlExpires(cfg, urlType, optCreationDate, now) == CeilDiv(now, 1000) + w)
  {
    WindowPositive(urlType, cfg.urlExpires, cfg.sessionAbsoluteMs);
    var w := WindowSeconds(urlType, cfg.urlExpires, cfg.sessionAbsoluteMs);
    ExpiresLowerBound(now, CreationDate(optCreationDate, now), w);
    ExpiresWithoutCreationDate(now, w);
  }

  /** The query parameters of the URL, in the order the source appends them. */
  function QueryParams(md5: string, expires: string, shard: Option<string>, shardParamName: string, name: string): (ps: seq<(string, string)>)
    ensures |ps| == if shard.Some? then 4 else 3
    ensures ps[0] == ("md5", md5) && ps[1] == ("expires", expires)
    ensures ps[|ps| - 1] == ("filename", name)
    ensures shard.Some? ==> ps[2] == (shardParamName, shard.value)
  {
    [("md5", md5), ("expires", expires)]
    + (if shard.Some? then [(shardParamName, shard.value)] else [])
    + [("filename", name)]
  }

  /** A query string: `key=value` pairs joined by '&'. */
  function JoinQuery(ps: seq<(string, string)>): string
  {
    if ps == [] then ""
    else ps[0].0 + "=" + ps[0].1 + (if |ps| == 1 then "" else "&" + JoinQuery(ps[1..]))
  }

  /** The URL as the source builds it, by appending to a string. */
  function AssembleUrl(base: string, uri: string, md5: string, expires: string, shard: Option<string>, shardParamName: string, name: string): string
  {
    var url := base + uri;
    var url := url + "?md5=" + md5;
    var url := url + "&expires=" + expires;
    var url := if shard.Some? then url + "&" + shardParamName + "=" + shard.value else url;
    url + "&filename=" + name
  }

  /** The appended string is the base, the path, '?', and the parameters joined by '&'. */
  lemma AssembleUrlIsQueryString(base: string, uri: string, md5: string, expires: string, shard: Option<string>, shardParamName: string, name: string)
    ensures AssembleUrl(base, uri, md5, expires, shard, shardParamName, name)
      == base + uri + "?" + JoinQuery(QueryParams(md5, expires, shard, shardParamName, name))
  {
    assert "?md5=" == "?" + "md5=" && "&expires=" == "&" + "expires=" && "&filename=" == "&" + "filename=";
    if shard.Some? {
      var n, v := shardParamName, shard.value;
      assert QueryParams(md5, expires, shard, n, name) == [("md5", md5), ("expires", expires), (n, v), ("filename", name)];
      JoinFourParams(md5, expires, n, v, name);
    } else {
      assert QueryParams(md5, expires, shard, shardParamName, name) == [("md5", md5), ("expires", expires), ("filename", name)];
      JoinThreeParams(md5, expires, name);
    }
  }

  lemma JoinThreeParams(md5: string, expires: string, name: string)
    ensures JoinQuery([("md5", md5), ("expires", expires), ("filename", name)])
      == "md5=" + md5 + "&" + ("expires=" + expires + "&" + ("filename=" + name))
  {
    var ps := [("md5", md5), ("expires", expires), ("filename", name)];
    assert ps[2..] == [("filename", name)];
    assert ps[1..][1..] == ps[2..];
    assert JoinQuery(ps[1..]) == "expires=" + expires + "&" + ("filename=" + name);
  }

  lemma JoinFourParams(md5: string, expires: string, n: string, v: string, name: string)
    ensures JoinQuery([("md5", md5), ("expires", expires), (n, v), ("filename", name)])
      == "md5=" + md5 + "&" + ("expires=" + expires + "&" + (n + "=" + v + "&" + ("filename=" + name)))
  {
    var ps := [("md5", md5), ("expires", expires), (n, v), ("filename", name)];
    assert ps[3..] == [("filename", name)];
    assert ps[2..][1..] == ps[3..];
    assert JoinQuery(ps[2..]) == n + "=" + v + "&" + ("filename=" + name);
    assert ps[1..][1..] == ps[2..];
    assert JoinQuery(ps[1..]) == "expires=" + expires + "&" + (n + "=" + v + "&" + ("filename=" + name));
  }

  /** The encoded shard key when the context carries a (non-empty) one: `Some(None)` when
      there is none, `None` when encoding it throws. */
  function ShardParam(codecs: Codecs, ctx: Context): Option<Option<string>>
  {
    if !Truthy(ctx.shardKey) then Some(None)
    else match codecs.encodeUriComponent(ctx.shardKey.value)
      case None => None
      case Some(v) => Some(Some(v))
  }

  /** `getSignedUrl`. `None` stands for the `URIError` an encoding or decoding call throws. */
  function GetSignedUrl(cfg: Config, codecs: Codecs, ctx: Context, checkedBaseUrl: string,
                        strPath: string, urlType: UrlType, optFilename: Option<string>,
                        optCreationDate: Option<int>, now: int, shardParamName: string): Option<string>
    requires urlType == Session ==> cfg.sessionAbsoluteMs % 1000 == 0
  {
    match DisplayName(codecs, optFilename, strPath)
    case None => None
    case Some(name) =>
      var uri := CanonicalUri(cfg, strPath, name);
      var expires := UrlExpires(cfg, urlType, optCreationDate, now);
      match codecs.decodeUriComponent(uri)
      case None => None
      case Some(decoded) =>
        var md5 := Signature(codecs, cfg.secretString, expires, decoded);
        match (codecs.encodeUriComponent(md5), codecs.encodeUriComponent(IntDecimal(expires)), ShardParam(codecs, ctx))
        case (Some(m), Some(e), Some(sh)) =>
          Some(AssembleUrl(EscapeBaseUrl(checkedBaseUrl), uri, m, e, sh, shardParamName, name))
        case _ => None
  }

  /** A signed URL, when issued, is the underscore-free base URL, the canonical path ending
      in the display name, and the query md5, expires, the shard key exactly when the context
      carries one, and filename last. The md5 value is the encoded URL-safe signature over
      the expiry, the decoded path and the secret. */
  lemma SignedUrlLayout(cfg: Config, codecs: Codecs, ctx: Context, checkedBaseUrl: string,
                        strPath: string, urlType: UrlType, optFilename: Option<string>,
                        optCreationDate: Option<int>, now: int, shardParamName: string)
    requires urlType == Session ==> cfg.sessionAbsoluteMs % 1000 == 0
    requires GetSignedUrl(cfg, codecs, ctx, checkedBaseUrl, strPath, urlType, optFilename, optCreationDate, now, shardParamName).Some?
    ensures DisplayName(codecs, optFilename, strPath).Some?
    ensures var name := DisplayName(codecs, optFilename, strPath).value;
      var uri := CanonicalUri(cfg, strPath, name);
      var expires := UrlExpires(cfg, urlType, optCreationDate, now);
      && codecs.decodeUriComponent(uri).Some?
      && codecs.encodeUriComponent(Signature(codecs, cfg.secretString, expires, codecs.decodeUriComponent(uri).value)).Some?
      && codecs.encodeUriComponent(IntDecimal(expires)).Some?
      && (Truthy(ctx.shardKey) ==> codecs.encodeUriComponent(ctx.shardKey.value).Some?)
      && GetSignedUrl(cfg, codecs, ctx, checkedBaseUrl, strPath, urlType, optFilename, optCreationDate, now, shardParamName).value
         == EscapeBaseUrl(checkedBaseUrl) + uri + "?" + JoinQuery(QueryParams(
              codecs.encodeUriComponent(Signature(codecs, cfg.secretString, expires, codecs.decodeUriComponent(uri).value)).value,
              codecs.encodeUriComponent(IntDecimal(expires)).value,
              if Truthy(ctx.shardKey) then Some(codecs.encodeUriComponent(ctx.shardKey.value).value) else None,
              shardParamName,
              name))
  {
    var name := DisplayName(codecs, optFilename, strPath).value;
    var uri := CanonicalUri(cfg, strPath, name);
    var expires := UrlExpires(cfg, urlType, optCreationDate, now);
    var decoded := codecs.decodeUriComponent(uri).value;
    var m := codecs.encodeUriComponent(Signature(codecs, cfg.secretString, expires, decoded)).value;
    var e := codecs.encodeUriComponent(IntDecimal(expires)).value;
    var sh := ShardParam(codecs, ctx).value;
    AssembleUrlIsQueryString(EscapeBaseUrl(checkedBaseUrl), uri, m, e, sh, shardParamName, name);
  }

  /** What `decodeURIComponent` is relied on for: it only rewrites `%XX` escapes, so a
      string starting with '/' decodes (when it decodes) to a string starting with '/'. */
  ghost predicate DecodeKeepsLeadingSlash(codecs: Codecs)
  {
    forall s :: |s| > 0 && s[0] == '/' && codecs.decodeUriComponent(s).Some? ==>
      |codecs.decodeUriComponent(s).value| > 0 && codecs.decodeUriComponent(s).value[0] == '/'
  }

  /** Two issued URLs (same configuration, so the same secret) whose signed strings are
      equal carry the same `expires` and were signed over the same decoded path: the
      signature cannot be moved to another expiry or another object. */
  lemma IssuedSignatureFixesExpiresAndPath(cfg: Config, codecs: Codecs, ctx: Context, checkedBaseUrl: string,
                                           shardParamName: string,
                                           strPath1: string, urlType1: UrlType, optFilename1: Option<string>,
                                           optCreationDate1: Option<int>, now1: int,
                                           strPath2: string, urlType2: UrlType, optFilename2: Option<string>,
                                           optCreationDate2: Option<int>, now2: int)
    requires DecodeKeepsLeadingSlash(codecs)
    requires urlType1 == Session ==> cfg.sessionAbsoluteMs % 1000 == 0
    requires urlType2 == Session ==> cfg.sessionAbsoluteMs % 1000 == 0
    requires GetSignedUrl(cfg, codecs, ctx, checkedBaseUrl, strPath1, urlType1, optFilename1, optCreationDate1, now1, shardParamName).Some?
    requires GetSignedUrl(cfg, codecs, ctx, checkedBaseUrl, strPath2, urlType2, optFilename2, optCreationDate2, now2, shardParamName).Some?
    ensures DisplayName(codecs, optFilename1, strPath1).Some? && DisplayName(codecs, optFilename2, strPath2).Some?
    ensures var u1 := CanonicalUri(cfg, strPath1, DisplayName(codecs, optFilename1, strPath1).value);
      var u2 := CanonicalUri(cfg, strPath2, DisplayName(codecs, optFilename2, strPath2).value);
      var e1 := UrlExpires(cfg, urlType1, optCreationDate1, now1);
      var e2 := UrlExpires(cfg, urlType2, optCreationDate2, now2);
      && codecs.decodeUriComponent(u1).Some? && codecs.decodeUriComponent(u2).Some?
      && (SignaturePayload(e1, codecs.decodeUriComponent(u1).value, cfg.secretString)
            == SignaturePayload(e2, codecs.decodeUriComponent(u2).value, cfg.secretString)
          ==> e1 == e2 && codecs.decodeUriComponent(u1).value == codecs.decodeUriComponent(u2).value)
  {
    SignedUrlLayout(cfg, codecs, ctx, checkedBaseUrl, strPath1, urlType1, optFilename1, optCreationDate1, now1, shardParamName);
    SignedUrlLayout(cfg, codecs, ctx, checkedBaseUrl, strPath2, urlType2, optFilename2, optCreationDate2, now2, shardParamName);
    var u1 := CanonicalUri(cfg, strPath1, DisplayName(codecs, optFilename1, strPath1).value);
    var u2 := CanonicalUri(cfg, strPath2, DisplayName(codecs, optFilename2, strPath2).value);
    var d1, d2 := codecs.decodeUriComponent(u1).value, codecs.decodeUriComponent(u2).value;
    var e1 := UrlExpires(cfg, urlType1, optCreationDate1, now1);
    var e2 := UrlExpires(cfg, urlType2, optCreationDate2, now2);
    assert d1[0] == '/' && d2[0] == '/';
    if SignaturePayload(e1, d1, cfg.secretString) == SignaturePayload(e2, d2, cfg.secretString) {
      SignaturePayloadDeterminesExpires(e1, e2, d1, d2, cfg.secretString, cfg.secretString);
    }
  }

  /** Issuance fails exactly when one of the URI codec calls throws: encoding the supplied
      filename, decoding the canonical URI, or encoding the signature, the expiry or a
      present shard key. Nothing else (configuration, clock, missing object) makes it fail. */
  lemma SignedUrlFailsOnlyOnUriError(cfg: Config, codecs: Codecs, ctx: Context, checkedBaseUrl: string,
                                     strPath: string, urlType: UrlType, optFilename: Option<string>,
                                     optCreationDate: Option<int>, now: int, shardParamName: string)
    requires urlType == Session ==> cfg.sessionAbsoluteMs % 1000 == 0
    ensures GetSignedUrl(cfg, codecs, ctx, checkedBaseUrl, strPath, urlType, optFilename, optCreationDate, now, shardParamName).None?
      <==> (|| (Truthy(optFilename) && codecs.encodeUriComponent(EscapeFilename(optFilename.value)).None?)
            || (var uri := CanonicalUri(cfg, strPath, DisplayName(codecs, optFilename, strPath).value);
                var expires := UrlExpires(cfg, urlType, optCreationDate, now);
                (|| codecs.decodeUriComponent(uri).None?
                 || codecs.encodeUriComponent(Signature(codecs, cfg.secretString, expires, codecs.decodeUriComponent(uri).value)).None?
                 || codecs.encodeUriComponent(IntDecimal(expires)).None?
                 || (Truthy(ctx.shardKey) && codecs.encodeUriComponent(ctx.shardKey.value).None?))))
  {
  }
}
