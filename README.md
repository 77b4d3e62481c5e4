# Filesystem storage adapter: signed URLs and listing keys

This project models the logic of the filesystem storage backend
(`Common/sources/storage-fs.js`) of a document server: the backend that stores
objects as plain files under a configured folder while offering an
object-store-style interface. The file's operations that only pass through to
the filesystem are not modelled. The parts modelled here are those that compute:

* **Listing-key normalisation.** `getOutputPath` turns every backslash into a
  forward slash. `listObjects` maps each physical path found by the recursive
  listing back to a storage key. It cuts off the storage folder and one
  separator, then normalises the rest.
* **Signed-URL issuance.** `getSignedUrl` does the following:
  * chooses the display filename and builds the canonical URI
    `/bucket/folder/key/name`;
  * escapes underscores in the base URL;
  * picks the validity window;
  * quantises the expiry on a schedule anchored at the creation date;
  * signs the expiry, the decoded URI and the shared secret;
  * makes the digest URL-safe;
  * appends the query parameters `md5`, `expires`, the optional shard key and
    `filename`, in that order.

Everything is a pure function. "Now", the configuration, the context's shard key
and the result of `utils.checkBaseUrl` are parameters. Several calls are library
behaviour and are not interpreted: the fields of `SignedUrl.Codecs` stand for MD5
with base64 output, `encodeURIComponent` and `decodeURIComponent`. The two URI
codecs return `None` where JavaScript throws a `URIError`, and issuance then
fails. A function gives the same result for the same inputs, so issuance is
deterministic.

Modules, one per component:

| file | module | models |
|---|---|---|
| `wrappers.dfy` | `Wrappers` | `Option`, for JavaScript truthiness and for calls that may throw |
| `text.dfy` | `Text` | `s.replace(/c/g, rep)` for a one-character pattern, with its lemmas |
| `decimal.dfy` | `Decimal` | how an integral Number is written as a decimal string |
| `paths.dfy` | `Paths` | `getOutputPath`, the `listObjects` key mapping, POSIX `path.basename` |
| `expiry.dfy` | `Expiry` | the validity window, the creation-date default, the quantised expiry |
| `signed_url.dfy` | `SignedUrl` | the display name, canonical URI, signature, URL assembly, `getSignedUrl` |

## Model

| member | source | states |
|---|---|---|
| `Text.Substitute` | Common/sources/storage-fs.js:58 | A global one-character replace. If the replacement does not contain the replaced character, that character is gone from the result. Every character of the result is either a kept character of the input other than the replaced one, or comes from the replacement. |
| `Text.SubstituteEscape` | Common/sources/storage-fs.js:126-129 | Writing one character as a three-character code (`%2f` for `/`, `%5f` for `_`) removes that character, adds 2 to the length per occurrence, and keeps a string without it unchanged. |
| `Paths.OutputPath` | Common/sources/storage-fs.js:57-59 | The result has the same length as the input and contains no `\`. At each position, a `\` becomes `/` and any other character is unchanged. |
| `Paths.OutputPathIdempotent` | Common/sources/storage-fs.js:57-59 | Normalising twice gives the same result as normalising once. |
| `Paths.Suffix` | Common/sources/storage-fs.js:110 | `substring(start)`: the input is the first `start` characters followed by the result. The result is empty when `start` is past the end. |
| `Paths.ListedKeys` | Common/sources/storage-fs.js:106-112 | The listing has the same length and order as the listed paths. Key i is path i without its first `len(folderPath)+1` characters, then normalised. |
| `Paths.ListedKeysRecoverKeys` | Common/sources/storage-fs.js:106-112 | Listing undoes the join. The separator `sep` is `/` or `\`, and keys use `/` and contain no `\`. A key stored as `folderPath + sep + key`, with each `/` of the key written as `sep`, is listed as exactly that key, in order. |
| `Paths.ListedKeysBackslashHost` | Common/sources/storage-fs.js:106-112 | A backslash listing `C:\d\a\b` under folder `C:\d` gives the key `a/b`. |
| `Paths.TrimTrailingSlashes` | Common/sources/storage-fs.js:126 | The result is a prefix of the path that does not end in `/`. Only `/` characters were removed. |
| `Paths.LastSegment` | Common/sources/storage-fs.js:126 | The result is a slash-free suffix of the path. It is either the whole path or preceded by a `/`. |
| `Paths.Basename` | Common/sources/storage-fs.js:126 | `path.basename` of the key contains no `/`. |
| `Paths.BasenameOfJoin` | Common/sources/storage-fs.js:126 | The basename of `d + "/" + name` is `name` when `name` is non-empty and slash-free. |
| `Decimal.NatDecimal` | Common/sources/storage-fs.js:140 | The numeral of a natural number is a non-empty run of digits. It starts with `0` only for zero. |
| `Decimal.IntDecimal` | Common/sources/storage-fs.js:140 | The numeral starts with `-` exactly for negative numbers. Otherwise it is all digits. |
| `Decimal.NatDecimalRoundTrip` | Common/sources/storage-fs.js:140 | Reading the numeral back gives the number. |
| `Decimal.IntDecimalInjective` | Common/sources/storage-fs.js:140 | Different expiries are written as different strings. |
| `Decimal.NumeralPrefixUnique` | Common/sources/storage-fs.js:140 | A numeral followed by text that starts with a non-digit splits back into the same number and the same text. |
| `Expiry.CeilDiv` | Common/sources/storage-fs.js:136-137 | `Math.ceil(a / b)`. For `b > 0`: `(q-1)*b < a <= q*b`. For `b < 0`: `q*b <= a < (q-1)*b`. |
| `Expiry.WindowSeconds` | Common/sources/storage-fs.js:134 | The window is never zero. For session URLs it is the session-absolute milliseconds divided by 1000. For any other type it is `urlExpires`. When the chosen value is 0 it is 31536000. |
| `Expiry.WindowPositive` | Common/sources/storage-fs.js:134 | With non-negative configuration the window is positive. |
| `Expiry.CreationDate` | Common/sources/storage-fs.js:133 | A supplied non-zero creation date is used. A missing or zero one means now. |
| `Expiry.QuantizedExpiryIsLeastCover` | Common/sources/storage-fs.js:136 | `e0 - creation` is a non-negative multiple of the window. It is the least such multiple that is at least `abs(now - creation)`. |
| `Expiry.QuantizedExpiryBounds` | Common/sources/storage-fs.js:136 | `e0 >= now` and `e0 >= creation`. When `creation <= now`, `e0 - now < window`. |
| `Expiry.ExpiresLowerBound` | Common/sources/storage-fs.js:132-138 | `expires >= ceil(now/1000) + window`. |
| `Expiry.ExpiresWithoutCreationDate` | Common/sources/storage-fs.js:132-138 | With no creation date, `expires == ceil(now/1000) + window` exactly. |
| `Expiry.ExpiresMonotonic` | Common/sources/storage-fs.js:132-138 | For `creation <= now1 <= now2`, `expires` at `now1` is at most `expires` at `now2`. |
| `Expiry.QuantizedExpiryStable` | Common/sources/storage-fs.js:136-138 | For a creation date not in the future (`creation <= now1`): any call made between an earlier call at `now1` and that call's quantised expiry, with the same creation date, gets the same `e0` and the same `expires`. |
| `Expiry.QuantizedExpiryAdvance` | Common/sources/storage-fs.js:136 | For a creation date not in the future (`creation <= now`): advancing `now` by one window (counted in milliseconds, as the code adds it) advances `e0` by exactly one window. |
| `Expiry.WindowQuantumIsMilliseconds` | Common/sources/storage-fs.js:136-138 | Take a one-hour window and a creation date of 1000000 ms. Calls at 1005000 ms and 1015000 ms get `expires` 4608 and 4618. A quantum of 3600 seconds would give both calls 8200. |
| `Expiry.ExpiresDecreasesBeforeCreationDate` | Common/sources/storage-fs.js:135-138 | With the creation date in the future (10000 ms, window 3600), `now` 0 gives `expires` 3621 and `now` 9000 gives 3614. |
| `Expiry.QuantizedExpiry` | Common/sources/storage-fs.js:136 | `e0 = creation + ceil(abs(now - creation) / w) * w`. Its contract is given by `QuantizedExpiryIsLeastCover`, `QuantizedExpiryBounds`, `QuantizedExpiryStable` and `QuantizedExpiryAdvance`. |
| `Expiry.ExpiresSeconds` | Common/sources/storage-fs.js:136-138 | `expires = ceil(e0 / 1000) + w`. Its contract is given by `ExpiresLowerBound`, `ExpiresWithoutCreationDate`, `ExpiresMonotonic`, `WindowQuantumIsMilliseconds` and `ExpiresDecreasesBeforeCreationDate`. |
| `SignedUrl.EscapeFilename` | Common/sources/storage-fs.js:125-126 | The string passed to encoding has no `/`. Its length grows by 2 per `/` rewritten. A name without `/` is unchanged. |
| `SignedUrl.DisplayName` | Common/sources/storage-fs.js:125-126 | Without a (non-empty) filename, the name is present and contains no `/`. With a filename, it is the encoded escaped filename; see `DisplayNameSlashFree` and `EscapeFilename`. |
| `SignedUrl.CanonicalUri` | Common/sources/storage-fs.js:127 | The URI starts with `/`, a non-digit. `CanonicalUriLastSegment` shows the display name is its last segment. |
| `SignedUrl.DisplayNameSlashFree` | Common/sources/storage-fs.js:126 | If percent-encoding adds no `/`, the display name has none. Without a filename, the display name is the key's basename. |
| `SignedUrl.CanonicalUriLastSegment` | Common/sources/storage-fs.js:127 | A non-empty, slash-free display name is the last segment of `/bucket/folder/key/name`. |
| `SignedUrl.EscapeBaseUrl` | Common/sources/storage-fs.js:128-129 | The escaped base URL has no `_`. Its length grows by 2 per `_`. A base without `_` is unchanged. |
| `SignedUrl.UrlSafeDigest` | Common/sources/storage-fs.js:141 | The URL-safe digest contains no `+`, `/` or `=`. |
| `SignedUrl.UrlSafeDigestIsOnePass` | Common/sources/storage-fs.js:141 | The three chained replacements equal a one-pass map. That map sends `+` to `-` and `/` to `_`, drops `=`, and keeps every other character in order. |
| `SignedUrl.UrlSafeDigestKeepsSafe` | Common/sources/storage-fs.js:141 | A digest without `+`, `/` or `=` is unchanged. |
| `SignedUrl.SignaturePayloadDeterminesExpires` | Common/sources/storage-fs.js:140 | When both decoded URIs start with a non-digit, equal signed strings have equal expiries and equal URI-plus-secret. With the same secret they have the same decoded URI, and with the same URI the same secret. |
| `SignedUrl.IssuedSignatureFixesExpiresAndPath` | Common/sources/storage-fs.js:124-150 | For a decoder that keeps a leading `/` (it only rewrites `%XX` escapes): two issued URLs under the same configuration whose signed strings are equal have the same `expires` and were signed over the same decoded path. |
| `SignedUrl.SignaturePayload` | Common/sources/storage-fs.js:140 | The expiry in decimal, then the decoded URI, then the secret. `SignaturePayloadDeterminesExpires` shows that it fixes the expiry and the URI for a given secret. |
| `SignedUrl.Signature` | Common/sources/storage-fs.js:140-141 | The `md5` value, before URI encoding, contains no `+`, `/` or `=`. |
| `SignedUrl.UrlExpires` | Common/sources/storage-fs.js:132-138 | The window, the creation-date default and the quantised expiry combined. Its contract is given by `UrlExpiresAtLeastOneWindow`. |
| `SignedUrl.UrlExpiresAtLeastOneWindow` | Common/sources/storage-fs.js:132-138 | With non-negative configuration the window is positive. The URL's `expires` is at least `ceil(now/1000) + window`, and exactly that without a creation date. |
| `SignedUrl.QueryParams` | Common/sources/storage-fs.js:143-148 | The parameters in order: `md5` first, `expires` second, the shard parameter third when present, `filename` last. There are 4 with a shard key and 3 without. |
| `SignedUrl.AssembleUrl` | Common/sources/storage-fs.js:130-148 | The string appends at line 130 and lines 143-148. Its contract is given by `AssembleUrlIsQueryString`. |
| `SignedUrl.ShardParam` | Common/sources/storage-fs.js:145-146 | The shard parameter is absent for a missing or empty shard key, encoded otherwise, and fails when encoding throws. Its contract is given through `SignedUrlLayout` and `SignedUrlFailsOnlyOnUriError`. |
| `SignedUrl.AssembleUrlIsQueryString` | Common/sources/storage-fs.js:143-148 | The appended URL equals base + path + `?` + the parameters joined as `k=v` with `&`. |
| `SignedUrl.GetSignedUrl` | Common/sources/storage-fs.js:124-150 | `getSignedUrl`, with `None` for a thrown `URIError`. Its contract is given by `SignedUrlLayout` (the shape of an issued URL) and `SignedUrlFailsOnlyOnUriError` (when it fails). |
| `SignedUrl.SignedUrlLayout` | Common/sources/storage-fs.js:124-150 | An issued URL is the underscore-free base, then `/bucket/folder/key/name`, then the query. The query holds the encoded signature over (expires, decoded URI, secret), the encoded expiry, the encoded shard key exactly when the context's key is non-empty, and the display name last. |
| `SignedUrl.SignedUrlFailsOnlyOnUriError` | Common/sources/storage-fs.js:124-150 | Issuance fails if and only if one of the URI codec calls throws. |

## Notes on the source

* **Units of the window.** The window is a count of seconds (`urlExpires`, or
  session-absolute milliseconds divided by 1000). The code adds it unconverted
  to millisecond timestamps in the quantisation step, so the schedule's quantum
  is *window milliseconds*. It adds the window again as seconds once the expiry
  has been converted. The model keeps this arithmetic.
  * `Expiry.WindowQuantumIsMilliseconds` shows the effect. Take a one-hour window
    and a creation date in the past. Calls 5 s and 15 s after it get `expires`
    4608 and 4618. A quantum of 3600 seconds would give both calls 8200.
  * The other guarantees still hold as written. `expires` is at least one full
    window (in seconds) past the current second. For a creation date not in
    the future it is stable within one quantum (`Expiry.QuantizedExpiryStable`)
    and non-decreasing in `now` (`Expiry.ExpiresMonotonic`).
* **Key traversal.** Neither `getFilePath` nor `getSignedUrl` rejects `..`
  segments. The model adds no such check.
* **Creation date in the future.** The distance is taken with `Math.abs`, so a
  creation date later than now pushes the expiry further out: `e0 - creation`
  covers `creation - now`. `Expiry.QuantizedExpiryIsLeastCover` states this case
  too. In this case `expires` can go down as `now` goes up:
  `Expiry.ExpiresDecreasesBeforeCreationDate` gives 3621 at `now` 0 and 3614 at
  `now` 9000. The comment at line 135 of the source says such creation dates
  occur.

## Left out

- `headObject`, `getObject`, `createReadStream`, `putObject`, `uploadObject`, `copyObject`, `deleteObject`, `deletePath`: one-line pass-throughs to `fs/promises` and stream utilities. What they do is filesystem behaviour.
- `getFilePath` (`path.join` onto the storage folder): platform path normalisation. `Paths.ListedKeysRecoverKeys` takes the joined paths as `folderPath + sep + key`, with the key's `/` written as `sep`.
- Paths.Suffix: counts characters (Unicode scalar values). JavaScript's `.length` at line 110 counts UTF-16 code units, so the two differ when the storage folder path holds characters outside the Basic Multilingual Plane.
- `utils.listObjects`, the recursive directory walk: its result is the `listed` parameter of `Paths.ListedKeys`.
- MD5 and base64: the uninterpreted `md5Base64` field of `SignedUrl.Codecs`. Collision freedom of the digest is therefore not claimed. Only the signed string is shown to fix the expiry and, for the one configured secret, the decoded URI (`SignedUrl.IssuedSignatureFixesExpiresAndPath`).
- `encodeURIComponent` and `decodeURIComponent`: uninterpreted fields returning `None` for a thrown `URIError`. Properties that depend on what they produce take it as a premise (`SignedUrl.DisplayNameSlashFree`, and `SignedUrl.DecodeKeepsLeadingSlash` for `SignedUrl.IssuedSignatureFixesExpiresAndPath`).
- `utils.checkBaseUrl`: its result is the `checkedBaseUrl` parameter.
- Configuration loading and `ms(...)`: the values are fields of `SignedUrl.Config`. `sessionAbsoluteMs` is the already-converted millisecond count.
- `constants.SHARED_KEY_NAME`: `Common/sources/constants.js` is not part of this model. The parameter name is the `shardParamName` parameter.
- `commonDefines.c_oAscUrlTypes`: `Common/sources/commondefines.js` is not part of this model. `Expiry.UrlType` has `Session` and `Temporary`, which stands for every other type.
- `Date.now()`: the `now` parameter, in whole milliseconds.
- Expiry.WindowSeconds: session-absolute durations that are not a whole number of seconds are not modelled. JavaScript would make the window fractional and the expiry non-integral. The model requires `sessionAbsoluteMs % 1000 == 0` for session URLs.
- Decimal.IntDecimal: JavaScript Numbers are doubles. Above 2^53 they lose precision, and from 1e21 on they print in exponent notation. The model uses unbounded integers in plain decimal.
- Paths.Basename: models POSIX `path.basename`. On Windows, Node also treats `\` and drive letters as separators.
- `opt_creationDate` of a non-number type (for example a `Date` object, which `+` would concatenate as a string): the model takes the creation date as an integer.
