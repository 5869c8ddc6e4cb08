# URL shortener service, modelled in Dafny

This project models the service layer of a small URL shortener. It has two
operations over a collection of records. Each record holds an original URL,
a short code and creation and expiry times.

- **minify** validates a URL. It returns `https://short.url/<code>` of a live
  record for that URL when one exists. Otherwise it draws random
  six-character alphanumeric codes until one is held by no record, live or
  expired. It inserts a single new record with that code and returns its
  short link.
- **expand** validates a short link and strips `/` from both ends of its
  path to get the code. It looks the code up and returns the original URL.
  It fails with "URLNotFound" when the path holds no code, when no record
  holds the code, or when the record expired before the current time.

Files, one Dafny module each:

| file | module | what it holds |
|---|---|---|
| `wrappers.dfy` | `Wrappers` | `Option` and `Result` |
| `text.dfy` | `Text` | searching, splitting, stripping and lower-casing sequences |
| `url.dfy` | `Url` | the URL split the validation relies on, and `IsValidUrl` |
| `short_code.dfy` | `ShortCode` | the code alphabet and the generator, with the random draws as a parameter |
| `store.dfy` | `Store` | records, the two lookup filters, and the collection class `UrlCollection` with `FindOne` and `InsertOne` |
| `services.dfy` | `Services` | `ExpandUrl` as a function; `Minify` as a specification function; `MinifyUrl`, the imperative minify over a `UrlCollection` with its retry loop |
| `service_properties.dfy` | `ServiceProperties` | round trip, idempotence, uniqueness, expiry boundary, and the example scenarios |

How the model is shaped:

- **Time** is an integer number of UTC seconds, passed in as `now`.
- **Randomness** is a parameter `draws`: one entry per generator call, each
  a sequence of six alphabet positions.
- **Outcomes.** A raised `InvalidURL` or `URLNotFound` becomes a `Failure`
  carrying the exception's message.
- **Retry loop.** `minify` as a method (`Services.MinifyUrl`) runs the retry
  loop over `FindOne`, then calls `InsertOne`. It is proved equal to the
  function `Services.Minify`. All the lemmas about minify are stated over
  that function.
- **Well-formed store.** Some properties hold only for a store that minify
  could have built: `Store.WellFormedStore`, where every code is a
  six-character alphanumeric code and no two records share one. Minify keeps
  that invariant (`ServiceProperties.MinifyKeepsStoreWellFormed`).

Behaviour of the code worth knowing, each stated by a lemma:

- **Three "not found" messages.** Expand reports a path with no code, a code
  no record holds, and an expired record with three different
  "URLNotFound" messages. The model keeps all three.
- **Any expiration is accepted.** Minify does not check
  `expiration_seconds`, so zero and negative values are accepted. With
  zero, minify inserts a new record on every call
  (`ServiceProperties.ZeroExpirationIsNeverReused`), and the round trip
  still holds at the same `now` (`ServiceProperties.ExpandAfterMinify`).
- **"Live" differs between the two operations.** Minify reuses a record only
  while `expires_at > now`. Expand accepts it while `now <= expires_at`. A
  record that expires exactly at `now` therefore expands, but minify will not
  reuse it (`ServiceProperties.ExpiryBoundary`,
  `ServiceProperties.ExpiringRecordIsNotReused`).

## Model

| member | source | states |
|---|---|---|
| Url.Parse | url_shortner/services.py:29 | Parsing succeeds exactly when the scheme/authority prefix splits. A parsed network location holds no `/`, `?` or `#`. A parsed path holds no `?` or `#`. Input without `:` has no scheme. When the prefix fails to split is stated by `Url.BracketOfComposed`. |
| Url.SplitPrefix | url_shortner/services.py:29-30 | The scheme and network location that the validation reads. The network location holds no delimiter. Input without `:` yields an empty scheme. |
| Url.IsValidUrl | url_shortner/services.py:23-32 | A valid URL contains `:`. The full rule, scheme `http` or `https` and a non-empty network location with a parse error meaning invalid, is stated by `Url.ValidityOfParse` and, for composed URLs, by `Url.ComposedUrlValidity`. |
| Url.ValidityOfParse | url_shortner/services.py:23-32 | A URL is valid iff it parses, its scheme is `http` or `https`, and its network location is non-empty; a parse error means invalid. |
| Url.ParseCompose | url_shortner/services.py:29 | `scheme://netloc` + path, built from plain components, parses back into those components, with the scheme lower-cased and empty params, query and fragment. |
| Url.ComposedUrlValidity | url_shortner/services.py:30 | Such a composed URL is valid iff its scheme is `http` or `https` in any letter case and its network location is non-empty. |
| Url.NoColonIsInvalid | url_shortner/services.py:28-32 | A string without `:` (such as `not-a-valid-url`) is never valid. |
| Url.BracketOfComposed | url_shortner/services.py:29-32 | For `scheme://netloc` + path without tab, CR or LF, the prefix fails to split exactly when the network location holds `[` without `]` or `]` without `[` (the `ValueError` the validation catches). |
| Url.UnmatchedBracketIsInvalid | url_shortner/services.py:31-32 | Such a URL does not parse exactly when its brackets are unmatched, and then it is invalid whatever its scheme. |
| Text.Strip | url_shortner/services.py:89 | `strip` leaves no stripped character at either end and reduces an all-stripped input to the empty string. |
| Text.StripRuns | url_shortner/services.py:89 | `strip` removes exactly the leading and trailing runs of stripped characters: what lies between them, when it neither starts nor ends with one, is the result. |
| ShortCode.Symbol | url_shortner/services.py:39 | Each of the 62 draw positions names an ASCII letter or digit. |
| ShortCode.GenerateShortCode | url_shortner/services.py:35-39 | A generated code has exactly `length` characters, all ASCII letters or digits. |
| ShortCode.GeneratorReachesEveryCode | url_shortner/services.py:39 | Every alphanumeric code is the outcome of some draws, so the oracle constrains codes by length and alphabet only. |
| Store.FirstMatch | url_shortner/services.py:57 | `find_one` returns the first record matching the filter; it returns nothing exactly when no record matches. |
| Store.UrlCollection.FindOne | url_shortner/services.py:63 | The record returned is the first match in the collection; nothing is returned iff no record matches. |
| Store.UrlCollection.InsertOne | url_shortner/services.py:73 | `insert_one` appends the document and changes no stored record. |
| Store.CodeLookupIsExact | url_shortner/services.py:94 | In a store with unique codes, looking up a stored record's code finds that very record. |
| Store.AppendFreshKeepsWellFormed | url_shortner/services.py:62-73 | Appending a record with a fresh six-character alphanumeric code keeps every code well formed and unique. |
| Store.ExpiredAppendIsNotLive | url_shortner/services.py:57 | Appending a record whose `expires_at` is not after `now` gives the URL no live record for the `$gt` filter when it had none. |
| Services.ExpandUrl | url_shortner/services.py:78-91 | Expand fails with InvalidURL("Invalid URL: " + url) iff the URL is invalid. A valid URL whose path strips to nothing fails with URLNotFound("No short code found in the URL."). |
| Services.RequestedCode | url_shortner/services.py:88-89 | The code a valid URL asks for is its parsed path stripped of `/`, so it neither starts nor ends with `/`. For short links, `ServiceProperties.ShortUrlRoundTrip` and `ServiceProperties.TrailingSlashNamesSameCode` give its value. |
| Services.ShortUrl | url_shortner/services.py:59 | A short link is `BASE_SHORT_URL`, then `/`, then the code, which can be read back from its end (also url_shortner/services.py:75). |
| Services.ExpandLooksUpCode | url_shortner/services.py:93-107 | For a URL that names a code: URLNotFound("Shortened URL not found.") iff no record holds the code. Otherwise the first record holding it gives success iff `now <= expires_at`. On success the result is its original URL; otherwise URLNotFound("Shortened URL has expired."). |
| Services.Candidate | url_shortner/services.py:62-64 | Each generator call yields a six-character alphanumeric code. |
| Services.FirstUnusedDraw | url_shortner/services.py:62-64 | The retry loop stops at the first generator call whose code no record, live or expired, holds; every earlier call's code is in use. |
| Services.Minify | url_shortner/services.py:42-75 | Invalid input gives InvalidURL("Invalid URL: " + url) and leaves the store unchanged. Valid input always succeeds. When a live record exists, minify returns that record's short link and leaves the store unchanged. |
| Services.MinifyInsertsFreshRecord | url_shortner/services.py:61-75 | On the insertion path the store grows by exactly one record at the end, and old records are untouched. The new record holds the URL, `created_at = now` and `expires_at = now + expiration_seconds`. Its code is a six-character alphanumeric code held by no earlier record, and the first such code the generator yielded. The result is `BASE_SHORT_URL/code`. |
| Services.MinifyTakesUnusedFirstDraw | url_shortner/services.py:62-75 | When the first generated code is unused, minify inserts the record with that code and returns its short link. |
| Services.DrawUnusedCode | url_shortner/services.py:62-64 | The retry loop returns a code that no stored record holds. It is the first unused code the generator yields. |
| Services.InsertNewRecord | url_shortner/services.py:61-73 | The insertion branch appends exactly the record (url, code, now, now + expiration_seconds) with the code the loop chose. |
| Services.MinifyUrl | url_shortner/services.py:42-75 | The imperative minify returns, and leaves the store in, exactly what `Minify` prescribes. The old store stays a prefix of the new one, which is at most one record longer. When no expiration is given it is `Services.DEFAULT_EXPIRATION_SECONDS`, 3600, as in url_shortner/services.py:42. |
| ServiceProperties.ShortUrlIsComposed | url_shortner/services.py:8 | A short link is `https` `://` `short.url` followed by `/` and the code. |
| ServiceProperties.ShortUrlParses | url_shortner/services.py:75 | The short link of an alphanumeric code parses into `https`, `short.url` and path `/code`. |
| ServiceProperties.ShortUrlRoundTrip | url_shortner/services.py:85-89 | The short link of an alphanumeric code is a valid URL, and stripping `/` from its path gives the code back. |
| ServiceProperties.CodeOfParsedShortUrl | url_shortner/services.py:88-89 | A URL that parses like a short link is valid and requests its code. |
| ServiceProperties.CodeSurvivesStrip | url_shortner/services.py:89 | Stripping `/` from `/` + an alphanumeric code leaves the code. |
| ServiceProperties.CodeSurvivesSlashes | url_shortner/services.py:89 | Stripping `/` from `/` + a non-empty alphanumeric code + `/` leaves the code. |
| ServiceProperties.CodeOfParsedPath | url_shortner/services.py:88-89 | A URL that parses into `https`, `short.url` and a path is valid and asks for the path stripped of `/`. |
| ServiceProperties.TrailingSlashParses | url_shortner/services.py:88 | A short link with a trailing `/` parses into `https`, `short.url` and the path `/code/`. |
| ServiceProperties.TrailingSlashNamesSameCode | url_shortner/services.py:89 | A short link with a trailing `/` is valid and asks for the same code as the link without it. |
| ServiceProperties.ExpandStoredCode | url_shortner/services.py:94-107 | In a well-formed store, expanding a stored record's short link returns its URL iff `now <= expires_at`; otherwise it fails as expired. |
| ServiceProperties.ExpandUnusedCode | url_shortner/services.py:94-96 | Expanding the short link of a code no record holds fails with "Shortened URL not found.". |
| ServiceProperties.MinifyKeepsStoreWellFormed | url_shortner/services.py:62-73 | Minify preserves the store invariant: alphanumeric six-character codes, pairwise distinct. |
| ServiceProperties.MinifyOnlyAppends | url_shortner/services.py:57-73 | Minify performs at most one insertion and never edits or removes a record. |
| ServiceProperties.ExpandAfterMinify | url_shortner/services.py:59 | For a valid URL with `expiration_seconds >= 0`, expanding at the same `now` the link minify returns gives back the URL, on both the reuse and the insert path. |
| ServiceProperties.MinifyIsIdempotent | url_shortner/services.py:57-59 | A second minify of the same URL at the same time returns the same link and inserts nothing, unless the first call inserted with a non-positive expiration. |
| ServiceProperties.InsertedRecordIsReusedUntilExpiry | url_shortner/services.py:57-59 | A record minify inserts is reused by every minify of that URL at any time before it expires. |
| ServiceProperties.ExpiryBoundary | url_shortner/services.py:104-107 | A record expiring exactly at `now` still expands; one second later it fails as expired. |
| ServiceProperties.ExpiringRecordIsNotReused | url_shortner/services.py:57 | Minify does not reuse a record expiring exactly at `now`: when it is the URL's only record, a new one must be inserted. |
| ServiceProperties.ZeroExpirationIsNeverReused | url_shortner/services.py:66 | With a zero expiration, the inserted record is never reused at the same time, so each call inserts again. |
| ServiceProperties.NoSchemeIsRefused | tests/test_services.py:14-17 | A string without `:` makes minify fail with InvalidURL and leave the store unchanged, and makes expand fail with InvalidURL (also tests/test_services.py:60-63). |
| ServiceProperties.LiveRecordIsReused | tests/test_services.py:20-35 | A store holding a live record with code ABC123 for the URL yields `https://short.url/ABC123` and no insertion. |
| ServiceProperties.NewRecordIsInserted | tests/test_services.py:38-57 | On an empty store, with a generator whose first call yields the code, minify inserts exactly the record with that URL and code and returns its short link. |
| ServiceProperties.EveryCodeCanComeFirst | tests/test_services.py:48 | Any six-character alphanumeric code, such as XYZ789, can be the generator's first result. |
| ServiceProperties.SlashesNameNoCode | url_shortner/services.py:89-91 | A service link whose path is only slashes fails with "No short code found in the URL.". |
| ServiceProperties.BaseUrlHasNoCode | tests/test_services.py:66-70 | Expanding `https://short.url` fails with URLNotFound, not InvalidURL. |
| ServiceProperties.MissingCodeIsNotFound | tests/test_services.py:73-78 | Expanding `https://short.url/NONEXIST` against an empty store fails with "Shortened URL not found.". |
| ServiceProperties.ExpiredRecordIsRefused | tests/test_services.py:81-92 | A record that expired ten seconds ago fails with "Shortened URL has expired.". |
| ServiceProperties.LiveRecordExpands | tests/test_services.py:95-105 | A live record expands to its original URL. |

## Left out

- URL parsing is a model of the standard library's `urlparse`, which is not
  part of this model. The model covers:
  - leading control and space characters stripped, and tab, CR and LF removed;
  - the scheme and its lower-casing;
  - the network location after `//`;
  - fragment, query and `;` parameters;
  - the error for an unmatched `[` or `]`.

  It leaves out the further checks `urlparse` makes on network locations that
  hold brackets or non-ASCII characters (IPv6 literal validation, NFKC
  normalisation), differences between Python versions, and the parse cache.
  The `TypeError` branch (a non-string input) cannot arise, since inputs are
  strings.
- `random.choices` is replaced by the `draws` parameter. Each generator call
  takes the next entry.
- Services.MinifyUrl: requires, on the insertion path, that some draw yields
  an unused code. The source loop has no bound and may not terminate; the
  model proves termination only under this condition and adds no error for an
  exhausted code space.
- Services.DrawUnusedCode: carries the same requirement as `MinifyUrl`, for
  the same reason.
- `datetime.now` becomes the parameter `now`. Timestamps are integer UTC
  seconds.
- The time-zone normalisation at url_shortner/services.py:100-102 is left
  out. A naive timestamp is read as UTC and its value does not change, so an
  integer clock has nothing to normalise. The test at
  tests/test_services.py:108-122 is covered by
  `ServiceProperties.LiveRecordExpands`.
- Services.ExpandUrl: the defaults at url_shortner/services.py:99 and 107 are
  not modelled. Records minify builds always carry both fields.
- Timestamps are unbounded integers. The `OverflowError` that `datetime`
  raises for an expiry beyond year 9999 is not modelled.
- The database handle (`db.urls`) is a `UrlCollection` object. The MongoDB
  connection in url_shortner/database.py and the command line in
  url_shortner/shortner.py are not part of this model.
- Concurrency is not modelled. Two minify calls racing on the same
  collection could both pass the uniqueness check; the model is
  single-threaded.
