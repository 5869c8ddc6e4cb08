/** What minify and expand promise together: short links parse back to their
    code, the store keeps its codes unique, expand undoes minify, minify is
    idempotent while its record is live, and the expiry boundary differs
    between the two operations. The last group replays the service's own
    example scenarios. */
module ServiceProperties {
  import opened Wrappers
  import opened Text
  import Url
  import ShortCode
  import opened Store
  import opened Services

  // ---------------------------------------------------------------------
  // Short links
  // ---------------------------------------------------------------------

  /** A short link is `https` + `://` + `short.url` + a path of one `/` and the code. */
  lemma ShortUrlIsComposed(code: string)
    ensures ShortUrl(code) == Url.Compose("https", "short.url", "/" + code)
  {
    assert BASE_SHORT_URL == "https" + "://" + "short.url";
  }

  /** The short link of a letters-and-digits code parses into scheme
      `https`, network location `short.url` and path `/` + code. */
  lemma ShortUrlParses(code: string)
    requires ShortCode.IsShortCode(code, |code|)
    ensures Url.Parse(ShortUrl(code)) == Some(Url.ParsedUrl("https", "short.url", "/" + code, "", "", ""))
  {
    ShortUrlIsComposed(code);
    var path := "/" + code;
    assert forall i :: 1 <= i < |path| ==> path[i] == code[i - 1];
    assert Url.IsPlainParts("https", "short.url", path);
    Url.ParseCompose("https", "short.url", path);
    Url.AcceptedSchemesAreLower();
  }

  /** The short link of a letters-and-digits code is a valid URL whose
      requested code is that code again. */
  lemma ShortUrlRoundTrip(code: string)
    requires ShortCode.IsShortCode(code, |code|)
    ensures Url.IsValidUrl(ShortUrl(code))
    ensures RequestedCode(ShortUrl(code)) == code
  {
    ShortUrlParses(code);
    CodeOfParsedShortUrl(ShortUrl(code), code);
  }

  /** A short link with a trailing `/` parses into the same scheme and
      network location, with path `/` + code + `/`. */
  lemma TrailingSlashParses(code: string)
    requires ShortCode.IsShortCode(code, |code|)
    ensures Url.Parse(ShortUrl(code) + "/")
      == Some(Url.ParsedUrl("https", "short.url", "/" + code + "/", "", "", ""))
  {
    var path := "/" + code + "/";
    ShortUrlIsComposed(code);
    assert ShortUrl(code) + "/" == Url.Compose("https", "short.url", path);
    assert forall i :: 1 <= i < |path| - 1 ==> path[i] == code[i - 1];
    assert Url.IsPlainParts("https", "short.url", path);
    Url.ParseCompose("https", "short.url", path);
    Url.AcceptedSchemesAreLower();
  }

  /** A trailing `/` on a short link is stripped with the leading one: the
      link still asks for the same code. */
  lemma TrailingSlashNamesSameCode(code: string)
    requires ShortCode.IsShortCode(code, |code|) && code != ""
    ensures Url.IsValidUrl(ShortUrl(code) + "/")
    ensures RequestedCode(ShortUrl(code) + "/") == code
  {
    TrailingSlashParses(code);
    CodeSurvivesSlashes(code);
    CodeOfParsedPath(ShortUrl(code) + "/", "/" + code + "/", code);
  }

  /** Stripping `/` from `/` + a non-empty alphanumeric code + `/` leaves the code. */
  lemma CodeSurvivesSlashes(code: string)
    requires ShortCode.IsShortCode(code, |code|) && code != ""
    ensures Strip("/" + code + "/", {'/'}) == code
  {
    assert ShortCode.IsAlphanumeric(code[0]) && ShortCode.IsAlphanumeric(code[|code| - 1]);
    StripRuns("/", code, "/", {'/'});
  }

  /** A URL that parses into scheme `https`, network location `short.url`
      and a path is valid and requests that path stripped of `/`. */
  lemma CodeOfParsedPath(url: string, path: string, code: string)
    requires Url.Parse(url) == Some(Url.ParsedUrl("https", "short.url", path, "", "", ""))
    requires Strip(path, {'/'}) == code
    ensures Url.IsValidUrl(url) && RequestedCode(url) == code
  {
    Url.ValidityOfParse(url);
  }

  /** A URL that parses like a short link is valid and requests its code. */
  lemma CodeOfParsedShortUrl(url: string, code: string)
    requires ShortCode.IsShortCode(code, |code|)
    requires Url.Parse(url) == Some(Url.ParsedUrl("https", "short.url", "/" + code, "", "", ""))
    ensures Url.IsValidUrl(url) && RequestedCode(url) == code
  {
    CodeSurvivesStrip(code);
  }

  /** Stripping `/` from `/` + code leaves a letters-and-digits code whole. */
  lemma CodeSurvivesStrip(code: string)
    requires ShortCode.IsShortCode(code, |code|)
    ensures Strip("/" + code, {'/'}) == code
  {
    forall i | 0 <= i < |code| ensures code[i] !in {'/'} {
      assert ShortCode.IsAlphanumeric(code[i]);
    }
    assert "/" + code + "" == "/" + code;
    StripRuns("/", code, "", {'/'});
  }

  /** Expanding the short link of a stored code finds that record: it yields
      the original URL exactly when `now` has not passed its expiry, and the
      expired error otherwise. */
  lemma ExpandStoredCode(records: seq<Record>, i: nat, now: int)
    requires WellFormedStore(records) && i < |records|
    ensures ExpandUrl(records, ShortUrl(records[i].shortCode), now) ==
      if now <= records[i].expiresAt then Success(records[i].originalUrl)
      else Failure(URLNotFound(SHORT_URL_EXPIRED))
  {
    var code := records[i].shortCode;
    ShortUrlRoundTrip(code);
    CodeLookupIsExact(records, i);
  }

  /** Expanding the short link of a code that no record holds fails with
      "Shortened URL not found.". */
  lemma ExpandUnusedCode(records: seq<Record>, code: string, now: int)
    requires ShortCode.IsShortCode(code, |code|) && code != ""
    requires IsUnused(records, code)
    ensures ExpandUrl(records, ShortUrl(code), now) == Failure(URLNotFound(SHORT_URL_NOT_FOUND))
  {
    ShortUrlRoundTrip(code);
  }

  // ---------------------------------------------------------------------
  // The store across minify
  // ---------------------------------------------------------------------

  /** Minify keeps every code a six-character alphanumeric code held by one
      record only. */
  lemma MinifyKeepsStoreWellFormed(records: seq<Record>, url: string, expirationSeconds: int, now: int,
                                   draws: seq<seq<ShortCode.Pick>>)
    requires WellFormedDraws(draws)
    requires NeedsNewCode(records, url, now) ==> SuppliesUnusedCode(records, draws)
    requires WellFormedStore(records)
    ensures WellFormedStore(Minify(records, url, expirationSeconds, now, draws).records)
  {
    MinifyPaths(records, url, expirationSeconds, now, draws);
    if NeedsNewCode(records, url, now) {
      var k := FirstUnusedDraw(records, draws, 0);
      AppendFreshKeepsWellFormed(records, Record(url, Candidate(draws, k), now, now + expirationSeconds));
    }
  }

  /** Minify never edits or removes a record: the old store is a prefix of
      the new one, at most one record longer. */
  lemma MinifyOnlyAppends(records: seq<Record>, url: string, expirationSeconds: int, now: int,
                          draws: seq<seq<ShortCode.Pick>>)
    requires WellFormedDraws(draws)
    requires NeedsNewCode(records, url, now) ==> SuppliesUnusedCode(records, draws)
    ensures var after := Minify(records, url, expirationSeconds, now, draws).records;
      |records| <= |after| <= |records| + 1 && after[..|records|] == records
  {
    if NeedsNewCode(records, url, now) {
      MinifyInsertsFreshRecord(records, url, expirationSeconds, now, draws);
    }
  }

  // ---------------------------------------------------------------------
  // Expand after minify
  // ---------------------------------------------------------------------

  /** With a non-negative expiration and the same clock, expanding the link
      minify returns gives back the URL, whether minify reused a record or
      inserted one. */
  lemma ExpandAfterMinify(records: seq<Record>, url: string, expirationSeconds: int, now: int,
                          draws: seq<seq<ShortCode.Pick>>)
    requires WellFormedDraws(draws)
    requires NeedsNewCode(records, url, now) ==> SuppliesUnusedCode(records, draws)
    requires WellFormedStore(records)
    requires Url.IsValidUrl(url) && expirationSeconds >= 0
    ensures var m := Minify(records, url, expirationSeconds, now, draws);
      m.result.Success? && ExpandUrl(m.records, m.result.value, now) == Success(url)
  {
    var m := Minify(records, url, expirationSeconds, now, draws);
    MinifyKeepsStoreWellFormed(records, url, expirationSeconds, now, draws);
    match FirstMatch(records, LiveFor(url, now))
    case Some(i) =>
      ExpandStoredCode(records, i, now);
    case None =>
      MinifyInsertsFreshRecord(records, url, expirationSeconds, now, draws);
      ExpandStoredCode(m.records, |records|, now);
  }

  // ---------------------------------------------------------------------
  // Idempotence
  // ---------------------------------------------------------------------

  /** Minifying the same URL again, at the same time, returns the same short
      link and inserts nothing, provided the first call did not create an
      already expired record. */
  lemma MinifyIsIdempotent(records: seq<Record>, url: string, expirationSeconds: int, now: int,
                           draws: seq<seq<ShortCode.Pick>>,
                           secondExpiration: int, secondDraws: seq<seq<ShortCode.Pick>>)
    requires WellFormedDraws(draws) && WellFormedDraws(secondDraws)
    requires NeedsNewCode(records, url, now) ==> SuppliesUnusedCode(records, draws)
    requires NeedsNewCode(records, url, now) ==> expirationSeconds > 0
    ensures var m := Minify(records, url, expirationSeconds, now, draws);
      && !NeedsNewCode(m.records, url, now)
      && Minify(m.records, url, secondExpiration, now, secondDraws) == m
  {
    var m := Minify(records, url, expirationSeconds, now, draws);
    if NeedsNewCode(records, url, now) {
      MinifyInsertsFreshRecord(records, url, expirationSeconds, now, draws);
      assert FirstMatch(m.records, LiveFor(url, now)) == Some(|records|) by {
        forall j | 0 <= j < |records|
          ensures !Matches(LiveFor(url, now), m.records[j])
        {
          assert m.records[j] == m.records[..|records|][j];
        }
      }
    }
  }

  /** A record minify inserts is reused by every later minify of the same URL
      until it expires: the same short link, nothing inserted. */
  lemma InsertedRecordIsReusedUntilExpiry(records: seq<Record>, url: string, expirationSeconds: int, now: int,
                                          draws: seq<seq<ShortCode.Pick>>,
                                          later: int, secondExpiration: int, secondDraws: seq<seq<ShortCode.Pick>>)
    requires WellFormedDraws(draws) && WellFormedDraws(secondDraws)
    requires NeedsNewCode(records, url, now) && SuppliesUnusedCode(records, draws)
    requires now <= later < now + expirationSeconds
    ensures var m := Minify(records, url, expirationSeconds, now, draws);
      && !NeedsNewCode(m.records, url, later)
      && Minify(m.records, url, secondExpiration, later, secondDraws) == m
  {
    var m := Minify(records, url, expirationSeconds, now, draws);
    MinifyInsertsFreshRecord(records, url, expirationSeconds, now, draws);
    assert FirstMatch(m.records, LiveFor(url, later)) == Some(|records|) by {
      forall j | 0 <= j < |records|
        ensures !Matches(LiveFor(url, later), m.records[j])
      {
        assert m.records[j] == m.records[..|records|][j];
        assert !Matches(LiveFor(url, now), records[j]);
      }
    }
  }

  // ---------------------------------------------------------------------
  // Expiry boundary
  // ---------------------------------------------------------------------

  /** A record that expires exactly now is still expanded, and is expired
      one second later. */
  lemma ExpiryBoundary(records: seq<Record>, i: nat, now: int)
    requires WellFormedStore(records) && i < |records|
    requires records[i].expiresAt == now
    ensures ExpandUrl(records, ShortUrl(records[i].shortCode), now) == Success(records[i].originalUrl)
    ensures ExpandUrl(records, ShortUrl(records[i].shortCode), now + 1) == Failure(URLNotFound(SHORT_URL_EXPIRED))
  {
    ExpandStoredCode(records, i, now);
    ExpandStoredCode(records, i, now + 1);
  }

  /** Minify, unlike expand, no longer reuses a record that expires exactly
      now: when it is the only record for its URL, minify must insert a new
      one. */
  lemma ExpiringRecordIsNotReused(records: seq<Record>, i: nat, now: int)
    requires i < |records| && records[i].expiresAt == now
    requires forall j :: 0 <= j < |records| && j != i ==> records[j].originalUrl != records[i].originalUrl
    requires Url.IsValidUrl(records[i].originalUrl)
    ensures NeedsNewCode(records, records[i].originalUrl, now)
  {
  }

  /** With a zero expiration, each minify of a URL inserts a fresh record:
      the record it made is already too old to be reused. */
  lemma ZeroExpirationIsNeverReused(records: seq<Record>, url: string, now: int,
                                    draws: seq<seq<ShortCode.Pick>>)
    requires WellFormedDraws(draws)
    requires NeedsNewCode(records, url, now) && SuppliesUnusedCode(records, draws)
    ensures NeedsNewCode(Minify(records, url, 0, now, draws).records, url, now)
  {
    var after := Minify(records, url, 0, now, draws).records;
    MinifyInsertsFreshRecord(records, url, 0, now, draws);
    assert after == records + [after[|records|]];
    ExpiredAppendIsNotLive(records, after[|records|], url, now);
  }

  // ---------------------------------------------------------------------
  // Example scenarios
  // ---------------------------------------------------------------------

  /** A string without `:` has no scheme, so both operations refuse it, and
      minify leaves the store as it was. */
  lemma NoSchemeIsRefused(records: seq<Record>, raw: string, expirationSeconds: int, now: int,
                          draws: seq<seq<ShortCode.Pick>>)
    requires WellFormedDraws(draws)
    requires ':' !in raw
    ensures Minify(records, raw, expirationSeconds, now, draws)
      == MinifyStep(Failure(InvalidURL("Invalid URL: " + raw)), records)
    ensures ExpandUrl(records, raw, now) == Failure(InvalidURL("Invalid URL: " + raw))
  {
    Url.NoColonIsInvalid(raw);
  }

  /** A link to the service whose path holds nothing but slashes names no
      code. */
  lemma SlashesNameNoCode(records: seq<Record>, url: string, netloc: string, slashes: string, now: int)
    requires Url.IsPlainParts("https", netloc, slashes) && netloc != ""
    requires forall i :: 0 <= i < |slashes| ==> slashes[i] == '/'
    requires url == Url.Compose("https", netloc, slashes)
    ensures ExpandUrl(records, url, now) == Failure(URLNotFound(NO_SHORT_CODE))
  {
    Url.ParseCompose("https", netloc, slashes);
    Url.AcceptedSchemesAreLower();
  }

  /** The bare base link is such a link. */
  lemma BaseUrlHasNoCode(records: seq<Record>, now: int)
    ensures ExpandUrl(records, BASE_SHORT_URL, now) == Failure(URLNotFound(NO_SHORT_CODE))
  {
    assert Url.IsPlainParts("https", "short.url", "");
    SlashesNameNoCode(records, BASE_SHORT_URL, "short.url", "", now);
  }

  /** A code that is not stored is not found. */
  lemma MissingCodeIsNotFound(now: int)
    ensures ExpandUrl([], ShortUrl("NONEXIST"), now) == Failure(URLNotFound(SHORT_URL_NOT_FOUND))
  {
    ExpandUnusedCode([], "NONEXIST", now);
  }

  /** A live record for the URL is reused: its short link comes back and
      nothing is inserted. */
  lemma LiveRecordIsReused(url: string, now: int, draws: seq<seq<ShortCode.Pick>>)
    requires WellFormedDraws(draws) && Url.IsValidUrl(url)
    ensures var stored := [Record(url, "ABC123", now - 10, now + 100)];
      Minify(stored, url, DEFAULT_EXPIRATION_SECONDS, now, draws) == MinifyStep(Success(ShortUrl("ABC123")), stored)
  {
    var stored := [Record(url, "ABC123", now - 10, now + 100)];
    assert FirstMatch(stored, LiveFor(url, now)) == Some(0);
    MinifyPaths(stored, url, DEFAULT_EXPIRATION_SECONDS, now, draws);
  }

  /** With no record for the URL and a generator whose first call yields
      `code`, minify inserts one record with that code and returns its short
      link. Every six-character alphanumeric code is such a first call. */
  lemma NewRecordIsInserted(url: string, code: string, now: int, draws: seq<seq<ShortCode.Pick>>)
    requires Url.IsValidUrl(url) && WellFormedDraws(draws) && |draws| > 0
    requires Candidate(draws, 0) == code
    ensures SuppliesUnusedCode([], draws)
    ensures Minify([], url, DEFAULT_EXPIRATION_SECONDS, now, draws)
      == MinifyStep(Success(ShortUrl(code)), [Record(url, code, now, now + DEFAULT_EXPIRATION_SECONDS)])
  {
    MinifyTakesUnusedFirstDraw([], url, DEFAULT_EXPIRATION_SECONDS, now, draws);
  }

  /** The generator can yield any six-character alphanumeric code first. */
  lemma EveryCodeCanComeFirst(code: string)
    requires ShortCode.IsShortCode(code, ShortCode.DEFAULT_LENGTH)
    ensures WellFormedDraws([ShortCode.PicksOf(code)])
    ensures Candidate([ShortCode.PicksOf(code)], 0) == code
  {
    ShortCode.GeneratorReachesEveryCode(code);
  }

  /** An expired record is reported as expired. */
  lemma ExpiredRecordIsRefused(now: int)
    ensures ExpandUrl([Record("https://www.expired.com", "EXP001", now - 3610, now - 10)],
                      ShortUrl("EXP001"), now)
      == Failure(URLNotFound(SHORT_URL_EXPIRED))
  {
    ExpandStoredCode([Record("https://www.expired.com", "EXP001", now - 3610, now - 10)], 0, now);
  }

  /** A live record expands to its original URL. */
  lemma LiveRecordExpands(now: int)
    ensures ExpandUrl([Record("https://www.valid.com", "VAL001", now - 10, now + 1000)],
                      ShortUrl("VAL001"), now)
      == Success("https://www.valid.com")
  {
    ExpandStoredCode([Record("https://www.valid.com", "VAL001", now - 10, now + 1000)], 0, now);
  }
}
