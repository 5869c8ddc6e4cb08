/** The two operations of the URL shortener: `minify` turns a long URL into
    `https://short.url/<code>`, reusing a live record for the same URL or
    inserting a new record with an unused code, and `expand` turns a short URL
    back into the original one unless its record is missing or expired.
    The clock is the parameter `now` (UTC seconds), and the random choice of
    codes is the parameter `draws`. */
module Services {
  import opened Wrappers
  import opened Text
  import Url
  import ShortCode
  import opened Store

  /** The origin every short link starts with. */
  const BASE_SHORT_URL: string := "https://short.url"

  /** How long a new record stays live when the caller names no expiration. */
  const DEFAULT_EXPIRATION_SECONDS: int := 3600

  /** The errors the service raises, each with its message. */
  datatype ServiceError = InvalidURL(message: string) | URLNotFound(message: string)

  const NO_SHORT_CODE: string := "No short code found in the URL."
  const SHORT_URL_NOT_FOUND: string := "Shortened URL not found."
  const SHORT_URL_EXPIRED: string := "Shortened URL has expired."

  function InvalidUrlError(url: string): ServiceError {
    InvalidURL("Invalid URL: " + url)
  }

  /** The short link for a code. */
  function ShortUrl(code: string): (url: string)
    ensures |url| == |BASE_SHORT_URL| + 1 + |code|
    ensures url[..|BASE_SHORT_URL|] == BASE_SHORT_URL && url[|BASE_SHORT_URL|] == '/'
    ensures url[|BASE_SHORT_URL| + 1..] == code
  {
    BASE_SHORT_URL + "/" + code
  }

  // ---------------------------------------------------------------------
  // Expand
  // ---------------------------------------------------------------------

  /** The code a URL asks for: its path without leading and trailing `/`. */
  function RequestedCode(url: string): (code: string)
    requires Url.IsValidUrl(url)
    ensures code == [] || (code[0] != '/' && code[|code| - 1] != '/')
  {
    Strip(Url.Parse(url).value.path, {'/'})
  }

  /** The original URL behind a short URL: InvalidURL for input that fails
      validation; URLNotFound when the path holds no code, when no record
      has that code, or when the first record with it expired before `now`
      (a record expiring at `now` itself is still live). */
  function ExpandUrl(records: seq<Record>, url: string, now: int): (r: Result<string, ServiceError>)
    ensures !Url.IsValidUrl(url) <==> r == Failure(InvalidUrlError(url))
    ensures Url.IsValidUrl(url) && RequestedCode(url) == "" ==> r == Failure(URLNotFound(NO_SHORT_CODE))
  {
    if !Url.IsValidUrl(url) then Failure(InvalidUrlError(url))
    else
      var code := RequestedCode(url);
      if code == "" then Failure(URLNotFound(NO_SHORT_CODE))
      else match FirstMatch(records, WithCode(code))
        case None => Failure(URLNotFound(SHORT_URL_NOT_FOUND))
        case Some(i) =>
          if now > records[i].expiresAt then Failure(URLNotFound(SHORT_URL_EXPIRED))
          else Success(records[i].originalUrl)
  }

  /** For a URL that names a code, expand looks the code up among all
      records: URLNotFound("Shortened URL not found.") exactly when no record
      holds it; otherwise the first record holding it decides, succeeding with
      its original URL exactly when it has not expired before `now`. */
  lemma ExpandLooksUpCode(records: seq<Record>, url: string, now: int)
    requires Url.IsValidUrl(url) && RequestedCode(url) != ""
    ensures var r := ExpandUrl(records, url, now);
      (forall j :: 0 <= j < |records| ==> records[j].shortCode != RequestedCode(url))
        <==> r == Failure(URLNotFound(SHORT_URL_NOT_FOUND))
    ensures var r := ExpandUrl(records, url, now);
      match FirstMatch(records, WithCode(RequestedCode(url)))
      case None => true
      case Some(i) =>
        && (r.Success? <==> now <= records[i].expiresAt)
        && (r.Success? ==> r.value == records[i].originalUrl)
        && (r.Failure? ==> r.error == URLNotFound(SHORT_URL_EXPIRED))
  {
  }

  // ---------------------------------------------------------------------
  // Minify
  // ---------------------------------------------------------------------

  /** The generator's draws, one entry per call: each call spells a code of
      the default length. */
  predicate WellFormedDraws(draws: seq<seq<ShortCode.Pick>>) {
    forall k :: 0 <= k < |draws| ==> |draws[k]| == ShortCode.DEFAULT_LENGTH
  }

  /** The code the generator yields on its `k`-th call. */
  function Candidate(draws: seq<seq<ShortCode.Pick>>, k: nat): (code: string)
    requires WellFormedDraws(draws) && k < |draws|
    ensures ShortCode.IsShortCode(code, ShortCode.DEFAULT_LENGTH)
  {
    ShortCode.GenerateShortCode(ShortCode.DEFAULT_LENGTH, draws[k])
  }

  /** No record, live or expired, holds `code`. */
  predicate IsUnused(records: seq<Record>, code: string) {
    FirstMatch(records, WithCode(code)).None?
  }

  /** The generator yields an unused code on some call: the retry loop ends. */
  predicate SuppliesUnusedCode(records: seq<Record>, draws: seq<seq<ShortCode.Pick>>)
    requires WellFormedDraws(draws)
  {
    exists k :: 0 <= k < |draws| && IsUnused(records, Candidate(draws, k))
  }

  /** Minify must insert: the URL is valid and no live record holds it. */
  predicate NeedsNewCode(records: seq<Record>, url: string, now: int) {
    Url.IsValidUrl(url) && FirstMatch(records, LiveFor(url, now)).None?
  }

  /** The call of the generator, from `from` on, that yields the first unused code. */
  function FirstUnusedDraw(records: seq<Record>, draws: seq<seq<ShortCode.Pick>>, from: nat): (k: nat)
    requires WellFormedDraws(draws)
    requires exists k :: from <= k < |draws| && IsUnused(records, Candidate(draws, k))
    ensures from <= k < |draws| && IsUnused(records, Candidate(draws, k))
    ensures forall j :: from <= j < k ==> !IsUnused(records, Candidate(draws, j))
    decreases |draws| - from
  {
    if IsUnused(records, Candidate(draws, from)) then from
    else FirstUnusedDraw(records, draws, from + 1)
  }

  /** What one minify call returns and the store it leaves. */
  datatype MinifyStep = MinifyStep(result: Result<string, ServiceError>, records: seq<Record>)

  /** Minify as a function of the store: InvalidURL for input that fails
      validation, with the store untouched; the short link of the first live
      record for the URL, with the store untouched; otherwise one new record
      appended, holding the first generated code no record uses, created at
      `now` and expiring `expirationSeconds` later. */
  function Minify(records: seq<Record>, url: string, expirationSeconds: int, now: int,
                  draws: seq<seq<ShortCode.Pick>>): (m: MinifyStep)
    requires WellFormedDraws(draws)
    requires NeedsNewCode(records, url, now) ==> SuppliesUnusedCode(records, draws)
    ensures !Url.IsValidUrl(url) ==> m == MinifyStep(Failure(InvalidUrlError(url)), records)
    ensures Url.IsValidUrl(url) ==> m.result.Success?
    ensures !NeedsNewCode(records, url, now) ==> m.records == records
    ensures Url.IsValidUrl(url) ==>
      match FirstMatch(records, LiveFor(url, now))
      case None => true
      case Some(i) => m.result == Success(ShortUrl(records[i].shortCode))
  {
    if !Url.IsValidUrl(url) then MinifyStep(Failure(InvalidUrlError(url)), records)
    else match FirstMatch(records, LiveFor(url, now))
      case Some(i) => MinifyStep(Success(ShortUrl(records[i].shortCode)), records)
      case None =>
        var code := Candidate(draws, FirstUnusedDraw(records, draws, 0));
        var added := Record(url, code, now, now + expirationSeconds);
        MinifyStep(Success(ShortUrl(code)), records + [added])
  }

  /** When minify inserts, the store grows by one record at the end: it holds
      the URL, a six-character alphanumeric code that no earlier record, live
      or expired, holds, the first such code the generator yielded, and
      timestamps `now` and `now + expirationSeconds`; the short link of that
      code is returned. */
  lemma MinifyInsertsFreshRecord(records: seq<Record>, url: string, expirationSeconds: int, now: int,
                                 draws: seq<seq<ShortCode.Pick>>)
    requires WellFormedDraws(draws)
    requires NeedsNewCode(records, url, now) && SuppliesUnusedCode(records, draws)
    ensures
      var m := Minify(records, url, expirationSeconds, now, draws);
      && |m.records| == |records| + 1
      && m.records[..|records|] == records
      && var added := m.records[|records|];
      && added == Record(url, added.shortCode, now, now + expirationSeconds)
      && ShortCode.IsShortCode(added.shortCode, ShortCode.DEFAULT_LENGTH)
      && (forall j :: 0 <= j < |records| ==> records[j].shortCode != added.shortCode)
      && (exists k :: 0 <= k < |draws| && added.shortCode == Candidate(draws, k)
                      && forall j :: 0 <= j < k ==> !IsUnused(records, Candidate(draws, j)))
      && m.result == Success(ShortUrl(added.shortCode))
  {
    var k := FirstUnusedDraw(records, draws, 0);
    var added := Record(url, Candidate(draws, k), now, now + expirationSeconds);
    assert Minify(records, url, expirationSeconds, now, draws).records == records + [added];
    assert (records + [added])[..|records|] == records;
  }

  /** When the generator's first call already yields an unused code, minify
      inserts the record with that code. */
  lemma MinifyTakesUnusedFirstDraw(records: seq<Record>, url: string, expirationSeconds: int, now: int,
                                   draws: seq<seq<ShortCode.Pick>>)
    requires WellFormedDraws(draws) && |draws| > 0
    requires NeedsNewCode(records, url, now) && IsUnused(records, Candidate(draws, 0))
    ensures SuppliesUnusedCode(records, draws)
    ensures Minify(records, url, expirationSeconds, now, draws)
      == MinifyStep(Success(ShortUrl(Candidate(draws, 0))),
                    records + [Record(url, Candidate(draws, 0), now, now + expirationSeconds)])
  {
    assert FirstUnusedDraw(records, draws, 0) == 0;
  }

  /** Minify's value on each of its three paths. */
  lemma MinifyPaths(records: seq<Record>, url: string, expirationSeconds: int, now: int,
                    draws: seq<seq<ShortCode.Pick>>)
    requires WellFormedDraws(draws)
    requires NeedsNewCode(records, url, now) ==> SuppliesUnusedCode(records, draws)
    ensures !Url.IsValidUrl(url) ==> Minify(records, url, expirationSeconds, now, draws).records == records
    ensures Url.IsValidUrl(url) && FirstMatch(records, LiveFor(url, now)).Some? ==>
      Minify(records, url, expirationSeconds, now, draws)
        == MinifyStep(Success(ShortUrl(records[FirstMatch(records, LiveFor(url, now)).value].shortCode)), records)
    ensures NeedsNewCode(records, url, now) ==>
      var code := Candidate(draws, FirstUnusedDraw(records, draws, 0));
      Minify(records, url, expirationSeconds, now, draws)
        == MinifyStep(Success(ShortUrl(code)), records + [Record(url, code, now, now + expirationSeconds)])
  {
  }

  /** The retry loop of minify: call the generator until it yields a code
      that no record, live or expired, holds. */
  method DrawUnusedCode(db: UrlCollection, draws: seq<seq<ShortCode.Pick>>) returns (code: string)
    requires WellFormedDraws(draws) && SuppliesUnusedCode(db.records, draws)
    ensures forall j :: 0 <= j < |db.records| ==> db.records[j].shortCode != code
    ensures code == Candidate(draws, FirstUnusedDraw(db.records, draws, 0))
  {
    ghost var first := FirstUnusedDraw(db.records, draws, 0);
    var k := 0;
    while db.FindOne(WithCode(Candidate(draws, k))).Some?
      invariant k <= first
      decreases first - k
    {
      k := k + 1;
    }
    code := Candidate(draws, k);
  }

  /** The insertion branch of minify: draw an unused code and append the
      record for `url`, created at `now`. */
  method InsertNewRecord(db: UrlCollection, url: string, expirationSeconds: int, now: int,
                         draws: seq<seq<ShortCode.Pick>>)
    returns (code: string)
    requires WellFormedDraws(draws) && SuppliesUnusedCode(db.records, draws)
    modifies db
    ensures code == Candidate(draws, FirstUnusedDraw(old(db.records), draws, 0))
    ensures db.records == old(db.records) + [Record(url, code, now, now + expirationSeconds)]
  {
    code := DrawUnusedCode(db, draws);
    db.InsertOne(Record(url, code, now, now + expirationSeconds));
  }

  /** Minify on the collection: validate, look for a live record for the
      URL, otherwise draw codes until one is unused and insert the record. */
  method MinifyUrl(db: UrlCollection, url: string, now: int, draws: seq<seq<ShortCode.Pick>>,
                   expirationSeconds: int := DEFAULT_EXPIRATION_SECONDS)
    returns (r: Result<string, ServiceError>)
    requires WellFormedDraws(draws)
    requires NeedsNewCode(db.records, url, now) ==> SuppliesUnusedCode(db.records, draws)
    modifies db
    ensures MinifyStep(r, db.records) == Minify(old(db.records), url, expirationSeconds, now, draws)
    ensures |old(db.records)| <= |db.records| <= |old(db.records)| + 1
    ensures db.records[..|old(db.records)|] == old(db.records)
  {
    ghost var before := db.records;
    MinifyPaths(before, url, expirationSeconds, now, draws);
    if !Url.IsValidUrl(url) {
      r := Failure(InvalidUrlError(url));
      assert MinifyStep(r, db.records) == Minify(before, url, expirationSeconds, now, draws);
      return;
    }
    var existing := db.FindOne(LiveFor(url, now));
    if existing.Some? {
      assert existing.value == db.records[FirstMatch(db.records, LiveFor(url, now)).value];
      r := Success(ShortUrl(existing.value.shortCode));
      assert MinifyStep(r, db.records) == Minify(before, url, expirationSeconds, now, draws);
      return;
    }
    assert NeedsNewCode(before, url, now);
    var shortCode := InsertNewRecord(db, url, expirationSeconds, now, draws);
    r := Success(ShortUrl(shortCode));
  }
}
