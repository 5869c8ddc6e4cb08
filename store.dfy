/** The collection of short-link records the service reads and writes. Its
    `find_one` returns the first record, in insertion order, that matches a
    filter, and its `insert_one` appends a record. */
module Store {
  import opened Wrappers
  import ShortCode

  /** One short link; timestamps are whole seconds on a UTC clock. */
  datatype Record = Record(originalUrl: string, shortCode: string, createdAt: int, expiresAt: int)

  /** The two filters the service passes to `find_one`. */
  datatype Query =
    | LiveFor(originalUrl: string, now: int)  // same original URL, expiring strictly after `now`
    | WithCode(shortCode: string)             // same short code, whatever its expiry

  predicate Matches(q: Query, rec: Record) {
    match q
    case LiveFor(url, now) => rec.originalUrl == url && rec.expiresAt > now
    case WithCode(code) => rec.shortCode == code
  }

  /** The position of the first record that matches `q`. */
  function FirstMatch(records: seq<Record>, q: Query): (r: Option<nat>)
    ensures r.Some? ==> r.value < |records| && Matches(q, records[r.value])
    ensures r.Some? ==> forall j :: 0 <= j < r.value ==> !Matches(q, records[j])
    ensures r.None? ==> forall j :: 0 <= j < |records| ==> !Matches(q, records[j])
  {
    if |records| == 0 then None
    else if Matches(q, records[0]) then Some(0)
    else match FirstMatch(records[1..], q)
      case None => None
      case Some(i) => Some(i + 1)
  }

  /** The store as the service builds it: every code is a six-character
      alphanumeric code and no two records share a code. */
  predicate WellFormedStore(records: seq<Record>) {
    && (forall i :: 0 <= i < |records| ==> ShortCode.IsShortCode(records[i].shortCode, ShortCode.DEFAULT_LENGTH))
    && (forall i, j :: 0 <= i < j < |records| ==> records[i].shortCode != records[j].shortCode)
  }

  /** In a well-formed store, the record holding a code is the first, and
      only, match for that code. */
  lemma CodeLookupIsExact(records: seq<Record>, i: nat)
    requires WellFormedStore(records)
    requires i < |records|
    ensures FirstMatch(records, WithCode(records[i].shortCode)) == Some(i)
  {
  }

  /** Appending a record whose code is a six-character alphanumeric code
      held by no stored record keeps the store well formed. */
  lemma AppendFreshKeepsWellFormed(records: seq<Record>, rec: Record)
    requires WellFormedStore(records)
    requires ShortCode.IsShortCode(rec.shortCode, ShortCode.DEFAULT_LENGTH)
    requires forall j :: 0 <= j < |records| ==> records[j].shortCode != rec.shortCode
    ensures WellFormedStore(records + [rec])
  {
    var after := records + [rec];
    forall i | 0 <= i < |after|
      ensures ShortCode.IsShortCode(after[i].shortCode, ShortCode.DEFAULT_LENGTH)
    {
      if i < |records| { assert after[i] == records[i]; }
    }
    forall i, j | 0 <= i < j < |after|
      ensures after[i].shortCode != after[j].shortCode
    {
      assert after[i] == records[i];
      if j < |records| { assert after[j] == records[j]; }
    }
  }

  /** Appending a record that is no longer live at `now` leaves the URL
      without a live record if it had none. */
  lemma ExpiredAppendIsNotLive(records: seq<Record>, rec: Record, url: string, now: int)
    requires FirstMatch(records, LiveFor(url, now)).None?
    requires rec.expiresAt <= now
    ensures FirstMatch(records + [rec], LiveFor(url, now)).None?
  {
    var after := records + [rec];
    forall j | 0 <= j < |after| ensures !Matches(LiveFor(url, now), after[j]) {
      if j < |records| { assert after[j] == records[j]; }
    }
  }

  /** The collection object: a list of records that only grows. */
  class UrlCollection {
    var records: seq<Record>

    constructor ()
      ensures records == []
    {
      records := [];
    }

    /** The first record that matches `q`, if any. */
    function FindOne(q: Query): (r: Option<Record>)
      reads this
      ensures r.None? <==> forall j :: 0 <= j < |records| ==> !Matches(q, records[j])
      ensures r.Some? ==> exists i :: 0 <= i < |records| && records[i] == r.value && Matches(q, r.value)
                                      && forall j :: 0 <= j < i ==> !Matches(q, records[j])
    {
      match FirstMatch(records, q)
      case None => None
      case Some(i) => Some(records[i])
    }

    /** Appends `doc`; nothing already stored changes. */
    method InsertOne(doc: Record)
      modifies this
      ensures records == old(records) + [doc]
    {
      records := records + [doc];
    }
  }
}
