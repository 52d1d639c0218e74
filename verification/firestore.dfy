/**
 * The persistence manager (`FirestoreManager`) without the database: the
 * shape of an API response, the document written by `save_rates`, the
 * pruning arithmetic of `clear_old_caches` and the expiry decision of
 * `get_cached_rates`. Queries, writes and deletions are inputs; the clock
 * is a parameter.
 */
module Firestore {
  import opened Wrappers
  import opened Text
  import opened Calendar
  import opened Json

  // ------------------------------------------------------------------
  // Instants and the UTC clock
  // ------------------------------------------------------------------

  /**
   * `datetime.fromtimestamp(n, tz=timezone.utc)` for an instant counted in
   * microseconds from 0001-01-01T00:00Z: its UTC wall clock, or None where
   * Python raises because the year leaves 1..9999.
   */
  function UtcClock(n: int): (r: Option<DateTime>)
    ensures r.Some? ==> ValidDateTime(r.value) && WallMicros(r.value) == n
    ensures r.None? <==> n < 0 || FromWallMicros(n).date.year > MaxYear
  {
    if n < 0 then None
    else
      var t := FromWallMicros(n);
      if t.date.year > MaxYear then None
      else
        WallMicrosOfFromWallMicros(n);
        Some(t)
  }

  /** Every valid wall clock is the UTC clock of its own instant. */
  lemma UtcClockOfWall(t: DateTime)
    requires ValidDateTime(t)
    ensures UtcClock(WallMicros(t)) == Some(t)
  {
    FromWallMicrosOfWallMicros(t);
  }

  // ------------------------------------------------------------------
  // format_response
  // ------------------------------------------------------------------

  /** The keys of a response and of a stored document, in order. */
  function ResponseKeys(): seq<string> {
    ["bank_id", "bank_name", "effective_date", "last_updated", "data", "source_url", "cached"]
  }

  /** The seven entries of a response. */
  function Response(bankId: Value, bankName: Value, effectiveDate: Value, lastUpdated: Value,
                    payload: Value, sourceUrl: Value, cached: Value): (r: Fields)
    ensures Keys(r) == ResponseKeys()
    ensures r[0].1 == bankId && r[1].1 == bankName && r[2].1 == effectiveDate && r[3].1 == lastUpdated
    ensures r[4].1 == payload && r[5].1 == sourceUrl && r[6].1 == cached
  {
    [("bank_id", bankId), ("bank_name", bankName), ("effective_date", effectiveDate),
     ("last_updated", lastUpdated), ("data", payload), ("source_url", sourceUrl), ("cached", cached)]
  }

  /**
   * The `last_updated` text: a `datetime` goes through its timestamp to
   * the UTC clock and is written "%Y-%m-%dT%H:%M:%SZ"; a string passes
   * through verbatim; anything else is replaced by the current time. None
   * where the conversion raises.
   */
  function RenderLastUpdated(v: Value, now: DateTime, localOffset: int): (r: Option<string>)
    requires ValidDateTime(now)
    ensures v.Str? ==> r == Some(v.s)
    ensures !v.Str? && !v.Time? ==> r == Some(FormatTimestamp(now))
    ensures v.Time? ==> (r.None? <==> UtcClock(InstantOf(v.t, localOffset)).None?)
  {
    match v
    case Time(m) =>
      (match UtcClock(InstantOf(m, localOffset))
       case None => None
       case Some(t) => Some(FormatTimestamp(t)))
    case Str(s) => Some(s)
    case _ => Some(FormatTimestamp(now))
  }

  /**
   * `if not own and payload: own = payload.get(key)`: a falsy own value is
   * replaced by the payload's entry. None where the payload is truthy but
   * not a dict, which has no `get`.
   */
  function Fallback(own: Value, payload: Value, key: string): (r: Option<Value>)
    ensures Truthy(own) || !Truthy(payload) ==> r == Some(own)
    ensures !Truthy(own) && payload.Obj? && Truthy(payload) ==> r == Some(Get(payload.fields, key))
    ensures r.None? <==> !Truthy(own) && Truthy(payload) && !payload.Obj?
  {
    if Truthy(own) || !Truthy(payload) then Some(own)
    else if payload.Obj? then Some(Get(payload.fields, key))
    else None
  }

  /**
   * `format_response`. A record holding "data" is a stored document: its
   * "data" is the payload and the metadata is its own. Any other record is
   * itself the payload, stamped with the current time `now` (a UTC wall
   * clock). None where Python raises.
   */
  function FormatResponse(data: Fields, fromCache: bool, now: DateTime, localOffset: int): (r: Option<Fields>)
    requires ValidDateTime(now)
    ensures r.Some? ==> Keys(r.value) == ResponseKeys() && r.value[6].1 == Bool(fromCache)
    ensures r.Some? ==> r.value[4].1 == (if HasKey(data, "data") then Get(data, "data") else Obj(data))
    ensures r.Some? ==> r.value[2].1 == Get(data, "effective_date") && r.value[5].1 == Get(data, "source_url")
    ensures r.Some? ==> r.value[3].1.Str?
    ensures r.Some? && Truthy(Get(data, "bank_id")) ==> r.value[0].1 == Get(data, "bank_id")
    ensures r.Some? && Truthy(Get(data, "bank_name")) ==> r.value[1].1 == Get(data, "bank_name")
    ensures !HasKey(data, "data") ==> r.Some? && r.value[3].1 == Str(FormatTimestamp(now))
  {
    var wrapped := HasKey(data, "data");
    var payload := if wrapped then Get(data, "data") else Obj(data);
    var lastUpdated := if wrapped then Get(data, "last_updated") else Time(Moment(now, Some(0)));
    UtcInstant(now, localOffset);
    UtcClockOfWall(now);
    match RenderLastUpdated(lastUpdated, now, localOffset)
    case None => None
    case Some(stamp) =>
      var bankId := Fallback(Get(data, "bank_id"), payload, "bank_id");
      var bankName := Fallback(Get(data, "bank_name"), payload, "bank_name");
      if bankId.None? || bankName.None? then None
      else Some(Response(bankId.value, bankName.value, Get(data, "effective_date"), Str(stamp),
                         payload, Get(data, "source_url"), Bool(fromCache)))
  }

  /**
   * A record holding "data" but no "last_updated" is stamped now, keeps its
   * own date and URL, and falls back on its payload for its ids.
   */
  lemma FormatResponseWrapped(data: Fields, fromCache: bool, now: DateTime, localOffset: int)
    requires ValidDateTime(now) && HasKey(data, "data") && Get(data, "last_updated") == Null
    requires Fallback(Get(data, "bank_id"), Get(data, "data"), "bank_id").Some?
    requires Fallback(Get(data, "bank_name"), Get(data, "data"), "bank_name").Some?
    ensures FormatResponse(data, fromCache, now, localOffset)
            == Some(Response(Fallback(Get(data, "bank_id"), Get(data, "data"), "bank_id").value,
                             Fallback(Get(data, "bank_name"), Get(data, "data"), "bank_name").value,
                             Get(data, "effective_date"), Str(FormatTimestamp(now)), Get(data, "data"),
                             Get(data, "source_url"), Bool(fromCache)))
  {
  }

  /** A stored document with a falsy `bank_id` takes the one inside its payload. */
  lemma FormatResponseFallback(data: Fields, fromCache: bool, now: DateTime, localOffset: int)
    requires ValidDateTime(now)
    requires HasKey(data, "data") && Get(data, "data").Obj? && Truthy(Get(data, "data"))
    requires !Truthy(Get(data, "bank_id"))
    ensures var r := FormatResponse(data, fromCache, now, localOffset);
            r.Some? ==> r.value[0].1 == Get(Get(data, "data").fields, "bank_id")
  {
  }

  /** A stored aware UTC `datetime` is written as its own wall clock. */
  lemma FormatResponseUtc(data: Fields, fromCache: bool, now: DateTime, localOffset: int)
    requires ValidDateTime(now) && HasKey(data, "data")
    requires Get(data, "last_updated").Time? && Get(data, "last_updated").t.offset == Some(0)
    ensures var r := FormatResponse(data, fromCache, now, localOffset);
            r.Some? ==> r.value[3].1 == Str(FormatTimestamp(Get(data, "last_updated").t.wall))
  {
    var t := Get(data, "last_updated").t.wall;
    UtcInstant(t, localOffset);
    UtcClockOfWall(t);
  }

  /** Falling back twice is falling back once. */
  lemma FallbackIdempotent(own: Value, payload: Value, key: string)
    requires Fallback(own, payload, key).Some?
    ensures Fallback(Fallback(own, payload, key).value, payload, key) == Fallback(own, payload, key)
  {
  }

  /** The entries of a response, looked up by key. */
  lemma ResponseLookup(f: Fields)
    requires Keys(f) == ResponseKeys()
    ensures HasKey(f, "data") && Get(f, "data") == f[4].1
    ensures Get(f, "bank_id") == f[0].1 && Get(f, "bank_name") == f[1].1
    ensures Get(f, "effective_date") == f[2].1 && Get(f, "last_updated") == f[3].1
    ensures Get(f, "source_url") == f[5].1
  {
    assert DistinctKeys(f) by {
      assert forall i, j :: 0 <= i < j < |f| ==> ResponseKeys()[i] != ResponseKeys()[j];
    }
    LookupAt(f, 0);
    LookupAt(f, 1);
    LookupAt(f, 2);
    LookupAt(f, 3);
    LookupAt(f, 4);
    LookupAt(f, 5);
  }

  /** The metadata of a response is what falling back on its own payload gives. */
  lemma FormatResponseMetadata(data: Fields, fromCache: bool, now: DateTime, localOffset: int)
    requires ValidDateTime(now)
    requires FormatResponse(data, fromCache, now, localOffset).Some?
    ensures var r := FormatResponse(data, fromCache, now, localOffset).value;
            Some(r[0].1) == Fallback(Get(data, "bank_id"), r[4].1, "bank_id")
            && Some(r[1].1) == Fallback(Get(data, "bank_name"), r[4].1, "bank_name")
  {
  }

  /** A record shaped like a response, with a text stamp and settled metadata, formats to itself. */
  lemma FormatSettled(f: Fields, again: bool, later: DateTime, localOffset: int)
    requires ValidDateTime(later) && Keys(f) == ResponseKeys() && f[3].1.Str?
    requires Fallback(f[0].1, f[4].1, "bank_id") == Some(f[0].1)
    requires Fallback(f[1].1, f[4].1, "bank_name") == Some(f[1].1)
    ensures FormatResponse(f, again, later, localOffset)
            == Some(Response(f[0].1, f[1].1, f[2].1, f[3].1, f[4].1, f[5].1, Bool(again)))
  {
    ResponseLookup(f);
  }

  /**
   * Formatting a response again changes nothing but `cached`: the stored
   * shape is a fixed point of `format_response`.
   */
  lemma FormatResponseFixpoint(data: Fields, fromCache: bool, again: bool, now: DateTime, later: DateTime, localOffset: int)
    requires ValidDateTime(now) && ValidDateTime(later)
    requires FormatResponse(data, fromCache, now, localOffset).Some?
    ensures var r := FormatResponse(data, fromCache, now, localOffset).value;
            FormatResponse(r, again, later, localOffset)
            == Some(Response(r[0].1, r[1].1, r[2].1, r[3].1, r[4].1, r[5].1, Bool(again)))
  {
    var r := FormatResponse(data, fromCache, now, localOffset).value;
    FormatResponseMetadata(data, fromCache, now, localOffset);
    FallbackIdempotent(Get(data, "bank_id"), r[4].1, "bank_id");
    FallbackIdempotent(Get(data, "bank_name"), r[4].1, "bank_name");
    FormatSettled(r, again, later, localOffset);
  }

  // ------------------------------------------------------------------
  // save_rates
  // ------------------------------------------------------------------

  /**
   * `save_rates`: whether the write succeeded, and the document written.
   * `connected` says whether there is a client; `writeOk` whether the
   * write went through (False when it raised); `serverTime` is what the
   * server stores for its timestamp sentinel.
   */
  function SaveRates(connected: bool, writeOk: bool, rateData: Fields, sourceUrl: Value,
                     bankId: string, bankName: string, serverTime: Value): (r: (bool, Option<Fields>))
    ensures r.0 <==> connected && writeOk
    ensures r.1.Some? <==> r.0
    ensures r.0 ==> Keys(r.1.value) == ResponseKeys()
    ensures r.0 ==> r.1.value[2].1 == Get(rateData, "effective_date") && r.1.value[4].1 == Obj(rateData)
    ensures r.0 ==> r.1.value[6].1 == Bool(true) && r.1.value[0].1 == Str(bankId) && r.1.value[1].1 == Str(bankName)
  {
    if !connected || !writeOk then (false, None)
    else
      (true, Some(Response(Str(bankId), Str(bankName), Get(rateData, "effective_date"), serverTime,
                           Obj(rateData), sourceUrl, Bool(true))))
  }

  /** A stored document with truthy metadata and an aware UTC stamp formats to its own fields. */
  lemma FormatStored(f: Fields, stamp: DateTimeValue, fromCache: bool, now: DateTime, localOffset: int)
    requires ValidDateTime(now) && Keys(f) == ResponseKeys()
    requires Truthy(f[0].1) && Truthy(f[1].1) && f[3].1 == Time(stamp) && stamp.offset == Some(0)
    ensures FormatResponse(f, fromCache, now, localOffset)
            == Some(Response(f[0].1, f[1].1, f[2].1, Str(FormatTimestamp(stamp.wall)), f[4].1, f[5].1, Bool(fromCache)))
  {
    ResponseLookup(f);
    RenderUtc(stamp, now, localOffset);
    assert Fallback(f[0].1, f[4].1, "bank_id") == Some(f[0].1);
    assert Fallback(f[1].1, f[4].1, "bank_name") == Some(f[1].1);
  }

  /** An aware UTC `datetime` is rendered from its own wall clock. */
  lemma RenderUtc(stamp: DateTimeValue, now: DateTime, localOffset: int)
    requires ValidDateTime(now) && stamp.offset == Some(0)
    ensures RenderLastUpdated(Time(stamp), now, localOffset) == Some(FormatTimestamp(stamp.wall))
  {
    UtcInstant(stamp.wall, localOffset);
    UtcClockOfWall(stamp.wall);
  }

  /**
   * A saved document, read back with its server timestamp, formats to the
   * bank, date and payload that were saved.
   */
  lemma SavedDocumentFormats(rateData: Fields, sourceUrl: Value, bankId: string, bankName: string,
                             stamp: DateTimeValue, fromCache: bool, now: DateTime, localOffset: int)
    requires ValidDateTime(now) && |bankId| > 0 && |bankName| > 0
    requires stamp.offset == Some(0)
    ensures var doc := SaveRates(true, true, rateData, sourceUrl, bankId, bankName, Time(stamp)).1.value;
            FormatResponse(doc, fromCache, now, localOffset)
            == Some(Response(Str(bankId), Str(bankName), Get(rateData, "effective_date"),
                             Str(FormatTimestamp(stamp.wall)), Obj(rateData), sourceUrl, Bool(fromCache)))
  {
    var doc := SaveRates(true, true, rateData, sourceUrl, bankId, bankName, Time(stamp)).1.value;
    FormatStored(doc, stamp, fromCache, now, localOffset);
  }

  // ------------------------------------------------------------------
  // clear_old_caches
  // ------------------------------------------------------------------

  /**
   * Python's slicing rule for `s[k:]` on a sequence of length `n`: the item
   * at position `j` is kept when its index is at least `k`, where a
   * negative `k` is compared with the item's negative index `j - n`.
   */
  predicate SliceKeeps(n: nat, k: int, j: nat) {
    if k >= 0 then j >= k else j - n >= k
  }

  /** Where Python's `s[k:]` starts in a sequence of length `n`: the items from there on are exactly those the slicing rule keeps. */
  function SliceStart(n: nat, k: int): (i: nat)
    ensures i <= n
    ensures forall j :: 0 <= j < n ==> (i <= j <==> SliceKeeps(n, k, j))
  {
    if k >= 0 then (if k <= n then k else n)
    else if n + k >= 0 then n + k else 0
  }

  /**
   * `clear_old_caches` over the documents of the collection, newest first
   * (None without a client): the documents deleted, in order, and the
   * count returned.
   */
  method ClearOldCaches<D>(docs: Option<seq<D>>, keepLatest: int) returns (deleted: seq<D>, count: nat)
    ensures count == |deleted|
    ensures docs.None? ==> count == 0
    ensures docs.Some? ==> deleted == docs.value[SliceStart(|docs.value|, keepLatest)..]
    ensures docs.Some? && keepLatest >= 0 ==> count == if |docs.value| > keepLatest then |docs.value| - keepLatest else 0
    ensures docs.Some? && keepLatest < 0 ==> count == if |docs.value| < -keepLatest then |docs.value| else -keepLatest
  {
    deleted, count := [], 0;
    if docs.None? {
      return;
    }
    var all := docs.value;
    if |all| <= keepLatest {
      return;
    }
    var stale := all[SliceStart(|all|, keepLatest)..];
    var i := 0;
    while i < |stale|
      invariant 0 <= i <= |stale|
      invariant deleted == stale[..i] && count == i
    {
      deleted := deleted + [stale[i]];
      count := count + 1;
      i := i + 1;
    }
    assert stale[..i] == stale;
  }

  // ------------------------------------------------------------------
  // get_cached_rates: the expiry decision
  // ------------------------------------------------------------------

  /** `CACHE_DURATION_HOURS` when the environment does not set it. */
  const DefaultCacheHours := 24

  /** `cache_age > timedelta(hours=hours)`, the age in microseconds: an age equal to the limit is still fresh. */
  predicate Expired(ageMicros: int, hours: int) {
    ageMicros > hours * 3600 * MicrosPerSecond
  }

  /**
   * The instant of a stored text stamp: "Z" becomes "+00:00", the text goes
   * to `fromisoformat` (the oracle `parseIso`, None where it raises), a
   * naive result is taken as UTC and an aware one is converted to UTC.
   */
  function IsoInstant(s: string, parseIso: string -> Option<DateTimeValue>): (r: Option<int>)
    ensures r.Some? ==> parseIso(ReplaceChar(s, 'Z', "+00:00")).Some?
  {
    match parseIso(ReplaceChar(s, 'Z', "+00:00"))
    case None => None
    case Some(m) =>
      if m.offset.None? then Some(WallMicros(m.wall))
      else
        match UtcClock(InstantOf(m, 0))
        case None => None
        case Some(w) => Some(WallMicros(w))
  }

  /**
   * The instant of a stored `last_updated` AS WRITTEN: a `datetime` goes
   * through `fromtimestamp` without a zone, which yields the host's wall
   * clock (`localOffset` seconds east of UTC), and that wall clock is then
   * labelled UTC. None where the code raises (also for a value that is
   * neither a `datetime` nor a string, which cannot be subtracted).
   */
  function StoredInstantAsWritten(v: Value, localOffset: int, parseIso: string -> Option<DateTimeValue>): (r: Option<int>)
    ensures v.Str? ==> r == IsoInstant(v.s, parseIso)
    ensures !v.Str? && !v.Time? ==> r.None?
  {
    match v
    case Time(m) =>
      (match UtcClock(InstantOf(m, localOffset) + localOffset * MicrosPerSecond)
       case None => None
       case Some(hostWall) => Some(InstantOf(Moment(hostWall, Some(0)), localOffset)))
    case Str(s) => IsoInstant(s, parseIso)
    case _ => None
  }

  /**
   * The instant of a stored `last_updated` as intended: a `datetime` goes
   * through `fromtimestamp(..., tz=timezone.utc)`, as `format_response` does.
   */
  function StoredInstant(v: Value, localOffset: int, parseIso: string -> Option<DateTimeValue>): (r: Option<int>)
    ensures v.Str? ==> r == IsoInstant(v.s, parseIso)
    ensures !v.Str? && !v.Time? ==> r.None?
    ensures v.Time? && r.Some? ==> r.value == InstantOf(v.t, localOffset)
  {
    match v
    case Time(m) =>
      (match UtcClock(InstantOf(m, localOffset))
       case None => None
       case Some(utc) => Some(WallMicros(utc)))
    case Str(s) => IsoInstant(s, parseIso)
    case _ => None
  }

  /** The cache decision once the stamp's instant is known. */
  function Fresh(data: Fields, instant: Option<int>, now: DateTime, hours: int): (r: Option<Fields>)
    requires ValidDateTime(now)
    ensures r.Some? <==> instant.Some? && !Expired(WallMicros(now) - instant.value, hours)
    ensures r.Some? ==> r.value == data
  {
    match instant
    case None => None
    case Some(i) => if Expired(WallMicros(now) - i, hours) then None else Some(data)
  }

  /**
   * `get_cached_rates` AS WRITTEN, after the query: `connected` says
   * whether there is a client and `doc` is the newest matching document
   * (None when there is none). `now` is the UTC wall clock.
   */
  function CachedRatesAsWritten(connected: bool, doc: Option<Fields>, now: DateTime, localOffset: int,
                                parseIso: string -> Option<DateTimeValue>, hours: int): (r: Option<Fields>)
    requires ValidDateTime(now)
    ensures r.Some? ==> connected && doc.Some? && r.value == doc.value && Truthy(Get(doc.value, "last_updated"))
    ensures r.Some? ==> var i := StoredInstantAsWritten(Get(doc.value, "last_updated"), localOffset, parseIso);
                        i.Some? && !Expired(WallMicros(now) - i.value, hours)
  {
    if !connected || doc.None? then None
    else
      var stamp := Get(doc.value, "last_updated");
      if !Truthy(stamp) then None
      else Fresh(doc.value, StoredInstantAsWritten(stamp, localOffset, parseIso), now, hours)
  }

  /** `get_cached_rates` with the stamp read as the instant it denotes. */
  function CachedRates(connected: bool, doc: Option<Fields>, now: DateTime, localOffset: int,
                       parseIso: string -> Option<DateTimeValue>, hours: int): (r: Option<Fields>)
    requires ValidDateTime(now)
    ensures r.Some? ==> connected && doc.Some? && r.value == doc.value && Truthy(Get(doc.value, "last_updated"))
    ensures r.Some? ==> var i := StoredInstant(Get(doc.value, "last_updated"), localOffset, parseIso);
                        i.Some? && !Expired(WallMicros(now) - i.value, hours)
  {
    if !connected || doc.None? then None
    else
      var stamp := Get(doc.value, "last_updated");
      if !Truthy(stamp) then None
      else Fresh(doc.value, StoredInstant(stamp, localOffset, parseIso), now, hours)
  }

  /**
   * A document stamped with a `datetime` is served exactly while its true
   * age is at most the limit; an age equal to the limit is still served.
   */
  lemma CachedRatesAge(d: Fields, m: DateTimeValue, now: DateTime, localOffset: int,
                       parseIso: string -> Option<DateTimeValue>, hours: int)
    requires ValidDateTime(now) && Get(d, "last_updated") == Time(m)
    requires UtcClock(InstantOf(m, localOffset)).Some?
    ensures CachedRates(true, Some(d), now, localOffset, parseIso, hours).Some?
            <==> WallMicros(now) - InstantOf(m, localOffset) <= hours * 3600 * MicrosPerSecond
  {
  }

  /** As written, the stamp is read `localOffset` seconds late. */
  lemma StoredInstantShift(m: DateTimeValue, localOffset: int, parseIso: string -> Option<DateTimeValue>)
    requires UtcClock(InstantOf(m, localOffset) + localOffset * MicrosPerSecond).Some?
    requires UtcClock(InstantOf(m, localOffset)).Some?
    ensures StoredInstantAsWritten(Time(m), localOffset, parseIso).Some?
    ensures StoredInstantAsWritten(Time(m), localOffset, parseIso).value
            == StoredInstant(Time(m), localOffset, parseIso).value + localOffset * MicrosPerSecond
  {
    AsWrittenInstant(m, localOffset, parseIso);
    IntendedInstant(m, localOffset, parseIso);
  }

  lemma AsWrittenInstant(m: DateTimeValue, localOffset: int, parseIso: string -> Option<DateTimeValue>)
    requires UtcClock(InstantOf(m, localOffset) + localOffset * MicrosPerSecond).Some?
    ensures StoredInstantAsWritten(Time(m), localOffset, parseIso)
            == Some(InstantOf(m, localOffset) + localOffset * MicrosPerSecond)
  {
    var n := InstantOf(m, localOffset) + localOffset * MicrosPerSecond;
    var hostWall := UtcClock(n).value;
    UtcInstant(hostWall, localOffset);
    assert InstantOf(Moment(hostWall, Some(0)), localOffset) == n;
  }

  lemma IntendedInstant(m: DateTimeValue, localOffset: int, parseIso: string -> Option<DateTimeValue>)
    requires UtcClock(InstantOf(m, localOffset)).Some?
    ensures StoredInstant(Time(m), localOffset, parseIso) == Some(InstantOf(m, localOffset))
  {
  }

  /**
   * On a host east of UTC, a document older than the limit by at most
   * the host's offset is still served as written, though it has expired.
   */
  lemma ExpiredDocumentServed(d: Fields, m: DateTimeValue, now: DateTime, localOffset: int,
                              parseIso: string -> Option<DateTimeValue>, hours: int)
    requires ValidDateTime(now) && Get(d, "last_updated") == Time(m)
    requires UtcClock(InstantOf(m, localOffset) + localOffset * MicrosPerSecond).Some?
    requires UtcClock(InstantOf(m, localOffset)).Some?
    requires hours * 3600 * MicrosPerSecond < WallMicros(now) - InstantOf(m, localOffset)
                                            <= hours * 3600 * MicrosPerSecond + localOffset * MicrosPerSecond
    ensures CachedRatesAsWritten(true, Some(d), now, localOffset, parseIso, hours) == Some(d)
    ensures CachedRates(true, Some(d), now, localOffset, parseIso, hours).None?
  {
    StoredInstantShift(m, localOffset, parseIso);
  }
}
