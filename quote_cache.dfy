/** The hourly-cached quote (script.js, `updateQuote` and `fetchQuote`).
    Storage holds at most one record `{quote, author, timestamp}`; a record
    younger than one hour is shown as it is, otherwise a new quote is
    requested. The request's outcome is an input of the model. */
module QuoteCache {
  import opened Wrappers

  /** `1000 * 60 * 60`: how long a cached quote stays fresh. */
  const HourMs := 3600000

  /** The texts shown when a request fails. */
  const FallbackDisplay := Display("\"Time is what we want most but use worst.\"", "\U{2014} William Penn")

  /** The `cachedQuote` storage record; `timestamp` is `Date.now()` at the fetch. */
  datatype CachedQuote = CachedQuote(quote: string, author: string, timestamp: int)

  /** One element of the quotes service's answer, `{q, a}`. */
  datatype ServiceQuote = ServiceQuote(q: string, a: string)

  /** How the request in `fetchQuote` ends: an answer, parsed into a list
      that may be empty, or a failure (network error or unreadable body). */
  datatype FetchOutcome = Answered(data: seq<ServiceQuote>) | Failed

  /** The texts of the quote and author elements. */
  datatype Display = Display(quote: string, author: string)

  /** A quote in quotation marks and its author after an em dash. */
  function Shown(quote: string, author: string): Display {
    Display("\"" + quote + "\"", "\U{2014} " + author)
  }

  /** What a cache check decides: show the cached record and re-check after
      `recheckMs` milliseconds, or request a new quote. */
  datatype Decision = ServeCached(recheckMs: int) | Fetch

  /** `(now - cachedData.timestamp) / (1000 * 60 * 60)`, exactly. */
  function HoursSinceCached(timestamp: int, now: int): real {
    (now - timestamp) as real / HourMs as real
  }

  /** The decision of `updateQuote` for the stored record, the current time
      and the current minute of the hour. The cache is used exactly when a
      record is stored and it is less than one hour old. */
  function Decide(cache: Option<CachedQuote>, now: int, minute: int): (d: Decision)
    ensures d.ServeCached? <==> cache.Some? && now - cache.value.timestamp < HourMs
    ensures d.Fetch? <==> cache.None? || now - cache.value.timestamp >= HourMs
  {
    if cache.Some? && HoursSinceCached(cache.value.timestamp, now) < 1.0
    then ServeCached((60 - minute) * 60 * 1000)
    else Fetch
  }

  /** The one-shot re-check waits whole minutes from now: between one minute
      and one hour. It ignores the seconds, so it fires during minute 0 of the
      next hour, as far past the top of the hour as now is past the start of
      its minute. */
  lemma RecheckAtTopOfHour(cache: Option<CachedQuote>, now: int, minute: int)
    requires 0 <= minute < 60
    requires Decide(cache, now, minute).ServeCached?
    ensures var delay := Decide(cache, now, minute).recheckMs;
      60000 <= delay <= HourMs && minute * 60000 + delay == HourMs
  {
  }

  /** The stored record after `fetchQuote` completes at time `now`. */
  function CacheAfterFetch(cache: Option<CachedQuote>, outcome: FetchOutcome, now: int): Option<CachedQuote> {
    match outcome
    case Answered(data) => if |data| > 0 then Some(CachedQuote(data[0].q, data[0].a, now)) else cache
    case Failed => cache
  }

  /** The texts shown after `fetchQuote` completes. */
  function DisplayAfterFetch(display: Display, outcome: FetchOutcome): Display {
    match outcome
    case Answered(data) => if |data| > 0 then Shown(data[0].q, data[0].a) else display
    case Failed => FallbackDisplay
  }

  /** A quote just fetched is what the cache serves for the next hour, and it
      is shown exactly as it was when fetched. */
  lemma FetchedQuoteIsServed(cache: Option<CachedQuote>, display: Display, first: ServiceQuote,
                             rest: seq<ServiceQuote>, fetchedAt: int, now: int, minute: int)
    ensures var c := CacheAfterFetch(cache, Answered([first] + rest), fetchedAt);
      && (Decide(c, now, minute).ServeCached? <==> now - fetchedAt < HourMs)
      && Shown(c.value.quote, c.value.author) == DisplayAfterFetch(display, Answered([first] + rest))
  {
  }

  /** An empty answer changes neither the stored record nor the display. */
  lemma EmptyAnswerChangesNothing(cache: Option<CachedQuote>, display: Display, now: int)
    ensures CacheAfterFetch(cache, Answered([]), now) == cache
    ensures DisplayAfterFetch(display, Answered([])) == display
  {
  }

  /** A failed request shows the fallback and persists nothing, so a cache
      that was stale stays stale and the next check requests again. */
  lemma FailureRetriesLater(cache: Option<CachedQuote>, display: Display, now: int, later: int, minute: int)
    requires Decide(cache, now, minute).Fetch?
    requires now <= later
    ensures CacheAfterFetch(cache, Failed, now) == cache
    ensures DisplayAfterFetch(display, Failed) == FallbackDisplay
    ensures Decide(CacheAfterFetch(cache, Failed, now), later, minute).Fetch?
  {
  }

  /** A stored timestamp never moves backwards when the clock does not. */
  lemma TimestampNonDecreasing(cache: Option<CachedQuote>, outcome: FetchOutcome, now: int)
    requires cache.Some? ==> cache.value.timestamp <= now
    ensures var c := CacheAfterFetch(cache, outcome, now);
      cache.Some? ==> c.Some? && cache.value.timestamp <= c.value.timestamp
  {
  }

  /** The quote panel: the cached-quote storage entry and the two texts on
      the page. */
  class QuoteWidget {
    var cache: Option<CachedQuote>
    var display: Display

    constructor (stored: Option<CachedQuote>, initial: Display)
      ensures cache == stored && display == initial
    {
      cache := stored;
      display := initial;
    }

    /** `updateQuote`: serve a fresh cached record, or report that a request
        is to be sent. The request runs on after this returns (the source does
        not await it); its completion is `FetchQuote`. */
    method UpdateQuote(now: int, minute: int) returns (d: Decision)
      modifies this
      ensures d == Decide(old(cache), now, minute)
      ensures cache == old(cache)
      ensures display == if d.ServeCached? then Shown(cache.value.quote, cache.value.author) else old(display)
    {
      if cache.Some? {
        var cached := cache.value;
        var hoursSinceCached := (now - cached.timestamp) as real / (1000 * 60 * 60) as real;
        if hoursSinceCached < 1.0 {
          display := Shown(cached.quote, cached.author);
          d := ServeCached((60 - minute) * 60 * 1000);
          return;
        }
      }
      d := Fetch;
    }

    /** The completion of `fetchQuote` at time `now` with the given outcome. */
    method FetchQuote(now: int, outcome: FetchOutcome)
      modifies this
      ensures cache == CacheAfterFetch(old(cache), outcome, now)
      ensures display == DisplayAfterFetch(old(display), outcome)
    {
      match outcome {
        case Answered(data) =>
          if |data| > 0 {
            var quoteData := data[0];
            display := Shown(quoteData.q, quoteData.a);
            cache := Some(CachedQuote(quoteData.q, quoteData.a, now));
          }
        case Failed =>
          display := FallbackDisplay;
      }
    }
  }

  /** The cache scenarios: a record 30 minutes old is shown without a request;
      a failed request shows the fallback. */
  method Scenarios(now: int, initial: Display) {
    var record := CachedQuote("Be here now.", "Ram Dass", now - 1800000);
    var w := new QuoteWidget(Some(record), initial);
    var d := w.UpdateQuote(now, 30);
    assert d == ServeCached(1800000);
    assert w.display == Display("\"Be here now.\"", "\U{2014} Ram Dass");

    var v := new QuoteWidget(None, initial);
    d := v.UpdateQuote(now, 30);
    assert d == Fetch;
    v.FetchQuote(now, Failed);
    assert v.cache == None;
    assert v.display.quote == "\"Time is what we want most but use worst.\"";
  }
}
