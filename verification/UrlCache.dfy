/** The content cache of dashboards that are fetched from a URL
    (controllers/fetchers/url_fetcher.go, api/v1beta1/grafanadashboard_types.go). */
module UrlCache {
  import opened Wrappers

  /** The three cache fields of the status, which belong together. */
  datatype Cache = Cache(content: string, timestamp: int, url: string)

  const EMPTY_CACHE := Cache("", 0, "")

  /** gzip and gunzip on byte strings. */
  datatype Codec = Codec(zip: string -> Option<string>, unzip: string -> Option<string>)

  ghost predicate Inverts(codec: Codec) {
    && (forall c :: codec.zip(c).Some? ==> codec.unzip(codec.zip(c).value) == Some(c))
    && codec.unzip("") == None
  }

  const STATUS_OK := 200

  /** What the origin answers: nothing, or a status code with a body that may break off. */
  datatype Response = NoResponse | Response(status: int, body: Option<string>)

  /** The content of a usable answer. */
  function Delivered(r: Response): Option<string> {
    if r.Response? && r.status == STATUS_OK then r.body else None
  }

  predicate Alive(c: Cache, url: string, duration: int, now: int) {
    c.url == url && (duration <= 0 || now < c.timestamp + duration)
  }

  /** getContentCache: the cached content, empty if it must not be used. */
  function Cached(c: Cache, url: string, duration: int, now: int, codec: Codec): string {
    if !Alive(c, url, duration, now) then ""
    else match codec.unzip(c.content)
      case None => ""
      case Some(content) => content
  }

  /** One fetch: its result and the cache it leaves. */
  datatype Fetched = Fetched(result: Result<string>, cache: Cache, requested: bool)

  /** `valid` says whether the URL parses; `now` is the time of the cache lookup and `stored`
      the time at which a new answer is recorded. */
  function Fetch(c: Cache, url: string, duration: int, valid: bool, now: int, stored: int, r: Response, codec: Codec)
    : Fetched
  {
    if !valid then Fetched(Err("invalid url"), c, false)
    else if Cached(c, url, duration, now, codec) != "" then
      Fetched(Ok(Cached(c, url, duration, now, codec)), c, false)
    else match Delivered(r)
      case None => Fetched(Err("no content"), c, true)
      case Some(content) =>
        if codec.zip(content).None? then Fetched(Err("failed to gzip"), c, true)
        else Fetched(Ok(content), Cache(codec.zip(content).value, stored, url), true)
  }

  /** When a fetch returns what: the usable cache, or else the body of an answer with status 200 that can
      be compressed. */
  lemma FetchOutcome(c: Cache, url: string, d: int, valid: bool, now: int, stored: int, r: Response, codec: Codec)
    ensures var fetched := Fetch(c, url, d, valid, now, stored, r, codec);
            var alive := c.url == url && (d <= 0 || now < c.timestamp + d);
            var hit := alive && codec.unzip(c.content).Some? && codec.unzip(c.content).value != "";
            var usable := r.Response? && r.status == 200 && r.body.Some? && codec.zip(r.body.value).Some?;
            && (fetched.result.Ok? <==> valid && (hit || usable))
            && (fetched.requested <==> valid && !hit)
            && (valid && hit ==> fetched.result == Ok(codec.unzip(c.content).value) && fetched.cache == c)
            && (valid && !hit && usable ==>
                  fetched.result == Ok(r.body.value)
                  && fetched.cache == Cache(codec.zip(r.body.value).value, stored, url))
            && (fetched.result.Err? ==> fetched.cache == c)
  {
  }

  class GrafanaDashboard {
    var url: string
    var contentCacheDuration: int
    var contentCache: string
    var contentTimestamp: int
    var contentUrl: string

    constructor (url: string, duration: int)
      ensures this.url == url && contentCacheDuration == duration && TheCache() == EMPTY_CACHE
    {
      this.url, contentCacheDuration := url, duration;
      contentCache, contentTimestamp, contentUrl := "", 0, "";
    }

    function TheCache(): Cache
      reads this
    {
      Cache(contentCache, contentTimestamp, contentUrl)
    }

    method GetContentCache(now: int, codec: Codec) returns (content: string)
      ensures content == Cached(TheCache(), url, contentCacheDuration, now, codec)
    {
      if contentUrl != url {
        return "";
      }
      var notExpired := contentCacheDuration <= 0 || contentTimestamp + contentCacheDuration > now;
      if !notExpired {
        return "";
      }
      var cache := codec.unzip(contentCache);
      return if cache.None? then "" else cache.value;
    }

    method FetchDashboardFromUrl(valid: bool, now: int, stored: int, r: Response, codec: Codec)
      returns (result: Result<string>, requested: bool)
      modifies this
      ensures url == old(url) && contentCacheDuration == old(contentCacheDuration)
      ensures Fetched(result, TheCache(), requested)
           == Fetch(old(TheCache()), url, contentCacheDuration, valid, now, stored, r, codec)
    {
      if !valid {
        return Err("invalid url"), false;
      }
      var cache := GetContentCache(now, codec);
      if |cache| > 0 {
        return Ok(cache), false;
      }
      if r.NoResponse? || r.status != STATUS_OK || r.body.None? {
        return Err("no content"), true;
      }
      var content := r.body.value;
      var gz := codec.zip(content);
      if gz.None? {
        return Err("failed to gzip"), true;
      }
      contentCache := gz.value;
      contentTimestamp := stored;
      contentUrl := url;
      return Ok(content), true;
    }
  }

  // Runs

  /** `saved` is the cache in the API server; each reconcile starts from it, and may or may not
      get to save its own. */
  datatype State = State(url: string, duration: int, cache: Cache, saved: Cache)

  datatype Event =
    | FetchNow(valid: bool, now: int, stored: int, response: Response)
    | EditUrl(url: string)
    | EditDuration(duration: int)
    | Save
    | Reload

  function Step(s: State, e: Event, codec: Codec): State {
    match e
    case FetchNow(valid, now, stored, r) =>
      s.(cache := Fetch(s.cache, s.url, s.duration, valid, now, stored, r, codec).cache)
    case EditUrl(url) => s.(url := url)
    case EditDuration(duration) => s.(duration := duration)
    case Save => s.(saved := s.cache)
    case Reload => s.(cache := s.saved)
  }

  function After(events: seq<Event>, start: State, codec: Codec): State {
    if events == [] then start
    else Step(After(events[..|events| - 1], start, codec), events[|events| - 1], codec)
  }

  /** Event k is a fetch that asks the origin. */
  predicate Requests(events: seq<Event>, start: State, codec: Codec, k: nat)
    requires k < |events|
  {
    var s, e := After(events[..k], start, codec), events[k];
    e.FetchNow? && Fetch(s.cache, s.url, s.duration, e.valid, e.now, e.stored, e.response, codec).requested
  }

  /** Event m asked the origin at `url` and recorded its answer at time t. */
  predicate ServedAt(events: seq<Event>, start: State, codec: Codec, m: nat, url: string, t: int, content: string)
    requires m < |events|
  {
    var s := After(events[..m], start, codec);
    && Requests(events, start, codec, m) && events[m].stored == t && s.url == url
    && Delivered(events[m].response) == Some(content)
  }

  /** The cache is the initial one or holds what some event was served, whole. */
  ghost predicate FromOrigin(events: seq<Event>, start: State, codec: Codec, c: Cache) {
    c == EMPTY_CACHE ||
    exists m, content :: 0 <= m < |events| && ServedAt(events, start, codec, m, c.url, c.timestamp, content)
                         && codec.zip(content) == Some(c.content)
  }

  lemma StillFromOrigin(events: seq<Event>, start: State, codec: Codec, c: Cache)
    requires events != [] && FromOrigin(events[..|events| - 1], start, codec, c)
    ensures FromOrigin(events, start, codec, c)
  {
    var before := events[..|events| - 1];
    if c != EMPTY_CACHE {
      var m, content :| 0 <= m < |before| && ServedAt(before, start, codec, m, c.url, c.timestamp, content)
        && codec.zip(content) == Some(c.content);
      assert before[..m] == events[..m] && before[m] == events[m];
      assert ServedAt(events, start, codec, m, c.url, c.timestamp, content);
    }
  }

  predicate Starts(start: State) {
    start.cache == EMPTY_CACHE && start.saved == EMPTY_CACHE
  }

  /** MAIN: over every run the three fields change together: they are always those of one answer
      of the origin, with its URL and time. */
  lemma {:induction false} CacheIsFromOrigin(events: seq<Event>, start: State, codec: Codec)
    requires Starts(start)
    ensures FromOrigin(events, start, codec, After(events, start, codec).cache)
    ensures FromOrigin(events, start, codec, After(events, start, codec).saved)
  {
    if events != [] {
      var n := |events| - 1;
      var before := After(events[..n], start, codec);
      CacheIsFromOrigin(events[..n], start, codec);
      StillFromOrigin(events, start, codec, before.cache);
      StillFromOrigin(events, start, codec, before.saved);
      var e := events[n];
      if e.FetchNow? {
        var c := Fetch(before.cache, before.url, before.duration, e.valid, e.now, e.stored, e.response, codec).cache;
        if c != before.cache {
          assert ServedAt(events, start, codec, n, c.url, c.timestamp, Delivered(e.response).value);
        }
      }
    }
  }

  /** MAIN: whatever edits, failures, saves and restarts went before, a fetch that succeeds
      returns what the current URL serves now, or served at a recorded time that the current
      cache duration has not outlived. */
  lemma FetchAgreesWithOrigin(events: seq<Event>, start: State, codec: Codec, n: nat)
    requires Starts(start) && Inverts(codec) && n < |events| && events[n].FetchNow?
    ensures var s := After(events[..n], start, codec);
            var e := events[n];
            var r := Fetch(s.cache, s.url, s.duration, e.valid, e.now, e.stored, e.response, codec);
            r.result.Ok? ==>
              if r.requested then Delivered(e.response) == Some(r.result.value)
              else exists m, t :: 0 <= m < n && ServedAt(events, start, codec, m, s.url, t, r.result.value)
                                  && (s.duration <= 0 || e.now < t + s.duration)
  {
    var s := After(events[..n], start, codec);
    var e := events[n];
    var r := Fetch(s.cache, s.url, s.duration, e.valid, e.now, e.stored, e.response, codec);
    CacheIsFromOrigin(events[..n], start, codec);
    if r.result.Ok? && !r.requested {
      var m, content :| 0 <= m < n && ServedAt(events[..n], start, codec, m, s.cache.url, s.cache.timestamp, content)
        && codec.zip(content) == Some(s.cache.content);
      assert events[..n][..m] == events[..m];
      assert content == r.result.value;
      assert ServedAt(events, start, codec, m, s.url, s.cache.timestamp, content);
    }
  }

  /** Event k stores content under a URL. */
  predicate Stores(events: seq<Event>, start: State, codec: Codec, k: nat, url: string, t: int, content: string)
    requires k < |events|
  {
    ServedAt(events, start, codec, k, url, t, content) && codec.zip(content).Some?
  }

  /** Between the events i and n the URL stays, nothing is reloaded, and no fetch asks the origin. */
  predicate QuietBetween(events: seq<Event>, start: State, codec: Codec, i: nat, n: nat)
    requires i < n <= |events|
  {
    forall k: nat | i < k < n ::
      !events[k].EditUrl? && !events[k].Reload? && !Requests(events, start, codec, k)
  }

  lemma {:induction false} CacheStays(events: seq<Event>, start: State, codec: Codec, i: nat, n: nat)
    requires i < n <= |events| && QuietBetween(events, start, codec, i, n)
    ensures After(events[..n], start, codec).cache == After(events[..i + 1], start, codec).cache
    ensures After(events[..n], start, codec).url == After(events[..i + 1], start, codec).url
    decreases n
  {
    if i + 1 < n {
      CacheStays(events, start, codec, i, n - 1);
      assert events[..n][..n - 1] == events[..n - 1];
      assert !events[n - 1].EditUrl? && !events[n - 1].Reload? && !Requests(events, start, codec, n - 1);
    }
  }

  lemma StoredCache(events: seq<Event>, start: State, codec: Codec, i: nat, url: string, t: int, content: string)
    requires i < |events| && Stores(events, start, codec, i, url, t, content)
    ensures After(events[..i + 1], start, codec).cache == Cache(codec.zip(content).value, t, url)
    ensures After(events[..i + 1], start, codec).url == url
  {
    assert events[..i + 1][..i] == events[..i];
  }

  /** MAIN: and the cache is effective, over every run. Once nonempty content is stored, the next
      fetch that asks the origin for the same URL is the first one after the duration then in force
      has run out; all fetches before it return the content, whatever the durations in between. */
  lemma RequestsAgainIffExpired(events: seq<Event>, start: State, codec: Codec, i: nat, n: nat,
                                url: string, t: int, content: string)
    requires Inverts(codec) && i < n < |events| && events[n].FetchNow? && events[n].valid && content != ""
    requires Stores(events, start, codec, i, url, t, content) && QuietBetween(events, start, codec, i, n)
    ensures var s, e := After(events[..n], start, codec), events[n];
            var r := Fetch(s.cache, s.url, s.duration, e.valid, e.now, e.stored, e.response, codec);
            && (Requests(events, start, codec, n) <==> 0 < s.duration && t + s.duration <= e.now)
            && (!Requests(events, start, codec, n) ==> r.result == Ok(content))
  {
    CacheStays(events, start, codec, i, n);
    StoredCache(events, start, codec, i, url, t, content);
  }
}
