/**
 * `DataFetcher.fetch_data` (trendradar/crawler/fetcher.py): obtain the raw
 * text for one source, from its local adapter when one is registered and
 * returns something truthy, otherwise from the shared news API with a bounded
 * number of retries and a linearly growing, jittered backoff.
 *
 * The network is an oracle: `network(k)` is what the `k`-th API request
 * (counting from 0) produced. The random draws of the backoff are oracles too,
 * constrained to the ranges `random.uniform` draws from. Sleeps are returned
 * as the list of their durations, in seconds.
 */
module Fetcher {
  import opened Optional
  import opened Json
  import opened LocalAdapters

  /** `id_info`: a bare source id, or an `(id, alias)` pair. */
  datatype SourceRequest = Bare(id: string) | Aliased(id: string, alias: string)

  /** The alias `id_info` unpacks to: the id itself for a bare id. */
  function AliasOf(req: SourceRequest): string
  {
    match req
    case Bare(id) => id
    case Aliased(_, alias) => alias
  }

  /** One `requests.get` call: it raised (connection error, timeout), or it answered. */
  datatype Response = Raised | Reply(statusCode: int, body: Text)

  /** `raise_for_status()` raises for client and server error codes. */
  predicate RaisesForStatus(code: int)
  {
    400 <= code < 600
  }

  /** The status value `data_json.get("status", "未知")` reads when the key is missing. */
  const UnknownStatus: string := "\U{672a}\U{77e5}"

  predicate StatusAccepted(status: Json)
  {
    status == JString("success") || status == JString("cache")
  }

  /**
   * A body the retry loop returns: it decodes, it is a dict (otherwise `.get`
   * raises), and its `status` is "success" or "cache".
   */
  predicate AcceptableBody(t: Text)
  {
    match Loads(t)
    case Some(JObject(fields)) => StatusAccepted(GetOr(fields, "status", JString(UnknownStatus)))
    case _ => false
  }

  /** An API attempt that ends in `return data_text, id_value, alias`. */
  predicate Accepted(r: Response)
  {
    r.Reply? && !RaisesForStatus(r.statusCode) && AcceptableBody(r.body)
  }

  /** How many requests `while retries <= max_retries` allows: `max_retries + 1`, or none at all. */
  function Budget(maxRetries: int): nat
  {
    if maxRetries < 0 then 0 else maxRetries + 1
  }

  /** The first attempt in `[from, n)` whose response is accepted, if any is. */
  function FirstAccepted(network: nat -> Response, from: nat, n: nat): (r: Option<nat>)
    ensures r.Some? ==> from <= r.value < n && Accepted(network(r.value))
    ensures r.Some? ==> forall k :: from <= k < r.value ==> !Accepted(network(k))
    ensures r.None? <==> forall k :: from <= k < n ==> !Accepted(network(k))
    decreases n - from
  {
    if from >= n then None
    else if Accepted(network(from)) then Some(from)
    else FirstAccepted(network, from + 1, n)
  }

  /** The registered adapter for `id` returns truthy text, so the API is not consulted. */
  predicate AdapterAnswers(id: string, page: Option<seq<Node>>)
  {
    id in AdapterMap && AdapterResult(AdapterMap[id], page).Some? && TextTruthy(AdapterResult(AdapterMap[id], page).value)
  }

  /** The text `fetch_data` returns. */
  function Fetched(id: string, page: Option<seq<Node>>, network: nat -> Response, maxRetries: int): Option<Text>
  {
    if AdapterAnswers(id, page) then AdapterResult(AdapterMap[id], page) else ApiText(network, maxRetries)
  }

  function Min(a: int, b: int): int { if a <= b then a else b }
  function Max(a: int, b: int): int { if a <= b then b else a }

  /** `random.uniform(a, b)` returns a value between `a` and `b`, in either order. */
  predicate Uniform(x: real, a: int, b: int)
  {
    Min(a, b) as real <= x <= Max(a, b) as real
  }

  /** The draws the retry loop makes before retry `r >= 1`: `uniform(min, max)` and `uniform(1, 2)`. */
  ghost predicate DrawsInRange(minWait: int, maxWait: int, baseDraw: nat -> real, extraDraw: nat -> real)
  {
    && (forall r: nat :: 1 <= r ==> Uniform(baseDraw(r), minWait, maxWait))
    && (forall r: nat :: 1 <= r ==> Uniform(extraDraw(r), 1, 2))
  }

  /** The wait before retry `r`: `base_wait + (r - 1) * uniform(1, 2)`. */
  function Backoff(r: nat, baseDraw: nat -> real, extraDraw: nat -> real): real
  {
    baseDraw(r) + (r - 1) as real * extraDraw(r)
  }

  /**
   * The wait before retry `r` lies in `[lo + (r - 1), hi + 2 * (r - 1)]`,
   * where `lo` and `hi` are the smaller and larger of the two wait settings.
   */
  lemma BackoffBounds(r: nat, minWait: int, maxWait: int, baseDraw: nat -> real, extraDraw: nat -> real)
    requires 1 <= r && DrawsInRange(minWait, maxWait, baseDraw, extraDraw)
    ensures (Min(minWait, maxWait) + (r - 1)) as real <= Backoff(r, baseDraw, extraDraw)
    ensures Backoff(r, baseDraw, extraDraw) <= (Max(minWait, maxWait) + 2 * (r - 1)) as real
  {
    var k := (r - 1) as real;
    var e := extraDraw(r);
    assert Uniform(baseDraw(r), minWait, maxWait) && Uniform(e, 1, 2);
    assert k * 1.0 <= k * e <= k * 2.0 by {
      assert 0.0 <= k;
      assert k * e - k * 1.0 == k * (e - 1.0);
      assert k * 2.0 - k * e == k * (2.0 - e);
    }
  }

  /** A wait slept before retry `k + 1` lies within the backoff bounds. */
  predicate WaitInBounds(w: real, k: nat, minWait: int, maxWait: int)
  {
    (Min(minWait, maxWait) + k) as real <= w <= (Max(minWait, maxWait) + 2 * k) as real
  }

  /** The text the shared-API path returns: the body of the first accepted attempt the budget allows. */
  function ApiText(network: nat -> Response, maxRetries: int): Option<Text>
  {
    match FirstAccepted(network, 0, Budget(maxRetries))
    case Some(j) => Some(network(j).body)
    case None => None
  }

  /**
   * The shared-API half of `fetch_data`: the `while retries <= max_retries`
   * loop. It stops at the first accepted attempt and sleeps once after every
   * failed attempt except the last one allowed.
   */
  method RequestWithRetries(maxRetries: int, minWait: int, maxWait: int, network: nat -> Response,
                            baseDraw: nat -> real, extraDraw: nat -> real)
    returns (text: Option<Text>, attempts: nat, waits: seq<real>)
    requires DrawsInRange(minWait, maxWait, baseDraw, extraDraw)
    ensures text == ApiText(network, maxRetries)
    ensures text.Some? ==> AcceptableBody(text.value)
    ensures match FirstAccepted(network, 0, Budget(maxRetries))
            case Some(j) => attempts == j + 1 && |waits| == j
            case None => attempts == Budget(maxRetries) && |waits| == Max(0, maxRetries)
    ensures forall k :: 0 <= k < |waits| ==> waits[k] == Backoff(k + 1, baseDraw, extraDraw)
    ensures forall k :: 0 <= k < |waits| ==> WaitInBounds(waits[k], k, minWait, maxWait)
  {
    attempts, waits := 0, [];
    var retries := 0;
    while retries <= maxRetries
      invariant 0 <= retries <= Budget(maxRetries)
      invariant 0 <= maxRetries ==> retries <= maxRetries
      invariant attempts == retries && |waits| == retries
      invariant FirstAccepted(network, 0, Budget(maxRetries)) == FirstAccepted(network, retries, Budget(maxRetries))
      invariant forall k :: 0 <= k < |waits| ==> waits[k] == Backoff(k + 1, baseDraw, extraDraw)
      decreases maxRetries - retries
    {
      var response := network(retries);
      attempts := attempts + 1;
      if Accepted(response) {
        WaitsInBounds(waits, minWait, maxWait, baseDraw, extraDraw);
        return Some(response.body), attempts, waits;
      }
      retries := retries + 1;
      if retries <= maxRetries {
        waits := waits + [Backoff(retries, baseDraw, extraDraw)];
      } else {
        WaitsInBounds(waits, minWait, maxWait, baseDraw, extraDraw);
        return None, attempts, waits;
      }
    }
    text := None;
    WaitsInBounds(waits, minWait, maxWait, baseDraw, extraDraw);
  }

  /** Every wait of the retry loop lies within the backoff bounds of its retry. */
  lemma WaitsInBounds(waits: seq<real>, minWait: int, maxWait: int, baseDraw: nat -> real, extraDraw: nat -> real)
    requires DrawsInRange(minWait, maxWait, baseDraw, extraDraw)
    requires forall k :: 0 <= k < |waits| ==> waits[k] == Backoff(k + 1, baseDraw, extraDraw)
    ensures forall k :: 0 <= k < |waits| ==> WaitInBounds(waits[k], k, minWait, maxWait)
  {
    forall k | 0 <= k < |waits| ensures WaitInBounds(waits[k], k, minWait, maxWait) {
      BackoffBounds(k + 1, minWait, maxWait, baseDraw, extraDraw);
    }
  }

  /**
   * `fetch_data(id_info, max_retries, min_retry_wait, max_retry_wait)`.
   *
   * Returns the text, the id and the alias, and also the number of API
   * requests made and the waits slept between them.
   */
  method FetchData(req: SourceRequest, maxRetries: int, minWait: int, maxWait: int,
                   page: Option<seq<Node>>, network: nat -> Response,
                   baseDraw: nat -> real, extraDraw: nat -> real)
    returns (text: Option<Text>, id: string, alias: string, attempts: nat, waits: seq<real>)
    requires DrawsInRange(minWait, maxWait, baseDraw, extraDraw)
    ensures id == req.id && alias == AliasOf(req)
    ensures text == Fetched(req.id, page, network, maxRetries)
    ensures AdapterAnswers(req.id, page) ==> attempts == 0 && waits == []
    ensures !AdapterAnswers(req.id, page) ==>
              match FirstAccepted(network, 0, Budget(maxRetries))
              case Some(j) => attempts == j + 1 && |waits| == j
              case None => attempts == Budget(maxRetries) && |waits| == Max(0, maxRetries)
    ensures forall k :: 0 <= k < |waits| ==> waits[k] == Backoff(k + 1, baseDraw, extraDraw)
    ensures forall k :: 0 <= k < |waits| ==> WaitInBounds(waits[k], k, minWait, maxWait)
  {
    id, alias := req.id, AliasOf(req);
    if id in AdapterMap {
      var adapterText: Option<Text>;
      match AdapterMap[id] {
        case Szvc => adapterText := GetSzvc(page);
        case Szse => adapterText := Some(GetSzse());
      }
      if adapterText.Some? && TextTruthy(adapterText.value) {
        return adapterText, id, alias, 0, [];
      }
    }
    text, attempts, waits := RequestWithRetries(maxRetries, minWait, maxWait, network, baseDraw, extraDraw);
  }

  /** `ADAPTER_MAP` registers exactly "szvc" and "szse". */
  lemma AdapterMapKeys()
    ensures AdapterMap.Keys == {"szvc", "szse"}
    ensures AdapterMap["szvc"] == Szvc && AdapterMap["szse"] == Szse
  {
  }

  /** The adapter envelope passes the same test the API path applies to a reply body. */
  lemma EnvelopeAcceptable(items: seq<Json>)
    ensures TextTruthy(ToNewsnowFormat(items)) && AcceptableBody(ToNewsnowFormat(items))
  {
  }

  /**
   * An adapter's result is falsy only when it is `None`, and only `get_szvc`
   * can return `None`, from its `except` branch.
   */
  lemma AdapterFalsyOnlyWhenNone(a: Adapter, page: Option<seq<Node>>)
    ensures var r := AdapterResult(a, page);
      (r.None? || !TextTruthy(r.value)) <==> (a == Szvc && SzvcResult(page).None?)
  {
  }

  /** The API path returns nothing exactly when every attempt the budget allows fails. */
  lemma ApiTextNone(network: nat -> Response, maxRetries: int)
    ensures ApiText(network, maxRetries).None? <==> forall k :: 0 <= k < Budget(maxRetries) ==> !Accepted(network(k))
  {
  }

  /** Every text `fetch_data` returns is truthy, decodes, is a dict and has status "success" or "cache". */
  lemma FetchedAcceptable(id: string, page: Option<seq<Node>>, network: nat -> Response, maxRetries: int)
    ensures var t := Fetched(id, page, network, maxRetries);
      t.Some? ==> TextTruthy(t.value) && AcceptableBody(t.value)
  {
    if AdapterAnswers(id, page) {
      match AdapterMap[id]
      case Szvc =>
        var items := SzvcItems(page.value).value;
        EnvelopeAcceptable(items);
      case Szse =>
        EnvelopeAcceptable([]);
    }
  }

  /** "szse" is always served by its adapter: no API request is made for it. */
  lemma SzseNeverFallsBack(page: Option<seq<Node>>, network: nat -> Response, maxRetries: int)
    ensures AdapterAnswers("szse", page)
    ensures Fetched("szse", page, network, maxRetries) == Some(GetSzse())
  {
  }

  /**
   * "szvc" falls back to the API exactly when its page could not be read or
   * an anchor lacks an `href`; otherwise its envelope is returned, even with
   * no items in it.
   */
  lemma SzvcFallback(page: Option<seq<Node>>, network: nat -> Response, maxRetries: int)
    ensures !AdapterAnswers("szvc", page) <==> page.None? || exists i :: 0 <= i < |page.value| && HrefMissing(page.value[i])
    ensures !AdapterAnswers("szvc", page) ==> Fetched("szvc", page, network, maxRetries) == ApiText(network, maxRetries)
    ensures AdapterAnswers("szvc", page) ==> Fetched("szvc", page, network, maxRetries) == SzvcResult(page)
  {
    if page.Some? {
      SzvcItemsFail(page.value);
    }
  }

  /** An id outside the registry goes straight to the API. */
  lemma UnregisteredUsesApi(id: string, page: Option<seq<Node>>, network: nat -> Response, maxRetries: int)
    requires id != "szvc" && id != "szse"
    ensures Fetched(id, page, network, maxRetries) == ApiText(network, maxRetries)
  {
  }
}
