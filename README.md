# TrendRadar crawler, modelled in Dafny

This project models the crawling core of TrendRadar: `DataFetcher.fetch_data` and
`DataFetcher.crawl_websites` in `trendradar/crawler/fetcher.py`, and the local site
adapters in `trendradar/crawler/local_adapters.py`.

- **Sources.** A source is named by a bare id or by an `(id, alias)` pair (`Fetcher.SourceRequest`).
- **Fetching.** `fetch_data` first tries the adapter registered for the id in
  `ADAPTER_MAP`. When that adapter returns truthy text, the text is used and no
  API request is made. Otherwise `fetch_data` asks the shared news API up to
  `max_retries + 1` times. It sleeps a jittered, linearly growing backoff after
  every failed attempt except the last. An attempt succeeds only when:
  - the request does not raise;
  - the status code is not 4xx or 5xx;
  - the body decodes to a dict whose `status` is `"success"` or `"cache"`.
- **Crawling.** `crawl_websites` fetches every source in order and records each
  source's display name. It turns each decoded payload's `items` into a dict of
  entries keyed `"{rank:03d}_{title}"`, collects the ids that failed, and pauses
  `max(50, interval + jitter)` ms between sources (never after the last one).

Modules, one per concern:

| module | file | models |
|---|---|---|
| `Optional` | optional.dfy | `Option` |
| `Json` | json.dfy | decoded JSON values, response texts (`Wellformed(v)` / `Malformed(raw)`), `json.loads`/`json.dumps`, Python truthiness |
| `PyStr` | pystr.dfy | `str.strip()`, `str()` of integers and titles, `"{:03d}"` |
| `LocalAdapters` | local_adapters.dfy | `_to_newsnow_format`, `get_szvc`, `get_szse`, `ADAPTER_MAP` |
| `Fetcher` | fetcher.dfy | `fetch_data`: id/alias, adapter dispatch and fallback, retry loop, backoff |
| `Normalize` | normalize.dfy | the item loop of `crawl_websites` and the entries it stores |
| `Crawler` | crawler.dfy | `crawl_websites`: names, results, failed ids, pacing |

**What the program does not control is a parameter.** The model treats it as follows:

- The `k`-th API request is an oracle `network(k)`. It is either `Raised` or a `Reply(statusCode, body)`.
- The page `get_szvc` scrapes is given as the list of selected nodes, or as `None` when fetching or parsing raised.
- The random draws are functions constrained to the ranges `random.uniform` and `random.randint` draw from.
- Sleeps are returned as lists of durations.

**Imperative code stays imperative.** These are methods with loops, each proved equal to a specification function:

- `get_szvc`'s node loop (`LocalAdapters.GetSzvc`, against `SzvcResult`);
- the retry loop (`Fetcher.RequestWithRetries`, against `ApiText` and `FirstAccepted`);
- the item loop (`Normalize.NormalizeItems`, against `Normalized`);
- the source loop (`Crawler.CrawlWebsites`, against `Fold` over `Outcomes`).

The lemmas state what the source promises about those functions.

Behaviour worth knowing:
- **Keying.** Only the unique-key policy exists (fetcher.py:175-181). Equal titles at different ranks are never merged into one entry with several ranks.
- **Results and failures can overlap.** `results[id] = {}` runs before the items are processed (fetcher.py:159), so a processing error leaves the id in both `results` and `failed_ids` (`Crawler.ResultsAndFailuresOverlap`).
- **`get_szvc` on an exception.** Any exception makes `get_szvc` return `None`, not an empty success payload (local_adapters.py:41-42). That falsy result is what sends `fetch_data` to the API.
- **Paging.** `get_szvc` reads one page; there is no pagination.

## Model

| member | source | states |
|---|---|---|
| Json.Dumps | trendradar/crawler/local_adapters.py:16-19 | decoding the text `json.dumps` produces gives back the same value |
| PyStr.Strip | trendradar/crawler/fetcher.py:165-168 | `str.strip()`: the result is a contiguous slice of the input with only whitespace (Python's `isspace` set) cut off on each side; a non-empty result neither starts nor ends with whitespace; it is empty exactly when the input is all whitespace |
| PyStr.StripIdempotent | trendradar/crawler/fetcher.py:165-168 | stripping a stripped title changes nothing |
| PyStr.Pad3 | trendradar/crawler/fetcher.py:177 | `{index:03d}` is decimal digits denoting `index`: exactly three, zero-padded, below 1000, and from 1000 on the plain decimal of `index`, whose first digit is never `0` |
| PyStr.Str | trendradar/crawler/fetcher.py:165-168 | `str(title)` of a string is that string; of any other title that is neither `None` nor a float it is non-empty and starts with a non-space, so such a title is never blank |
| LocalAdapters.ToNewsnowFormat | trendradar/crawler/local_adapters.py:14-19 | the envelope is truthy text that decodes to a dict whose `status` is `"success"` and whose `items` are the given items, unchanged and in order |
| LocalAdapters.GetSzvc | trendradar/crawler/local_adapters.py:21-42 | returns the envelope of the node loop's items, and `None` exactly when the page could not be read or some anchored node has no `href` |
| LocalAdapters.SzvcFailureSticks | trendradar/crawler/local_adapters.py:32-42 | once the node loop has raised, the whole call ends in `None` whatever nodes follow |
| LocalAdapters.SzvcItemsFail | trendradar/crawler/local_adapters.py:29-42 | the node loop fails exactly when some node has a `.title a` anchor without an `href` |
| LocalAdapters.SzvcItemsPlacement | trendradar/crawler/local_adapters.py:31-39 | on success, exactly one item per anchored node, in node order (the anchored node at `i` gives the item after all anchored nodes before it), so at most as many items as nodes; each item has the anchor's text as title and the site origin plus `href` as both `url` and `mobileUrl` |
| LocalAdapters.GetSzse | trendradar/crawler/local_adapters.py:44-47 | always truthy text decoding to the success envelope with no items |
| Fetcher.FirstAccepted | trendradar/crawler/fetcher.py:91-111 | the attempt the loop returns from is accepted and no earlier attempt is; there is none exactly when every attempt in the budget fails |
| Fetcher.BackoffBounds | trendradar/crawler/fetcher.py:115-118 | the wait before retry `r` lies in `[min_wait + (r-1), max_wait + 2(r-1)]` |
| Fetcher.RequestWithRetries | trendradar/crawler/fetcher.py:91-125 | returns the body of the first accepted attempt, after `j + 1` requests and `j` sleeps; with no accepted attempt it returns `None` after `max_retries + 1` requests and `max_retries` sleeps (none after the last failure); every sleep is the backoff for its retry and lies in its bounds |
| Fetcher.WaitsInBounds | trendradar/crawler/fetcher.py:115-118 | every wait the retry loop sleeps lies within the bounds of its retry |
| Fetcher.FetchData | trendradar/crawler/fetcher.py:50-125 | a bare id gets itself as alias and a pair is unpacked as given; the returned text is the adapter's when it answers, with no request made, and otherwise the API path's, with the request and sleep counts of the retry loop |
| Fetcher.AdapterMapKeys | trendradar/crawler/local_adapters.py:50-53 | the registry holds exactly `"szvc"` and `"szse"`, mapped to their adapters |
| Fetcher.EnvelopeAcceptable | trendradar/crawler/local_adapters.py:14-19 | an adapter envelope is truthy and would pass the API path's status test |
| Fetcher.AdapterFalsyOnlyWhenNone | trendradar/crawler/local_adapters.py:21-47 | an adapter result is falsy exactly when it is `get_szvc`'s `None` |
| Fetcher.ApiTextNone | trendradar/crawler/fetcher.py:91-125 | the API path yields no text exactly when every allowed attempt fails |
| Fetcher.FetchedAcceptable | trendradar/crawler/fetcher.py:74-111 | every text `fetch_data` returns is truthy, decodes to a dict and has status `"success"` or `"cache"` |
| Fetcher.SzseNeverFallsBack | trendradar/crawler/fetcher.py:74-82 | `"szse"` is always answered by its adapter, so no API request is made for it |
| Fetcher.SzvcFallback | trendradar/crawler/fetcher.py:74-85 | `"szvc"` falls back to the API exactly when its page is unreadable or an anchor lacks `href`; then the API's text is returned, otherwise the adapter's envelope, even with no items |
| Fetcher.UnregisteredUsesApi | trendradar/crawler/fetcher.py:74-85 | an id outside the registry goes straight to the API path |
| Normalize.KeyRoundTrip | trendradar/crawler/fetcher.py:177 | the rank and the title can be read back from the key built from them |
| Normalize.ItemKeyInjective | trendradar/crawler/fetcher.py:175-177 | two keys are equal only when built from the same rank and title |
| Normalize.ItemKeyDistinct | trendradar/crawler/fetcher.py:175-177 | items at different ranks never share a key, whatever their titles |
| Normalize.ItemStepShape | trendradar/crawler/fetcher.py:162-185 | the loop body raises exactly on a non-dict item and skips exactly a dict whose title is `None`, a float or blank; a kept item's key is built from its rank and its stripped title, its rank list is `[rank]`, and its title is non-empty and trimmed |
| Normalize.RaisedSticks | trendradar/crawler/fetcher.py:162-191 | once an item has raised, later items change nothing |
| Normalize.CollectRaised | trendradar/crawler/fetcher.py:162-191 | the loop raised exactly when some step raises |
| Normalize.CollectSound | trendradar/crawler/fetcher.py:175-185 | every stored entry is the one produced by the item at the rank its key names |
| Normalize.CollectKeeps | trendradar/crawler/fetcher.py:175-185 | every item kept before the first raise is stored under its own key |
| Normalize.CollectCount | trendradar/crawler/fetcher.py:175-185 | keys never collide, so there is exactly one entry per kept item |
| Normalize.StepsRankKeyed | trendradar/crawler/fetcher.py:162-177 | each kept item's key carries its own 1-based position |
| Normalize.NormalizedRaised | trendradar/crawler/fetcher.py:162-191 | the item loop raised exactly when some item is not a dict |
| Normalize.NormalizedSound | trendradar/crawler/fetcher.py:162-185 | every stored entry is what the item at its key's rank yields |
| Normalize.NormalizedComplete | trendradar/crawler/fetcher.py:162-185 | every item kept before the loop raised is stored under its own key with its own entry |
| Normalize.NormalizedCount | trendradar/crawler/fetcher.py:162-185 | there are exactly as many entries as items kept before the loop raised |
| Normalize.NormalizeItems | trendradar/crawler/fetcher.py:162-185 | the loop over `items` stores exactly the entries and raise flag of `Normalized`, stopping at the first non-dict item with the entries stored before it kept |
| Normalize.ParsePayload | trendradar/crawler/fetcher.py:159-185 | the statements after `json.loads` store exactly the entries and raise flag of `PayloadBatch`, whose meaning `Normalize.PayloadRaised` states |
| Normalize.PayloadRaised | trendradar/crawler/fetcher.py:159-185 | processing a decoded payload raises exactly when it is not a dict, when its `items` (default `[]`) is neither a list nor an empty string or dict, or when `items` is a list holding a non-dict; entries are stored only when `items` is a list, and then they are the item loop's |
| Normalize.SkippedItemDropped | trendradar/crawler/fetcher.py:165-166 | an item whose title is `None`, a float or blank leaves no entry carrying its rank |
| Normalize.DuplicateTitlesKeptApart | trendradar/crawler/fetcher.py:175-185 | two kept items never share an entry, even with equal titles: each is stored under its own key with its own single-rank list |
| Normalize.KeptEntryFields | trendradar/crawler/fetcher.py:169-173 | `url` and `mobileUrl` are the item's own values when present and `""` when missing; the date is `date` when truthy, else `release_time` when truthy, else `""` |
| LocalAdapters.AnchorTextTrimmed | trendradar/crawler/local_adapters.py:36 | `get_text(strip=True)` never starts or ends with whitespace |
| Normalize.LinkItemStep | trendradar/crawler/fetcher.py:162-185 | an item with a trimmed title and one link is skipped exactly when the title is empty, and is otherwise stored with that title, that link as `url` and `mobileUrl`, and an empty date |
| Normalize.SzvcItemNormalizes | trendradar/crawler/local_adapters.py:35-38 | a szvc item is kept by the crawler exactly when its anchor text is non-empty; it is stored with that text as title, the absolute link as `url` and `mobileUrl`, and an empty date |
| Crawler.HandleSource | trendradar/crawler/fetcher.py:147-193 | one iteration: records the alias, then stores the processed payload or appends the id to `failed_ids` by the response's outcome |
| Crawler.CrawlWebsites | trendradar/crawler/fetcher.py:127-202 | the three results are the fold of every source's outcome, each source fetched with two retries; one pause between consecutive sources and none after the last; the pause after source `k` is `max(50, interval + jitter(k))` ms |
| Crawler.PauseBounds | trendradar/crawler/fetcher.py:196-199 | with the jitter drawn from `[-10, 20]`, every such pause is at least 50 ms and lies between `interval - 10` and `max(50, interval + 20)` |
| Crawler.NamesRecorded | trendradar/crawler/fetcher.py:146-153 | every requested id gets a name whatever its outcome, and no other id does |
| Crawler.LastAliasWins | trendradar/crawler/fetcher.py:146-153 | with duplicate ids, the alias of the last occurrence is the one recorded |
| Crawler.ResultsRecorded | trendradar/crawler/fetcher.py:156-185 | an id has a `results` entry exactly when one of its responses decoded |
| Crawler.LastResultWins | trendradar/crawler/fetcher.py:156-185 | with duplicate ids, the `results` entry holds what the last occurrence whose response decoded stored |
| Crawler.FailuresRecorded | trendradar/crawler/fetcher.py:156-193 | an id is in `failed_ids` exactly when one of its occurrences had no response, did not decode, or raised while processing |
| Crawler.FailuresPlacement | trendradar/crawler/fetcher.py:186-193 | `failed_ids` holds one entry per failing occurrence and no other, in input order, with duplicate ids repeated: the failing occurrence at `i` sits after the failing occurrences before it |
| Crawler.EveryIdHasOutcome | trendradar/crawler/fetcher.py:154-193 | every requested id ends up in `results`, in `failed_ids`, or in both |
| Crawler.SingleSourceOutcome | trendradar/crawler/fetcher.py:156-193 | for an id requested once: a decoded payload gives it a `results` entry, and it is failed exactly when there was no response, no decode, or a processing error |
| Crawler.ResultsAndFailuresOverlap | trendradar/crawler/fetcher.py:157-191 | for an id requested once, a dict payload whose `items` list holds a non-dict leaves the id in `failed_ids` and also in `results`, holding the entries the item loop stored before it raised |
| Crawler.FetchedOutcome | trendradar/crawler/fetcher.py:154-158 | through `fetch_data`, a source either has no response or one that decodes to a dict; the decode-failure branch is never reached |
| Crawler.CrawlNeverUndecodable | trendradar/crawler/fetcher.py:154-188 | no source of a crawl ends in the `JSONDecodeError` branch |
| Crawler.FoldProcessedThenSilent | trendradar/crawler/fetcher.py:146-193 | two distinct sources, the first processed without error and the second with no response: only the first has results, only the second failed, both are named |
| Crawler.TwoSourceCrawl | trendradar/crawler/fetcher.py:127-202 | crawling `"a"` (answered with two items) and `"b"` (every request times out) gives `results` with only `"a"`, holding two entries, `failed_ids == ["b"]`, and both ids named after themselves |

## Left out

- HTTP: `requests.get`, its headers, proxies and timeouts, and the URL built from `api_url` are not modelled. Each request is an oracle outcome. `raise_for_status` is modelled as raising for codes 400-599.
- HTML: `BeautifulSoup` parsing and CSS selection are not modelled. The szvc page is the list of selected nodes with their optional `.title a` anchor, and `get_text(strip=True)` is modelled as the concatenation of the stripped text fragments.
- JSON serialisation: text encoding (`ensure_ascii`, escaping) is not modelled. A text is either one that decodes to a value or one that fails to decode, and the raw characters of a well-formed text are not represented.
- `time.sleep`, `random.uniform` and `random.randint` are not called. The draws are parameters constrained to their ranges, and sleeps are returned as durations in reals, so floating-point rounding is not modelled.
- `print` diagnostics are left out: they do not affect control flow.
- `getattr` reflection is replaced by a static map from id to adapter.
- PyStr.Str: `str()` of a list or dict title is represented only by its brackets (`"[...]"`, `"{...}"`), not by Python's rendering of the container, because `repr` of arbitrary values is out of scope. Such a title is still stored, in the entry and inside its key: Python stores the title `["a"]` at rank 1 as `"['a']"` under `"001_['a']"`, the model as `"[...]"` under `"001_[...]"`. Which items are kept is the same either way, since both renderings are non-blank.
- Ids are strings in the model. Python also accepts other hashable ids, such as an int, and handles them like strings. An unhashable id raises at `id_to_name[id_value] = name` (fetcher.py:153), and a tuple of another length than two raises while unpacking (fetcher.py:148); both happen outside any `try` and abort the whole crawl. Those aborts are not modelled.
- Python dicts keep insertion order; the model's `map`s for `results`, `id_to_name` and each source's entries do not. The order in which keys were first inserted is not modelled. The order of `failed_ids`, a list, is.
- The `DataFetcher` and `LocalAdapters` constructors are not modelled. They only store the proxy URL, the API URL and the request headers.
- `crawl_websites` always calls `fetch_data` with its defaults (two retries, waits between 3 and 5 seconds), and the model fixes those values.
- Exceptions other than the ones named here are not modelled: interrupts, and errors inside the HTTP or HTML libraries beyond making `get_szvc` return `None` or an API attempt fail.
- A title-merging mode is not modelled because the code has none.
