/**
 * `DataFetcher.crawl_websites` (trendradar/crawler/fetcher.py): fetch every
 * configured source in order, record its display name, normalise its items
 * into `results[id]`, collect the ids that failed, and pause between sources.
 *
 * What each source's fetch sees (its szvc page, its API responses, its random
 * draws) and the pacing draws come from a `World`, indexed by the source's
 * position in the list.
 */
module Crawler {
  import opened Optional
  import opened Json
  import opened LocalAdapters
  import opened Fetcher
  import opened Normalize

  /** What the loop body did with one source. */
  datatype Outcome =
    | NoResponse              // falsy response: appended to `failed_ids` only
    | Undecodable             // `json.loads` raised: appended to `failed_ids` only
    | Processed(batch: Batch) // `results[id]` was set; also in `failed_ids` when processing raised

  /** Lines 156-193 for one response. */
  function Classify(response: Option<Text>): Outcome
  {
    if response.None? || !TextTruthy(response.value) then NoResponse
    else match Loads(response.value)
      case None => Undecodable
      case Some(data) => Processed(PayloadBatch(data))
  }

  /** The outcome appends the id to `failed_ids`. */
  predicate Fails(o: Outcome)
  {
    o.NoResponse? || o.Undecodable? || o.batch.raised
  }

  /** `(results, id_to_name, failed_ids)` */
  datatype CrawlResult = CrawlResult(results: map<string, map<string, Entry>>, names: map<string, string>, failed: seq<string>)

  /** The effect of one loop iteration on the three accumulators. */
  function Record(c: CrawlResult, req: SourceRequest, o: Outcome): CrawlResult
  {
    var names := c.names[req.id := AliasOf(req)];
    match o
    case Processed(b) =>
      CrawlResult(c.results[req.id := b.entries], names, if b.raised then c.failed + [req.id] else c.failed)
    case _ => CrawlResult(c.results, names, c.failed + [req.id])
  }

  /** The accumulators after the loop has handled `reqs` with the given outcomes. */
  function Fold(reqs: seq<SourceRequest>, outcomes: seq<Outcome>): CrawlResult
    requires |reqs| == |outcomes|
  {
    if reqs == [] then CrawlResult(map[], map[], [])
    else Record(Fold(reqs[..|reqs| - 1], outcomes[..|outcomes| - 1]), reqs[|reqs| - 1], outcomes[|outcomes| - 1])
  }

  /** Everything outside the program a batch depends on, per source position. */
  datatype World = World(
    pages: nat -> Option<seq<Node>>,
    network: nat -> nat -> Response,
    baseDraw: nat -> nat -> real,
    extraDraw: nat -> nat -> real,
    pace: nat -> int)

  /** The random draws lie in the ranges the source draws them from (`fetch_data`'s defaults 3 and 5; `randint(-10, 20)`). */
  ghost predicate WorldInRange(w: World)
  {
    && (forall s: nat :: DrawsInRange(3, 5, w.baseDraw(s), w.extraDraw(s)))
    && (forall s: nat :: -10 <= w.pace(s) <= 20)
  }

  /** The outcome of every source, each fetched with `fetch_data`'s default of two retries. */
  function Outcomes(reqs: seq<SourceRequest>, w: World): (r: seq<Outcome>)
    ensures |r| == |reqs|
    ensures forall i :: 0 <= i < |reqs| ==> r[i] == Classify(Fetched(reqs[i].id, w.pages(i), w.network(i), 2))
  {
    seq(|reqs|, i requires 0 <= i < |reqs| => Classify(Fetched(reqs[i].id, w.pages(i), w.network(i), 2)))
  }

  /**
   * The body of the loop for one source once its response is known
   * (lines 147-193): record the name, then classify and store the response.
   */
  method HandleSource(results: map<string, map<string, Entry>>, names: map<string, string>, failed: seq<string>,
                      req: SourceRequest, response: Option<Text>)
    returns (results': map<string, map<string, Entry>>, names': map<string, string>, failed': seq<string>)
    ensures CrawlResult(results', names', failed') == Record(CrawlResult(results, names, failed), req, Classify(response))
  {
    var id, name := req.id, AliasOf(req);
    results', names', failed' := results, names[id := name], failed;
    if response.Some? && TextTruthy(response.value) {
      var decoded := Loads(response.value);
      if decoded.None? {
        failed' := failed' + [id];
      } else {
        results' := results'[id := map[]];
        var entries, raised := ParsePayload(decoded.value);
        results' := results'[id := entries];
        if raised {
          failed' := failed' + [id];
        }
      }
    } else {
      failed' := failed' + [id];
    }
  }

  /**
   * `crawl_websites(ids_list, request_interval)`; also returns the pauses
   * slept between sources, in milliseconds.
   */
  method CrawlWebsites(reqs: seq<SourceRequest>, requestInterval: int, w: World)
    returns (results: map<string, map<string, Entry>>, names: map<string, string>, failed: seq<string>, pauses: seq<int>)
    requires WorldInRange(w)
    ensures CrawlResult(results, names, failed) == Fold(reqs, Outcomes(reqs, w))
    ensures |pauses| == Max(0, |reqs| - 1)
    ensures forall k :: 0 <= k < |pauses| ==> pauses[k] == Max(50, requestInterval + w.pace(k))
  {
    results, names, failed, pauses := map[], map[], [], [];
    ghost var outcomes := Outcomes(reqs, w);
    for i := 0 to |reqs|
      invariant CrawlResult(results, names, failed) == Fold(reqs[..i], outcomes[..i])
      invariant |pauses| == if i == |reqs| then Max(0, |reqs| - 1) else i
      invariant forall k :: 0 <= k < |pauses| ==> pauses[k] == Max(50, requestInterval + w.pace(k))
    {
      assert DrawsInRange(3, 5, w.baseDraw(i), w.extraDraw(i));
      var response, _, _, _, _ := FetchData(reqs[i], 2, 3, 5, w.pages(i), w.network(i), w.baseDraw(i), w.extraDraw(i));
      assert outcomes[i] == Classify(response);
      results, names, failed := HandleSource(results, names, failed, reqs[i], response);
      FoldStep(reqs, outcomes, i);
      if i < |reqs| - 1 {
        pauses := pauses + [Max(50, requestInterval + w.pace(i))];
      }
    }
    assert reqs[..|reqs|] == reqs && outcomes[..|reqs|] == outcomes;
  }

  /**
   * The pauses `CrawlWebsites` sleeps, each `max(50, request_interval +
   * randint(-10, 20))`, are at least 50 ms and within the jitter of the interval.
   */
  lemma PauseBounds(pauses: seq<int>, requestInterval: int, w: World)
    requires WorldInRange(w)
    requires forall k :: 0 <= k < |pauses| ==> pauses[k] == Max(50, requestInterval + w.pace(k))
    ensures forall k :: 0 <= k < |pauses| ==> 50 <= pauses[k] && requestInterval - 10 <= pauses[k] <= Max(50, requestInterval + 20)
  {
    forall k | 0 <= k < |pauses|
      ensures 50 <= pauses[k] && requestInterval - 10 <= pauses[k] <= Max(50, requestInterval + 20)
    {
      assert -10 <= w.pace(k) <= 20;
    }
  }

  /** One more iteration of the source loop. */
  lemma FoldStep(reqs: seq<SourceRequest>, outcomes: seq<Outcome>, i: nat)
    requires |reqs| == |outcomes| && i < |reqs|
    ensures Fold(reqs[..i + 1], outcomes[..i + 1]) == Record(Fold(reqs[..i], outcomes[..i]), reqs[i], outcomes[i])
  {
    assert reqs[..i + 1][..i] == reqs[..i] && outcomes[..i + 1][..i] == outcomes[..i];
  }

  /** No later entry of `reqs` has the same id as position `i`. */
  predicate LastOccurrence(reqs: seq<SourceRequest>, i: nat)
    requires i < |reqs|
  {
    forall j :: i < j < |reqs| ==> reqs[j].id != reqs[i].id
  }

  /** No later entry with the same id reached `results[id] = {}`. */
  predicate LastProcessed(reqs: seq<SourceRequest>, outcomes: seq<Outcome>, i: nat)
    requires |reqs| == |outcomes| && i < |reqs|
  {
    forall j :: i < j < |reqs| && reqs[j].id == reqs[i].id ==> !outcomes[j].Processed?
  }

  lemma FoldPrefix(reqs: seq<SourceRequest>, outcomes: seq<Outcome>)
    requires |reqs| == |outcomes| && reqs != []
    ensures var n := |reqs|;
      Fold(reqs, outcomes) == Record(Fold(reqs[..n - 1], outcomes[..n - 1]), reqs[n - 1], outcomes[n - 1])
    ensures forall k :: 0 <= k < |reqs| - 1 ==> reqs[..|reqs| - 1][k] == reqs[k] && outcomes[..|reqs| - 1][k] == outcomes[k]
  {
  }

  /** Every requested id gets a name, whatever its outcome, and no other id does. */
  lemma {:induction false} NamesRecorded(reqs: seq<SourceRequest>, outcomes: seq<Outcome>)
    requires |reqs| == |outcomes|
    ensures forall x :: x in Fold(reqs, outcomes).names <==> exists i :: 0 <= i < |reqs| && reqs[i].id == x
  {
    if reqs != [] {
      var n := |reqs|;
      FoldPrefix(reqs, outcomes);
      NamesRecorded(reqs[..n - 1], outcomes[..n - 1]);
      var names := Fold(reqs, outcomes).names;
      var prev := Fold(reqs[..n - 1], outcomes[..n - 1]).names;
      assert names == prev[reqs[n - 1].id := AliasOf(reqs[n - 1])];
      forall x ensures x in names <==> exists i :: 0 <= i < n && reqs[i].id == x {
        if x in prev {
          var i :| 0 <= i < n - 1 && reqs[..n - 1][i].id == x;
          assert reqs[i].id == x;
        }
        if exists i :: 0 <= i < n && reqs[i].id == x {
          var i :| 0 <= i < n && reqs[i].id == x;
          if i < n - 1 {
            assert reqs[..n - 1][i].id == x;
          }
        }
      }
    }
  }

  /** With duplicate ids, the alias of the last occurrence is the one recorded. */
  lemma {:induction false} LastAliasWins(reqs: seq<SourceRequest>, outcomes: seq<Outcome>, i: nat)
    requires |reqs| == |outcomes| && i < |reqs| && LastOccurrence(reqs, i)
    ensures reqs[i].id in Fold(reqs, outcomes).names
    ensures Fold(reqs, outcomes).names[reqs[i].id] == AliasOf(reqs[i])
  {
    var n := |reqs|;
    FoldPrefix(reqs, outcomes);
    if i < n - 1 {
      assert LastOccurrence(reqs[..n - 1], i);
      LastAliasWins(reqs[..n - 1], outcomes[..n - 1], i);
      assert reqs[n - 1].id != reqs[i].id;
    }
  }

  /** An id has a `results` entry exactly when one of its occurrences got a response that decoded. */
  lemma {:induction false} ResultsRecorded(reqs: seq<SourceRequest>, outcomes: seq<Outcome>)
    requires |reqs| == |outcomes|
    ensures forall x :: x in Fold(reqs, outcomes).results <==>
              exists i :: 0 <= i < |reqs| && reqs[i].id == x && outcomes[i].Processed?
  {
    if reqs != [] {
      var n := |reqs|;
      FoldPrefix(reqs, outcomes);
      ResultsRecorded(reqs[..n - 1], outcomes[..n - 1]);
      var c := Fold(reqs, outcomes);
      var prev := Fold(reqs[..n - 1], outcomes[..n - 1]);
      forall x ensures x in c.results <==> exists i :: 0 <= i < n && reqs[i].id == x && outcomes[i].Processed? {
        if x in c.results && !(x == reqs[n - 1].id && outcomes[n - 1].Processed?) {
          assert x in prev.results;
          var i :| 0 <= i < n - 1 && reqs[..n - 1][i].id == x && outcomes[..n - 1][i].Processed?;
          assert reqs[i].id == x && outcomes[i].Processed?;
        }
        if exists i :: 0 <= i < n && reqs[i].id == x && outcomes[i].Processed? {
          var i :| 0 <= i < n && reqs[i].id == x && outcomes[i].Processed?;
          if i < n - 1 {
            assert reqs[..n - 1][i].id == x && outcomes[..n - 1][i].Processed?;
          }
        }
      }
    }
  }

  /** An id's `results` entry holds what the last occurrence that decoded stored. */
  lemma {:induction false} LastResultWins(reqs: seq<SourceRequest>, outcomes: seq<Outcome>, i: nat)
    requires |reqs| == |outcomes| && i < |reqs|
    requires outcomes[i].Processed? && LastProcessed(reqs, outcomes, i)
    ensures reqs[i].id in Fold(reqs, outcomes).results
    ensures Fold(reqs, outcomes).results[reqs[i].id] == outcomes[i].batch.entries
  {
    var n := |reqs|;
    FoldPrefix(reqs, outcomes);
    if i < n - 1 {
      assert LastProcessed(reqs[..n - 1], outcomes[..n - 1], i);
      LastResultWins(reqs[..n - 1], outcomes[..n - 1], i);
    }
  }

  /** An id is in `failed_ids` exactly when one of its occurrences failed. */
  lemma {:induction false} FailuresRecorded(reqs: seq<SourceRequest>, outcomes: seq<Outcome>)
    requires |reqs| == |outcomes|
    ensures var c := Fold(reqs, outcomes);
      forall x :: x in c.failed <==> exists i :: 0 <= i < |reqs| && reqs[i].id == x && Fails(outcomes[i])
  {
    if reqs != [] {
      var n := |reqs|;
      FoldPrefix(reqs, outcomes);
      FailuresRecorded(reqs[..n - 1], outcomes[..n - 1]);
      var c := Fold(reqs, outcomes);
      var prev := Fold(reqs[..n - 1], outcomes[..n - 1]);
      assert c.failed == prev.failed + (if Fails(outcomes[n - 1]) then [reqs[n - 1].id] else []);
      forall x ensures x in c.failed <==> exists i :: 0 <= i < n && reqs[i].id == x && Fails(outcomes[i]) {
        if x in prev.failed {
          var i :| 0 <= i < n - 1 && reqs[..n - 1][i].id == x && Fails(outcomes[..n - 1][i]);
          assert reqs[i].id == x && Fails(outcomes[i]);
        }
        if exists i :: 0 <= i < n && reqs[i].id == x && Fails(outcomes[i]) {
          var i :| 0 <= i < n && reqs[i].id == x && Fails(outcomes[i]);
          if i < n - 1 {
            assert reqs[..n - 1][i].id == x && Fails(outcomes[..n - 1][i]);
          }
        }
      }
    }
  }

  /** Number of outcomes that append to `failed_ids`. */
  function FailCount(outcomes: seq<Outcome>): nat
  {
    if outcomes == [] then 0
    else FailCount(outcomes[..|outcomes| - 1]) + (if Fails(outcomes[|outcomes| - 1]) then 1 else 0)
  }

  /**
   * `failed_ids` lists every failing occurrence once, in input order, with
   * duplicate ids repeated: the failing occurrence at `i` is at position
   * `FailCount(outcomes[..i])`, and there are no other entries.
   */
  lemma {:induction false} FailuresPlacement(reqs: seq<SourceRequest>, outcomes: seq<Outcome>)
    requires |reqs| == |outcomes|
    ensures var c := Fold(reqs, outcomes); |c.failed| == FailCount(outcomes)
    ensures var c := Fold(reqs, outcomes);
      forall i :: 0 <= i < |reqs| && Fails(outcomes[i]) ==>
        FailCount(outcomes[..i]) < |c.failed| && c.failed[FailCount(outcomes[..i])] == reqs[i].id
  {
    if reqs != [] {
      var n := |reqs|;
      FoldPrefix(reqs, outcomes);
      FailuresPlacement(reqs[..n - 1], outcomes[..n - 1]);
      var c := Fold(reqs, outcomes);
      var prev := Fold(reqs[..n - 1], outcomes[..n - 1]);
      assert c.failed == prev.failed + (if Fails(outcomes[n - 1]) then [reqs[n - 1].id] else []);
      forall i | 0 <= i < n && Fails(outcomes[i])
        ensures FailCount(outcomes[..i]) < |c.failed| && c.failed[FailCount(outcomes[..i])] == reqs[i].id
      {
        if i < n - 1 {
          assert outcomes[..n - 1][..i] == outcomes[..i];
          assert Fails(outcomes[..n - 1][i]);
        } else {
          assert outcomes[..i] == outcomes[..n - 1];
        }
      }
    }
  }

  /** Every requested id ends up in `results`, in `failed_ids`, or in both. */
  lemma EveryIdHasOutcome(reqs: seq<SourceRequest>, outcomes: seq<Outcome>)
    requires |reqs| == |outcomes|
    ensures var c := Fold(reqs, outcomes);
      forall i :: 0 <= i < |reqs| ==> reqs[i].id in c.results || reqs[i].id in c.failed
  {
    ResultsRecorded(reqs, outcomes);
    FailuresRecorded(reqs, outcomes);
    forall i | 0 <= i < |reqs|
      ensures reqs[i].id in Fold(reqs, outcomes).results || reqs[i].id in Fold(reqs, outcomes).failed
    {
      assert outcomes[i].Processed? || Fails(outcomes[i]);
    }
  }

  /**
   * For an id requested once: a falsy response or a decode failure puts it in
   * `failed_ids` only; a decoded payload gives it a `results` entry holding
   * what was stored, and it is in `failed_ids` as well exactly when
   * processing raised after `results[id] = {}`.
   */
  lemma SingleSourceOutcome(reqs: seq<SourceRequest>, outcomes: seq<Outcome>, i: nat)
    requires |reqs| == |outcomes| && i < |reqs|
    requires forall j :: 0 <= j < |reqs| && j != i ==> reqs[j].id != reqs[i].id
    ensures var c := Fold(reqs, outcomes); var x := reqs[i].id;
      && (x in c.results <==> outcomes[i].Processed?)
      && (outcomes[i].Processed? ==> c.results[x] == outcomes[i].batch.entries)
      && (x in c.failed <==> Fails(outcomes[i]))
  {
    ResultsRecorded(reqs, outcomes);
    FailuresRecorded(reqs, outcomes);
    if outcomes[i].Processed? {
      LastResultWins(reqs, outcomes, i);
    }
  }

  /**
   * `results` and `failed_ids` can share an id: for an id requested once, a
   * dict payload whose `items` list holds a non-dict leaves `results[id]`
   * holding what the items before it stored, and still appends the id to
   * `failed_ids`.
   */
  lemma ResultsAndFailuresOverlap(reqs: seq<SourceRequest>, outcomes: seq<Outcome>, i: nat, data: Json, xs: seq<Json>)
    requires |reqs| == |outcomes| && i < |reqs|
    requires forall j :: 0 <= j < |reqs| && j != i ==> reqs[j].id != reqs[i].id
    requires data.JObject? && ItemsOf(data) == JArray(xs) && outcomes[i] == Processed(PayloadBatch(data))
    requires exists k :: 0 <= k < |xs| && !xs[k].JObject?
    ensures var c := Fold(reqs, outcomes); var x := reqs[i].id;
      x in c.results && x in c.failed && c.results[x] == Normalized(xs).entries
  {
    NormalizedRaised(xs);
    SingleSourceOutcome(reqs, outcomes, i);
  }

  /**
   * Through `fetch_data`, a source either has no response or has one that
   * decodes to a dict: the `JSONDecodeError` branch is never taken, and a
   * processing error can only come from the items.
   */
  lemma FetchedOutcome(id: string, page: Option<seq<Node>>, network: nat -> Response, maxRetries: int)
    ensures var t := Fetched(id, page, network, maxRetries); var o := Classify(t);
      && (o.NoResponse? <==> t.None?)
      && !o.Undecodable?
      && (o.Processed? ==> Loads(t.value).Some? && Loads(t.value).value.JObject? && o.batch == PayloadBatch(Loads(t.value).value))
  {
    FetchedAcceptable(id, page, network, maxRetries);
  }

  /** No source of a crawl ever ends in the decode-failure branch. */
  lemma CrawlNeverUndecodable(reqs: seq<SourceRequest>, w: World)
    ensures forall i :: 0 <= i < |reqs| ==> !Outcomes(reqs, w)[i].Undecodable?
  {
    forall i | 0 <= i < |reqs| ensures !Outcomes(reqs, w)[i].Undecodable? {
      FetchedOutcome(reqs[i].id, w.pages(i), w.network(i), 2);
    }
  }

  /** `{"status": "success", "items": [{"title": "x"}, {"title": "y"}]}` */
  function TwoItemPayload(): Json
  {
    JObject(map["status" := JString("success"),
                "items" := JArray([JObject(map["title" := JString("x")]), JObject(map["title" := JString("y")])])])
  }

  lemma TwoItemBatch()
    ensures !PayloadBatch(TwoItemPayload()).raised && |PayloadBatch(TwoItemPayload()).entries| == 2
  {
    var x, y := JObject(map["title" := JString("x")]), JObject(map["title" := JString("y")]);
    assert GetOr(TwoItemPayload().fields, "items", JArray([])) == JArray([x, y]);
    TwoTitlesNormalized();
  }

  lemma TwoTitlesNormalized()
    ensures var b := Normalized([JObject(map["title" := JString("x")]), JObject(map["title" := JString("y")])]);
      !b.raised && |b.entries| == 2
  {
    var x, y := JObject(map["title" := JString("x")]), JObject(map["title" := JString("y")]);
    TitleOnlyKept(1, "x");
    TitleOnlyKept(2, "y");
    ItemKeyDistinct(1, "x", 2, "y");
    var steps := Steps([x, y]);
    assert steps[0] == ItemStep(1, x) && steps[1] == ItemStep(2, y);
    CollectTwoKept(steps);
  }

  /**
   * Source 0 answers its first API request with `TwoItemPayload`; every
   * request of source 1 times out. No szvc page is involved.
   */
  function TwoSourceWorld(): World
  {
    World((s: nat) => None,
          (s: nat) => (k: nat) => if s == 0 then Reply(200, Dumps(TwoItemPayload())) else Raised,
          (s: nat) => (r: nat) => 3.0,
          (s: nat) => (r: nat) => 1.0,
          (s: nat) => 0)
  }

  lemma TwoSourceOutcomes()
    ensures var reqs := [Bare("a"), Bare("b")]; var o := Outcomes(reqs, TwoSourceWorld());
      o[0] == Processed(PayloadBatch(TwoItemPayload())) && o[1] == NoResponse
  {
    var w := TwoSourceWorld();
    UnregisteredUsesApi("a", None, w.network(0), 2);
    UnregisteredUsesApi("b", None, w.network(1), 2);
    assert Accepted(w.network(0)(0));
    ApiTextNone(w.network(1), 2);
  }

  /** Two distinct sources: the first processed without error, the second without a response. */
  lemma FoldProcessedThenSilent(reqs: seq<SourceRequest>, outcomes: seq<Outcome>)
    requires |reqs| == |outcomes| == 2 && reqs[0].id != reqs[1].id
    requires outcomes[0].Processed? && !outcomes[0].batch.raised && outcomes[1].NoResponse?
    ensures var c := Fold(reqs, outcomes);
      && c.results == map[reqs[0].id := outcomes[0].batch.entries]
      && c.failed == [reqs[1].id]
      && c.names == map[reqs[0].id := AliasOf(reqs[0]), reqs[1].id := AliasOf(reqs[1])]
  {
    assert reqs[..1] == [reqs[0]] && outcomes[..1] == [outcomes[0]];
    FoldSingle(reqs[0], outcomes[0]);
  }

  lemma FoldSingle(req: SourceRequest, o: Outcome)
    ensures Fold([req], [o]) == Record(CrawlResult(map[], map[], []), req, o)
  {
    assert [req][..0] == [] && [o][..0] == [];
  }

  /**
   * Crawling "a" then "b", where "a" answers with two items and every request
   * for "b" times out: "a" alone has results, with two entries; "b" alone
   * failed; both are named.
   */
  lemma TwoSourceCrawl()
    ensures var reqs := [Bare("a"), Bare("b")]; var c := Fold(reqs, Outcomes(reqs, TwoSourceWorld()));
      && c.results.Keys == {"a"} && |c.results["a"]| == 2
      && c.failed == ["b"] && c.names == map["a" := "a", "b" := "b"]
  {
    var reqs := [Bare("a"), Bare("b")];
    TwoSourceOutcomes();
    TwoItemBatch();
    FoldProcessedThenSilent(reqs, Outcomes(reqs, TwoSourceWorld()));
  }
}
