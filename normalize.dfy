/**
 * The per-source normalisation inside `DataFetcher.crawl_websites`
 * (trendradar/crawler/fetcher.py): the decoded payload's `items` become a
 * dict keyed `"{index:03d}_{title}"`, where `index` is the item's 1-based
 * position among all items, so skipped items leave gaps in the numbering.
 * Only this unique-key policy exists; titles are never merged.
 */
module Normalize {
  import opened Json
  import opened PyStr
  import LocalAdapters

  /** The record stored for a kept item. */
  datatype Entry = Entry(title: string, ranks: seq<nat>, url: Json, mobileUrl: Json, date: Json)

  /** `f"{index:03d}_{title}"` */
  function ItemKey(index: nat, title: string): string
  {
    Pad3(index) + "_" + title
  }

  /** The part of `s` before its first `_` (all of `s` when it has none). */
  function BeforeUnderscore(s: string): (r: string)
    ensures |r| <= |s| && r == s[..|r|]
    ensures forall k :: 0 <= k < |r| ==> r[k] != '_'
    ensures |r| < |s| ==> s[|r|] == '_'
  {
    if s == [] || s[0] == '_' then [] else [s[0]] + BeforeUnderscore(s[1..])
  }

  /** The rank a key was built from: the number before its first `_`. */
  function KeyIndex(key: string): nat
  {
    DigitsValue(BeforeUnderscore(key))
  }

  /** The title a key was built from: the text after its first `_`. */
  function KeyTitle(key: string): string
  {
    var d := BeforeUnderscore(key);
    if |d| < |key| then key[|d| + 1..] else []
  }

  lemma {:induction false} BeforeUnderscoreOfKey(d: string, t: string)
    requires forall k :: 0 <= k < |d| ==> d[k] != '_'
    ensures BeforeUnderscore(d + "_" + t) == d
  {
    if d != [] {
      assert (d + "_" + t)[1..] == d[1..] + "_" + t;
      BeforeUnderscoreOfKey(d[1..], t);
    }
  }

  /** A key gives back the rank and the title it was built from. */
  lemma KeyRoundTrip(index: nat, title: string)
    ensures KeyIndex(ItemKey(index, title)) == index
    ensures KeyTitle(ItemKey(index, title)) == title
  {
    var d := Pad3(index);
    BeforeUnderscoreOfKey(d, title);
    assert ItemKey(index, title)[|d| + 1..] == title;
  }

  /** Distinct (rank, title) pairs never share a key. */
  lemma ItemKeyInjective(i: nat, t: string, j: nat, u: string)
    requires ItemKey(i, t) == ItemKey(j, u)
    ensures i == j && t == u
  {
    KeyRoundTrip(i, t);
    KeyRoundTrip(j, u);
  }

  lemma ItemKeyDistinct(i: nat, t: string, j: nat, u: string)
    requires i != j
    ensures ItemKey(i, t) != ItemKey(j, u)
  {
    KeyRoundTrip(i, t);
    KeyRoundTrip(j, u);
  }

  /** `item.get("date") or item.get("release_time") or ""` */
  function DateOf(fields: map<string, Json>): Json
  {
    var date := Get(fields, "date");
    var release := Get(fields, "release_time");
    if Truthy(date) then date else if Truthy(release) then release else JString("")
  }

  /** `title is None or isinstance(title, float) or not str(title).strip()` */
  predicate SkipsTitle(title: Json)
  {
    title.JNull? || title.JFloat? || Strip(Str(title)) == []
  }

  /** What the loop does with one item: raise (`item.get` on a non-dict), skip it, or store an entry. */
  datatype Step = Raise | Skip | Keep(key: string, entry: Entry)

  /** The loop body for the item at 1-based position `index`. */
  function ItemStep(index: nat, item: Json): Step
  {
    if !item.JObject? then Raise
    else
      var fields := item.fields;
      var title := Get(fields, "title");
      if SkipsTitle(title) then Skip
      else
        var t := Strip(Str(title));
        Keep(ItemKey(index, t), Entry(t, [index], GetOr(fields, "url", JString("")),
                                      GetOr(fields, "mobileUrl", JString("")), DateOf(fields)))
  }

  /**
   * The loop body raises exactly on a non-dict item, skips exactly the items
   * whose title is `None`, a float or blank, and stores a kept item under the
   * key built from its rank and its stripped title, which is non-empty and
   * neither starts nor ends with whitespace, with that rank as its only rank.
   */
  lemma ItemStepShape(index: nat, item: Json)
    ensures ItemStep(index, item).Raise? <==> !item.JObject?
    ensures ItemStep(index, item).Skip? <==> item.JObject? && SkipsTitle(Get(item.fields, "title"))
    ensures var r := ItemStep(index, item);
      r.Keep? ==> && r.entry.ranks == [index] && r.key == ItemKey(index, r.entry.title)
                  && r.entry.title == Strip(Str(Get(item.fields, "title")))
                  && r.entry.title != [] && !IsSpace(r.entry.title[0]) && !IsSpace(r.entry.title[|r.entry.title| - 1])
  {
  }

  /** The dict `results[id]` ends up holding, and whether the loop raised part-way. */
  datatype Batch = Batch(entries: map<string, Entry>, raised: bool)

  /** The step the loop takes for each item, in order; the item at position `k` has rank `k + 1`. */
  function Steps(items: seq<Json>): (r: seq<Step>)
    ensures |r| == |items|
    ensures forall k :: 0 <= k < |items| ==> r[k] == ItemStep(k + 1, items[k])
  {
    seq(|items|, k requires 0 <= k < |items| => ItemStep(k + 1, items[k]))
  }

  /** Running the steps in order: stop at the first `Raise`, keeping what was stored before it. */
  function Collect(steps: seq<Step>): Batch
  {
    if steps == [] then Batch(map[], false)
    else
      var prev := Collect(steps[..|steps| - 1]);
      if prev.raised then prev
      else match steps[|steps| - 1]
        case Raise => Batch(prev.entries, true)
        case Skip => prev
        case Keep(key, entry) => Batch(prev.entries[key := entry], false)
  }

  /** The loop `for index, item in enumerate(items, 1)` over a list of items. */
  function Normalized(items: seq<Json>): Batch
  {
    Collect(Steps(items))
  }

  /** Once the loop has raised, later steps change nothing. */
  lemma {:induction false} RaisedSticks(steps: seq<Step>, i: nat)
    requires i <= |steps| && Collect(steps[..i]).raised
    ensures Collect(steps) == Collect(steps[..i])
    decreases |steps| - i
  {
    if i < |steps| {
      assert steps[..i + 1][..i] == steps[..i];
      RaisedSticks(steps, i + 1);
    } else {
      assert steps[..i] == steps;
    }
  }

  /** None of the first `i` steps raises. */
  predicate NoRaiseBefore(steps: seq<Step>, i: nat)
    requires i <= |steps|
  {
    forall k :: 0 <= k < i ==> !steps[k].Raise?
  }

  /** Every `Keep` step carries a key whose rank is its own 1-based position. */
  predicate RankKeyed(steps: seq<Step>)
  {
    forall k :: 0 <= k < |steps| && steps[k].Keep? ==> KeyIndex(steps[k].key) == k + 1
  }

  /** Number of steps that store an entry before the first `Raise`. */
  function KeptCount(steps: seq<Step>): nat
  {
    if steps == [] then 0
    else
      var n := KeptCount(steps[..|steps| - 1]);
      if NoRaiseBefore(steps, |steps| - 1) && steps[|steps| - 1].Keep? then n + 1 else n
  }

  lemma StepsRankKeyed(items: seq<Json>)
    ensures RankKeyed(Steps(items))
  {
    var steps := Steps(items);
    forall k | 0 <= k < |steps| ensures steps[k].Keep? ==> KeyIndex(steps[k].key) == k + 1 {
      ItemStepKeyIndex(k + 1, items[k], steps[k]);
    }
  }

  /** A kept item's key names the item's own rank. */
  lemma ItemStepKeyIndex(index: nat, item: Json, r: Step)
    requires r == ItemStep(index, item)
    ensures r.Keep? ==> KeyIndex(r.key) == index
  {
    if r.Keep? {
      assert r.key == ItemKey(index, r.entry.title);
      KeyRoundTrip(index, r.entry.title);
    }
  }

  /** The run raised exactly when some step raises. */
  lemma {:induction false} CollectRaised(steps: seq<Step>)
    ensures Collect(steps).raised <==> !NoRaiseBefore(steps, |steps|)
  {
    if steps != [] {
      var init := steps[..|steps| - 1];
      CollectRaised(init);
      assert forall k :: 0 <= k < |init| ==> init[k] == steps[k];
    }
  }

  /** Every stored entry comes from the `Keep` step at the position its key names. */
  lemma {:induction false} CollectSound(steps: seq<Step>)
    requires RankKeyed(steps)
    ensures var b := Collect(steps);
      forall key :: key in b.entries ==>
        1 <= KeyIndex(key) <= |steps| && steps[KeyIndex(key) - 1] == Keep(key, b.entries[key])
  {
    if steps != [] {
      var n := |steps|;
      var init := steps[..n - 1];
      assert forall k :: 0 <= k < |init| ==> init[k] == steps[k];
      CollectSound(init);
      var prev := Collect(init);
      var b := Collect(steps);
      forall key | key in b.entries
        ensures 1 <= KeyIndex(key) <= n && steps[KeyIndex(key) - 1] == Keep(key, b.entries[key])
      {
        if !prev.raised && steps[n - 1].Keep? && key == steps[n - 1].key {
          assert KeyIndex(key) == n;
        } else {
          assert key in prev.entries && b.entries[key] == prev.entries[key];
        }
      }
    }
  }

  /** A `Keep` step reached before any `Raise` stores its entry under its key. */
  lemma {:induction false} CollectKeeps(steps: seq<Step>, k: nat)
    requires RankKeyed(steps)
    requires k < |steps| && NoRaiseBefore(steps, k) && steps[k].Keep?
    ensures steps[k].key in Collect(steps).entries
    ensures Collect(steps).entries[steps[k].key] == steps[k].entry
  {
    var n := |steps|;
    var init := steps[..n - 1];
    assert forall j :: 0 <= j < |init| ==> init[j] == steps[j];
    if k < n - 1 {
      CollectKeeps(init, k);
    } else {
      CollectRaised(init);
    }
  }

  /** Keys of a rank-keyed run never collide: exactly one entry per stored step. */
  lemma {:induction false} CollectCount(steps: seq<Step>)
    requires RankKeyed(steps)
    ensures |Collect(steps).entries| == KeptCount(steps)
  {
    if steps != [] {
      var n := |steps|;
      var init := steps[..n - 1];
      assert forall k :: 0 <= k < |init| ==> init[k] == steps[k];
      CollectCount(init);
      CollectSound(init);
      CollectRaised(init);
      var prev := Collect(init);
      if !prev.raised && steps[n - 1].Keep? {
        assert steps[n - 1].key !in prev.entries;
      }
    }
  }

  /** The loop over `items` raised exactly when some item is not a dict. */
  lemma NormalizedRaised(items: seq<Json>)
    ensures Normalized(items).raised <==> exists k :: 0 <= k < |items| && !items[k].JObject?
  {
    var steps := Steps(items);
    CollectRaised(steps);
    forall k | 0 <= k < |items| ensures steps[k].Raise? <==> !items[k].JObject? {
      ItemStepShape(k + 1, items[k]);
    }
  }

  /** Every stored entry is the one the item at its key's rank yields. */
  lemma NormalizedSound(items: seq<Json>)
    ensures var b := Normalized(items);
      forall key :: key in b.entries ==>
        1 <= KeyIndex(key) <= |items| && ItemStep(KeyIndex(key), items[KeyIndex(key) - 1]) == Keep(key, b.entries[key])
  {
    StepsRankKeyed(items);
    CollectSound(Steps(items));
  }

  /** Every item kept before the loop raised is stored under its own key. */
  lemma NormalizedComplete(items: seq<Json>)
    ensures var b := Normalized(items); var steps := Steps(items);
      forall k :: 0 <= k < |items| && NoRaiseBefore(steps, k) && steps[k].Keep? ==>
        steps[k].key in b.entries && b.entries[steps[k].key] == steps[k].entry
  {
    var steps := Steps(items);
    StepsRankKeyed(items);
    forall k | 0 <= k < |items| && NoRaiseBefore(steps, k) && steps[k].Keep?
      ensures steps[k].key in Collect(steps).entries
      ensures Collect(steps).entries[steps[k].key] == steps[k].entry
    {
      CollectKeeps(steps, k);
    }
  }

  /** Keys are pairwise distinct, so there are exactly as many entries as kept items. */
  lemma NormalizedCount(items: seq<Json>)
    ensures |Normalized(items).entries| == KeptCount(Steps(items))
  {
    StepsRankKeyed(items);
    CollectCount(Steps(items));
  }

  /**
   * Lines 162-185 of `crawl_websites` over a list: the loop, stopped by the
   * first item that is not a dict, with the entries stored before it kept.
   */
  method NormalizeItems(items: seq<Json>) returns (entries: map<string, Entry>, raised: bool)
    ensures Batch(entries, raised) == Normalized(items)
  {
    ghost var steps := Steps(items);
    entries, raised := map[], false;
    for i := 0 to |items|
      invariant Collect(steps[..i]) == Batch(entries, false)
    {
      assert steps[..i + 1][..i] == steps[..i];
      var item := items[i];
      if !item.JObject? {
        RaisedSticks(steps, i + 1);
        return entries, true;
      }
      var title := Get(item.fields, "title");
      if title.JNull? || title.JFloat? || Strip(Str(title)) == [] {
        continue;
      }
      var t := Strip(Str(title));
      var url := GetOr(item.fields, "url", JString(""));
      var mobileUrl := GetOr(item.fields, "mobileUrl", JString(""));
      var date := DateOf(item.fields);
      entries := entries[ItemKey(i + 1, t) := Entry(t, [i + 1], url, mobileUrl, date)];
    }
    assert steps[..|items|] == steps;
  }

  /**
   * What `results[id]` holds and whether an exception escaped, once the
   * payload decoded to `data` (lines 159-185): `data.get` raises unless
   * `data` is a dict, and `enumerate` raises unless `items` is iterable; a
   * non-empty string or dict is iterable but yields strings, on which
   * `item.get` raises.
   */
  function PayloadBatch(data: Json): Batch
  {
    if !data.JObject? then Batch(map[], true)
    else match ItemsOf(data)
      case JArray(xs) => Normalized(xs)
      case JString(s) => Batch(map[], s != [])
      case JObject(m) => Batch(map[], m != map[])
      case _ => Batch(map[], true)
  }

  method ParsePayload(data: Json) returns (entries: map<string, Entry>, raised: bool)
    ensures Batch(entries, raised) == PayloadBatch(data)
    ensures raised <== !data.JObject?
  {
    if !data.JObject? {
      return map[], true;
    }
    var items := ItemsOf(data);
    match items {
      case JArray(xs) =>
        entries, raised := NormalizeItems(xs);
      case JString(s) =>
        entries, raised := map[], s != [];
      case JObject(m) =>
        entries, raised := map[], m != map[];
      case _ =>
        entries, raised := map[], true;
    }
  }

  /** The value of `data.get("items", [])` for a dict payload. */
  function ItemsOf(data: Json): Json
    requires data.JObject?
  {
    GetOr(data.fields, "items", JArray([]))
  }

  /**
   * Processing a decoded payload raises exactly when the payload is not a
   * dict, when its `items` (default `[]`) is neither a list nor an empty
   * string or dict, or when `items` is a list holding a non-dict; entries are
   * stored only when `items` is a list, and then they are the item loop's.
   */
  lemma PayloadRaised(data: Json)
    ensures PayloadBatch(data).raised <==>
      || !data.JObject?
      || (!ItemsOf(data).JArray? && ItemsOf(data) != JString("") && ItemsOf(data) != JObject(map[]))
      || (ItemsOf(data).JArray? && exists k :: 0 <= k < |ItemsOf(data).elems| && !ItemsOf(data).elems[k].JObject?)
    ensures PayloadBatch(data).entries != map[] ==> data.JObject? && ItemsOf(data).JArray?
    ensures data.JObject? && ItemsOf(data).JArray? ==> PayloadBatch(data) == Normalized(ItemsOf(data).elems)
  {
    if data.JObject? && ItemsOf(data).JArray? {
      NormalizedRaised(ItemsOf(data).elems);
    }
  }

  /**
   * An item whose title is `None`, a float, or empty or all whitespace once
   * converted is dropped: no stored key carries its rank.
   */
  lemma SkippedItemDropped(items: seq<Json>, k: nat)
    requires k < |items| && items[k].JObject? && SkipsTitle(Get(items[k].fields, "title"))
    ensures forall key :: key in Normalized(items).entries ==> KeyIndex(key) != k + 1
  {
    NormalizedSound(items);
    ItemStepShape(k + 1, items[k]);
  }

  /** Two kept items with the same title are never merged: each keeps its own entry and its own rank. */
  lemma DuplicateTitlesKeptApart(items: seq<Json>, j: nat, k: nat)
    requires j < k < |items|
    requires NoRaiseBefore(Steps(items), k) && Steps(items)[j].Keep? && Steps(items)[k].Keep?
    ensures var b := Normalized(items); var sj := Steps(items)[j]; var sk := Steps(items)[k];
      && sj.key != sk.key && sj.key in b.entries && sk.key in b.entries
      && b.entries[sj.key].ranks == [j + 1] && b.entries[sk.key].ranks == [k + 1]
  {
    var steps := Steps(items);
    ItemStepShape(j + 1, items[j]);
    ItemStepShape(k + 1, items[k]);
    ItemKeyDistinct(j + 1, steps[j].entry.title, k + 1, steps[k].entry.title);
    NormalizedComplete(items);
    assert NoRaiseBefore(steps, j);
  }

  /**
   * The optional fields of a kept item: `url` and `mobileUrl` are the item's
   * own when present and "" otherwise, and `date` is the first truthy one of
   * `date` and `release_time`, else "".
   */
  lemma KeptEntryFields(index: nat, item: Json)
    requires ItemStep(index, item).Keep?
    ensures var e := ItemStep(index, item).entry; var f := item.fields;
      && ("url" in f ==> e.url == f["url"]) && ("url" !in f ==> e.url == JString(""))
      && ("mobileUrl" in f ==> e.mobileUrl == f["mobileUrl"]) && ("mobileUrl" !in f ==> e.mobileUrl == JString(""))
      && (Truthy(Get(f, "date")) ==> e.date == f["date"])
      && (!Truthy(Get(f, "date")) && Truthy(Get(f, "release_time")) ==> e.date == f["release_time"])
      && (!Truthy(Get(f, "date")) && !Truthy(Get(f, "release_time")) ==> e.date == JString(""))
  {
  }

  lemma StripTrimmed(s: string)
    requires s != [] ==> !IsSpace(s[0]) && !IsSpace(s[|s| - 1])
    ensures Strip(s) == s
  {
  }

  /** The fields of an item holding a title and one link for both `url` and `mobileUrl`. */
  lemma LinkFields(title: string, url: Json)
    ensures var fields := map["title" := JString(title), "url" := url, "mobileUrl" := url];
      && Get(fields, "title") == JString(title)
      && GetOr(fields, "url", JString("")) == url && GetOr(fields, "mobileUrl", JString("")) == url
      && DateOf(fields) == JString("")
  {
  }

  /** An already stripped string title is skipped only when empty, and is kept unchanged. */
  lemma TrimmedTitle(title: string)
    requires title != [] ==> !IsSpace(title[0]) && !IsSpace(title[|title| - 1])
    ensures Strip(Str(JString(title))) == title
    ensures SkipsTitle(JString(title)) == (title == [])
  {
    StripTrimmed(title);
  }

  /** An item holding only an already stripped title and one link for both `url` and `mobileUrl`. */
  lemma LinkItemStep(index: nat, title: string, url: Json)
    requires title != [] ==> !IsSpace(title[0]) && !IsSpace(title[|title| - 1])
    ensures ItemStep(index, JObject(map["title" := JString(title), "url" := url, "mobileUrl" := url]))
      == if title == [] then Skip else Keep(ItemKey(index, title), Entry(title, [index], url, url, JString("")))
  {
    LinkFields(title, url);
    TrimmedTitle(title);
  }

  /**
   * A szvc item survives normalisation exactly when its anchor text is not
   * empty; it is then stored with that text as title, the site's absolute
   * link as both `url` and `mobileUrl`, and an empty date.
   */
  lemma SzvcItemNormalizes(index: nat, a: LocalAdapters.Anchor)
    requires a.href.Some?
    ensures var r := ItemStep(index, LocalAdapters.SzvcItem(a)); var title := LocalAdapters.AnchorText(a.texts);
      && (r.Keep? <==> title != [])
      && (r.Keep? ==> r.entry == Entry(title, [index], JString(LocalAdapters.SzvcOrigin + a.href.value),
                                       JString(LocalAdapters.SzvcOrigin + a.href.value), JString("")))
  {
    var title := LocalAdapters.AnchorText(a.texts);
    LocalAdapters.AnchorTextTrimmed(a.texts);
    LinkItemStep(index, title, JString(LocalAdapters.SzvcOrigin + a.href.value));
  }

  /** An item `{"title": t}` with an already stripped, non-empty title is kept with empty links and date. */
  lemma TitleOnlyKept(index: nat, title: string)
    requires title != [] && !IsSpace(title[0]) && !IsSpace(title[|title| - 1])
    ensures ItemStep(index, JObject(map["title" := JString(title)]))
      == Keep(ItemKey(index, title), Entry(title, [index], JString(""), JString(""), JString("")))
  {
    TrimmedTitle(title);
    var fields := map["title" := JString(title)];
    assert Get(fields, "title") == JString(title);
    assert DateOf(fields) == JString("");
  }

  lemma CollectSingle(step: Step)
    ensures step.Keep? ==> Collect([step]) == Batch(map[step.key := step.entry], false)
  {
    assert [step][..0] == [];
  }

  /** Two kept steps with different keys give two entries. */
  lemma CollectTwoKept(steps: seq<Step>)
    requires |steps| == 2 && steps[0].Keep? && steps[1].Keep? && steps[0].key != steps[1].key
    ensures !Collect(steps).raised && |Collect(steps).entries| == 2
  {
    assert steps[..1] == [steps[0]];
    CollectSingle(steps[0]);
  }
}
