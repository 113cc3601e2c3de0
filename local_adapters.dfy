/**
 * Site-specific adapters used instead of the shared news API
 * (trendradar/crawler/local_adapters.py).
 *
 * The HTTP request and the HTML parsing are outside the model: an adapter
 * receives the list nodes the page's CSS selector picked out, or `None` when
 * fetching or parsing the page raised.
 */
module LocalAdapters {
  import opened Optional
  import opened Json
  import opened PyStr

  /** The `.title a` element of a list node: its text fragments and its `href`, if it has one. */
  datatype Anchor = Anchor(texts: seq<string>, href: Option<string>)

  /** One `.app-page-list-article .item` node; `anchor` is what `select_one('.title a')` finds. */
  datatype Node = Node(anchor: Option<Anchor>)

  const SzvcOrigin: string := "https://www.szvc.com.cn"

  /** The decoded form of the `{status, items}` envelope every adapter emits. */
  function Envelope(items: seq<Json>): Json
  {
    JObject(map["status" := JString("success"), "items" := JArray(items)])
  }

  /**
   * `_to_newsnow_format(items)`: a non-empty (so truthy) JSON text whose
   * `status` is "success" and whose `items` are the given items, in order.
   */
  function ToNewsnowFormat(items: seq<Json>): (t: Text)
    ensures TextTruthy(t)
    ensures Loads(t).Some? && Loads(t).value.JObject?
    ensures Get(Loads(t).value.fields, "status") == JString("success")
    ensures Get(Loads(t).value.fields, "items") == JArray(items)
  {
    Dumps(Envelope(items))
  }

  /** `get_text(strip=True)`: every text fragment stripped, then concatenated. */
  function AnchorText(texts: seq<string>): string
  {
    if texts == [] then [] else AnchorText(texts[..|texts| - 1]) + Strip(texts[|texts| - 1])
  }

  /** `get_text(strip=True)` yields text that neither starts nor ends with whitespace. */
  lemma {:induction false} AnchorTextTrimmed(texts: seq<string>)
    ensures var t := AnchorText(texts); t != [] ==> !IsSpace(t[0]) && !IsSpace(t[|t| - 1])
  {
    if texts != [] {
      AnchorTextTrimmed(texts[..|texts| - 1]);
    }
  }

  /** The item `get_szvc` appends for an anchor that has an `href`. */
  function SzvcItem(a: Anchor): Json
    requires a.href.Some?
  {
    var url := JString(SzvcOrigin + a.href.value);
    JObject(map["title" := JString(AnchorText(a.texts)), "url" := url, "mobileUrl" := url])
  }

  /** Reading `title_tag['href']` raises for this node. */
  predicate HrefMissing(n: Node)
  {
    n.anchor.Some? && n.anchor.value.href.None?
  }

  /**
   * The items the node loop of `get_szvc` builds, or `None` when it raises
   * (an anchor without `href`).
   */
  function SzvcItems(nodes: seq<Node>): Option<seq<Json>>
  {
    if nodes == [] then Some([])
    else
      match SzvcItems(nodes[..|nodes| - 1])
      case None => None
      case Some(items) =>
        var n := nodes[|nodes| - 1];
        if n.anchor.None? then Some(items)
        else if n.anchor.value.href.None? then None
        else Some(items + [SzvcItem(n.anchor.value)])
  }

  /** What `get_szvc` returns for a page: the envelope, or `None` from its `except` branch. */
  function SzvcResult(page: Option<seq<Node>>): Option<Text>
  {
    if page.None? then None
    else match SzvcItems(page.value)
      case None => None
      case Some(items) => Some(ToNewsnowFormat(items))
  }

  lemma {:induction false} SzvcFailureSticks(nodes: seq<Node>, i: nat)
    requires i <= |nodes| && SzvcItems(nodes[..i]).None?
    ensures SzvcItems(nodes).None?
    decreases |nodes| - i
  {
    if i < |nodes| {
      assert nodes[..i + 1][..i] == nodes[..i];
      SzvcFailureSticks(nodes, i + 1);
    } else {
      assert nodes[..i] == nodes;
    }
  }

  /**
   * `get_szvc()`: one item per node that has a `.title a` anchor, in node
   * order; `None` when the page could not be fetched or an anchor has no `href`.
   */
  method GetSzvc(page: Option<seq<Node>>) returns (r: Option<Text>)
    ensures r == SzvcResult(page)
    ensures r.None? <==> page.None? || exists i :: 0 <= i < |page.value| && HrefMissing(page.value[i])
  {
    if page.None? {
      return None;
    }
    var nodes := page.value;
    var items: seq<Json> := [];
    for i := 0 to |nodes|
      invariant SzvcItems(nodes[..i]) == Some(items)
      invariant forall k :: 0 <= k < i ==> !HrefMissing(nodes[k])
    {
      assert nodes[..i + 1][..i] == nodes[..i];
      var node := nodes[i];
      if node.anchor.Some? {
        var a := node.anchor.value;
        if a.href.None? {
          SzvcFailureSticks(nodes, i + 1);
          return None;
        }
        items := items + [SzvcItem(a)];
      }
    }
    assert nodes[..|nodes|] == nodes;
    r := Some(ToNewsnowFormat(items));
  }

  /** `get_szse()`: always the envelope with no items, which is truthy text. */
  function GetSzse(): (t: Text)
    ensures TextTruthy(t) && Loads(t) == Some(Envelope([]))
  {
    ToNewsnowFormat([])
  }

  /** The adapter operations `ADAPTER_MAP` can name. */
  datatype Adapter = Szvc | Szse

  /** `ADAPTER_MAP`, with the operation itself in place of its method name. */
  const AdapterMap: map<string, Adapter> := map["szvc" := Szvc, "szse" := Szse]

  /** The text the named adapter returns when the szvc page is `page`. */
  function AdapterResult(a: Adapter, page: Option<seq<Node>>): Option<Text>
  {
    match a
    case Szvc => SzvcResult(page)
    case Szse => Some(GetSzse())
  }

  /** Number of nodes that carry an anchor. */
  function AnchorCount(nodes: seq<Node>): nat
  {
    if nodes == [] then 0
    else AnchorCount(nodes[..|nodes| - 1]) + (if nodes[|nodes| - 1].anchor.Some? then 1 else 0)
  }

  /** The node loop fails exactly when some anchored node lacks an `href`. */
  lemma {:induction false} SzvcItemsFail(nodes: seq<Node>)
    ensures SzvcItems(nodes).None? <==> exists i :: 0 <= i < |nodes| && HrefMissing(nodes[i])
  {
    if nodes != [] {
      var init := nodes[..|nodes| - 1];
      SzvcItemsFail(init);
      if SzvcItems(init).None? {
        var i :| 0 <= i < |init| && HrefMissing(init[i]);
        assert HrefMissing(nodes[i]);
      } else if !HrefMissing(nodes[|nodes| - 1]) {
        forall i | 0 <= i < |nodes| ensures !HrefMissing(nodes[i]) {
          if i < |init| { assert nodes[i] == init[i]; }
        }
      }
    }
  }

  /**
   * When the node loop succeeds it yields one item per anchored node and no
   * other: the anchored node at position `i` gives the item at position
   * `AnchorCount(nodes[..i])`, so items keep node order and there are at most
   * as many items as nodes.
   */
  lemma {:induction false} SzvcItemsPlacement(nodes: seq<Node>)
    requires SzvcItems(nodes).Some?
    ensures |SzvcItems(nodes).value| == AnchorCount(nodes) <= |nodes|
    ensures forall i :: 0 <= i < |nodes| && nodes[i].anchor.Some? ==>
              AnchorCount(nodes[..i]) < AnchorCount(nodes) && nodes[i].anchor.value.href.Some? &&
              SzvcItems(nodes).value[AnchorCount(nodes[..i])] == SzvcItem(nodes[i].anchor.value)
  {
    if nodes != [] {
      var init := nodes[..|nodes| - 1];
      SzvcItemsPlacement(init);
      var items := SzvcItems(nodes).value;
      forall i | 0 <= i < |nodes| && nodes[i].anchor.Some?
        ensures AnchorCount(nodes[..i]) < AnchorCount(nodes) && nodes[i].anchor.value.href.Some?
        ensures items[AnchorCount(nodes[..i])] == SzvcItem(nodes[i].anchor.value)
      {
        if i < |init| {
          assert nodes[..i] == init[..i];
          assert nodes[i] == init[i];
        } else {
          assert nodes[..i] == init;
        }
      }
    }
  }
}
