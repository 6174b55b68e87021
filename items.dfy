/**
 * The items of a fetched feed: what `_get_title_and_url` reads from each one,
 * and the loop of `_doSearch` that keeps the usable ones.
 *
 * A parsed feed is abstract: a sequence of item nodes, each reduced to the
 * text of its first `<title>` and the `url` attribute of its first `<enclosure>`.
 */
module KatItems {
  import opened Wrappers
  import opened Text

  /**
   * A feed `<item>`, reduced to what `_get_title_and_url` reads: the text of
   * its first `<title>` element and the `url` attribute of its first
   * `<enclosure>` element (`""` when the attribute is absent); `None` when
   * the item has no such element, so that indexing `[0]` raises.
   */
  datatype ItemNode = ItemNode(title: Option<string>, enclosureUrl: Option<string>)

  /** A parsed feed, or the exception `parseString` raised. */
  datatype Feed = Unparseable | Parsed(items: seq<ItemNode>)

  /** `_get_title_and_url`: the title, and the link with `&amp;` turned back into `&`; `None` if it raises. */
  function TitleAndUrl(item: ItemNode): (r: Option<(string, string)>)
    ensures r.None? <==> item.title.None? || item.enclosureUrl.None?
    ensures r.Some? ==> r.value.0 == item.title.value
    ensures r.Some? ==> r.value.1 == UnescapeAmpersands(item.enclosureUrl.value)
  {
    if item.title.None? || item.enclosureUrl.None? then None
    else Some((item.title.value, UnescapeAmpersands(item.enclosureUrl.value)))
  }

  /** A feed writer's escaped link comes back exactly, with the title unchanged. */
  lemma TitleAndUrlRoundTrip(title: string, url: string)
    ensures TitleAndUrl(ItemNode(Some(title), Some(EscapeAmpersands(url)))) == Some((title, url))
  {
    UnescapeEscape(url);
  }

  /** A link without `&amp;` is returned as it is. */
  lemma TitleAndUrlPlainLink(title: string, url: string)
    requires !Contains(url, "&amp;")
    ensures TitleAndUrl(ItemNode(Some(title), Some(url))) == Some((title, url))
  {
  }

  /**
   * An item the search keeps: title and link were found and neither is empty,
   * which is exactly when its raw title and raw enclosure link are present and
   * non-empty.
   */
  predicate Usable(item: ItemNode)
    ensures Usable(item) <==>
      item.title.Some? && item.enclosureUrl.Some? && item.title.value != "" && item.enclosureUrl.value != ""
  {
    var r := TitleAndUrl(item);
    r.Some? && r.value.0 != "" && r.value.1 != ""
  }

  /** No item makes `_get_title_and_url` raise: every item has both elements. */
  predicate LookupsSucceed(items: seq<ItemNode>)
    ensures LookupsSucceed(items) <==>
      forall i :: 0 <= i < |items| ==> items[i].title.Some? && items[i].enclosureUrl.Some?
  {
    forall i :: 0 <= i < |items| ==> TitleAndUrl(items[i]).Some?
  }

  /** The usable items, in feed order. */
  function UsableItems(items: seq<ItemNode>): (r: seq<ItemNode>)
    ensures |r| <= |items|
    ensures forall i :: 0 <= i < |r| ==> Usable(r[i])
  {
    if items == [] then []
    else UsableItems(items[..|items| - 1]) + (if Usable(items[|items| - 1]) then [items[|items| - 1]] else [])
  }

  /** Filtering distributes over concatenation, so the kept items stay in feed order. */
  lemma {:induction false} UsableItemsAppend(a: seq<ItemNode>, b: seq<ItemNode>)
    ensures UsableItems(a + b) == UsableItems(a) + UsableItems(b)
  {
    if b == [] {
      assert a + b == a;
    } else {
      var b' := b[..|b| - 1];
      assert (a + b)[..|a + b| - 1] == a + b';
      assert (a + b)[|a + b| - 1] == b[|b| - 1];
      UsableItemsAppend(a, b');
    }
  }

  /** The kept items are exactly the usable items of the feed. */
  lemma {:induction false} UsableItemsMembers(items: seq<ItemNode>)
    ensures forall x :: x in UsableItems(items) <==> x in items && Usable(x)
  {
    if items != [] {
      var init := items[..|items| - 1];
      UsableItemsMembers(init);
      assert items == init + [items[|items| - 1]];
    }
  }

  /** A feed whose items are all usable is kept whole. */
  lemma {:induction false} UsableItemsAll(items: seq<ItemNode>)
    requires forall i :: 0 <= i < |items| ==> Usable(items[i])
    ensures UsableItems(items) == items
  {
    if items != [] {
      UsableItemsAll(items[..|items| - 1]);
    }
  }

  /** The result of a search: the kept items, or the exception a malformed item raised. */
  datatype SearchOutcome = Results(items: seq<ItemNode>) | LookupFailed

  /**
   * The loop of `_doSearch` over the parsed items: keep, in order, each item
   * with a non-empty title and link. An item lacking its `<title>` or
   * `<enclosure>` element raises out of the loop.
   */
  method FilterItems(items: seq<ItemNode>) returns (outcome: SearchOutcome)
    ensures outcome == if LookupsSucceed(items) then Results(UsableItems(items)) else LookupFailed
  {
    var results: seq<ItemNode> := [];
    var i := 0;
    while i < |items|
      invariant 0 <= i <= |items|
      invariant LookupsSucceed(items[..i])
      invariant results == UsableItems(items[..i])
    {
      var titleAndUrl := TitleAndUrl(items[i]);
      if titleAndUrl.None? {
        return LookupFailed;
      }
      var (title, url) := titleAndUrl.value;
      assert items[..i + 1][..i] == items[..i];
      if title == "" || url == "" {
        i := i + 1;
        continue;
      }
      results := results + [items[i]];
      i := i + 1;
    }
    assert items[..i] == items;
    return Results(results);
  }

}
