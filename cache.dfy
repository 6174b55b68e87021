/**
 * `KATCache`: the RSS cache of the provider. Each item of the site's RSS feed
 * is read with `_get_title_and_url` and, when both title and link are
 * non-empty, handed to the cache's storage as one `(title, url)` entry.
 *
 * The storage behind `_addCacheEntry` and the poll gate that reads `minTime`
 * belong to the generic cache; here the stored entries are a sequence field.
 * So does the loop that hands the feed's items to `_parseItem`; it catches
 * nothing, so an item whose lookup raises ends the update.
 */
module KatCache {
  import opened Wrappers
  import opened KatItems

  /** The cache entry of a usable item: its title and its unescaped link. */
  function EntryOf(item: ItemNode): (string, string)
    requires Usable(item)
  {
    TitleAndUrl(item).value
  }

  /**
   * The entries that handing the items to `_parseItem` in feed order adds to
   * the cache: one per usable item, until an item whose lookup raises ends the
   * update. Every entry has a non-empty title and a non-empty link.
   */
  function Entries(items: seq<ItemNode>): (r: seq<(string, string)>)
    ensures |r| <= |items|
    ensures forall i :: 0 <= i < |r| ==> r[i].0 != "" && r[i].1 != ""
  {
    if items == [] || TitleAndUrl(items[0]).None? then []
    else (if Usable(items[0]) then [EntryOf(items[0])] else []) + Entries(items[1..])
  }

  /**
   * Reading one more item adds its entry, if any, after those already added,
   * unless an earlier item already raised.
   */
  lemma {:induction false} EntriesSnoc(items: seq<ItemNode>, item: ItemNode)
    ensures LookupsSucceed(items) ==> Entries(items + [item]) == Entries(items) + Entries([item])
    ensures !LookupsSucceed(items) ==> Entries(items + [item]) == Entries(items)
  {
    if items == [] {
      assert items + [item] == [item];
    } else {
      var s := items + [item];
      assert s[0] == items[0];
      assert s[1..] == items[1..] + [item];
      LookupsSucceedCons(items);
      if TitleAndUrl(items[0]).Some? {
        EntriesSnoc(items[1..], item);
      }
    }
  }

  /** No lookup raises exactly when the first succeeds and none of the rest raises. */
  lemma LookupsSucceedCons(items: seq<ItemNode>)
    requires items != []
    ensures LookupsSucceed(items) <==> TitleAndUrl(items[0]).Some? && LookupsSucceed(items[1..])
  {
    assert forall i :: 0 < i < |items| ==> items[i] == items[1..][i - 1];
  }

  /** Once the item at `i` raises, the items after it add nothing. */
  lemma {:induction false} EntriesStopAtFailure(items: seq<ItemNode>, i: nat)
    requires i < |items| && TitleAndUrl(items[i]).None?
    ensures Entries(items) == Entries(items[..i])
  {
    if i > 0 {
      assert items[1..][i - 1] == items[i];
      EntriesStopAtFailure(items[1..], i - 1);
      assert items[..i][0] == items[0];
      assert items[..i][1..] == items[1..][..i - 1];
    }
  }

  /** The title and link of each item. */
  function Links(items: seq<ItemNode>): (r: seq<(string, string)>)
    requires forall i :: 0 <= i < |items| ==> Usable(items[i])
    ensures |r| == |items|
    ensures forall i :: 0 <= i < |r| ==> r[i] == EntryOf(items[i])
  {
    if items == [] then [] else [EntryOf(items[0])] + Links(items[1..])
  }

  /**
   * When no lookup raises, the cache keeps the items the search keeps: its
   * entries are the titles and links of exactly the usable items, in the same
   * order.
   */
  lemma {:induction false} EntriesAreUsableItems(items: seq<ItemNode>)
    requires LookupsSucceed(items)
    ensures Entries(items) == Links(UsableItems(items))
  {
    if items != [] {
      var x, rest := items[0], items[1..];
      assert TitleAndUrl(x).Some?;
      LookupsSucceedCons(items);
      EntriesAreUsableItems(rest);
      assert items == [x] + rest;
      UsableItemsAppend([x], rest);
      assert [x][..0] == [];
      var head := if Usable(x) then [x] else [];
      assert UsableItems([x]) == head;
      LinksAppend(head, UsableItems(rest));
    }
  }

  /** Taking titles and links distributes over concatenation. */
  lemma LinksAppend(a: seq<ItemNode>, b: seq<ItemNode>)
    requires forall i :: 0 <= i < |a| ==> Usable(a[i])
    requires forall i :: 0 <= i < |b| ==> Usable(b[i])
    ensures forall i :: 0 <= i < |a + b| ==> Usable((a + b)[i])
    ensures Links(a + b) == Links(a) + Links(b)
  {
    assert forall i :: 0 <= i < |a + b| ==> (a + b)[i] == if i < |a| then a[i] else b[i - |a|];
  }

  class KatCache {
    /** The shortest interval between two polls of the feed, in minutes. */
    const minTime: int
    /** The `(title, url)` entries handed to the cache storage so far. */
    var entries: seq<(string, string)>

    constructor ()
      ensures minTime == 15
      ensures entries == []
    {
      minTime := 15;
      entries := [];
    }

    /**
     * `_parseItem`: add the item's title and link as an entry when both are
     * non-empty; an item without a `<title>` or `<enclosure>` element raises
     * (`lookupFailed`) and adds nothing.
     */
    method ParseItem(item: ItemNode) returns (lookupFailed: bool)
      modifies this
      ensures lookupFailed <==> TitleAndUrl(item).None?
      ensures entries == old(entries) + Entries([item])
    {
      var titleAndUrl := TitleAndUrl(item);
      assert [item][..0] == [];
      if titleAndUrl.None? {
        return true;
      }
      var (title, url) := titleAndUrl.value;
      if title == "" || url == "" {
        return false;
      }
      entries := entries + [(title, url)];
      return false;
    }
  }

}
