# KAT torrent provider: a verified model

This project models the KAT (kat.ph) torrent search provider of Sick Beard,
`sickbeard/providers/kat.py`. It covers what the provider computes, not the
HTTP requests it sends:

- **Search parameters.** `_get_season_search_strings` and `_get_episode_search_strings`
  build one parameter dictionary per search. They put in the show name and
  then either the season, both season and episode, or the air date. For a
  missing input they return an empty dictionary. `findSeasonResults` gives
  up at once for air-by-date shows.
- **Search URL.** `_doSearch` merges the caller's dictionary into the
  defaults `rss=1`, `field=size`, `order=desc`. It moves the show name, the
  season and the episode into the `usearch/` path as `%20`-separated tokens,
  drops the date, trims one trailing `%20`, and `urlencode`s what is left
  into the query string.
- **Fetching.** `getURL` turns each way a request can end into the text it
  returns: the body (decompressed for `gzip`, `x-gzip` and `deflate`), a
  fixed empty RSS feed for an HTTP 404, or `None` for every other failure.
- **Results.** `_get_title_and_url` reads an item's title and its
  enclosure link, with `&amp;` turned back into `&`. `_doSearch` keeps, in
  feed order, the items whose title and link are both non-empty.
  `KATCache._parseItem` adds a cache entry under the same condition.
- **Release names.** `_extract_name_from_filename` matches the
  case-insensitive pattern `(.*?)\.?(\[.*]|\d+\.TPB)\.torrent$`.

The model is split into these files:

- `wrappers.dfy`: `Option`.
- `text.dfy`: the Python 2 string operations the provider uses (`str.replace`, `str.endswith`, `str()` of an integer, UTF-8 encoding), the ampersand escaping a feed writer applies, and `Join`. The provider never calls `sep.join`; `Join` is the closed form in which the model states the search path and the `&`-separated query string.
- `urlcodec.dfy`: `urllib.quote`, `quote_plus`, `urlencode` and their decoders.
- `fetch.dfy`: the outcome mapping of `getURL`.
- `items.dfy`: feed items, `_get_title_and_url`, and the result loop of `_doSearch`.
- `search.dfy`: the parameter builders, the URL construction of `_doSearch` (a method that pops keys from a map and grows the URL string), `findSeasonResults`, and `_doSearch` as a whole.
- `cache.dfy`: the `KATCache` class, with its entries as a sequence field that `ParseItem` extends.
- `names.dfy`: `_extract_name_from_filename`.

Network access, XML parsing and decompression are not modelled. They are
function-typed parameters:
- `fetch` stands for `getURL` applied to the URL;
- `parse` stands for `parseString` followed by `getElementsByTagName('item')`;
- `gunzip` and `inflate` stand for the two decompressors.

Python 2 dictionaries have no specified order, so the order in which
`urlencode` visits the remaining keys is a parameter, `keyOrder`. It must
list every remaining key exactly once.

Python 2 byte strings are represented as `string` values whose characters
are all below 256.

**An item that lacks its title or enclosure element.** The model follows
the code. `_get_title_and_url` indexes `[0]` into the list of `<title>` and
`<enclosure>` elements, so for an item without one of them it raises
`IndexError`. That call sits outside the `try` of `_doSearch`, so the
exception propagates and the loop does not continue past such an item.
The model therefore gives the whole search the outcome `LookupFailed`
(`KatSearch.MissingEnclosureRaises`), and `KatCache.ParseItem` reports
`lookupFailed`. Only items whose elements are present but whose text is
empty are skipped.

## Model

| member | source | states |
|---|---|---|
| KatSearch.Merged | sickbeard/providers/kat.py:171-174 | The merged map has the keys of the defaults and of the caller's map. A key takes the caller's value when the caller gives one, and the default otherwise. |
| KatSearch.ShowNameToken | sickbeard/providers/kat.py:183 | The show-name token is `%22`, then the quoted name, then `%22`. |
| KatSearch.PathToken | sickbeard/providers/kat.py:183-189 | The token a popped key adds to the path. For the show name it is `%22`, the quoted name, then `%22` (from `ShowNameToken`). For a season or episode it is `key:` followed by `str()` of the value, as `FullSearchPath` spells out. The contract itself gives the length facts that `LastTokenEnd` needs: the show-name token is at least six characters longer than the name, and a `key:value` token is longer than the key and the value together. |
| KatSearch.SearchPath | sickbeard/providers/kat.py:178-198 | The path starts with `http://kat.ph/usearch/`. It is exactly that root when no show name, season or episode is given. |
| KatSearch.PathTokensPresent | sickbeard/providers/kat.py:182-189 | There are path tokens exactly when the map holds a show name, a season or an episode, and then their join is not empty. |
| KatSearch.QueryParams | sickbeard/providers/kat.py:171-192 | The query map holds exactly the keys of the defaults and of the caller's map, minus `show_name`, `season`, `episode` and `date`. The caller's values override the defaults. |
| KatSearch.SearchUrl | sickbeard/providers/kat.py:201 | The URL starts with the root and begins with `SearchPath` of the caller's map followed by `/?`. After that prefix comes a query string that parses back to the remaining keys with their `str()` values, in iteration order. |
| KatSearch.SearchResult | sickbeard/providers/kat.py:205-230 | The search fails exactly when data came back, is non-empty and parses, and some item's lookup raises. Every returned item is usable. |
| KatSearch.BuildSearchUrl | sickbeard/providers/kat.py:171-198 | The URL path built by merging the caller's map into the defaults, popping `show_name`, `season` and `episode` into the path, dropping `date`, and trimming one `%20` is `SearchPath` of the caller's map. The map left for the query string is `QueryParams`: the merged map without the consumed keys. |
| KatSearch.PopIntoPath | sickbeard/providers/kat.py:182-189 | Each `if key in params` step appends the key's token and a separator to the URL, and removes exactly that key from the map. |
| KatSearch.OpenPathSnoc | sickbeard/providers/kat.py:183-189 | Appending one more token and `%20` to the URL under construction gives the open path of the longer token list. |
| KatSearch.WellFormedSearch | sickbeard/providers/kat.py:171-174 | A map of byte-string keys and values (with a string show name) still meets the needs of `quote` and `urlencode` after the merge: the show name can be quoted and every remaining pair can be encoded. |
| KatSearch.PopOrder | sickbeard/providers/kat.py:182-189 | Removing `show_name` leaves the `season` token as it was, and removing `season` too leaves the `episode` token as it was, so the tokens come in the fixed order show name, season, episode. |
| KatSearch.RemoveConsumed | sickbeard/providers/kat.py:182-192 | After the three pops and the conditional `date` pop, the map equals the merged map minus `show_name`, `season`, `episode` and `date`. |
| KatSearch.TrimOpenPath | sickbeard/providers/kat.py:197-198 | Trimming one trailing `%20` from the `usearch/` root plus separator-terminated tokens gives the root followed by the tokens joined with `%20`. It leaves the bare root unchanged. |
| KatSearch.NotSeparatorEnded | sickbeard/providers/kat.py:197 | A string whose third-last character is not `%`, or whose last is not `0`, does not end in `%20`. |
| KatSearch.NumberTokenEnd | sickbeard/providers/kat.py:186-189 | A `season:`/`episode:` token carrying `str()` of an integer does not end in `%20`. |
| KatSearch.LastTokenEnd | sickbeard/providers/kat.py:182-189 | With numeric season and episode, the last path token is at least three characters long and does not end in `%20`. |
| KatSearch.NoTrailingSeparator | sickbeard/providers/kat.py:182-198 | With numeric season and episode, the path before `/?` never ends in `%20` once the single trailing separator is trimmed. |
| KatSearch.OneSeparatorTrimmed | sickbeard/providers/kat.py:197-198 | Only one separator is trimmed. A season given as the text `1%20` leaves the path still ending in `%20`. |
| KatSearch.NoParamsSearch | sickbeard/providers/kat.py:171-201 | Without parameters the path is exactly `http://kat.ph/usearch/` and the query map is exactly the defaults. |
| KatSearch.OnlyConsumedKeys | sickbeard/providers/kat.py:171-192 | A caller map holding only consumed keys leaves exactly the defaults for the query string. |
| KatSearch.PathOfTokens | sickbeard/providers/kat.py:178-198 | A path with one, two or three tokens is the root followed by the tokens with `%20` between them. |
| KatSearch.FullSearchPath | sickbeard/providers/kat.py:178-198 | With show name, season and episode, the path is the root, the show-name token, `%20`, `season:<value>`, `%20`, `episode:<value>`. |
| KatSearch.DateIgnored | sickbeard/providers/kat.py:191-192 | Adding a `date` changes neither the path nor the query map. |
| KatSearch.DefaultsInQuery | sickbeard/providers/kat.py:171 | `rss`, `field` and `order` always reach the query string. |
| KatSearch.SearchUrlQuery | sickbeard/providers/kat.py:201 | The query string parses back to the remaining keys with their `str()` values, in iteration order. It holds none of the consumed keys. |
| KatSearch.ShowNameParam | sickbeard/providers/kat.py:85 | The show-name parameter is a byte string with no `.` in it. For ASCII names it is the name with every `.` replaced by a space. |
| KatSearch.SeasonSearchStrings | sickbeard/providers/kat.py:78-90 | The result is an empty dictionary exactly when there is no show. Otherwise it is a one-element list whose map holds the show name, plus the season exactly when a season is given. |
| KatSearch.EpisodeSearchStrings | sickbeard/providers/kat.py:92-109 | The result is an empty dictionary exactly when there is no episode. Otherwise the map holds the show name plus the date for air-by-date shows, or both season and episode for other shows. |
| KatSearch.SeasonParamsWellFormed | sickbeard/providers/kat.py:78-90 | The season builder's map is acceptable to the URL builder. |
| KatSearch.EpisodeParamsWellFormed | sickbeard/providers/kat.py:92-109 | The episode builder's map is acceptable to the URL builder when the air date is ASCII. |
| KatSearch.SeasonTokens | sickbeard/providers/kat.py:78-90 | A season search has the quoted show name as its first path token, then `season:<N>` when a season is given, and nothing more. |
| KatSearch.DatedEpisodeTokens | sickbeard/providers/kat.py:101-102 | An air-by-date episode search has the quoted show name as its only path token. |
| KatSearch.NumberedEpisodeTokens | sickbeard/providers/kat.py:103-105 | Any other episode search has the quoted show name, `season:<N>` and `episode:<M>` as its path tokens. |
| KatSearch.SeasonSearchPath | sickbeard/providers/kat.py:78-90 | A season search's path is the quoted show name, followed by `%20season:<N>` when a season is given. Its query map is the defaults, and its path has no trailing `%20`. |
| KatSearch.EpisodeSearchPath | sickbeard/providers/kat.py:92-109 | An episode search's path is the quoted show name plus `%20season:<N>%20episode:<M>`, or the show name alone for an air-by-date show. Its query map is the defaults, and its path has no trailing `%20`. |
| KatSearch.FindSeasonResults | sickbeard/providers/kat.py:67-77 | The result is the empty answer exactly for air-by-date shows. Every other show is delegated with the same show and season. |
| KatSearch.DoSearch | sickbeard/providers/kat.py:169-230 | The outcome is `SearchResult` of what the fetch returns for the search URL: no items for missing or empty data or an unparseable feed, else the usable items or the lookup failure. |
| KatSearch.SearchResultSound | sickbeard/providers/kat.py:205-230 | A search that does not fail returns no items when the data is missing or empty or the feed does not parse. When the feed parses, it returns exactly `UsableItems` of its items, in feed order: an item is returned exactly when it is in the feed and usable. |
| KatSearch.NotFoundYieldsNoItems | sickbeard/providers/kat.py:144-147 | An HTTP 404 yields an empty result list, given a parser that reads the synthetic feed as having no items. |
| KatSearch.FailureYieldsNoItems | sickbeard/providers/kat.py:148-165 | Every other transport failure yields an empty result list. |
| KatSearch.OneCompleteItem | sickbeard/providers/kat.py:218-230 | From a complete item and one with an empty link, only the complete one is returned, and its link is unescaped. |
| KatSearch.MissingEnclosureRaises | sickbeard/providers/kat.py:220-222 | An item without an `<enclosure>` element makes the whole search fail instead of being skipped. |
| KatItems.TitleAndUrl | sickbeard/providers/kat.py:232-238 | The lookup fails exactly when the title or enclosure element is missing. Otherwise the title is returned as it is, and the link with `&amp;` undone. |
| KatItems.TitleAndUrlRoundTrip | sickbeard/providers/kat.py:236 | A link that a feed writer escaped comes back exactly. |
| KatItems.TitleAndUrlPlainLink | sickbeard/providers/kat.py:236 | A link with no `&amp;` is returned unchanged. |
| KatItems.Usable | sickbeard/providers/kat.py:222-226 | An item is kept exactly when its raw title and raw enclosure link are present and non-empty. |
| KatItems.LookupsSucceed | sickbeard/providers/kat.py:235-236 | No `_get_title_and_url` call on the feed raises exactly when every item has both its `<title>` and its `<enclosure>` element. |
| KatItems.UsableItems | sickbeard/providers/kat.py:220-228 | The kept items are usable, and there are no more of them than items in the feed. |
| KatItems.UsableItemsAppend | sickbeard/providers/kat.py:220-228 | Filtering distributes over concatenation, so kept items stay in feed order. |
| KatItems.UsableItemsMembers | sickbeard/providers/kat.py:220-228 | The kept items are exactly the usable items of the feed, and there are no more of them than items. |
| KatItems.UsableItemsAll | sickbeard/providers/kat.py:220-228 | A feed of usable items is kept whole. |
| KatItems.FilterItems | sickbeard/providers/kat.py:218-230 | The loop returns the usable items in order when every lookup succeeds, and the lookup failure otherwise. |
| KatCache.KatCache.constructor | sickbeard/providers/kat.py:268-273 | A new cache has `minTime` 15 and no entries. |
| KatCache.KatCache.ParseItem | sickbeard/providers/kat.py:285-304 | The method fails exactly when the lookup raises. Otherwise it appends the item's `(title, url)` entry exactly when both are non-empty. |
| KatCache.Entries | sickbeard/providers/kat.py:285-304 | Parsing the items in turn adds at most one entry per item, stopping at the first lookup that raises. Every entry has a non-empty title and a non-empty link. |
| KatCache.EntriesStopAtFailure | sickbeard/providers/kat.py:287 | Once the item at `i` raises in its lookup, the items from `i` on add no entries. |
| KatCache.EntriesSnoc | sickbeard/providers/kat.py:285-304 | While no lookup has raised, parsing one more item adds its entry, if any, after those already added. Once a lookup has raised, later items add nothing. |
| KatCache.Links | sickbeard/providers/kat.py:287 | The title and link of each usable item, one per item, in order. |
| KatCache.EntriesAreUsableItems | sickbeard/providers/kat.py:285-304 | When no lookup raises, the entries `_parseItem` adds for a feed are the titles and links of exactly the items the loop of `_doSearch` (kat.py:220-228) keeps, in the same order. |
| KatFetch.GetUrl | sickbeard/providers/kat.py:124-165 | An HTTP 404 gives exactly the empty RSS feed, and every other failure gives `None`. A `gzip`/`x-gzip` body is gunzipped, a `deflate` body inflated, and any other body returned as read. |
| KatFetch.GzipRoundTrip | sickbeard/providers/kat.py:129-135 | A gzip-encoded body comes back as the original content when the decompressor inverts the compressor. |
| KatNames.RestMatches | sickbeard/providers/kat.py:241-243 | The rest of the pattern after the lazy group, `\.?(\[.*]\|\d+\.TPB)\.torrent$`, needs at least ten characters; `[].torrent` is the shortest text it matches. |
| KatNames.NameSplit | sickbeard/providers/kat.py:241-243 | A split of the file name that the pattern accepts has a newline-free lazy group and leaves at least ten characters after it. |
| KatNames.ExtractName | sickbeard/providers/kat.py:240-246 | A name is returned exactly when some split of the file name matches the pattern. The name is the prefix of the shortest such split. |
| KatNames.FindSplit | sickbeard/providers/kat.py:243 | Trying the lazy group at each length from `i` on finds the first matching split, or none. |
| KatNames.NewlineBlocks | sickbeard/providers/kat.py:243 | The lazy group cannot extend past a newline, since `.` does not match one. |
| KatNames.RestSuffix | sickbeard/providers/kat.py:241 | A matching rest puts `.torrent` (any case, optionally followed by a final newline) at the end of the file name. |
| KatNames.TailSuffix | sickbeard/providers/kat.py:241 | A match of the pattern after the optional dot puts `.torrent`, in any case, at the end of the file name, or just before a final newline. |
| KatNames.NameRequiresTorrentSuffix | sickbeard/providers/kat.py:241-246 | No name is extracted unless the file name ends in `.torrent`, in any case. |
| KatNames.TpbNumberEnd | sickbeard/providers/kat.py:241 | A `\d+\.TPB` tag ends in `b` or `B`. |
| KatNames.TpbNumberDigits | sickbeard/providers/kat.py:241 | A `\d+\.TPB` tag has no dot before its `.TPB`. |
| KatNames.NoRestMatchFromTags | sickbeard/providers/kat.py:241 | A rest that neither ends in a newline nor offers a matching tag does not match. |
| KatNames.NoRestMatch | sickbeard/providers/kat.py:241 | A rest whose candidate tags start with no `[` and end in no `b` does not match. |
| KatNames.NoRestMatchTpb | sickbeard/providers/kat.py:241 | A rest whose candidate digit runs contain a dot, and whose tag does not end in `]`, does not match. |
| KatNames.BracketTagName | sickbeard/providers/kat.py:240-246 | For `name.[tag].torrent` (any case) with no `[` in the name, the extracted name is exactly `name`. |
| KatNames.TpbTagName | sickbeard/providers/kat.py:240-246 | For `name.<digits>.TPB.torrent` (any case), the extracted name is exactly `name`, whatever it holds. |
| KatNames.MinimalSplit | sickbeard/providers/kat.py:243-245 | The shortest matching split is the one reported. |
| UrlCodec.Str | sickbeard/providers/kat.py:186-189 | `str()` of a well-formed value is a byte string. For an integer it is non-empty and ends in a digit. |
| UrlCodec.QuoteWith | sickbeard/providers/kat.py:183 | `quote` leaves only always-safe characters, safe characters and `%`, and never shortens its input. |
| UrlCodec.Quote | sickbeard/providers/kat.py:183 | `quote` with its default safe `/` writes only always-safe characters, `/` and `%`, and `unquote` gives the input back. |
| UrlCodec.QuoteWithAppend | sickbeard/providers/kat.py:183 | Quoting distributes over concatenation. |
| UrlCodec.QuoteWithCons | sickbeard/providers/kat.py:183 | `quote` writes the first byte of its input first, then quotes the rest. |
| UrlCodec.UnquoteQuote | sickbeard/providers/kat.py:183 | `unquote` undoes `quote` whenever `%` is not declared safe. |
| UrlCodec.PercentEncode | sickbeard/providers/kat.py:183 | A byte is encoded as `%` followed by two hex digits of its value. |
| UrlCodec.HexValueOfDigit | sickbeard/providers/kat.py:183 | Reading a hex digit back gives its value. |
| UrlCodec.QuotePlus | sickbeard/providers/kat.py:201 | `quote_plus` writes only always-safe characters, `%` and `+`, so never `&` or `=`, and `unquote_plus` gives the input back. |
| UrlCodec.Urlencode | sickbeard/providers/kat.py:201 | `urlencode` of an empty map is empty. Otherwise its query string parses back to exactly the keys with their `str()` values, in iteration order. |
| UrlCodec.EncodedPairsParse | sickbeard/providers/kat.py:201 | A non-empty `&`-join of encoded pairs parses back to their keys and `str()` values, in order. |
| UrlCodec.EncodePairs | sickbeard/providers/kat.py:201 | `urlencode` writes one `key=value` part per key, in iteration order. |
| UrlCodec.Pairs | sickbeard/providers/kat.py:201 | The pairs `urlencode` writes, as keys with their `str()` values, in iteration order. |
| UrlCodec.EncodePair | sickbeard/providers/kat.py:201 | One `key=value` part contains no `&`. Splitting it at its first `=` and applying `unquote_plus` to both halves gives back the key and `str()` of the value. |
| UrlCodec.QuoteCharForm | sickbeard/providers/kat.py:183 | `quote` writes a byte as itself exactly when it is always safe or in the safe set, and otherwise as three characters starting with `%`. Either way, unquoting gives back the byte. |
| UrlCodec.SplitJoin | sickbeard/providers/kat.py:201 | Splitting a `&`-joined list of parts that have no `&` in them gives back the parts. |
| Text.ReplaceAll | sickbeard/providers/kat.py:85 | `replace` leaves a string with no occurrence of the pattern unchanged. A replacement no longer than the pattern never lengthens the string, and one of equal length keeps its length. |
| Text.ReplaceCharAt | sickbeard/providers/kat.py:85 | Replacing one character by another keeps the length and changes exactly the positions holding that character. |
| Text.ReplaceCharBack | sickbeard/providers/kat.py:201 | Replacing `a` by `b` and then `b` back by `a` restores a string that had no `b`. |
| Text.JoinSnoc | sickbeard/providers/kat.py:183-189 | Appending a token to the path adds the separator and the token. |
| Text.JoinEndsWithLast | sickbeard/providers/kat.py:197 | A non-empty join ends with its last part. |
| Text.NatToDecimal | sickbeard/providers/kat.py:186-189 | `str()` of a natural number is a non-empty run of digits without leading zeros. |
| Text.IntToDecimal | sickbeard/providers/kat.py:186-189 | `str()` of an integer is digits, possibly after a leading `-`, and ends in a digit. |
| Text.DecimalRoundTrip | sickbeard/providers/kat.py:186-189 | The decimal form of a natural number reads back as that number. |
| Text.Utf8Char | sickbeard/providers/kat.py:85 | One character encodes to one to four bytes. It stays itself exactly when it is ASCII, and its bytes are all at least `0x80` otherwise. |
| Text.Utf8Encode | sickbeard/providers/kat.py:85 | `.encode('utf-8')` gives a byte string no shorter than the text, and ASCII text encodes to itself. |
| Text.Utf8EncodeAvoids | sickbeard/providers/kat.py:85 | An ASCII character absent from the text is absent from its encoding. |
| Text.UnescapeAmpersands | sickbeard/providers/kat.py:236 | The unescaped link is empty exactly when the raw link is, is never longer than it, and equals it when it holds no `&amp;`. |
| Text.UnescapeEscape | sickbeard/providers/kat.py:236 | Undoing `&amp;` restores a text whose ampersands were escaped. |

## Left out

- The HTTP request itself is I/O and is not modelled: the opener, the `User-Agent` and `Accept-Encoding` headers, `opener.open`, `geturl` and `read`. Its result is an input to `KatFetch.GetUrl`, the outcome of the request.
- KatFetch.GetUrl: gzip and zlib decompression are foreign library calls and are not modelled. They are the parameters `gunzip` and `inflate`, and `None` from one of them stands for the exception the catch-all handler turns into `None`.
- XML parsing (`parseString`, `getElementsByTagName`, `helpers.get_xml_text`) is a library call and is not modelled. A parsed feed is a sequence of `ItemNode` values, and parsing is the parameter `parse`.
- KatSearch.ShowNameParam: `helpers.sanitizeSceneName` is not part of this model, so its result is an input, the field `sceneName` of `Show`. That result is taken as Unicode text. A byte string with non-ASCII bytes, on which Python 2's `.encode('utf-8')` would raise, is not modelled.
- `getQuality` (`Quality.nameQuality`) is an external helper and is not modelled.
- `generic.TorrentProvider.findSeasonResults` is not part of this model. `KatSearch.FindSeasonResults` answers `DelegateToGeneric` where the provider calls it.
- `tvcache.TVCache` is not part of this model. That covers the poll gating that reads `minTime`, the storage behind `_addCacheEntry` (modelled as the `entries` sequence), and `_getRSSData`, a fetch of `http://kat.ph/tv/?rss=1` through `getURL`. It also covers the loop that hands the feed's items to `_parseItem`. `KatCache.Entries` assumes that this loop, like the loop of `_doSearch`, catches nothing, so the first item whose lookup raises ends the update.
- `isEnabled`, `imageName`, `supportsBacklog` and the module-level `provider` singleton are configuration reads and wiring. They are not modelled.
- Logging is not modelled. The log messages have no other effect, except that each one joins a Unicode literal to a byte string, which Python 2 decodes with its default codec.
- KatSearch.DoSearch, KatSearch.SearchResult and KatFetch.GetUrl: the model assumes that the log messages at kat.py:149-164, 203, 215 and 225 never raise. These messages echo the URL or the fetched data, and with an ASCII default codec they raise `UnicodeDecodeError` when that text holds a byte of 0x80 or more. Concretely, the model does not capture that:
  - a `Text` season or episode with such a byte makes the search raise before the fetch (kat.py:203);
  - such a body that fails to parse makes the search raise instead of returning `[]` (kat.py:215);
  - in such a feed, an item with an empty title or link ends the search instead of being skipped (kat.py:225);
  - on such a URL, every failure other than a 404 raises instead of returning `None` (kat.py:149-164), since each handler's message echoes the URL.
  The model behaves as under a default codec that decodes these texts. The `date` warning at kat.py:192 is the one message the model does account for, through the ASCII date that `KatSearch.BuildSearchUrl` requires.
- KatNames.ExtractName: the debug message at kat.py:242 joins a Unicode literal to the file name before `re.match` runs. Under an ASCII default codec a byte-string file name with a byte of 0x80 or more raises `UnicodeDecodeError` there. The model assumes that message never raises, so it returns the pattern's result for every file name.
- KatSearch.DoSearch: the order in which Python 2 iterates a dictionary is unspecified, so the rendered query string is stated for a given enumeration `keyOrder` of the remaining keys. It is not stated for one fixed order.
- KatSearch.BuildSearchUrl: the model requires byte-string keys and values, a string show name and an ASCII date. It requires these because otherwise `quote`, the string concatenations or `urlencode` raise, and the model does not describe that exception path.
- KatSearch.NoTrailingSeparator: the claim is proved only for numeric season and episode, as the builders produce them. A text value ending in `%20` keeps a separator (`KatSearch.OneSeparatorTrimmed`).
