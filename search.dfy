/**
 * The search side of `KATProvider`: the parameter dictionaries built for a
 * season or an episode, the search URL built from such a dictionary, and the
 * search that fetches that URL and filters the items of the feed (the items
 * themselves are those of `KatItems`).
 *
 * Fetching and XML parsing are parameters of the search.
 */
module KatSearch {
  import opened Wrappers
  import opened Text
  import opened UrlCodec
  import opened KatItems
  import KatFetch

  /** A parameter dictionary. */
  type Params = map<string, Value>

  const BaseUrl: string := "http://kat.ph/"
  const SearchRoot: string := BaseUrl + "usearch/"
  /** An encoded space, which separates the `name:value` tokens of the search path. */
  const Separator: string := "%20"

  /** The query parameters every search starts from: RSS output, sorted by size, descending. */
  const Defaults: Params := map["rss" := Text("1"), "field" := Text("size"), "order" := Text("desc")]

  /** The keys taken out of the dictionary while the path is built. */
  const ConsumedKeys: set<string> := {"show_name", "season", "episode", "date"}

  /**
   * What the URL builder needs of its dictionary for no exception to arise:
   * keys and string values are byte strings (`urlencode` and `quote` work on
   * bytes), the show name is a string (it is concatenated with `"`), and the
   * date is ASCII text (it is concatenated with a unicode log message).
   */
  predicate WellFormedParams(p: Params) {
    && EncodableParams(p)
    && ("show_name" in p ==> p["show_name"].Text?)
    && ("date" in p ==> p["date"].Text? && IsAscii(p["date"].s))
  }

  // ---------------------------------------------------------------------
  // The search URL

  /** `params.update(search_params)` applied to the defaults. */
  function Merged(searchParams: Params): (r: Params)
    ensures r.Keys == Defaults.Keys + searchParams.Keys
    ensures forall k :: k in r ==> r[k] == if k in searchParams then searchParams[k] else Defaults[k]
  {
    Defaults + searchParams
  }

  /** The exact-phrase token: the show name in double quotes, percent-encoded. */
  function ShowNameToken(name: string): (r: string)
    requires IsByteString(name)
    ensures r == "%22" + Quote(name) + "%22"
  {
    ByteStringConcat("\"", name);
    ByteStringConcat("\"" + name, "\"");
    QuoteWithAppend("\"", name, "/");
    QuoteWithAppend("\"" + name, "\"", "/");
    assert Quote("\"") == "%22";
    Quote("\"" + name + "\"")
  }

  /** May `key` be moved into the path: a show name must be a byte string, to be quoted. */
  predicate Poppable(p: Params, key: string) {
    key in p && key == "show_name" ==> p[key].Text? && IsByteString(p[key].s)
  }

  /** The token a key contributes to the path: the quoted show name, or `key:value`. */
  function PathToken(key: string, v: Value): (r: string)
    requires key == "show_name" ==> v.Text? && IsByteString(v.s)
    ensures key == "show_name" ==> |r| >= 6 + |v.s|
    ensures key != "show_name" ==> |r| > |key| + |Str(v)|
  {
    if key == "show_name" then ShowNameToken(v.s) else key + ":" + Str(v)
  }

  /** The token of `key`, if the dictionary holds it. */
  function TokenIf(p: Params, key: string): seq<string>
    requires Poppable(p, key)
  {
    if key in p then [PathToken(key, p[key])] else []
  }

  /** The path tokens of a dictionary, in the fixed order show name, season, episode. */
  function PathTokens(p: Params): seq<string>
    requires Poppable(p, "show_name")
  {
    TokenIf(p, "show_name") + TokenIf(p, "season") + TokenIf(p, "episode")
  }

  /** The path of the search URL: the search root followed by the tokens, separated by `%20`. */
  function SearchPath(searchParams: Params): (r: string)
    requires Poppable(searchParams, "show_name")
    ensures StartsWith(r, SearchRoot)
    ensures r == SearchRoot <==>
      "show_name" !in searchParams && "season" !in searchParams && "episode" !in searchParams
  {
    var m := Merged(searchParams);
    assert "show_name" in m <==> "show_name" in searchParams;
    assert "season" in m <==> "season" in searchParams;
    assert "episode" in m <==> "episode" in searchParams;
    PathTokensPresent(m);
    PrefixExtends(SearchRoot, Join(PathTokens(m), Separator));
    SearchRoot + Join(PathTokens(m), Separator)
  }

  /** A dictionary has path tokens exactly when it holds a path key, and then their join is not empty. */
  lemma PathTokensPresent(m: Params)
    requires Poppable(m, "show_name")
    ensures PathTokens(m) == [] <==> "show_name" !in m && "season" !in m && "episode" !in m
    ensures PathTokens(m) != [] ==> Join(PathTokens(m), Separator) != ""
  {
    var tokens := PathTokens(m);
    PathTokensSplit(m);
    if tokens != [] {
      var last := tokens[|tokens| - 1];
      if "episode" in m {
        TokenIfPresent(m, "episode");
        assert last == "episode:" + Str(m["episode"]);
      } else if "season" in m {
        TokenIfPresent(m, "season");
        assert last == "season:" + Str(m["season"]);
      } else {
        TokenIfPresent(m, "show_name");
        assert last == ShowNameToken(m["show_name"].s);
      }
      JoinEndsWithLast(tokens, Separator);
    }
  }

  /** The dictionary left for the query string once the path tokens and the date are taken out. */
  function QueryParams(searchParams: Params): (r: Params)
    ensures r.Keys == (Defaults.Keys + searchParams.Keys) - ConsumedKeys
    ensures forall k :: k in r ==> r[k] == if k in searchParams then searchParams[k] else Defaults[k]
  {
    Merged(searchParams) - ConsumedKeys
  }

  /** The complete search URL, for the order in which the dictionary yields its remaining keys. */
  function SearchUrl(searchParams: Params, keyOrder: seq<string>): (r: string)
    requires WellFormedParams(searchParams)
    requires IsEnumeration(keyOrder, QueryParams(searchParams).Keys)
    ensures StartsWith(r, SearchRoot)
    ensures |SearchPath(searchParams)| + 2 <= |r|
    ensures r[..|SearchPath(searchParams)| + 2] == SearchPath(searchParams) + "/?"
    ensures ParseQuery(r[|SearchPath(searchParams)| + 2..]) == Pairs(QueryParams(searchParams), keyOrder)
  {
    WellFormedSearch(searchParams);
    SearchUrlQuery(searchParams, keyOrder);
    var path := SearchPath(searchParams);
    var query := Urlencode(QueryParams(searchParams), keyOrder);
    StartsWithAppend(path, SearchRoot, "/?");
    StartsWithAppend(path + "/?", SearchRoot, query);
    assert (path + "/?" + query)[|path| + 2..] == query;
    assert (path + "/?" + query)[..|path| + 2] == path + "/?";
    path + "/?" + query
  }

  /** A path under construction: the search root, each token so far followed by a separator. */
  function OpenPath(tokens: seq<string>): string {
    SearchRoot + (if tokens == [] then "" else Join(tokens, Separator) + Separator)
  }

  /** Appending a token and a separator to an open path on any prefix extends the path by both. */
  lemma PrefixOpenSnoc(prefix: string, tokens: seq<string>, token: string, sep: string)
    ensures prefix + (if tokens + [token] == [] then "" else Join(tokens + [token], sep) + sep)
         == prefix + (if tokens == [] then "" else Join(tokens, sep) + sep) + token + sep
  {
    JoinSnoc(tokens, token, sep);
  }

  /** Pushing one more token onto the path appends it and a separator. */
  lemma OpenPathSnoc(tokens: seq<string>, token: string)
    ensures OpenPath(tokens + [token]) == OpenPath(tokens) + token + Separator
  {
    PrefixOpenSnoc(SearchRoot, tokens, token, Separator);
  }

  /**
   * One `if key in params` block of `_doSearch`: pop the key and append its
   * token and a separator to the URL.
   */
  method PopIntoPath(searchUrl: string, params: Params, key: string, ghost tokens: seq<string>)
    returns (searchUrl': string, params': Params)
    requires searchUrl == OpenPath(tokens)
    requires Poppable(params, key)
    ensures searchUrl' == OpenPath(tokens + TokenIf(params, key))
    ensures params' == params - {key}
  {
    if key in params {
      var value := params[key];
      params' := params - {key};
      var token: string;
      if key == "show_name" {
        ByteStringConcat("\"", value.s);
        ByteStringConcat("\"" + value.s, "\"");
        token := Quote("\"" + value.s + "\"");
      } else {
        token := key + ":" + Str(value);
      }
      OpenPathSnoc(tokens, token);
      searchUrl' := searchUrl + token + Separator;
    } else {
      searchUrl', params' := searchUrl, params;
      assert tokens + [] == tokens;
    }
  }

  /** A well-formed dictionary meets what the path and the query string need of it. */
  lemma WellFormedSearch(searchParams: Params)
    requires WellFormedParams(searchParams)
    ensures Poppable(searchParams, "show_name") && Poppable(Merged(searchParams), "show_name")
    ensures EncodableParams(QueryParams(searchParams))
  {
    var q := QueryParams(searchParams);
    forall k | k in q ensures IsByteString(k) && WellFormedValue(q[k]) {
      if k !in searchParams {
        assert k == "rss" || k == "field" || k == "order";
      }
    }
  }

  /** Popping one path key leaves the tokens of the later keys as they were. */
  lemma PopOrder(m: Params)
    requires Poppable(m, "show_name")
    ensures Poppable(m - {"show_name"}, "season")
    ensures TokenIf(m - {"show_name"}, "season") == TokenIf(m, "season")
    ensures Poppable(m - {"show_name"} - {"season"}, "episode")
    ensures TokenIf(m - {"show_name"} - {"season"}, "episode") == TokenIf(m, "episode")
  {
  }

  /** Popping the three path keys and then the date leaves the dictionary without the consumed keys. */
  lemma RemoveConsumed(m: Params)
    ensures var rest := m - {"show_name"} - {"season"} - {"episode"};
      (if "date" in rest then rest - {"date"} else rest) == m - ConsumedKeys
  {
    var rest := m - {"show_name"} - {"season"} - {"episode"};
    var r := if "date" in rest then rest - {"date"} else rest;
    assert r.Keys == m.Keys - ConsumedKeys;
  }

  /** Trimming one trailing separator from an open path leaves the root and the joined tokens. */
  lemma TrimOpenPath(tokens: seq<string>)
    ensures var open := OpenPath(tokens);
      (if EndsWith(open, Separator) then open[..|open| - |Separator|] else open) == SearchRoot + Join(tokens, Separator)
  {
    var open := OpenPath(tokens);
    if tokens == [] {
      assert open == SearchRoot;
      assert SearchRoot[|SearchRoot| - 1] == '/';
      assert !EndsWith(open, Separator);
    } else {
      var body := SearchRoot + Join(tokens, Separator);
      assert open == body + Separator;
      assert open[|open| - |Separator|..] == Separator;
      assert open[..|open| - |Separator|] == body;
    }
  }

  /**
   * `_doSearch`'s URL construction: merge the caller's dictionary into the
   * defaults, move show name, season and episode into the path, drop the date,
   * trim one trailing separator. Returns the path and the dictionary that
   * `urlencode` turns into the query string.
   */
  method BuildSearchUrl(searchParams: Params) returns (searchUrl: string, query: Params)
    requires WellFormedParams(searchParams)
    ensures searchUrl == SearchPath(searchParams)
    ensures query == QueryParams(searchParams)
  {
    var params := Defaults;
    if searchParams != map[] {
      params := params + searchParams;
    }
    ghost var merged := params;
    assert merged == Merged(searchParams);
    WellFormedSearch(searchParams);

    PopOrder(merged);
    RemoveConsumed(merged);
    assert OpenPath([]) == SearchRoot;
    assert [] + TokenIf(merged, "show_name") == TokenIf(merged, "show_name");
    searchUrl := SearchRoot;
    searchUrl, params := PopIntoPath(searchUrl, params, "show_name", []);
    searchUrl, params := PopIntoPath(searchUrl, params, "season", TokenIf(merged, "show_name"));
    searchUrl, params := PopIntoPath(searchUrl, params, "episode",
                                     TokenIf(merged, "show_name") + TokenIf(merged, "season"));
    if "date" in params {
      params := params - {"date"};
    }
    ghost var tokens := PathTokens(merged);

    TrimOpenPath(tokens);
    if EndsWith(searchUrl, Separator) {
      searchUrl := searchUrl[..|searchUrl| - |Separator|];
    }
    query := params;
  }

  /** If `t` ends `s` and `u` is no longer than `t`, then `u` ends `s` exactly when it ends `t`. */
  lemma EndsWithThrough(s: string, t: string, u: string)
    requires EndsWith(s, t) && |u| <= |t|
    ensures EndsWith(s, u) <==> EndsWith(t, u)
  {
    assert s[|s| - |u|..] == t[|t| - |u|..];
  }

  /** A token whose third-last character is not `%` does not end in a separator. */
  lemma NotSeparatorEnded(t: string)
    requires |t| >= 3 && (t[|t| - 3] != '%' || t[|t| - 1] != '0')
    ensures !EndsWith(t, Separator)
  {
    assert t[|t| - 3..][0] == t[|t| - 3];
    assert t[|t| - 3..][2] == t[|t| - 1];
  }

  /** A `name:<number>` token ends in digits preceded only by letters and `:`. */
  lemma NumberTokenEnd(key: string, n: int)
    requires |key| >= 2 && '%' !in key
    ensures !EndsWith(key + IntToDecimal(n), Separator)
  {
    var t := key + IntToDecimal(n);
    var d := IntToDecimal(n);
    if |d| >= 3 {
      assert t[|t| - 3] == d[|d| - 3];
    } else {
      assert t[|t| - 3] == key[|key| + |d| - 3];
    }
    NotSeparatorEnded(t);
  }

  /** With numeric season and episode, the last path token is at least three characters long and not a separator. */
  lemma LastTokenEnd(m: Params)
    requires Poppable(m, "show_name")
    requires "season" in m ==> m["season"].Number?
    requires "episode" in m ==> m["episode"].Number?
    requires PathTokens(m) != []
    ensures var tokens := PathTokens(m); |tokens[|tokens| - 1]| >= 3 && !EndsWith(tokens[|tokens| - 1], Separator)
  {
    var tokens := PathTokens(m);
    var last := tokens[|tokens| - 1];
    PathTokensSplit(m);
    if "episode" in m {
      TokenIfPresent(m, "episode");
      assert last == "episode:" + Str(m["episode"]);
      NumberTokenEnd("episode:", m["episode"].n);
    } else if "season" in m {
      TokenIfPresent(m, "season");
      assert last == "season:" + Str(m["season"]);
      NumberTokenEnd("season:", m["season"].n);
    } else {
      TokenIfPresent(m, "show_name");
      var name := m["show_name"].s;
      assert last == ShowNameToken(name);
      NotSeparatorEnded(last);
    }
  }

  /** A prefix followed by joined parts ends with the last part. */
  lemma PrefixJoinEnd(prefix: string, parts: seq<string>, sep: string)
    requires parts != []
    ensures EndsWith(prefix + Join(parts, sep), parts[|parts| - 1])
  {
    var path := prefix + Join(parts, sep);
    var j := Join(parts, sep);
    JoinEndsWithLast(parts, sep);
    assert path[|path| - |j|..] == j;
    EndsWithThrough(path, j, parts[|parts| - 1]);
  }

  /**
   * With numeric season and episode, the trimmed path never ends in a
   * separator: every token ends in `%22` or in the digits of a number.
   */
  lemma NoTrailingSeparator(searchParams: Params)
    requires Poppable(searchParams, "show_name")
    requires "season" in searchParams ==> searchParams["season"].Number?
    requires "episode" in searchParams ==> searchParams["episode"].Number?
    ensures !EndsWith(SearchPath(searchParams), Separator)
  {
    var m := Merged(searchParams);
    var tokens := PathTokens(m);
    var path := SearchPath(searchParams);
    if tokens == [] {
      assert path == SearchRoot;
      assert SearchRoot[|SearchRoot| - 3] == 'c';
      NotSeparatorEnded(path);
    } else {
      LastTokenEnd(m);
      PrefixJoinEnd(SearchRoot, tokens, Separator);
      EndsWithThrough(path, tokens[|tokens| - 1], Separator);
    }
  }

  /** The token of a present key: the quoted show name, or `key:value`. */
  lemma TokenIfPresent(m: Params, key: string)
    requires key in m && Poppable(m, key)
    ensures key == "show_name" ==> TokenIf(m, key) == [ShowNameToken(m[key].s)]
    ensures key == "season" ==> TokenIf(m, key) == ["season:" + Str(m[key])]
    ensures key == "episode" ==> TokenIf(m, key) == ["episode:" + Str(m[key])]
  {
    assert "season" + ":" == "season:" && "episode" + ":" == "episode:";
  }

  /** The tokens of a dictionary, with the path keys it lacks contributing nothing. */
  lemma PathTokensSplit(m: Params)
    requires Poppable(m, "show_name")
    ensures PathTokens(m) == TokenIf(m, "show_name") + TokenIf(m, "season") + TokenIf(m, "episode")
    ensures "show_name" !in m ==> TokenIf(m, "show_name") == []
    ensures "season" !in m ==> TokenIf(m, "season") == []
    ensures "episode" !in m ==> TokenIf(m, "episode") == []
  {
  }

  /** `sep.join` of two parts. */
  lemma Join2(a: string, b: string, sep: string)
    ensures Join([a, b], sep) == a + sep + b
  {
    assert [a, b][1..] == [b];
  }

  /** `sep.join` of three parts. */
  lemma Join3(a: string, b: string, c: string, sep: string)
    ensures Join([a, b, c], sep) == a + sep + b + sep + c
  {
    assert [a, b, c][1..] == [b, c];
    Join2(b, c, sep);
  }

  /** A prefix followed by one, two or three joined parts, written out. */
  lemma PrefixJoin(prefix: string, parts: seq<string>, sep: string)
    ensures |parts| == 1 ==> prefix + Join(parts, sep) == prefix + parts[0]
    ensures |parts| == 2 ==> prefix + Join(parts, sep) == prefix + parts[0] + sep + parts[1]
    ensures |parts| == 3 ==> prefix + Join(parts, sep) == prefix + parts[0] + sep + parts[1] + sep + parts[2]
  {
    if |parts| == 2 {
      assert parts == [parts[0], parts[1]];
      Join2(parts[0], parts[1], sep);
    } else if |parts| == 3 {
      assert parts == [parts[0], parts[1], parts[2]];
      Join3(parts[0], parts[1], parts[2], sep);
    }
  }

  /** The path of a dictionary with one, two or three tokens, written out. */
  lemma PathOfTokens(searchParams: Params, tokens: seq<string>)
    requires Poppable(searchParams, "show_name")
    requires PathTokens(Merged(searchParams)) == tokens
    ensures |tokens| == 1 ==> SearchPath(searchParams) == SearchRoot + tokens[0]
    ensures |tokens| == 2 ==> SearchPath(searchParams) == SearchRoot + tokens[0] + Separator + tokens[1]
    ensures |tokens| == 3 ==>
      SearchPath(searchParams) == SearchRoot + tokens[0] + Separator + tokens[1] + Separator + tokens[2]
  {
    PrefixJoin(SearchRoot, tokens, Separator);
  }

  /** The trim removes one separator only: a season text ending in `%20` leaves one behind. */
  lemma OneSeparatorTrimmed()
    ensures EndsWith(SearchPath(map["season" := Text("1%20")]), Separator)
  {
    var sp := map["season" := Text("1%20")];
    var m := Merged(sp);
    assert "show_name" !in m && "episode" !in m && m["season"] == Text("1%20");
    PathTokensSplit(m);
    TokenIfPresent(m, "season");
    assert "season:" + "1%20" == "season:1%20";
    assert PathTokens(m) == ["season:1%20"];
    var path := SearchPath(sp);
    assert path == SearchRoot + "season:1%20";
    assert path[|path| - 3..] == "%20";
  }

  /** Without parameters the path is exactly the search root and the query holds the defaults. */
  lemma NoParamsSearch()
    ensures SearchPath(map[]) == SearchRoot
    ensures QueryParams(map[]) == Defaults
  {
    assert PathTokens(Merged(map[])) == [];
    OnlyConsumedKeys(map[]);
  }

  /** A dictionary holding consumed keys only leaves exactly the defaults to the query string. */
  lemma OnlyConsumedKeys(p: Params)
    requires p.Keys <= ConsumedKeys
    ensures QueryParams(p) == Defaults
  {
    var q := QueryParams(p);
    assert q.Keys == Defaults.Keys;
    forall k | k in q ensures q[k] == Defaults[k] {
      assert k !in p;
    }
  }

  /** With show name, season and episode present, the path holds the three tokens in that order. */
  lemma FullSearchPath(searchParams: Params)
    requires Poppable(searchParams, "show_name")
    requires "show_name" in searchParams && "season" in searchParams && "episode" in searchParams
    ensures SearchPath(searchParams) ==
      SearchRoot + ShowNameToken(searchParams["show_name"].s)
      + Separator + ("season:" + Str(searchParams["season"]))
      + Separator + ("episode:" + Str(searchParams["episode"]))
  {
    var m := Merged(searchParams);
    var name := searchParams["show_name"].s;
    assert m["show_name"] == searchParams["show_name"];
    assert m["season"] == searchParams["season"] && m["episode"] == searchParams["episode"];
    var season := "season:" + Str(searchParams["season"]);
    var episode := "episode:" + Str(searchParams["episode"]);
    PathTokensSplit(m);
    TokenIfPresent(m, "show_name");
    TokenIfPresent(m, "season");
    TokenIfPresent(m, "episode");
    assert PathTokens(m) == [ShowNameToken(name), season, episode];
    PathOfTokens(searchParams, [ShowNameToken(name), season, episode]);
  }

  /** A date value changes neither the path nor the query: it is only removed. */
  lemma DateIgnored(searchParams: Params, date: string)
    requires Poppable(searchParams, "show_name")
    ensures Poppable(searchParams["date" := Text(date)], "show_name")
    ensures SearchPath(searchParams["date" := Text(date)]) == SearchPath(searchParams)
    ensures QueryParams(searchParams["date" := Text(date)]) == QueryParams(searchParams)
  {
    var m := Merged(searchParams);
    var m' := Merged(searchParams["date" := Text(date)]);
    assert m' == m["date" := Text(date)];
    assert TokenIf(m', "show_name") == TokenIf(m, "show_name");
    assert TokenIf(m', "season") == TokenIf(m, "season");
    assert TokenIf(m', "episode") == TokenIf(m, "episode");
    assert (m' - ConsumedKeys).Keys == (m - ConsumedKeys).Keys;
  }

  /** The three defaults always reach the query string. */
  lemma DefaultsInQuery(searchParams: Params)
    ensures "rss" in QueryParams(searchParams) && "field" in QueryParams(searchParams)
         && "order" in QueryParams(searchParams)
  {
  }

  /** The query string of the URL reads back as the remaining keys and values, in iteration order. */
  lemma SearchUrlQuery(searchParams: Params, keyOrder: seq<string>)
    requires WellFormedParams(searchParams)
    requires IsEnumeration(keyOrder, QueryParams(searchParams).Keys)
    ensures EncodableParams(QueryParams(searchParams))
    ensures ParseQuery(Urlencode(QueryParams(searchParams), keyOrder)) == Pairs(QueryParams(searchParams), keyOrder)
    ensures forall i :: 0 <= i < |keyOrder| ==> keyOrder[i] !in ConsumedKeys
  {
    WellFormedSearch(searchParams);
    var q := QueryParams(searchParams);
    DefaultsInQuery(searchParams);
    assert "rss" in keyOrder;
  }

  // ---------------------------------------------------------------------
  // Search parameters

  /**
   * A show as the builders see it: `sceneName` is what `helpers.sanitizeSceneName`
   * returns for its name, `airByDate` its `air_by_date` flag.
   */
  datatype Show = Show(sceneName: string, airByDate: bool)

  /** An episode: its show, numbers, and `str()` of its air date. */
  datatype Episode = Episode(show: Show, season: int, episode: int, airdate: string)

  /** What the builders return: an empty dictionary for a missing input, else a list of dictionaries. */
  datatype SearchStrings = EmptyDict | ParamsList(list: seq<Params>)

  /** `sanitizeSceneName(name).replace('.', ' ').encode('utf-8')`: dots become spaces, then UTF-8 bytes. */
  function ShowNameParam(sceneName: string): (r: string)
    ensures IsByteString(r)
    ensures forall i :: 0 <= i < |r| ==> r[i] != '.'
    ensures IsAscii(sceneName) ==>
      |r| == |sceneName| && forall i :: 0 <= i < |r| ==> r[i] == if sceneName[i] == '.' then ' ' else sceneName[i]
  {
    var spaced := ReplaceAll(sceneName, ".", " ");
    ReplaceCharAt(sceneName, '.', ' ');
    Utf8EncodeAvoids(spaced, '.');
    Utf8Encode(spaced)
  }

  /** The dictionary of a season search: the show name, and the season exactly when one is given. */
  predicate IsSeasonParams(p: Params, show: Show, season: Option<int>) {
    && p.Keys == {"show_name"} + (if season.Some? then {"season"} else {})
    && p["show_name"] == Text(ShowNameParam(show.sceneName))
    && (season.Some? ==> p["season"] == Number(season.value))
  }

  /** The dictionary of an episode search: the show name, and the date or else season and episode. */
  predicate IsEpisodeParams(p: Params, ep: Episode) {
    && p.Keys == {"show_name"} + (if ep.show.airByDate then {"date"} else {"season", "episode"})
    && p["show_name"] == Text(ShowNameParam(ep.show.sceneName))
    && (ep.show.airByDate ==> p["date"] == Text(ep.airdate))
    && (!ep.show.airByDate ==> p["season"] == Number(ep.season) && p["episode"] == Number(ep.episode))
  }

  /** `_get_season_search_strings`. */
  method SeasonSearchStrings(show: Option<Show>, season: Option<int>) returns (r: SearchStrings)
    ensures r == EmptyDict <==> show.None?
    ensures r.ParamsList? ==> |r.list| == 1 && IsSeasonParams(r.list[0], show.value, season)
  {
    var params: Params := map[];
    if show.None? {
      return EmptyDict;
    }
    params := params["show_name" := Text(ShowNameParam(show.value.sceneName))];
    if season.Some? {
      params := params["season" := Number(season.value)];
    }
    return ParamsList([params]);
  }

  /** `_get_episode_search_strings`. */
  method EpisodeSearchStrings(ep: Option<Episode>) returns (r: SearchStrings)
    ensures r == EmptyDict <==> ep.None?
    ensures r.ParamsList? ==> |r.list| == 1 && IsEpisodeParams(r.list[0], ep.value)
  {
    var params: Params := map[];
    if ep.None? {
      return EmptyDict;
    }
    var e := ep.value;
    params := params["show_name" := Text(ShowNameParam(e.show.sceneName))];
    if e.show.airByDate {
      params := params["date" := Text(e.airdate)];
    } else {
      params := params["season" := Number(e.season)];
      params := params["episode" := Number(e.episode)];
    }
    return ParamsList([params]);
  }

  /** The keys the path consumes are byte strings. */
  lemma ConsumedKeysAreBytes()
    ensures forall k :: k in ConsumedKeys ==> IsByteString(k)
  {
    assert IsByteString("show_name") && IsByteString("season");
    assert IsByteString("episode") && IsByteString("date");
  }

  /** The dictionary of a season search is well formed. */
  lemma SeasonParamsWellFormed(p: Params, show: Show, season: Option<int>)
    requires IsSeasonParams(p, show, season)
    ensures WellFormedParams(p)
  {
    ConsumedKeysAreBytes();
    assert p.Keys <= ConsumedKeys;
  }

  /** The dictionary of an episode search is well formed when the air date is ASCII. */
  lemma EpisodeParamsWellFormed(p: Params, ep: Episode)
    requires IsEpisodeParams(p, ep)
    requires IsAscii(ep.airdate)
    ensures WellFormedParams(p)
  {
    ConsumedKeysAreBytes();
    assert p.Keys <= ConsumedKeys;
    assert IsByteString(ep.airdate);
  }

  /** The path tokens of a season search: the quoted name, then the season if one is given. */
  lemma SeasonTokens(p: Params, show: Show, season: Option<int>)
    requires IsSeasonParams(p, show, season)
    ensures Poppable(Merged(p), "show_name")
    ensures PathTokens(Merged(p)) ==
      [ShowNameToken(ShowNameParam(show.sceneName))]
      + (if season.Some? then ["season:" + IntToDecimal(season.value)] else [])
  {
    var m := Merged(p);
    assert m["show_name"] == p["show_name"];
    assert "episode" !in m;
    PathTokensSplit(m);
    TokenIfPresent(m, "show_name");
    if season.Some? {
      assert m["season"] == p["season"];
      TokenIfPresent(m, "season");
    } else {
      assert "season" !in m;
    }
  }

  /** A season search asks for the quoted show name, then `season:<N>` when a season is given. */
  lemma SeasonSearchPath(p: Params, show: Show, season: Option<int>)
    requires IsSeasonParams(p, show, season)
    ensures WellFormedParams(p)
    ensures season.None? ==> SearchPath(p) == SearchRoot + ShowNameToken(ShowNameParam(show.sceneName))
    ensures season.Some? ==>
      SearchPath(p) == SearchRoot + ShowNameToken(ShowNameParam(show.sceneName))
                       + Separator + ("season:" + IntToDecimal(season.value))
    ensures QueryParams(p) == Defaults
    ensures !EndsWith(SearchPath(p), Separator)
  {
    SeasonParamsWellFormed(p, show, season);
    var name := ShowNameToken(ShowNameParam(show.sceneName));
    SeasonTokens(p, show, season);
    if season.Some? {
      PathOfTokens(p, [name, "season:" + IntToDecimal(season.value)]);
    } else {
      PathOfTokens(p, [name]);
    }
    OnlyConsumedKeys(p);
    NoTrailingSeparator(p);
  }

  /** The path tokens of an episode search for an air-by-date show: the quoted name alone. */
  lemma DatedEpisodeTokens(p: Params, ep: Episode)
    requires IsEpisodeParams(p, ep) && ep.show.airByDate
    ensures Poppable(Merged(p), "show_name")
    ensures PathTokens(Merged(p)) == [ShowNameToken(ShowNameParam(ep.show.sceneName))]
  {
    var m := Merged(p);
    assert m["show_name"] == p["show_name"];
    assert "season" !in m && "episode" !in m;
    PathTokensSplit(m);
    TokenIfPresent(m, "show_name");
  }

  /** The path tokens of any other episode search: the quoted name, the season and the episode. */
  lemma NumberedEpisodeTokens(p: Params, ep: Episode)
    requires IsEpisodeParams(p, ep) && !ep.show.airByDate
    ensures Poppable(Merged(p), "show_name")
    ensures PathTokens(Merged(p)) ==
      [ShowNameToken(ShowNameParam(ep.show.sceneName)),
       "season:" + IntToDecimal(ep.season),
       "episode:" + IntToDecimal(ep.episode)]
  {
    var m := Merged(p);
    assert m["show_name"] == p["show_name"];
    assert m["season"] == p["season"] && m["episode"] == p["episode"];
    PathTokensSplit(m);
    TokenIfPresent(m, "show_name");
    TokenIfPresent(m, "season");
    TokenIfPresent(m, "episode");
  }

  /**
   * An episode search asks for the quoted show name, then season and episode;
   * for an air-by-date show the date adds nothing and only the name is searched.
   */
  lemma EpisodeSearchPath(p: Params, ep: Episode)
    requires IsEpisodeParams(p, ep)
    requires IsAscii(ep.airdate)
    ensures WellFormedParams(p)
    ensures ep.show.airByDate ==> SearchPath(p) == SearchRoot + ShowNameToken(ShowNameParam(ep.show.sceneName))
    ensures !ep.show.airByDate ==>
      SearchPath(p) == SearchRoot + ShowNameToken(ShowNameParam(ep.show.sceneName))
                       + Separator + ("season:" + IntToDecimal(ep.season))
                       + Separator + ("episode:" + IntToDecimal(ep.episode))
    ensures QueryParams(p) == Defaults
    ensures !EndsWith(SearchPath(p), Separator)
  {
    EpisodeParamsWellFormed(p, ep);
    var name := ShowNameToken(ShowNameParam(ep.show.sceneName));
    if ep.show.airByDate {
      DatedEpisodeTokens(p, ep);
      PathOfTokens(p, [name]);
    } else {
      NumberedEpisodeTokens(p, ep);
      PathOfTokens(p, [name, "season:" + IntToDecimal(ep.season), "episode:" + IntToDecimal(ep.episode)]);
    }
    OnlyConsumedKeys(p);
    NoTrailingSeparator(p);
  }

  /** What `findSeasonResults` does: answer `{}` itself, or hand the search to the generic provider. */
  datatype SeasonSearch = NoResults | DelegateToGeneric(show: Show, season: int)

  /** `findSeasonResults`: air-by-date shows get `{}` at once; others go to the generic search. */
  function FindSeasonResults(show: Show, season: int): (r: SeasonSearch)
    ensures r == NoResults <==> show.airByDate
    ensures r.DelegateToGeneric? ==> r.show == show && r.season == season
  {
    if show.airByDate then NoResults else DelegateToGeneric(show, season)
  }

  // ---------------------------------------------------------------------
  // The search

  /** What `_doSearch` returns for the data `getURL` fetched. */
  function SearchResult(data: Option<string>, parse: string -> Feed): (r: SearchOutcome)
    ensures r.LookupFailed? <==>
      data.Some? && data.value != "" && parse(data.value).Parsed? && !LookupsSucceed(parse(data.value).items)
    ensures r.Results? ==> forall i :: 0 <= i < |r.items| ==> Usable(r.items[i])
  {
    if data.None? || data.value == "" then Results([])
    else match parse(data.value)
      case Unparseable => Results([])
      case Parsed(items) => if LookupsSucceed(items) then Results(UsableItems(items)) else LookupFailed
  }

  /** `_doSearch`: build the URL, fetch it, parse the data, filter the items. */
  method DoSearch(searchParams: Params, keyOrder: seq<string>, fetch: string -> Option<string>, parse: string -> Feed)
    returns (outcome: SearchOutcome)
    requires WellFormedParams(searchParams)
    requires IsEnumeration(keyOrder, QueryParams(searchParams).Keys)
    ensures outcome == SearchResult(fetch(SearchUrl(searchParams, keyOrder)), parse)
  {
    WellFormedSearch(searchParams);
    var path, query := BuildSearchUrl(searchParams);
    var searchUrl := path + "/?" + Urlencode(query, keyOrder);
    var data := fetch(searchUrl);
    if data.None? || data.value == "" {
      return Results([]);
    }
    var feed := parse(data.value);
    if feed.Unparseable? {
      return Results([]);
    }
    outcome := FilterItems(feed.items);
  }

  /**
   * A search that does not fail returns nothing unless some data was fetched
   * and parsed; then it returns exactly the usable items of the feed, in feed order.
   */
  lemma SearchResultSound(data: Option<string>, parse: string -> Feed)
    requires SearchResult(data, parse).Results?
    ensures !(data.Some? && data.value != "" && parse(data.value).Parsed?) ==> SearchResult(data, parse).items == []
    ensures data.Some? && data.value != "" && parse(data.value).Parsed? ==>
      && SearchResult(data, parse).items == UsableItems(parse(data.value).items)
      && forall x :: x in SearchResult(data, parse).items <==> x in parse(data.value).items && Usable(x)
  {
    if data.Some? && data.value != "" && parse(data.value).Parsed? {
      UsableItemsMembers(parse(data.value).items);
    }
  }

  /** A 404 yields no items, provided the parser reads the empty feed as a feed without items. */
  lemma NotFoundYieldsNoItems(gunzip: string -> Option<string>, inflate: string -> Option<string>,
                              parse: string -> Feed)
    requires parse(KatFetch.NotFoundFeed) == Parsed([])
    ensures SearchResult(KatFetch.GetUrl(KatFetch.Raised(KatFetch.HttpError(404)), gunzip, inflate), parse)
         == Results([])
  {
  }

  /** Every other transport failure also yields no items. */
  lemma FailureYieldsNoItems(failure: KatFetch.TransportFailure, gunzip: string -> Option<string>,
                             inflate: string -> Option<string>, parse: string -> Feed)
    requires failure != KatFetch.HttpError(404)
    ensures SearchResult(KatFetch.GetUrl(KatFetch.Raised(failure), gunzip, inflate), parse) == Results([])
  {
  }

  /**
   * A feed with one complete item and one whose enclosure has an empty link:
   * only the complete one is returned, and its link comes back unescaped.
   */
  lemma OneCompleteItem(parse: string -> Feed, data: string, title: string, link: string, other: string)
    requires data != "" && title != "" && link != ""
    requires parse(data) == Parsed([ItemNode(Some(title), Some(EscapeAmpersands(link))), ItemNode(Some(other), Some(""))])
    ensures SearchResult(Some(data), parse) == Results([ItemNode(Some(title), Some(EscapeAmpersands(link)))])
    ensures TitleAndUrl(SearchResult(Some(data), parse).items[0]) == Some((title, link))
  {
    var complete := ItemNode(Some(title), Some(EscapeAmpersands(link)));
    var empty := ItemNode(Some(other), Some(""));
    UnescapeEscape(link);
    assert Usable(complete);
    assert !Usable(empty);
    assert [complete, empty][..1] == [complete];
    assert [complete][..0] == [];
    assert UsableItems([complete]) == [complete];
    assert UsableItems([complete, empty]) == [complete];
    assert LookupsSucceed([complete, empty]);
  }

  /** An item without an `<enclosure>` element makes the whole search raise instead of being skipped. */
  lemma MissingEnclosureRaises(parse: string -> Feed, data: string, title: string)
    requires data != ""
    requires parse(data) == Parsed([ItemNode(Some(title), None)])
    ensures SearchResult(Some(data), parse) == LookupFailed
  {
    assert !TitleAndUrl(parse(data).items[0]).Some?;
  }

}
