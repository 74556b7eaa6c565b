/**
 * The search bar of the website header: the routes a search and a
 * visualisation navigate to, when suggestions are fetched, what selecting a
 * suggestion opens, and how community names are shortened in the selector.
 * `encodeURIComponent` is a parameter; replies and navigation are inputs and
 * logs of the class.
 */
module SearchBarHeader {
  import opened Wrappers
  import opened Strings

  const OwnSubmissionsMarker := "&own_submissions=True"

  function EndsWith(s: string, suffix: string): bool
  {
    |suffix| <= |s| && s[|s| - |suffix|..] == suffix
  }

  /** The suffix of a route: the own-submissions marker exactly when the toggle is on. */
  lemma WithOwnMarker(head: string, last: string, own: bool, k: nat)
    requires 0 < k <= |last| && k <= |OwnSubmissionsMarker|
    requires last[|last| - k] != OwnSubmissionsMarker[|OwnSubmissionsMarker| - k]
    ensures EndsWith(head + last + (if own then OwnSubmissionsMarker else ""), OwnSubmissionsMarker) <==> own
  {
    var s := head + last + (if own then OwnSubmissionsMarker else "");
    var m := OwnSubmissionsMarker;
    if !own {
      assert s == head + last;
      assert s[|s| - k] == last[|last| - k];
    } else {
      assert s[|s| - |m|..] == m;
    }
  }

  /** The query parameters of a search route, in order. */
  function SearchParams(input: string, community: string, own: bool, encode: string -> string): seq<string>
  {
    ["query=" + encode(input), "community=" + community, "page=0"] + (if own then ["own_submissions=True"] else [])
  }

  /** The query parameters of a map route, in order. */
  function VisualizeParams(input: string, community: string, own: bool, encode: string -> string): seq<string>
  {
    ["query=" + encode(input), "community=" + community, "visualize=True"] + (if own then ["own_submissions=True"] else [])
  }

  /** Three or four parameters joined with `&`. */
  lemma JoinParams(a: string, b: string, c: string, own: bool)
    ensures JoinOn([a, b, c] + (if own then ["own_submissions=True"] else []), '&')
            == a + "&" + b + "&" + c + (if own then OwnSubmissionsMarker else "")
  {
    var tail: seq<string> := if own then ["own_submissions=True"] else [];
    var ps := [a, b, c] + tail;
    assert ps[1..] == [b, c] + tail;
    assert ps[1..][1..] == [c] + tail;
    var rest := JoinOn([c] + tail, '&');
    if own {
      assert ([c] + tail)[1..] == tail;
      assert JoinOn(tail, '&') == "own_submissions=True";
      assert rest == c + "&" + "own_submissions=True";
      assert OwnSubmissionsMarker == "&" + "own_submissions=True";
    } else {
      assert [c] + tail == [c];
      assert rest == c;
    }
    assert JoinOn([b, c] + tail, '&') == b + "&" + rest;
    assert JoinOn(ps, '&') == a + "&" + (b + "&" + rest);
  }

  /**
   * `handleSearch`: no navigation for an empty query over all communities;
   * otherwise the search route, its query encoded, the own-submissions
   * marker appended when the toggle is on.
   */
  function SearchRoute(input: string, community: string, ownSubmissionToggle: bool, encode: string -> string): (r: Option<string>)
    ensures r.None? <==> |input| == 0 && community == "all"
    ensures r.Some? ==> r.value == "/search?" + "query=" + encode(input) + "&" + "community=" + community + "&" + "page=0"
                                   + (if ownSubmissionToggle then OwnSubmissionsMarker else "")
    ensures r.Some? ==> (EndsWith(r.value, OwnSubmissionsMarker) <==> ownSubmissionToggle)
  {
    var head := "/search?" + "query=" + encode(input) + "&" + "community=" + community;
    var q := head + "&" + "page=0";
    var q := if ownSubmissionToggle then q + OwnSubmissionsMarker else q;
    if |input| == 0 && community == "all" then None
    else
      WithOwnMarker(head, "&" + "page=0", ownSubmissionToggle, 1);
      Some(q)
  }

  /** `handleVisualizeCommunity`: nothing for an empty query, otherwise the map route. */
  function VisualizeRoute(input: string, selectedCommunity: string, ownSubmissionToggle: bool, encode: string -> string): (r: Option<string>)
    ensures r.None? <==> |input| == 0
    ensures r.Some? ==> r.value == "/visualizemap?" + "query=" + encode(input) + "&" + "community=" + selectedCommunity
                                   + "&" + "visualize=True" + (if ownSubmissionToggle then OwnSubmissionsMarker else "")
    ensures r.Some? ==> (EndsWith(r.value, OwnSubmissionsMarker) <==> ownSubmissionToggle)
  {
    var head := "/visualizemap?" + "query=" + encode(input) + "&" + "community=" + selectedCommunity;
    if |input| == 0 then None
    else
      var url := head + "&" + "visualize=True";
      var url := if ownSubmissionToggle then url + OwnSubmissionsMarker else url;
      WithOwnMarker(head, "&" + "visualize=True", ownSubmissionToggle, 6);
      Some(url)
  }

  /**
   * The search route carries exactly its parameters: splitting its query
   * string on `&` gives them back, when neither the encoded query nor the
   * community holds an `&`.
   */
  lemma SearchRouteParams(input: string, community: string, own: bool, encode: string -> string)
    requires !(|input| == 0 && community == "all")
    requires '&' !in encode(input) && '&' !in community
    ensures var route := SearchRoute(input, community, own, encode).value;
            StartsWith(route, "/search?")
            && SplitOn(route[|"/search?"|..], '&') == SearchParams(input, community, own, encode)
  {
    var ps := SearchParams(input, community, own, encode);
    SearchRouteJoined(input, community, own, encode);
    ParamFree("query=", encode(input));
    ParamFree("community=", community);
    ParamsOfRoute("/search?", SearchRoute(input, community, own, encode).value, ps);
  }

  /** Likewise for the map route. */
  lemma VisualizeRouteParams(input: string, community: string, own: bool, encode: string -> string)
    requires |input| != 0
    requires '&' !in encode(input) && '&' !in community
    ensures var route := VisualizeRoute(input, community, own, encode).value;
            StartsWith(route, "/visualizemap?")
            && SplitOn(route[|"/visualizemap?"|..], '&') == VisualizeParams(input, community, own, encode)
  {
    var ps := VisualizeParams(input, community, own, encode);
    VisualizeRouteJoined(input, community, own, encode);
    ParamFree("query=", encode(input));
    ParamFree("community=", community);
    ParamsOfRoute("/visualizemap?", VisualizeRoute(input, community, own, encode).value, ps);
  }

  /** The search route is its path and its parameters joined with `&`. */
  lemma SearchRouteJoined(input: string, community: string, own: bool, encode: string -> string)
    requires !(|input| == 0 && community == "all")
    ensures SearchRoute(input, community, own, encode).value
            == "/search?" + JoinOn(SearchParams(input, community, own, encode), '&')
  {
    JoinParams("query=" + encode(input), "community=" + community, "page=0", own);
  }

  /** The map route is its path and its parameters joined with `&`. */
  lemma VisualizeRouteJoined(input: string, community: string, own: bool, encode: string -> string)
    requires |input| != 0
    ensures VisualizeRoute(input, community, own, encode).value
            == "/visualizemap?" + JoinOn(VisualizeParams(input, community, own, encode), '&')
  {
    var m := if own then OwnSubmissionsMarker else "";
    JoinParams("query=" + encode(input), "community=" + community, "visualize=True", own);
    RegroupRoute("/visualizemap?", "query=", encode(input), "community=", community, "visualize=True", m);
  }

  /** Regrouping a route into its path and its `&`-joined parameters. */
  lemma RegroupRoute(path: string, name1: string, value1: string, name2: string, value2: string, last: string, m: string)
    ensures path + name1 + value1 + "&" + name2 + value2 + "&" + last + m
            == path + ((name1 + value1) + "&" + (name2 + value2) + "&" + last + m)
  {
  }

  /** A path followed by `&`-free parameters joined with `&` splits back into them. */
  lemma ParamsOfRoute(path: string, route: string, ps: seq<string>)
    requires ps != [] && route == path + JoinOn(ps, '&')
    requires forall p <- ps :: '&' !in p
    ensures StartsWith(route, path) && SplitOn(route[|path|..], '&') == ps
  {
    StartsWithAppend(path, JoinOn(ps, '&'));
    SplitJoin(ps, '&');
  }

  /** A parameter name followed by an `&`-free value holds no `&`. */
  lemma ParamFree(name: string, value: string)
    requires '&' !in name && '&' !in value
    ensures '&' !in name + value
  {
  }

  lemma StartsWithAppend(s: string, t: string)
    ensures StartsWith(s + t, s) && (s + t)[|s|..] == t
  {
    assert (s + t)[..|s|] == s;
  }

  /** A suggestion of the header's autocomplete. */
  datatype HeaderSuggestion = HeaderSuggestion(text: string, url: string)

  /** The reply of the autocomplete endpoint. */
  datatype SuggestionsReply = SuggestionsReply(status: int, suggestions: seq<HeaderSuggestion>)

  /** What the suggestion effect does for an input. */
  datatype FetchDecision = Clear | NoFetch | Fetch(url: string)

  /** The effect on `inputValue`: fetch once the input ends in a space, clear on an empty input. */
  function SuggestionFetch(baseUrl: string, input: string): (d: FetchDecision)
    ensures d == Clear <==> input == ""
    ensures d.Fetch? <==> input != "" && input[|input| - 1] == ' '
    ensures d.Fetch? ==> d.url == baseUrl + "search/autocomplete" + "?query=" + input
  {
    if input == "" then Clear
    else if input[|input| - 1] == ' ' then Fetch(baseUrl + "search/autocomplete" + "?query=" + input)
    else NoFetch
  }

  /** The urls `handleSuggestionClick` opens: those of every suggestion whose label is the option. */
  function UrlsFor(suggestions: seq<HeaderSuggestion>, option: string): (urls: seq<string>)
    ensures |urls| <= |suggestions|
    ensures forall u <- urls :: exists s <- suggestions :: s.text == option && s.url == u
    ensures forall s <- suggestions :: s.text == option ==> s.url in urls
  {
    if suggestions == [] then []
    else
      var init := suggestions[..|suggestions| - 1];
      var last := suggestions[|suggestions| - 1];
      assert forall s <- init :: s in suggestions;
      assert suggestions == init + [last];
      UrlsFor(init, option) + (if last.text == option then [last.url] else [])
  }

  /** The header's suggestion list and the windows and requests it has opened. */
  class Header {
    const baseUrl: string
    var suggestions: seq<HeaderSuggestion>
    var openedUrls: seq<string>
    var fetched: seq<string>

    constructor (baseUrl: string)
      ensures this.baseUrl == baseUrl && suggestions == [] && openedUrls == [] && fetched == []
    {
      this.baseUrl := baseUrl;
      suggestions := [];
      openedUrls := [];
      fetched := [];
    }

    /** The suggestion effect, with `reply` the answer to the request it sends, if any. */
    method SuggestionEffect(input: string, reply: SuggestionsReply)
      modifies this
      ensures openedUrls == old(openedUrls)
      ensures SuggestionFetch(baseUrl, input) == Clear ==> suggestions == [] && fetched == old(fetched)
      ensures SuggestionFetch(baseUrl, input) == NoFetch ==> suggestions == old(suggestions) && fetched == old(fetched)
      ensures SuggestionFetch(baseUrl, input).Fetch? ==>
                fetched == old(fetched) + [SuggestionFetch(baseUrl, input).url] &&
                suggestions == (if reply.status == 200 then reply.suggestions else [])
    {
      if input != "" {
        if input[|input| - 1] == ' ' {
          fetched := fetched + [baseUrl + "search/autocomplete" + "?query=" + input];
          if reply.status == 200 {
            suggestions := reply.suggestions;
          } else {
            suggestions := [];
          }
        }
      } else {
        suggestions := [];
      }
    }

    /** `handleSuggestionClick`: the loop that opens every matching suggestion's url. */
    method HandleSuggestionClick(option: string)
      modifies this
      ensures openedUrls == old(openedUrls) + UrlsFor(suggestions, option)
      ensures suggestions == old(suggestions) && fetched == old(fetched)
    {
      var i := 0;
      ghost var before := openedUrls;
      while i < |suggestions|
        invariant 0 <= i <= |suggestions|
        invariant suggestions == old(suggestions) && fetched == old(fetched)
        invariant openedUrls == before + UrlsFor(suggestions[..i], option)
      {
        assert suggestions[..i + 1][..i] == suggestions[..i];
        assert suggestions[..i + 1][i] == suggestions[i];
        if suggestions[i].text == option {
          openedUrls := openedUrls + [suggestions[i].url];
        }
        i := i + 1;
      }
      assert suggestions[..i] == suggestions;
    }
  }

  /** How a community name is shown in the selector: long names cut to 40 characters and "..". */
  function DisplayName(name: string): (shown: string)
    ensures |name| <= 50 ==> shown == name
    ensures |name| > 50 ==> |shown| == 42 && StartsWith(name, shown[..40]) && shown[40..] == ".."
    ensures |shown| <= 50
  {
    if |name| > 50 then name[..40] + ".." else name
  }

  /** A community of the user's lists as the selector reads it: its id and its name. */
  datatype CommunityChoice = CommunityChoice(communityId: string, name: string)

  /** An item of the community selector: the value sent with the search, and the text shown. */
  datatype MenuItem = MenuItem(value: string, text: string)

  /** The default item, which searches every community. */
  const AllItem := MenuItem("all", "All")

  /** The item of one community: its id, and its name as `DisplayName` shows it. */
  function ItemOf(d: CommunityChoice): MenuItem
  {
    MenuItem(d.communityId, DisplayName(d.name))
  }

  /**
   * The selector's items: "All" first, then, only when both lists have been
   * loaded, one item per followed community and then one per joined one.
   */
  function SelectorItems(followed: Option<seq<CommunityChoice>>, joined: Option<seq<CommunityChoice>>): (r: seq<MenuItem>)
    ensures |r| >= 1 && r[0] == AllItem
    ensures !(followed.Some? && joined.Some?) ==> r == [AllItem]
    ensures followed.Some? && joined.Some? ==>
              |r| == 1 + |followed.value| + |joined.value|
              && (forall i :: 0 <= i < |followed.value| ==> r[1 + i] == ItemOf(followed.value[i]))
              && (forall i :: 0 <= i < |joined.value| ==> r[1 + |followed.value| + i] == ItemOf(joined.value[i]))
  {
    var choices := if followed.Some? && joined.Some? then followed.value + joined.value else [];
    [AllItem] + seq(|choices|, i requires 0 <= i < |choices| => ItemOf(choices[i]))
  }

  /** The item of some community of the two lists. */
  ghost predicate OfListed(item: MenuItem, followed: seq<CommunityChoice>, joined: seq<CommunityChoice>)
  {
    exists d :: (d in followed || d in joined) && item == ItemOf(d)
  }

  /** Past "All", every item offered is one of a loaded list's communities. */
  lemma SelectorOffersOnlyListed(followed: seq<CommunityChoice>, joined: seq<CommunityChoice>)
    ensures var r := SelectorItems(Some(followed), Some(joined));
            forall i :: 1 <= i < |r| ==> OfListed(r[i], followed, joined)
  {
    var r := SelectorItems(Some(followed), Some(joined));
    forall i | 1 <= i < |r|
      ensures OfListed(r[i], followed, joined)
    {
      if i - 1 < |followed| {
        var d := followed[i - 1];
        assert d in followed && r[1 + (i - 1)] == ItemOf(d);
      } else {
        var k := i - 1 - |followed|;
        var d := joined[k];
        assert d in joined && r[1 + |followed| + k] == ItemOf(d);
      }
    }
  }

  /** Every community of the loaded lists is offered past "All". */
  lemma SelectorOffersEveryListed(followed: seq<CommunityChoice>, joined: seq<CommunityChoice>)
    ensures var r := SelectorItems(Some(followed), Some(joined));
            forall d :: d in followed || d in joined ==> ItemOf(d) in r[1..]
  {
    var r := SelectorItems(Some(followed), Some(joined));
    forall d | d in followed || d in joined
      ensures ItemOf(d) in r[1..]
    {
      if d in followed {
        var k :| 0 <= k < |followed| && followed[k] == d;
        assert r[1 + k] == ItemOf(d);
        assert r[1..][k] == r[1 + k];
      } else {
        var k :| 0 <= k < |joined| && joined[k] == d;
        assert r[1 + |followed| + k] == ItemOf(d);
        assert r[1..][|followed| + k] == r[1 + |followed| + k];
      }
    }
  }
}
