/**
 * The index manager: query clean-up, the query objects sent to the search
 * index, the fields of an indexed submission and the decoding of the
 * index's answers. The HTTP calls themselves are not modelled; their
 * answers are inputs.
 */
module ManageData {
  import opened Wrappers
  import opened Seqs
  import opened Strings
  import opened OrderedDicts
  import opened Entities
  import opened Helpers

  // ---------------------------------------------------------------- process_query

  /** `query_obj` of `process_query`. */
  datatype QueryObject = QueryObject(query: string, isUrl: bool, hashtags: seq<string>)

  /** The words whose lower-case form is not a stopword, in order. */
  function Unstopped(words: seq<string>, stopwords: set<string>): (r: seq<string>)
    ensures forall w <- r :: w in words && Lower(w) !in stopwords
    ensures forall w <- words :: Lower(w) !in stopwords ==> w in r
  {
    if words == [] then []
    else
      var init := words[..|words| - 1];
      var last := words[|words| - 1];
      assert forall w <- init :: w in words;
      assert words == init + [last];
      Unstopped(init, stopwords) + (if Lower(last) !in stopwords then [last] else [])
  }

  /**
   * `process_query`. `isUrl` is what `validators.url` says of the query;
   * `stopwords` the words of the stopword file.
   */
  method ProcessQuery(query: string, isUrl: bool, stopwords: set<string>) returns (obj: QueryObject)
    ensures isUrl ==> obj == QueryObject(query, true, [])
    ensures !isUrl ==> !obj.isUrl && obj.hashtags == ExtractHashtags(query)
    ensures !isUrl ==> var kept := Unstopped(Words(query), stopwords);
                       obj.query == if kept == [] then query else JoinSpace(kept)
  {
    obj := QueryObject(query, false, []);
    if isUrl {
      obj := obj.(isUrl := true);
      return;
    }
    var querySplit := Words(query);
    var newQuery: seq<string> := [];
    var hashtags := ExtractHashtags(query);
    obj := obj.(hashtags := hashtags);
    var i := 0;
    while i < |querySplit|
      invariant 0 <= i <= |querySplit|
      invariant newQuery == Unstopped(querySplit[..i], stopwords)
    {
      var word := querySplit[i];
      UnstoppedStep(querySplit, i, stopwords);
      if Lower(word) !in stopwords {
        newQuery := newQuery + [word];
      }
      i := i + 1;
    }
    assert querySplit[..i] == querySplit;
    var joined := JoinSpace(newQuery);
    CleanedQueryBlank(query, stopwords);
    if joined == "" || joined == " " {
      joined := query;
    }
    obj := obj.(query := joined);
  }

  /** One more word is kept exactly when it is not a stopword. */
  lemma UnstoppedStep(words: seq<string>, i: nat, stopwords: set<string>)
    requires i < |words|
    ensures Unstopped(words[..i + 1], stopwords)
      == Unstopped(words[..i], stopwords) + (if Lower(words[i]) !in stopwords then [words[i]] else [])
  {
    assert words[..i + 1][..i] == words[..i];
    assert words[..i + 1][i] == words[i];
  }

  /** The joined non-stopwords are empty or a lone space exactly when there are none. */
  lemma CleanedQueryBlank(query: string, stopwords: set<string>)
    ensures var kept := Unstopped(Words(query), stopwords);
            JoinSpace(kept) == "" || JoinSpace(kept) == " " <==> kept == []
  {
    var kept := Unstopped(Words(query), stopwords);
    AllWords(query);
    JoinSpaceEmpty(kept);
    JoinSpaceNotBlank(kept);
  }

  /**
   * What the cleaned query is: the non-stopwords of the query separated by
   * single spaces, whose own words are exactly those words; only when every
   * word is a stopword (or there are none) is the query kept as it was, so
   * the cleaned query is never a lone space.
   */
  lemma ProcessedQueryWords(query: string, stopwords: set<string>)
    ensures var kept := Unstopped(Words(query), stopwords);
            && (kept != [] ==> Words(JoinSpace(kept)) == kept && JoinSpace(kept) != " ")
            && (kept != [] ==> forall w <- Words(JoinSpace(kept)) :: Lower(w) !in stopwords)
            && (kept == [] ==> forall w <- Words(query) :: Lower(w) in stopwords)
  {
    var kept := Unstopped(Words(query), stopwords);
    AllWords(query);
    assert forall w <- kept :: IsWord(w);
    WordsOfJoin(kept);
    JoinSpaceNotBlank(kept);
  }

  // ---------------------------------------------------------------- query objects

  /** A clause of the `must` list of a query or of its filter. */
  datatype Clause =
    | MatchUser(userId: Id)
    | MatchCommunity(communityId: Id)
    | TermsCommunities(communities: seq<Id>)
    | TermsHashtags(hashtags: seq<string>)
    | TermUser(user: Id)

  /** The page window of every query object: `from` and `size`. */
  datatype Window = Window(offset: int, size: int)

  function PageWindow(page: int, pageSize: int): (w: Window)
    ensures w.offset == page * pageSize && w.size == pageSize
  {
    Window(page * pageSize, pageSize)
  }

  /** The query `get_community` sends: a community's submissions, newest first. */
  datatype CommunityQuery = CommunityQuery(window: Window, sortByTimeDesc: bool, community: Id)

  function GetCommunityQuery(community: Id, page: int, pageSize: int): (q: CommunityQuery)
    ensures q.window.offset == page * pageSize && q.window.size == pageSize
    ensures q.sortByTimeDesc && q.community == community
  {
    CommunityQuery(PageWindow(page, pageSize), true, community)
  }

  /** The query `get_submissions` sends: a user's submissions, newest first. */
  datatype SubmissionsQuery = SubmissionsQuery(window: Window, sortByTimeDesc: bool, must: seq<Clause>)

  /** `get_submissions`: the community clause is appended only for a non-empty community id. */
  method GetSubmissionsQuery(userId: Id, communityId: Option<Id>, page: int, pageSize: int)
    returns (q: SubmissionsQuery)
    ensures q.window.offset == page * pageSize && q.window.size == pageSize && q.sortByTimeDesc
    ensures |q.must| >= 1 && q.must[0] == MatchUser(userId)
    ensures forall c :: MatchCommunity(c) in q.must <==> Truthy(communityId) && c == communityId.value
    ensures |q.must| == if Truthy(communityId) then 2 else 1
  {
    q := SubmissionsQuery(PageWindow(page, pageSize), true, [MatchUser(userId)]);
    if Truthy(communityId) {
      q := q.(must := q.must + [MatchCommunity(communityId.value)]);
    }
  }

  /** The query `auto_complete` sends: the cleaned query over the explanations, within the communities. */
  datatype AutoCompleteQuery = AutoCompleteQuery(text: string, fields: seq<string>, window: Window, filter: seq<Clause>)

  method GetAutoCompleteQuery(query: string, isUrl: bool, stopwords: set<string>, communities: seq<Id>, page: int, pageSize: int)
    returns (q: AutoCompleteQuery)
    ensures q.window.offset == page * pageSize && q.window.size == pageSize
    ensures q.fields == ["explanation"] && q.filter == [TermsCommunities(communities)]
    ensures isUrl ==> q.text == query
    ensures !isUrl ==> var kept := Unstopped(Words(query), stopwords);
                       q.text == if kept == [] then query else JoinSpace(kept)
  {
    var queryObj := ProcessQuery(query, isUrl, stopwords);
    q := AutoCompleteQuery(queryObj.query, ["explanation"], PageWindow(page, pageSize), [TermsCommunities(communities)]);
  }

  /** Which index the manager serves. */
  datatype IndexKind = WebpagesIndex | SubmissionsIndex | OtherIndex

  /** The query `search` sends. Only a non-webpages index gets a filter. */
  datatype SearchQuery = SearchQuery(text: string, fields: seq<string>, window: Window, filter: Option<seq<Clause>>)

  /** The fields searched: a URL query on the submissions index looks only at `source_url`. */
  function SearchFields(index: IndexKind, isUrl: bool): seq<string>
  {
    match index
    case WebpagesIndex => ["webpage.metadata.title", "webpage.metadata.h1", "webpage.metadata.description", "webpage.all_paragraphs"]
    case SubmissionsIndex => if isUrl then ["source_url"] else ["explanation", "highlighted_text", "source_url"]
    case OtherIndex => []
  }

  /**
   * The filter of a submissions search: the communities, then the hashtags
   * when there are any, then the user when one is given.
   */
  function SearchFilter(communities: seq<Id>, hashtags: seq<string>, userId: Option<Id>): seq<Clause>
  {
    [TermsCommunities(communities)]
    + (if hashtags != [] then [TermsHashtags(hashtags)] else [])
    + (if Truthy(userId) then [TermUser(userId.value)] else [])
  }

  /** The filter holds the hashtag clause exactly when there are hashtags, and the user clause exactly when a user is given. */
  lemma SearchFilterClauses(communities: seq<Id>, hashtags: seq<string>, userId: Option<Id>)
    ensures var f := SearchFilter(communities, hashtags, userId);
            && f[0] == TermsCommunities(communities)
            && (forall h :: TermsHashtags(h) in f <==> hashtags != [] && h == hashtags)
            && (forall u :: TermUser(u) in f <==> Truthy(userId) && u == userId.value)
            && (forall c :: TermsCommunities(c) in f <==> c == communities)
  {
  }

  /** `search`: the cleaned query, the index's fields, and for a non-webpages index the filter built by appending. */
  method Search(query: string, isUrl: bool, stopwords: set<string>, communities: seq<Id>, userId: Option<Id>,
                page: int, pageSize: int, index: IndexKind)
    returns (q: SearchQuery)
    ensures q.window.offset == page * pageSize && q.window.size == pageSize
    ensures q.fields == SearchFields(index, isUrl)
    ensures index == WebpagesIndex <==> q.filter.None?
    ensures index != WebpagesIndex ==>
              q.filter == Some(SearchFilter(communities, if isUrl then [] else ExtractHashtags(query), userId))
    ensures isUrl ==> q.text == query
    ensures !isUrl ==> var kept := Unstopped(Words(query), stopwords);
                       q.text == if kept == [] then query else JoinSpace(kept)
  {
    var queryObj := ProcessQuery(query, isUrl, stopwords);
    var fields := SearchFields(index, queryObj.isUrl);
    q := SearchQuery(queryObj.query, fields, PageWindow(page, pageSize), None);
    if index != WebpagesIndex {
      var must := [TermsCommunities(communities)];
      if queryObj.hashtags != [] {
        must := must + [TermsHashtags(queryObj.hashtags)];
      }
      if Truthy(userId) {
        must := must + [TermUser(userId.value)];
      }
      q := q.(filter := Some(must));
      assert queryObj.hashtags == if isUrl then [] else ExtractHashtags(query);
      assert must == SearchFilter(communities, queryObj.hashtags, userId);
    }
  }

  // ---------------------------------------------------------------- add_to_index

  /** `flatten_communities`: every user's community ids, user after user. */
  method FlattenCommunities(communities: seq<Item<Id, seq<Id>>>) returns (flat: seq<Id>)
    ensures flat == Concat(Values(communities))
  {
    flat := [];
    var i := 0;
    while i < |communities|
      invariant 0 <= i <= |communities|
      invariant flat == Concat(Values(communities[..i]))
    {
      var list := communities[i].value;
      ghost var before := flat;
      var j := 0;
      while j < |list|
        invariant 0 <= j <= |list|
        invariant flat == before + list[..j]
      {
        assert list[..j + 1] == list[..j] + [list[j]];
        flat := flat + [list[j]];
        j := j + 1;
      }
      assert list[..j] == list;
      assert Values(communities[..i + 1]) == Values(communities[..i]) + [list] by {
        assert communities[..i + 1][..i] == communities[..i];
        ValuesSnoc(communities[..i], communities[i]);
        assert communities[..i] + [communities[i]] == communities[..i + 1];
      }
      ConcatSnoc(Values(communities[..i]), list);
      i := i + 1;
    }
    assert communities[..i] == communities;
  }

  lemma ValuesSnoc<K, V>(d: seq<Item<K, V>>, it: Item<K, V>)
    ensures Values(d + [it]) == Values(d) + [it.value]
  {
    assert |Values(d + [it])| == |Values(d) + [it.value]|;
    assert forall i :: 0 <= i < |d| + 1 ==> Values(d + [it])[i] == (Values(d) + [it.value])[i];
  }

  /** The flat list has one entry per community id of every user's list, and no others. */
  lemma FlattenedCommunities(communities: seq<Item<Id, seq<Id>>>, c: Id)
    ensures |Concat(Values(communities))| == SumLengths(Values(communities))
    ensures c in Concat(Values(communities)) <==> exists i :: 0 <= i < |communities| && c in communities[i].value
  {
    ConcatLength(Values(communities));
    InConcat(Values(communities), c);
    if c in Concat(Values(communities)) {
      var i :| 0 <= i < |Values(communities)| && c in Values(communities)[i];
      assert c in communities[i].value;
    }
    if exists i :: 0 <= i < |communities| && c in communities[i].value {
      var i :| 0 <= i < |communities| && c in communities[i].value;
      assert c in Values(communities)[i];
    }
  }

  /** The hashtags stored with a submission: those of its explanation and of its highlighted text, each once. */
  function IndexedHashtags(explanation: string, highlightedText: string): (r: seq<string>)
    ensures Distinct(r)
    ensures forall h <- r :: IsHashtag(h)
    ensures forall h :: h in r <==> h in ExtractHashtags(explanation) || h in ExtractHashtags(highlightedText)
  {
    Dedup(ExtractHashtags(explanation) + ExtractHashtags(highlightedText))
  }

  // ---------------------------------------------------------------- postprocess

  /** The `hits` object of an answer: `total.value` and the list of hits, each possibly missing. */
  datatype HitsPart<H> = HitsPart(total: Option<int>, hits: Option<seq<H>>)

  /** The text of an answer from the index: not JSON at all, or a JSON object. */
  datatype AnswerBody<H> = NotJson | Json(hitsPart: Option<HitsPart<H>>, hasTook: bool)

  /** What `postprocess` gives its caller. */
  datatype Decoded<H> = Decoded(total: int, hits: seq<H>) | Raises

  /**
   * `postprocess` as written: its handler prints `json.loads(text)` again,
   * so an answer that is not JSON raises out of the handler instead of
   * giving `(0, [])`.
   */
  function PostprocessAsWritten<H>(body: AnswerBody<H>): Decoded<H>
  {
    match body
    case NotJson => Raises
    case Json(hitsPart, hasTook) =>
      if hitsPart.None? || !hasTook then Decoded(0, [])
      else if hitsPart.value.total.Some? && hitsPart.value.hits.Some? then
        Decoded(hitsPart.value.total.value, hitsPart.value.hits.value)
      else Raises
  }

  lemma NonJsonAnswerRaises<H>()
    ensures PostprocessAsWritten<H>(NotJson) == Raises
  {
  }

  /** `postprocess` as intended: an answer that cannot be read gives no hits. */
  function Postprocess<H>(body: AnswerBody<H>): (r: Decoded<H>)
    ensures body.NotJson? || body.hitsPart.None? || !body.hasTook ==> r == Decoded(0, [])
    ensures r.Decoded? && r.hits != [] ==> body.Json? && body.hitsPart.Some? && body.hitsPart.value.hits == Some(r.hits)
  {
    match body
    case NotJson => Decoded(0, [])
    case Json(hitsPart, hasTook) =>
      if hitsPart.None? || !hasTook then Decoded(0, [])
      else if hitsPart.value.total.Some? && hitsPart.value.hits.Some? then
        Decoded(hitsPart.value.total.value, hitsPart.value.hits.value)
      else Raises
  }

  /** The corrected `postprocess` differs from the original only on answers that are not JSON. */
  lemma PostprocessAgrees<H>(body: AnswerBody<H>)
    ensures body.Json? ==> Postprocess(body) == PostprocessAsWritten(body)
    ensures body.NotJson? ==> Postprocess(body) == Decoded(0, []) && PostprocessAsWritten(body) == Raises
  {
  }
}
