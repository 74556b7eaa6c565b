/**
 * The search plumbing of the web server: the click-logging redirect URL, the
 * submission id read back from a clicked URL, autocomplete, the page
 * parameter, the "users also ask" list, chunking for the reranker, the lines
 * kept from a generation, the visualisation graph, the export paging loop,
 * the choice of index query and the community access check.
 */
module Search {
  import opened Wrappers
  import opened Seqs
  import opened Strings
  import opened Entities
  import opened Helpers

  // ---------------------------------------------------------------- redirect URL

  /** The part of every redirect URL that names the endpoint and the search. */
  function RedirectPrefix(env: Env, searchId: string): string
  {
    env.apiUrl + ":" + env.apiPort + "/api/search/redirect?" + "search_id=" + searchId
  }

  /** Whether the fragment is put back; Python's `and` binds tighter than `or`. */
  predicate KeepsFragment(url: string, fragment: string)
  {
    Contains(url, "pdf") || (Contains(url, "smartdiff") && fragment != "")
  }

  /** The page the redirect leads to, given the URL without its fragment. */
  function RedirectTarget(url: string, fragment: string, quote: string -> string): string
  {
    if KeepsFragment(url, fragment) then url + "#" + fragment
    else if Contains(url, "youtube") then quote(url)
    else url
  }

  /**
   * `create_redirect_url`. `url` and `fragment` are what `urldefrag` returns
   * for the clicked URL; `quote` is `urllib.parse.quote`.
   */
  method CreateRedirectUrl(env: Env, searchId: string, url: string, fragment: string, quote: string -> string)
    returns (redirectUrl: string)
    ensures redirectUrl == RedirectPrefix(env, searchId) + "&redirect_url=" + RedirectTarget(url, fragment, quote)
  {
    redirectUrl := env.apiUrl + ":" + env.apiPort + "/api/search/redirect?";
    redirectUrl := redirectUrl + "search_id=" + searchId;
    if Contains(url, "pdf") || (Contains(url, "smartdiff") && fragment != "") {
      redirectUrl := redirectUrl + "&redirect_url=" + url + "#" + fragment;
    } else if Contains(url, "youtube") {
      redirectUrl := redirectUrl + "&redirect_url=" + quote(url);
    } else {
      redirectUrl := redirectUrl + "&redirect_url=" + url;
    }
  }

  /**
   * A PDF (or a proxied page with a fragment) is reached at exactly the URL
   * that was clicked; any other page that is not a video loses its fragment.
   */
  lemma RedirectTargetOfClicked(clicked: string, url: string, fragment: string, quote: string -> string)
    requires clicked == url + "#" + fragment
    ensures KeepsFragment(url, fragment) ==> RedirectTarget(url, fragment, quote) == clicked
    ensures !KeepsFragment(url, fragment) && !Contains(url, "youtube") ==>
              RedirectTarget(url, fragment, quote) == clicked[..|url|]
  {
    assert clicked[..|url|] == url;
  }

  /** Every redirect URL names the endpoint and the search before the target. */
  lemma RedirectUrlShape(env: Env, searchId: string, url: string, fragment: string, quote: string -> string)
    ensures var r := RedirectPrefix(env, searchId) + "&redirect_url=" + RedirectTarget(url, fragment, quote);
            var head := RedirectPrefix(env, searchId) + "&redirect_url=";
            StartsWith(r, head) && r[|head|..] == RedirectTarget(url, fragment, quote)
  {
  }

  // ---------------------------------------------------------------- clicked URL

  const SubmissionsMarker: string := "/submissions/"

  /**
   * The submission whose statistics `log_search_click` updates: whatever
   * follows the first "/submissions/" of the clicked URL, if there is one.
   */
  function ClickedSubmissionId(clickedUrl: string): (r: Option<Id>)
    ensures r.None? <==> !Contains(clickedUrl, SubmissionsMarker)
    ensures r.Some? ==> |r.value| + |SubmissionsMarker| <= |clickedUrl|
    ensures r.Some? ==> clickedUrl[|clickedUrl| - |r.value|..] == r.value
    ensures r.Some? ==> StartsWith(clickedUrl[|clickedUrl| - |r.value| - |SubmissionsMarker|..], SubmissionsMarker)
    ensures r.Some? ==> forall j :: 0 <= j < |clickedUrl| - |r.value| - |SubmissionsMarker| ==>
                          !StartsWith(clickedUrl[j..], SubmissionsMarker)
  {
    match IndexOf(clickedUrl, SubmissionsMarker)
    case None => None
    case Some(i) => Some(clickedUrl[i + |SubmissionsMarker|..])
  }

  /**
   * Clicking the page of a submission that has no URL of its own (the URL
   * `format_url` gives it) credits exactly that submission, provided the
   * deployment's own address does not already contain "/submissions/".
   */
  lemma {:induction false} ClickOnSubmissionPage(env: Env, submissionId: Id)
    requires !Contains(SubmissionBase(env) + "/submissions", SubmissionsMarker)
    ensures ClickedSubmissionId(FormatUrl("", submissionId, env)) == Some(submissionId)
  {
    var base := SubmissionBase(env);
    var u := FormatUrl("", submissionId, env);
    assert u == base + SubmissionsMarker + submissionId;
    assert u[|base|..] == SubmissionsMarker + submissionId;
    assert StartsWith(u[|base|..], SubmissionsMarker);
    assert Contains(u, SubmissionsMarker);
    var k := IndexOf(u, SubmissionsMarker).value;
    assert k <= |base|;
    if k < |base| {
      MarkerNotBefore(base, submissionId, k);
    }
    assert u[k + |SubmissionsMarker|..] == submissionId;
  }

  lemma MarkerNotBefore(base: string, submissionId: Id, i: nat)
    requires i < |base|
    requires !Contains(base + "/submissions", SubmissionsMarker)
    ensures !StartsWith((base + SubmissionsMarker + submissionId)[i..], SubmissionsMarker)
  {
    var u := base + SubmissionsMarker + submissionId;
    var head := base + "/submissions";
    assert u[..|head|] == head;
    assert head[i..][..|SubmissionsMarker|] == u[i..][..|SubmissionsMarker|];
  }

  // ---------------------------------------------------------------- autocomplete

  /** A hit of the autocomplete query: the submission and its explanation. */
  datatype Hit = Hit(id: Id, title: string)

  /** One suggestion returned by autocomplete. */
  datatype Suggestion = Suggestion(title: string, id: Id, url: string)

  function LabelsOf(hs: seq<Hit>): (ls: seq<string>)
    ensures |ls| == |hs|
    ensures forall i :: 0 <= i < |hs| ==> ls[i] == hs[i].title
  {
    if hs == [] then [] else LabelsOf(hs[..|hs| - 1]) + [hs[|hs| - 1].title]
  }

  /** The position of the first hit with the given title (past the end when there is none). */
  function FirstIndex(hs: seq<Hit>, title: string): nat
  {
    if title in LabelsOf(hs) then IndexOfElem(LabelsOf(hs), title) else |hs|
  }

  /** The first hit of every label, in hit order. */
  function FirstPerLabel(hs: seq<Hit>): seq<Hit>
  {
    if hs == [] then []
    else
      var kept := FirstPerLabel(hs[..|hs| - 1]);
      if hs[|hs| - 1].title in LabelsOf(kept) then kept else kept + [hs[|hs| - 1]]
  }

  /** One more hit is kept exactly when its title is new. */
  lemma FirstPerLabelStep(hs: seq<Hit>, i: nat)
    requires i < |hs|
    ensures FirstPerLabel(hs[..i + 1]) ==
              if hs[i].title in LabelsOf(FirstPerLabel(hs[..i])) then FirstPerLabel(hs[..i])
              else FirstPerLabel(hs[..i]) + [hs[i]]
  {
    assert hs[..i + 1][..i] == hs[..i];
    assert hs[..i + 1][i] == hs[i];
  }

  /** The hits a shorter prefix keeps are a prefix of the hits the whole list keeps. */
  lemma {:induction false} FirstPerLabelPrefix(hs: seq<Hit>, i: nat)
    requires i <= |hs|
    ensures FirstPerLabel(hs[..i]) <= FirstPerLabel(hs)
  {
    if i < |hs| {
      var init := hs[..|hs| - 1];
      assert init[..i] == hs[..i];
      FirstPerLabelPrefix(init, i);
      assert hs[..i] == init[..i];
    } else {
      assert hs[..i] == hs;
    }
  }

  /** No two kept hits share a label. */
  lemma {:induction false} FirstPerLabelDistinct(hs: seq<Hit>)
    ensures Distinct(LabelsOf(FirstPerLabel(hs)))
  {
    if hs != [] {
      FirstPerLabelDistinct(hs[..|hs| - 1]);
    }
  }

  lemma LabelsOfSnoc(hs: seq<Hit>, h: Hit)
    ensures LabelsOf(hs + [h]) == LabelsOf(hs) + [h.title]
  {
    assert (hs + [h])[..|hs|] == hs;
  }

  /** Every label of a hit is the label of a kept hit. */
  lemma {:induction false} FirstPerLabelCovers(hs: seq<Hit>)
    ensures forall h <- hs :: h.title in LabelsOf(FirstPerLabel(hs))
  {
    if hs != [] {
      var init := hs[..|hs| - 1];
      var last := hs[|hs| - 1];
      FirstPerLabelCovers(init);
      var kept := FirstPerLabel(init);
      var r := FirstPerLabel(hs);
      var labels := LabelsOf(kept);
      if last.title !in labels {
        assert r == kept + [last];
        LabelsOfSnoc(kept, last);
        assert LabelsOf(r) == labels + [last.title];
      } else {
        assert r == kept;
      }
      assert forall l :: l in labels ==> l in LabelsOf(r);
      forall h | h in hs
        ensures h.title in LabelsOf(r)
      {
        var k :| 0 <= k < |hs| && hs[k] == h;
        if k < |init| {
          assert init[k] == h;
        }
      }
    }
  }

  /** A label the kept hits lack is no hit's label. */
  lemma AbsentFromKept(hs: seq<Hit>, t: string)
    requires t !in LabelsOf(FirstPerLabel(hs))
    ensures t !in LabelsOf(hs)
  {
    FirstPerLabelCovers(hs);
    forall k | 0 <= k < |hs|
      ensures LabelsOf(hs)[k] != t
    {
      assert hs[k] in hs;
    }
  }

  /** An appended hit leaves the first position of an earlier label alone. */
  lemma FirstIndexKeep(init: seq<Hit>, last: Hit, t: string)
    requires t in LabelsOf(init)
    ensures t in LabelsOf(init + [last]) && FirstIndex(init + [last], t) == FirstIndex(init, t) < |init|
  {
    LabelsOfSnoc(init, last);
    IndexOfElemAppend(LabelsOf(init), [last.title], t);
  }

  /** An appended hit with a new label is the first hit of that label. */
  lemma FirstIndexNew(init: seq<Hit>, last: Hit)
    requires last.title !in LabelsOf(init)
    ensures last.title in LabelsOf(init + [last]) && FirstIndex(init + [last], last.title) == |init|
  {
    LabelsOfSnoc(init, last);
    IndexOfElemNew(LabelsOf(init), last.title);
  }

  /** Every kept hit is the first hit carrying its label. */
  lemma {:induction false} FirstPerLabelFirst(hs: seq<Hit>)
    ensures forall e <- FirstPerLabel(hs) ::
              e.title in LabelsOf(hs) && hs[FirstIndex(hs, e.title)] == e
  {
    if hs != [] {
      var init := hs[..|hs| - 1];
      var last := hs[|hs| - 1];
      assert hs == init + [last];
      FirstPerLabelFirst(init);
      var kept := FirstPerLabel(init);
      var r := FirstPerLabel(hs);
      forall e | e in r
        ensures e.title in LabelsOf(hs) && hs[FirstIndex(hs, e.title)] == e
      {
        if e in kept {
          FirstIndexKeep(init, last, e.title);
          assert hs[FirstIndex(init, e.title)] == init[FirstIndex(init, e.title)];
        } else {
          assert e == last && last.title !in LabelsOf(kept);
          AbsentFromKept(init, last.title);
          FirstIndexNew(init, last);
        }
      }
    }
  }

  /** Kept hits stay in hit order: their first positions increase. */
  lemma {:induction false} FirstPerLabelOrdered(hs: seq<Hit>)
    ensures forall i, j :: 0 <= i < j < |FirstPerLabel(hs)| ==>
              FirstIndex(hs, FirstPerLabel(hs)[i].title) < FirstIndex(hs, FirstPerLabel(hs)[j].title)
  {
    if hs != [] {
      var init := hs[..|hs| - 1];
      var last := hs[|hs| - 1];
      assert hs == init + [last];
      FirstPerLabelOrdered(init);
      FirstPerLabelFirst(init);
      var kept := FirstPerLabel(init);
      var r := FirstPerLabel(hs);
      forall i, j | 0 <= i < j < |r|
        ensures FirstIndex(hs, r[i].title) < FirstIndex(hs, r[j].title)
      {
        assert r[i] == kept[i] && kept[i] in kept;
        FirstIndexKeep(init, last, kept[i].title);
        if j < |kept| {
          assert r[j] == kept[j] && kept[j] in kept;
          FirstIndexKeep(init, last, kept[j].title);
        } else {
          assert r[j] == last && last.title !in LabelsOf(kept);
          AbsentFromKept(init, last.title);
          FirstIndexNew(init, last);
        }
      }
    }
  }

  /** The first `n` elements, or all of them when there are fewer (`xs[:n]`). */
  function Take<T>(xs: seq<T>, n: nat): (r: seq<T>)
    ensures |r| <= n && r <= xs
    ensures |xs| <= n ==> r == xs
  {
    if n <= |xs| then xs[..n] else xs
  }

  /** The loop always makes at least one suggestion before testing the bound. */
  function SuggestionBound(topn: int): nat
  {
    if topn < 1 then 1 else topn
  }

  /** The suggestion made for each hit, in order. */
  function Suggestions(hs: seq<Hit>, env: Env): (r: seq<Suggestion>)
    ensures |r| == |hs|
    ensures forall i :: 0 <= i < |hs| ==> r[i] == ToSuggestion(hs[i], env)
  {
    if hs == [] then [] else Suggestions(hs[..|hs| - 1], env) + [ToSuggestion(hs[|hs| - 1], env)]
  }

  /** The hits autocomplete turns into suggestions. */
  function Chosen(hits: seq<Hit>, topn: int): seq<Hit>
  {
    Take(FirstPerLabel(hits), SuggestionBound(topn))
  }

  function ToSuggestion(h: Hit, env: Env): Suggestion
  {
    Suggestion(h.title, h.id, FormatUrl("", h.id, env))
  }

  lemma SuggestionsSnoc(hs: seq<Hit>, h: Hit, env: Env)
    ensures Suggestions(hs + [h], env) == Suggestions(hs, env) + [ToSuggestion(h, env)]
  {
    assert (hs + [h])[..|hs|] == hs;
  }

  /** The set of the hits' labels, the loop's `seen_titles`. */
  function LabelSet(hs: seq<Hit>): set<string>
  {
    if hs == [] then {} else LabelSet(hs[..|hs| - 1]) + {hs[|hs| - 1].title}
  }

  lemma {:induction false} LabelSetIn(hs: seq<Hit>, l: string)
    ensures l in LabelSet(hs) <==> l in LabelsOf(hs)
  {
    if hs != [] {
      var init := hs[..|hs| - 1];
      LabelSetIn(init, l);
      assert LabelsOf(hs) == LabelsOf(init) + [hs[|hs| - 1].title];
    }
  }

  lemma LabelSetSnoc(hs: seq<Hit>, h: Hit)
    ensures LabelSet(hs + [h]) == LabelSet(hs) + {h.title}
  {
    assert (hs + [h])[..|hs|] == hs;
  }

  /** Once the kept prefix reaches the bound, it is exactly what autocomplete chooses. */
  lemma ChosenAtBound(hits: seq<Hit>, i: nat, topn: int)
    requires i <= |hits|
    requires |FirstPerLabel(hits[..i])| == SuggestionBound(topn)
    ensures Chosen(hits, topn) == FirstPerLabel(hits[..i])
  {
    FirstPerLabelPrefix(hits, i);
  }

  /**
   * The autocomplete loop over the index hits: the first hit of each label,
   * in hit order, stopping once `topn` suggestions are made (after the first
   * one, so that a `topn` below 1 still gives one suggestion).
   */
  method Autocomplete(hits: seq<Hit>, topn: int, env: Env) returns (suggestions: seq<Suggestion>)
    ensures suggestions == Suggestions(Chosen(hits, topn), env)
  {
    var seenTitles: set<string> := {};
    suggestions := [];
    ghost var kept: seq<Hit> := [];
    var i := 0;
    while i < |hits|
      invariant 0 <= i <= |hits|
      invariant kept == FirstPerLabel(hits[..i])
      invariant seenTitles == LabelSet(kept)
      invariant suggestions == Suggestions(kept, env)
      invariant |kept| < SuggestionBound(topn)
    {
      var x := hits[i];
      FirstPerLabelStep(hits, i);
      LabelSetIn(kept, x.title);
      if x.title in seenTitles {
        i := i + 1;
        continue;
      }
      seenTitles := seenTitles + {x.title};
      suggestions := suggestions + [ToSuggestion(x, env)];
      LabelSetSnoc(kept, x);
      SuggestionsSnoc(kept, x, env);
      kept := kept + [x];
      i := i + 1;
      if |suggestions| >= topn {
        ChosenAtBound(hits, i, topn);
        return;
      }
    }
    assert hits[..i] == hits;
  }

  /**
   * What autocomplete promises: at most `max(topn, 1)` suggestions, no label
   * twice, each suggestion the first hit of its label, in hit order, pointing
   * at the submission's page; when the hits carry few enough labels, every
   * label is suggested.
   */
  lemma AutocompleteSpec(hits: seq<Hit>, topn: int)
    ensures var chosen := Take(FirstPerLabel(hits), SuggestionBound(topn));
            && |chosen| <= SuggestionBound(topn)
            && (forall i, j :: 0 <= i < j < |chosen| ==> chosen[i].title != chosen[j].title)
            && (forall e <- chosen :: e.title in LabelsOf(hits) && hits[FirstIndex(hits, e.title)] == e)
            && (forall i, j :: 0 <= i < j < |chosen| ==>
                  FirstIndex(hits, chosen[i].title) < FirstIndex(hits, chosen[j].title))
            && (|FirstPerLabel(hits)| <= SuggestionBound(topn) ==> forall h <- hits :: h.title in LabelsOf(chosen))
  {
    var all := FirstPerLabel(hits);
    var chosen := Take(all, SuggestionBound(topn));
    FirstPerLabelDistinct(hits);
    FirstPerLabelFirst(hits);
    FirstPerLabelOrdered(hits);
    FirstPerLabelCovers(hits);
    assert forall i :: 0 <= i < |chosen| ==> chosen[i] == all[i];
    assert forall e <- chosen :: e in all;
  }

  // ---------------------------------------------------------------- page parameter

  /** The `page` request argument: absent, or the text the client sent. */
  datatype PageArg = Missing | Given(text: string)

  /**
   * The page number a new search asks for: 0 when absent or "undefined",
   * otherwise `max(0, int(page))`; `None` is the `ValueError` of a text that
   * `toInt` (Python's `int`) does not parse.
   */
  function ClampPage(arg: PageArg, toInt: string -> Option<int>): (r: Option<nat>)
    ensures arg == Missing || arg == Given("undefined") ==> r == Some(0)
    ensures arg.Given? && arg.text != "undefined" ==> (r.None? <==> toInt(arg.text).None?)
    ensures r.Some? && r.value != 0 ==> arg.Given? && toInt(arg.text) == Some(r.value)
    ensures arg.Given? && arg.text != "undefined" && toInt(arg.text).Some? && toInt(arg.text).value >= 0 ==>
              r == Some(toInt(arg.text).value)
  {
    match arg
    case Missing => Some(0)
    case Given(text) =>
      if text == "undefined" then Some(0)
      else
        match toInt(text)
        case None => None
        case Some(n) => Some(if n < 0 then 0 else n)
  }

  // ---------------------------------------------------------------- users also ask

  /** The generated questions of earlier searches on the page, each once and never the new question. */
  function AskedQuestions(generated: seq<string>, predicted: string): (r: seq<string>)
    ensures Distinct(r)
    ensures predicted !in r
    ensures forall q <- r :: q in generated
    ensures forall q <- generated :: q != predicted ==> q in r
  {
    if generated == [] then []
    else
      var asked := AskedQuestions(generated[..|generated| - 1], predicted);
      var q := generated[|generated| - 1];
      assert forall x <- generated[..|generated| - 1] :: x in generated;
      assert generated == generated[..|generated| - 1] + [q];
      if q !in asked && q != predicted then asked + [q] else asked
  }

  /**
   * The "users also ask" list of `search_website`: the loop that collects
   * the questions, then the first five of them (the shuffle before the cut
   * is taken as the identity).
   */
  method UsersAlsoAsk(generated: seq<string>, predicted: string) returns (asked: seq<string>)
    ensures asked == Take(AskedQuestions(generated, predicted), 5)
    ensures |asked| <= 5 && Distinct(asked) && predicted !in asked
    ensures forall q <- asked :: q in generated
  {
    asked := [];
    var i := 0;
    while i < |generated|
      invariant 0 <= i <= |generated|
      invariant asked == AskedQuestions(generated[..i], predicted)
    {
      var genq := generated[i];
      assert generated[..i + 1][..i] == generated[..i];
      assert generated[..i + 1][i] == genq;
      if genq !in asked && genq != predicted {
        asked := asked + [genq];
      }
      i := i + 1;
    }
    assert generated[..i] == generated;
    var all := asked;
    asked := Take(all, 5);
    assert forall q <- asked :: q in all;
  }

  // ---------------------------------------------------------------- rerank

  /** A line short enough and long enough to be sent to the reranker. */
  predicate KeptChunk(line: string)
  {
    10 < |line| < 500
  }

  /** `[x for x in lines if len(x) > 10 and len(x) < 500]`. */
  function KeptLines(lines: seq<string>): (r: seq<string>)
    ensures |r| <= |lines|
    ensures forall x <- r :: x in lines && KeptChunk(x)
    ensures forall x <- lines :: KeptChunk(x) ==> x in r
  {
    if lines == [] then []
    else
      var init := lines[..|lines| - 1];
      var last := lines[|lines| - 1];
      assert forall x <- init :: x in lines;
      assert lines == init + [last];
      KeptLines(init) + (if KeptChunk(last) then [last] else [])
  }

  /** The chunks of one document: its kept lines. */
  function DocumentChunks(doc: string): seq<string>
  {
    KeptLines(SplitOn(doc, '\n'))
  }

  /** All chunks sent to the reranker, document after document. */
  function Chunks(docs: seq<string>): seq<string>
  {
    if docs == [] then [] else Chunks(docs[..|docs| - 1]) + DocumentChunks(docs[|docs| - 1])
  }

  /** `chunked_doc_index`: the document each chunk comes from. */
  function ChunkOwners(docs: seq<string>): (owners: seq<nat>)
    ensures |owners| == |Chunks(docs)|
    ensures forall k :: 0 <= k < |owners| ==> owners[k] < |docs|
  {
    if docs == [] then []
    else ChunkOwners(docs[..|docs| - 1]) + seq(|DocumentChunks(docs[|docs| - 1])|, _ => |docs| - 1)
  }

  /**
   * Chunk `k` is a kept line of the document `ChunkOwners(docs)[k]`, owners
   * never decrease, and there is one owner per chunk.
   */
  lemma {:induction false} ChunkOwnersSpec(docs: seq<string>)
    ensures forall k :: 0 <= k < |Chunks(docs)| ==>
              ChunkOwners(docs)[k] < |docs| && Chunks(docs)[k] in DocumentChunks(docs[ChunkOwners(docs)[k]])
    ensures forall k, l :: 0 <= k < l < |ChunkOwners(docs)| ==> ChunkOwners(docs)[k] <= ChunkOwners(docs)[l]
  {
    ChunkOwnersBelong(docs);
    ChunkOwnersSorted(docs);
  }

  lemma {:induction false} ChunkOwnersBelong(docs: seq<string>)
    ensures forall k :: 0 <= k < |Chunks(docs)| ==>
              ChunkOwners(docs)[k] < |docs| && Chunks(docs)[k] in DocumentChunks(docs[ChunkOwners(docs)[k]])
  {
    if docs != [] {
      var init := docs[..|docs| - 1];
      ChunkOwnersBelong(init);
      var c := Chunks(init);
      var o := ChunkOwners(init);
      var last := DocumentChunks(docs[|docs| - 1]);
      var all := Chunks(docs);
      var owners := ChunkOwners(docs);
      assert all == c + last;
      assert owners == o + seq(|last|, _ => |docs| - 1);
      forall k | 0 <= k < |all|
        ensures owners[k] < |docs| && all[k] in DocumentChunks(docs[owners[k]])
      {
        if k < |c| {
          assert all[k] == c[k] && owners[k] == o[k];
          assert docs[o[k]] == init[o[k]];
        } else {
          assert all[k] == last[k - |c|];
          assert owners[k] == |docs| - 1;
        }
      }
    }
  }

  lemma {:induction false} ChunkOwnersSorted(docs: seq<string>)
    ensures forall k, l :: 0 <= k < l < |ChunkOwners(docs)| ==> ChunkOwners(docs)[k] <= ChunkOwners(docs)[l]
  {
    if docs != [] {
      var init := docs[..|docs| - 1];
      ChunkOwnersSorted(init);
      var o := ChunkOwners(init);
      var owners := ChunkOwners(docs);
      var n := |DocumentChunks(docs[|docs| - 1])|;
      assert owners == o + seq(n, _ => |docs| - 1);
      forall k, l | 0 <= k < l < |owners|
        ensures owners[k] <= owners[l]
      {
        if l < |o| {
          assert owners[k] == o[k] && owners[l] == o[l];
        } else if k < |o| {
          assert owners[k] == o[k] < |init|;
        }
      }
    }
  }

  /** One more document appends its kept lines and, once per line, its position. */
  lemma ChunksStep(docs: seq<string>, i: nat)
    requires i < |docs|
    ensures Chunks(docs[..i + 1]) == Chunks(docs[..i]) + DocumentChunks(docs[i])
    ensures ChunkOwners(docs[..i + 1]) == ChunkOwners(docs[..i]) + seq(|DocumentChunks(docs[i])|, _ => i)
  {
    assert docs[..i + 1][..i] == docs[..i];
    assert docs[..i + 1][i] == docs[i];
  }

  /**
   * The chunking loop of `rerank`: each document is split on newlines, the
   * kept lines are appended to `chunkedDocs` and the document's position to
   * `chunkedDocIndex`.
   */
  method ChunkDocuments(documents: seq<string>) returns (chunkedDocs: seq<string>, chunkedDocIndex: seq<nat>)
    ensures chunkedDocs == Chunks(documents)
    ensures chunkedDocIndex == ChunkOwners(documents)
  {
    chunkedDocs := [];
    chunkedDocIndex := [];
    var i := 0;
    while i < |documents|
      invariant 0 <= i <= |documents|
      invariant chunkedDocs == Chunks(documents[..i])
      invariant chunkedDocIndex == ChunkOwners(documents[..i])
    {
      var splitDocs := SplitOn(documents[i], '\n');
      splitDocs := KeptLines(splitDocs);
      ghost var base, before := chunkedDocs, chunkedDocIndex;
      var j := 0;
      while j < |splitDocs|
        invariant 0 <= j <= |splitDocs|
        invariant chunkedDocs == base + splitDocs[..j]
        invariant chunkedDocIndex == before + seq(j, _ => i)
      {
        PrefixSnoc(base, splitDocs, j);
        RepeatSnoc(before, j, i);
        chunkedDocs := chunkedDocs + [splitDocs[j]];
        chunkedDocIndex := chunkedDocIndex + [i];
        j := j + 1;
      }
      assert splitDocs[..j] == splitDocs;
      ChunksStep(documents, i);
      i := i + 1;
    }
    assert documents[..i] == documents;
  }

  /** The indices a Python list of length `n` accepts, negative ones counting from the end. */
  predicate InPyRange(i: int, n: nat)
  {
    -(n as int) <= i < n
  }

  /** `xs[i]` with Python's negative indexing. */
  function PyIndex<T>(xs: seq<T>, i: int): T
    requires InPyRange(i, |xs|)
  {
    if i < 0 then xs[|xs| + i] else xs[i]
  }

  /**
   * The rewriting of one query's `indices` in place: each chunk index becomes
   * the index of its document. An index out of range raises `IndexError`,
   * after which `rerank` returns `{}` (`ok` false) and the list is dropped.
   */
  method RemapIndices(indices: array<int>, chunkedDocIndex: seq<nat>) returns (ok: bool)
    modifies indices
    ensures ok <==> forall k :: 0 <= k < indices.Length ==> InPyRange(old(indices[k]), |chunkedDocIndex|)
    ensures ok ==> forall k :: 0 <= k < indices.Length ==> indices[k] == PyIndex(chunkedDocIndex, old(indices[k]))
  {
    var i := 0;
    while i < indices.Length
      invariant 0 <= i <= indices.Length
      invariant forall k :: 0 <= k < i ==> InPyRange(old(indices[k]), |chunkedDocIndex|)
      invariant forall k :: 0 <= k < i ==> indices[k] == PyIndex(chunkedDocIndex, old(indices[k]))
      invariant forall k :: i <= k < indices.Length ==> indices[k] == old(indices[k])
    {
      if !InPyRange(indices[i], |chunkedDocIndex|) {
        return false;
      }
      indices[i] := PyIndex(chunkedDocIndex, indices[i]);
      i := i + 1;
    }
    return true;
  }

  /** The arrays of different queries are different lists. */
  predicate Separate(ranks: seq<array<int>>)
  {
    forall p, q :: 0 <= p < q < |ranks| ==> ranks[p] != ranks[q]
  }

  /**
   * The remap over every query of the reranker's answer (`scored_docs`),
   * stopping at the first index out of range.
   */
  method RemapRanks(ranks: seq<array<int>>, chunkedDocIndex: seq<nat>) returns (ok: bool)
    requires Separate(ranks)
    modifies set a | a in ranks
    ensures ok <==> forall q, k :: 0 <= q < |ranks| && 0 <= k < ranks[q].Length ==>
                      InPyRange(old(ranks[q][k]), |chunkedDocIndex|)
    ensures ok ==> forall q, k :: 0 <= q < |ranks| && 0 <= k < ranks[q].Length ==>
                     ranks[q][k] == PyIndex(chunkedDocIndex, old(ranks[q][k]))
  {
    var q := 0;
    while q < |ranks|
      invariant 0 <= q <= |ranks|
      invariant forall p, k :: 0 <= p < q && 0 <= k < ranks[p].Length ==>
                  InPyRange(old(ranks[p][k]), |chunkedDocIndex|) && ranks[p][k] == PyIndex(chunkedDocIndex, old(ranks[p][k]))
      invariant forall p :: q <= p < |ranks| ==> ranks[p][..] == old(ranks[p][..])
    {
      var indices := ranks[q];
      var done := RemapIndices(indices, chunkedDocIndex);
      if !done {
        assert forall k :: 0 <= k < indices.Length ==> old(ranks[q][..])[k] == old(ranks[q][k]);
        return false;
      }
      forall k | 0 <= k < indices.Length
        ensures old(ranks[q][k]) == old(indices[k])
      {
        assert old(ranks[q][..])[k] == old(ranks[q][k]);
      }
      q := q + 1;
    }
    return true;
  }

  /**
   * `rerank`: the chunks are always computed; they are scored only when the
   * neural service is configured and answers with status 200, and the
   * answer is returned only when all its indices could be rewritten.
   * `ranks` is the service's answer, one list of chunk indices per query.
   */
  method Rerank(documents: seq<string>, neuralApiSet: bool, answered: bool, status: int, ranks: seq<array<int>>)
    returns (chunkedDocs: seq<string>, ranked: bool)
    requires Separate(ranks)
    modifies set a | a in ranks
    ensures chunkedDocs == Chunks(documents)
    ensures ranked <==> neuralApiSet && answered && status == 200 &&
                        forall q, k :: 0 <= q < |ranks| && 0 <= k < ranks[q].Length ==>
                          InPyRange(old(ranks[q][k]), |ChunkOwners(documents)|)
    ensures ranked ==> forall q, k :: 0 <= q < |ranks| && 0 <= k < ranks[q].Length ==>
                         ranks[q][k] == PyIndex(ChunkOwners(documents), old(ranks[q][k]))
  {
    var chunkedDocIndex;
    chunkedDocs, chunkedDocIndex := ChunkDocuments(documents);
    if !neuralApiSet || !answered || status != 200 {
      return chunkedDocs, false;
    }
    ranked := RemapRanks(ranks, chunkedDocIndex);
  }

  /**
   * A rewritten index names a document, and that document holds the chunk
   * the reranker scored.
   */
  lemma RemappedIndexNamesDocument(documents: seq<string>, i: int)
    requires InPyRange(i, |ChunkOwners(documents)|)
    ensures PyIndex(ChunkOwners(documents), i) < |documents|
    ensures PyIndex(Chunks(documents), i) in DocumentChunks(documents[PyIndex(ChunkOwners(documents), i)])
  {
    ChunkOwnersSpec(documents);
  }

  // ---------------------------------------------------------------- generate

  /** `line[:n]`: at most the first `n` characters. */
  function PyPrefix(line: string, n: nat): string
  {
    if n <= |line| then line[..n] else line
  }

  /** Comparing `line[:len(t)]` with `t` is testing that `line` begins with `t`. */
  lemma PyPrefixMatches(line: string, t: string)
    ensures PyPrefix(line, |t|) == t <==> StartsWith(line, t)
  {
  }

  /** The remainders of the lines that begin with `lineType`, in order. */
  function LinesOfType(lines: seq<string>, lineType: string): (r: seq<string>)
    ensures forall x <- r :: lineType + x in lines
    ensures forall l <- lines :: StartsWith(l, lineType) ==> l[|lineType|..] in r
  {
    if lines == [] then []
    else
      var init := lines[..|lines| - 1];
      var last := lines[|lines| - 1];
      assert forall x <- init :: x in lines;
      assert lines == init + [last];
      assert StartsWith(last, lineType) ==> lineType + last[|lineType|..] == last;
      LinesOfType(init, lineType) + (if StartsWith(last, lineType) then [last[|lineType|..]] else [])
  }

  /** The extraction loop of `generate` over the model's output. */
  method ExtractLines(output: string, lineType: string) returns (extracted: seq<string>)
    ensures extracted == LinesOfType(SplitOn(output, '\n'), lineType)
  {
    var lines := SplitOn(output, '\n');
    extracted := [];
    var i := 0;
    while i < |lines|
      invariant 0 <= i <= |lines|
      invariant extracted == LinesOfType(lines[..i], lineType)
    {
      var line := lines[i];
      assert lines[..i + 1][..i] == lines[..i];
      assert lines[..i + 1][i] == line;
      PyPrefixMatches(line, lineType);
      if PyPrefix(line, |lineType|) == lineType {
        var content := line[|lineType|..];
        extracted := extracted + [content];
      }
      i := i + 1;
    }
    assert lines[..i] == lines;
  }

  /** Lines written as `lineType` followed by a text come back as that text. */
  lemma {:induction false} LinesOfTypeJoined(texts: seq<string>, lineType: string)
    requires forall t <- texts :: '\n' !in t
    requires '\n' !in lineType
    ensures texts != [] ==>
              LinesOfType(SplitOn(JoinOn(Prefixed(texts, lineType), '\n'), '\n'), lineType) == texts
  {
    if texts != [] {
      var lines := Prefixed(texts, lineType);
      assert forall l <- lines :: '\n' !in l;
      SplitJoin(lines, '\n');
      PrefixedOfType(texts, lineType);
    }
  }

  /** Each text written as a line of the given type. */
  function Prefixed(texts: seq<string>, lineType: string): (r: seq<string>)
    ensures |r| == |texts|
    ensures forall i :: 0 <= i < |texts| ==> r[i] == lineType + texts[i]
  {
    if texts == [] then [] else Prefixed(texts[..|texts| - 1], lineType) + [lineType + texts[|texts| - 1]]
  }

  lemma {:induction false} PrefixedOfType(texts: seq<string>, lineType: string)
    ensures LinesOfType(Prefixed(texts, lineType), lineType) == texts
  {
    if texts != [] {
      var init := texts[..|texts| - 1];
      var last := texts[|texts| - 1];
      PrefixedOfType(init, lineType);
      var lines := Prefixed(texts, lineType);
      assert lines[..|lines| - 1] == Prefixed(init, lineType);
      assert StartsWith(lineType + last, lineType);
      assert (lineType + last)[|lineType|..] == last;
      assert init + [last] == texts;
    }
  }

  /** What the neural service sent back, if the request and its decoding succeeded. */
  datatype GenerateReply =
    | Unreachable
    | Reply(status: int, output: Option<string>, hasMessage: bool)

  /** What `generate` gives its caller: a list, or an exception it lets escape. */
  datatype GenerateResult = Returned(lines: seq<string>) | Raised

  /**
   * `generate` as written: after a reply with a status other than 200 that
   * carries a message, `extracted` was never assigned and the final
   * `return extracted` raises `UnboundLocalError`. A missing `output` or
   * `message` is a `KeyError` inside the `try`, which returns `[]`.
   */
  function GenerateAsWritten(neuralApiSet: bool, reply: GenerateReply, lineType: string): GenerateResult
  {
    if !neuralApiSet then Returned([])
    else
      match reply
      case Unreachable => Returned([])
      case Reply(status, output, hasMessage) =>
        if status == 200 then
          (if output.None? then Returned([]) else Returned(LinesOfType(SplitOn(output.value, '\n'), lineType)))
        else if hasMessage then Raised
        else Returned([])
  }

  lemma FailedReplyRaises(lineType: string)
    ensures GenerateAsWritten(true, Reply(500, None, true), lineType) == Raised
  {
  }

  /** `generate` as intended: every failure gives the empty list. */
  function Generate(neuralApiSet: bool, reply: GenerateReply, lineType: string): (r: GenerateResult)
    ensures r.Returned?
    ensures neuralApiSet && reply.Reply? && reply.status == 200 && reply.output.Some? ==>
              r.lines == LinesOfType(SplitOn(reply.output.value, '\n'), lineType)
    ensures !(neuralApiSet && reply.Reply? && reply.status == 200) ==> r.lines == []
  {
    if neuralApiSet && reply.Reply? && reply.status == 200 && reply.output.Some? then
      Returned(LinesOfType(SplitOn(reply.output.value, '\n'), lineType))
    else Returned([])
  }

  /** The corrected `generate` agrees with the original wherever the original returns. */
  lemma GenerateAgrees(neuralApiSet: bool, reply: GenerateReply, lineType: string)
    ensures GenerateAsWritten(neuralApiSet, reply, lineType).Returned? ==>
              Generate(neuralApiSet, reply, lineType) == GenerateAsWritten(neuralApiSet, reply, lineType)
    ensures GenerateAsWritten(neuralApiSet, reply, lineType).Raised? <==>
              neuralApiSet && reply.Reply? && reply.status != 200 && reply.hasMessage
  {
  }

  // ---------------------------------------------------------------- visualisation graph

  /** A graph node: a question, identified by its position, or a submission. */
  datatype NodeId = QuestionNode(index: nat) | SubmissionNode(id: Id)

  /** A question asked about a submission, with the submission that answers it if one scored well. */
  datatype Question = Question(text: string, sourceId: Id, targetId: Option<Id>)

  /** An exported search result, with the submissions that mention it. */
  datatype ExportedResult = ExportedResult(submissionId: Id, title: string, submissionUrl: string, mentions: seq<Id>)

  datatype Node = Node(id: NodeId, caption: string, title: string, shape: string, color: string, value: int, url: string)

  datatype Edge = Edge(src: NodeId, dst: NodeId)

  const AnsweredColor: string := "#FFFFFF"
  const UnansweredColor: string := "#FF9D9D"
  const ResultColor: string := "#9DE6FF"

  /** A result's label: its title, cut to 50 characters and marked with "..." when longer. */
  function VizLabel(title: string): (r: string)
    ensures |title| <= 50 ==> r == title
    ensures |title| > 50 ==> |r| == 53 && r[..50] == title[..50] && r[50..] == "..."
  {
    if |title| > 50 then title[..50] + "..." else title
  }

  function QuestionNodeOf(q: Question, index: nat): Node
  {
    Node(QuestionNode(index), q.text, q.text, "box",
         if q.targetId.Some? then AnsweredColor else UnansweredColor,
         8, "https://www.google.com/search?q=" + q.text)
  }

  /** The edges of one question: to its answer when there is one, then from its source. */
  function QuestionEdgesOf(q: Question, index: nat): seq<Edge>
  {
    (if q.targetId.Some? then [Edge(QuestionNode(index), SubmissionNode(q.targetId.value))] else [])
    + [Edge(SubmissionNode(q.sourceId), QuestionNode(index))]
  }

  function QuestionNodes(qs: seq<Question>): (r: seq<Node>)
    ensures |r| == |qs|
    ensures forall i :: 0 <= i < |qs| ==> r[i] == QuestionNodeOf(qs[i], i)
  {
    if qs == [] then [] else QuestionNodes(qs[..|qs| - 1]) + [QuestionNodeOf(qs[|qs| - 1], |qs| - 1)]
  }

  function QuestionEdges(qs: seq<Question>): (r: seq<Edge>)
    ensures forall e <- r :: e.src.QuestionNode? ==> e.src.index < |qs|
    ensures forall e <- r :: e.dst.QuestionNode? ==> e.dst.index < |qs|
  {
    if qs == [] then [] else QuestionEdges(qs[..|qs| - 1]) + QuestionEdgesOf(qs[|qs| - 1], |qs| - 1)
  }

  function ResultNodeOf(r: ExportedResult): Node
  {
    Node(SubmissionNode(r.submissionId), VizLabel(r.title), r.title, "ellipse", ResultColor, 8, r.submissionUrl)
  }

  function ResultNodes(rs: seq<ExportedResult>): (r: seq<Node>)
    ensures |r| == |rs|
    ensures forall i :: 0 <= i < |rs| ==> r[i] == ResultNodeOf(rs[i])
  {
    if rs == [] then [] else ResultNodes(rs[..|rs| - 1]) + [ResultNodeOf(rs[|rs| - 1])]
  }

  /** The edges from the submissions that mention a result to the result. */
  function MentionEdgesOf(r: ExportedResult): (es: seq<Edge>)
    ensures |es| == |r.mentions|
    ensures forall k :: 0 <= k < |es| ==> es[k] == Edge(SubmissionNode(r.mentions[k]), SubmissionNode(r.submissionId))
  {
    seq(|r.mentions|, k requires 0 <= k < |r.mentions| => Edge(SubmissionNode(r.mentions[k]), SubmissionNode(r.submissionId)))
  }

  function MentionEdges(rs: seq<ExportedResult>): seq<Edge>
  {
    if rs == [] then [] else MentionEdges(rs[..|rs| - 1]) + MentionEdgesOf(rs[|rs| - 1])
  }

  /**
   * `prep_subs_viz_conns`: the question nodes, then the result nodes; the
   * question edges, then the mention edges.
   */
  method PrepSubsVizConns(results: seq<ExportedResult>, questions: seq<Question>)
    returns (nodes: seq<Node>, edges: seq<Edge>)
    ensures nodes == QuestionNodes(questions) + ResultNodes(results)
    ensures edges == QuestionEdges(questions) + MentionEdges(results)
  {
    nodes, edges := AddQuestions(questions);
    nodes, edges := AddResults(results, nodes, edges);
  }

  /** The loop over the questions. */
  method AddQuestions(questions: seq<Question>) returns (nodes: seq<Node>, edges: seq<Edge>)
    ensures nodes == QuestionNodes(questions)
    ensures edges == QuestionEdges(questions)
  {
    nodes := [];
    edges := [];
    var id := 0;
    while id < |questions|
      invariant 0 <= id <= |questions|
      invariant nodes == QuestionNodes(questions[..id])
      invariant edges == QuestionEdges(questions[..id])
    {
      var question := questions[id];
      QuestionsStep(questions, id);
      ghost var edgesBefore := edges;
      var color;
      if question.targetId.Some? {
        edges := edges + [Edge(QuestionNode(id), SubmissionNode(question.targetId.value))];
        color := AnsweredColor;
      } else {
        color := UnansweredColor;
      }
      edges := edges + [Edge(SubmissionNode(question.sourceId), QuestionNode(id))];
      QuestionEdgesAppend(edgesBefore, question, id);
      var node := Node(QuestionNode(id), question.text, question.text, "box", color, 8,
                       "https://www.google.com/search?q=" + question.text);
      assert node == QuestionNodeOf(question, id);
      nodes := nodes + [node];
      id := id + 1;
    }
    assert questions[..id] == questions;
  }

  /** The two appends of the loop body add the question's edges. */
  lemma QuestionEdgesAppend(edges: seq<Edge>, q: Question, id: nat)
    ensures (if q.targetId.Some? then edges + [Edge(QuestionNode(id), SubmissionNode(q.targetId.value))] else edges)
              + [Edge(SubmissionNode(q.sourceId), QuestionNode(id))] == edges + QuestionEdgesOf(q, id)
  {
    if q.targetId.Some? {
      AppendAssoc(edges, [Edge(QuestionNode(id), SubmissionNode(q.targetId.value))], [Edge(SubmissionNode(q.sourceId), QuestionNode(id))]);
    } else {
      assert QuestionEdgesOf(q, id) == [Edge(SubmissionNode(q.sourceId), QuestionNode(id))];
    }
  }

  /** One more question adds its node and its edges. */
  lemma QuestionsStep(qs: seq<Question>, i: nat)
    requires i < |qs|
    ensures QuestionNodes(qs[..i + 1]) == QuestionNodes(qs[..i]) + [QuestionNodeOf(qs[i], i)]
    ensures QuestionEdges(qs[..i + 1]) == QuestionEdges(qs[..i]) + QuestionEdgesOf(qs[i], i)
  {
    assert qs[..i + 1][..i] == qs[..i];
  }

  /** The loop over the results, appending to the question graph. */
  method AddResults(results: seq<ExportedResult>, nodes0: seq<Node>, edges0: seq<Edge>)
    returns (nodes: seq<Node>, edges: seq<Edge>)
    ensures nodes == nodes0 + ResultNodes(results)
    ensures edges == edges0 + MentionEdges(results)
  {
    nodes := nodes0;
    edges := edges0;
    var i := 0;
    while i < |results|
      invariant 0 <= i <= |results|
      invariant nodes == nodes0 + ResultNodes(results[..i])
      invariant edges == edges0 + MentionEdges(results[..i])
    {
      var result := results[i];
      ResultsStep(results, i);
      AppendAssoc(nodes0, ResultNodes(results[..i]), [ResultNodeOf(result)]);
      AppendAssoc(edges0, MentionEdges(results[..i]), MentionEdgesOf(result));
      nodes := nodes + [ResultNodeOf(result)];
      edges := AddMentions(result, edges);
      i := i + 1;
    }
    assert results[..i] == results;
  }

  /** One more result adds its node and its mention edges. */
  lemma ResultsStep(results: seq<ExportedResult>, i: nat)
    requires i < |results|
    ensures ResultNodes(results[..i + 1]) == ResultNodes(results[..i]) + [ResultNodeOf(results[i])]
    ensures MentionEdges(results[..i + 1]) == MentionEdges(results[..i]) + MentionEdgesOf(results[i])
  {
    assert results[..i + 1][..i] == results[..i];
  }

  /** The edges from the submissions that mention one result. */
  method AddMentions(result: ExportedResult, edges0: seq<Edge>) returns (edges: seq<Edge>)
    ensures edges == edges0 + MentionEdgesOf(result)
  {
    edges := edges0;
    var j := 0;
    while j < |result.mentions|
      invariant 0 <= j <= |result.mentions|
      invariant edges == edges0 + MentionEdgesOf(result)[..j]
    {
      assert MentionEdgesOf(result)[..j + 1] == MentionEdgesOf(result)[..j] + [MentionEdgesOf(result)[j]];
      edges := edges + [Edge(SubmissionNode(result.mentions[j]), SubmissionNode(result.submissionId))];
      j := j + 1;
    }
    assert MentionEdgesOf(result)[..j] == MentionEdgesOf(result);
  }

  /**
   * A question has an edge to a submission exactly when that submission is
   * its answer, and every question has the edge from the submission it was
   * asked about.
   */
  lemma {:induction false} QuestionEdgesSpec(qs: seq<Question>, i: nat, t: Id)
    requires i < |qs|
    ensures Edge(QuestionNode(i), SubmissionNode(t)) in QuestionEdges(qs) <==> qs[i].targetId == Some(t)
    ensures Edge(SubmissionNode(qs[i].sourceId), QuestionNode(i)) in QuestionEdges(qs)
  {
    var init := qs[..|qs| - 1];
    var own := QuestionEdgesOf(qs[|qs| - 1], |qs| - 1);
    assert QuestionEdges(qs) == QuestionEdges(init) + own;
    if i < |qs| - 1 {
      QuestionEdgesSpec(init, i, t);
      assert init[i] == qs[i];
      assert Edge(QuestionNode(i), SubmissionNode(t)) !in own;
    } else {
      assert Edge(QuestionNode(i), SubmissionNode(t)) !in QuestionEdges(init);
      assert Edge(SubmissionNode(qs[i].sourceId), QuestionNode(i)) in own;
    }
  }

  /** The colour of a question node tells whether the question was answered. */
  lemma QuestionColour(qs: seq<Question>, i: nat)
    requires i < |qs|
    ensures QuestionNodes(qs)[i].id == QuestionNode(i)
    ensures QuestionNodes(qs)[i].color == AnsweredColor <==> qs[i].targetId.Some?
  {
  }

  // ---------------------------------------------------------------- export

  /** A cached search: the number of hits it reports and its pages. */
  datatype CachedSearch<R> = CachedSearch(numberOfHits: nat, pages: seq<seq<R>>)

  /** `cache.search(user_id, search_id, index)`: a page past the end is empty. */
  function CachePage<R>(c: CachedSearch<R>, index: nat): seq<R>
  {
    if index < |c.pages| then c.pages[index] else []
  }

  /** How many pages the export loop reads: one, then more while hits remain beyond ten per page. */
  function PagesRead(numberOfHits: nat): nat
  {
    if numberOfHits <= 10 then 1 else (numberOfHits + 9) / 10
  }

  /** The first `n` cached pages, concatenated. */
  function ReadPages<R>(c: CachedSearch<R>, n: nat): seq<R>
  {
    if n == 0 then [] else ReadPages(c, n - 1) + CachePage(c, n - 1)
  }

  /**
   * The paging loop of `export_helper`: pages 0, 1, … are requested while
   * `number_of_hits > index * 10 + 10`. `requested` lists the page indices.
   */
  method ExportPaging<R>(c: CachedSearch<R>) returns (allResults: seq<R>, requested: seq<nat>)
    ensures requested == seq(PagesRead(c.numberOfHits), i => i)
    ensures allResults == ReadPages(c, PagesRead(c.numberOfHits))
  {
    var index := 0;
    var numberOfHits := c.numberOfHits;
    var page := CachePage(c, index);
    requested := [index];
    allResults := page;
    assert ReadPages(c, 1) == [] + CachePage(c, 0);
    while numberOfHits > index * 10 + 10
      invariant numberOfHits == c.numberOfHits
      invariant index == 0 || numberOfHits > index * 10
      invariant index + 1 <= PagesRead(numberOfHits)
      invariant requested == seq(index + 1, i => i)
      invariant allResults == ReadPages(c, index + 1)
      decreases numberOfHits - index * 10
    {
      index := index + 1;
      page := CachePage(c, index);
      requested := requested + [index];
      assert seq(index, i => i) + [index] == seq(index + 1, i => i);
      allResults := allResults + page;
    }
  }

  /** `results` cut into pages of ten, as a cache would serve them. */
  function PagesOfTen<R>(results: seq<R>): seq<seq<R>>
    decreases |results|
  {
    if |results| <= 10 then [results] else [results[..10]] + PagesOfTen(results[10..])
  }

  lemma {:induction false} PagesOfTenSpec<R>(results: seq<R>)
    ensures |PagesOfTen(results)| == PagesRead(|results|)
    ensures Concat(PagesOfTen(results)) == results
    decreases |results|
  {
    if |results| > 10 {
      PagesOfTenSpec(results[10..]);
      assert results[..10] + results[10..] == results;
      assert Concat(PagesOfTen(results)) == results[..10] + Concat(PagesOfTen(results[10..]));
    } else {
      assert Concat([results]) == results + Concat([results][1..]);
    }
  }

  lemma {:induction false} ReadPagesIsConcat<R>(c: CachedSearch<R>, n: nat)
    requires n <= |c.pages|
    ensures ReadPages(c, n) == Concat(c.pages[..n])
  {
    if n > 0 {
      ReadPagesIsConcat(c, n - 1);
      assert c.pages[..n] == c.pages[..n - 1] + [c.pages[n - 1]];
      ConcatSnoc(c.pages[..n - 1], c.pages[n - 1]);
    }
  }

  /** When the cache holds the results in pages of ten, the export reads every result back, in order. */
  lemma ExportReadsEverything<R>(results: seq<R>)
    ensures ReadPages(CachedSearch(|results|, PagesOfTen(results)), PagesRead(|results|)) == results
  {
    var c := CachedSearch(|results|, PagesOfTen(results));
    PagesOfTenSpec(results);
    ReadPagesIsConcat(c, PagesRead(|results|));
    assert c.pages[..PagesRead(|results|)] == c.pages;
  }

  /** The exported `source_url`: empty when the original URL is the submission's own page. */
  function ExportSourceUrl(origUrl: string, submissionId: Id, env: Env): (r: string)
    ensures r != "" ==> r == origUrl
    ensures r == "" <==> origUrl == FormatUrl("", submissionId, env) || origUrl == ""
  {
    if origUrl == FormatUrl("", submissionId, env) then "" else origUrl
  }

  // ---------------------------------------------------------------- choice of index query

  /** The index query `search_submissions` makes, or none for an unsupported case. */
  datatype IndexRequest =
    | OwnSubmissions(userId: Id, communityId: Option<Id>, pageSize: nat)
    | CommunitySubmissions(community: Id, pageSize: nat)
    | QuerySearch(query: string, communities: seq<Id>, scopedTo: Option<Id>, pageSize: nat)
    | NotSupported

  /**
   * `search_submissions`: without a query, one's own submissions (within
   * the one requested community, if exactly one) or a single community's
   * submissions; with a query, a search that is scoped to the user for
   * one's own submissions.
   */
  function SearchSubmissions(userId: Id, requested: seq<Id>, query: string, ownSubmissions: bool, numResults: nat)
    : (r: IndexRequest)
    ensures r.NotSupported? <==> query == "" && !ownSubmissions && |requested| != 1
    ensures r.QuerySearch? <==> query != ""
    ensures r.QuerySearch? ==> r.query == query && r.communities == requested && (r.scopedTo.Some? <==> ownSubmissions)
    ensures r.OwnSubmissions? ==> query == "" && ownSubmissions && r.userId == userId &&
                                  (r.communityId.Some? <==> |requested| == 1)
    ensures r.CommunitySubmissions? ==> |requested| == 1 && r.community == requested[0] && !ownSubmissions
    ensures !r.NotSupported? ==> r.pageSize == numResults
  {
    if query == "" then
      if ownSubmissions then
        if |requested| == 1 then OwnSubmissions(userId, Some(requested[0]), numResults)
        else OwnSubmissions(userId, None, numResults)
      else if |requested| == 1 then CommunitySubmissions(requested[0], numResults)
      else NotSupported
    else if ownSubmissions then QuerySearch(query, requested, Some(userId), numResults)
    else QuerySearch(query, requested, None, numResults)
  }

  // ---------------------------------------------------------------- community access

  /** A requested community is readable when the user is in it, it is public, or it does not exist. */
  predicate MayRead(rc: Id, userCommunities: seq<Id>, table: CommunityTable)
  {
    rc in userCommunities || rc !in table || table[rc].isPublic
  }

  /** `validate_community_access`: the first requested private community the user is not in refuses. */
  method ValidateCommunityAccess(userCommunities: seq<Id>, requested: seq<Id>, table: CommunityTable)
    returns (ok: bool)
    ensures ok <==> forall rc <- requested :: MayRead(rc, userCommunities, table)
  {
    var i := 0;
    while i < |requested|
      invariant 0 <= i <= |requested|
      invariant forall k :: 0 <= k < i ==> MayRead(requested[k], userCommunities, table)
    {
      var rcId := requested[i];
      if rcId !in userCommunities {
        if rcId in table && !table[rcId].isPublic {
          assert requested[i] in requested && !MayRead(requested[i], userCommunities, table);
          return false;
        }
      }
      i := i + 1;
    }
    return true;
  }
}
