/**
 * The submission form of the website: `[[term]]` mentions in the
 * description ask the autocomplete endpoint for submissions to link, and
 * choosing one replaces the mention with a markdown link. The form's React
 * and store state (the reply form's own state or the submission store; both
 * branches behave alike) is a class; the replies of the endpoint are inputs.
 */
module SubmissionForm {
  import opened Wrappers

  // ---------------------------------------------------------------- the mention pattern

  /** The end of the run of non-`]` characters starting at `i`. */
  function RunEnd(s: string, i: nat): (j: nat)
    requires i <= |s|
    ensures i <= j <= |s|
    ensures forall k :: i <= k < j ==> s[k] != ']'
    ensures j < |s| ==> s[j] == ']'
    decreases |s| - i
  {
    if i == |s| || s[i] == ']' then i else RunEnd(s, i + 1)
  }

  /**
   * `/\[\[([^\]]+)\]\]/` matches at `p`: two `[`, a non-empty run of
   * non-`]` characters (greedy; a shorter run could not be followed by `]`),
   * then two `]`.
   */
  predicate MatchAt(s: string, p: nat)
  {
    && p + 2 <= |s| && s[p] == '[' && s[p + 1] == '['
    && RunEnd(s, p + 2) > p + 2 && RunEnd(s, p + 2) + 2 <= |s| && s[RunEnd(s, p + 2) + 1] == ']'
  }

  /** The leftmost match at or after `from`. */
  function FirstMatch(s: string, from: nat): (r: Option<nat>)
    requires from <= |s|
    ensures r.Some? ==> from <= r.value <= |s| && MatchAt(s, r.value)
    ensures r.Some? ==> forall p :: from <= p < r.value ==> !MatchAt(s, p)
    ensures r.None? ==> forall p :: from <= p ==> !MatchAt(s, p)
    decreases |s| - from
  {
    if MatchAt(s, from) then Some(from)
    else if from == |s| then None
    else FirstMatch(s, from + 1)
  }

  /** What `regex.exec` returns: the captured term and the new `lastIndex`. */
  datatype MentionMatch = MentionMatch(term: string, next: nat)

  /** `regex.exec(s)` of the global pattern with `lastIndex == from`. */
  function Exec(s: string, from: nat): (m: Option<MentionMatch>)
    requires from <= |s|
    ensures m.Some? ==> from < m.value.next <= |s|
  {
    match FirstMatch(s, from)
    case None => None
    case Some(p) => Some(MentionMatch(s[p + 2..RunEnd(s, p + 2)], RunEnd(s, p + 2) + 2))
  }

  /** Every term the global pattern captures from `from` on, in order. */
  function Mentions(s: string, from: nat): (r: seq<string>)
    requires from <= |s|
    ensures forall t <- r :: t != [] && ']' !in t
    decreases |s| - from
  {
    match Exec(s, from)
    case None => []
    case Some(m) => [m.term] + Mentions(s, m.next)
  }

  /** The `while (regex.exec(...))` loop that collects the captured terms. */
  method ScanMentions(s: string) returns (matches: seq<string>)
    ensures matches == Mentions(s, 0)
  {
    matches := [];
    var lastIndex := 0;
    var found := Exec(s, lastIndex);
    while found.Some?
      invariant lastIndex <= |s|
      invariant found == Exec(s, lastIndex)
      invariant matches + Mentions(s, lastIndex) == Mentions(s, 0)
      decreases |s| - lastIndex
    {
      matches := matches + [found.value.term];
      lastIndex := found.value.next;
      found := Exec(s, lastIndex);
    }
  }

  /** `s.replace(regex, replacement)` with the non-global pattern: the first mention only. */
  function ReplaceFirstMention(s: string, replacement: string): string
  {
    match FirstMatch(s, 0)
    case None => s
    case Some(p) => s[..p] + replacement + s[RunEnd(s, p + 2) + 2..]
  }

  lemma {:induction false} RunEndOver(s: string, i: nat, j: nat)
    requires i <= j <= |s|
    requires forall k :: i <= k < j ==> s[k] != ']'
    requires j < |s| ==> s[j] == ']'
    ensures RunEnd(s, i) == j
    decreases j - i
  {
    if i < j {
      RunEndOver(s, i + 1, j);
    }
  }

  lemma {:induction false} FirstMatchAfter(s: string, from: nat, p: nat)
    requires from <= p <= |s| && MatchAt(s, p)
    requires forall k :: from <= k < p ==> s[k] != '['
    ensures FirstMatch(s, from) == Some(p)
    decreases p - from
  {
    if from < p {
      FirstMatchAfter(s, from + 1, p);
    }
  }

  /** In text without `[` followed by a mention, the mention is the first match and its run ends at its `]]`. */
  lemma MentionFound(pre: string, term: string, post: string)
    requires '[' !in pre && term != [] && ']' !in term
    ensures FirstMatch(pre + "[[" + term + "]]" + post, 0) == Some(|pre|)
    ensures RunEnd(pre + "[[" + term + "]]" + post, |pre| + 2) == |pre| + 2 + |term|
  {
    var s := pre + "[[" + term + "]]" + post;
    var p := |pre|;
    var q := p + 2 + |term|;
    assert s[p] == '[' && s[p + 1] == '[';
    assert forall k :: p + 2 <= k < q ==> s[k] == term[k - p - 2];
    assert s[q] == ']' && s[q + 1] == ']';
    RunEndOver(s, p + 2, q);
    assert MatchAt(s, p);
    assert forall k :: 0 <= k < p ==> s[k] == pre[k];
    FirstMatchAfter(s, 0, p);
  }

  /** Once the first match and the end of its run are known, what exec yields. */
  lemma FoundExec(s: string, p: nat, q: nat, term: string)
    requires p + 2 <= q && q + 2 <= |s|
    requires FirstMatch(s, 0) == Some(p) && RunEnd(s, p + 2) == q && s[p + 2..q] == term
    ensures Exec(s, 0) == Some(MentionMatch(term, q + 2))
  {
  }

  /** The scan from `from` is the term exec finds there followed by the scan after it. */
  lemma MentionsStep(s: string, from: nat, term: string, next: nat)
    requires from <= |s| && Exec(s, from) == Some(MentionMatch(term, next))
    ensures Mentions(s, from) == [term] + Mentions(s, next)
  {
  }

  /** Once the first match and the end of its run are known, what replace yields. */
  lemma ReplaceAtMatch(s: string, p: nat, q: nat, replacement: string)
    requires p + 2 <= q && q + 2 <= |s|
    requires FirstMatch(s, 0) == Some(p) && RunEnd(s, p + 2) == q
    ensures ReplaceFirstMention(s, replacement) == s[..p] + replacement + s[q + 2..]
  {
    var head, tail := s[..p], s[q + 2..];
    assert s[RunEnd(s, p + 2) + 2..] == tail;
    assert ReplaceFirstMention(s, replacement) == head + replacement + tail;
  }

  /** The same, in terms of the text before and after the match. */
  lemma FoundReplace(s: string, p: nat, q: nat, pre: string, post: string, replacement: string)
    requires p + 2 <= q && q + 2 <= |s|
    requires FirstMatch(s, 0) == Some(p) && RunEnd(s, p + 2) == q && s[..p] == pre && s[q + 2..] == post
    ensures ReplaceFirstMention(s, replacement) == pre + replacement + post
  {
    ReplaceAtMatch(s, p, q, replacement);
  }

  /** The mention right after some text without `[` is the one found and the one replaced. */
  lemma MentionInContext(pre: string, term: string, post: string, replacement: string)
    requires '[' !in pre && term != [] && ']' !in term
    ensures Exec(pre + "[[" + term + "]]" + post, 0) == Some(MentionMatch(term, |pre| + |term| + 4))
    ensures Mentions(pre + "[[" + term + "]]" + post, 0) == [term] + Mentions(pre + "[[" + term + "]]" + post, |pre| + |term| + 4)
    ensures ReplaceFirstMention(pre + "[[" + term + "]]" + post, replacement) == pre + replacement + post
  {
    ExecInContext(pre, term, post);
    MentionsStep(pre + "[[" + term + "]]" + post, 0, term, |pre| + |term| + 4);
    ReplaceInContext(pre, term, post, replacement);
  }

  /** What exec finds in a text whose first `[` starts a mention. */
  lemma ExecInContext(pre: string, term: string, post: string)
    requires '[' !in pre && term != [] && ']' !in term
    ensures Exec(pre + "[[" + term + "]]" + post, 0) == Some(MentionMatch(term, |pre| + |term| + 4))
  {
    var s := pre + "[[" + term + "]]" + post;
    var p := |pre|;
    var q := p + 2 + |term|;
    MentionSlices(pre, term, post);
    MentionFound(pre, term, post);
    var next := |pre| + |term| + 4;
    assert next == q + 2;
    FoundExec(s, p, q, term);
  }

  /** What replace makes of a text whose first `[` starts a mention. */
  lemma ReplaceInContext(pre: string, term: string, post: string, replacement: string)
    requires '[' !in pre && term != [] && ']' !in term
    ensures ReplaceFirstMention(pre + "[[" + term + "]]" + post, replacement) == pre + replacement + post
  {
    var s := pre + "[[" + term + "]]" + post;
    var p := |pre|;
    var q := p + 2 + |term|;
    MentionSlices(pre, term, post);
    MentionFound(pre, term, post);
    FoundReplace(s, p, q, pre, post, replacement);
  }

  /** The pieces of a text around a mention. */
  lemma MentionSlices(pre: string, term: string, post: string)
    ensures var s := pre + "[[" + term + "]]" + post;
            && s[|pre| + 2..|pre| + 2 + |term|] == term && s[..|pre|] == pre && s[|pre| + |term| + 4..] == post
  {
    var s := pre + "[[" + term + "]]" + post;
    var p := |pre|;
    var q := p + 2 + |term|;
    assert s[p + 2..q] == term;
    assert s[..p] == pre;
    assert s[q + 2..] == post;
  }

  /** A lone mention yields exactly its term. */
  lemma MentionsOfMarker(term: string)
    requires term != [] && ']' !in term
    ensures Mentions("[[" + term + "]]", 0) == [term]
  {
    MentionInContext("", term, "", "");
    assert "" + "[[" + term + "]]" + "" == "[[" + term + "]]";
    var s := "[[" + term + "]]";
    assert Exec(s, |s|) == None;
  }

  /** Text without `[` holds no mention and is left as it is. */
  lemma NoBracketNoMention(s: string, replacement: string)
    requires '[' !in s
    ensures Mentions(s, 0) == []
    ensures ReplaceFirstMention(s, replacement) == s
  {
  }

  // ---------------------------------------------------------------- the form

  /** An entry of the autocomplete reply's `suggestions`, its `label` shown as a button with that title and this id. */
  datatype Offer = Offer(text: string, id: string)

  /** The reply of the autocomplete endpoint. */
  datatype AutocompleteReply = AutocompleteReply(status: int, suggestions: seq<Offer>)

  /** What the area under the description shows. */
  datatype SuggestionArea = Cleared | Hint(text: string) | Buttons(buttons: seq<Offer>)

  const MentionHint := "Pro-tip: Type [[search terms]] followed by a space to auto-link a submission that matches your search terms."

  const AutocompleteEndpoint := "search/autocomplete"

  /** The autocomplete request for a term, which is sent unencoded. */
  function AutocompleteUrl(baseUrl: string, text: string): string
  {
    baseUrl + AutocompleteEndpoint + "?query=" + text + "&topn=5"
  }

  /** The markdown link that replaces a chosen mention. */
  function MarkdownLink(title: string, id: string, websiteUrl: string): string
  {
    "[" + title + "](" + websiteUrl + "submissions/" + id + ")"
  }

  class Form {
    /** `BASE_URL_CLIENT` and `WEBSITE_URL`. */
    const baseUrl: string
    const websiteUrl: string
    var description: string
    var hasUnsavedChanges: bool
    var isAnonymous: bool
    var currentQuery: string
    var suggestions: SuggestionArea
    /** The autocomplete requests sent, in order. */
    var fetched: seq<string>

    constructor (baseUrl: string, websiteUrl: string, description: string, isAnonymous: bool)
      ensures this.baseUrl == baseUrl && this.websiteUrl == websiteUrl
      ensures this.description == description && this.isAnonymous == isAnonymous
      ensures !hasUnsavedChanges && currentQuery == "" && suggestions == Cleared && fetched == []
    {
      this.baseUrl := baseUrl;
      this.websiteUrl := websiteUrl;
      this.description := description;
      this.isAnonymous := isAnonymous;
      hasUnsavedChanges := false;
      currentQuery := "";
      suggestions := Cleared;
      fetched := [];
    }

    /**
     * `getSuggestions`: nothing for the term last looked up; otherwise one
     * request, whose 200 reply becomes the buttons and the new current query,
     * and whose other replies clear the buttons.
     */
    method GetSuggestions(text: string, reply: AutocompleteReply)
      modifies this
      ensures description == old(description) && hasUnsavedChanges == old(hasUnsavedChanges) && isAnonymous == old(isAnonymous)
      ensures text == old(currentQuery) ==>
                fetched == old(fetched) && suggestions == old(suggestions) && currentQuery == old(currentQuery)
      ensures text != old(currentQuery) ==> fetched == old(fetched) + [AutocompleteUrl(baseUrl, text)]
      ensures text != old(currentQuery) && reply.status == 200 ==> suggestions == Buttons(reply.suggestions) && currentQuery == text
      ensures text != old(currentQuery) && reply.status != 200 ==> suggestions == Cleared && currentQuery == old(currentQuery)
    {
      if text == currentQuery {
        return;
      }
      fetched := fetched + [AutocompleteUrl(baseUrl, text)];
      if reply.status == 200 {
        suggestions := Buttons(reply.suggestions);
        currentQuery := text;
      } else {
        suggestions := Cleared;
      }
    }

    /**
     * `setDescriptionListener`: stores the new text, and looks up the one
     * mention of the description as it was before this change (the setter
     * does not update the value the handler reads); no mention or several
     * show the hint.
     */
    method SetDescriptionListener(text: string, reply: AutocompleteReply)
      modifies this
      ensures description == text && hasUnsavedChanges && isAnonymous == old(isAnonymous)
      ensures |Mentions(old(description), 0)| != 1 ==>
                suggestions == Hint(MentionHint) && fetched == old(fetched) && currentQuery == old(currentQuery)
      ensures |Mentions(old(description), 0)| == 1 && Mentions(old(description), 0)[0] == old(currentQuery) ==>
                fetched == old(fetched) && suggestions == old(suggestions) && currentQuery == old(currentQuery)
      ensures |Mentions(old(description), 0)| == 1 && Mentions(old(description), 0)[0] != old(currentQuery) ==>
                fetched == old(fetched) + [AutocompleteUrl(baseUrl, Mentions(old(description), 0)[0])] &&
                (reply.status == 200 ==> suggestions == Buttons(reply.suggestions) && currentQuery == Mentions(old(description), 0)[0]) &&
                (reply.status != 200 ==> suggestions == Cleared && currentQuery == old(currentQuery))
    {
      var stored := description;
      description := text;
      hasUnsavedChanges := true;
      var matches := ScanMentions(stored);
      if |matches| == 1 {
        var wordsInMatch := matches[0];
        GetSuggestions(wordsInMatch, reply);
      } else {
        suggestions := Hint(MentionHint);
      }
    }

    /** `handleAutoSuggestClick`: the first mention becomes a link to the chosen submission. */
    method HandleAutoSuggestClick(title: string, id: string)
      modifies this
      ensures description == ReplaceFirstMention(old(description), MarkdownLink(title, id, websiteUrl))
      ensures hasUnsavedChanges && currentQuery == "" && suggestions == Cleared
      ensures isAnonymous == old(isAnonymous) && fetched == old(fetched)
    {
      var replacementText := MarkdownLink(title, id, websiteUrl);
      description := ReplaceFirstMention(description, replacementText);
      hasUnsavedChanges := true;
      currentQuery := "";
      suggestions := Cleared;
    }

    /** `handleAnonymous`: flips the anonymous flag and marks the form unsaved. */
    method HandleAnonymous()
      modifies this
      ensures isAnonymous == !old(isAnonymous) && hasUnsavedChanges
      ensures description == old(description) && currentQuery == old(currentQuery)
      ensures suggestions == old(suggestions) && fetched == old(fetched)
    {
      if isAnonymous {
        isAnonymous := false;
      } else {
        isAnonymous := true;
      }
      hasUnsavedChanges := true;
    }
  }

  // ---------------------------------------------------------------- submitting

  const SubmissionEndpoint := "submission"

  /** The request `handleSubmit` sends; `connectionFields` is whether the body carries the reply's two ids. */
  datatype SubmitRequest = SubmitRequest(httpMethod: string, url: string, connectionFields: bool)

  /**
   * The method and URL of `handleSubmit`: a reply box always creates; the
   * main form creates, edits with PATCH, or posts a reply to the relative
   * path `"submission" + "connect/"`.
   */
  function SubmitTarget(isAConnection: bool, mode: string, baseUrl: string, submissionId: string): (r: SubmitRequest)
    ensures r.httpMethod == "PATCH" <==> !isAConnection && mode == "edit"
    ensures r.httpMethod != "PATCH" ==> r.httpMethod == "POST"
    ensures r.connectionFields <==> !isAConnection && mode == "reply"
    ensures isAConnection || mode == "create" ==> r.url == baseUrl + SubmissionEndpoint
    ensures !isAConnection && mode == "edit" ==> r.url == baseUrl + SubmissionEndpoint + "/" + submissionId
    ensures !isAConnection && mode == "reply" ==> r.url == SubmissionEndpoint + "connect/"
  {
    if isAConnection then SubmitRequest("POST", baseUrl + SubmissionEndpoint, false)
    else if mode == "create" then SubmitRequest("POST", baseUrl + SubmissionEndpoint, false)
    else if mode == "reply" then SubmitRequest("POST", SubmissionEndpoint + "connect/", true)
    else if mode == "edit" then SubmitRequest("PATCH", baseUrl + SubmissionEndpoint + "/" + submissionId, false)
    else SubmitRequest("POST", SubmissionEndpoint, false)
  }
}
