/**
 * The website's home page: the recommendation feed and its pagination, the
 * onboarding step, and the scroll-to-top button. The page's React state is
 * a class; server replies, the extension probe and the scroll offset are
 * inputs.
 */
module HomePage {
  import opened Wrappers

  /** The number of results a full recommendation page holds. */
  const PageSize := 10

  /** The scroll offset at which the scroll-to-top button changes. */
  const ScrollBuffer := 250

  /** What a request for the next page yields: a page of results, or an exception. */
  datatype PageReply<R> = Failed | Page(results: seq<R>)

  /**
   * `tempItems < 10` as written compares the results array itself with 10:
   * JavaScript turns an array of result objects into the number of its
   * string form, which is 0 for the empty array and NaN for any other, so
   * the test holds exactly for an empty page.
   */
  predicate EndAsWritten<R>(results: seq<R>)
  {
    |results| == 0
  }

  /** The intended test: the page is short. */
  predicate EndOfResults<R>(results: seq<R>)
  {
    |results| < PageSize
  }

  /** A page of one to nine results ends the feed as intended but not as written. */
  lemma ShortPageMissed<R>(results: seq<R>)
    requires 0 < |results| < PageSize
    ensures EndOfResults(results) && !EndAsWritten(results)
  {
  }

  /** The two tests agree on empty and on full pages. */
  lemma EndTestsAgree<R>(results: seq<R>)
    requires |results| == 0 || |results| >= PageSize
    ensures EndOfResults(results) <==> EndAsWritten(results)
  {
  }

  /**
   * `checkOnboarding`: the new step, or None where the step is left alone.
   * `recentlyAccessed` is the number of recently accessed submissions, None
   * when there is no list.
   */
  function OnboardingStep(hasExtension: bool, joined: nat, followed: nat, recentlyAccessed: Option<nat>,
                          endOfRecommendations: bool, itemCount: nat): Option<int>
  {
    var hasCommunities := joined > 0 || followed > 0;
    if !hasExtension then
      if hasCommunities then
        if recentlyAccessed.Some? && recentlyAccessed.value >= 1 then Some(0) else Some(3)
      else Some(1)
    else
      if hasCommunities then
        if !(endOfRecommendations && itemCount > 0) then Some(3) else None
      else Some(2)
  }

  /**
   * The onboarding table: without communities the user is always sent to
   * setup (step 1 without the extension, 2 with it); without the extension
   * step 0 means communities and a recent submission; with the extension a
   * change is always to step 3 or 2.
   */
  lemma OnboardingTable(hasExtension: bool, joined: nat, followed: nat, recentlyAccessed: Option<nat>,
                        endOfRecommendations: bool, itemCount: nat)
    ensures var step := OnboardingStep(hasExtension, joined, followed, recentlyAccessed, endOfRecommendations, itemCount);
            && (joined == 0 && followed == 0 ==> step == Some(if hasExtension then 2 else 1))
            && (!hasExtension ==> step.Some? && (step == Some(0) <==>
                  (joined > 0 || followed > 0) && recentlyAccessed.Some? && recentlyAccessed.value >= 1))
            && (hasExtension ==> step == None || step == Some(2) || step == Some(3))
            && (step == None <==> hasExtension && (joined > 0 || followed > 0) && endOfRecommendations && itemCount > 0)
  {
  }

  class Home<R> {
    const searchId: string
    var items: seq<R>
    var page: int
    var endOfRecommendations: bool
    var onboardingStep: int
    var visible: bool
    /** The page numbers requested from the recommendation endpoint, in order. */
    var requestedPages: seq<int>

    /** The initial state: the page after the current one, and the end flag of a short first page. */
    constructor (firstPage: seq<R>, currentPage: int, searchId: string)
      ensures this.searchId == searchId && items == firstPage && page == currentPage + 1
      ensures endOfRecommendations <==> |firstPage| < PageSize
      ensures onboardingStep == 0 && !visible && requestedPages == []
    {
      this.searchId := searchId;
      items := firstPage;
      page := currentPage + 1;
      endOfRecommendations := |firstPage| < PageSize;
      onboardingStep := 0;
      visible := false;
      requestedPages := [];
    }

    method CheckOnboarding(hasExtension: bool, joined: nat, followed: nat, recentlyAccessed: Option<nat>)
      modifies this
      ensures OnboardingStep(hasExtension, joined, followed, recentlyAccessed, old(endOfRecommendations), |old(items)|).Some? ==>
                onboardingStep == OnboardingStep(hasExtension, joined, followed, recentlyAccessed, old(endOfRecommendations), |old(items)|).value
      ensures OnboardingStep(hasExtension, joined, followed, recentlyAccessed, old(endOfRecommendations), |old(items)|).None? ==>
                onboardingStep == old(onboardingStep)
      ensures items == old(items) && page == old(page) && endOfRecommendations == old(endOfRecommendations)
      ensures visible == old(visible) && requestedPages == old(requestedPages)
    {
      if !hasExtension {
        if joined > 0 || followed > 0 {
          if recentlyAccessed.Some? && recentlyAccessed.value >= 1 {
            onboardingStep := 0;
          } else {
            onboardingStep := 3;
          }
        } else {
          onboardingStep := 1;
        }
      } else {
        if joined > 0 || followed > 0 {
          if !(endOfRecommendations && |items| > 0) {
            onboardingStep := 3;
          }
        } else {
          onboardingStep := 2;
        }
      }
    }

    /**
     * `fetchNextPage`, with the intended end test: the results go after the
     * items shown and the page advances by one; an exception changes
     * nothing. The end flag, once set, stays set.
     */
    method FetchNextPage(reply: PageReply<R>)
      modifies this
      ensures requestedPages == old(requestedPages) + [old(page)]
      ensures reply.Failed? ==> items == old(items) && page == old(page) && endOfRecommendations == old(endOfRecommendations)
      ensures reply.Page? ==> items == old(items) + reply.results && page == old(page) + 1
      ensures reply.Page? ==> (endOfRecommendations <==> old(endOfRecommendations) || EndOfResults(reply.results))
      ensures onboardingStep == old(onboardingStep) && visible == old(visible)
    {
      var pg := page;
      requestedPages := requestedPages + [page];
      if reply.Page? {
        var tempItems := reply.results;
        if |tempItems| < PageSize {
          endOfRecommendations := true;
        }
        items := items + tempItems;
        pg := pg + 1;
        page := pg;
      }
    }

    /** The scroll handler: shown past the buffer, hidden above it, unchanged exactly at it. */
    method HandleScroll(scrollTop: int)
      modifies this
      ensures scrollTop > ScrollBuffer ==> visible
      ensures scrollTop < ScrollBuffer ==> !visible
      ensures scrollTop == ScrollBuffer ==> visible == old(visible)
      ensures items == old(items) && page == old(page) && endOfRecommendations == old(endOfRecommendations)
      ensures onboardingStep == old(onboardingStep) && requestedPages == old(requestedPages)
    {
      var buffer := ScrollBuffer;
      if scrollTop > buffer && !visible {
        visible := true;
      } else if scrollTop < buffer && visible {
        visible := false;
      }
    }
  }
}
