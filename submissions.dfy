/**
 * The submission rules of the submissions views: validation of a new or
 * edited submission, the ordered checks before a submission is stored, the
 * per-user map recording who added a submission to which community, the
 * like/dislike counters, and the community part of the display form.
 */
module Submissions {
  import opened Wrappers
  import opened Seqs
  import opened Strings
  import opened OrderedDicts
  import opened Entities
  import Helpers

  /** The web community, which only one account may submit to. */
  const WebCommunityId: Id := "63a4c21aee3be6ac5c533a55"
  const PrivilegedUserId: Id := "63a4c201ee3be6ac5c533a54"
  const MaxDescriptionLength: nat := 50000
  const MaxTitleLength: nat := 1000

  // ---------------------------------------------------------------- validate_submission

  datatype Validation = Validation(valid: bool, message: string)

  const UrlFieldMessage := "Error: The title or description should not be a URL"
  const DescriptionTooLongMessage := "The description is too long. Please limit to 50,000 characters"
  const TitleTooLongMessage := "The title is too long. Please limit to 1,000 characters"
  const EmptyTitleMessage := "The title cannot be empty"
  const ValidMessage := "Validation successful"

  /** The validator's fixed messages, and those it builds from the URL, are pairwise different where it matters. */
  lemma ValidationMessagesDiffer(url: string)
    ensures ValidMessage != UrlFieldMessage && ValidMessage != DescriptionTooLongMessage
    ensures ValidMessage != TitleTooLongMessage && ValidMessage != EmptyTitleMessage
    ensures ValidMessage != "Error: The URL is invalid: " + url
    ensures ValidMessage != "Error: You cannot submit content on URL " + url
    ensures EmptyTitleMessage != UrlFieldMessage && EmptyTitleMessage != DescriptionTooLongMessage
    ensures EmptyTitleMessage != TitleTooLongMessage
    ensures EmptyTitleMessage != "Error: The URL is invalid: " + url
    ensures EmptyTitleMessage != "Error: You cannot submit content on URL " + url
  {
  }

  /** `validators.url(s)` for an optional argument; None is never a URL. */
  predicate IsUrlValue(s: Option<string>, isUrl: string -> bool)
  {
    s.Some? && isUrl(s.value)
  }

  /** An absent or empty source URL is a text-only submission; any other must be a URL and not a browser page. */
  predicate SourceUrlAcceptable(sourceUrl: Option<string>, isUrl: string -> bool)
  {
    sourceUrl.None? || sourceUrl.value == ""
    || (isUrl(sourceUrl.value) && !Contains(sourceUrl.value, "chrome://"))
  }

  predicate WithinLengthLimits(highlightedText: Option<string>, explanation: Option<string>)
  {
    !(Truthy(highlightedText) && |highlightedText.value| > MaxDescriptionLength)
    && !(Truthy(explanation) && |explanation.value| > MaxTitleLength)
  }

  /** `validate_submission(highlighted_text, explanation, source_url)`; `isUrl` stands for `validators.url`. */
  function ValidateSubmission(highlightedText: Option<string>, explanation: Option<string>,
                              sourceUrl: Option<string>, isUrl: string -> bool): (r: Validation)
    ensures r.valid <==>
      !IsUrlValue(highlightedText, isUrl) && !IsUrlValue(explanation, isUrl)
      && SourceUrlAcceptable(sourceUrl, isUrl)
      && WithinLengthLimits(highlightedText, explanation)
      && explanation != Some("")
    ensures IsUrlValue(highlightedText, isUrl) || IsUrlValue(explanation, isUrl) ==>
      r == Validation(false, UrlFieldMessage)
    ensures (!IsUrlValue(highlightedText, isUrl) && !IsUrlValue(explanation, isUrl)
             && sourceUrl.Some? && sourceUrl.value != "" && !isUrl(sourceUrl.value)) ==>
      r == Validation(false, "Error: The URL is invalid: " + sourceUrl.value)
    ensures r.valid <==> r.message == ValidMessage
    ensures r.message == EmptyTitleMessage ==> explanation == Some("")
  {
    ValidationMessagesDiffer(if sourceUrl.Some? then sourceUrl.value else "");
    if IsUrlValue(highlightedText, isUrl) || IsUrlValue(explanation, isUrl) then
      Validation(false, UrlFieldMessage)
    else if sourceUrl.Some? && sourceUrl.value != "" && !isUrl(sourceUrl.value) then
      Validation(false, "Error: The URL is invalid: " + sourceUrl.value)
    else if sourceUrl.Some? && sourceUrl.value != "" && Contains(sourceUrl.value, "chrome://") then
      Validation(false, "Error: You cannot submit content on URL " + sourceUrl.value)
    else if Truthy(highlightedText) && |highlightedText.value| > MaxDescriptionLength then
      Validation(false, DescriptionTooLongMessage)
    else if Truthy(explanation) && |explanation.value| > MaxTitleLength then
      Validation(false, TitleTooLongMessage)
    else if explanation == Some("") then
      Validation(false, EmptyTitleMessage)
    else
      Validation(true, ValidMessage)
  }

  /** The boundaries are inclusive: a title of exactly 1000 characters and a description of exactly 50000 pass the length checks. */
  lemma LengthLimitsInclusive(highlightedText: string, explanation: string)
    requires |highlightedText| <= MaxDescriptionLength && |explanation| <= MaxTitleLength
    ensures WithinLengthLimits(Some(highlightedText), Some(explanation))
  {
  }

  // ---------------------------------------------------------------- create_submission_helper

  /** The helper returns (message, status, inserted id), or raises (an id that is not an ObjectId). */
  datatype Created = Created(message: string, status: Status, submissionId: Option<Id>) | Raised

  /** The web-community block as written: it compares the raw request string. */
  predicate WebBlockOnRawString(community: string, userId: Id)
  {
    community == WebCommunityId && userId != PrivilegedUserId
  }

  /** The intended web-community block: it compares the community the string names. */
  predicate WebBlockOnObjectId(community: string, userId: Id)
  {
    ObjectIdOf(community) == Some(WebCommunityId) && userId != PrivilegedUserId
  }

  /** Upper-case hex names the web community as well, and passes the block as written. */
  lemma WebBlockBypassedByCase()
    ensures ObjectIdOf("63A4C21AEE3BE6AC5C533A55") == Some(WebCommunityId)
    ensures !WebBlockOnRawString("63A4C21AEE3BE6AC5C533A55", "0")
    ensures WebBlockOnObjectId("63A4C21AEE3BE6AC5C533A55", "0")
  {
    var s := "63A4C21AEE3BE6AC5C533A55";
    assert IsObjectIdString(s);
    assert Lower(s) == WebCommunityId;
  }

  /** Every community id that names the web community is refused for other users by the corrected block. */
  lemma WebBlockOnObjectIdComplete(community: string, userId: Id)
    requires ObjectIdOf(community) == Some(WebCommunityId) && userId != PrivilegedUserId
    ensures WebBlockOnObjectId(community, userId)
    ensures WebBlockOnRawString(community, userId) ==> WebBlockOnObjectId(community, userId)
  {
  }

  /** Everything the helper checks before it stores the submission. */
  predicate AcceptedForStorage(userId: Id, userCommunities: seq<Id>, highlightedText: string,
                               sourceUrl: Option<string>, explanation: Option<string>,
                               community: string, table: CommunityTable, isUrl: string -> bool)
  {
    !WebBlockOnObjectId(community, userId) && community != ""
    && ObjectIdOf(community).Some? && ObjectIdOf(community).value in table
    && ObjectIdOf(community).value in userCommunities
    && Truthy(explanation)
    && ValidateSubmission(Some(highlightedText), explanation, sourceUrl, isUrl).valid
  }

  /**
   * `create_submission_helper`, with the web-community block applied to the
   * community the id names. `inserted` is the id the insert returned, None
   * when the insert was not acknowledged.
   */
  function CreateSubmissionHelper(userId: Id, userCommunities: seq<Id>, highlightedText: Option<string>,
                                  sourceUrl: Option<string>, explanation: Option<string>, community: string,
                                  table: CommunityTable, isUrl: string -> bool, inserted: Option<Id>): (r: Created)
    ensures r.Raised? <==>
      !WebBlockOnObjectId(community, userId) && community != "" && ObjectIdOf(community).None?
    ensures r.Created? && r.status == OK <==>
      AcceptedForStorage(userId, userCommunities, if highlightedText.None? then "" else highlightedText.value,
                         sourceUrl, explanation, community, table, isUrl) && inserted.Some?
    ensures r.Created? ==> (r.submissionId.Some? <==> r.status == OK)
    ensures r.Created? && r.status == OK ==> r.submissionId == inserted
    ensures WebBlockOnObjectId(community, userId) ==> r == Created("You cannot submit to this community.", FORBIDDEN, None)
    ensures r.Created? && r.status == OK ==> ObjectIdOf(community).value in userCommunities
    // The checks in order, each answering when every earlier one passed.
    ensures !WebBlockOnObjectId(community, userId) && community == "" ==>
      r == Created("Error: A community must be selected.", BAD_REQUEST, None)
    ensures !WebBlockOnObjectId(community, userId) && community != "" && ObjectIdOf(community).Some? ==>
      var cid := ObjectIdOf(community).value;
      var v := ValidateSubmission(Some(if highlightedText.None? then "" else highlightedText.value),
                                  explanation, sourceUrl, isUrl);
      (cid !in table ==> r == Created("Error: Cannot find community.", BAD_REQUEST, None))
      && (cid in table && cid !in userCommunities ==>
            r == Created("Error: You do not have access to this community.", FORBIDDEN, None))
      && (cid in table && cid in userCommunities && !Truthy(explanation) ==>
            r == Created("Missing submission title.", BAD_REQUEST, None))
      && (cid in table && cid in userCommunities && Truthy(explanation) && !v.valid ==>
            r == Created(v.message, BAD_REQUEST, None))
    ensures AcceptedForStorage(userId, userCommunities, if highlightedText.None? then "" else highlightedText.value,
                               sourceUrl, explanation, community, table, isUrl) ==>
      r == if inserted.None? then Created("Unable to make submission. Please try again later.", INTERNAL_SERVER_ERROR, None)
           else Created("Context successfully submitted and indexed.", OK, inserted)
  {
    var text := if highlightedText.None? then "" else highlightedText.value;
    if WebBlockOnObjectId(community, userId) then
      Created("You cannot submit to this community.", FORBIDDEN, None)
    else if community == "" then
      Created("Error: A community must be selected.", BAD_REQUEST, None)
    else match ObjectIdOf(community)
      case None => Raised
      case Some(cid) =>
        if cid !in table then
          Created("Error: Cannot find community.", BAD_REQUEST, None)
        else if cid !in userCommunities then
          Created("Error: You do not have access to this community.", FORBIDDEN, None)
        else if !Truthy(explanation) then
          Created("Missing submission title.", BAD_REQUEST, None)
        else
          var v := ValidateSubmission(Some(text), explanation, sourceUrl, isUrl);
          if !v.valid then Created(v.message, BAD_REQUEST, None)
          else if inserted.None? then
            Created("Unable to make submission. Please try again later.", INTERNAL_SERVER_ERROR, None)
          else
            Created("Context successfully submitted and indexed.", OK, inserted)
  }

  /** The helper refuses a missing title itself, so the validator's empty-title message never reaches a new submission. */
  lemma CreateNeverReportsEmptyTitle(userId: Id, userCommunities: seq<Id>, highlightedText: Option<string>,
                                     sourceUrl: Option<string>, explanation: Option<string>, community: string,
                                     table: CommunityTable, isUrl: string -> bool, inserted: Option<Id>)
    ensures var r := CreateSubmissionHelper(userId, userCommunities, highlightedText, sourceUrl, explanation,
                                            community, table, isUrl, inserted);
      r.Created? ==> r.message != EmptyTitleMessage
  {
  }

  // ---------------------------------------------------------------- who added the submission where

  /** The `communities` field of a submission: user id -> ids of the communities that user added it to. */
  type SubmissionCommunitiesMap = seq<Item<Id, seq<Id>>>

  /** The shape the views keep: a dict whose lists are non-empty and duplicate-free. */
  predicate WellFormedCommunities(d: SubmissionCommunitiesMap)
  {
    IsDict(d) && forall i :: 0 <= i < |d| ==> d[i].value != [] && Distinct(d[i].value)
  }

  /** `log_submission`: a new submission belongs to the one community its author chose. */
  function NewSubmissionCommunities(userId: Id, community: Id): (d: SubmissionCommunitiesMap)
    ensures WellFormedCommunities(d) && Keys(d) == [userId] && Get(d, userId) == [community]
  {
    [Item(userId, [community])]
  }

  datatype RemoveResult = NotAdder | LastCommunity | Removed(communities: SubmissionCommunitiesMap)

  /**
   * DELETE with a community: only a user who added the submission may remove it;
   * the submission's last community cannot be removed; the user's list loses
   * every occurrence of the community and the user's key goes when the list is empty.
   */
  function RemoveCommunity(d: SubmissionCommunitiesMap, userId: Id, community: Id): RemoveResult
  {
    if !HasKey(d, userId) then NotAdder
    else if |d| == 1 && |Get(d, userId)| == 1 then LastCommunity
    else
      var remaining := Without(Get(d, userId), community);
      var d1 := Put(d, userId, remaining);
      if remaining == [] then Removed(Remove(d1, userId)) else Removed(d1)
  }

  /**
   * A successful removal keeps the map well formed and never leaves a
   * submission in no community; the user's list loses exactly the community
   * (and goes when it empties), and every other user's list is kept.
   */
  lemma RemoveKeepsSubmissionPlaced(d: SubmissionCommunitiesMap, userId: Id, community: Id, other: Id)
    requires WellFormedCommunities(d)
    ensures RemoveCommunity(d, userId, community).Removed? ==>
      var r := RemoveCommunity(d, userId, community).communities;
      WellFormedCommunities(r) && r != []
    ensures RemoveCommunity(d, userId, community).Removed? ==>
      var r := RemoveCommunity(d, userId, community).communities;
      var remaining := Without(Get(d, userId), community);
      if remaining == [] then !HasKey(r, userId) else HasKey(r, userId) && Get(r, userId) == remaining
    ensures RemoveCommunity(d, userId, community).Removed? && other != userId ==>
      var r := RemoveCommunity(d, userId, community).communities;
      (HasKey(r, other) <==> HasKey(d, other)) && (HasKey(d, other) ==> Get(r, other) == Get(d, other))
    ensures RemoveCommunity(d, userId, community).Removed? ==>
      community !in (var r := RemoveCommunity(d, userId, community).communities;
                     if HasKey(r, userId) then Get(r, userId) else [])
  {
    if HasKey(d, userId) && !(|d| == 1 && |Get(d, userId)| == 1) {
      var list := Get(d, userId);
      var remaining := Without(list, community);
      var d1 := Put(d, userId, remaining);
      HasKeyPut(d, userId, remaining, other);
      if other != userId && HasKey(d, other) {
        GetPutOther(d, userId, remaining, other);
      }
      if remaining == [] {
        RemoveEmptiedList(d, userId, community);
        if other != userId && HasKey(d, other) {
          GetRemoveOther(d1, userId, other);
        }
      } else {
        var i := Find(d, userId);
        WithoutDistinct(list, community);
        PutExisting(d, userId, remaining);
        var r := d1;
        forall j | 0 <= j < |r|
          ensures r[j].value != [] && Distinct(r[j].value)
        {
          if j != i {
            assert r[j] == d[j];
          }
        }
      }
    }
  }

  /** When the user's list empties, the user's key goes and the other users' lists keep the submission placed. */
  lemma RemoveEmptiedList(d: SubmissionCommunitiesMap, userId: Id, community: Id)
    requires WellFormedCommunities(d) && HasKey(d, userId) && !(|d| == 1 && |Get(d, userId)| == 1)
    requires Without(Get(d, userId), community) == []
    ensures var r := Remove(Put(d, userId, []), userId);
            WellFormedCommunities(r) && r != [] && !HasKey(r, userId)
  {
    var i := Find(d, userId);
    var list := Get(d, userId);
    assert d[i].value == list;
    assert |list| < 2 by {
      if |list| >= 2 {
        WithoutOfTwoDistinct(list, community);
      }
    }
    var d1 := Put(d, userId, []);
    PutExisting(d, userId, []);
    var r := Remove(d1, userId);
    WithoutDistinct(Keys(d1), userId);
    WithoutOfTwoDistinct(Keys(d1), userId);
    forall j | 0 <= j < |r|
      ensures r[j].value != [] && Distinct(r[j].value)
    {
      assert r[j] in d1;
      var k :| 0 <= k < |d1| && d1[k] == r[j];
      assert k != i;
    }
  }

  /** Why the lists must stay duplicate-free: with a repeated community the last-community guard lets the last one go. */
  lemma DuplicateDefeatsLastCommunityGuard()
    ensures RemoveCommunity([Item("u", ["c", "c"])], "u", "c") == Removed([])
  {
    var d: SubmissionCommunitiesMap := [Item("u", ["c", "c"])];
    assert Keys(d) == ["u"];
    assert Get(d, "u") == ["c", "c"];
    assert Without(["c", "c"], "c") == [];
    var d1 := Put(d, "u", []);
    assert d1 == [Item("u", [])];
    assert Remove(d1, "u") == [];
  }

  /** PATCH with a community: create the user's list if absent, then append the community unless already there. */
  function AddCommunity(d: SubmissionCommunitiesMap, userId: Id, community: Id): (r: SubmissionCommunitiesMap)
    ensures HasKey(r, userId) && community in Get(r, userId)
  {
    var d1 := if HasKey(d, userId) then d else Put(d, userId, []);
    var list := Get(d1, userId);
    if community in list then d1 else Put(d1, userId, list + [community])
  }

  /** Adding twice is adding once. */
  lemma AddCommunityIdempotent(d: SubmissionCommunitiesMap, userId: Id, community: Id)
    ensures AddCommunity(AddCommunity(d, userId, community), userId, community) == AddCommunity(d, userId, community)
  {
  }

  /** Adding keeps the map well formed, extends only the user's list, and leaves every other user's list alone. */
  lemma AddCommunityEffect(d: SubmissionCommunitiesMap, userId: Id, community: Id, other: Id)
    requires WellFormedCommunities(d)
    ensures WellFormedCommunities(AddCommunity(d, userId, community))
    ensures Get(AddCommunity(d, userId, community), userId)
      == (if !HasKey(d, userId) then [community]
          else if community in Get(d, userId) then Get(d, userId)
          else Get(d, userId) + [community])
    ensures other != userId && HasKey(d, other) ==>
      HasKey(AddCommunity(d, userId, community), other)
      && Get(AddCommunity(d, userId, community), other) == Get(d, other)
  {
    if HasKey(d, userId) {
      AddToExistingList(d, userId, community, other);
    } else {
      AddNewList(d, userId, community, other);
    }
  }

  /** A user without a list gets the one-element list, placed last. */
  lemma AddNewList(d: SubmissionCommunitiesMap, userId: Id, community: Id, other: Id)
    requires WellFormedCommunities(d) && !HasKey(d, userId)
    ensures AddCommunity(d, userId, community) == d + [Item(userId, [community])]
    ensures WellFormedCommunities(AddCommunity(d, userId, community))
    ensures other != userId && HasKey(d, other) ==>
      HasKey(AddCommunity(d, userId, community), other)
      && Get(AddCommunity(d, userId, community), other) == Get(d, other)
  {
    var d1 := d + [Item(userId, [])];
    PutNew(d, userId, []);
    assert Get(d1, userId) == [];
    PutNewAgain(d, userId, [], [community]);
    assert Get(d1, userId) + [community] == [community];
    var r := d + [Item(userId, [community])];
    assert AddCommunity(d, userId, community) == r;
    assert Keys(r) == Keys(d) + [userId];
    forall j | 0 <= j < |r|
      ensures r[j].value != [] && Distinct(r[j].value)
    {
      if j < |d| {
        assert r[j] == d[j];
      }
    }
    if other != userId && HasKey(d, other) {
      IndexOfElemAppend(Keys(d), [userId], other);
    }
  }

  /** A user with a list gets the community appended to it, unless it is already there. */
  lemma AddToExistingList(d: SubmissionCommunitiesMap, userId: Id, community: Id, other: Id)
    requires WellFormedCommunities(d) && HasKey(d, userId)
    ensures WellFormedCommunities(AddCommunity(d, userId, community))
    ensures Get(AddCommunity(d, userId, community), userId)
      == (if community in Get(d, userId) then Get(d, userId) else Get(d, userId) + [community])
    ensures other != userId && HasKey(d, other) ==>
      HasKey(AddCommunity(d, userId, community), other)
      && Get(AddCommunity(d, userId, community), other) == Get(d, other)
  {
    var list := Get(d, userId);
    var r := AddCommunity(d, userId, community);
    var i := Find(d, userId);
    if community !in list {
      assert r == Put(d, userId, list + [community]);
      assert Distinct(list + [community]);
      forall j | 0 <= j < |r| ensures r[j].value != [] && Distinct(r[j].value) {
        if j != i {
          assert d[j].key != userId by { assert Keys(d)[j] != Keys(d)[i]; }
        }
      }
      if other != userId && HasKey(d, other) {
        GetPutOther(d, userId, list + [community], other);
      }
    }
  }

  /**
   * The `communities` field of one stored submission, edited in place by the
   * DELETE and PATCH requests of the submission endpoint.
   */
  class SubmissionCommunities {
    var entries: SubmissionCommunitiesMap

    ghost predicate Valid()
      reads this
    {
      WellFormedCommunities(entries)
    }

    /** The map `log_submission` stores with a new submission. */
    constructor (userId: Id, community: Id)
      ensures entries == NewSubmissionCommunities(userId, community)
      ensures Valid()
    {
      entries := [Item(userId, [community])];
    }

    /**
     * Remove the submission from `community` on behalf of `userId`. The map is
     * written back only when the database acknowledges the update.
     */
    method RemoveFrom(userId: Id, community: Id, acknowledged: bool) returns (message: string, status: Status)
      modifies this
      ensures match RemoveCommunity(old(entries), userId, community)
        case NotAdder =>
          entries == old(entries) && status == UNAUTHORIZED
          && message == "You are not able to remove the submission from this community."
        case LastCommunity =>
          entries == old(entries) && status == BAD_REQUEST
          && message == "You cannot remove a submission from its last community."
        case Removed(r) =>
          if acknowledged then entries == r && status == OK && message == "Removed from community."
          else entries == old(entries) && status == NOT_FOUND && message == "Unable to remove from community."
      ensures old(Valid()) ==> Valid()
      ensures old(Valid()) && old(entries) != [] ==> entries != []
    {
      if !HasKey(entries, userId) {
        return "You are not able to remove the submission from this community.", UNAUTHORIZED;
      }
      if |entries| == 1 && |Get(entries, userId)| == 1 {
        return "You cannot remove a submission from its last community.", BAD_REQUEST;
      }
      if WellFormedCommunities(entries) {
        RemoveKeepsSubmissionPlaced(entries, userId, community, userId);
      }
      var updated := Put(entries, userId, Without(Get(entries, userId), community));
      if Get(updated, userId) == [] {
        updated := Remove(updated, userId);
      }
      if acknowledged {
        entries := updated;
        message, status := "Removed from community.", OK;
      } else {
        message, status := "Unable to remove from community.", NOT_FOUND;
      }
    }

    /**
     * `submission_communities` after the PATCH edit: the user's list is
     * created when absent, and the community appended unless already there.
     */
    method WithCommunity(userId: Id, community: Id) returns (updated: SubmissionCommunitiesMap)
      ensures updated == AddCommunity(entries, userId, community)
      ensures Valid() ==> WellFormedCommunities(updated)
    {
      if WellFormedCommunities(entries) {
        AddCommunityEffect(entries, userId, community, userId);
      }
      updated := entries;
      if !HasKey(updated, userId) {
        updated := Put(updated, userId, []);
      }
      if community !in Get(updated, userId) {
        updated := Put(updated, userId, Get(updated, userId) + [community]);
      }
    }

    /**
     * The PATCH request of user `userId` as it concerns this map. The checks
     * run in the order of the source, and the first failure answers; `lookup`
     * is the submission's `find_one`, `community` is "" when none is sent,
     * `userCommunities` are the user's communities, and the validator runs
     * when any text field is sent. The new map is written only when every
     * check passes and the database acknowledges the update. The
     * web-community block compares the community itself (see
     * `WebBlockOnObjectIdValue`).
     */
    method Patch(userId: Id, lookup: SubmissionLookup, userCommunities: seq<Id>, community: Id,
                 highlightedText: Option<string>, explanation: Option<string>, sourceUrl: Option<string>,
                 isUrl: string -> bool, acknowledged: bool) returns (message: string, status: Status)
      modifies this
      ensures community == "" && !Truthy(highlightedText) && !Truthy(explanation) ==>
        message == MissingEditMessage && status == BAD_REQUEST
      ensures !(community == "" && !Truthy(highlightedText) && !Truthy(explanation)) ==>
        (lookup.BadSubmissionId? ==> message == "Invalid submission ID" && status == NOT_FOUND)
        && (lookup.SubmissionMissing? ==> message == "Submission not found." && status == NOT_FOUND)
        && (lookup.SubmissionFound? && lookup.owner != userId ==>
              message == "You do not have permission to edit this submission." && status == FORBIDDEN)
      ensures lookup.SubmissionFound? && lookup.owner == userId
              && !(community == "" && !Truthy(highlightedText) && !Truthy(explanation)) ==>
        (community != "" && (community !in userCommunities || WebBlockOnObjectIdValue(community, userId)) ==>
           message == "Must include a community_id." && status == FORBIDDEN)
        && (!(community != "" && (community !in userCommunities || WebBlockOnObjectIdValue(community, userId)))
            && EditsText(highlightedText, explanation, sourceUrl)
            && !ValidateSubmission(highlightedText, explanation, sourceUrl, isUrl).valid ==>
           message == ValidateSubmission(highlightedText, explanation, sourceUrl, isUrl).message && status == BAD_REQUEST)
      ensures status == OK <==>
        PatchAllowed(userId, lookup, userCommunities, community, highlightedText, explanation, sourceUrl, isUrl)
        && acknowledged
      ensures PatchAllowed(userId, lookup, userCommunities, community, highlightedText, explanation, sourceUrl, isUrl)
              && !acknowledged ==>
        message == "Unable to edit submission." && status == INTERNAL_SERVER_ERROR
      ensures status == OK ==> message == "Submission successfully edited."
      ensures status == OK && community != "" ==> entries == AddCommunity(old(entries), userId, community)
      ensures status != OK || community == "" ==> entries == old(entries)
      ensures old(Valid()) ==> Valid()
    {
      if community == "" && !Truthy(highlightedText) && !Truthy(explanation) {
        return MissingEditMessage, BAD_REQUEST;
      }
      match lookup {
        case BadSubmissionId => return "Invalid submission ID", NOT_FOUND;
        case SubmissionMissing => return "Submission not found.", NOT_FOUND;
        case SubmissionFound(owner) =>
          if owner != userId {
            return "You do not have permission to edit this submission.", FORBIDDEN;
          }
      }
      var updated := entries;
      if community != "" {
        if community !in userCommunities || WebBlockOnObjectIdValue(community, userId) {
          return "Must include a community_id.", FORBIDDEN;
        }
        updated := WithCommunity(userId, community);
      }
      if EditsText(highlightedText, explanation, sourceUrl) {
        var validation := ValidateSubmission(highlightedText, explanation, sourceUrl, isUrl);
        if !validation.valid {
          return validation.message, BAD_REQUEST;
        }
      }
      if !acknowledged {
        return "Unable to edit submission.", INTERNAL_SERVER_ERROR;
      }
      entries := updated;
      message, status := "Submission successfully edited.", OK;
    }
  }

  const MissingEditMessage := "Missing either community, title, or description"

  /** The submission's `find_one` in PATCH: a malformed id raises, a missing document is None. */
  datatype SubmissionLookup = BadSubmissionId | SubmissionMissing | SubmissionFound(owner: Id)

  /** `highlighted_text != None or explanation != None or source_url != None`: the request edits the text. */
  predicate EditsText(highlightedText: Option<string>, explanation: Option<string>, sourceUrl: Option<string>)
  {
    highlightedText.Some? || explanation.Some? || sourceUrl.Some?
  }

  /** Every check of PATCH passes: something to edit, the submitter's own submission, a permitted community, valid text. */
  predicate PatchAllowed(userId: Id, lookup: SubmissionLookup, userCommunities: seq<Id>, community: Id,
                         highlightedText: Option<string>, explanation: Option<string>, sourceUrl: Option<string>,
                         isUrl: string -> bool)
  {
    !(community == "" && !Truthy(highlightedText) && !Truthy(explanation))
    && lookup.SubmissionFound? && lookup.owner == userId
    && (community != "" ==> community in userCommunities && !WebBlockOnObjectIdValue(community, userId))
    && (EditsText(highlightedText, explanation, sourceUrl) ==> ValidateSubmission(highlightedText, explanation, sourceUrl, isUrl).valid)
  }

  /** Python's `==` between an ObjectId and a str is always False: the values the PATCH block compares. */
  datatype PyValue = PyStr(s: string) | PyObjectId(oid: Id)

  /** The PATCH web-community block as written: `ObjectId(community) == "63a4…"`. */
  predicate WebBlockAsWrittenInPatch(community: Id, userId: Id)
  {
    PyObjectId(community) == PyStr(WebCommunityId) && userId != PrivilegedUserId
  }

  /** As written, the PATCH block can never fire, so any member of the web community may add submissions to it. */
  lemma PatchWebBlockNeverFires(community: Id, userId: Id)
    ensures !WebBlockAsWrittenInPatch(community, userId)
  {
  }

  /** The PATCH block as intended: compare the ids themselves. */
  predicate WebBlockOnObjectIdValue(community: Id, userId: Id)
  {
    community == WebCommunityId && userId != PrivilegedUserId
  }

  /** The corrected PATCH block refuses the web community to everyone but the privileged user, and nothing else. */
  lemma PatchWebBlockCorrected(community: Id, userId: Id)
    ensures WebBlockOnObjectIdValue(community, userId) <==> community == WebCommunityId && userId != PrivilegedUserId
    ensures WebBlockOnObjectIdValue(WebCommunityId, userId) <==> userId != PrivilegedUserId
  {
  }

  // ---------------------------------------------------------------- relevance judgments

  /**
   * A relevance as decoded from the request's JSON body: a number, a
   * boolean, a string such as "1", or null.
   */
  datatype JsonValue = JInt(i: int) | JBool(b: bool) | JStr(s: string) | JNull

  /** The number Python sees in a value: an int, or a bool as 0/1; strings and None are no number. */
  function NumberOf(v: JsonValue): Option<int>
  {
    match v
    case JInt(i) => Some(i)
    case JBool(b) => Some(if b then 1 else 0)
    case _ => None
  }

  /** Python's `v == n` for an int literal `n`: "1" == 1 is False, True == 1 is True. */
  predicate PyEqualsInt(v: JsonValue, n: int)
  {
    NumberOf(v) == Some(n)
  }

  /** Python's `a == b` between two decoded values. */
  predicate PyEquals(a: JsonValue, b: JsonValue)
  {
    if NumberOf(a).Some? || NumberOf(b).Some? then NumberOf(a) == NumberOf(b) else a == b
  }

  /** `relevance == 1` and `relevance == 0`. */
  predicate IsLike(v: JsonValue) { PyEqualsInt(v, 1) }
  predicate IsDislike(v: JsonValue) { PyEqualsInt(v, 0) }

  /** A string relevance is neither a like nor a dislike; a number or a boolean of value 1 or 0 is one of them. */
  lemma RelevanceKinds(v: JsonValue)
    ensures v.JStr? || v.JNull? ==> !IsLike(v) && !IsDislike(v)
    ensures IsLike(JStr("1")) == false && IsLike(JInt(1)) && IsLike(JBool(true))
    ensures IsLike(v) || IsDislike(v) <==> NumberOf(v) == Some(0) || NumberOf(v) == Some(1)
    ensures !(IsLike(v) && IsDislike(v))
  {
  }

  /** The users whose recorded judgment equals `v`. */
  function JudgedAs(judged: map<Id, JsonValue>, v: int): set<Id>
  {
    set u | u in judged && PyEqualsInt(judged[u], v)
  }

  /** The number of users whose recorded judgment of the submission equals `v`. */
  function CountRelevance(judged: map<Id, JsonValue>, v: int): nat
  {
    |JudgedAs(judged, v)|
  }

  /** Recording `u`'s judgment `r` takes `u` out of every other value's users and into `r`'s. */
  lemma JudgedAsUpdate(judged: map<Id, JsonValue>, u: Id, r: JsonValue, v: int)
    ensures JudgedAs(judged[u := r], v) == (JudgedAs(judged, v) - {u}) + (if PyEqualsInt(r, v) then {u} else {})
  {
    var m := judged[u := r];
    forall x
      ensures x in JudgedAs(m, v) <==> x in (JudgedAs(judged, v) - {u}) + (if PyEqualsInt(r, v) then {u} else {})
    {
      if x != u {
        assert x in m <==> x in judged;
      }
    }
  }

  /** Recording user `u`'s judgment `r` moves that user from the count of the old value to the count of `r`. */
  lemma CountAfterJudgment(judged: map<Id, JsonValue>, u: Id, r: JsonValue, v: int)
    ensures CountRelevance(judged[u := r], v)
      == CountRelevance(judged, v) - (if u in judged && PyEqualsInt(judged[u], v) then 1 else 0)
         + (if PyEqualsInt(r, v) then 1 else 0)
  {
    JudgedAsUpdate(judged, u, r, v);
    var before := JudgedAs(judged, v);
    var others := before - {u};
    if PyEqualsInt(r, v) {
      assert |others + {u}| == |others| + 1;
    } else {
      assert others + {} == others;
    }
    if u in before {
      assert before == others + {u};
      assert |before| == |others| + 1;
    } else {
      assert others == before;
    }
  }

  /** The two counters of a SubmissionStats document. */
  datatype Counter = Likes | Dislikes

  /**
   * One submission's SubmissionStats document (`likes`, `dislikes`) together
   * with the relevance judgments recorded for it, one per user. `stored`
   * says whether the stats document exists; an update of a missing document
   * modifies nothing.
   */
  class JudgedSubmission {
    const stored: bool
    var likes: int
    var dislikes: int
    var judged: map<Id, JsonValue>

    /** Every judgment is a like or a dislike, and the counters count the likes and the dislikes. */
    ghost predicate Valid()
      reads this
    {
      (forall u :: u in judged ==> IsLike(judged[u]) || IsDislike(judged[u]))
      && (stored ==> likes == CountRelevance(judged, 1) && dislikes == CountRelevance(judged, 0))
    }

    constructor (stored: bool)
      ensures this.stored == stored && likes == 0 && dislikes == 0 && judged == map[]
      ensures Valid()
    {
      this.stored := stored;
      likes, dislikes, judged := 0, 0, map[];
    }

    /** `stats.update_stats(submission_id, field, delta)`, answering `nModified`. */
    method UpdateStats(field: Counter, delta: int) returns (nModified: int)
      modifies this`likes, this`dislikes
      ensures nModified == if stored then 1 else 0
      ensures likes == old(likes) + (if stored && field == Likes then delta else 0)
      ensures dislikes == old(dislikes) + (if stored && field == Dislikes then delta else 0)
    {
      if !stored {
        return 0;
      }
      if field == Likes {
        likes := likes + delta;
      } else {
        dislikes := dislikes + delta;
      }
      nModified := 1;
    }

    /**
     * `update_relevance_stats`: a changed judgment adds one to its new side,
     * then takes one from the other. A relevance that Python does not find
     * equal to 1 or 0 (a string "1", null) changes nothing.
     */
    method UpdateRelevanceStats(relevance: JsonValue) returns (ok: bool)
      modifies this`likes, this`dislikes
      ensures IsLike(relevance) ==> likes == old(likes) + (if stored then 1 else 0)
                                    && dislikes == old(dislikes) - (if stored then 1 else 0)
      ensures IsDislike(relevance) ==> dislikes == old(dislikes) + (if stored then 1 else 0)
                                       && likes == old(likes) - (if stored then 1 else 0)
      ensures !IsLike(relevance) && !IsDislike(relevance) ==> likes == old(likes) && dislikes == old(dislikes)
      ensures ok <==> stored && (IsLike(relevance) || IsDislike(relevance))
    {
      if IsLike(relevance) {
        var likesResult := UpdateStats(Likes, 1);
        if likesResult == 1 {
          var dislikesResult := UpdateStats(Dislikes, -1);
          return dislikesResult == 1;
        }
      } else if IsDislike(relevance) {
        var dislikesResult := UpdateStats(Dislikes, 1);
        if dislikesResult == 1 {
          var likesResult := UpdateStats(Likes, -1);
          return likesResult == 1;
        }
      }
      return false;
    }

    /**
     * `update_stats_for_new_relevance`: a first judgment adds one to its side.
     * Any other relevance (a string "1", null) leaves `result` empty and
     * `result['nModified']` raises; None stands for that KeyError.
     */
    method UpdateStatsForNewRelevance(relevance: JsonValue) returns (r: Option<bool>)
      modifies this`likes, this`dislikes
      ensures likes == old(likes) + (if stored && IsLike(relevance) then 1 else 0)
      ensures dislikes == old(dislikes) + (if stored && IsDislike(relevance) then 1 else 0)
      ensures r == if IsLike(relevance) || IsDislike(relevance) then Some(stored) else None
    {
      if IsLike(relevance) {
        var n := UpdateStats(Likes, 1);
        return Some(n == 1);
      } else if IsDislike(relevance) {
        var n := UpdateStats(Dislikes, 1);
        return Some(n == 1);
      }
      return None;
    }

    /**
     * `log_rel_judgment` for one (submission, relevance) pair of user
     * `userId`: the judgment is recorded, then the counters move according to
     * whether the user had judged before and whether Python finds the new
     * value different from the old. `logged` is false when the stats update
     * raised.
     */
    method LogRelJudgment(userId: Id, relevance: JsonValue) returns (logged: bool)
      modifies this
      ensures judged == old(judged)[userId := relevance]
      ensures userId !in old(judged) ==>
        likes == old(likes) + (if stored && IsLike(relevance) then 1 else 0)
        && dislikes == old(dislikes) + (if stored && IsDislike(relevance) then 1 else 0)
        && (logged <==> IsLike(relevance) || IsDislike(relevance))
      ensures userId in old(judged) && !PyEquals(old(judged)[userId], relevance)
              && (IsLike(relevance) || IsDislike(relevance)) ==>
        likes == old(likes) + (if stored then (if IsLike(relevance) then 1 else -1) else 0)
        && dislikes == old(dislikes) + (if stored then (if IsDislike(relevance) then 1 else -1) else 0)
      ensures userId in old(judged) && (PyEquals(old(judged)[userId], relevance)
                                        || (!IsLike(relevance) && !IsDislike(relevance))) ==>
        likes == old(likes) && dislikes == old(dislikes)
      ensures userId in old(judged) ==> logged
      ensures old(Valid()) && (IsLike(relevance) || IsDislike(relevance)) ==> Valid()
    {
      var judgementExists := userId in judged;
      var previous := if judgementExists then judged[userId] else JNull;
      ghost var before := judged;
      judged := judged[userId := relevance];
      CountAfterJudgment(before, userId, relevance, 0);
      CountAfterJudgment(before, userId, relevance, 1);
      logged := true;
      if !judgementExists {
        var r := UpdateStatsForNewRelevance(relevance);
        logged := r.Some?;
      } else if !PyEquals(previous, relevance) {
        var _ := UpdateRelevanceStats(relevance);
      }
    }
  }

  /** What the judgments loop leaves: it raised on a key that is not an ObjectId, found no pair, or picked one. */
  datatype JudgmentPick = KeyRaised | NoPair | Picked(submissionId: Id, relevance: JsonValue)

  /**
   * The loop `for k, v in judgments.items(): submission_id = ObjectId(k);
   * relevance = v`: every key is converted in turn, the first malformed one
   * raises, and otherwise the last pair is the one logged.
   */
  method LastJudgment(judgments: seq<Item<string, JsonValue>>) returns (r: JudgmentPick)
    ensures r.KeyRaised? <==> exists i :: 0 <= i < |judgments| && ObjectIdOf(judgments[i].key).None?
    ensures r.NoPair? <==> judgments == []
    ensures r.Picked? ==> var last := judgments[|judgments| - 1];
                          ObjectIdOf(last.key).Some? && r.submissionId == ObjectIdOf(last.key).value
                          && r.relevance == last.value
  {
    r := NoPair;
    var i := 0;
    while i < |judgments|
      invariant 0 <= i <= |judgments|
      invariant forall j :: 0 <= j < i ==> ObjectIdOf(judgments[j].key).Some?
      invariant r.NoPair? <==> i == 0
      invariant r.Picked? ==> ObjectIdOf(judgments[i - 1].key) == Some(r.submissionId)
                              && r.relevance == judgments[i - 1].value
      invariant !r.KeyRaised?
    {
      var submissionId := ObjectIdOf(judgments[i].key);
      if submissionId.None? {
        return KeyRaised;
      }
      r := Picked(submissionId.value, judgments[i].value);
      i := i + 1;
    }
  }

  // ---------------------------------------------------------------- format_submission_for_display

  /** `shares`: the number of (user, community) additions of the submission. */
  function Shares(d: SubmissionCommunitiesMap): nat
  {
    SumLengths(Values(d))
  }

  /** A new submission has been shared once. */
  lemma NewSubmissionSharedOnce(userId: Id, community: Id)
    ensures Shares(NewSubmissionCommunities(userId, community)) == 1
  {
    assert Values(NewSubmissionCommunities(userId, community)) == [[community]];
    assert [[community]][1..] == [];
    assert SumLengths([[community]]) == |[community]| + SumLengths([[community]][1..]);
  }

  /** PATCH shares the submission once more exactly when the community is new to the user's list. */
  lemma SharesAfterAdd(d: SubmissionCommunitiesMap, userId: Id, community: Id)
    requires WellFormedCommunities(d)
    ensures Shares(AddCommunity(d, userId, community))
      == Shares(d) + (if HasKey(d, userId) && community in Get(d, userId) then 0 else 1)
  {
    if !HasKey(d, userId) {
      AddNewList(d, userId, community, userId);
      SharesSnoc(d, Item(userId, [community]));
    } else if community !in Get(d, userId) {
      var i := Find(d, userId);
      var list := Get(d, userId) + [community];
      assert AddCommunity(d, userId, community) == Put(d, userId, list);
      assert Put(d, userId, list) == d[i := Item(userId, list)];
      SharesUpdate(d, i, Item(userId, list));
    }
  }

  lemma SharesSnoc(d: SubmissionCommunitiesMap, it: Item<Id, seq<Id>>)
    ensures Shares(d + [it]) == Shares(d) + |it.value|
  {
    assert Values(d + [it]) == Values(d) + [it.value];
    SumLengthsSnoc(Values(d), it.value);
  }

  lemma SharesUpdate(d: SubmissionCommunitiesMap, i: nat, it: Item<Id, seq<Id>>)
    requires i < |d|
    ensures Shares(d[i := it]) + |d[i].value| == Shares(d) + |it.value|
  {
    assert Values(d[i := it]) == Values(d)[i := it.value];
    SumLengthsUpdate(Values(d), i, it.value);
  }

  /** What the viewer may do with the submission in one of their communities: "remove", "view" or "save". */
  datatype ValidAction = CanRemove | CanView | CanSave

  /** `valid_action` of the viewer's community `communityId`. */
  function ClassifyAction(communityId: Id, d: SubmissionCommunitiesMap, userId: Id): (a: ValidAction)
    ensures a == CanRemove <==> HasKey(d, userId) && communityId in Get(d, userId)
    ensures a == CanSave <==> forall i :: 0 <= i < |d| ==> communityId !in d[i].value
  {
    InConcat(Values(d), communityId);
    if HasKey(d, userId) && communityId in Get(d, userId) then
      assert communityId in Values(d)[Find(d, userId)];
      CanRemove
    else if communityId in Concat(Values(d)) then
      CanView
    else
      assert forall i :: 0 <= i < |d| ==> Values(d)[i] == d[i].value;
      CanSave
  }

  /** A community entry as displayed: `is_admin`, `join_key` and `community_id` removed, `valid_action` added. */
  datatype DisplayedCommunity = DisplayedCommunity(
    name: string, description: string, isPublic: bool, pinned: string, validAction: ValidAction)

  function Displayed(e: Helpers.JoinedInfo, a: ValidAction): DisplayedCommunity
  {
    DisplayedCommunity(e.name, e.description, e.isPublic, e.pinned, a)
  }

  /** The loop over the viewer's communities (keyed by id) that adds `valid_action` and strips the private fields. */
  method DisplayCommunities(hydrated: seq<Item<Id, Helpers.JoinedInfo>>, d: SubmissionCommunitiesMap, userId: Id)
    returns (shown: seq<Item<Id, DisplayedCommunity>>)
    ensures Keys(shown) == Keys(hydrated)
    ensures forall i :: 0 <= i < |hydrated| ==>
      shown[i].value == Displayed(hydrated[i].value, ClassifyAction(hydrated[i].key, d, userId))
  {
    shown := [];
    var i := 0;
    while i < |hydrated|
      invariant 0 <= i <= |hydrated|
      invariant |shown| == i
      invariant forall j :: 0 <= j < i ==> shown[j].key == hydrated[j].key
      invariant forall j :: 0 <= j < i ==>
        shown[j].value == Displayed(hydrated[j].value, ClassifyAction(hydrated[j].key, d, userId))
    {
      var communityId := hydrated[i].key;
      var action := ClassifyAction(communityId, d, userId);
      shown := shown + [Item(communityId, Displayed(hydrated[i].value, action))];
      i := i + 1;
    }
  }

  /** `{x: shown[x]["name"] for x in shown if shown[x]["valid_action"] != "save"}`. */
  function NotSavedNames(shown: seq<Item<Id, DisplayedCommunity>>): seq<Item<Id, string>>
  {
    if shown == [] then []
    else
      var last := shown[|shown| - 1];
      var rest := NotSavedNames(shown[..|shown| - 1]);
      if last.value.validAction != CanSave then Put(rest, last.key, last.value.name) else rest
  }

  /** `for x in extra: d[x] = extra[x]`. */
  function PutAll(d: seq<Item<Id, string>>, extra: seq<Item<Id, string>>): seq<Item<Id, string>>
  {
    if extra == [] then d
    else
      var last := extra[|extra| - 1];
      Put(PutAll(d, extra[..|extra| - 1]), last.key, last.value)
  }

  /** The viewer's entry `i` is listed when its action is not "save". */
  predicate ListedAt(shown: seq<Item<Id, DisplayedCommunity>>, i: int, k: Id)
  {
    0 <= i < |shown| && shown[i].key == k && shown[i].value.validAction != CanSave
  }

  /** An entry is listed in a longer view exactly when it is listed in the shorter one or is the new last entry. */
  lemma ListedAtSnoc(shown: seq<Item<Id, DisplayedCommunity>>, init: seq<Item<Id, DisplayedCommunity>>, k: Id)
    requires shown != [] && init == shown[..|shown| - 1]
    ensures (exists i :: ListedAt(shown, i, k)) <==>
              (exists i :: ListedAt(init, i, k)) || ListedAt(shown, |shown| - 1, k)
  {
    if exists i :: ListedAt(init, i, k) {
      var i :| ListedAt(init, i, k);
      assert ListedAt(shown, i, k);
    }
    if exists i :: ListedAt(shown, i, k) {
      var i :| ListedAt(shown, i, k);
      if i < |init| {
        assert ListedAt(init, i, k);
      }
    }
  }

  lemma {:induction false} NotSavedNamesKey(shown: seq<Item<Id, DisplayedCommunity>>, k: Id)
    ensures HasKey(NotSavedNames(shown), k) <==> exists i :: ListedAt(shown, i, k)
  {
    if shown != [] {
      var n := |shown| - 1;
      var init := shown[..n];
      var last := shown[n];
      NotSavedNamesKey(init, k);
      ListedAtSnoc(shown, init, k);
      if last.value.validAction != CanSave {
        HasKeyPut(NotSavedNames(init), last.key, last.value.name, k);
      }
    }
  }

  lemma {:induction false} PutAllKeys(d: seq<Item<Id, string>>, extra: seq<Item<Id, string>>)
    ensures forall k :: HasKey(PutAll(d, extra), k) <==> HasKey(d, k) || HasKey(extra, k)
  {
    if extra != [] {
      var init := extra[..|extra| - 1];
      var last := extra[|extra| - 1];
      PutAllKeys(d, init);
      assert extra == init + [last];
      forall k
        ensures HasKey(PutAll(d, extra), k) <==> HasKey(d, k) || HasKey(extra, k)
      {
        HasKeyPut(PutAll(d, init), last.key, last.value, k);
        HasKeySnoc(init, last, k);
      }
    }
  }

  /**
   * `communities_part_of`: the viewer's communities the submission is in
   * (every entry whose action is not "save"), then the submission's public
   * communities, a public name replacing the viewer's entry with the same id.
   */
  method CommunitiesPartOf(shown: seq<Item<Id, DisplayedCommunity>>, publics: seq<Item<Id, string>>)
    returns (partOf: seq<Item<Id, string>>)
    ensures partOf == PutAll(NotSavedNames(shown), publics)
  {
    partOf := [];
    var i := 0;
    while i < |shown|
      invariant 0 <= i <= |shown|
      invariant partOf == NotSavedNames(shown[..i])
    {
      assert shown[..i + 1][..i] == shown[..i];
      if shown[i].value.validAction != CanSave {
        partOf := Put(partOf, shown[i].key, shown[i].value.name);
      }
      i := i + 1;
    }
    assert shown[..i] == shown;
    ghost var base := partOf;
    i := 0;
    while i < |publics|
      invariant 0 <= i <= |publics|
      invariant partOf == PutAll(base, publics[..i])
    {
      assert publics[..i + 1][..i] == publics[..i];
      partOf := Put(partOf, publics[i].key, publics[i].value);
      i := i + 1;
    }
    assert publics[..i] == publics;
  }

  /** A community is listed as containing the submission exactly when someone added it there and the viewer is in it, or it is public. */
  lemma PartOfExactly(shown: seq<Item<Id, DisplayedCommunity>>, publics: seq<Item<Id, string>>)
    ensures forall k :: HasKey(PutAll(NotSavedNames(shown), publics), k) <==>
      (exists i :: ListedAt(shown, i, k)) || HasKey(publics, k)
  {
    forall k ensures HasKey(NotSavedNames(shown), k) <==> exists i :: ListedAt(shown, i, k) {
      NotSavedNamesKey(shown, k);
    }
    PutAllKeys(NotSavedNames(shown), publics);
  }

  // ---------------------------------------------------------------- batch submissions

  /** A field of a JSON object: absent, `null`, or a string. */
  datatype JsonField = Missing | Null | Str(s: string)

  /** One element of the batch's `data`. */
  datatype BatchItem = BatchItem(description: JsonField, sourceUrl: JsonField, title: JsonField)

  /** The value stored under `"Submission i"`. */
  datatype BatchResult = BatchResult(message: string, status: Status, submissionId: Option<Id>)

  function FieldValue(f: JsonField): Option<string>
  {
    if f.Str? then Some(f.s) else None
  }

  /** The result for one item: a missing description or title, or a helper that raises, gives the generic 500. */
  function BatchItemResult(item: BatchItem, userId: Id, userCommunities: seq<Id>, community: string,
                           table: CommunityTable, isUrl: string -> bool, inserted: Option<Id>): (r: BatchResult)
    ensures item.description.Missing? || item.title.Missing? ==>
      r == BatchResult("Failed to create submission, please try again later.", INTERNAL_SERVER_ERROR, None)
    ensures r.status == OK <==> r.submissionId.Some?
  {
    if item.description.Missing? || item.title.Missing? then
      BatchResult("Failed to create submission, please try again later.", INTERNAL_SERVER_ERROR, None)
    else
      var sourceUrl := if item.sourceUrl.Missing? then Some("") else FieldValue(item.sourceUrl);
      match CreateSubmissionHelper(userId, userCommunities, FieldValue(item.description), sourceUrl,
                                   FieldValue(item.title), community, table, isUrl, inserted)
      case Raised => BatchResult("Failed to create submission, please try again later.", INTERNAL_SERVER_ERROR, None)
      case Created(message, status, id) => BatchResult(message, status, id)
  }

  /** The results of the first `n` items, each stored under its index; `tryItem` gives one item's result. */
  function BatchResults(items: seq<BatchItem>, inserted: seq<Option<Id>>,
                        tryItem: (BatchItem, Option<Id>) -> BatchResult, n: nat): seq<Item<nat, BatchResult>>
    requires n <= |items| && |inserted| == |items|
  {
    if n == 0 then []
    else BatchResults(items, inserted, tryItem, n - 1) + [Item(n - 1, tryItem(items[n - 1], inserted[n - 1]))]
  }

  /** The keys of the results whose status is not OK, in order. */
  function FailedKeys(results: seq<Item<nat, BatchResult>>): seq<nat>
  {
    if results == [] then []
    else
      var last := results[|results| - 1];
      FailedKeys(results[..|results| - 1]) + (if last.value.status != OK then [last.key] else [])
  }

  lemma FailedKeysSnoc(results: seq<Item<nat, BatchResult>>, it: Item<nat, BatchResult>)
    ensures FailedKeys(results + [it]) == FailedKeys(results) + (if it.value.status != OK then [it.key] else [])
  {
    assert (results + [it])[..|results|] == results;
  }

  /** Result `i` is item `i`'s result, stored under `i`. */
  lemma {:induction false} BatchResultsSpec(items: seq<BatchItem>, inserted: seq<Option<Id>>,
                                            tryItem: (BatchItem, Option<Id>) -> BatchResult, n: nat)
    requires n <= |items| && |inserted| == |items|
    ensures |BatchResults(items, inserted, tryItem, n)| == n
    ensures forall i :: 0 <= i < n ==>
      BatchResults(items, inserted, tryItem, n)[i] == Item(i, tryItem(items[i], inserted[i]))
  {
    if n > 0 {
      BatchResultsSpec(items, inserted, tryItem, n - 1);
    }
  }

  /** Every result stored under its own position. */
  predicate KeyedByPosition(results: seq<Item<nat, BatchResult>>)
  {
    forall i :: 0 <= i < |results| ==> results[i].key == i
  }

  /**
   * For results stored under their positions, the failed keys are exactly
   * the positions that failed, in increasing order.
   */
  lemma {:induction false} FailedKeysSpec(results: seq<Item<nat, BatchResult>>)
    requires KeyedByPosition(results)
    ensures forall k :: 0 <= k < |FailedKeys(results)| ==> FailedKeys(results)[k] < |results|
    ensures forall k, m :: 0 <= k < m < |FailedKeys(results)| ==> FailedKeys(results)[k] < FailedKeys(results)[m]
    ensures forall i :: 0 <= i < |results| ==> (i in FailedKeys(results) <==> results[i].value.status != OK)
  {
    if results != [] {
      var init := results[..|results| - 1];
      assert KeyedByPosition(init) by {
        forall i | 0 <= i < |init| ensures init[i].key == i { assert init[i] == results[i]; }
      }
      FailedKeysSpec(init);
      forall i | 0 <= i < |init| ensures init[i] == results[i] { }
    }
  }

  /**
   * The loop of `create_batch_submission`: every item is tried, its result
   * stored under its index, the indices of the failed ones collected; the
   * answer is OK only when none failed. `tryItem(item, reply)` is the helper
   * call for one item, with `inserted[i]` the database's reply to item i's insert.
   */
  method CollectBatch(items: seq<BatchItem>, inserted: seq<Option<Id>>, tryItem: (BatchItem, Option<Id>) -> BatchResult)
    returns (results: seq<Item<nat, BatchResult>>, errors: seq<nat>, status: Status)
    requires |inserted| == |items|
    ensures |results| == |items|
    ensures forall i :: 0 <= i < |items| ==> results[i] == Item(i, tryItem(items[i], inserted[i]))
    ensures forall i :: 0 <= i < |items| ==> (i in errors <==> results[i].value.status != OK)
    ensures forall k :: 0 <= k < |errors| ==> errors[k] < |items|
    ensures forall k, m :: 0 <= k < m < |errors| ==> errors[k] < errors[m]
    ensures status == OK <==> (forall i :: 0 <= i < |items| ==> results[i].value.status == OK)
    ensures status == OK <==> |errors| == 0
    ensures status == OK || status == INTERNAL_SERVER_ERROR
  {
    results, errors := [], [];
    var i := 0;
    while i < |items|
      invariant 0 <= i <= |items|
      invariant results == BatchResults(items, inserted, tryItem, i)
      invariant errors == FailedKeys(results)
    {
      var r := tryItem(items[i], inserted[i]);
      FailedKeysSnoc(results, Item(i, r));
      results := results + [Item(i, r)];
      if r.status != OK {
        errors := errors + [i];
      }
      i := i + 1;
    }
    BatchResultsSpec(items, inserted, tryItem, |items|);
    FailedKeysSpec(results);
    NoErrorsAllOk(results, errors);
    if |errors| == 0 {
      status := OK;
    } else {
      status := INTERNAL_SERVER_ERROR;
    }
  }

  /** `create_batch_submission`: the batch loop over the helper's result for each item. */
  method CreateBatch(items: seq<BatchItem>, userId: Id, userCommunities: seq<Id>, community: string,
                     table: CommunityTable, isUrl: string -> bool, inserted: seq<Option<Id>>)
    returns (results: seq<Item<nat, BatchResult>>, errors: seq<nat>, status: Status)
    requires |inserted| == |items|
    ensures |results| == |items|
    ensures forall i :: 0 <= i < |items| ==>
      results[i] == Item(i, BatchItemResult(items[i], userId, userCommunities, community, table, isUrl, inserted[i]))
    ensures forall i :: 0 <= i < |items| ==> (i in errors <==> results[i].value.status != OK)
    ensures status == OK <==> |errors| == 0
  {
    results, errors, status := CollectBatch(items, inserted,
      (item, reply) => BatchItemResult(item, userId, userCommunities, community, table, isUrl, reply));
  }

  /** The batch answer is OK exactly when no index was recorded as failed. */
  lemma NoErrorsAllOk(results: seq<Item<nat, BatchResult>>, errors: seq<nat>)
    requires forall j :: 0 <= j < |results| ==> (j in errors <==> results[j].value.status != OK)
    requires forall k :: 0 <= k < |errors| ==> errors[k] < |results|
    ensures |errors| == 0 <==> forall j :: 0 <= j < |results| ==> results[j].value.status == OK
  {
    if |errors| != 0 {
      assert errors[0] in errors;
    }
  }
}
