/**
 * The community endpoints: following, joining and leaving as updates of the
 * user's two community lists, the validation and edit fields of a
 * community, the community page (access, followers, members, pinned
 * submissions) and the history of left communities. Database reads are
 * inputs; every database write is taken as acknowledged.
 */
module Communities {
  import opened Wrappers
  import opened Seqs
  import opened Strings
  import opened OrderedDicts
  import opened Entities
  import opened Helpers

  // ---------------------------------------------------------------- follow, join, leave

  /** The community a follow request names, when its id is present and well-formed. */
  function RequestedCommunity(communityId: Option<string>): Option<Id>
  {
    if Truthy(communityId) then ObjectIdOf(communityId.value) else None
  }

  /** The rules of `follow_community`: an existing public community, followed for "unfollow" and not for "follow". */
  predicate FollowAllowed(communityId: Option<string>, command: Option<string>, table: CommunityTable, followed: seq<Id>)
  {
    && Truthy(communityId)
    && (command == Some("follow") || command == Some("unfollow"))
    && RequestedCommunity(communityId).Some?
    && var c := RequestedCommunity(communityId).value;
       && c in table && table[c].isPublic
       && (command == Some("follow") ==> c !in followed)
       && (command == Some("unfollow") ==> c in followed)
  }

  /** A user document, whose two community lists the endpoints rewrite. */
  class UserRecord {
    const id: Id
    var communities: seq<Id>
    var followedCommunities: seq<Id>

    constructor (id: Id, communities: seq<Id>, followedCommunities: seq<Id>)
      ensures this.id == id && this.communities == communities && this.followedCommunities == followedCommunities
    {
      this.id := id;
      this.communities := communities;
      this.followedCommunities := followedCommunities;
    }

    /**
     * `follow_community`: "follow" appends the community, "unfollow" removes
     * every occurrence; both need an existing public community.
     */
    method FollowCommunity(communityId: Option<string>, command: Option<string>, table: CommunityTable)
      returns (status: Status, message: string)
      modifies this
      ensures communities == old(communities)
      ensures status == OK <==> FollowAllowed(communityId, command, table, old(followedCommunities))
      ensures status != OK ==> status == BAD_REQUEST && followedCommunities == old(followedCommunities)
      ensures status == OK && command == Some("follow") ==>
                followedCommunities == old(followedCommunities) + [RequestedCommunity(communityId).value]
      ensures status == OK && command == Some("unfollow") ==>
                followedCommunities == Without(old(followedCommunities), RequestedCommunity(communityId).value)
    {
      if !Truthy(communityId) {
        return BAD_REQUEST, "Missing community ID in request.";
      }
      if command != Some("follow") && command != Some("unfollow") {
        return BAD_REQUEST, "Command must be follow or unfollow.";
      }
      var communityIdObjid := ObjectIdOf(communityId.value);
      if communityIdObjid.None? {
        return BAD_REQUEST, "Invalid community ID.";
      }
      var c := communityIdObjid.value;
      if c !in table || !table[c].isPublic {
        return BAD_REQUEST, "Cannot find community.";
      }
      if command == Some("follow") {
        if c in followedCommunities {
          return BAD_REQUEST, "You already follow this community.";
        }
        followedCommunities := followedCommunities + [c];
        return OK, "Community successfully followed!";
      } else {
        if c !in followedCommunities {
          return BAD_REQUEST, "You do not follow this community.";
        }
        followedCommunities := Without(followedCommunities, c);
        return OK, "Community successfully unfollowed!";
      }
    }

    /**
     * `join_community`. `joinKey` is the key of the request body (None when
     * there is no body or no key); `byJoinKey` is the community lookup by key.
     */
    method JoinCommunity(joinKey: Option<string>, byJoinKey: string -> Option<Id>) returns (status: Status, message: string)
      modifies this
      ensures followedCommunities == old(followedCommunities)
      ensures joinKey.None? ==> status == INTERNAL_SERVER_ERROR
      ensures joinKey.Some? && byJoinKey(joinKey.value).None? ==> status == BAD_REQUEST && message == "Cannot find community."
      ensures status == OK <==> joinKey.Some? && byJoinKey(joinKey.value).Some? && byJoinKey(joinKey.value).value !in old(communities)
      ensures status == OK ==> communities == old(communities) + [byJoinKey(joinKey.value).value]
      ensures status != OK ==> communities == old(communities)
    {
      if joinKey.None? {
        return INTERNAL_SERVER_ERROR, "Something went wrong. Please try again later";
      }
      var community := byJoinKey(joinKey.value);
      if community.None? {
        return BAD_REQUEST, "Cannot find community.";
      }
      var communityId := community.value;
      if communityId in communities {
        return BAD_REQUEST, "You are already a member of this community!";
      }
      communities := communities + [communityId];
      return OK, "Community successfully joined!";
    }

    /**
     * `leave_community`: a member leaves by having every occurrence of the
     * community removed. A missing body or id, an id that is not an
     * ObjectId and an unknown community all end in a server error.
     */
    method LeaveCommunity(communityId: Option<string>, table: CommunityTable) returns (status: Status, message: string)
      modifies this
      ensures followedCommunities == old(followedCommunities)
      ensures status == OK <==>
                communityId.Some? && ObjectIdOf(communityId.value).Some? && ObjectIdOf(communityId.value).value in table &&
                table[ObjectIdOf(communityId.value).value].id in old(communities)
      ensures status == FORBIDDEN <==>
                communityId.Some? && ObjectIdOf(communityId.value).Some? && ObjectIdOf(communityId.value).value in table &&
                table[ObjectIdOf(communityId.value).value].id !in old(communities)
      ensures status != OK && status != FORBIDDEN ==> status == INTERNAL_SERVER_ERROR
      ensures status == OK ==>
                communities == Without(old(communities), table[ObjectIdOf(communityId.value).value].id) &&
                table[ObjectIdOf(communityId.value).value].id !in communities
      ensures status != OK ==> communities == old(communities)
    {
      if communityId.None? {
        return INTERNAL_SERVER_ERROR, "Something went wrong. Please try again later";
      }
      var oid := ObjectIdOf(communityId.value);
      if oid.None? {
        return INTERNAL_SERVER_ERROR, "Failed to leave community, please try again later.";
      }
      if oid.value !in table {
        return INTERNAL_SERVER_ERROR, "Something went wrong. Please try again later";
      }
      var community := table[oid.value];
      if community.id !in communities {
        return FORBIDDEN, "You are not a member of this community.";
      }
      communities := Without(communities, community.id);
      return OK, "Community successfully left!";
    }
  }

  /** Following and then unfollowing a community, or joining and then leaving it, gives the list back. */
  lemma AddThenRemove(list: seq<Id>, c: Id)
    requires c !in list
    ensures Without(list + [c], c) == list
  {
    AppendThenWithout(list, c);
  }

  // ---------------------------------------------------------------- create and edit

  /** The result of the length checks of `create_community`. */
  datatype Validation = Passed | Rejected(message: string) | RaisedTypeError

  /**
   * The length checks as written: `name and len(name) < 3 or len(name) > 100`
   * evaluates `len(None)` when no name is sent, which raises.
   */
  function ValidateCommunityAsWritten(name: Option<string>, description: Option<string>): Validation
  {
    if Truthy(name) && |name.value| < 3 then Rejected("The community name must be between 2 characters and 100 characters.")
    else if name.None? then RaisedTypeError
    else if |name.value| > 100 then Rejected("The community name must be between 2 characters and 100 characters.")
    else if Truthy(description) && |description.value| > 500 then Rejected("The community name must be less than 500 characters.")
    else Passed
  }

  /** An edit of the description alone, which the edit branch accepts, never gets past the checks as written. */
  lemma DescriptionOnlyEditRaises(description: string)
    ensures ValidateCommunityAsWritten(None, Some(description)) == RaisedTypeError
  {
  }

  /** The length checks as intended: a name is checked only when one is sent. */
  function ValidateCommunity(name: Option<string>, description: Option<string>): (v: Validation)
    ensures v != RaisedTypeError
    ensures v == Passed <==>
              (!Truthy(name) || 3 <= |name.value| <= 100) && (!Truthy(description) || |description.value| <= 500)
    ensures name.Some? ==> ValidateCommunityAsWritten(name, description) == v
  {
    if Truthy(name) && |name.value| < 3 then Rejected("The community name must be between 2 characters and 100 characters.")
    else if name.Some? && |name.value| > 100 then Rejected("The community name must be between 2 characters and 100 characters.")
    else if Truthy(description) && |description.value| > 500 then Rejected("The community name must be less than 500 characters.")
    else Passed
  }

  /** A value of the `$set` document of an edit. */
  datatype FieldValue = Text(text: string) | Flag(flag: bool)

  /** The four keys an edit may set: "name", "description", "public" and "pinned". */
  datatype Field = Name | Description | Public | Pinned

  /**
   * `insert_obj` of an edit: name and description only when non-empty,
   * `public` and `pinned` whenever they were sent, even as `False` or "".
   */
  method PatchFields(name: Option<string>, description: Option<string>, isPublic: Option<bool>, pinned: Option<string>)
    returns (insertObj: seq<Item<Field, FieldValue>>)
    ensures IsDict(insertObj)
    ensures HasKey(insertObj, Name) <==> Truthy(name)
    ensures Truthy(name) ==> Get(insertObj, Name) == Text(name.value)
    ensures HasKey(insertObj, Description) <==> Truthy(description)
    ensures Truthy(description) ==> Get(insertObj, Description) == Text(description.value)
    ensures HasKey(insertObj, Public) <==> isPublic.Some?
    ensures isPublic.Some? ==> Get(insertObj, Public) == Flag(isPublic.value)
    ensures HasKey(insertObj, Pinned) <==> pinned.Some?
    ensures pinned.Some? ==> Get(insertObj, Pinned) == Text(pinned.value)
  {
    var empty: seq<Item<Field, FieldValue>> := [];
    var withName := PutWhen(empty, Name, Text(if Truthy(name) then name.value else ""), Truthy(name));
    assert forall f :: HasKey(withName, f) <==> f == Name && Truthy(name);
    var withDescription := PutWhen(withName, Description, Text(if Truthy(description) then description.value else ""), Truthy(description));
    assert forall f :: HasKey(withDescription, f) <==> (f == Name && Truthy(name)) || (f == Description && Truthy(description));
    assert Truthy(name) ==> Get(withDescription, Name) == Text(name.value);
    var withPublic := PutWhen(withDescription, Public, Flag(isPublic.Some? && isPublic.value), isPublic.Some?);
    assert !HasKey(withPublic, Pinned);
    assert Truthy(name) ==> Get(withPublic, Name) == Text(name.value);
    assert Truthy(description) ==> Get(withPublic, Description) == Text(description.value);
    insertObj := PutWhen(withPublic, Pinned, Text(if pinned.Some? then pinned.value else ""), pinned.Some?);
  }

  /** `if cond: d[k] = v` for a key `d` does not hold yet. */
  method PutWhen<V>(d: seq<Item<Field, V>>, k: Field, v: V, cond: bool) returns (r: seq<Item<Field, V>>)
    requires IsDict(d) && !HasKey(d, k)
    ensures IsDict(r)
    ensures forall o :: HasKey(r, o) <==> HasKey(d, o) || (cond && o == k)
    ensures HasKey(r, k) ==> Get(r, k) == v
    ensures forall o :: o != k && HasKey(d, o) ==> Get(r, o) == Get(d, o)
  {
    r := d;
    if cond {
      forall o | o != k && HasKey(d, o)
        ensures Get(Put(d, k, v), o) == Get(d, o)
      {
        GetPutOther(d, k, v, o);
      }
      r := Put(d, k, v);
    }
  }

  /** What a create or edit request comes to once its checks are passed or failed. */
  datatype CreateOutcome =
    | Refused(status: Status, message: string)
    | ServerError
    | Create(name: string, description: string)
    | Edit(communityId: Id)

  /**
   * The checks of `create_community` in order, with the intended length
   * checks: POST needs a name and creates the community; PATCH needs a
   * name or a description, a well-formed id of an existing community and an
   * admin. A missing id makes `ObjectId(None)` a fresh id that matches no
   * community; a community without `admins` makes the admin test raise.
   */
  function CreateCommunity(isPost: bool, userId: Id, name: Option<string>, description: Option<string>,
                           communityId: Option<string>, table: CommunityTable): (r: CreateOutcome)
    ensures ValidateCommunity(name, description).Rejected? ==> r.Refused? && r.status == BAD_REQUEST
    ensures r.Create? <==> isPost && ValidateCommunity(name, description) == Passed && Truthy(name)
    ensures r.Create? ==> r.name == name.value && r.description == (if Truthy(description) then description.value else "")
    ensures r.Edit? ==> !isPost && ValidateCommunity(name, description) == Passed && (Truthy(name) || Truthy(description))
    ensures r.Edit? ==> communityId.Some? && ObjectIdOf(communityId.value) == Some(r.communityId)
    ensures r.Edit? ==> r.communityId in table && IsAdmin(table[r.communityId], userId)
    ensures isPost && ValidateCommunity(name, description) == Passed && !Truthy(name) ==>
      r == Refused(BAD_REQUEST, "Must provide a community name.")
    // The edit checks in order, each answering when every earlier one passed.
    ensures !isPost && ValidateCommunity(name, description) == Passed && !Truthy(name) && !Truthy(description) ==>
      r == Refused(BAD_REQUEST, "Must provide name and/or description")
    ensures !isPost && ValidateCommunity(name, description) == Passed && (Truthy(name) || Truthy(description)) ==>
      && (communityId.Some? && ObjectIdOf(communityId.value).None? ==>
            r == Refused(BAD_REQUEST, "Must provide a valid community id."))
      && (communityId.None? ==> r == Refused(INTERNAL_SERVER_ERROR, "Cannot find community."))
      && (communityId.Some? && ObjectIdOf(communityId.value).Some? ==>
            var id := ObjectIdOf(communityId.value).value;
            && (id !in table ==> r == Refused(INTERNAL_SERVER_ERROR, "Cannot find community."))
            && (id in table && table[id].admins.None? ==> r == ServerError)
            && (id in table && table[id].admins.Some? && userId !in table[id].admins.value ==>
                  r == Refused(UNAUTHORIZED, "Must be a community admin to edit the title or description."))
            && (id in table && table[id].admins.Some? && userId in table[id].admins.value ==> r == Edit(id)))
  {
    match ValidateCommunity(name, description)
    case Rejected(message) => Refused(BAD_REQUEST, message)
    case RaisedTypeError => ServerError
    case Passed =>
      if isPost then
        if Truthy(name) then Create(name.value, if Truthy(description) then description.value else "")
        else Refused(BAD_REQUEST, "Must provide a community name.")
      else if !Truthy(name) && !Truthy(description) then Refused(BAD_REQUEST, "Must provide name and/or description")
      else if communityId.Some? && ObjectIdOf(communityId.value).None? then Refused(BAD_REQUEST, "Must provide a valid community id.")
      else if communityId.None? || ObjectIdOf(communityId.value).value !in table then Refused(INTERNAL_SERVER_ERROR, "Cannot find community.")
      else
        var c := table[ObjectIdOf(communityId.value).value];
        if c.admins.None? then ServerError
        else if userId !in c.admins.value then Refused(UNAUTHORIZED, "Must be a community admin to edit the title or description.")
        else Edit(ObjectIdOf(communityId.value).value)
  }

  // ---------------------------------------------------------------- community page

  /** The stripped, non-empty pieces among `pieces`, built from the last piece back. */
  function StrippedPieces(pieces: seq<string>): (r: seq<string>)
    ensures forall p <- r :: p != [] && IsStripped(p)
  {
    if pieces == [] then []
    else
      var init := StrippedPieces(pieces[..|pieces| - 1]);
      var p := Strip(pieces[|pieces| - 1]);
      StripResult(pieces[|pieces| - 1]);
      if p != [] then init + [p] else init
  }

  /** The comprehension read from the front: each piece in turn, stripped, kept when non-empty. */
  function KeptPieces(pieces: seq<string>): seq<string>
  {
    if pieces == [] then []
    else (if Strip(pieces[0]) != [] then [Strip(pieces[0])] else []) + KeptPieces(pieces[1..])
  }

  lemma {:induction false} KeptPiecesSnoc(pieces: seq<string>, p: string)
    ensures KeptPieces(pieces + [p]) == KeptPieces(pieces) + (if Strip(p) != [] then [Strip(p)] else [])
  {
    if pieces != [] {
      assert (pieces + [p])[1..] == pieces[1..] + [p];
      KeptPiecesSnoc(pieces[1..], p);
    }
  }

  /** The pieces are those of the comprehension, in the same order. */
  lemma {:induction false} StrippedPiecesInOrder(pieces: seq<string>)
    ensures StrippedPieces(pieces) == KeptPieces(pieces)
  {
    if pieces != [] {
      var init := pieces[..|pieces| - 1];
      var last := pieces[|pieces| - 1];
      assert init + [last] == pieces;
      StrippedPiecesInOrder(init);
      KeptPiecesSnoc(init, last);
    }
  }

  /** `[x.strip() for x in pinned.split(",") if x.strip()]`. */
  function PinnedIds(pinned: string): (r: seq<string>)
    ensures r == KeptPieces(SplitOn(pinned, ','))
    ensures forall p <- r :: p != [] && IsStripped(p) && ',' !in p
  {
    StrippedPiecesInOrder(SplitOn(pinned, ','));
    KeptPiecesFree(SplitOn(pinned, ','), ',');
    StrippedPieces(SplitOn(pinned, ','))
  }

  /** Stripping adds no character, so pieces free of `c` stay free of it. */
  lemma {:induction false} KeptPiecesFree(pieces: seq<string>, c: char)
    requires forall p <- pieces :: c !in p
    ensures forall x <- KeptPieces(pieces) :: c !in x
  {
    if pieces != [] {
      assert pieces[0] in pieces;
      StripIsSlice(pieces[0]);
      assert forall p <- pieces[1..] :: p in pieces;
      KeptPiecesFree(pieces[1..], c);
    }
  }

  lemma {:induction false} StrippedPiecesOfStripped(pieces: seq<string>)
    requires forall p <- pieces :: p != [] && IsStripped(p)
    ensures StrippedPieces(pieces) == pieces
  {
    if pieces != [] {
      var init := pieces[..|pieces| - 1];
      assert forall p <- init :: p in pieces;
      StrippedPiecesOfStripped(init);
      var last := pieces[|pieces| - 1];
      assert last in pieces;
      StripStripped(last);
      assert init + [last] == pieces;
    }
  }

  /** Ids written with commas between them are read back as written. */
  lemma PinnedIdsRoundTrip(ids: seq<string>)
    requires ids != []
    requires forall p <- ids :: p != [] && IsStripped(p) && ',' !in p
    ensures PinnedIds(JoinOn(ids, ',')) == ids
  {
    SplitJoin(ids, ',');
    StrippedPiecesOfStripped(ids);
  }

  /** The pinned list never yields an empty or space-padded id. */
  lemma PinnedIdsClean(pinned: string)
    ensures forall p <- PinnedIds(pinned) :: p != [] && IsStripped(p)
  {
  }

  /** Who may see a community's page: anybody for a public community, members for a private one. */
  predicate CanView(c: Id, table: CommunityTable, userCommunities: seq<Id>)
  {
    c in table && (table[c].isPublic || c in userCommunities)
  }

  /** A user as listed on the community page. */
  datatype JoinedUser = JoinedUser(username: Option<string>, id: Id)

  /** The users whose `communities` hold `c`, in collection order. */
  function Members(users: seq<User>, c: Id): (r: seq<User>)
    ensures forall u <- r :: u in users && c in u.communities
    ensures forall u <- users :: c in u.communities ==> u in r
    ensures |r| <= |users|
  {
    if users == [] then []
    else
      var init := users[..|users| - 1];
      var last := users[|users| - 1];
      assert forall u <- init :: u in users;
      assert users == init + [last];
      Members(init, c) + (if c in last.communities then [last] else [])
  }

  /** The positions of the users whose `followed_communities` hold `c`. */
  function FollowingAt(users: seq<User>, c: Id): set<int>
  {
    set i | 0 <= i < |users| && c in users[i].followedCommunities
  }

  lemma FollowingAtSnoc(users: seq<User>, c: Id)
    requires users != []
    ensures var init := users[..|users| - 1];
            |FollowingAt(users, c)|
              == |FollowingAt(init, c)| + (if c in users[|users| - 1].followedCommunities then 1 else 0)
  {
    var init := users[..|users| - 1];
    var k := |users| - 1;
    var extra: set<int> := if c in users[k].followedCommunities then {k} else {};
    assert FollowingAt(users, c) == FollowingAt(init, c) + extra;
    assert k !in FollowingAt(init, c);
  }

  /** `count_documents({"followed_communities": c})`: the number of users who follow `c`. */
  function CountFollowing(users: seq<User>, c: Id): (n: nat)
    ensures n == |FollowingAt(users, c)|
    ensures n <= |users|
  {
    if users == [] then 0
    else
      FollowingAtSnoc(users, c);
      CountFollowing(users[..|users| - 1], c) + (if c in users[|users| - 1].followedCommunities then 1 else 0)
  }

  /** The positions of the users whose `communities` hold `c`. */
  function MemberAt(users: seq<User>, c: Id): set<int>
  {
    set i | 0 <= i < |users| && c in users[i].communities
  }

  /** There is one member listed per user whose `communities` hold `c`. */
  lemma {:induction false} MembersCounted(users: seq<User>, c: Id)
    ensures |Members(users, c)| == |MemberAt(users, c)|
  {
    if users != [] {
      var init := users[..|users| - 1];
      var k := |users| - 1;
      MembersCounted(init, c);
      assert |Members(users, c)| == |Members(init, c)| + (if c in users[k].communities then 1 else 0);
      MemberAtSnoc(users, c);
    }
  }

  lemma MemberAtSnoc(users: seq<User>, c: Id)
    requires users != []
    ensures var init := users[..|users| - 1];
            |MemberAt(users, c)|
              == |MemberAt(init, c)| + (if c in users[|users| - 1].communities then 1 else 0)
  {
    var init := users[..|users| - 1];
    var k := |users| - 1;
    var extra: set<int> := if c in users[k].communities then {k} else {};
    assert MemberAt(users, c) == MemberAt(init, c) + extra;
    assert k !in MemberAt(init, c);
  }

  /**
   * `num_followers`: the users who follow `c` plus the users who joined it,
   * so a user who does both is counted twice.
   */
  function FollowerCount(users: seq<User>, c: Id): (n: nat)
    ensures n == |FollowingAt(users, c)| + |MemberAt(users, c)|
    ensures n <= 2 * |users|
  {
    MembersCounted(users, c);
    CountFollowing(users, c) + |Members(users, c)|
  }

  /** A member who also follows the community is counted twice. */
  lemma FollowerCountOfOne(u: User, c: Id)
    ensures FollowerCount([u], c) ==
              (if c in u.followedCommunities then 1 else 0) + (if c in u.communities then 1 else 0)
  {
    assert [u][..0] == [];
  }

  /** `joined_users` as written: every entry carries the id of the user viewing the page. */
  function JoinedUsersAsWritten(members: seq<User>, viewerId: Id): (r: seq<JoinedUser>)
    ensures |r| == |members|
    ensures forall i :: 0 <= i < |members| ==> r[i] == JoinedUser(members[i].username, viewerId)
  {
    if members == [] then []
    else JoinedUsersAsWritten(members[..|members| - 1], viewerId) + [JoinedUser(members[|members| - 1].username, viewerId)]
  }

  /** `joined_users` as intended: each member with its own id. */
  function JoinedUsers(members: seq<User>): (r: seq<JoinedUser>)
    ensures |r| == |members|
    ensures forall i :: 0 <= i < |members| ==> r[i] == JoinedUser(members[i].username, members[i].id)
  {
    if members == [] then []
    else JoinedUsers(members[..|members| - 1]) + [JoinedUser(members[|members| - 1].username, members[|members| - 1].id)]
  }

  /** Any member other than the viewer is listed under the wrong id. */
  lemma JoinedUsersShowViewerId(members: seq<User>, viewerId: Id, i: nat)
    requires i < |members| && members[i].id != viewerId
    ensures JoinedUsersAsWritten(members, viewerId)[i].id != members[i].id
    ensures JoinedUsersAsWritten(members, viewerId) != JoinedUsers(members)
  {
    assert JoinedUsersAsWritten(members, viewerId)[i] != JoinedUsers(members)[i];
  }

  /** A submission document, with its per-user community lists. */
  datatype StoredSubmission = StoredSubmission(id: Id, explanation: string, communities: seq<Item<Id, seq<Id>>>)

  /** An entry of `pinned_submissions`. */
  datatype PinnedSubmission = PinnedSubmission(explanation: string, submissionUrl: string)

  /** `all_sub_comms`: the communities a submission is in, over all users. */
  function AllSubComms(s: StoredSubmission): seq<Id>
  {
    Concat(Values(s.communities))
  }

  /** The stored submission a pinned id names, if the id is well-formed and the submission exists. */
  function PinnedLookup(psid: string, submissions: map<Id, StoredSubmission>): Option<StoredSubmission>
  {
    match ObjectIdOf(psid)
    case None => None
    case Some(sid) => if sid in submissions then Some(submissions[sid]) else None
  }

  /** The pinned submissions shown as written: any that is in some community, whichever it is. */
  function ShownPinsAsWritten(psids: seq<string>, id: string, submissions: map<Id, StoredSubmission>): seq<StoredSubmission>
  {
    if psids == [] then []
    else
      var init := ShownPinsAsWritten(psids[..|psids| - 1], id, submissions);
      match PinnedLookup(psids[|psids| - 1], submissions)
      case None => init
      case Some(s) => if id != "" && AllSubComms(s) != [] then init + [s] else init
  }

  /** The pinned submissions shown as intended: those that are in this community. */
  function ShownPins(psids: seq<string>, c: Id, submissions: map<Id, StoredSubmission>): (r: seq<StoredSubmission>)
    ensures forall s <- r :: c in AllSubComms(s)
    ensures |r| <= |psids|
  {
    if psids == [] then []
    else
      var init := ShownPins(psids[..|psids| - 1], c, submissions);
      match PinnedLookup(psids[|psids| - 1], submissions)
      case None => init
      case Some(s) => if c in AllSubComms(s) then init + [s] else init
  }

  /** A pinned submission of another community is shown as written and not as intended. */
  lemma PinnedOfOtherCommunityShown(psid: string, id: string, c: Id, s: StoredSubmission, submissions: map<Id, StoredSubmission>)
    requires id != "" && PinnedLookup(psid, submissions) == Some(s)
    requires AllSubComms(s) != [] && c !in AllSubComms(s)
    ensures ShownPinsAsWritten([psid], id, submissions) == [s]
    ensures ShownPins([psid], c, submissions) == []
  {
    assert [psid][..0] == [];
  }

  function ToPinned(s: StoredSubmission, env: Env): PinnedSubmission
  {
    PinnedSubmission(s.explanation, FormatUrl("", s.id, env))
  }

  function PinnedEntries(shown: seq<StoredSubmission>, env: Env): (r: seq<PinnedSubmission>)
    ensures |r| == |shown|
    ensures forall i :: 0 <= i < |shown| ==> r[i] == ToPinned(shown[i], env)
  {
    if shown == [] then [] else PinnedEntries(shown[..|shown| - 1], env) + [ToPinned(shown[|shown| - 1], env)]
  }

  /** The page of a community. */
  datatype CommunityPage = CommunityPage(
    id: string, name: string, description: string, isPublic: bool, following: bool, joined: bool,
    pinnedSubmissions: seq<PinnedSubmission>, numFollowers: nat, joinedUsers: seq<JoinedUser>)

  /** What the community endpoint answers: an id `ObjectId` rejects raises, a hidden community is not found. */
  datatype PageOutcome = InvalidId | NotFound | Found(page: CommunityPage)

  /** The loop over the members that builds `joined_users` (as intended). */
  method CollectJoinedUsers(members: seq<User>) returns (allJoinedUsers: seq<JoinedUser>)
    ensures allJoinedUsers == JoinedUsers(members)
  {
    allJoinedUsers := [];
    var i := 0;
    while i < |members|
      invariant 0 <= i <= |members|
      invariant allJoinedUsers == JoinedUsers(members[..i])
    {
      assert members[..i + 1][..i] == members[..i];
      allJoinedUsers := allJoinedUsers + [JoinedUser(members[i].username, members[i].id)];
      i := i + 1;
    }
    assert members[..i] == members;
  }

  /** One more pinned id adds its submission when it is in the community. */
  lemma ShownPinsStep(psids: seq<string>, c: Id, submissions: map<Id, StoredSubmission>, i: nat)
    requires i < |psids|
    ensures var found := PinnedLookup(psids[i], submissions);
      ShownPins(psids[..i + 1], c, submissions)
        == ShownPins(psids[..i], c, submissions) + (if found.Some? && c in AllSubComms(found.value) then [found.value] else [])
  {
    assert psids[..i + 1][..i] == psids[..i];
    assert psids[..i + 1][i] == psids[i];
  }

  lemma PinnedEntriesSnoc(shown: seq<StoredSubmission>, s: StoredSubmission, env: Env)
    ensures PinnedEntries(shown + [s], env) == PinnedEntries(shown, env) + [ToPinned(s, env)]
  {
    assert (shown + [s])[..|shown|] == shown;
  }

  /** The loop over the pinned ids (with the intended membership check). */
  method CollectPinned(psids: seq<string>, c: Id, submissions: map<Id, StoredSubmission>, env: Env)
    returns (pinned: seq<PinnedSubmission>)
    ensures pinned == PinnedEntries(ShownPins(psids, c, submissions), env)
  {
    pinned := [];
    ghost var shown: seq<StoredSubmission> := [];
    var i := 0;
    while i < |psids|
      invariant 0 <= i <= |psids|
      invariant shown == ShownPins(psids[..i], c, submissions)
      invariant pinned == PinnedEntries(shown, env)
    {
      ShownPinsStep(psids, c, submissions, i);
      var foundSub := PinnedLookup(psids[i], submissions);
      if foundSub.Some? {
        var allSubComms := AllSubComms(foundSub.value);
        if c in allSubComms {
          PinnedEntriesSnoc(shown, foundSub.value, env);
          shown := shown + [foundSub.value];
          pinned := pinned + [ToPinned(foundSub.value, env)];
        }
      }
      i := i + 1;
    }
    assert psids[..i] == psids;
  }

  /**
   * `community`: the page of a community the user may see, with its
   * followers counted over `users` (the users collection). Joined users
   * and pinned submissions follow the intended rules.
   */
  method GetCommunityPage(user: User, id: string, table: CommunityTable, users: seq<User>,
                          submissions: map<Id, StoredSubmission>, env: Env)
    returns (outcome: PageOutcome)
    ensures outcome == InvalidId <==> ObjectIdOf(id).None?
    ensures ObjectIdOf(id).Some? ==> (outcome == NotFound <==> !CanView(ObjectIdOf(id).value, table, user.communities))
    ensures outcome.Found? ==>
              var c := ObjectIdOf(id).value;
              var p := outcome.page;
              && p.id == id && p.name == table[c].name && p.description == table[c].description
              && p.isPublic == table[c].isPublic
              && p.numFollowers == FollowerCount(users, c)
              && p.joinedUsers == JoinedUsers(Members(users, c))
              && (p.joined <==> c in user.communities)
              && (p.following <==> c in user.followedCommunities)
              && p.pinnedSubmissions == PinnedEntries(ShownPins(PinnedIds(table[c].pinned), c, submissions), env)
  {
    var oid := ObjectIdOf(id);
    if oid.None? {
      return InvalidId;
    }
    var c := oid.value;
    if c !in table || (!table[c].isPublic && c !in user.communities) {
      return NotFound;
    }
    var foundComm := table[c];
    var numFollowers := CountFollowing(users, c);
    var allJoinedUsers := CollectJoinedUsers(Members(users, c));
    var totalNumFollowers := numFollowers + |allJoinedUsers|;
    var pinnedSubIds := PinnedIds(foundComm.pinned);
    var pinned := CollectPinned(pinnedSubIds, c, submissions, env);
    var page := CommunityPage(id, foundComm.name, foundComm.description, foundComm.isPublic,
                              c in user.followedCommunities, c in user.communities,
                              pinned, totalNumFollowers, allJoinedUsers);
    return Found(page);
  }

  // ---------------------------------------------------------------- history

  /** A "LEAVE" entry of the community log. */
  datatype LeaveLog = LeaveLog(communityId: Id, time: int)

  /** An entry of `left_communities`. */
  datatype LeftCommunity = LeftCommunity(
    communityId: Id, name: string, description: string, joinKey: string, isAdmin: bool, time: int)

  function LeftEntry(c: Community, userId: Id, time: int): LeftCommunity
  {
    LeftCommunity(c.id, c.name, c.description, c.joinKey, IsAdmin(c, userId), time)
  }

  /** Whether a leave log yields an entry: the user is no longer in the community, and it still exists. */
  predicate Listed(log: LeaveLog, user: User, table: CommunityTable)
  {
    log.communityId !in user.communities && log.communityId in table
  }

  /** The `left_communities` dictionary after the given logs, keyed by community id. */
  function LeftCommunities(logs: seq<LeaveLog>, user: User, table: CommunityTable): seq<Item<Id, LeftCommunity>>
  {
    if logs == [] then []
    else
      var before := LeftCommunities(logs[..|logs| - 1], user, table);
      var log := logs[|logs| - 1];
      if Listed(log, user, table) then
        var community := table[log.communityId];
        Put(before, community.id, LeftEntry(community, user.id, log.time))
      else before
  }

  /** `get_community_history`: the loop that fills the dictionary, then its values. */
  method GetCommunityHistory(user: User, logs: seq<LeaveLog>, table: CommunityTable) returns (left: seq<LeftCommunity>)
    ensures left == Values(LeftCommunities(logs, user, table))
  {
    var leftCommunities: seq<Item<Id, LeftCommunity>> := [];
    var i := 0;
    while i < |logs|
      invariant 0 <= i <= |logs|
      invariant leftCommunities == LeftCommunities(logs[..i], user, table)
    {
      var log := logs[i];
      assert logs[..i + 1][..i] == logs[..i];
      assert logs[..i + 1][i] == log;
      if log.communityId !in user.communities {
        if log.communityId in table {
          var community := table[log.communityId];
          leftCommunities := Put(leftCommunities, community.id, LeftEntry(community, user.id, log.time));
        }
      }
      i := i + 1;
    }
    assert logs[..i] == logs;
    left := Values(leftCommunities);
  }

  lemma {:induction false} LeftCommunitiesIsDict(logs: seq<LeaveLog>, user: User, table: CommunityTable)
    ensures IsDict(LeftCommunities(logs, user, table))
  {
    if logs != [] {
      LeftCommunitiesIsDict(logs[..|logs| - 1], user, table);
    }
  }

  lemma {:induction false} LeftCommunitiesItems(logs: seq<LeaveLog>, user: User, table: CommunityTable)
    requires TableConsistent(table)
    ensures forall it <- LeftCommunities(logs, user, table) ::
              it.key !in user.communities && it.key in table && it.value.communityId == it.key
  {
    if logs != [] {
      var init := logs[..|logs| - 1];
      var log := logs[|logs| - 1];
      LeftCommunitiesItems(init, user, table);
      var before := LeftCommunities(init, user, table);
      if Listed(log, user, table) {
        var community := table[log.communityId];
        PutItems(before, community.id, LeftEntry(community, user.id, log.time));
      }
    }
  }

  lemma {:induction false} LeftCommunitiesCovers(logs: seq<LeaveLog>, user: User, table: CommunityTable)
    requires TableConsistent(table)
    ensures forall log <- logs :: Listed(log, user, table) ==> HasKey(LeftCommunities(logs, user, table), log.communityId)
  {
    if logs != [] {
      var init := logs[..|logs| - 1];
      var log := logs[|logs| - 1];
      LeftCommunitiesCovers(init, user, table);
      var before := LeftCommunities(init, user, table);
      var after := LeftCommunities(logs, user, table);
      forall l <- logs | Listed(l, user, table)
        ensures HasKey(after, l.communityId)
      {
        if Listed(log, user, table) {
          HasKeyPut(before, log.communityId, LeftEntry(table[log.communityId], user.id, log.time), l.communityId);
        }
        var k :| 0 <= k < |logs| && logs[k] == l;
        if k < |init| {
          assert init[k] == l;
        }
      }
    }
  }

  /**
   * The history is a dictionary: one entry per left community, none for a
   * community the user is in again, and one for every log that qualifies.
   */
  lemma LeftCommunitiesSpec(logs: seq<LeaveLog>, user: User, table: CommunityTable)
    requires TableConsistent(table)
    ensures IsDict(LeftCommunities(logs, user, table))
    ensures forall it <- LeftCommunities(logs, user, table) ::
              it.key !in user.communities && it.key in table && it.value.communityId == it.key
    ensures forall log <- logs :: Listed(log, user, table) ==> HasKey(LeftCommunities(logs, user, table), log.communityId)
  {
    LeftCommunitiesIsDict(logs, user, table);
    LeftCommunitiesItems(logs, user, table);
    LeftCommunitiesCovers(logs, user, table);
  }

  /** No community appears twice in the history, and none the user is in. */
  lemma HistoryDistinct(logs: seq<LeaveLog>, user: User, table: CommunityTable)
    requires TableConsistent(table)
    ensures var left := Values(LeftCommunities(logs, user, table));
            && (forall i, j :: 0 <= i < j < |left| ==> left[i].communityId != left[j].communityId)
            && (forall e <- left :: e.communityId !in user.communities)
  {
    var d := LeftCommunities(logs, user, table);
    LeftCommunitiesSpec(logs, user, table);
    var left := Values(d);
    forall i, j | 0 <= i < j < |left|
      ensures left[i].communityId != left[j].communityId
    {
      assert d[i] in d && d[j] in d;
      assert Keys(d)[i] != Keys(d)[j];
    }
    forall e <- left
      ensures e.communityId !in user.communities
    {
      var i :| 0 <= i < |left| && left[i] == e;
      assert d[i] in d;
    }
  }
}
