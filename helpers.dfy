/**
 * The helpers shared by the views: hashtag extraction, the display and
 * default submission URLs, and the shaping of a user's community lists.
 */
module Helpers {
  import opened Wrappers
  import opened Seqs
  import opened Strings
  import opened OrderedDicts
  import opened Entities

  // ---------------------------------------------------------------- hashtags

  /** A token counts as a hashtag: longer than one character, `#` first, and no `#` second. */
  predicate IsHashtag(w: string)
  {
    |w| > 1 && w[0] == '#' && w[1] != '#'
  }

  /** The hashtags among `ws`, in order. */
  function HashtagsOf(ws: seq<string>): (r: seq<string>)
    ensures |r| <= |ws|
    ensures forall h <- r :: h in ws && IsHashtag(h)
    ensures forall w <- ws :: IsHashtag(w) ==> w in r
  {
    if ws == [] then []
    else (if IsHashtag(ws[0]) then [ws[0]] else []) + HashtagsOf(ws[1..])
  }

  lemma {:induction false} HashtagsOfConcat(a: seq<string>, b: seq<string>)
    ensures HashtagsOf(a + b) == HashtagsOf(a) + HashtagsOf(b)
  {
    if a == [] {
      assert a + b == b;
    } else {
      assert (a + b)[0] == a[0];
      assert (a + b)[1..] == a[1..] + b;
      HashtagsOfConcat(a[1..], b);
    }
  }

  /** `extract_hashtags`: the whitespace-separated tokens of `text` that are hashtags. */
  function ExtractHashtags(text: string): (r: seq<string>)
    ensures forall h <- r :: IsWord(h) && IsHashtag(h) && h in Words(text)
    ensures forall w <- Words(text) :: IsHashtag(w) ==> w in r
  {
    AllWords(text);
    HashtagsOf(Words(text))
  }

  /** Tags come out in text order: two pieces of text separated by whitespace give their tags one after the other. */
  lemma ExtractHashtagsSeparated(a: string, sep: char, b: string)
    requires IsSpace(sep)
    ensures ExtractHashtags(a + [sep] + b) == ExtractHashtags(a) + ExtractHashtags(b)
  {
    WordsSeparated(a, sep, b);
    HashtagsOfConcat(Words(a), Words(b));
  }

  /** A single token yields itself exactly when it is a hashtag. */
  lemma ExtractHashtagsOfWord(w: string)
    requires IsWord(w)
    ensures ExtractHashtags(w) == if IsHashtag(w) then [w] else []
  {
    WordsOfJoin([w]);
    assert JoinSpace([w]) == w;
    assert HashtagsOf([w]) == (if IsHashtag(w) then [w] else []) + HashtagsOf([]);
  }

  /** `re.sub("</mark>", "", re.sub("<mark>", "", h))`. */
  function StripMarks(h: string): string
  {
    ReplaceAll(ReplaceAll(h, "<mark>", ""), "</mark>", "")
  }

  /** A tag without highlight markup is kept as it is. */
  lemma StripMarksPlain(h: string)
    requires !Contains(h, "<mark>") && !Contains(h, "</mark>")
    ensures StripMarks(h) == h
  {
    ReplaceAbsent(h, "<mark>", "");
    ReplaceAbsent(h, "</mark>", "");
  }

  /** `hydrate_with_hashtags`: the title's and description's hashtags with highlight markup removed, without duplicates. */
  function HydrateWithHashtags(title: string, description: string): (r: seq<string>)
    ensures Distinct(r)
    ensures forall t <- ExtractHashtags(title) + ExtractHashtags(description) :: StripMarks(t) in r
    ensures forall h <- r :: exists t <- ExtractHashtags(title) + ExtractHashtags(description) :: h == StripMarks(t)
  {
    var tags := ExtractHashtags(title) + ExtractHashtags(description);
    var stripped := seq(|tags|, i requires 0 <= i < |tags| => StripMarks(tags[i]));
    assert forall t <- tags :: StripMarks(t) in stripped by {
      forall t <- tags ensures StripMarks(t) in stripped {
        var i := IndexOfElem(tags, t);
        assert stripped[i] == StripMarks(t);
      }
    }
    assert forall h <- stripped :: exists t <- tags :: h == StripMarks(t) by {
      forall h <- stripped ensures exists t <- tags :: h == StripMarks(t) {
        var i := IndexOfElem(stripped, h);
        assert tags[i] in tags;
      }
    }
    Dedup(stripped)
  }

  // ---------------------------------------------------------------- URLs

  /** `path[:-1]` when the path ends in `/`. */
  function TrimTrailingSlash(path: string): (r: string)
    ensures r == path || r + "/" == path
    ensures |path| > 0 && path[|path| - 1] == '/' ==> r + "/" == path
  {
    if |path| > 0 && path[|path| - 1] == '/' then path[..|path| - 1] else path
  }

  /**
   * `build_display_url` on the `netloc` and `path` that `urlparse` returns:
   * the host, then the path without one trailing slash and with every `/`
   * shown as ` > `.
   */
  function BuildDisplayUrl(netloc: string, path: string): (r: string)
    ensures StartsWith(r, netloc)
    ensures '/' !in r[|netloc|..]
  {
    var shown := ReplaceChar(TrimTrailingSlash(path), '/', " > ");
    assert (netloc + shown)[|netloc|..] == shown;
    netloc + shown
  }

  lemma {:induction false} UnshowSlashes(p: string)
    requires ' ' !in p
    ensures ReplaceAll(ReplaceChar(p, '/', " > "), " > ", "/") == p
  {
    if p != [] {
      var rest := ReplaceChar(p[1..], '/', " > ");
      var s := ReplaceChar(p, '/', " > ");
      assert ' ' !in p[1..];
      UnshowSlashes(p[1..]);
      if p[0] == '/' {
        assert s == " > " + rest;
        assert StartsWith(s, " > ");
        assert s[3..] == rest;
        assert ReplaceAll(s, " > ", "/") == "/" + ReplaceAll(rest, " > ", "/");
      } else {
        assert s == [p[0]] + rest;
        assert !StartsWith(s, " > ") by { assert s[0] != ' '; }
        assert s[1..] == rest;
        assert ReplaceAll(s, " > ", "/") == [p[0]] + ReplaceAll(rest, " > ", "/");
      }
      assert [p[0]] + p[1..] == p;
    }
  }

  /** The display URL loses nothing for a path without spaces: the path, less one trailing slash, can be read back. */
  lemma DisplayUrlRoundTrip(netloc: string, path: string)
    requires ' ' !in path
    ensures ReplaceAll(BuildDisplayUrl(netloc, path)[|netloc|..], " > ", "/") == TrimTrailingSlash(path)
  {
    var t := TrimTrailingSlash(path);
    assert ' ' !in t by {
      if t != path {
        assert forall i :: 0 <= i < |t| ==> t[i] == path[i];
      }
    }
    UnshowSlashes(t);
    assert (netloc + ReplaceChar(t, '/', " > "))[|netloc|..] == ReplaceChar(t, '/', " > ");
  }

  /** The host part of the default submission URL: the port is written only for a localhost deployment. */
  function SubmissionBase(env: Env): string
  {
    env.apiUrl + (if Contains(env.apiUrl, "localhost") then ":" + env.apiPort else "")
  }

  /** The page of a text submission, which has no URL of its own. */
  function SubmissionUrl(env: Env, submissionId: Id): string
  {
    SubmissionBase(env) + "/submissions/" + submissionId
  }

  /** `format_url`: a submission's own URL, or its page on this deployment when it has none. */
  function FormatUrl(url: string, submissionId: Id, env: Env): (r: string)
    ensures url != "" ==> r == url
    ensures url == "" ==> r == SubmissionUrl(env, submissionId)
    ensures r != ""
  {
    if url == "" then SubmissionUrl(env, submissionId) else url
  }

  // ---------------------------------------------------------------- communities of a user

  /** An entry of `followed_community_info`. */
  datatype FollowedInfo = FollowedInfo(communityId: Id, name: string, description: string)

  /** An entry of `community_info`; `joinKey` is present only for admins. */
  datatype JoinedInfo = JoinedInfo(
    communityId: Id, name: string, description: string, isAdmin: bool,
    joinKey: Option<string>, isPublic: bool, pinned: string)

  /** A list of entries, or (with `return_dict`) a dict of them. */
  datatype Shaped<E> = AsList(items: seq<E>) | AsDict(entries: seq<Item<Id, E>>)

  /** The value `get_communities_helper` returns. `username` and `userId` are absent for the anonymous user. */
  datatype CommunitiesInfo = CommunitiesInfo(
    communityInfo: Shaped<JoinedInfo>, followedInfo: Shaped<FollowedInfo>,
    username: Option<string>, userId: Option<Id>)

  /** `user_id in community.admins`, false when the document has no `admins`. */
  predicate IsAdmin(c: Community, userId: Id)
  {
    c.admins.Some? && userId in c.admins.value
  }

  function JoinedEntry(c: Community, userId: Id): (e: JoinedInfo)
    ensures e.communityId == c.id
    ensures e.isAdmin == IsAdmin(c, userId)
    ensures e.joinKey.Some? <==> e.isAdmin
    ensures e.joinKey.Some? ==> e.joinKey.value == c.joinKey
  {
    JoinedInfo(c.id, c.name, c.description, IsAdmin(c, userId),
      if IsAdmin(c, userId) then Some(c.joinKey) else None, c.isPublic, c.pinned)
  }

  /** The followed list: one entry per followed id found in the table, in the user's order. */
  function FollowedEntries(ids: seq<Id>, table: CommunityTable): seq<FollowedInfo>
  {
    if ids == [] then []
    else
      var last := ids[|ids| - 1];
      FollowedEntries(ids[..|ids| - 1], table)
      + (if last in table then [FollowedInfo(table[last].id, table[last].name, table[last].description)] else [])
  }

  /** The joined list: one entry per joined id that is not the user's own id and is found in the table. */
  function JoinedEntries(ids: seq<Id>, userId: Id, table: CommunityTable): seq<JoinedInfo>
  {
    if ids == [] then []
    else
      var last := ids[|ids| - 1];
      JoinedEntries(ids[..|ids| - 1], userId, table)
      + (if last != userId && last in table then [JoinedEntry(table[last], userId)] else [])
  }

  /** `{key(e): e for e in es}`: a later entry with the same key replaces the earlier one in its place. */
  function KeyedBy<E>(es: seq<E>, key: E -> Id): seq<Item<Id, E>>
  {
    if es == [] then []
    else
      var last := es[|es| - 1];
      Put(KeyedBy(es[..|es| - 1], key), key(last), last)
  }

  lemma {:induction false} JoinedEntriesExact(ids: seq<Id>, userId: Id, table: CommunityTable)
    requires TableConsistent(table)
    ensures forall e <- JoinedEntries(ids, userId, table) ::
      e.communityId in ids && e.communityId != userId && e.communityId in table
      && e == JoinedEntry(table[e.communityId], userId)
    ensures forall id <- ids :: id != userId && id in table ==> JoinedEntry(table[id], userId) in JoinedEntries(ids, userId, table)
  {
    if ids != [] {
      var init := ids[..|ids| - 1];
      JoinedEntriesExact(init, userId, table);
      assert ids == init + [ids[|ids| - 1]];
    }
  }

  lemma {:induction false} FollowedEntriesExact(ids: seq<Id>, table: CommunityTable)
    requires TableConsistent(table)
    ensures forall e <- FollowedEntries(ids, table) ::
      e.communityId in ids && e.communityId in table
      && e == FollowedInfo(e.communityId, table[e.communityId].name, table[e.communityId].description)
    ensures forall id <- ids :: id in table ==> FollowedInfo(id, table[id].name, table[id].description) in FollowedEntries(ids, table)
  {
    if ids != [] {
      var init := ids[..|ids| - 1];
      FollowedEntriesExact(init, table);
      assert ids == init + [ids[|ids| - 1]];
    }
  }

  lemma {:induction false} KeyedByIsDict<E>(es: seq<E>, key: E -> Id)
    ensures IsDict(KeyedBy(es, key))
  {
    if es != [] {
      KeyedByIsDict(es[..|es| - 1], key);
    }
  }

  lemma {:induction false} KeyedByItems<E>(es: seq<E>, key: E -> Id)
    ensures forall it <- KeyedBy(es, key) :: key(it.value) == it.key && it.value in es
  {
    if es != [] {
      var init := es[..|es| - 1];
      var last := es[|es| - 1];
      KeyedByItems(init, key);
      var d := KeyedBy(init, key);
      var r := Put(d, key(last), last);
      assert KeyedBy(es, key) == r;
      PutItems(d, key(last), last);
      forall it <- r
        ensures key(it.value) == it.key && it.value in es
      {
        if it in d {
          var j :| 0 <= j < |init| && init[j] == it.value;
          assert es[j] == it.value;
        }
      }
    }
  }

  lemma {:induction false} KeyedByCovers<E>(es: seq<E>, key: E -> Id)
    ensures forall e <- es :: HasKey(KeyedBy(es, key), key(e))
  {
    if es != [] {
      var init := es[..|es| - 1];
      var last := es[|es| - 1];
      KeyedByCovers(init, key);
      var d := KeyedBy(init, key);
      var r := Put(d, key(last), last);
      assert KeyedBy(es, key) == r;
      forall e <- es
        ensures HasKey(r, key(e))
      {
        HasKeyPut(d, key(last), last, key(e));
        var j :| 0 <= j < |es| && es[j] == e;
        if j < |init| {
          assert init[j] == e;
        }
      }
    }
  }

  /** Every entry of the dict form sits under its own id, and every listed entry's id is a key. */
  lemma KeyedByOwnKey<E>(es: seq<E>, key: E -> Id)
    ensures IsDict(KeyedBy(es, key))
    ensures forall it <- KeyedBy(es, key) :: key(it.value) == it.key && it.value in es
    ensures forall e <- es :: HasKey(KeyedBy(es, key), key(e))
  {
    KeyedByIsDict(es, key);
    KeyedByItems(es, key);
    KeyedByCovers(es, key);
  }

  function Shape<E>(es: seq<E>, key: E -> Id, returnDict: bool): Shaped<E>
  {
    if returnDict then AsDict(KeyedBy(es, key)) else AsList(es)
  }

  /** The loop over `followed_communities`. */
  method CollectFollowed(ids: seq<Id>, table: CommunityTable) returns (followed: seq<FollowedInfo>)
    ensures followed == FollowedEntries(ids, table)
  {
    followed := [];
    var i := 0;
    while i < |ids|
      invariant 0 <= i <= |ids|
      invariant followed == FollowedEntries(ids[..i], table)
    {
      var communityId := ids[i];
      assert ids[..i + 1][..i] == ids[..i];
      if communityId in table {
        var community := table[communityId];
        followed := followed + [FollowedInfo(community.id, community.name, community.description)];
      }
      i := i + 1;
    }
    assert ids[..i] == ids;
  }

  /** The loop over `communities`. */
  method CollectJoined(ids: seq<Id>, userId: Id, table: CommunityTable) returns (joined: seq<JoinedInfo>)
    ensures joined == JoinedEntries(ids, userId, table)
  {
    joined := [];
    var i := 0;
    while i < |ids|
      invariant 0 <= i <= |ids|
      invariant joined == JoinedEntries(ids[..i], userId, table)
    {
      var communityId := ids[i];
      assert ids[..i + 1][..i] == ids[..i];
      if userId != communityId && communityId in table {
        var community := table[communityId];
        var isAdmin := community.admins.Some? && userId in community.admins.value;
        var joinKey := if isAdmin then Some(community.joinKey) else None;
        joined := joined + [JoinedInfo(community.id, community.name, community.description, isAdmin,
                                       joinKey, community.isPublic, community.pinned)];
      }
      i := i + 1;
    }
    assert ids[..i] == ids;
  }

  /** The loop that rebuilds a list as a dict keyed by community id. */
  method KeyEntries<E>(es: seq<E>, key: E -> Id) returns (d: seq<Item<Id, E>>)
    ensures d == KeyedBy(es, key)
  {
    d := [];
    var i := 0;
    while i < |es|
      invariant 0 <= i <= |es|
      invariant d == KeyedBy(es[..i], key)
    {
      assert es[..i + 1][..i] == es[..i];
      d := Put(d, key(es[i]), es[i]);
      i := i + 1;
    }
    assert es[..i] == es;
  }

  /** `get_communities_helper`: the user's joined and followed communities, as lists or keyed by community id. */
  method GetCommunitiesHelper(user: User, table: CommunityTable, returnDict: bool) returns (info: CommunitiesInfo)
    ensures info.followedInfo == Shape(FollowedEntries(user.followedCommunities, table), (e: FollowedInfo) => e.communityId, returnDict)
    ensures info.communityInfo == Shape(JoinedEntries(user.communities, user.id, table), (e: JoinedInfo) => e.communityId, returnDict)
    ensures info.username == user.username
    ensures info.userId == if user.username.Some? then Some(user.id) else None
  {
    var followed := CollectFollowed(user.followedCommunities, table);
    var joined := CollectJoined(user.communities, user.id, table);
    var joinedShaped: Shaped<JoinedInfo> := AsList(joined);
    var followedShaped: Shaped<FollowedInfo> := AsList(followed);
    if returnDict {
      var joinedDict := KeyEntries(joined, (e: JoinedInfo) => e.communityId);
      var followedDict := KeyEntries(followed, (e: FollowedInfo) => e.communityId);
      joinedShaped, followedShaped := AsDict(joinedDict), AsDict(followedDict);
    }
    info := CommunitiesInfo(joinedShaped, followedShaped, user.username,
      if user.username.Some? then Some(user.id) else None);
  }
}
