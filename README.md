# cdl-platform core, modelled in Dafny

The cdl-platform is a community-driven tool for saving and searching web
pages. Users store *submissions* (a title, a description, a source URL). Each
submission sits in one or more *communities*. The platform searches them and
draws graphs of how they connect.

This project models the following parts:

- the Flask views for submissions, search and communities;
- the helper functions they share;
- the Elasticsearch query builder;
- four parts of the React website: the submission form, the header search
  bar, the notification socket and the home page.

How each part is written:

- Python code built from expressions and calls is written as datatypes,
  functions and lemmas.
- Loops are written as methods with loop invariants. Each method is proved
  equal to a specification function, and lemmas then prove the function's
  properties.
- Objects whose fields change are written as classes. These are the React
  state of each page, a submission's community map, a submission's stats
  counters, and the current user's community lists.

Database reads, HTTP replies, the clock and library calls are not modelled
directly. They are parameters of the model: maps, reply values, or functions
such as `isUrl`, `quote`, `encode` and `toInt`.

Modules, one per source file plus shared ones:

| module | models |
|---|---|
| `Wrappers`, `Seqs`, `Strings`, `OrderedDicts` | the Python and JavaScript built-ins the code relies on: `split`, `strip`, `join`, `find`, `replace`, `set`, `index`, and insertion-ordered `dict` |
| `Entities` | the stored documents (communities, users) and `bson.ObjectId` validation |
| `Helpers` | `backend/app/helpers/helpers.py` |
| `Submissions` | `backend/app/views/submissions.py` |
| `Search` | `backend/app/views/search.py` |
| `ManageData` | `backend/elastic/manage_data.py` |
| `Communities` | `backend/app/views/communities.py` |
| `SubmissionForm` | `frontend/website/components/forms/submissionForm.js` |
| `SearchBarHeader` | `frontend/website/components/forms/searchBarHeader.js` |
| `WebSocketManager` | `frontend/website/components/webSocketManager.js` |
| `HomePage` | `frontend/website/pages/index.js` |

Two behaviours of the model worth knowing:

- WebSocketManager: the socket sends only a `register` message carrying the
  user id, to the fixed endpoint `ws://localhost:8090/`. Once a socket has
  opened or closed it stays stored, and the effect opens no other. Before
  that, while the first socket is still connecting, a change of login state
  or user id re-runs the effect and opens another socket. No token and no
  logout message are involved.
- HomePage.Home.FetchNextPage: the feed ends on a short page. The code as
  written ends it only on an empty page; see Findings.

## Model

| member | source | states |
|---|---|---|
| Seqs.Without | backend/app/views/communities.py:344 | the unfollow list comprehension removes every occurrence of one id and keeps every other element |
| Seqs.AppendThenWithout | backend/app/views/communities.py:329-346 | following a community that was not followed, then unfollowing it, gives back the original list |
| Seqs.WithoutDistinct | backend/app/views/submissions.py:284 | removing a community from a duplicate-free list leaves it duplicate-free |
| Seqs.Dedup | backend/app/helpers/helpers.py:283 | `list(set(...))` has no duplicates and exactly the elements of its input |
| Seqs.InConcat | backend/elastic/manage_data.py:430-436 | an element is in the flattened list iff it is in one of the inner lists |
| Strings.WordsOfJoin | backend/elastic/manage_data.py:57-66 | `" ".join` of whitespace-free words, split again, gives the words back |
| Strings.JoinSpaceNotBlank | backend/elastic/manage_data.py:66-69 | the rejoined query is never a lone space, so that test in process_query only ever matches "" |
| Strings.SplitJoin | backend/app/views/communities.py:265 | splitting comma-joined, comma-free pieces on "," gives the pieces back |
| Strings.JoinSplit | backend/app/views/communities.py:265 | joining the pieces of a split on the same character gives the string back |
| Strings.StripResult | backend/app/views/communities.py:265 | `strip()` leaves no whitespace at either end, and gives "" exactly for an all-whitespace string |
| Strings.IndexOf | backend/app/views/search.py:1159-1160 | `find`/`index` returns the first position where the substring occurs, and None exactly when it does not occur |
| OrderedDicts.Put | backend/app/helpers/helpers.py:104-113 | `d[k] = v` keeps an existing key in its place, appends a new key, and leaves every other position unchanged |
| OrderedDicts.GetPutOther | backend/app/views/submissions.py:825-836 | overwriting one key leaves every other key's value as it was |
| Entities.ObjectIdOf | backend/app/views/communities.py:232 | an id string is accepted exactly when it is 24 hex digits; the id is then 24 lower-case hex digits |
| Entities.ObjectIdCanonical | backend/app/views/submissions.py:722 | the id is the canonical spelling: read back as an ObjectId it names itself |
| Entities.ObjectIdIgnoresCase | backend/app/views/submissions.py:722 | spellings that differ only in letter case are all accepted and name the same id |
| Helpers.HashtagsOf | backend/app/helpers/helpers.py:288-291 | the hashtags kept are exactly the tokens that are hashtags |
| Helpers.HashtagsOfConcat | backend/app/helpers/helpers.py:288-291 | the hashtags of two token lists are the hashtags of each, one after the other |
| Helpers.ExtractHashtags | backend/app/helpers/helpers.py:288-291 | every extracted tag is a whitespace-free token of the text and a hashtag, and every hashtag token is extracted |
| Helpers.ExtractHashtagsSeparated | backend/app/helpers/helpers.py:288-291 | tags come out in text order across a whitespace separator |
| Helpers.ExtractHashtagsOfWord | backend/app/helpers/helpers.py:288-291 | one token yields itself iff it is a hashtag (longer than one character, `#` first, no `#` second) |
| Helpers.StripMarksPlain | backend/app/helpers/helpers.py:280-281 | removing highlight markup leaves a tag without markup unchanged |
| Helpers.HydrateWithHashtags | backend/app/helpers/helpers.py:258-285 | the result has no duplicates; it holds the de-marked form of every title and description tag, and nothing else |
| Helpers.TrimTrailingSlash | backend/app/helpers/helpers.py:228-237 | the path loses exactly one trailing slash when it has one, and is otherwise unchanged |
| Helpers.BuildDisplayUrl | backend/app/helpers/helpers.py:228-237 | the display URL begins with the host and has no `/` after it |
| Helpers.UnshowSlashes | backend/app/helpers/helpers.py:228-237 | turning the displayed " > " back into "/" recovers a path without spaces |
| Helpers.DisplayUrlRoundTrip | backend/app/helpers/helpers.py:228-237 | the display URL's path part reads back as the path less one trailing slash, when the path has no spaces |
| Helpers.FormatUrl | backend/app/helpers/helpers.py:240-254 | a submission's own URL is kept; an empty one becomes the submission's page on this deployment; the result is never empty |
| Helpers.JoinedEntry | backend/app/helpers/helpers.py:72-102 | a joined entry carries its community's id and the admin flag; the join key is present iff the user is an admin, and is the community's key |
| Helpers.JoinedEntriesExact | backend/app/helpers/helpers.py:72-102 | the joined list holds exactly the entries of the joined ids found in the table, except the user's own id |
| Helpers.FollowedEntriesExact | backend/app/helpers/helpers.py:55-69 | the followed list holds exactly the entries of the followed ids found in the table |
| Helpers.KeyedByOwnKey | backend/app/helpers/helpers.py:104-113 | the dict form has distinct keys, every entry sits under its own community id, and every listed entry's id is a key |
| Helpers.CollectFollowed | backend/app/helpers/helpers.py:55-69 | the followed loop builds exactly the followed list |
| Helpers.CollectJoined | backend/app/helpers/helpers.py:72-102 | the joined loop builds exactly the joined list |
| Helpers.KeyEntries | backend/app/helpers/helpers.py:104-113 | the loop builds exactly the dict keyed by community id |
| Helpers.GetCommunitiesHelper | backend/app/helpers/helpers.py:24-129 | both lists are shaped as asked; username and user id are given only for a user with a username |
| Submissions.ValidateSubmission | backend/app/views/submissions.py:968-999 | valid iff neither text field is a URL, both are within their length limits, and the source URL is absent, empty, or a URL that is not a browser page; the message is "Validation successful" iff valid |
| Submissions.LengthLimitsInclusive | backend/app/views/submissions.py:968-999 | a title of exactly 1000 characters and a description of exactly 50000 pass the length checks |
| Submissions.WebBlockBypassedByCase | backend/app/views/submissions.py:722 | an upper-case spelling of the web community's id names that community, yet passes the block as written |
| Submissions.WebBlockOnObjectIdComplete | backend/app/views/submissions.py:722 | the corrected block refuses every spelling of the web community's id to every user except the privileged one |
| Submissions.CreateSubmissionHelper | backend/app/views/submissions.py:712-753 | the checks answer in source order, the first failure deciding: the web community is FORBIDDEN; an empty community is BAD_REQUEST "Error: A community must be selected."; an id that is not an ObjectId raises; an unknown community is BAD_REQUEST "Error: Cannot find community."; a non-member is FORBIDDEN; a missing title is BAD_REQUEST "Missing submission title."; a validator failure is BAD_REQUEST with its message; an unacknowledged insert is a 500; OK with the inserted id iff every check passes and the insert is acknowledged |
| Submissions.CreateNeverReportsEmptyTitle | backend/app/views/submissions.py:725-736 | the helper itself refuses a missing title, so the validator's empty-title message never reaches the caller |
| Submissions.NewSubmissionCommunities | backend/app/views/submissions.py:912-914 | a new submission's map is well formed and maps only its author to the chosen community |
| Submissions.RemoveKeepsSubmissionPlaced | backend/app/views/submissions.py:275-300 | a successful removal keeps the map well formed and holding at least one community; the user's list becomes exactly the old list without that community, and is dropped when it empties; every other user's list is kept as it was |
| Submissions.DuplicateDefeatsLastCommunityGuard | backend/app/views/submissions.py:275-300 | a list holding the same community twice lets the last-community guard remove the submission's only community |
| Submissions.AddCommunity | backend/app/views/submissions.py:334-356 | after adding, the user's list exists and holds the community |
| Submissions.AddCommunityIdempotent | backend/app/views/submissions.py:334-356 | adding the same community twice is the same as adding it once |
| Submissions.AddCommunityEffect | backend/app/views/submissions.py:334-356 | adding keeps the map well formed, extends only the user's list, and leaves every other user's list as it was |
| Submissions.SubmissionCommunities.constructor | backend/app/views/submissions.py:912-914 | a new submission's community map is the author's single community, well formed |
| Submissions.SubmissionCommunities.RemoveFrom | backend/app/views/submissions.py:275-300 | the DELETE outcome follows the removal function; a well-formed state stays well formed and non-empty |
| Submissions.SubmissionCommunities.WithCommunity | backend/app/views/submissions.py:337-356 | the edited map is the map with the community added to the user's list, and stays well formed |
| Submissions.SubmissionCommunities.Patch | backend/app/views/submissions.py:302-433 | the checks answer in source order: nothing to edit is BAD_REQUEST; a malformed or unknown submission id is NOT_FOUND; another user's submission is FORBIDDEN; a community the user is not in (or the web community, with the corrected block) is FORBIDDEN; invalid text gives the validator's message with BAD_REQUEST; an unacknowledged update is a 500; OK iff every check passes and the update is acknowledged, and only then is the community added |
| Submissions.PatchWebBlockNeverFires | backend/app/views/submissions.py:347 | the PATCH web block compares an ObjectId with a str, so it never fires |
| Submissions.PatchWebBlockCorrected | backend/app/views/submissions.py:347 | the corrected block refuses exactly the web community, to everyone but the privileged user |
| Submissions.RelevanceKinds | backend/app/views/submissions.py:1020-1026 | with Python's `==`, a JSON string or null is neither 1 nor 0, a boolean true is 1, and a value is a like or a dislike iff it is the number 0 or 1 |
| Submissions.CountAfterJudgment | backend/app/views/submissions.py:1055-1089 | recording a judgment moves the user from the count of the values Python finds equal to the old one to the count of those equal to the new one |
| Submissions.JudgedSubmission.constructor | backend/app/views/submissions.py:1035-1052 | a new stats document counts nothing and is consistent |
| Submissions.JudgedSubmission.UpdateStats | backend/app/views/submissions.py:1007-1032 | one counter moves by delta iff the stats document exists; `nModified` reports whether it did |
| Submissions.JudgedSubmission.UpdateRelevanceStats | backend/app/views/submissions.py:1007-1032 | for a JSON relevance that Python finds equal to 1, one like is added and one dislike taken; equal to 0, the reverse; any other value (a string "1", null) changes nothing; ok iff the stats document exists and the value is 0 or 1 |
| Submissions.JudgedSubmission.UpdateStatsForNewRelevance | backend/app/views/submissions.py:1035-1052 | a first judgment equal to 1 or 0 adds one to its side only; any other JSON value changes nothing and gives None, the KeyError on the empty result |
| Submissions.JudgedSubmission.LogRelJudgment | backend/app/views/submissions.py:1055-1089 | the user's JSON judgment is recorded; a first judgment, one Python finds different from the stored one, and one it finds equal move the counters as the source does; the counters keep counting the judgments when the value is 0 or 1 |
| Submissions.LastJudgment | backend/app/views/submissions.py:1066-1070 | the loop raises iff some key is not an ObjectId; it finds no pair iff there are none; otherwise it picks the last pair, with its key converted to an id |
| Submissions.NewSubmissionSharedOnce | backend/app/views/submissions.py:783-784 | a new submission has been shared exactly once |
| Submissions.SharesAfterAdd | backend/app/views/submissions.py:783-784 | a PATCH add raises the share count by one iff the community is new to the user's list, and leaves it unchanged otherwise |
| Submissions.ClassifyAction | backend/app/views/submissions.py:810-821 | "remove" iff the viewer added the submission to that community; "save" iff nobody did |
| Submissions.DisplayCommunities | backend/app/views/submissions.py:810-821 | the displayed communities keep the viewer's keys, each with its action and without the private fields |
| Submissions.NotSavedNamesKey | backend/app/views/submissions.py:825-836 | a community is named iff one of the viewer's entries has it with an action other than "save" |
| Submissions.PutAllKeys | backend/app/views/submissions.py:825-836 | merging public communities in keeps the union of the keys |
| Submissions.CommunitiesPartOf | backend/app/views/submissions.py:825-836 | the loop builds the viewer's non-"save" names, with the public communities merged in |
| Submissions.PartOfExactly | backend/app/views/submissions.py:825-836 | a community is listed iff someone added the submission there and the viewer is in it, or it is public |
| Submissions.BatchItemResult | backend/app/views/submissions.py:114-170 | a missing title or description gives the generic 500; OK iff an id is returned |
| Submissions.CreateBatch | backend/app/views/submissions.py:114-170 | one result per item, in order; errors are listed in increasing order; OK iff every item succeeded, otherwise 500 |
| Search.CreateRedirectUrl | backend/app/views/search.py:894-921 | the redirect URL is the endpoint and search prefix followed by the target: the URL with its fragment for a PDF or a proxied page with a fragment, the quoted URL for a YouTube page, the URL as it is otherwise |
| Search.RedirectTargetOfClicked | backend/app/views/search.py:894-921 | the target is the clicked URL, with its fragment, whenever the fragment is kept, and the URL without it otherwise |
| Search.RedirectUrlShape | backend/app/views/search.py:894-921 | every redirect URL names the endpoint and the search before the target |
| Search.ClickedSubmissionId | backend/app/views/search.py:1159-1161 | an id is taken iff the URL contains "/submissions/", and it is the text after the first occurrence of that marker |
| Search.ClickOnSubmissionPage | backend/app/views/search.py:1159-1161 | a click on a submission's own page is traced back to that submission |
| Search.MarkerNotBefore | backend/app/views/search.py:1159-1161 | the submission marker does not occur inside the deployment's host part |
| Search.LabelsOf | backend/app/views/search.py:486-496 | the labels are the hits' titles, position by position |
| Search.FirstPerLabelStep | backend/app/views/search.py:486-496 | a hit is kept iff its title has not been seen |
| Search.FirstPerLabelPrefix | backend/app/views/search.py:486-496 | the hits kept from a prefix are a prefix of those kept from the whole list, so stopping early keeps the first ones |
| Search.FirstPerLabelDistinct | backend/app/views/search.py:486-496 | no two suggestions share a label |
| Search.FirstPerLabelCovers | backend/app/views/search.py:486-496 | every hit's label is offered |
| Search.FirstPerLabelFirst | backend/app/views/search.py:486-496 | each suggestion is the first hit with its label |
| Search.FirstPerLabelOrdered | backend/app/views/search.py:486-496 | suggestions keep hit order |
| Search.Take | backend/app/views/search.py:209 | a prefix of at most n elements, all of them when fewer |
| Search.Suggestions | backend/app/views/search.py:486-496 | one suggestion per chosen hit, in order |
| Search.Autocomplete | backend/app/views/search.py:475-500 | the loop returns the suggestions of the chosen hits |
| Search.AutocompleteSpec | backend/app/views/search.py:475-500 | the suggestions are the first hit of each label, in order, at most topn of them (at least one when there are hits), and have distinct labels |
| Search.ClampPage | backend/app/views/search.py:276-280 | a missing or "undefined" page is 0; a non-integer fails; a negative page becomes 0; any other page is itself |
| Search.AskedQuestions | backend/app/views/search.py:200-209 | the earlier generated questions, each once, never the new one |
| Search.UsersAlsoAsk | backend/app/views/search.py:200-209 | at most five, distinct, earlier questions, never the predicted one |
| Search.KeptLines | backend/app/views/search.py:1058-1059 | the chunk filter keeps exactly the lines of more than 10 and fewer than 500 characters |
| Search.ChunkOwners | backend/app/views/search.py:1055-1062 | there is one owner per chunk |
| Search.ChunkOwnersSpec | backend/app/views/search.py:1055-1062 | each chunk's owner is a document that contains the chunk; owners never decrease |
| Search.ChunkDocuments | backend/app/views/search.py:1055-1062 | the chunking loop yields the chunks and their owners |
| Search.RemapIndices | backend/app/views/search.py:1077-1079 | in place: ok iff every index is in range for Python indexing; each index then becomes its chunk's document |
| Search.RemapRanks | backend/app/views/search.py:1076-1079 | the same for every query's ranking, in place on separate arrays |
| Search.Rerank | backend/app/views/search.py:1037-1086 | rankings are remapped iff the service is configured and answered 200 with in-range indices |
| Search.RemappedIndexNamesDocument | backend/app/views/search.py:1055-1079 | a remapped index names a document, and the chunk belongs to that document |
| Search.PyPrefixMatches | backend/app/views/search.py:1127 | comparing `line[:len(t)]` with t tests that the line begins with t |
| Search.LinesOfType | backend/app/views/search.py:1124-1129 | the extracted texts come exactly from the lines that begin with the line type |
| Search.ExtractLines | backend/app/views/search.py:1124-1129 | the extraction loop yields the typed lines of the output |
| Search.LinesOfTypeJoined | backend/app/views/search.py:1124-1129 | texts written as typed lines come back from the extraction |
| Search.Prefixed | backend/app/views/search.py:1124-1129 | each text is written as a line of the type |
| Search.PrefixedOfType | backend/app/views/search.py:1124-1129 | extracting typed lines inverts prefixing |
| Search.FailedReplyRaises | backend/app/views/search.py:1120-1138 | as written, a non-200 reply makes generate raise |
| Search.Generate | backend/app/views/search.py:1088-1138 | the corrected generate always returns; it gives the typed lines of a good reply, and [] after any failure |
| Search.GenerateAgrees | backend/app/views/search.py:1088-1138 | the corrected generate returns what the original does wherever the original returns, and raises never |
| Search.VizLabel | backend/app/views/search.py:1272 | titles over 50 characters are cut to 50 and marked "...", shorter ones kept |
| Search.QuestionNodes | backend/app/views/search.py:1243-1267 | one node per question, in order |
| Search.QuestionEdges | backend/app/views/search.py:1243-1256 | every question edge names a question that exists |
| Search.ResultNodes | backend/app/views/search.py:1269-1279 | one node per result, in order |
| Search.MentionEdgesOf | backend/app/views/search.py:1281-1286 | one edge from each mentioning submission to the result |
| Search.PrepSubsVizConns | backend/app/views/search.py:1223-1325 | the graph is the question nodes then the result nodes, and the question edges then the mention edges |
| Search.AddQuestions | backend/app/views/search.py:1243-1267 | the question loop yields the question nodes and edges |
| Search.AddResults | backend/app/views/search.py:1269-1286 | the result loop appends the result nodes and mention edges |
| Search.AddMentions | backend/app/views/search.py:1281-1286 | the mention loop appends the result's mention edges |
| Search.QuestionEdgesSpec | backend/app/views/search.py:1243-1256 | a question has an edge to a submission iff that submission answers it; its source always has an edge to it |
| Search.QuestionColour | backend/app/views/search.py:1244-1263 | a question node shows the answered colour iff the question was answered |
| Search.ExportPaging | backend/app/views/search.py:832-840 | pages 0, 1, … are requested while hits remain beyond ten per page, and their results are concatenated |
| Search.PagesOfTenSpec | backend/app/views/search.py:832-840 | cutting results into pages of ten gives the page count the loop reads, and loses nothing |
| Search.ReadPagesIsConcat | backend/app/views/search.py:832-840 | reading n pages yields their concatenation |
| Search.ExportReadsEverything | backend/app/views/search.py:832-840 | a cache holding the results in pages of ten is read back completely, in order |
| Search.ExportSourceUrl | backend/app/views/search.py:851-855 | the source URL is empty iff the original URL is the submission's own page (or empty), and is the original URL otherwise |
| Search.SearchSubmissions | backend/app/views/search.py:736-782 | a query searches the requested communities, scoped to the user iff own submissions; an empty query lists own, or one community's, submissions; anything else is unsupported |
| Search.ValidateCommunityAccess | backend/app/views/search.py:923-947 | access is granted iff every requested community is joined, public, or missing |
| ManageData.Unstopped | backend/elastic/manage_data.py:63-65 | exactly the words whose lower-case form is not a stopword are kept |
| ManageData.ProcessQuery | backend/elastic/manage_data.py:43-71 | a URL query is passed through; otherwise the query keeps its non-stopwords, joined, or is the original when none remain, and the hashtags are extracted |
| ManageData.ProcessedQueryWords | backend/elastic/manage_data.py:57-70 | the cleaned query splits back into exactly the kept words, unless none remained |
| ManageData.PageWindow | backend/elastic/manage_data.py:85-87 | the window starts at page × page size and holds one page |
| ManageData.GetCommunityQuery | backend/elastic/manage_data.py:73-98 | a community query is one page, newest first, of that community |
| ManageData.GetSubmissionsQuery | backend/elastic/manage_data.py:100-138 | the user clause comes first; a community clause is added iff a non-empty community id is given |
| ManageData.GetAutoCompleteQuery | backend/elastic/manage_data.py:140-183 | the cleaned query is run over explanations, filtered to the communities |
| ManageData.SearchFilterClauses | backend/elastic/manage_data.py:237-254 | the filter holds the communities clause, a hashtag clause iff there are hashtags, and a user clause iff a user is given |
| ManageData.Search | backend/elastic/manage_data.py:185-282 | the query text is a URL as given, or else the non-stopwords joined by spaces (the original when none remain); the query gets the index's fields and page window; there is a filter iff the index is not the webpages index, and it is the communities, hashtag and user clauses |
| ManageData.FlattenCommunities | backend/elastic/manage_data.py:430-436 | the loop yields every user's community ids, user after user |
| ManageData.ValuesSnoc | backend/elastic/manage_data.py:430-436 | the values of a dict with one more item end with its value |
| ManageData.FlattenedCommunities | backend/elastic/manage_data.py:430-436 | the flat list's length is the sum of the list lengths; it holds exactly the ids of some user's list |
| ManageData.IndexedHashtags | backend/elastic/manage_data.py:318-320 | the stored hashtags are distinct and are exactly those of the explanation and the highlighted text |
| ManageData.NonJsonAnswerRaises | backend/elastic/manage_data.py:446-455 | as written, an answer that is not JSON makes postprocess raise |
| ManageData.Postprocess | backend/elastic/manage_data.py:439-457 | an unreadable answer gives no hits; any hits come from the answer |
| ManageData.PostprocessAgrees | backend/elastic/manage_data.py:439-457 | the corrected version differs from the original only on non-JSON answers, where it gives no hits instead of raising |
| Communities.UserRecord.constructor | backend/app/views/communities.py:290-356 | the user's community lists are those stored |
| Communities.UserRecord.FollowCommunity | backend/app/views/communities.py:290-356 | OK iff the command is valid for the community's state; follow appends; unfollow removes every occurrence; failure is BAD_REQUEST and changes nothing |
| Communities.UserRecord.JoinCommunity | backend/app/views/communities.py:364-398 | a missing key is a 500; an unknown key is "Cannot find community."; OK iff found and not yet joined, which appends it |
| Communities.UserRecord.LeaveCommunity | backend/app/views/communities.py:403-443 | OK iff a member leaves; FORBIDDEN iff the id is not one of the user's communities; OK removes it |
| Communities.AddThenRemove | backend/app/views/communities.py:329-346 | following then unfollowing restores the followed list |
| Communities.DescriptionOnlyEditRaises | backend/app/views/communities.py:150 | as written, an edit without a name raises a TypeError |
| Communities.ValidateCommunity | backend/app/views/communities.py:150-154 | the corrected validation never raises, passes iff the given fields are within their limits, and agrees with the original whenever a name is given |
| Communities.PatchFields | backend/app/views/communities.py:194-202 | the update holds name and description iff they are non-empty, public and pinned iff given, each with its value |
| Communities.PutWhen | backend/app/views/communities.py:194-202 | a conditional insert adds the key iff the condition holds, and changes nothing else |
| Communities.CreateCommunity | backend/app/views/communities.py:122-211 | a rejected validation is BAD_REQUEST; creation iff POST, valid and named, and a POST without a name is BAD_REQUEST "Must provide a community name."; an edit runs its checks in source order: neither name nor description is BAD_REQUEST, a malformed id BAD_REQUEST, a missing id or unknown community INTERNAL_SERVER_ERROR "Cannot find community.", a community without admins a server error, a non-admin UNAUTHORIZED; an edit happens iff every check passes, and then names the community the id gives |
| Communities.StrippedPieces | backend/app/views/communities.py:265 | every kept piece is non-empty and stripped |
| Communities.StrippedPiecesInOrder | backend/app/views/communities.py:265 | the pieces kept are those of the comprehension read from the front, in the same order |
| Communities.KeptPiecesFree | backend/app/views/communities.py:265 | stripping adds no character, so no kept piece holds a comma |
| Communities.PinnedIds | backend/app/views/communities.py:265 | the pinned ids are exactly the stripped, non-empty pieces of the comma split, in order; none holds a comma |
| Communities.StrippedPiecesOfStripped | backend/app/views/communities.py:265 | pieces that are already clean are kept as they are |
| Communities.PinnedIdsRoundTrip | backend/app/views/communities.py:265 | comma-joined clean ids are read back exactly |
| Communities.PinnedIdsClean | backend/app/views/communities.py:265 | every pinned id read back is clean |
| Communities.Members | backend/app/views/communities.py:250 | exactly the users who joined the community |
| Communities.CountFollowing | backend/app/views/communities.py:249 | exactly the number of users who follow the community, so never more than the number of users |
| Communities.MembersCounted | backend/app/views/communities.py:250-254 | there is one member entry per user who joined the community |
| Communities.FollowerCount | backend/app/views/communities.py:249-255 | the followers plus the members, counted by user, so at most twice the number of users |
| Communities.FollowerCountOfOne | backend/app/views/communities.py:249-255 | one user adds one for following the community and one more for being a member, so a user who does both counts twice |
| Communities.JoinedUsersAsWritten | backend/app/views/communities.py:253-254 | as written, each member's entry carries the viewer's id |
| Communities.JoinedUsers | backend/app/views/communities.py:253-254 | each member's entry carries that member's own id |
| Communities.JoinedUsersShowViewerId | backend/app/views/communities.py:253-254 | a member other than the viewer is shown with the wrong id |
| Communities.ShownPins | backend/app/views/communities.py:265-281 | every pinned submission shown is in the community; at most one per pinned id |
| Communities.PinnedOfOtherCommunityShown | backend/app/views/communities.py:271-273 | as written, a pin in another community is shown; the corrected check hides it |
| Communities.PinnedEntries | backend/app/views/communities.py:274-277 | one entry per shown submission, in order |
| Communities.CollectJoinedUsers | backend/app/views/communities.py:252-254 | the loop yields the corrected member list |
| Communities.CollectPinned | backend/app/views/communities.py:265-281 | the loop yields the entries of the pins that are in the community |
| Communities.GetCommunityPage | backend/app/views/communities.py:217-283 | fails on an id that is not an ObjectId; not found iff the community is not visible; the page otherwise |
| Communities.GetCommunityHistory | backend/app/views/communities.py:52-97 | the history is the values of the left-communities dict |
| Communities.LeftCommunitiesSpec | backend/app/views/communities.py:60-92 | each community left appears once, under its own id, and only if it is no longer joined and still exists |
| Communities.HistoryDistinct | backend/app/views/communities.py:60-92 | no community appears twice in the history |
| SubmissionForm.RunEnd | frontend/website/components/forms/submissionForm.js:200 | the run of `[^\]]` ends at the first `]` or at the end |
| SubmissionForm.FirstMatch | frontend/website/components/forms/submissionForm.js:200-206 | the match found is the leftmost one at or after the start |
| SubmissionForm.Exec | frontend/website/components/forms/submissionForm.js:204 | a match moves lastIndex strictly forward |
| SubmissionForm.Mentions | frontend/website/components/forms/submissionForm.js:200-206 | every mention is non-empty and holds no `]` |
| SubmissionForm.ScanMentions | frontend/website/components/forms/submissionForm.js:200-206 | the exec loop collects the mentions |
| SubmissionForm.RunEndOver | frontend/website/components/forms/submissionForm.js:200 | a run without `]` ends at its `]` |
| SubmissionForm.FirstMatchAfter | frontend/website/components/forms/submissionForm.js:200-206 | a match after bracket-free text is the first one |
| SubmissionForm.MentionInContext | frontend/website/components/forms/submissionForm.js:119-142 | `[[term]]` after bracket-free text is the first mention, and the replacement changes exactly it |
| SubmissionForm.MentionsOfMarker | frontend/website/components/forms/submissionForm.js:200-206 | `[[term]]` yields its term |
| SubmissionForm.NoBracketNoMention | frontend/website/components/forms/submissionForm.js:119-142 | text without `[` has no mention and is not changed |
| SubmissionForm.Form.constructor | frontend/website/components/forms/submissionForm.js:71-86 | the form starts clean, with no suggestions |
| SubmissionForm.Form.GetSuggestions | frontend/website/components/forms/submissionForm.js:144-189 | a repeated query does nothing; a new one is fetched, giving buttons on 200 and clearing otherwise |
| SubmissionForm.Form.SetDescriptionListener | frontend/website/components/forms/submissionForm.js:191-238 | the description is stored, marked unsaved; the lone mention of the previous description decides the suggestions |
| SubmissionForm.Form.HandleAutoSuggestClick | frontend/website/components/forms/submissionForm.js:119-142 | the first mention becomes a markdown link to the submission, and the suggestions are cleared |
| SubmissionForm.Form.HandleAnonymous | frontend/website/components/forms/submissionForm.js:95-117 | the anonymous flag flips and the form is marked unsaved |
| SubmissionForm.SubmitTarget | frontend/website/components/forms/submissionForm.js:244-324 | PATCH iff editing; connection fields iff replying; each mode posts to its endpoint |
| SearchBarHeader.WithOwnMarker | frontend/website/components/forms/searchBarHeader.js:65-67 | a route ends with the own-submissions marker iff the toggle is on |
| SearchBarHeader.JoinParams | frontend/website/components/forms/searchBarHeader.js:59-67 | three parameters and the optional own-submissions one, joined with `&`, are the route's query string |
| SearchBarHeader.SearchRoute | frontend/website/components/forms/searchBarHeader.js:55-75 | no navigation iff the query is empty over all communities; otherwise exactly `/search?query=<encoded>&community=<id>&page=0`, followed by the own-submissions marker iff the toggle is on |
| SearchBarHeader.VisualizeRoute | frontend/website/components/forms/searchBarHeader.js:110-126 | no navigation iff the query is empty; otherwise exactly `/visualizemap?query=<encoded>&community=<id>&visualize=True`, followed by the own-submissions marker iff the toggle is on |
| SearchBarHeader.SearchRouteJoined | frontend/website/components/forms/searchBarHeader.js:59-67 | the search route is its path followed by its parameter list joined with `&` |
| SearchBarHeader.VisualizeRouteJoined | frontend/website/components/forms/searchBarHeader.js:116-123 | the map route is its path followed by its parameter list joined with `&` |
| SearchBarHeader.SearchRouteParams | frontend/website/components/forms/searchBarHeader.js:59-67 | splitting the search route's query string on `&` gives back its parameters, in order, when neither the encoded query nor the community holds an `&` |
| SearchBarHeader.VisualizeRouteParams | frontend/website/components/forms/searchBarHeader.js:116-123 | the same for the map route |
| SearchBarHeader.StartsWithAppend | frontend/website/components/forms/searchBarHeader.js:59-67 | appending keeps the route's prefix, and what follows the prefix is what was appended |
| SearchBarHeader.SuggestionFetch | frontend/website/components/forms/searchBarHeader.js:79-103 | clear iff the input is empty; fetch iff it ends with a space |
| SearchBarHeader.UrlsFor | frontend/website/components/forms/searchBarHeader.js:45-51 | exactly the URLs of the suggestions with the chosen label |
| SearchBarHeader.Header.constructor | frontend/website/components/forms/searchBarHeader.js:29 | the header starts with no suggestions |
| SearchBarHeader.Header.SuggestionEffect | frontend/website/components/forms/searchBarHeader.js:79-103 | the effect clears, keeps, or fetches as decided, storing the reply's suggestions on 200 |
| SearchBarHeader.Header.HandleSuggestionClick | frontend/website/components/forms/searchBarHeader.js:45-51 | the loop opens exactly the URLs of the matching suggestions |
| SearchBarHeader.DisplayName | frontend/website/components/forms/searchBarHeader.js:249-253 | names over 50 characters are cut to 40 plus ".."; nothing shown is longer than 50 |
| SearchBarHeader.SelectorItems | frontend/website/components/forms/searchBarHeader.js:244-256 | "All" is always the first item; when both lists are loaded, one item per followed community and then one per joined community follows, each with the community's id and its shortened name; otherwise "All" is the only item |
| SearchBarHeader.SelectorOffersOnlyListed | frontend/website/components/forms/searchBarHeader.js:244-256 | every item after "All" is the item of a community in one of the two lists |
| SearchBarHeader.SelectorOffersEveryListed | frontend/website/components/forms/searchBarHeader.js:244-256 | every community of the two lists is offered after "All" |
| WebSocketManager.Manager.constructor | frontend/website/components/webSocketManager.js:7-12 | the store starts without a socket |
| WebSocketManager.Manager.Effect | frontend/website/components/webSocketManager.js:10-14 | a socket is created iff logged in, with a user id, and none is stored |
| WebSocketManager.Manager.OnOpen | frontend/website/components/webSocketManager.js:16-24 | the socket is stored, then one registration with its user id is sent |
| WebSocketManager.Manager.OnClose | frontend/website/components/webSocketManager.js:30-36 | the closed socket stays stored, so the guard stays shut |
| HomePage.ShortPageMissed | frontend/website/pages/index.js:134-137 | as written, a page of 1 to 9 results does not end the feed |
| HomePage.EndTestsAgree | frontend/website/pages/index.js:134-137 | the two end tests agree on empty and on full pages |
| HomePage.OnboardingTable | frontend/website/pages/index.js:58-81 | without communities the step is setup; step 0 needs communities and a recent submission; with the extension only steps 2 and 3 |
| HomePage.Home.constructor | frontend/website/pages/index.js:30-36 | the page starts after the current one; the feed ends iff the first page is short |
| HomePage.Home.CheckOnboarding | frontend/website/pages/index.js:58-81 | the step becomes the table's value, or stays |
| HomePage.Home.FetchNextPage | frontend/website/pages/index.js:121-144 | a page is appended and the page number advances; a short page ends the feed; an error changes nothing |
| HomePage.Home.HandleScroll | frontend/website/pages/index.js:161-177 | the button is shown past 250 pixels, hidden above 250, unchanged at exactly 250 |

## Left out

- I/O is taken as given: database reads and writes, HTTP requests and replies, cookies, routing, and the notification service. Database reads are parameters; writes are assumed acknowledged unless a flag says otherwise.
- Time stamps are parameters, and floating-point scores are not modelled.
- The neural service is reduced to its reply (a status and a text). The prompts it builds are not modelled.
- `random.shuffle` in "users also ask" is taken as the identity. The distinctness and bound properties hold for any order.
- Library calls are parameters: `validators.url`, `urlparse`, `urldefrag`, `quote`, `encodeURIComponent`, `int()`, and the `parseInt` of the page number in the home page's constructor (frontend/website/pages/index.js:30-36). Model strings are sequences of code points, so JavaScript's UTF-16 lengths are not modelled.
- `lower()` is ASCII only; Unicode case folding is not modelled.
- bleach sanitisation and the HTML of the views are not modelled.
- A JavaScript replacement string is taken literally: `$` patterns in a submission title are not interpreted.
- The form's character counters, cancel button, unload guard and router events are not modelled. The edit and create stores of the submission form are modelled as one `Form` class.
- The notifications sent after a submission or a reply are not modelled.
- WebSocketManager.Manager.Effect: when the effect runs is not modelled. React re-runs it only when `isLoggedOut`, `user_id` or `socket` changes (frontend/website/components/webSocketManager.js:10-43); the model lets a caller run it at any time, and the guard alone decides what it does.
- In submissions DELETE, the exception raised by `ObjectId(community_id)` on a malformed id is not modelled; ids are assumed well formed there.
- Submissions.SubmissionCommunities.Patch: the same holds for `ObjectId(community_id)` in PATCH (backend/app/views/submissions.py:337). The text and URL fields are validated but not stored by the model, the anonymity flag is not modelled, and the re-indexing, logging and display URL of a successful edit are not modelled.
- Search.ExportPaging: one fixed hit count is given for the whole export, as a number. The source reads `number_of_hits` from the cache again for every page, and skips the paging entirely when nothing is cached for the search (backend/app/views/search.py:832-840); neither is modelled, nor is the `int()` conversion of the cached count.
- ManageData.Postprocess: the encoding repair applied to hit texts is not modelled.
- Communities.UserRecord.JoinCommunity: a request body without `join_key` (a KeyError in the source) is modelled as a missing key, which also gives a 500.
- Communities.LeftCommunitiesSpec: requires a consistent community table (each document stored under its own id), which the database guarantees.
- Communities.GetCommunityPage: an id that is not an ObjectId raises in the source (a 500); the model reports it as `InvalidId`.
- Helpers.JoinedEntriesExact, Helpers.FollowedEntriesExact: require a consistent community table, as above.
- Search.Rerank: the reply's `ranks` object is given as one array of indices per query; its scores are not modelled, and a request that raises is modelled as no answer.

## Findings

| source | as written | input that shows it | evidently intended | confidence | as-written member | corrected member |
|---|---|---|---|---|---|---|
| backend/app/views/submissions.py:347 | the PATCH web-community block compares `ObjectId(community)` with a str, which is always False | a member of the web community other than the privileged user adds a submission to it | refuse the web community to everyone but the privileged user | high, not executed | Submissions.PatchWebBlockNeverFires | Submissions.PatchWebBlockCorrected |
| backend/app/views/submissions.py:722 | the creation block compares the raw request string with the lower-case id | community "63A4C21AEE3BE6AC5C533A55" | compare the ObjectId the string names | medium, not executed | Submissions.WebBlockBypassedByCase | Submissions.WebBlockOnObjectIdComplete |
| backend/app/views/search.py:1120-1138 | after a non-200 reply, `extracted` is never assigned and the return raises UnboundLocalError | a neural reply with status 500 | return an empty list | high, not executed | Search.FailedReplyRaises | Search.GenerateAgrees |
| backend/elastic/manage_data.py:446-455 | the exception handler calls `json.loads` on the same text again, which raises again | an index answer that is not JSON | return no hits | high, not executed | ManageData.NonJsonAnswerRaises | ManageData.PostprocessAgrees |
| backend/app/views/communities.py:150 | `len(community_name)` when no name is sent raises a TypeError | a PATCH sending only a description | validate only the fields given | high, not executed | Communities.DescriptionOnlyEditRaises | Communities.ValidateCommunity |
| backend/app/views/communities.py:253-254 | every `joined_users` entry carries the viewer's id | a community with a member other than the viewer | each member's own id | high, not executed | Communities.JoinedUsersShowViewerId | Communities.JoinedUsers |
| backend/app/views/communities.py:271-273 | the pinned check `id and all_sub_comms` does not test membership | a pinned submission that belongs only to another community | show only pins that are in this community | high, not executed | Communities.PinnedOfOtherCommunityShown | Communities.ShownPins |
| frontend/website/pages/index.js:134-137 | `tempItems < 10` compares the results array with 10, which is true only for an empty array | a page of 3 results | end the feed on a page of fewer than 10 results | high, not executed | HomePage.ShortPageMissed | HomePage.Home.FetchNextPage |
