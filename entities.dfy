/** The records the backend reads from its collections, reduced to the fields the core uses. */
module Entities {
  import opened Wrappers
  import Strings

  /** An ObjectId, identified with its 24-character hex string `str(ObjectId)`. */
  type Id = string

  /** A document of the communities collection. `admins` is None for old documents without the field. */
  datatype Community = Community(
    id: Id, name: string, description: string, admins: Option<seq<Id>>,
    joinKey: string, isPublic: bool, pinned: string)

  /** `find_one({"_id": id})` on the communities collection. */
  type CommunityTable = map<Id, Community>

  /** What the database guarantees: a document is stored under its own id. */
  predicate TableConsistent(table: CommunityTable)
  {
    forall k :: k in table ==> table[k].id == k
  }

  /** The current user. `username` is None for the anonymous user object, which has no username. */
  datatype User = User(id: Id, communities: seq<Id>, followedCommunities: seq<Id>, username: Option<string>)

  /** The deployment's `api_url` and `api_port` environment variables. */
  datatype Env = Env(apiUrl: string, apiPort: string)

  /** `bson.ObjectId.is_valid` for strings: exactly 24 hexadecimal digits. */
  predicate IsObjectIdString(s: string)
  {
    |s| == 24 && forall i :: 0 <= i < |s| ==> ('0' <= s[i] <= '9' || 'a' <= s[i] <= 'f' || 'A' <= s[i] <= 'F')
  }

  /**
   * `str(ObjectId(s))`: defined for 24 hex digits, which it normalises to
   * lower case; any other string makes `ObjectId(s)` raise.
   */
  function ObjectIdOf(s: string): (r: Option<Id>)
    ensures r.Some? <==> IsObjectIdString(s)
    ensures r.Some? ==> |r.value| == 24
    ensures r.Some? ==> forall i :: 0 <= i < |r.value| ==> '0' <= r.value[i] <= '9' || 'a' <= r.value[i] <= 'f'
  {
    if IsObjectIdString(s) then Some(Strings.Lower(s)) else None
  }

  /** `str(ObjectId(s))` is canonical: read back as an ObjectId, it names itself. */
  lemma ObjectIdCanonical(s: string)
    requires IsObjectIdString(s)
    ensures ObjectIdOf(ObjectIdOf(s).value) == ObjectIdOf(s)
  {
    var id := ObjectIdOf(s).value;
    assert IsObjectIdString(id);
    assert Strings.Lower(id) == id;
  }

  /**
   * Spellings of an id that differ only in the case of their letters are all
   * accepted, and name the same ObjectId.
   */
  lemma ObjectIdIgnoresCase(s: string, t: string)
    requires IsObjectIdString(s)
    requires |t| == |s| && forall i :: 0 <= i < |s| ==> Strings.LowerChar(t[i]) == Strings.LowerChar(s[i])
    ensures IsObjectIdString(t) && ObjectIdOf(t) == ObjectIdOf(s)
  {
    forall i | 0 <= i < |t|
      ensures '0' <= t[i] <= '9' || 'a' <= t[i] <= 'f' || 'A' <= t[i] <= 'F'
    {
      assert Strings.LowerChar(t[i]) == Strings.LowerChar(s[i]);
    }
    assert Strings.Lower(t) == Strings.Lower(s);
  }
}
