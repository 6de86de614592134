/**
 * The mobile client's key-value store (baby-sleep-native/src/utils/storage.ts):
 * a general store (AsyncStorage) and a secure store (SecureStore), both
 * modelled as maps from keys to strings. Every platform call may fail; the
 * model takes that as a parameter. A failed read yields null, and a failed
 * write or removal is logged and leaves that store as it was.
 */
module Storage {
  import opened Wrappers

  /** STORAGE_KEYS: every key the store is used with. */
  datatype Key =
    | SessionToken | Username | UserId | FirstName | RememberMe
    | ProfilePicture | Bio | ForumAuthorName

  /** The name under which each key is stored. */
  function Name(k: Key): (n: string)
    ensures |n| > 0
  {
    match k
    case SessionToken => "session_token"
    case Username => "username"
    case UserId => "user_id"
    case FirstName => "first_name"
    case RememberMe => "remember_me"
    case ProfilePicture => "profile_picture"
    case Bio => "bio"
    case ForumAuthorName => "forum_author_name"
  }

  /** No two keys share a stored name. */
  lemma NamesDistinct(a: Key, b: Key)
    requires Name(a) == Name(b)
    ensures a == b
  {
    assert |Name(a)| == |Name(b)|;
  }

  const TokenKey := SessionToken

  /** The seven session keys kept in the general store. */
  const ProfileKeys: set<Key> :=
    {Username, UserId, FirstName, RememberMe, ProfilePicture, Bio, ForumAuthorName}

  /** An optional field of a JavaScript object: missing, null, or a string. */
  datatype Field = Undefined | Null | Val(s: string)

  predicate Truthy(f: Field) { f.Val? && f.s != [] }

  /** `f || ''`. */
  function OrEmpty(f: Field): string { if Truthy(f) then f.s else [] }

  /** The argument of setUserData. */
  datatype UserDataInput = UserDataInput(
    username: Field, userId: Field, firstName: Field,
    profilePicture: Field, bio: Field, rememberMe: Option<bool>)

  /** What getUserData returns; None is null. */
  datatype UserData = UserData(
    username: Option<string>, userId: Option<string>, firstName: Option<string>,
    profilePicture: Option<string>, bio: Option<string>)

  /**
   * The value setUserData writes to key k, if it writes k at all: username,
   * user_id and first_name when truthy; profile_picture and bio whenever
   * present, '' for null or empty; remember_me as 'true' or 'false' whenever
   * present; never the token or forum_author_name.
   */
  function Written(d: UserDataInput, k: Key): Option<string> {
    match k
    case Username => if Truthy(d.username) then Some(d.username.s) else None
    case UserId => if Truthy(d.userId) then Some(d.userId.s) else None
    case FirstName => if Truthy(d.firstName) then Some(d.firstName.s) else None
    case ProfilePicture => if d.profilePicture.Undefined? then None else Some(OrEmpty(d.profilePicture))
    case Bio => if d.bio.Undefined? then None else Some(OrEmpty(d.bio))
    case RememberMe => if d.rememberMe.None? then None else Some(if d.rememberMe.value then "true" else "false")
    case SessionToken => None
    case ForumAuthorName => None
  }

  /** The keys setUserData considers, in the order of its checks. */
  const UserDataKeys: seq<Key> := [Username, UserId, FirstName, ProfilePicture, Bio, RememberMe]

  /** Key k holds the same in a as in g. */
  predicate Same(a: map<Key, string>, g: map<Key, string>, k: Key) {
    (k in a <==> k in g) && (k in g ==> a[k] == g[k])
  }

  /** Whether the write to k happens and succeeds. */
  predicate Lands(d: UserDataInput, failing: set<Key>, k: Key) { Written(d, k).Some? && k !in failing }

  /**
   * a is g after setUserData(d) with the writes to the keys in failing
   * failing: every landed write holds its value, every other key is as before.
   */
  predicate UserDataStored(a: map<Key, string>, g: map<Key, string>, d: UserDataInput, failing: set<Key>) {
    (forall k :: Lands(d, failing, k) ==> k in a && a[k] == Written(d, k).value)
    && (forall k :: !Lands(d, failing, k) ==> Same(a, g, k))
  }

  /** A read of one key: null when the key is absent or the read fails. */
  function Lookup(m: map<Key, string>, key: Key, fails: bool): (r: Option<string>)
    ensures r.Some? <==> !fails && key in m
    ensures r.Some? ==> r.value == m[key]
  {
    if !fails && key in m then Some(m[key]) else None
  }

  /** getUserData over a general store g, where the reads of the keys in failing fail. */
  function ReadUserData(g: map<Key, string>, failing: set<Key>): UserData {
    UserData(
      Lookup(g, Username, Username in failing),
      Lookup(g, UserId, UserId in failing),
      Lookup(g, FirstName, FirstName in failing),
      Lookup(g, ProfilePicture, ProfilePicture in failing),
      Lookup(g, Bio, Bio in failing))
  }

  /**
   * After a setUserData whose writes all succeed, getUserData gives back every
   * field that was written: the username, id and first name when non-empty,
   * and the picture and bio, as '' when null or empty, whenever present.
   */
  lemma SetThenGetUserData(a: map<Key, string>, g: map<Key, string>, d: UserDataInput)
    requires UserDataStored(a, g, d, {})
    ensures var r := ReadUserData(a, {});
      (Truthy(d.username) ==> r.username == Some(d.username.s))
      && (Truthy(d.userId) ==> r.userId == Some(d.userId.s))
      && (Truthy(d.firstName) ==> r.firstName == Some(d.firstName.s))
      && (!d.profilePicture.Undefined? ==> r.profilePicture == Some(OrEmpty(d.profilePicture)))
      && (!d.bio.Undefined? ==> r.bio == Some(OrEmpty(d.bio)))
  {
    assert Lands(d, {}, Username) == Truthy(d.username);
    assert Lands(d, {}, UserId) == Truthy(d.userId);
    assert Lands(d, {}, FirstName) == Truthy(d.firstName);
    assert Lands(d, {}, ProfilePicture) == !d.profilePicture.Undefined?;
    assert Lands(d, {}, Bio) == !d.bio.Undefined?;
  }

  /** setUserData never touches the token or forum_author_name, and an absent username keeps the stored one. */
  lemma SetUserDataKeepsUnwritten(a: map<Key, string>, g: map<Key, string>, d: UserDataInput, failing: set<Key>)
    requires UserDataStored(a, g, d, failing)
    ensures Same(a, g, SessionToken) && Same(a, g, ForumAuthorName)
    ensures !Truthy(d.username) ==> Same(a, g, Username)
  {
    assert !Lands(d, failing, SessionToken) && !Lands(d, failing, ForumAuthorName);
  }

  /**
   * Where the session data lives: the token only in the secure store, and no
   * key but the token there.
   */
  class SessionStore {
    /** AsyncStorage. */
    var general: map<Key, string>
    /** SecureStore. */
    var secure: map<Key, string>

    predicate Separated()
      reads this
    {
      TokenKey !in general && secure.Keys <= {TokenKey}
    }

    constructor (general: map<Key, string>, secure: map<Key, string>)
      ensures this.general == general && this.secure == secure
    {
      this.general := general;
      this.secure := secure;
    }

    // ------------------------------------------------------------ storage

    /** storage.getItem. */
    method GetItem(key: Key, fails: bool) returns (v: Option<string>)
      ensures v == Lookup(general, key, fails)
    {
      if fails || key !in general {
        return None;
      }
      return Some(general[key]);
    }

    /** storage.setItem. */
    method SetItem(key: Key, value: string, fails: bool)
      modifies this
      ensures general == if fails then old(general) else old(general)[key := value]
      ensures secure == old(secure)
      ensures old(Separated()) && key != TokenKey ==> Separated()
    {
      if !fails {
        general := general[key := value];
      }
    }

    /** storage.removeItem. */
    method RemoveItem(key: Key, fails: bool)
      modifies this
      ensures general == if fails then old(general) else old(general) - {key}
      ensures secure == old(secure)
      ensures old(Separated()) ==> Separated()
    {
      if !fails {
        general := general - {key};
      }
    }

    /** storage.getSecureToken. */
    method GetSecureToken(key: Key, fails: bool) returns (v: Option<string>)
      ensures v == Lookup(secure, key, fails)
    {
      if fails || key !in secure {
        return None;
      }
      return Some(secure[key]);
    }

    /** storage.setSecureToken. */
    method SetSecureToken(key: Key, value: string, fails: bool)
      modifies this
      ensures secure == if fails then old(secure) else old(secure)[key := value]
      ensures general == old(general)
      ensures old(Separated()) && key == TokenKey ==> Separated()
    {
      if !fails {
        secure := secure[key := value];
      }
    }

    /** storage.removeSecureToken. */
    method RemoveSecureToken(key: Key, fails: bool)
      modifies this
      ensures secure == if fails then old(secure) else old(secure) - {key}
      ensures general == old(general)
      ensures old(Separated()) ==> Separated()
    {
      if !fails {
        secure := secure - {key};
      }
    }

    /** storage.clear: empties the general store only; the secure token stays. */
    method Clear(fails: bool)
      modifies this
      ensures general == if fails then old(general) else map[]
      ensures secure == old(secure)
      ensures old(Separated()) ==> Separated()
    {
      if !fails {
        general := map[];
      }
    }

    // ------------------------------------------------------------ sessionStorage

    /** sessionStorage.getToken: the token is read from the secure store only. */
    method GetToken(fails: bool) returns (t: Option<string>)
      ensures t == Lookup(secure, TokenKey, fails)
    {
      t := GetSecureToken(TokenKey, fails);
    }

    method SetToken(token: string, fails: bool)
      modifies this
      ensures secure == if fails then old(secure) else old(secure)[TokenKey := token]
      ensures general == old(general)
      ensures old(Separated()) ==> Separated()
    {
      SetSecureToken(TokenKey, token, fails);
    }

    method RemoveToken(fails: bool)
      modifies this
      ensures secure == if fails then old(secure) else old(secure) - {TokenKey}
      ensures general == old(general)
      ensures old(Separated()) ==> Separated()
    {
      RemoveSecureToken(TokenKey, fails);
    }

    method GetUsername(fails: bool) returns (u: Option<string>)
      ensures u == Lookup(general, Username, fails)
    {
      u := GetItem(Username, fails);
    }

    method SetUsername(username: string, fails: bool)
      modifies this
      ensures general == if fails then old(general) else old(general)[Username := username]
      ensures secure == old(secure)
      ensures old(Separated()) ==> Separated()
    {
      SetItem(Username, username, fails);
    }

    /** sessionStorage.getUserData: five independent reads of the general store. */
    method GetUserData(failing: set<Key>) returns (d: UserData)
      ensures d == ReadUserData(general, failing)
    {
      var username := GetItem(Username, Username in failing);
      var userId := GetItem(UserId, UserId in failing);
      var firstName := GetItem(FirstName, FirstName in failing);
      var picture := GetItem(ProfilePicture, ProfilePicture in failing);
      var bio := GetItem(Bio, Bio in failing);
      d := UserData(username, userId, firstName, picture, bio);
    }

    /**
     * sessionStorage.setUserData: the writes of UserDataWrites, except those
     * to keys in failing; no other key changes and the secure store is
     * untouched. The writes go to distinct keys, so their order is immaterial.
     */
    method SetUserData(d: UserDataInput, failing: set<Key>)
      modifies this
      ensures UserDataStored(general, old(general), d, failing)
      ensures secure == old(secure)
      ensures old(Separated()) ==> Separated()
    {
      var keys := UserDataKeys;
      var i := 0;
      while i < |keys|
        invariant 0 <= i <= |keys|
        invariant forall k :: k in keys[..i] && Lands(d, failing, k) ==> k in general && general[k] == Written(d, k).value
        invariant forall k :: !(k in keys[..i] && Lands(d, failing, k)) ==> Same(general, old(general), k)
        invariant secure == old(secure)
        invariant old(Separated()) ==> Separated()
      {
        var k := keys[i];
        var w := Written(d, k);
        if w.Some? {
          SetItem(k, w.value, k in failing);
        }
        assert keys[..i + 1] == keys[..i] + [k];
        i := i + 1;
      }
      assert forall k :: Lands(d, failing, k) ==> k in keys;
      assert keys[..i] == keys;
    }

    /**
     * sessionStorage.clearSession: removes the token from the secure store
     * and the seven other session keys from the general store; a removal
     * that fails leaves its key in place.
     */
    method ClearSession(failing: set<Key>)
      modifies this
      ensures secure == if TokenKey in failing then old(secure) else old(secure) - {TokenKey}
      ensures general == old(general) - (ProfileKeys - failing)
      ensures old(Separated()) ==> Separated()
    {
      RemoveSecureToken(TokenKey, TokenKey in failing);
      ghost var g0 := general;
      var keys := [Username, UserId, FirstName, RememberMe, ProfilePicture, Bio, ForumAuthorName];
      var i := 0;
      while i < |keys|
        invariant 0 <= i <= |keys|
        invariant general == g0 - (set k | k in keys[..i] && k !in failing)
        invariant secure == if TokenKey in failing then old(secure) else old(secure) - {TokenKey}
        invariant old(Separated()) ==> Separated()
      {
        RemoveItem(keys[i], keys[i] in failing);
        assert keys[..i + 1] == keys[..i] + [keys[i]];
        i := i + 1;
      }
      assert keys[..i] == keys;
    }
  }

  /**
   * After a clearSession in which no removal fails, getToken and every field
   * of getUserData read null, whatever the stores held before.
   */
  lemma ClearedSessionReadsNull(g: map<Key, string>, s: map<Key, string>, failing: set<Key>, tokenFails: bool)
    ensures ReadUserData(g - (ProfileKeys - {}), failing) == UserData(None, None, None, None, None)
    ensures Lookup(s - {TokenKey}, TokenKey, tokenFails) == None
  {}
}
