/**
 * The web client's top-level state (frontend/src/App.jsx): the start-up
 * session check and what it does to the stored credentials, logout, the
 * profile merge, and the chat message list around a send.
 *
 * localStorage is a map over the same key names the native client uses
 * (Storage.Key); `user` is null or a record of the fields the app keeps.
 */
module App {
  import opened Wrappers
  import opened Text
  import L = Lists
  import A = AuthService
  import S = Storage

  /** The `user` object the app keeps; an absent field is undefined. */
  datatype User = User(username: Option<string>, userId: Option<string>,
                       profilePicture: Option<string>, bio: Option<string>)

  /** A key of an update object: left out, or carried with a value that may be null or undefined. */
  datatype PatchField = Omitted | Carried(value: Option<string>)

  /** The object handed to handleProfileUpdate, key by key. */
  datatype UserPatch = UserPatch(username: PatchField, userId: PatchField,
                                 profilePicture: PatchField, bio: PatchField)

  // ---------------------------------------------------------------- checkAuth

  /** The web client's checkSession (frontend/src/api/authService.js): every failure reads as unauthenticated. */
  function WebCheckSession(reply: A.Reply<A.Session>): (r: A.Settled)
    ensures r.Answered?
    ensures reply.Ok? ==> r.session == reply.data
    ensures reply.Failed? ==> r.session == A.Unauthenticated
  {
    match reply
    case Ok(s) => A.Answered(s)
    case Failed(_) => A.Answered(A.Unauthenticated)
  }

  /** What checkAuth does: no user, the server's user, the stored user, or clear and no user. */
  datatype AuthVerdict = NoSession | FromServer(session: A.Session) | KeepStored | ClearStored

  /** Both a token and a username are stored, non-empty. */
  predicate HasCredentials(local: map<S.Key, string>) {
    S.SessionToken in local && local[S.SessionToken] != [] && S.Username in local && local[S.Username] != []
  }

  predicate RememberMe(local: map<S.Key, string>) {
    S.RememberMe in local && local[S.RememberMe] == "true"
  }

  /** The keys checkAuth removes when it clears the stored session. */
  const CheckAuthKeys: set<S.Key> := {S.SessionToken, S.Username, S.UserId, S.RememberMe}

  /** The keys handleLogout removes. */
  const LogoutKeys: set<S.Key> := {S.SessionToken, S.Username, S.UserId, S.RememberMe, S.ForumAuthorName}

  /**
   * checkAuth's decision table. The stored credentials are cleared exactly
   * when remember-me is off and the server says the session is invalid
   * (an unauthenticated answer or a rethrown 401); every other outcome with
   * credentials keeps a user logged in.
   */
  function Decide(hasCredentials: bool, rememberMe: bool, settled: A.Settled): (v: AuthVerdict)
    ensures v == NoSession <==> !hasCredentials
    ensures v.FromServer? <==> hasCredentials && settled.Answered? && settled.session.authenticated
    ensures v.FromServer? ==> v.session == settled.session
    ensures v == ClearStored <==>
              hasCredentials && !rememberMe
              && ((settled.Answered? && !settled.session.authenticated) || (settled.Rethrown? && A.Is401(settled.err)))
  {
    if !hasCredentials then NoSession
    else match settled
      case Answered(s) =>
        if s.authenticated then FromServer(s)
        else if !rememberMe then ClearStored
        else KeepStored
      case Rethrown(e) =>
        if rememberMe then KeepStored
        else if A.Is401(e) then ClearStored
        else KeepStored
  }

  /** With the web checkSession nothing is ever rethrown, so checkAuth's catch block is dead code. */
  lemma WebCatchUnreachable(reply: A.Reply<A.Session>)
    ensures !WebCheckSession(reply).Rethrown?
  {}

  /**
   * As written: a network failure (no response at all) reads as
   * unauthenticated, so a user without remember-me is logged out by it,
   * although the comment at the clearing branch says network errors should not.
   */
  lemma WebNetworkErrorLogsOut(e: A.RequestError)
    requires e.response.None?
    ensures Decide(true, false, WebCheckSession(A.Failed(e))) == ClearStored
  {}

  /**
   * Corrected: with a checkSession that answers only a 401 and rethrows the
   * rest (the native client's), a network failure keeps the user logged in
   * and only an invalid session clears the credentials.
   */
  lemma CorrectedKeepsUserOnNetworkError(e: A.RequestError, rememberMe: bool)
    requires e.response.None?
    ensures Decide(true, rememberMe, A.CheckSession(A.Failed(e))) == KeepStored
  {}

  lemma CorrectedClearsOnlyInvalidSessions(reply: A.Reply<A.Session>, rememberMe: bool)
    ensures Decide(true, rememberMe, A.CheckSession(reply)) == ClearStored <==>
              !rememberMe && (reply.Ok? ==> !reply.data.authenticated) && (reply.Failed? ==> A.Is401(reply.err))
  {}

  // ---------------------------------------------------------------- message list

  datatype Role = UserRole | Assistant

  datatype Message = Message(id: int, role: Role, content: string)

  /**
   * The user's message and the empty assistant placeholder a send appends.
   * The clock is read twice: the user's id is the first reading t1, the
   * placeholder's the second reading t2 plus one.
   */
  function Placeholders(text: string, t1: int, t2: int): (r: seq<Message>)
    ensures |r| == 2 && r[0].role == UserRole && r[0].content == text && r[1].role == Assistant && r[1].content == []
    ensures r[0].id == t1 && r[1].id == t2 + 1
  {
    [Message(t1, UserRole, text), Message(t2 + 1, Assistant, [])]
  }

  /** A clock that does not run backwards between the two readings gives the pair two different ids. */
  lemma PlaceholderIdsDistinct(text: string, t1: int, t2: int)
    requires t1 <= t2
    ensures Placeholders(text, t1, t2)[0].id != Placeholders(text, t1, t2)[1].id
  {}

  /** The filter of the failure path: drop the two messages of this send. */
  function NotPair(userId: int, assistantId: int): Message -> bool {
    (m: Message) => m.id != userId && m.id != assistantId
  }

  /** The assistant message once its text is fully shown: every message with that id gets the reply. */
  function ShowReply(msgs: seq<Message>, id: int, reply: string): (r: seq<Message>)
    ensures |r| == |msgs|
    ensures forall i :: 0 <= i < |msgs| ==> r[i] == if msgs[i].id == id then msgs[i].(content := reply) else msgs[i]
  {
    seq(|msgs|, i requires 0 <= i < |msgs| => if msgs[i].id == id then msgs[i].(content := reply) else msgs[i])
  }

  /** How chatService.sendMessage settles for the app: the full reply and conversation id, or an error message. */
  datatype SendOutcome = Replied(text: string, conversationId: Option<int>) | SendFailed(message: string)

  predicate NoIdIn(msgs: seq<Message>, a: int, b: int) {
    forall i :: 0 <= i < |msgs| ==> msgs[i].id != a && msgs[i].id != b
  }

  /** A failed send whose ids were fresh leaves exactly the list that was there before it. */
  lemma FailedSendRestoresList(msgs: seq<Message>, text: string, t1: int, t2: int)
    requires NoIdIn(msgs, t1, t2 + 1)
    ensures L.Keep(msgs + Placeholders(text, t1, t2), NotPair(t1, t2 + 1)) == msgs
  {
    L.KeepAppend(msgs, Placeholders(text, t1, t2), NotPair(t1, t2 + 1));
    L.KeepAll(msgs, NotPair(t1, t2 + 1));
    L.KeepNone(Placeholders(text, t1, t2), NotPair(t1, t2 + 1));
  }

  /** A failed send never removes a message of another id, and keeps each as often as it was there. */
  lemma FailedSendKeepsOthers(msgs: seq<Message>, u: int, a: int, m: Message)
    requires m.id != u && m.id != a
    ensures multiset(L.Keep(msgs, NotPair(u, a)))[m] == multiset(msgs)[m]
  {
    L.KeepCounts(msgs, NotPair(u, a), m);
  }

  /**
   * A successful send whose ids were fresh and distinct ends with the user's
   * message and the full reply.
   */
  lemma RepliedSendAppendsExchange(msgs: seq<Message>, text: string, t1: int, t2: int, reply: string)
    requires NoIdIn(msgs, t1, t2 + 1) && t1 != t2 + 1
    ensures ShowReply(msgs + Placeholders(text, t1, t2), t2 + 1, reply)
            == msgs + [Message(t1, UserRole, text), Message(t2 + 1, Assistant, reply)]
  {}

  /** When the clock went back by exactly one between the readings, the user's own message is overwritten by the reply. */
  lemma ClashingIdsOverwriteUserMessage(msgs: seq<Message>, text: string, t1: int, t2: int, reply: string)
    requires t1 == t2 + 1
    ensures ShowReply(msgs + Placeholders(text, t1, t2), t2 + 1, reply)[|msgs|].content == reply
  {}

  // ---------------------------------------------------------------- profile merge

  /** The value a key of { ...prev, ...updated } ends with: the carried one, even null or undefined, else the old one. */
  function Pick(f: PatchField, previous: Option<string>): Option<string> {
    if f.Carried? then f.value else previous
  }

  /**
   * { ...prev, ...updated }: every key the update carries wins, even with
   * null or undefined; every key it leaves out is the previous user's, or
   * undefined when there was no user.
   */
  function Merge(prev: Option<User>, p: UserPatch): (u: User)
    ensures p.username.Carried? ==> u.username == p.username.value
    ensures p.userId.Carried? ==> u.userId == p.userId.value
    ensures p.profilePicture.Carried? ==> u.profilePicture == p.profilePicture.value
    ensures p.bio.Carried? ==> u.bio == p.bio.value
    ensures prev.Some? && p.username.Omitted? ==> u.username == prev.value.username
    ensures prev.Some? && p.userId.Omitted? ==> u.userId == prev.value.userId
    ensures prev.Some? && p.profilePicture.Omitted? ==> u.profilePicture == prev.value.profilePicture
    ensures prev.Some? && p.bio.Omitted? ==> u.bio == prev.value.bio
    ensures prev.None? ==> u == User(Pick(p.username, None), Pick(p.userId, None), Pick(p.profilePicture, None), Pick(p.bio, None))
  {
    var base := if prev.Some? then prev.value else User(None, None, None, None);
    User(Pick(p.username, base.username), Pick(p.userId, base.userId),
         Pick(p.profilePicture, base.profilePicture), Pick(p.bio, base.bio))
  }

  /**
   * The update the profile page sends after saving (frontend/src/components/Profile.jsx):
   * the current user spread, then the server's picture and bio, which may be null.
   */
  function ProfileSaved(user: User, picture: Option<string>, bio: Option<string>): UserPatch {
    UserPatch(Carried(user.username), Carried(user.userId), Carried(picture), Carried(bio))
  }

  /** After a profile save the user keeps name and id and takes the server's picture and bio, a null one included. */
  lemma ProfileSavedReplaces(user: User, picture: Option<string>, bio: Option<string>)
    ensures Merge(Some(user), ProfileSaved(user, picture, bio)) == User(user.username, user.userId, picture, bio)
    ensures picture.None? ==> Merge(Some(user), ProfileSaved(user, picture, bio)).profilePicture.None?
  {}

  /** Applying the same update twice is applying it once. */
  lemma MergeIdempotent(prev: Option<User>, p: UserPatch)
    ensures Merge(Some(Merge(prev, p)), p) == Merge(prev, p)
  {}

  /** An update carrying no field leaves the user as it was. */
  lemma MergeEmptyKeeps(u: User)
    ensures Merge(Some(u), UserPatch(Omitted, Omitted, Omitted, Omitted)) == u
  {}

  /** The stored username is rewritten only by a non-empty username that differs from the current one. */
  predicate RenamesStored(prev: Option<User>, p: UserPatch) {
    p.username.Carried? && p.username.value.Some? && p.username.value.value != []
    && (prev.None? || prev.value.username != p.username.value)
  }

  // ---------------------------------------------------------------- the component's state

  class AppState {
    var local: map<S.Key, string>
    var user: Option<User>
    var messages: seq<Message>
    var conversationId: Option<int>
    var error: string
    var isLoading: bool

    constructor(stored: map<S.Key, string>)
      ensures local == stored && user == None && messages == [] && conversationId == None
      ensures error == [] && !isLoading
    {
      local := stored;
      user := None;
      messages := [];
      conversationId := None;
      error := [];
      isLoading := false;
    }

    /**
     * checkAuth, given how checkSession would settle. The session is checked
     * only with stored credentials; the outcome follows Decide.
     */
    method CheckAuth(settled: A.Settled) returns (checked: bool)
      modifies this
      ensures checked <==> HasCredentials(old(local))
      ensures var v := Decide(HasCredentials(old(local)), RememberMe(old(local)), settled);
              match v
              case NoSession => user == None && local == old(local)
              case FromServer(s) => user == Some(User(s.username, s.userId, s.profilePicture, s.bio)) && local == old(local)
              case KeepStored =>
                user == Some(User(Some(old(local)[S.Username]), S.Lookup(old(local), S.UserId, false), None, None))
                && local == old(local)
              case ClearStored => user == None && local == old(local) - CheckAuthKeys
      ensures messages == old(messages) && conversationId == old(conversationId)
      ensures error == old(error) && isLoading == old(isLoading)
    {
      var rememberMe := S.RememberMe in local && local[S.RememberMe] == "true";
      checked := HasCredentials(local);
      if !checked {
        user := None;
        return;
      }
      var username := local[S.Username];
      var storedUser := User(Some(username), S.Lookup(local, S.UserId, false), None, None);
      match settled {
        case Answered(session) =>
          if session.authenticated {
            user := Some(User(session.username, session.userId, session.profilePicture, session.bio));
          } else if !rememberMe {
            local := local - CheckAuthKeys;
            user := None;
          } else {
            user := Some(storedUser);
          }
        case Rethrown(e) =>
          if rememberMe {
            user := Some(storedUser);
          } else if A.Is401(e) {
            local := local - CheckAuthKeys;
            user := None;
          } else {
            user := Some(storedUser);
          }
      }
    }

    /** handleLogout: the logout request goes out only with a token; five keys go and the user is null. */
    method Logout() returns (posted: Option<string>)
      modifies this
      ensures posted.Some? <==> S.SessionToken in old(local) && old(local)[S.SessionToken] != []
      ensures posted.Some? ==> posted.value == old(local)[S.SessionToken]
      ensures local == old(local) - LogoutKeys && user == None
      ensures messages == old(messages) && conversationId == old(conversationId)
      ensures error == old(error) && isLoading == old(isLoading)
    {
      posted := None;
      if S.SessionToken in local && local[S.SessionToken] != [] {
        posted := Some(local[S.SessionToken]);
      }
      local := local - LogoutKeys;
      user := None;
    }

    /** handleProfileUpdate: merge the update into the user; rewrite the stored username when it changed. */
    method ProfileUpdate(p: UserPatch)
      modifies this
      ensures user == Some(Merge(old(user), p))
      ensures local == if RenamesStored(old(user), p) then old(local)[S.Username := p.username.value.value] else old(local)
      ensures messages == old(messages) && conversationId == old(conversationId)
      ensures error == old(error) && isLoading == old(isLoading)
    {
      if p.username.Carried? && p.username.value.Some? && p.username.value.value != []
         && (user.None? || user.value.username != p.username.value) {
        local := local[S.Username := p.username.value.value];
      }
      user := Some(Merge(user, p));
    }

    /**
     * handleSendMessage, given how the request settles and the two clock
     * readings t1 and t2: a blank message changes nothing; otherwise the
     * user's message and an empty assistant placeholder are appended, then
     * either the reply fills the placeholder or both are removed again and
     * the error is shown.
     */
    method SendMessage(text: string, t1: int, t2: int, outcome: SendOutcome)
      modifies this
      ensures JsTrim(text) == [] ==>
                messages == old(messages) && conversationId == old(conversationId)
                && error == old(error) && isLoading == old(isLoading)
      ensures JsTrim(text) != [] && outcome.SendFailed? ==>
                messages == L.Keep(old(messages) + Placeholders(text, t1, t2), NotPair(t1, t2 + 1))
                && error == outcome.message && conversationId == old(conversationId)
      ensures JsTrim(text) != [] && outcome.Replied? ==>
                messages == ShowReply(old(messages) + Placeholders(text, t1, t2), t2 + 1, outcome.text)
                && error == []
                && conversationId == if HasConversation(old(conversationId)) then old(conversationId) else outcome.conversationId
      ensures JsTrim(text) != [] ==> !isLoading
      ensures local == old(local) && user == old(user)
    {
      if JsTrim(text) == [] {
        return;
      }
      messages := messages + Placeholders(text, t1, t2);
      Settle(t1, t2 + 1, outcome);
    }

    /**
     * The try/catch/finally of handleSendMessage once both messages are in:
     * the reply fills the placeholder assistantId and sets a missing
     * conversation id, or a failure removes the messages with ids userId and
     * assistantId and shows the error; isLoading, set when the request
     * started, is false again in the end.
     */
    method Settle(userId: int, assistantId: int, outcome: SendOutcome)
      modifies this
      ensures outcome.SendFailed? ==>
                messages == L.Keep(old(messages), NotPair(userId, assistantId))
                && error == outcome.message && conversationId == old(conversationId)
      ensures outcome.Replied? ==>
                messages == ShowReply(old(messages), assistantId, outcome.text) && error == []
                && conversationId == if HasConversation(old(conversationId)) then old(conversationId) else outcome.conversationId
      ensures !isLoading && local == old(local) && user == old(user)
    {
      match outcome {
        case Replied(reply, returned) =>
          messages := ShowReply(messages, assistantId, reply);
          error := [];
          if !HasConversation(conversationId) {
            conversationId := returned;
          }
        case SendFailed(msg) =>
          error := msg;
          messages := L.Keep(messages, NotPair(userId, assistantId));
      }
      isLoading := false;
    }
  }

  /** A conversation id is truthy: present and not 0. */
  predicate HasConversation(c: Option<int>) { c.Some? && c.value != 0 }

  /** After a logout, the next start-up finds no credentials and makes no session check. */
  lemma LogoutThenNoSession(local: map<S.Key, string>, settled: A.Settled, rememberMe: bool)
    ensures Decide(HasCredentials(local - LogoutKeys), rememberMe, settled) == NoSession
  {}

  /** The same holds after checkAuth has cleared the credentials. */
  lemma ClearedThenNoSession(local: map<S.Key, string>, settled: A.Settled, rememberMe: bool)
    ensures Decide(HasCredentials(local - CheckAuthKeys), rememberMe, settled) == NoSession
  {}
}
