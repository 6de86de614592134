/**
 * The notification bell of both clients
 * (baby-sleep-native-fixed/src/components/Notifications.tsx and
 * frontend/src/components/Notifications.jsx): the badge count, the relative
 * time labels, and the state the handlers replace through setNotifications
 * together with the last-check time. The server calls and the clock are
 * parameters: each handler is given how its request settled and the current
 * time in milliseconds.
 */
module Notifications {
  import opened Wrappers
  import L = Lists

  datatype Post = Post(id: int, notificationId: Option<int>)
  datatype Sender = Sender(name: string, unreadCount: Option<int>)
  datatype Invite = Invite(id: int)
  datatype FriendRequest = FriendRequest(fromUser: string)

  /** The native client's notification state. */
  datatype Feed = Feed(posts: seq<Post>, newMessages: int, senders: seq<Sender>,
                       friendRequests: seq<FriendRequest>, channelInvites: seq<Invite>,
                       inviteApprovals: seq<Invite>)

  const EmptyFeed := Feed([], 0, [], [], [], [])

  /** What getNotifications answers; any field may be missing. */
  datatype FeedData = FeedData(posts: Option<seq<Post>>, newMessages: Option<int>,
                               senders: Option<seq<Sender>>, friendRequests: Option<seq<FriendRequest>>,
                               channelInvites: Option<seq<Invite>>, inviteApprovals: Option<seq<Invite>>)

  /** A poll either settles with a value (None for a falsy one) or throws. */
  datatype FetchReply = Fetched(data: Option<FeedData>) | FetchFailed

  /** The body of a mark-read request. */
  datatype MarkRequest = NotificationIds(ids: seq<int>) | PostIds(ids: seq<int>) | MarkAll

  datatype Route = ForumTab | FriendsTab

  datatype Alert = Alert(title: string, message: string)

  /** How respondToInvite or approveInvite settles: a result with an optional message, or an error. */
  datatype InviteReply = Answered(message: Option<string>) | Refused(reason: string)

  const MsgInviteFailed := "Failed to update invite"

  /** `x || []` for a list field. */
  function OrEmpty<T>(x: Option<seq<T>>): seq<T> { if x.Some? then x.value else [] }

  /** `x || 0` for a number. */
  function OrZero(x: Option<int>): int { if x.Some? then x.value else 0 }

  /** A number field is truthy when present and not 0. */
  predicate TruthyId(x: Option<int>) { x.Some? && x.value != 0 }

  /** A string field is truthy when present and not empty. */
  predicate TruthyText(x: Option<string>) { x.Some? && x.value != [] }

  /** The native totalCount: every list's length plus the unread message count. */
  function TotalCount(f: Feed): int {
    |f.posts| + f.newMessages + |f.friendRequests| + |f.channelInvites| + |f.inviteApprovals|
  }

  /** What the badge shows: nothing for a count of 0 or less, the count, or "99+". */
  datatype Badge = NoBadge | Count(n: int) | Capped

  function BadgeFor(total: int): (b: Badge)
    ensures b.NoBadge? <==> total <= 0
    ensures b.Capped? <==> total > 99
    ensures b.Count? ==> b.n == total && 1 <= b.n <= 99
  {
    if total <= 0 then NoBadge else if total > 99 then Capped else Count(total)
  }

  const MsPerMinute := 60000
  const MsPerHour := 3600000
  const MsPerDay := 86400000

  /** The label formatTime produces; OnDate stands for the locale date of the timestamp. */
  datatype Age = JustNow | MinutesAgo(minutes: int) | HoursAgo(hours: int) | DaysAgo(days: int) | OnDate(timestamp: int)

  /**
   * formatTime: the elapsed time in whole minutes, hours or days (Math.floor
   * of a division by a positive constant, which Dafny's `/` computes), and
   * the date itself from a week on. A timestamp in the future is "just now".
   */
  function FormatTime(timestamp: int, now: int): (a: Age)
    ensures a.JustNow? <==> now - timestamp < MsPerMinute
    ensures a.MinutesAgo? ==>
              1 <= a.minutes < 60 && a.minutes * MsPerMinute <= now - timestamp < (a.minutes + 1) * MsPerMinute
    ensures a.HoursAgo? ==>
              1 <= a.hours < 24 && a.hours * MsPerHour <= now - timestamp < (a.hours + 1) * MsPerHour
    ensures a.DaysAgo? ==>
              1 <= a.days < 7 && a.days * MsPerDay <= now - timestamp < (a.days + 1) * MsPerDay
    ensures a.OnDate? <==> now - timestamp >= 7 * MsPerDay
    ensures a.OnDate? ==> a.timestamp == timestamp
  {
    var diff := now - timestamp;
    var mins := diff / MsPerMinute;
    var hours := diff / MsPerHour;
    var days := diff / MsPerDay;
    if mins < 1 then JustNow
    else if mins < 60 then MinutesAgo(mins)
    else if hours < 24 then HoursAgo(hours)
    else if days < 7 then DaysAgo(days)
    else OnDate(timestamp)
  }

  /** The minute, hour and day buckets follow one another: a later "now" never gives a smaller unit. */
  lemma FormatTimeOrdered(timestamp: int, now1: int, now2: int)
    requires now1 <= now2
    ensures FormatTime(timestamp, now2).JustNow? ==> FormatTime(timestamp, now1).JustNow?
    ensures FormatTime(timestamp, now1).OnDate? ==> FormatTime(timestamp, now2).OnDate?
    ensures FormatTime(timestamp, now1).DaysAgo? ==> FormatTime(timestamp, now2).DaysAgo? || FormatTime(timestamp, now2).OnDate?
  {}

  /** A poll's answer with every missing field defaulted. */
  function FromData(d: FeedData): Feed {
    Feed(OrEmpty(d.posts), OrZero(d.newMessages), OrEmpty(d.senders), OrEmpty(d.friendRequests),
         OrEmpty(d.channelInvites), OrEmpty(d.inviteApprovals))
  }

  /** The state after a poll: a truthy answer replaces every field, anything else keeps the state. */
  function Polled(f: Feed, reply: FetchReply): Feed {
    if reply.Fetched? && reply.data.Some? then FromData(reply.data.value) else f
  }

  /** Polling an answer that carries every field replaces the state by exactly that answer. */
  lemma PollReplacesEverything(f: Feed, g: Feed)
    ensures var d := FeedData(Some(g.posts), Some(g.newMessages), Some(g.senders), Some(g.friendRequests),
                              Some(g.channelInvites), Some(g.inviteApprovals));
            Polled(f, Fetched(Some(d))) == g
  {}

  /** A missing field becomes empty (or 0) whatever the state held before. */
  lemma PollDefaultsMissing(f: Feed, d: FeedData)
    requires d.posts.None? && d.newMessages.None? && d.friendRequests.None?
             && d.channelInvites.None? && d.inviteApprovals.None?
    ensures TotalCount(Polled(f, Fetched(Some(d)))) == 0
  {}

  function NotPost(id: int): Post -> bool { (p: Post) => p.id != id }
  function IsPost(id: int): Post -> bool { (p: Post) => p.id == id }
  function NotInvite(id: int): Invite -> bool { (i: Invite) => i.id != id }
  function NotSender(name: string): Sender -> bool { (s: Sender) => s.name != name }
  function IsSender(name: string): Sender -> bool { (s: Sender) => s.name == name }

  /** The mark-read body for a clicked post: its notification id when truthy, otherwise its own id. */
  function MarkFor(post: Post): (m: MarkRequest)
    ensures m.NotificationIds? <==> TruthyId(post.notificationId)
    ensures m.NotificationIds? ==> m.ids == [post.notificationId.value]
    ensures m.PostIds? ==> m.ids == [post.id]
    ensures !m.MarkAll?
  {
    if TruthyId(post.notificationId) then NotificationIds([post.notificationId.value]) else PostIds([post.id])
  }

  /** The reduce over the remaining senders: the sum of their unread counts, a missing one counting 0. */
  function UnreadTotal(s: seq<Sender>): int
    decreases |s|
  {
    if s == [] then 0 else OrZero(s[0].unreadCount) + UnreadTotal(s[1..])
  }

  /** Splitting the senders by a predicate and its complement splits their unread total. */
  lemma {:induction false} UnreadTotalSplit(s: seq<Sender>, keep: Sender -> bool, drop: Sender -> bool)
    requires forall x :: drop(x) == !keep(x)
    ensures UnreadTotal(s) == UnreadTotal(L.Keep(s, keep)) + UnreadTotal(L.Keep(s, drop))
    decreases |s|
  {
    if s != [] {
      UnreadTotalSplit(s[1..], keep, drop);
    }
  }

  /** filter((_, i) => i !== index): exactly the entry at index goes, when there is one. */
  function RemoveIndex<T>(s: seq<T>, index: int): (r: seq<T>)
    ensures 0 <= index < |s| ==> |r| == |s| - 1
    ensures 0 <= index < |s| ==> forall i :: 0 <= i < |r| ==> r[i] == if i < index then s[i] else s[i + 1]
    ensures !(0 <= index < |s|) ==> r == s
  {
    if 0 <= index < |s| then s[..index] + s[index + 1..] else s
  }

  /** A post click lowers the total by the number of entries with that post id, and by nothing else. */
  lemma PostClickCount(f: Feed, id: int)
    ensures TotalCount(f.(posts := L.Keep(f.posts, NotPost(id)))) + |L.Keep(f.posts, IsPost(id))| == TotalCount(f)
  {
    L.KeepPartition(f.posts, NotPost(id), IsPost(id));
  }

  /**
   * When the unread count agreed with the senders, clicking a sender lowers
   * it by exactly that sender's unread messages.
   */
  lemma SenderClickCount(f: Feed, name: string)
    requires f.newMessages == UnreadTotal(f.senders)
    ensures UnreadTotal(L.Keep(f.senders, NotSender(name)))
            == f.newMessages - UnreadTotal(L.Keep(f.senders, IsSender(name)))
  {
    UnreadTotalSplit(f.senders, NotSender(name), IsSender(name));
  }

  /** Answering an invite drops every entry with its id and keeps every other entry as often as it occurred. */
  lemma AnswerKeepsOtherInvites(s: seq<Invite>, id: int, x: Invite)
    ensures x.id == id ==> multiset(L.Keep(s, NotInvite(id)))[x] == 0
    ensures x.id != id ==> multiset(L.Keep(s, NotInvite(id)))[x] == multiset(s)[x]
  {
    L.KeepCounts(s, NotInvite(id), x);
  }

  /** A friend-request click removes one entry, so the total drops by exactly one. */
  lemma FriendRequestClickCount(f: Feed, index: int)
    requires 0 <= index < |f.friendRequests|
    ensures TotalCount(f.(friendRequests := RemoveIndex(f.friendRequests, index))) == TotalCount(f) - 1
  {}

  /** The native notification bell for the signed-in user. */
  class Panel {
    const user: Option<string>
    var feed: Feed
    var showDropdown: bool
    var lastCheck: int

    constructor(user: Option<string>, now: int)
      ensures this.user == user && feed == EmptyFeed && !showDropdown && lastCheck == now
    {
      this.user := user;
      feed := EmptyFeed;
      showDropdown := false;
      lastCheck := now;
    }

    /** `user?.username` is truthy. */
    predicate SignedIn() { user.Some? && user.value != [] }

    /** checkNotifications: a truthy answer replaces the state and advances the last check; a failure changes nothing. */
    method Poll(reply: FetchReply, now: int)
      modifies this
      ensures feed == if SignedIn() then Polled(old(feed), reply) else old(feed)
      ensures lastCheck == if SignedIn() && reply.Fetched? && reply.data.Some? then now else old(lastCheck)
      ensures showDropdown == old(showDropdown)
    {
      if !SignedIn() {
        return;
      }
      match reply {
        case Fetched(data) =>
          if data.Some? {
            feed := FromData(data.value);
            lastCheck := now;
          }
        case FetchFailed =>
      }
    }

    /**
     * handleRecipientInviteAction: after the server accepted the answer the
     * invite leaves channel_invites (and no other list), the state is polled
     * again, and an accepted invite opens the forum; a refused call only
     * alerts.
     */
    method RespondToInvite(invite: Invite, accept: bool, reply: InviteReply, refresh: FetchReply, now: int)
      returns (alert: Option<Alert>, nav: Option<Route>)
      modifies this
      ensures !SignedIn() ==> feed == old(feed) && alert.None? && nav.None? && lastCheck == old(lastCheck)
      ensures SignedIn() && reply.Answered? ==>
                feed == Polled(old(feed).(channelInvites := L.Keep(old(feed).channelInvites, NotInvite(invite.id))), refresh)
                && lastCheck == (if refresh.Fetched? && refresh.data.Some? then now else old(lastCheck))
                && nav == (if accept then Some(ForumTab) else None)
                && alert == (if TruthyText(reply.message) then Some(Alert("Success", reply.message.value)) else None)
      ensures SignedIn() && reply.Refused? ==>
                feed == old(feed) && nav.None? && lastCheck == old(lastCheck)
                && alert == Some(Alert("Error", if reply.reason == [] then MsgInviteFailed else reply.reason))
      ensures nav.Some? ==> !showDropdown
      ensures nav.None? ==> showDropdown == old(showDropdown)
    {
      alert, nav := None, None;
      if !SignedIn() {
        return;
      }
      match reply {
        case Answered(message) =>
          feed := feed.(channelInvites := L.Keep(feed.channelInvites, NotInvite(invite.id)));
          Poll(refresh, now);
          if accept {
            nav := Some(ForumTab);
            showDropdown := false;
          }
          if TruthyText(message) {
            alert := Some(Alert("Success", message.value));
          }
        case Refused(message) =>
          alert := Some(Alert("Error", if message == [] then MsgInviteFailed else message));
      }
    }

    /** handleOwnerInviteAction: as for an invite, on invite_approvals, and it never navigates. */
    method ApproveInvite(invite: Invite, reply: InviteReply, refresh: FetchReply, now: int)
      returns (alert: Option<Alert>)
      modifies this
      ensures !SignedIn() ==> feed == old(feed) && alert.None? && lastCheck == old(lastCheck)
      ensures SignedIn() && reply.Answered? ==>
                feed == Polled(old(feed).(inviteApprovals := L.Keep(old(feed).inviteApprovals, NotInvite(invite.id))), refresh)
                && lastCheck == (if refresh.Fetched? && refresh.data.Some? then now else old(lastCheck))
                && alert == (if TruthyText(reply.message) then Some(Alert("Success", reply.message.value)) else None)
      ensures SignedIn() && reply.Refused? ==>
                feed == old(feed) && lastCheck == old(lastCheck)
                && alert == Some(Alert("Error", if reply.reason == [] then MsgInviteFailed else reply.reason))
      ensures showDropdown == old(showDropdown)
    {
      alert := None;
      if !SignedIn() {
        return;
      }
      match reply {
        case Answered(message) =>
          feed := feed.(inviteApprovals := L.Keep(feed.inviteApprovals, NotInvite(invite.id)));
          Poll(refresh, now);
          if TruthyText(message) {
            alert := Some(Alert("Success", message.value));
          }
        case Refused(message) =>
          alert := Some(Alert("Error", if message == [] then MsgInviteFailed else message));
      }
    }

    /** handleClearAll: everything is emptied locally and, for a signed-in user, marked read on the server. */
    method ClearAll(now: int) returns (mark: Option<MarkRequest>)
      modifies this
      ensures feed == EmptyFeed && TotalCount(feed) == 0 && lastCheck == now
      ensures mark == if SignedIn() then Some(MarkAll) else None
      ensures showDropdown == old(showDropdown)
    {
      feed := EmptyFeed;
      lastCheck := now;
      mark := if SignedIn() then Some(MarkAll) else None;
    }

    /** handlePostClick: the post leaves new_posts, nothing else changes, and the forum opens. */
    method PostClick(post: Post, now: int) returns (mark: Option<MarkRequest>, nav: Route)
      modifies this
      ensures feed == old(feed).(posts := L.Keep(old(feed).posts, NotPost(post.id)))
      ensures mark == if SignedIn() then Some(MarkFor(post)) else None
      ensures nav == ForumTab && !showDropdown && lastCheck == now
    {
      lastCheck := now;
      feed := feed.(posts := L.Keep(feed.posts, NotPost(post.id)));
      mark := if SignedIn() then Some(MarkFor(post)) else None;
      nav := ForumTab;
      showDropdown := false;
    }

    /**
     * handleMessageClick: with a sender, that sender's entries go and the
     * unread count becomes the total of the remaining senders; without one,
     * the count becomes 0 and the senders stay.
     */
    method MessageClick(sender: Option<Sender>, now: int) returns (nav: Route)
      modifies this
      ensures sender.Some? ==>
                var rest := L.Keep(old(feed).senders, NotSender(sender.value.name));
                feed == old(feed).(senders := rest, newMessages := UnreadTotal(rest))
      ensures sender.None? ==> feed == old(feed).(newMessages := 0)
      ensures nav == FriendsTab && !showDropdown && lastCheck == now
    {
      lastCheck := now;
      if sender.Some? {
        var rest := L.Keep(feed.senders, NotSender(sender.value.name));
        feed := feed.(senders := rest, newMessages := UnreadTotal(rest));
      } else {
        feed := feed.(newMessages := 0);
      }
      nav := FriendsTab;
      showDropdown := false;
    }

    /** handleFriendRequestClick: exactly the clicked index leaves the friend requests. */
    method FriendRequestClick(index: int, now: int) returns (nav: Route)
      modifies this
      ensures feed == old(feed).(friendRequests := RemoveIndex(old(feed).friendRequests, index))
      ensures nav == FriendsTab && !showDropdown && lastCheck == now
    {
      lastCheck := now;
      feed := feed.(friendRequests := RemoveIndex(feed.friendRequests, index));
      nav := FriendsTab;
      showDropdown := false;
    }
  }

  /** The web client's notification state. */
  datatype WebFeed = WebFeed(posts: seq<Post>, newMessages: int, friendRequests: seq<FriendRequest>)

  const EmptyWebFeed := WebFeed([], 0, [])

  /** The web totalCount: posts, unread messages and friend requests only. */
  function WebTotalCount(f: WebFeed): int { |f.posts| + f.newMessages + |f.friendRequests| }

  /** The web poll keeps three fields of the answer. */
  function WebPolled(f: WebFeed, reply: FetchReply): WebFeed {
    if reply.Fetched? && reply.data.Some? then
      var d := reply.data.value;
      WebFeed(OrEmpty(d.posts), OrZero(d.newMessages), OrEmpty(d.friendRequests))
    else f
  }

  /** The web count never sees channel invites or approvals, which the native count adds. */
  lemma WebCountIgnoresInvites(f: WebFeed, d: FeedData)
    ensures var n := FromData(d);
            WebTotalCount(WebPolled(f, Fetched(Some(d))))
            == TotalCount(n) - |n.channelInvites| - |n.inviteApprovals|
  {}

  /** The web notification bell. */
  class WebPanel {
    const user: Option<string>
    var feed: WebFeed
    var showDropdown: bool
    var lastCheck: int

    constructor(user: Option<string>, now: int)
      ensures this.user == user && feed == EmptyWebFeed && !showDropdown && lastCheck == now
    {
      this.user := user;
      feed := EmptyWebFeed;
      showDropdown := false;
      lastCheck := now;
    }

    predicate SignedIn() { user.Some? && user.value != [] }

    /** checkNotifications: only a truthy answer replaces the three fields and advances the last check. */
    method Poll(reply: FetchReply, now: int)
      modifies this
      ensures feed == if SignedIn() then WebPolled(old(feed), reply) else old(feed)
      ensures lastCheck == if SignedIn() && reply.Fetched? && reply.data.Some? then now else old(lastCheck)
      ensures showDropdown == old(showDropdown)
    {
      if SignedIn() && reply.Fetched? && reply.data.Some? {
        var d := reply.data.value;
        feed := WebFeed(OrEmpty(d.posts), OrZero(d.newMessages), OrEmpty(d.friendRequests));
        lastCheck := now;
      }
    }

    /** The "Clear all" button: the three fields are emptied and the last check advances, with no request. */
    method ClearAll(now: int)
      modifies this
      ensures feed == EmptyWebFeed && WebTotalCount(feed) == 0 && lastCheck == now
      ensures showDropdown == old(showDropdown)
    {
      feed := EmptyWebFeed;
      lastCheck := now;
    }
  }
}
