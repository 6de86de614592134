/**
 * The web forum screen (frontend/src/components/Forum.jsx): the channel-name
 * field's normaliser, the initials shown in a post's avatar, the guards in
 * front of a new post and of a selected file, which channel controls a user
 * sees, and how a created post or channel enters the lists on screen.
 *
 * Server calls are parameters: each method is given how its request settles.
 */
module Forum {
  import opened Wrappers
  import opened Text

  /** A channel as the server lists it; is_private is 0 or 1, owner_name may be null. */
  datatype Channel = Channel(id: int, name: string, isPrivate: int, ownerName: Option<string>)

  /** What uploadFile returns for an attachment. */
  datatype FileData = FileData(path: string, fileType: string, name: string)

  datatype Post = Post(id: int, authorName: string, content: string, file: Option<FileData>)

  /** A file picked in the browser; size in bytes. */
  datatype File = File(name: string, size: int)

  /** `x || fallback` on a string. */
  function OrDefault(x: string, fallback: string): string { if x == [] then fallback else x }

  /** `user?.username || authorName`: the name the screen acts under. */
  function CurrentName(user: Option<string>, authorName: string): string {
    if user.Some? && user.value != [] then user.value else authorName
  }

  // ---------------------------------------------------------------- channel names

  /** [a-z0-9-] */
  predicate IsChannelChar(c: char) { IsLower(c) || IsDigit(c) || c == '-' }

  /** The channel-name field: lower-cased, then every character outside [a-z0-9-] removed. */
  function NormalizeChannelName(typed: string): (r: string)
    ensures All(r, IsChannelChar)
    ensures |r| <= |typed|
  {
    Filter(ToLower(typed), IsChannelChar)
  }

  /** Lower-casing leaves a text of channel characters as it is. */
  lemma LowerKeepsChannelChars(s: string)
    requires All(s, IsChannelChar)
    ensures ToLower(s) == s
  {
    assert forall i :: 0 <= i < |s| ==> ToLower(s)[i] == s[i];
  }

  /** Normalising a normalised name changes nothing. */
  lemma NormalizeIdempotent(typed: string)
    ensures NormalizeChannelName(NormalizeChannelName(typed)) == NormalizeChannelName(typed)
  {
    var once := NormalizeChannelName(typed);
    LowerKeepsChannelChars(once);
    FilterIdempotent(ToLower(typed), IsChannelChar);
  }

  /** The names the field leaves untouched are exactly those made of [a-z0-9-]. */
  lemma NormalizeFixedPoints(s: string)
    ensures NormalizeChannelName(s) == s <==> All(s, IsChannelChar)
  {
    if All(s, IsChannelChar) {
      LowerKeepsChannelChars(s);
      FilterAllKept(s, IsChannelChar);
    }
  }

  /** The kept characters are those of the lower-cased input, in their order. */
  lemma NormalizeKeepsOrder(typed: string)
    ensures IsSubsequence(NormalizeChannelName(typed), ToLower(typed))
  {
    FilterIsSubsequence(ToLower(typed), IsChannelChar);
  }

  // ---------------------------------------------------------------- initials

  /** words.map(n => n[0]).join(''): an empty word's n[0] is undefined and joins as nothing. */
  function Heads(words: seq<string>): (r: string)
    ensures |r| <= |words|
    decreases |words|
  {
    if words == [] then []
    else (if words[0] == [] then [] else [words[0][0]]) + Heads(words[1..])
  }

  /** getInitials: the first characters of the space-separated words, upper-cased, at most two. */
  function Initials(name: string): (r: string)
    ensures |r| <= 2
    ensures forall i :: 0 <= i < |r| ==> !IsLower(r[i])
  {
    var u := ToUpper(Heads(Split(name, ' ')));
    if |u| <= 2 then u else u[..2]
  }

  /** A single word gives its upper-cased first character. */
  lemma InitialsOfOneWord(a: string)
    requires a != [] && ' ' !in a
    ensures Initials(a) == [ToUpperChar(a[0])]
  {
    NoSeparatorSingle(a, ' ');
    assert Heads([a]) == [a[0]] + Heads([]);
  }

  /** Two words give their two upper-cased first characters, in order. */
  lemma InitialsOfTwoWords(a: string, b: string)
    requires a != [] && b != [] && ' ' !in a && ' ' !in b
    ensures Initials(a + " " + b) == [ToUpperChar(a[0]), ToUpperChar(b[0])]
  {
    NoSeparatorSingle(b, ' ');
    SplitAtSeparator(a, b, ' ');
    var words := [a] + [b];
    assert Split(a + " " + b, ' ') == words;
    assert words[1..] == [b];
    assert Heads([b]) == [b[0]] + Heads([]);
    assert Heads(words) == [a[0]] + Heads([b]);
  }

  /** A leading space starts an empty word, which contributes nothing. */
  lemma InitialsSkipEmptyWord(s: string)
    ensures Initials(" " + s) == Initials(s)
  {
    SplitAtSeparator([], s, ' ');
    assert [] + [' '] + s == " " + s;
    var words := Split(s, ' ');
    assert ([[]] + words)[1..] == words;
    assert Heads([[]] + words) == Heads(words);
  }

  // ---------------------------------------------------------------- guards

  /** handleCreatePost goes ahead only when both the text and the author name are not blank. */
  predicate SendsPost(content: string, authorName: string) {
    !JsBlank(content) && !JsBlank(authorName)
  }

  /** The Post button is enabled for a non-blank text or a selected file, unless an upload is running. */
  predicate PostButtonEnabled(content: string, hasFile: bool, uploadingFile: bool) {
    (!JsBlank(content) || hasFile) && !uploadingFile
  }

  /** With a file and a blank text the button is enabled, yet the submit handler sends nothing. */
  lemma FileOnlyPostIgnored(content: string, authorName: string)
    requires JsBlank(content)
    ensures PostButtonEnabled(content, true, false) && !SendsPost(content, authorName)
  {}

  /** The largest accepted attachment: 10 MB; exactly 10 MB is still accepted. */
  const MaxFileSize := 10 * 1024 * 1024

  const MsgFileTooLarge := "File size must be less than 10MB"
  const MsgUploadFailed := "Failed to upload file: "
  const MsgPostFailed := "Failed to create post"
  const MsgChannelFailed := "Failed to create channel. Please try again."
  /**
   * With no channel selected, reading selectedChannel.id throws a TypeError
   * that the catch turns into an alert of its message; the text is the
   * browser's (this is the wording of V8-based browsers).
   */
  const MsgNoChannel := "Cannot read properties of null (reading 'id')"

  // ---------------------------------------------------------------- channel controls

  /** The controls a channel's header shows: the owner's three buttons, and a lone invite button. */
  datatype Buttons = Buttons(ownerControls: bool, extraInvite: bool)

  /**
   * The owner's controls show when the channel has no (or an empty) owner or
   * the owner is the current name; the extra invite button shows when the
   * channel is private and its owner is not the current name.
   */
  function ChannelControls(ch: Channel, me: string): (b: Buttons)
    ensures ch.ownerName.None? ==> b.ownerControls && (b.extraInvite <==> ch.isPrivate == 1)
    ensures ch.ownerName == Some(me) ==> b.ownerControls && !b.extraInvite
    ensures ch.ownerName.Some? && ch.ownerName.value != [] && ch.ownerName.value != me ==>
              !b.ownerControls && (b.extraInvite <==> ch.isPrivate == 1)
    ensures ch.isPrivate == 1 ==> b.ownerControls || b.extraInvite
    ensures b.ownerControls && b.extraInvite ==> ch.isPrivate == 1 && (ch.ownerName.None? || ch.ownerName == Some([]))
  {
    Buttons(ch.ownerName.None? || ch.ownerName.value == [] || ch.ownerName.value == me,
            ch.isPrivate == 1 && ch.ownerName != Some(me))
  }

  // ---------------------------------------------------------------- sorting by name

  /** Code-point lexicographic order on names, standing in for localeCompare. */
  predicate NameLe(a: string, b: string)
    decreases |a|
  {
    a == [] || (b != [] && (a[0] < b[0] || (a[0] == b[0] && NameLe(a[1..], b[1..]))))
  }

  lemma {:induction false} NameLeTotal(a: string, b: string)
    ensures NameLe(a, b) || NameLe(b, a)
    decreases |a|
  {
    if a != [] && b != [] && a[0] == b[0] {
      NameLeTotal(a[1..], b[1..]);
    }
  }

  lemma {:induction false} NameLeTransitive(a: string, b: string, c: string)
    requires NameLe(a, b) && NameLe(b, c)
    ensures NameLe(a, c)
    decreases |a|
  {
    if a != [] && a[0] == b[0] && b[0] == c[0] {
      NameLeTransitive(a[1..], b[1..], c[1..]);
    }
  }

  predicate SortedByName(s: seq<Channel>) {
    forall i :: 0 <= i < |s| - 1 ==> NameLe(s[i].name, s[i + 1].name)
  }

  /** Puts c after every entry whose name is not greater, as a stable sort does with the last entry. */
  function Insert(c: Channel, s: seq<Channel>): (r: seq<Channel>)
    ensures |r| == |s| + 1
    ensures r[0] == c || (s != [] && r[0] == s[0])
    decreases |s|
  {
    if s == [] then [c]
    else if !NameLe(s[0].name, c.name) then [c] + s
    else [s[0]] + Insert(c, s[1..])
  }

  /** Array.prototype.sort by name, stable: each entry inserted after the equal ones before it. */
  function SortByName(s: seq<Channel>): seq<Channel>
    decreases |s|
  {
    if s == [] then [] else Insert(s[|s| - 1], SortByName(s[..|s| - 1]))
  }

  lemma {:induction false} InsertSorted(c: Channel, s: seq<Channel>)
    requires SortedByName(s)
    ensures SortedByName(Insert(c, s))
    ensures multiset(Insert(c, s)) == multiset(s) + multiset{c}
    decreases |s|
  {
    if s != [] {
      if !NameLe(s[0].name, c.name) {
        NameLeTotal(s[0].name, c.name);
        assert [c] + s == Insert(c, s);
      } else {
        assert SortedByName(s[1..]);
        InsertSorted(c, s[1..]);
        assert s == [s[0]] + s[1..];
        var r := Insert(c, s);
        assert r == [s[0]] + Insert(c, s[1..]);
        assert r[1..] == Insert(c, s[1..]);
        assert NameLe(s[0].name, r[1].name);
      }
    }
  }

  /** The sorted list is in name order and holds the same channels, each as often. */
  lemma {:induction false} SortByNameSorts(s: seq<Channel>)
    ensures SortedByName(SortByName(s))
    ensures multiset(SortByName(s)) == multiset(s)
    decreases |s|
  {
    if s != [] {
      var init := s[..|s| - 1];
      SortByNameSorts(init);
      InsertSorted(s[|s| - 1], SortByName(init));
      assert init + [s[|s| - 1]] == s;
    }
  }

  /** An entry not smaller than every entry of a sorted list goes to its end. */
  lemma {:induction false} InsertAtEnd(c: Channel, s: seq<Channel>)
    requires SortedByName(s)
    requires s != [] ==> NameLe(s[|s| - 1].name, c.name)
    ensures Insert(c, s) == s + [c]
    decreases |s|
  {
    if s != [] {
      assert SortedByName(s[1..]);
      if |s| > 1 {
        assert s[1..][|s| - 2] == s[|s| - 1];
        InsertAtEnd(c, s[1..]);
        SortedHeadLe(s, |s| - 1);
        NameLeTransitive(s[0].name, s[|s| - 1].name, c.name);
      }
      assert s == [s[0]] + s[1..];
    }
  }

  /** In a sorted list the first name is not greater than any other. */
  lemma {:induction false} SortedHeadLe(s: seq<Channel>, j: nat)
    requires SortedByName(s) && 0 < j < |s|
    ensures NameLe(s[0].name, s[j].name)
    decreases j
  {
    if j > 1 {
      SortedHeadLe(s, j - 1);
      NameLeTransitive(s[0].name, s[j - 1].name, s[j].name);
    }
  }

  /** Sorting a list that is already in name order changes nothing. */
  lemma {:induction false} SortedUnchanged(s: seq<Channel>)
    requires SortedByName(s)
    ensures SortByName(s) == s
    decreases |s|
  {
    if s != [] {
      var init := s[..|s| - 1];
      assert SortedByName(init);
      SortedUnchanged(init);
      if |init| > 0 {
        assert init[|init| - 1] == s[|s| - 2];
      }
      InsertAtEnd(s[|s| - 1], init);
      assert init + [s[|s| - 1]] == s;
    }
  }

  /** Creating a channel in a list already in name order inserts it in place and keeps the rest as they were. */
  lemma CreatedChannelInserted(channels: seq<Channel>, c: Channel)
    requires SortedByName(channels)
    ensures SortByName(channels + [c]) == Insert(c, channels)
  {
    assert (channels + [c])[..|channels|] == channels;
    SortedUnchanged(channels);
  }

  // ---------------------------------------------------------------- the screen

  /** How uploadFile, createPost and createChannel settle. */
  datatype UploadReply = Uploaded(data: FileData) | UploadFailed(message: string)

  datatype PostReply = PostCreated(post: Post) | PostFailed(message: string)

  datatype ChannelReply = ChannelCreated(channel: Channel) | ChannelFailed(message: string)

  /** The bodies of createPost and createChannel. */
  datatype PostRequest = PostRequest(channelId: int, authorName: string, content: string, file: Option<FileData>)

  datatype ChannelRequest = ChannelRequest(name: string, isPrivate: bool, ownerName: string)

  class Board {
    /** user?.username, from the signed-in user. */
    const user: Option<string>
    var channels: seq<Channel>
    var selectedChannel: Option<Channel>
    var posts: seq<Post>
    var newPostContent: string
    var authorName: string
    var selectedFile: Option<File>
    var uploadingFile: bool
    var newChannelName: string
    var newChannelPrivate: bool
    var showCreateChannel: bool

    /** The channel-name field only ever holds [a-z0-9-]. */
    predicate Valid()
      reads this
    {
      All(newChannelName, IsChannelChar)
    }

    constructor(user: Option<string>, authorName: string)
      ensures this.user == user && this.authorName == authorName && Valid()
      ensures channels == [] && selectedChannel == None && posts == []
      ensures newPostContent == [] && selectedFile == None && !uploadingFile
      ensures newChannelName == [] && !newChannelPrivate && !showCreateChannel
    {
      this.user := user;
      this.authorName := authorName;
      channels := [];
      selectedChannel := None;
      posts := [];
      newPostContent := [];
      selectedFile := None;
      uploadingFile := false;
      newChannelName := [];
      newChannelPrivate := false;
      showCreateChannel := false;
    }

    /** Typing in the channel-name field stores the normalised text. */
    method EditChannelName(typed: string)
      modifies this
      ensures newChannelName == NormalizeChannelName(typed) && Valid()
      ensures channels == old(channels) && posts == old(posts) && selectedChannel == old(selectedChannel)
    {
      newChannelName := NormalizeChannelName(typed);
    }

    /** handleFileSelect: a file over 10 MB is refused with an alert and the earlier choice stays. */
    method SelectFile(file: Option<File>) returns (alert: Option<string>)
      modifies this
      ensures file.None? ==> selectedFile == old(selectedFile) && alert == None
      ensures file.Some? && file.value.size > MaxFileSize ==> selectedFile == old(selectedFile) && alert == Some(MsgFileTooLarge)
      ensures file.Some? && file.value.size <= MaxFileSize ==> selectedFile == file && alert == None
      ensures selectedFile.Some? ==> selectedFile == old(selectedFile) || selectedFile.value.size <= MaxFileSize
      ensures posts == old(posts) && newPostContent == old(newPostContent) && uploadingFile == old(uploadingFile)
    {
      alert := None;
      if file.Some? {
        if file.value.size > MaxFileSize {
          alert := Some(MsgFileTooLarge);
          return;
        }
        selectedFile := file;
      }
    }

    /**
     * handleCreatePost: nothing happens unless the text and the author name
     * are both not blank; a selected file is uploaded first and a failed
     * upload drops it; a created post is appended at the end of the list.
     */
    method CreatePost(upload: UploadReply, reply: PostReply) returns (request: Option<PostRequest>, alert: Option<string>)
      modifies this
      ensures !SendsPost(old(newPostContent), old(authorName)) ==>
                request == None && alert == None && posts == old(posts)
                && newPostContent == old(newPostContent) && selectedFile == old(selectedFile)
                && uploadingFile == old(uploadingFile)
      ensures SendsPost(old(newPostContent), old(authorName)) && old(selectedFile).Some? && upload.UploadFailed? ==>
                request == None && alert == Some(MsgUploadFailed + upload.message) && posts == old(posts)
                && newPostContent == old(newPostContent) && selectedFile == None && !uploadingFile
      ensures request.Some? <==>
                SendsPost(old(newPostContent), old(authorName)) && (old(selectedFile).None? || upload.Uploaded?)
                && old(selectedChannel).Some?
      ensures SendsPost(old(newPostContent), old(authorName)) && (old(selectedFile).None? || upload.Uploaded?)
              && old(selectedChannel).None? ==>
                alert == Some(MsgNoChannel) && posts == old(posts) && newPostContent == old(newPostContent)
                && selectedFile == old(selectedFile)
      ensures request.Some? ==>
                request.value == PostRequest(old(selectedChannel).value.id, old(authorName), old(newPostContent),
                                             if old(selectedFile).Some? then Some(upload.data) else None)
      ensures request.Some? && reply.PostCreated? ==>
                posts == old(posts) + [reply.post] && newPostContent == [] && selectedFile == None && alert == None
      ensures request.Some? && reply.PostFailed? ==>
                posts == old(posts) && newPostContent == old(newPostContent) && selectedFile == old(selectedFile)
                && alert == Some(OrDefault(reply.message, MsgPostFailed))
      ensures request.Some? && old(selectedFile).Some? ==> !uploadingFile
      ensures authorName == old(authorName) && channels == old(channels) && selectedChannel == old(selectedChannel)
      ensures newChannelName == old(newChannelName)
    {
      request := None;
      alert := None;
      if JsBlank(newPostContent) || JsBlank(authorName) {
        return;
      }
      var fileData: Option<FileData> := None;
      if selectedFile.Some? {
        uploadingFile := true;
        match upload {
          case UploadFailed(m) =>
            alert := Some(MsgUploadFailed + m);
            uploadingFile := false;
            selectedFile := None;
            return;
          case Uploaded(data) =>
            fileData := Some(data);
        }
        uploadingFile := false;
      }
      if selectedChannel.None? {
        alert := Some(MsgNoChannel);
        return;
      }
      request := Some(PostRequest(selectedChannel.value.id, authorName, newPostContent, fileData));
      match reply {
        case PostCreated(p) =>
          posts := posts + [p];
          newPostContent := [];
          selectedFile := None;
        case PostFailed(m) =>
          alert := Some(OrDefault(m, MsgPostFailed));
      }
    }

    /**
     * handleCreateChannel: a blank name sends nothing; a created channel is
     * added, the list re-sorted by name, the channel selected and the form
     * reset.
     */
    method CreateChannel(reply: ChannelReply) returns (request: Option<ChannelRequest>, alert: Option<string>)
      requires Valid()
      modifies this
      ensures request.Some? <==> !JsBlank(old(newChannelName))
      ensures request.None? ==>
                alert == None && channels == old(channels) && selectedChannel == old(selectedChannel)
                && newChannelName == old(newChannelName) && showCreateChannel == old(showCreateChannel)
      ensures request.Some? ==>
                request.value == ChannelRequest(old(newChannelName), old(newChannelPrivate), CurrentName(user, old(authorName)))
      ensures request.Some? && reply.ChannelCreated? ==>
                channels == SortByName(old(channels) + [reply.channel]) && selectedChannel == Some(reply.channel)
                && newChannelName == [] && !newChannelPrivate && !showCreateChannel && alert == None
      ensures request.Some? && reply.ChannelFailed? ==>
                channels == old(channels) && selectedChannel == old(selectedChannel)
                && newChannelName == old(newChannelName) && alert == Some(OrDefault(reply.message, MsgChannelFailed))
      ensures Valid()
      ensures posts == old(posts) && authorName == old(authorName) && selectedFile == old(selectedFile)
    {
      request := None;
      alert := None;
      if JsBlank(newChannelName) {
        return;
      }
      request := Some(ChannelRequest(newChannelName, newChannelPrivate, CurrentName(user, authorName)));
      alert := ApplyChannelReply(reply);
    }

    /** The try/catch of handleCreateChannel once the request went out. */
    method ApplyChannelReply(reply: ChannelReply) returns (alert: Option<string>)
      requires Valid()
      modifies this
      ensures reply.ChannelCreated? ==>
                channels == SortByName(old(channels) + [reply.channel]) && selectedChannel == Some(reply.channel)
                && newChannelName == [] && !newChannelPrivate && !showCreateChannel && alert == None
      ensures reply.ChannelFailed? ==>
                channels == old(channels) && selectedChannel == old(selectedChannel)
                && newChannelName == old(newChannelName) && alert == Some(OrDefault(reply.message, MsgChannelFailed))
      ensures Valid()
      ensures posts == old(posts) && authorName == old(authorName) && selectedFile == old(selectedFile)
    {
      alert := None;
      match reply {
        case ChannelCreated(c) =>
          channels := SortByName(channels + [c]);
          selectedChannel := Some(c);
          newChannelName := [];
          newChannelPrivate := false;
          showCreateChannel := false;
        case ChannelFailed(m) =>
          alert := Some(OrDefault(m, MsgChannelFailed));
      }
    }
  }

  /** After a channel is created the list is in name order and holds the old channels plus the new one. */
  lemma CreatedChannelList(channels: seq<Channel>, c: Channel)
    ensures SortedByName(SortByName(channels + [c]))
    ensures multiset(SortByName(channels + [c])) == multiset(channels) + multiset{c}
  {
    SortByNameSorts(channels + [c]);
  }
}
