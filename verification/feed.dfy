/**
 The posts feed component: the records it shows, the state it keeps between
 events, the submit transition and the list it renders.
 */
module Feed {
  import opened Wrappers
  import opened LinkPattern
  import LinkExtractor

  /** The ordering token of a post: assigned by the store at write time, or the
      server-timestamp placeholder a locally built record carries. */
  datatype Stamp = Assigned(order: int) | Pending

  /** A post record. Records read from the store carry the author's uid; the
      copy the feed prepends after a submit has none. */
  datatype Post = Post(
    text: string,
    imageUrl: string,
    youtubeLink: string,
    userId: Option<string>,
    userName: string,
    timestamp: Stamp)

  /** The signed-in user as the session provider exposes it. */
  datatype User = User(uid: string, displayName: string)

  /** The component's state: the list on screen, the three draft fields of
      the form and the in-flight flag. */
  datatype FeedState = FeedState(
    posts: seq<Post>,
    newPostText: string,
    imageUrl: string,
    youtubeLink: string,
    uploading: bool)

  /** A stored video link is empty or a bare id, never a raw address. */
  predicate WellFormedLink(link: string) {
    link == "" || IsVideoId(link)
  }

  /** The state at first render, before the initial read completes. */
  const Initial := FeedState([], "", "", "", false)

  /** The initial read completing: the list becomes the records the store
      returned (newest first, by the store's ordering); the drafts stay. */
  function Loaded(st: FeedState, fetched: seq<Post>): (st': FeedState)
    ensures st'.posts == fetched
    ensures st'.newPostText == st.newPostText && st'.imageUrl == st.imageUrl
    ensures st'.youtubeLink == st.youtubeLink && st'.uploading == st.uploading
  {
    st.(posts := fetched)
  }

  /** What one submission produced: the record handed to the store, if the
      call was reached, and the state once the attempt settled. */
  datatype Submission = Submission(written: Option<Post>, next: FeedState)

  /** `createPost` as one transition. The link draft is reduced to its id
      before anything is written. Without a user, reading its uid throws
      before the store is called, and the catch swallows that like a failed
      write. On success the feed prepends its own copy of the record and
      clears the drafts; in every case the in-flight flag ends lowered. */
  function Submit(st: FeedState, currentUser: Option<User>, writeSucceeds: bool): (r: Submission)
    ensures r.written.Some? <==> currentUser.Some?
    ensures currentUser.Some? ==>
      var rec := r.written.value;
      && rec.text == st.newPostText
      && rec.imageUrl == st.imageUrl
      && rec.youtubeLink == LinkExtractor.Extract(st.youtubeLink)
      && rec.userId == Some(currentUser.value.uid)
      && rec.userName == currentUser.value.displayName
      && rec.timestamp == Pending
    ensures r.written.Some? ==> WellFormedLink(r.written.value.youtubeLink)
    ensures currentUser.Some? && writeSucceeds ==>
      && |r.next.posts| == |st.posts| + 1
      && r.next.posts[0] == r.written.value.(userId := None)
      && r.next.posts[1..] == st.posts
      && r.next.newPostText == "" && r.next.imageUrl == "" && r.next.youtubeLink == ""
    ensures !(currentUser.Some? && writeSucceeds) ==> r.next == st.(uploading := false)
    ensures !r.next.uploading
  {
    var link := LinkExtractor.Extract(st.youtubeLink);
    match currentUser
    case None => Submission(None, st.(uploading := false))
    case Some(user) =>
      var rec := Post(st.newPostText, st.imageUrl, link, Some(user.uid), user.displayName, Pending);
      if writeSucceeds then
        var entry := Post(st.newPostText, st.imageUrl, link, None, user.displayName, Pending);
        Submission(Some(rec), FeedState([entry] + st.posts, "", "", "", false))
      else
        Submission(Some(rec), st.(uploading := false))
  }

  /** An event the component reacts to once the initial read is in: an edit
      of one of the three form fields, or a submission of the form. */
  datatype Event =
    | EditText(text: string)
    | EditImageUrl(url: string)
    | EditYouTubeLink(link: string)
    | SubmitForm(currentUser: Option<User>, writeSucceeds: bool)

  /** One event: an edit stores the field's new value as typed (the link
      draft stays raw until a submission) and touches nothing else. */
  function Step(st: FeedState, e: Event): (st': FeedState)
    ensures !e.SubmitForm? ==> st'.posts == st.posts && st'.uploading == st.uploading
    ensures e.EditText? ==>
      st'.newPostText == e.text && st'.imageUrl == st.imageUrl && st'.youtubeLink == st.youtubeLink
    ensures e.EditImageUrl? ==>
      st'.imageUrl == e.url && st'.newPostText == st.newPostText && st'.youtubeLink == st.youtubeLink
    ensures e.EditYouTubeLink? ==>
      st'.youtubeLink == e.link && st'.newPostText == st.newPostText && st'.imageUrl == st.imageUrl
    ensures e.SubmitForm? ==> st' == Submit(st, e.currentUser, e.writeSucceeds).next
  {
    match e
    case EditText(text) => st.(newPostText := text)
    case EditImageUrl(url) => st.(imageUrl := url)
    case EditYouTubeLink(link) => st.(youtubeLink := link)
    case SubmitForm(user, ok) => Submit(st, user, ok).next
  }

  function Run(st: FeedState, events: seq<Event>): FeedState
    decreases |events|
  {
    if events == [] then st else Run(Step(st, events[0]), events[1..])
  }

  /** The events that put a new post on screen: a submission by a signed-in
      user whose write succeeded. */
  predicate Publishes(e: Event) {
    e.SubmitForm? && e.currentUser.Some? && e.writeSucceeds
  }

  function Published(events: seq<Event>): (n: nat)
    ensures n <= |events|
  {
    if events == [] then 0
    else (if Publishes(events[0]) then 1 else 0) + Published(events[1..])
  }

  /** The base address of the embedded player. */
  const EmbedBase := "https://www.youtube.com/embed/"

  /** One entry of the rendered list: author, text, and the image and player
      shown only when the post has them. */
  datatype Card = Card(author: string, text: string, image: Option<string>, embed: Option<string>)

  function RenderPost(p: Post): (c: Card)
    ensures c.author == p.userName && c.text == p.text
    ensures c.image.Some? <==> p.imageUrl != ""
    ensures c.image.Some? ==> c.image.value == p.imageUrl
    ensures c.embed.Some? <==> p.youtubeLink != ""
    ensures c.embed.Some? ==> c.embed.value == EmbedBase + p.youtubeLink
  {
    Card(
      p.userName,
      p.text,
      if p.imageUrl != "" then Some(p.imageUrl) else None,
      if p.youtubeLink != "" then Some(EmbedBase + p.youtubeLink) else None)
  }

  /** The rendered list: one card per post, in list order. */
  function Render(posts: seq<Post>): (cards: seq<Card>)
    ensures |cards| == |posts|
    ensures forall i :: 0 <= i < |posts| ==> cards[i] == RenderPost(posts[i])
  {
    seq(|posts|, i requires 0 <= i < |posts| => RenderPost(posts[i]))
  }
}
