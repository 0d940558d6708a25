/**
 Properties of the feed across events: the list only ever grows at the front,
 every stored video link stays a bare id, and what is rendered follows the
 list and re-extracts to the id the user submitted.
 */
module FeedProperties {
  import opened Wrappers
  import opened LinkPattern
  import LinkExtractor
  import ExtractorProperties
  import opened Feed

  /** A post the feed built itself after a submit, not one read from the store. */
  predicate LocalCopy(p: Post) {
    p.userId.None? && p.timestamp == Pending
  }

  predicate AllLinksWellFormed(posts: seq<Post>) {
    forall i :: 0 <= i < |posts| ==> WellFormedLink(posts[i].youtubeLink)
  }

  /** Between events no write is in flight, and every link on screen is empty or an id. */
  predicate Settled(st: FeedState) {
    !st.uploading && AllLinksWellFormed(st.posts)
  }

  /** Posts are never edited, removed or reordered: each published submission
      puts one locally built copy in front of the list, and nothing else
      touches it. */
  lemma {:induction false} RunOnlyPrepends(st: FeedState, events: seq<Event>)
    decreases |events|
    ensures |Run(st, events).posts| == |st.posts| + Published(events)
    ensures Run(st, events).posts[Published(events)..] == st.posts
    ensures forall i :: 0 <= i < Published(events) ==> LocalCopy(Run(st, events).posts[i])
  {
    if events != [] {
      var st1 := Step(st, events[0]);
      RunOnlyPrepends(st1, events[1..]);
      var n := Published(events[1..]);
      var posts := Run(st, events).posts;
      assert posts == Run(st1, events[1..]).posts;
      if Publishes(events[0]) {
        assert Published(events) == n + 1;
        assert posts[n..] == st1.posts;
        assert posts[n + 1..] == posts[n..][1..];
        assert LocalCopy(posts[n]) by {
          assert posts[n] == posts[n..][0];
        }
      } else {
        assert Published(events) == n;
        assert st1.posts == st.posts;
      }
    }
  }

  lemma SubmitKeepsSettled(st: FeedState, currentUser: Option<User>, writeSucceeds: bool)
    requires AllLinksWellFormed(st.posts)
    ensures Settled(Submit(st, currentUser, writeSucceeds).next)
  {
    var next := Submit(st, currentUser, writeSucceeds).next;
    if currentUser.Some? && writeSucceeds {
      forall i | 0 <= i < |next.posts|
        ensures WellFormedLink(next.posts[i].youtubeLink)
      {
        if i > 0 {
          assert next.posts[i] == next.posts[1..][i - 1];
        }
      }
    }
  }

  /** Whatever the users type and however the writes turn out, a settled feed stays settled. */
  lemma {:induction false} RunKeepsSettled(st: FeedState, events: seq<Event>)
    requires Settled(st)
    decreases |events|
    ensures Settled(Run(st, events))
  {
    if events != [] {
      var e := events[0];
      if e.SubmitForm? {
        SubmitKeepsSettled(st, e.currentUser, e.writeSucceeds);
      }
      RunKeepsSettled(Step(st, e), events[1..]);
    }
  }

  /** Once the initial read is in, the screen shows one card per fetched
      record, in the order the store returned them. */
  lemma LoadedRender(st: FeedState, fetched: seq<Post>)
    ensures var cards := Render(Loaded(st, fetched).posts);
      && |cards| == |fetched|
      && forall i :: 0 <= i < |fetched| ==> cards[i] == RenderPost(fetched[i])
  {
  }

  /** A session: the initial read brings in records whose links are empty or
      ids, then any edits and submissions follow. The feed stays settled, and
      the fetched records stay at the bottom of the list, below one local
      copy per published submission. */
  lemma SessionAfterLoad(fetched: seq<Post>, events: seq<Event>)
    requires AllLinksWellFormed(fetched)
    ensures Settled(Loaded(Initial, fetched))
    ensures var end := Run(Loaded(Initial, fetched), events);
      && Settled(end)
      && |end.posts| == |fetched| + Published(events)
      && end.posts[Published(events)..] == fetched
      && forall i :: 0 <= i < Published(events) ==> LocalCopy(end.posts[i])
  {
    var st := Loaded(Initial, fetched);
    RunKeepsSettled(st, events);
    RunOnlyPrepends(st, events);
  }

  /** Rendering commutes with putting a post in front of the list. */
  lemma RenderPrepend(p: Post, posts: seq<Post>)
    ensures Render([p] + posts) == [RenderPost(p)] + Render(posts)
  {
    var cards := Render([p] + posts);
    forall i | 1 <= i < |cards|
      ensures cards[i] == Render(posts)[i - 1]
    {
      assert ([p] + posts)[i] == posts[i - 1];
    }
  }

  /** The rendered list after a submission: the new card in front of the old
      ones on success, the old list otherwise. */
  lemma RenderAfterSubmit(st: FeedState, currentUser: Option<User>, writeSucceeds: bool)
    ensures var r := Submit(st, currentUser, writeSucceeds);
      if currentUser.Some? && writeSucceeds
      then Render(r.next.posts) == [RenderPost(r.next.posts[0])] + Render(st.posts)
      else Render(r.next.posts) == Render(st.posts)
  {
    var r := Submit(st, currentUser, writeSucceeds);
    if currentUser.Some? && writeSucceeds {
      var posts := r.next.posts;
      assert posts == [posts[0]] + st.posts;
      RenderPrepend(posts[0], st.posts);
    }
  }

  /** The player's address carries exactly the stored id: extracting from it gives the id back. */
  lemma EmbedAddressRoundTrip(p: Post)
    requires WellFormedLink(p.youtubeLink)
    ensures RenderPost(p).embed.Some? ==> LinkExtractor.Extract(RenderPost(p).embed.value) == p.youtubeLink
  {
    if p.youtubeLink != "" {
      ExtractorProperties.EmbedLinkRoundTrip(p.youtubeLink);
    }
  }

  /** After a successful submission the new card shows a player exactly when
      an id was found in the link draft, and the player plays that id. */
  lemma SubmittedVideoShown(st: FeedState, user: User)
    ensures var card := RenderPost(Submit(st, Some(user), true).next.posts[0]);
      && (card.embed.Some? <==> LinkExtractor.Extract(st.youtubeLink) != "")
      && (card.embed.Some? ==> LinkExtractor.Extract(card.embed.value) == LinkExtractor.Extract(st.youtubeLink))
  {
    EmbedAddressRoundTrip(Submit(st, Some(user), true).next.posts[0]);
  }

  /** A first post with text only, by a signed-in user, when the write succeeds. */
  lemma TextOnlyPostScenario(st: FeedState)
    requires st.newPostText == "hello" && st.imageUrl == "" && st.youtubeLink == ""
    ensures var r := Submit(st, Some(User("u1", "Ann")), true);
      && r.written == Some(Post("hello", "", "", Some("u1"), "Ann", Pending))
      && RenderPost(r.next.posts[0]) == Card("Ann", "hello", None, None)
  {
    ExtractorProperties.ShortInputHasNoId("");
  }
}
