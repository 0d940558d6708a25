# Posts feed: video-link extraction and the submit transition

This project models the logic inside the posts feed component
(`src/components/Posts.js`). The component shows a list of posts read from a
hosted document store and a form for writing a new one. Two pieces of it are
logic rather than glue, and both are modelled here:

- **`handleYouTubeLink`**, the video-id extractor. It runs a JavaScript
  regular expression over the link a user pasted and returns capture group 1,
  or `""` when nothing matches. The expression is modelled twice:
  - `LinkExtractor` runs it the way JavaScript's matcher does. It tries each
    start index from the left and, at each index, tries the alternatives in
    their backtracking order.
  - `LinkPattern` states declaratively which capture the expression reports
    at a given start index.

  `ExtractorCorrectness` proves that the two agree in both directions.
  `ExtractorProperties` proves what callers rely on: the result is `""` or an
  11-character id taken from the input. It also proves which link shapes are
  recognised.
- **`createPost`** and the rendered list. `Feed` models `createPost` as one
  transition over the state `{posts, newPostText, imageUrl, youtubeLink,
  uploading}`. It also models the three form-field edits and the mapping from
  posts to rendered cards. `FeedProperties` proves what holds across any
  sequence of events:
  - the list only grows at the front;
  - stored links stay bare ids;
  - the player address re-extracts to the submitted id.

The store write is a `writeSucceeds: bool` parameter. The session is an
`Option<User>` parameter.

Notes on how the model reads the code:

- **The regex in detail.** In the expression (line 34):
  - the four host prefixes `https?://(www.)?youtube.com/` exclude one
    another, so backtracking into them never yields a second candidate;
  - `[^/]+` can only stop at the first `/` after the prefix;
  - the greedy `\S+\/` picks the last `/` in the following non-space run that
    lies at least one character into that run and is followed by eleven id
    characters (`GreedySegmentsMatch`);
  - `[\w-]` and `[a-zA-Z0-9_-]` are the same class (`IsIdChar`);
  - `\s` is ECMAScript's set of white-space and line-terminator code points.
- **Watch URLs are not recognised.** For
  `https://www.youtube.com/watch?v=<id>` the expression never matches. After
  `youtube.com/` there is no `/`, the path does not start with `v/` or `e`,
  and `watch?v=` is not made of id characters. `WatchLinkNotRecognised`
  proves the result is `""` for every id.
- **No signed-in user.** `createPost` does not itself check for a user. With
  no user, reading `currentUser.uid` while building the store request throws
  inside the `try`. The `catch` swallows the error, so nothing changes except
  that `uploading` is lowered. `Submit` models this case. The model does not
  require a user.

## Model

| member | source | states |
|---|---|---|
| LinkExtractor.HostEnd | src/components/Posts.js:34 | the host prefix, when present, spans at least 19 characters and ends inside the input |
| ExtractorCorrectness.HostEndCorrect | src/components/Posts.js:34 | the prefix is found at `p` exactly when `https?://(www.)?youtube.com/` spans `s[i..p]`, so it is unique |
| LinkExtractor.FirstSlash | src/components/Posts.js:34 | `[^/]+\/` can only end at the first '/' at or after the start, and there is none when the rest has no '/' |
| LinkExtractor.NonSpaceEnd | src/components/Posts.js:34 | the `\S+` run reaches exactly up to the next white-space character or the end |
| LinkExtractor.LastSlashBeforeId | src/components/Posts.js:34 | backtracking out of the greedy `\S+` stops at the last '/' that is followed by an id, and none exists when it reports none |
| ExtractorCorrectness.SegmentsCaptureCorrect | src/components/Posts.js:34 | the `[^/]+\/\S+\/` alternative reports exactly the right-most capture the pattern allows, and nothing iff it cannot match |
| ExtractorCorrectness.ShortPathCaptureCorrect | src/components/Posts.js:34 | the short-path alternative (`v/`, `embed/` or `e/`) reports a capture iff one of "v/", "embed/", "e/" precedes an id |
| ExtractorCorrectness.PathCaptureCorrect | src/components/Posts.js:34 | after the prefix, the three path alternatives are tried left to right, each only when those before it cannot match |
| ExtractorCorrectness.LongFormCaptureCorrect | src/components/Posts.js:34 | the first top-level alternative reports exactly the declarative prefix-plus-path capture |
| ExtractorCorrectness.MatchAtCorrect | src/components/Posts.js:34 | trying the expression at index `i` reports capture `k` iff the pattern yields `k` there, with `youtu.be/` tried only when the long form cannot match |
| LinkExtractor.MatchAt | src/components/Posts.js:34 | a match at `i` captures eleven id characters starting at least nine characters after `i` |
| LinkExtractor.FirstMatchFrom | src/components/Posts.js:35 | the search reports the left-most start index with a match, and reports none only when no index matches |
| LinkExtractor.Extract | src/components/Posts.js:33-37 | the extracted link is either "" or exactly eleven characters of `[a-zA-Z0-9_-]` |
| ExtractorCorrectness.ExtractCorrect | src/components/Posts.js:34-36 | the result is "" iff the expression matches nowhere; otherwise it is group 1 of the left-most match |
| ExtractorProperties.MatchAtStart | src/components/Posts.js:34 | a match can only start where "http" or "youtu.be/" starts, hence only on an 'h' or a 'y' |
| ExtractorProperties.ExtractFootprint | src/components/Posts.js:34-36 | a non-empty result is eleven consecutive input characters, at least nine after an occurrence of "youtu.be/" or "youtube.com/" |
| ExtractorProperties.ShortInputHasNoId | src/components/Posts.js:34-36 | any input shorter than 20 characters yields "" |
| ExtractorProperties.ShortLinkRoundTrip | src/components/Posts.js:34-36 | `youtu.be/<id>`, bare or after `http://` or `https://`, yields `<id>` for every well-formed id |
| ExtractorProperties.LongLinkRoundTrip | src/components/Posts.js:34-36 | any of the four host prefixes followed by `v/`, `embed/` or `e/` and an id yields that id, for every well-formed id |
| ExtractorProperties.EmbedLinkRoundTrip | src/components/Posts.js:34-36 | the player's address shape `https://www.youtube.com/embed/<id>` yields `<id>` for every well-formed id |
| ExtractorProperties.WatchLinkNotRecognised | src/components/Posts.js:34-36 | `https://www.youtube.com/watch?v=<id>` yields "" for every well-formed id |
| ExtractorProperties.ShortLinkExample | src/components/Posts.js:34-36 | "https://youtu.be/dQw4w9WgXcQ" yields "dQw4w9WgXcQ" |
| ExtractorProperties.EmbedLinkExample | src/components/Posts.js:34-36 | "https://www.youtube.com/embed/dQw4w9WgXcQ" yields "dQw4w9WgXcQ" |
| ExtractorProperties.VideoPathExample | src/components/Posts.js:34-36 | "https://youtube.com/v/dQw4w9WgXcQ" yields "dQw4w9WgXcQ" |
| ExtractorProperties.PlainTextExample | src/components/Posts.js:34-36 | "not a link" yields "" |
| ExtractorProperties.WatchLinkExample | src/components/Posts.js:34-36 | "https://www.youtube.com/watch?v=dQw4w9WgXcQ" yields "" |
| Feed.Loaded | src/components/Posts.js:19-30 | once the initial read completes, the list is the records the store returned and the drafts are unchanged |
| Feed.Step | src/components/Posts.js:94-117 | an edit of the text, image-URL or link field stores the new value as typed and changes nothing else; a submission is `Submit` |
| Feed.Submit | src/components/Posts.js:40-77 | the store gets the draft text and image URL, the extracted link (never the raw one) and the session's uid and name; on success the list gains that record without uid in front, keeping the old posts in order, and the drafts clear; otherwise nothing changes; `uploading` always ends false |
| Feed.RenderPost | src/components/Posts.js:134-148 | a card shows the author and text, an image iff the image URL is non-empty, and a player iff the link is non-empty, at the embed base address followed by the id |
| Feed.Render | src/components/Posts.js:131-151 | exactly one card per post, in list order |
| FeedProperties.RunOnlyPrepends | src/components/Posts.js:61-67 | over any sequence of edits and submissions, the earlier list survives unchanged as a suffix, and the new front entries are one locally built copy per published submission |
| FeedProperties.SubmitKeepsSettled | src/components/Posts.js:47-75 | from a list whose links are all empty or ids, a submission leaves no write in flight and keeps every link on screen empty or an id |
| FeedProperties.RunKeepsSettled | src/components/Posts.js:40-77 | that settled state is kept by every sequence of events |
| FeedProperties.LoadedRender | src/components/Posts.js:131-151 | after the initial read the screen shows one card per fetched record, in the order fetched |
| FeedProperties.SessionAfterLoad | src/components/Posts.js:19-77 | after a read of records with well-formed links and any events, the feed is settled and the fetched records sit below one local copy per published submission |
| FeedProperties.RenderPrepend | src/components/Posts.js:131-151 | rendering a list with a post in front gives that post's card in front of the rest |
| FeedProperties.RenderAfterSubmit | src/components/Posts.js:61-67 | after a successful submission the rendered list is the new card followed by the old cards; otherwise it is unchanged |
| FeedProperties.EmbedAddressRoundTrip | src/components/Posts.js:137-141 | extracting from a card's player address gives back the stored id |
| FeedProperties.SubmittedVideoShown | src/components/Posts.js:47-67 | after a successful submission the new card has a player iff an id was found in the link draft, and the player's address re-extracts to that id |
| FeedProperties.TextOnlyPostScenario | src/components/Posts.js:51-67 | "hello" by user u1 "Ann" with no image or link: the store gets {hello, "", "", u1, Ann}, and the first card shows Ann and hello with no image and no player |

## Left out

- Store access (`getDocs`, `query`/`orderBy`, `addDoc`, `serverTimestamp`, lines 19-30 and 51-58) is remote I/O. The read result is a `fetched` parameter of `Loaded`. The write's outcome is the `writeSucceeds` parameter of `Submit`. The newest-first order is the store's concern.
- Timestamps are opaque. Store-assigned ones are `Assigned(order)`. The server-timestamp placeholder is `Pending`, and it is never interpreted.
- React hooks, batched setters and effect scheduling are framework concerns. `createPost` is one atomic transition, so the moment when `uploading` is true (lines 42-75) is not observable. The disabled submit button (line 121) is therefore not modelled either.
- The event sequences of `FeedProperties` start after the initial read has completed. A read that completes after an early submission replaces the list, including the optimistic entry. `Loaded` shows that replacement, but it is not part of the event sequences. The reverse order is out of scope too. `createPost` prepends to the list it captured when it started (lines 61-67), so a read that completes while the write is still in flight is overwritten and lost. Updates after the component unmounts are also out of scope.
- The session provider is reduced to the `currentUser: Option<User>` parameter. `displayName` is always a string here; the provider may give null.
- The `required` attribute on the text field (line 95) is browser validation. `createPost` does not check it, so `Submit` accepts empty text.
- The `console.error` call on failure (line 73) is logging with no effect on state.
- Markup, CSS classes, icons, iframe size and permission attributes, and the `key={index}` choice are presentation only.
- Fields are strings throughout. A stored record that lacks `imageUrl` or `youtubeLink` (undefined or null, which JavaScript also treats as false) is not modelled. An empty string is the only falsy value here.
- JavaScript strings are UTF-16 code units; here a string is a sequence of Unicode scalar values. The two differ only for characters outside the Basic Multilingual Plane. Those characters are neither '/', white space nor id characters, so they change indices but not results.
