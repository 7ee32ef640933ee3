# Weibo post collector: a verified model

This project models the core of the Weibo post collector, a Go library with an example program.
The program watches a list of Weibo authors, fetches their timelines page by page, and resolves the
full text of long posts and of the posts they repost. It writes every post the store has not seen
into a SQL table keyed by (user id, post id, mblog id). A periodic incremental pass reports the
posts it newly stored.

The model has these parts:

- `Base` (base.dfy): Go's `(value, error)` results and the error kinds of the core. A Go panic
  becomes the error `Panic`.
- `Text` (text.dfy): the Go string functions the core calls, written out with the properties the
  core needs. These are `strings.Contains`, `strings.ReplaceAll`, `strings.Split` and `%d`.
- `Posts` (posts.dfy): the desktop post record `Mblog`. This covers its text fallback, its log
  line, and the normalisation of its two picture-payload shapes (`pic_infos` and
  `mix_media_info`) into one map from picture id to the URL of the largest rendition.
- `MPosts` (mposts.dfy): the mobile API's cards and posts, and the rule that picks posts out of a
  card list.
- `Api` (client.dfy): the desktop API client.
  - The platform is an `Upstream` value: what it answers to each request URL, namely a decoded
    body, status 400 (`BadRequest`), or another failure.
  - On top of it: the long-text request, the long-text policy (BadRequest absorbed, other errors
    passed on), the timeline page loop and the cookie check.
  - Loops are methods proved against specification functions, with the meaning of those
    functions proved as lemmas.
- `Store` (store.dfy): the `Database` class. Its table maps each key triple to a row. It covers
  the lookup, the insert with its row-building rules as written, the panics that come before the
  insert, and the schema migration. As written, the insert keeps only one URL of a repost's
  pictures (see "## Findings"); the listing that keeps all of them is modelled and proved beside it.
- `MApi` (mapi.dfy): the two card feeds of the mobile API (interactions and profile) with their
  shared selection and resolution loop.
- `Collector` (collector.dfy): the example program's collection pass.
  - The pass walks every author and every page, stores the posts the store lacks, and returns
    them. Monitoring notifies when a pass finds something. Startup migrates, runs an optional full
    pass, and then schedules monitoring.
  - The pass is specified by `PassOver`, a fold over the requests. Its meaning is proved in
    `PassOverMeaning`: the pass succeeds exactly when every page is fetched and every post can be
    stored. It then returns the new posts in fetch order, and the store's keys become the old keys
    plus the fetched ones.
  - A pass that fails stops at the first error and keeps the rows it wrote before it. Every method
    that runs a pass states that state too: `Collect`, the monitoring pass and the full pass of
    startup. The table's keys are where the fold stopped, and every post found up to the error is
    stored (`PassFromGrows`).

## Model

| member | source | states |
|---|---|---|
| Api.Received | weibo.go:224-226 | a reply becomes BadRequest exactly when the platform answered status 400; it succeeds exactly when a body was decoded, with that body |
| Api.Client.AddFriend | weibo.go:142-154 | following a user succeeds exactly when the POST is answered; a 400 gives BadRequest and other failures their own error |
| Api.Client.GetMblogLongText | weibo.go:351-363 | the long text is obtained exactly when the request is answered with `ok` 1, and is then the body's `longTextContent`; the request's own error otherwise, BadRequest exactly for status 400 |
| Api.Client.FetchMblogLongText | weibo.go:365-379 | a post that is not long text is returned unchanged; BadRequest leaves the post as it was; a fetched text replaces `longTextRaw` and nothing else; every error returned is the fetch's own and never BadRequest |
| Api.Client.ResolveMblog | weibo.go:336-345 | one post resolved, then its repost; the result differs from the post only in the two `longTextRaw` fields |
| Api.Client.GetMblogs | weibo.go:326-349 | the page loop returns exactly `TimelinePage`: the request's error, BodyNotOk for `ok` other than 1, or the decoded list with each post resolved in order |
| Api.Client.CheckCookie | weibo.go:123-140 | when both requests succeed, the result is whether the check post's long text contains "live", and `checked` is set only on a hit; a failed follow or text request returns that error with `isActivate` false and the check state unchanged |
| Api.ResolvePostKeepsPost | weibo.go:365-379 | resolution only fills in long texts: identity, raw text, pictures and the repost's other fields are kept |
| Api.OuterFailureSkipsRepost | weibo.go:337-343 | when a post's own long-text fetch fails, the repost is never tried and the post's error is returned |
| Api.RepostRefusalKeepsPost | weibo.go:340-344 | a BadRequest on the repost's long text does not stop the post; the repost is kept unresolved |
| Api.TheTextAfterResolve | weibo.go:42-47 | after resolution the stored text is the fetched long text when that is non-empty, and the raw text otherwise, so an empty long text falls back |
| Api.ResolveFromWithoutLongText | weibo.go:335-347 | without long-text resolution the loop returns the decoded list unchanged |
| Api.ResolveFromKeepsOrder | weibo.go:335-347 | a successful loop keeps the length and order of the list, each post with at most its long texts filled in |
| Api.ResolveFromFirstError | weibo.go:336-344 | a failed loop fails with the error of the first post (or its repost) that failed, after every earlier post resolved |
| Api.PageErrors | weibo.go:329-333 | a page fails with the request's own error, or with BodyNotOk when the envelope's `ok` is not 1 |
| Api.PageKeepsOrder | weibo.go:334-348 | a successful page came from an `ok` envelope and has the decoded list's length and order, each post with at most its long texts filled in |
| Api.PageWithoutLongText | weibo.go:334-348 | without long-text resolution a page is exactly the decoded list |
| Posts.Mblog.PicUrls | weibo.go:49-74 | an empty map when `pic_num` <= 0; with `pic_infos`, success exactly when every listed id has a `largest` object, and then exactly the listed ids as keys, each mapped to its largest URL; an empty map when neither payload is present |
| Posts.Mblog.TheText | weibo.go:42-47 | the stored text is the long text when that is non-empty and the raw text otherwise, so it is empty only when both are (see `Api.TheTextAfterResolve`) |
| Posts.Mblog.String | weibo.go:76-82 | the log line ends with the post's preview and is one line when the mblog id is |
| Posts.InfoUrlsMeaning | weibo.go:56-61 | the `pic_infos` loop succeeds exactly when every id resolves; its keys are exactly the listed ids, each with its largest URL ("" for a non-string url) |
| Posts.MixUrlsKeys | weibo.go:62-70 | the `mix_media_info` loop succeeds exactly when every item is well formed; its keys are exactly the ids of the picture items, and other items add nothing |
| Posts.MixUrlsLastWins | weibo.go:64-69 | a later picture item with the same id overwrites an earlier one |
| Posts.MixUrlsKeep | weibo.go:64-69 | an id that no later picture item names keeps the URL it already has |
| Posts.NoPicturesWhateverTheFields | weibo.go:55 | a post claiming no pictures has an empty map whatever its picture fields hold |
| Posts.InfosShadowMixMedia | weibo.go:56-62 | when `pic_infos` is present, `mix_media_info` is never consulted |
| Posts.PreviewShape | weibo.go:77-80 | a preview has no line break and at most 53 runes |
| Posts.ShortLineIsItsOwnPreview | weibo.go:77-80 | a one-line text of at most 50 runes is its own preview |
| MPosts.SelectedAppend | mweibo.go:108-140 | selection works card by card: the posts of a concatenation are the posts of each part, in order |
| MPosts.SelectedAtMostOnePerCard | mweibo.go:108-140 | at most one post comes from each card |
| MPosts.CMblog.TheText | mweibo.go:72-80 | the long text when that is non-empty; otherwise the tag stripper applied to the text with every `<br />` turned into a newline, which is the text itself when it has none (see `MPosts.LongTextIsVerbatim`, `MPosts.BreaksBecomeNewlines`) |
| MPosts.LongTextIsVerbatim | mweibo.go:72-75 | a resolved long text is returned verbatim, whatever the tag stripper does |
| MPosts.BreaksBecomeNewlines | mweibo.go:76-79 | without a long text, the stripper receives the text with every `<br />` replaced and none left; a text without `<br />` is passed unchanged |
| MApi.FeedsAreDistinct | mweibo.go:100 | the interactions feed and the profile feed never share a request URL |
| MApi.FetchCMblogLongText | mweibo.go:82-96 | the same policy as the desktop post: no-op when not long text, BadRequest absorbed, other errors passed on, a fetched text replaces `longTextRaw` |
| MApi.ResolveCMblog | mweibo.go:116-125 | a selected post resolved, then its repost; only the long texts change |
| MApi.CollectCards | mweibo.go:108-141 | the card loop returns exactly `CardsFrom`: a type-11 card with a non-empty group and no skip flag gives its first group entry's post, a type-9 card its own post, others nothing |
| MApi.GetCMblogs | mweibo.go:99-142 | one page of the interactions feed is `CardsPage` of the reply to its URL |
| MApi.GetMMblogs | mweibo.go:145-188 | one page of the profile feed is `CardsPage` of the reply to its URL: the same selection and resolution, only the URL differs |
| MApi.CardsFromWithoutLongText | mweibo.go:108-141 | without long-text resolution the card loop returns exactly the selected posts |
| MApi.CardsFromKeepsSelection | mweibo.go:108-141 | a successful card loop returns the selected posts in card order, each with at most its long texts filled in |
| MApi.SelectedPostKept | mweibo.go:116-125 | at a card holding a post, that post, with at most its long texts filled in, follows the posts selected before it, and the later selected posts follow it |
| MApi.CardsFromFirstError | mweibo.go:116-136 | a failed card loop fails with the error of the first selected post whose resolution failed, every earlier selected post having resolved |
| MApi.OuterFailureAbortsCards | mweibo.go:116-119 | when a selected post's own long-text fetch fails, its repost is not tried and the whole page fails with that error |
| MApi.CardsPageErrors | mweibo.go:102-106 | a feed page fails with the request's error, or BodyNotOk for `ok` other than 1 |
| MApi.CardsPageKeepsSelection | mweibo.go:107-141 | a successful feed page came from an `ok` envelope and holds the selected posts in card order |
| MApi.CardsPageWithoutLongText | mweibo.go:107-141 | without long-text resolution a feed page is exactly the selected posts |
| Store.ValuesInOrder | weibo.go:461-462 | the listed URLs are the map's values in the iteration order, one per key |
| Store.ListUrls | weibo.go:461-462 | the listing loop visits every key exactly once, in some order, and lists the values in that order: one entry per picture, every URL present |
| Store.OrderingSize | weibo.go:461 | an iteration order visits as many keys as the map has |
| Store.ColumnHoldsEveryUrl | weibo.go:460-465 | in any iteration order, the post's own picture column has one entry per key, holds every URL of the map and nothing else, and stays empty exactly when there is no URL |
| Store.RepostLoopKeepsOnlyLast | weibo.go:454-458 | the repost loop as written leaves only the last listed URL in the column |
| Store.RepostPicsLost | weibo.go:454-458 | a repost with two or more pictures keeps one URL as written, while the corrected column keeps all of them |
| Store.RepostColumnShape | weibo.go:453-458 | in any iteration order, the repost column as written stays empty exactly when the repost has no picture, and otherwise lists exactly one of its URLs |
| Store.RepostColumnHoldsOneUrl | weibo.go:453-458 | whatever order the loop took, the repost column written is empty exactly when there is no picture, and otherwise one of the repost's URLs |
| Store.ListRepostUrls | weibo.go:453-458 | the repost listing loop as written leaves nothing for no URL, and otherwise a one-element list holding the URL of the last key visited |
| Store.RowValues | weibo.go:440-468 | the values bound to the insert: a panic exactly when the post cannot be written, and then the first panic on the way (repost pictures, own pictures, user); otherwise a row that `RowFor` accepts for the post |
| Store.ListPostUrls | weibo.go:460-464 | the post's own listing loop, started on its still empty list, gives a column that lists every URL of the map in the order visited |
| Store.Database.Migrate | weibo.go:405-414 | creating the table succeeds exactly when the server is reachable; an existing table and its rows are kept |
| Store.Database.HasMblog | weibo.go:416-432 | a post without a user panics; otherwise the lookup needs the store and reports whether its (user id, id, mblog id) key is present |
| Store.Database.AddMblog | weibo.go:434-472 | picture panics come first, then the user panic, then StoreUnavailable and DuplicateKey; on success exactly one row is added under the post's key; the repost's user id is -1 without a user, the repost columns are zero/empty without a repost; the post's picture column lists every URL of its pictures, while the repost's picture column holds only the URL of the last picture visited, as written; the table is unchanged on failure and stays keyed by its primary key |
| Collector.PagesOfShape | example/mian.go:141-149 | a page range holds one request per page from the start page to the bound, inclusive, in order, and none when the start exceeds the bound |
| Collector.IncrementalPages | example/mian.go:141-144 | an incremental pass fetches page 1 of each author when it starts at 1, and nothing when it starts higher |
| Collector.RequestsAppend | example/mian.go:147-148 | authors are taken in list order, each author's pages finished before the next author starts |
| Collector.PassFromAppend | example/mian.go:147-170 | a pass over two stretches of requests is a pass over the first, then, only if it reached the end without error, over the second from where the first ended |
| Collector.NewPostsInOrder | example/mian.go:155-165 | the stored posts are a selection of the fetched posts, in fetch order |
| Collector.NewPostsKeys | example/mian.go:155-165 | the stored posts have keys the store lacked, pairwise distinct, and the store gains exactly the fetched keys it lacked |
| Collector.NewPostsAllSeen | example/mian.go:156-159 | when the store holds every fetched key, nothing is stored |
| Collector.StoreAllMeaning | example/mian.go:155-166 | storing a page succeeds exactly when every post has a user, the store is available and every new post can be written; it then stores exactly the new posts, in page order |
| Collector.PassOverMeaning | example/mian.go:140-172 | a pass succeeds exactly when every page is fetched and every post can be stored; it returns the new posts in fetch order, and the keys become the old keys plus every fetched key |
| Collector.StoreFromGrows | example/mian.go:155-166 | whatever the outcome, storing a page only adds: the posts found before are kept as a prefix, and the keys grow by exactly the keys of the posts added |
| Collector.PassFromGrows | example/mian.go:147-170 | whatever the outcome, a pass only adds: the posts found before are kept as a prefix, and the keys grow by exactly the keys of the posts found, so rows written before an error stay |
| Collector.PassFromAuthorAt | example/mian.go:147-148 | the pass over the remaining authors is the pass over the next author's pages, then, only without error, over the authors after it |
| Collector.AuthorsFromIsPass | example/mian.go:147-148 | the author-by-author pass is the pass over the requests of all remaining authors in list order |
| Collector.FetchErrorFailsPass | example/mian.go:150-153 | a fetch error anywhere fails the pass |
| Collector.SecondPassFindsNothing | example/mian.go:155-160 | a second pass over the same upstream, on the store the first left, returns no posts and stores nothing |
| Collector.App.StoreOne | example/mian.go:155-165 | one post of a page: a lookup or insert error is returned with the table unchanged; otherwise the post is skipped when its key is present, or stored and added to the found posts, as `StorePost` says |
| Collector.App.StorePage | example/mian.go:155-166 | storing a page returns what `StoreFrom` reaches: the new posts, or the first error; on success and on failure alike, the table's keys are the keys reached and every post stored before the stop has its row; existing rows are untouched |
| Collector.App.CollectPage | example/mian.go:150-166 | one page: a fetch error, or the error of storing the page, is the error of the pass from that page on, with the table at the keys that pass reached; otherwise the rest of the pass continues from the posts found with the page |
| Collector.App.CollectAuthor | example/mian.go:149-168 | one author's pages are fetched and stored page after page, as `PassFrom` says: on success and on failure alike, the table's keys are the keys reached and every post stored before the stop has its row; existing rows are untouched |
| Collector.App.CollectAuthors | example/mian.go:147-171 | author after author from no found posts, as `AuthorsFrom` says: the new posts or the first error; on success and on failure alike, the table's keys are the keys reached and every post found has its row; existing rows are untouched |
| Collector.App.Collect | example/mian.go:140-172 | a pass returns what `CollectPass` reaches: the new posts, or the first error; on success and on failure alike, the table's keys are the keys reached and every post stored before the stop has its row; rows stored before the pass stay as they were |
| Collector.App.Monitoring | example/mian.go:174-183 | a notification is added exactly when the incremental pass succeeds with at least one new post, and it carries those posts; whatever the outcome, the table's keys are the keys the incremental pass reached and every post it found has its row, so a notified post is never notified again; existing rows are untouched |
| Collector.App.Cron | example/mian.go:127-138 | monitoring is scheduled |
| Collector.App.Run | example/mian.go:113-125 | migration comes first and its failure stops everything; startup succeeds exactly when the store is reachable and, for a full configuration, the full pass succeeds; a failed full pass returns that pass's error; for a full configuration the table's keys are the keys the full pass reached and every post it found has its row, whatever its outcome; monitoring is scheduled only on success |
| Text.ReplaceAllRemovesEvery | weibo.go:77 | replacing every occurrence leaves none behind, when the replacement shares no character with the pattern |
| Text.ReplaceAllWithoutOccurrence | mweibo.go:76 | a string without the pattern is unchanged by the replacement |
| Text.SplitJoin | example/mian.go:147 | joining the comma-split author list gives the configured string back, and no author id holds a comma |
| Text.JoinSplit | example/mian.go:147 | splitting a join of comma-free ids gives the ids back, so the split is the inverse of joining the author list |
| Text.IntToStringRoundTrip | weibo.go:327 | the page number's decimal form reads back as that number |
| Api.TimelineUrlInjective | weibo.go:327 | one author's timeline URLs are equal exactly when the page numbers are, so every page is a distinct request |

## Left out

- HTTP plumbing is not modelled: `postJSON`, `getJSON`, the proxy, the headers and the XSRF token. Only their outcome is kept: a decoded body, status 400 as BadRequest, or another failure. The platform's answers are a fixed function of the request URL. A platform whose answers change between requests is not modelled.
- JSON decoding is not modelled. Posts are decoded records. The untyped picture payloads are a `Json` datatype whose numbers carry no value, because no rule reads one. The `Pics` column holds the URL list it encodes, not the JSON text.
- Integer widths are not modelled. `int8` fields (`pic_num`, `card_type`) and `int64` ids are unbounded integers, and decoding errors for out-of-range numbers are left out.
- Posts are values, not pointers. The in-place update of `LongTextRaw` by `FetchMblogLongText` and `FetchCMblogLongText` is modelled as returning the updated post. The page loops build their output from those values. No post is shared elsewhere, so no aliasing is lost.
- Posts.Mblog.PicUrls: the nil-receiver branch is not modelled, because every caller passes a present post. A `pic_num` above zero with neither payload present gives an empty map, as in the source.
- JSON `null` entries of a post list or a card group are not modelled. Go would panic on them.
- The image download functions and their file I/O (weibo.go:238-324) are not modelled: they are network and filesystem calls.
- SQL details are not modelled: the lazy `getdb` open, `Close`, the DDL text, column length limits and driver errors. The table is a map from key triple to row. Whether the server accepts statements is the `online` flag, and whether the table exists is `hasTable`. `sql.Open` is taken to succeed. Nothing changes `online` or `hasTable` during a pass, so a store error can only come at a page's first lookup, and an insert that fails after earlier rows were written can only come from a modelled panic.
- Go panics are errors. A panic (nil user, malformed picture payload) ends the Go process; here it is an `Err(Panic(..))` that ends the pass.
- The example program's `time.Sleep`, logging, timezone loading and flag wiring are not modelled.
- Collector.App.Cron: `cron` registers monitoring and blocks in the scheduler. `Cron` only records that monitoring is scheduled. The scheduler's `SkipIfStillRunning` and the repeated runs are left out.
- Collector.App.Monitoring: the notification body is not modelled. It is an external call; a notification is the list of posts it carries.
- `strip.StripTags` is a third-party library. It is a function parameter of `CMblog.TheText`.
- The mobile records' fields `action_info` and `pics` are not modelled: no rule of the core reads them. The cards' `show_type` is kept as a field, but no rule reads it either.
- comment.go only declares a URL and records, and weibo_test.go is a live-network test; neither is part of this model.

## Findings

| source | as written | input that shows it | evidently intended | confidence | as-written member | corrected member |
|---|---|---|---|---|---|---|
| weibo.go:455 | each repost URL is appended to the post's own URL list, which is still empty at that point, and the repost column is re-encoded from that one-element list | a repost with two pictures: its `RetweetedPics` column lists one URL | each URL is appended to the repost's own list, so the column lists every repost picture | not executed | Store.RepostLoopAsWritten, Store.RepostPicsLost, Store.Database.AddMblog | Store.PicsColumnOf, Store.ColumnHoldsEveryUrl |
