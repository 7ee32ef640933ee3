/** The incremental collector: for every configured author and every page of the configured range,
    fetch the page with long texts resolved and store each post the store does not hold yet; the
    pass returns the newly stored posts in fetch order and stops at the first error. Monitoring
    runs an incremental pass and notifies when it found something; startup migrates the store,
    optionally runs a full pass, and then schedules monitoring. */
module Collector {
  import opened Base
  import opened Text
  import opened Posts
  import opened Api
  import opened Store

  /** The last page of a pass: 98 for a full pass, 1 for an incremental one. */
  function LastPage(full: bool): int {
    if full then 98 else 1
  }

  datatype Request = Request(userid: string, page: int)

  /** The pages `first` to `last` (inclusive) of one author, in increasing order. */
  function PagesOf(userid: string, first: int, last: int): seq<Request>
    decreases if first <= last then last - first + 1 else 0
  {
    if first > last then [] else [Request(userid, first)] + PagesOf(userid, first + 1, last)
  }

  /** The requests of a pass: each author's pages, author after author. */
  function Requests(authors: seq<string>, first: int, last: int): seq<Request>
    decreases |authors|
  {
    if |authors| == 0 then [] else PagesOf(authors[0], first, last) + Requests(authors[1..], first, last)
  }

  /** Every post fetched by the requests, in fetch order, or the first fetch error. */
  function FetchAll(up: Upstream, reqs: seq<Request>): Result<seq<Mblog>>
    decreases |reqs|
  {
    if |reqs| == 0 then Ok([])
    else match TimelinePage(up, reqs[0].userid, reqs[0].page, true)
      case Err(e) => Err(e)
      case Ok(posts) =>
        match FetchAll(up, reqs[1..])
        case Err(e) => Err(e)
        case Ok(rest) => Ok(posts + rest)
  }

  predicate AllKeyed(posts: seq<Mblog>) {
    forall i :: 0 <= i < |posts| ==> posts[i].user.Some?
  }

  predicate AllStorable(posts: seq<Mblog>) {
    forall i :: 0 <= i < |posts| ==> Storable(posts[i])
  }

  /** The keys of the posts that have one. */
  function KeysOf(posts: seq<Mblog>): set<Key> {
    set i | 0 <= i < |posts| && posts[i].user.Some? :: KeyOf(posts[i])
  }

  /** The posts a pass stores, given the keys already stored: a post is new when neither the store
      nor an earlier post of the pass has its key. */
  function NewPosts(seen: set<Key>, posts: seq<Mblog>): seq<Mblog>
    requires AllKeyed(posts)
    decreases |posts|
  {
    if |posts| == 0 then []
    else if KeyOf(posts[0]) in seen then NewPosts(seen, posts[1..])
    else [posts[0]] + NewPosts(seen + {KeyOf(posts[0])}, posts[1..])
  }

  /** `a` is `b` with some elements left out, the rest in their order. */
  predicate IsSubsequence<T(==)>(a: seq<T>, b: seq<T>)
    decreases |b|
  {
    || |a| == 0
    || (&& |b| > 0
        && ((a[0] == b[0] && IsSubsequence(a[1..], b[1..])) || IsSubsequence(a, b[1..])))
  }

  /** The keys stored so far and the posts stored so far. */
  datatype PassState = PassState(keys: set<Key>, found: seq<Mblog>)

  /** Where a pass got to: the state reached, and the error that stopped it, if any. Rows written
      before an error stay in the store. */
  datatype Reached = Reached(state: PassState, error: Option<Error>)

  /** A pass's result as the Go code reports it: the error, or the final state. */
  function AsResult(r: Reached): Result<PassState> {
    if r.error.Some? then Err(r.error.value) else Ok(r.state)
  }

  /** One post of a page: the lookup reads the post's user (a post without one panics) and needs
      the store; a post whose key is present is skipped; otherwise it is inserted (see
      `Database.AddMblog` for its panics) and appended to the found posts. */
  function StorePost(s: PassState, p: Mblog, available: bool): Result<PassState> {
    if p.user.None? then Err(NilUser)
    else if !available then Err(StoreUnavailable)
    else if KeyOf(p) in s.keys then Ok(s)
    else if !Storable(p) then Err(AddPanic(p))
    else Ok(PassState(s.keys + {KeyOf(p)}, s.found + [p]))
  }

  /** The posts of a page, one after the other, up to the first error. */
  function StoreFrom(s: PassState, posts: seq<Mblog>, available: bool): Reached
    decreases |posts|
  {
    if |posts| == 0 then Reached(s, None)
    else match StorePost(s, posts[0], available)
      case Err(e) => Reached(s, Some(e))
      case Ok(s1) => StoreFrom(s1, posts[1..], available)
  }

  function StoreAll(s: PassState, posts: seq<Mblog>, available: bool): Result<PassState> {
    AsResult(StoreFrom(s, posts, available))
  }

  /** The pass over the requests: each page is fetched and then stored before the next page is
      fetched, up to the first error. `available` is whether the store accepts statements. */
  function PassFrom(up: Upstream, s: PassState, reqs: seq<Request>, available: bool): Reached
    decreases |reqs|, 1
  {
    if |reqs| == 0 then Reached(s, None) else PageStep(up, s, reqs, available)
  }

  /** A pass over a non-empty list of requests: the first page is fetched and stored, then the
      rest of the pass follows unless that failed. */
  function PageStep(up: Upstream, s: PassState, reqs: seq<Request>, available: bool): Reached
    requires |reqs| > 0
    decreases |reqs|, 0
  {
    match TimelinePage(up, reqs[0].userid, reqs[0].page, true)
    case Err(e) => Reached(s, Some(e))
    case Ok(posts) =>
      var stored := StoreFrom(s, posts, available);
      if stored.error.Some? then stored else PassFrom(up, stored.state, reqs[1..], available)
  }

  /** The rest of a pass from where it got to: nothing more after an error. */
  function Then(up: Upstream, r: Reached, reqs: seq<Request>, available: bool): Reached {
    if r.error.Some? then r else PassFrom(up, r.state, reqs, available)
  }

  function PassOver(up: Upstream, s: PassState, reqs: seq<Request>, available: bool): Result<PassState> {
    AsResult(PassFrom(up, s, reqs, available))
  }

  /** A whole pass for the comma-separated author list, from page `start`, over a store holding
      `seen`. */
  function CollectPass(up: Upstream, seen: set<Key>, userid: string, start: int, full: bool, available: bool): Reached {
    PassFrom(up, PassState(seen, []), Requests(Split(userid, ','), start, LastPage(full)), available)
  }

  /** A pass over one more page: the page is fetched, its posts stored, and the pass goes on. */
  lemma PassFromCons(up: Upstream, s: PassState, req: Request, rest: seq<Request>, available: bool)
    ensures var page := TimelinePage(up, req.userid, req.page, true);
            PassFrom(up, s, [req] + rest, available) ==
            if page.Err? then Reached(s, Some(page.error)) else Then(up, StoreFrom(s, page.value, available), rest, available)
  {
    assert ([req] + rest)[0] == req && ([req] + rest)[1..] == rest;
  }

  /** A pass over two stretches of requests is a pass over the first, then over the second from
      where the first got to. */
  lemma {:induction false} PassFromAppend(up: Upstream, s: PassState, a: seq<Request>, b: seq<Request>, available: bool)
    ensures PassFrom(up, s, a + b, available) == Then(up, PassFrom(up, s, a, available), b, available)
    decreases |a|
  {
    if |a| == 0 {
      assert a + b == b;
    } else {
      assert (a + b)[0] == a[0] && (a + b)[1..] == a[1..] + b;
      var page := TimelinePage(up, a[0].userid, a[0].page, true);
      if page.Ok? {
        var stored := StoreFrom(s, page.value, available);
        if stored.error.None? {
          PassFromAppend(up, stored.state, a[1..], b, available);
        }
      }
    }
  }

  /** Storing from post k on: post k, then the rest. */
  lemma StoreFromAt(s: PassState, posts: seq<Mblog>, k: nat, available: bool)
    requires k < |posts|
    ensures var first := StorePost(s, posts[k], available);
            StoreFrom(s, posts[k..], available) ==
            if first.Err? then Reached(s, Some(first.error)) else StoreFrom(first.value, posts[k + 1..], available)
  {
    assert posts[k..][0] == posts[k] && posts[k..][1..] == posts[k + 1..];
  }

  /** What a pass returns. */
  function Returned(r: Reached): Result<seq<Mblog>> {
    if r.error.Some? then Err(r.error.value) else Ok(r.state.found)
  }

  // Page ranges and request order

  /** A page range holds one request per page from `first` to `last`, in order, and nothing when
      `first` exceeds `last`. */
  lemma {:induction false} PagesOfShape(userid: string, first: int, last: int)
    ensures |PagesOf(userid, first, last)| == if first <= last then last - first + 1 else 0
    ensures forall k :: 0 <= k < |PagesOf(userid, first, last)| ==> PagesOf(userid, first, last)[k] == Request(userid, first + k)
    decreases if first <= last then last - first + 1 else 0
  {
    if first <= last {
      PagesOfShape(userid, first + 1, last);
      var rest := PagesOf(userid, first + 1, last);
      assert PagesOf(userid, first, last) == [Request(userid, first)] + rest;
    }
  }

  /** Authors are handled in list order, each author's pages finished before the next author's
      start. */
  lemma {:induction false} RequestsAppend(a: seq<string>, b: seq<string>, first: int, last: int)
    ensures Requests(a + b, first, last) == Requests(a, first, last) + Requests(b, first, last)
    decreases |a|
  {
    if |a| == 0 {
      assert a + b == b;
    } else {
      assert (a + b)[0] == a[0] && (a + b)[1..] == a[1..] + b;
      RequestsAppend(a[1..], b, first, last);
    }
  }

  /** An incremental pass starting at page 1 fetches page 1 of each author; one starting above
      page 1 fetches nothing. */
  lemma IncrementalPages(userid: string, start: int)
    ensures start > 1 ==> PagesOf(userid, start, LastPage(false)) == []
    ensures start == 1 ==> PagesOf(userid, start, LastPage(false)) == [Request(userid, 1)]
  {
  }

  // Properties of the new-post selection

  lemma KeysOfCons(p: Mblog, posts: seq<Mblog>)
    requires p.user.Some?
    ensures KeysOf([p] + posts) == {KeyOf(p)} + KeysOf(posts)
  {
    var all := [p] + posts;
    forall k | k in KeysOf(all)
      ensures k in {KeyOf(p)} + KeysOf(posts)
    {
      var i :| 0 <= i < |all| && all[i].user.Some? && KeyOf(all[i]) == k;
      if i > 0 {
        assert all[i] == posts[i - 1];
      }
    }
    forall k | k in KeysOf(posts)
      ensures k in KeysOf(all)
    {
      var i :| 0 <= i < |posts| && posts[i].user.Some? && KeyOf(posts[i]) == k;
      assert all[i + 1] == posts[i];
    }
    assert all[0] == p;
  }

  lemma KeysOfAppend(a: seq<Mblog>, b: seq<Mblog>)
    ensures KeysOf(a + b) == KeysOf(a) + KeysOf(b)
  {
    var all := a + b;
    forall k | k in KeysOf(all)
      ensures k in KeysOf(a) + KeysOf(b)
    {
      var i :| 0 <= i < |all| && all[i].user.Some? && KeyOf(all[i]) == k;
      if i >= |a| {
        assert all[i] == b[i - |a|];
      } else {
        assert all[i] == a[i];
      }
    }
    forall k | k in KeysOf(b)
      ensures k in KeysOf(all)
    {
      var i :| 0 <= i < |b| && b[i].user.Some? && KeyOf(b[i]) == k;
      assert all[|a| + i] == b[i];
    }
    forall k | k in KeysOf(a)
      ensures k in KeysOf(all)
    {
      var i :| 0 <= i < |a| && a[i].user.Some? && KeyOf(a[i]) == k;
      assert all[i] == a[i];
    }
  }

  lemma Tail(posts: seq<Mblog>)
    requires |posts| > 0
    ensures posts == [posts[0]] + posts[1..]
    ensures AllKeyed(posts) <==> posts[0].user.Some? && AllKeyed(posts[1..])
  {
    if posts[0].user.Some? && AllKeyed(posts[1..]) {
      forall i | 0 < i < |posts|
        ensures posts[i].user.Some?
      {
        assert posts[i] == posts[1..][i - 1];
      }
    }
  }

  /** The new posts are a selection of the fetched posts, in fetch order. */
  lemma {:induction false} NewPostsInOrder(seen: set<Key>, posts: seq<Mblog>)
    requires AllKeyed(posts)
    ensures IsSubsequence(NewPosts(seen, posts), posts)
    decreases |posts|
  {
    if |posts| > 0 {
      Tail(posts);
      var p := posts[0];
      if KeyOf(p) in seen {
        NewPostsInOrder(seen, posts[1..]);
      } else {
        NewPostsInOrder(seen + {KeyOf(p)}, posts[1..]);
        var out := NewPosts(seen, posts);
        assert out[0] == p && out[1..] == NewPosts(seen + {KeyOf(p)}, posts[1..]);
      }
    }
  }

  /** The new posts have keys the store did not hold, pairwise distinct, and together with the
      store's keys they cover every fetched key: the store gains exactly the fetched keys it
      lacked. */
  lemma {:induction false} NewPostsKeys(seen: set<Key>, posts: seq<Mblog>)
    requires AllKeyed(posts)
    ensures var out := NewPosts(seen, posts);
            && AllKeyed(out)
            && (forall i :: 0 <= i < |out| ==> KeyOf(out[i]) !in seen)
            && (forall i, j :: 0 <= i < j < |out| ==> KeyOf(out[i]) != KeyOf(out[j]))
            && KeysOf(out) == KeysOf(posts) - seen
    decreases |posts|
  {
    if |posts| == 0 {
      assert KeysOf(posts) == {};
    } else {
      Tail(posts);
      var p := posts[0];
      KeysOfCons(p, posts[1..]);
      if KeyOf(p) in seen {
        NewPostsKeys(seen, posts[1..]);
      } else {
        var seen' := seen + {KeyOf(p)};
        NewPostsKeys(seen', posts[1..]);
        var rest := NewPosts(seen', posts[1..]);
        var out := NewPosts(seen, posts);
        assert out == [p] + rest;
        KeysOfCons(p, rest);
        assert forall i :: 0 < i < |out| ==> out[i] == rest[i - 1];
      }
    }
  }

  /** When the store already holds every fetched key, nothing is new. */
  lemma {:induction false} NewPostsAllSeen(seen: set<Key>, posts: seq<Mblog>)
    requires AllKeyed(posts) && KeysOf(posts) <= seen
    ensures NewPosts(seen, posts) == []
    decreases |posts|
  {
    if |posts| > 0 {
      Tail(posts);
      KeysOfCons(posts[0], posts[1..]);
      NewPostsAllSeen(seen, posts[1..]);
    }
  }

  /** Selecting over two stretches of posts is selecting over the first, then over the second
      with the first's keys seen. */
  lemma {:induction false} NewPostsAppend(seen: set<Key>, a: seq<Mblog>, b: seq<Mblog>)
    requires AllKeyed(a) && AllKeyed(b)
    ensures AllKeyed(a + b)
    ensures NewPosts(seen, a + b) == NewPosts(seen, a) + NewPosts(seen + KeysOf(a), b)
    decreases |a|
  {
    if |a| == 0 {
      assert a + b == b;
      assert KeysOf(a) == {};
      assert seen + KeysOf(a) == seen;
    } else {
      Tail(a);
      var p := a[0];
      assert (a + b)[0] == p && (a + b)[1..] == a[1..] + b;
      KeysOfCons(p, a[1..]);
      if KeyOf(p) in seen {
        NewPostsAppend(seen, a[1..], b);
        assert seen + KeysOf(a[1..]) == seen + KeysOf(a);
      } else {
        NewPostsAppend(seen + {KeyOf(p)}, a[1..], b);
        assert seen + {KeyOf(p)} + KeysOf(a[1..]) == seen + KeysOf(a);
      }
      Tail(a + b);
    }
  }

  lemma AllStorableAppend(a: seq<Mblog>, b: seq<Mblog>)
    ensures AllStorable(a + b) <==> AllStorable(a) && AllStorable(b)
  {
    if AllStorable(a + b) {
      forall i | 0 <= i < |b|
        ensures Storable(b[i])
      {
        assert (a + b)[|a| + i] == b[i];
      }
      forall i | 0 <= i < |a|
        ensures Storable(a[i])
      {
        assert (a + b)[i] == a[i];
      }
    }
  }

  // What a pass does

  /** Storing `posts` over a store holding `keys` goes through: every post has a user, the store
      is available if there is any post, and every new post can be written. */
  predicate Succeeds(keys: set<Key>, posts: seq<Mblog>, available: bool) {
    && AllKeyed(posts)
    && (|posts| > 0 ==> available)
    && AllStorable(NewPosts(keys, posts))
  }

  /** Storing two stretches goes through exactly when the first does and then the second does,
      over the keys the first added. */
  lemma SucceedsAppend(keys: set<Key>, a: seq<Mblog>, b: seq<Mblog>, available: bool)
    ensures Succeeds(keys, a + b, available) <==>
              Succeeds(keys, a, available) && Succeeds(keys + KeysOf(a), b, available)
  {
    if AllKeyed(a) && AllKeyed(b) {
      NewPostsAppend(keys, a, b);
      AllStorableAppend(NewPosts(keys, a), NewPosts(keys + KeysOf(a), b));
    } else if !AllKeyed(a) {
      var i :| 0 <= i < |a| && a[i].user.None?;
      assert (a + b)[i] == a[i];
    } else {
      var i :| 0 <= i < |b| && b[i].user.None?;
      assert (a + b)[|a| + i] == b[i];
    }
  }

  /** What storing two stretches leaves: the keys of both, and the new posts of the first
      followed by those of the second. */
  lemma StateAppend(s: PassState, a: seq<Mblog>, b: seq<Mblog>)
    requires AllKeyed(a) && AllKeyed(b)
    ensures AllKeyed(a + b)
    ensures var s1 := PassState(s.keys + KeysOf(a), s.found + NewPosts(s.keys, a));
            PassState(s.keys + KeysOf(a + b), s.found + NewPosts(s.keys, a + b)) ==
            PassState(s1.keys + KeysOf(b), s1.found + NewPosts(s1.keys, b))
  {
    NewPostsAppend(s.keys, a, b);
    KeysOfAppend(a, b);
  }

  /** Storing a page succeeds exactly when every post has a user, the store is available (if
      there is any post) and every new post can be written; it then stores exactly the new posts,
      in page order. */
  lemma {:induction false} StoreAllMeaning(s: PassState, posts: seq<Mblog>, available: bool)
    ensures StoreAll(s, posts, available).Ok? <==> Succeeds(s.keys, posts, available)
    ensures StoreAll(s, posts, available).Ok? ==>
              StoreAll(s, posts, available).value == PassState(s.keys + KeysOf(posts), s.found + NewPosts(s.keys, posts))
    decreases |posts|
  {
    if |posts| == 0 {
      assert KeysOf(posts) == {};
      assert s.found + [] == s.found;
    } else {
      Tail(posts);
      var p := posts[0];
      if p.user.Some? && available {
        KeysOfCons(p, posts[1..]);
        if KeyOf(p) in s.keys {
          StoreAllMeaning(s, posts[1..], available);
          assert s.keys + KeysOf(posts[1..]) == s.keys + KeysOf(posts);
        } else if Storable(p) {
          var s1 := PassState(s.keys + {KeyOf(p)}, s.found + [p]);
          StoreAllMeaning(s1, posts[1..], available);
          if AllKeyed(posts[1..]) {
            var rest := NewPosts(s1.keys, posts[1..]);
            assert NewPosts(s.keys, posts) == [p] + rest;
            AllStorableAppend([p], rest);
            assert s1.found + rest == s.found + ([p] + rest);
            assert s1.keys + KeysOf(posts[1..]) == s.keys + KeysOf(posts);
          }
        } else if AllKeyed(posts[1..]) {
          var out := NewPosts(s.keys, posts);
          assert out[0] == p;
        }
      }
    }
  }

  /** A pass succeeds exactly when every page is fetched and storing everything fetched goes
      through. It then returns the new posts in fetch order, and the store's keys become its old
      keys plus every fetched key. */
  lemma {:induction false} PassOverMeaning(up: Upstream, s: PassState, reqs: seq<Request>, available: bool)
    ensures PassOver(up, s, reqs, available).Ok? <==>
              FetchAll(up, reqs).Ok? && Succeeds(s.keys, FetchAll(up, reqs).value, available)
    ensures PassOver(up, s, reqs, available).Ok? ==>
              var fetched := FetchAll(up, reqs).value;
              PassOver(up, s, reqs, available).value == PassState(s.keys + KeysOf(fetched), s.found + NewPosts(s.keys, fetched))
    decreases |reqs|
  {
    if |reqs| == 0 {
      assert KeysOf([]) == {};
      assert s.found + [] == s.found;
    } else {
      assert PassFrom(up, s, reqs, available) == PageStep(up, s, reqs, available);
      var page := TimelinePage(up, reqs[0].userid, reqs[0].page, true);
      if page.Ok? {
        var posts := page.value;
        StoreAllMeaning(s, posts, available);
        var s1 := PassState(s.keys + KeysOf(posts), if AllKeyed(posts) then s.found + NewPosts(s.keys, posts) else s.found);
        PassOverMeaning(up, s1, reqs[1..], available);
        var tail := FetchAll(up, reqs[1..]);
        if tail.Ok? {
          var more := tail.value;
          assert FetchAll(up, reqs) == Ok(posts + more);
          SucceedsAppend(s.keys, posts, more, available);
          if AllKeyed(posts) && AllKeyed(more) {
            StateAppend(s, posts, more);
          }
        }
      }
    }
  }

  /** Whatever the outcome, storing a page only adds: the found posts are extended, and the keys
      grow by exactly the keys of the posts added. */
  lemma {:induction false} StoreFromGrows(s: PassState, posts: seq<Mblog>, available: bool)
    ensures var t := StoreFrom(s, posts, available).state;
            && |s.found| <= |t.found| && t.found[..|s.found|] == s.found
            && t.keys == s.keys + KeysOf(t.found[|s.found|..])
    decreases |posts|
  {
    var t := StoreFrom(s, posts, available).state;
    if |posts| == 0 || StorePost(s, posts[0], available).Err? {
      assert t.found[|s.found|..] == [];
      assert KeysOf([]) == {};
    } else {
      var p := posts[0];
      var s1 := StorePost(s, p, available).value;
      StoreFromGrows(s1, posts[1..], available);
      if KeyOf(p) !in s.keys {
        assert t.found[..|s1.found|] == s1.found == s.found + [p];
        assert t.found[..|s.found|] == s1.found[..|s.found|];
        assert t.found[|s.found|..] == [p] + t.found[|s1.found|..];
        KeysOfCons(p, t.found[|s1.found|..]);
      }
    }
  }

  /** Whatever the outcome, a pass only adds: the found posts are extended, and the keys grow by
      exactly the keys of the posts found, so the rows written before an error stay. */
  lemma {:induction false} PassFromGrows(up: Upstream, s: PassState, reqs: seq<Request>, available: bool)
    ensures var t := PassFrom(up, s, reqs, available).state;
            && |s.found| <= |t.found| && t.found[..|s.found|] == s.found
            && t.keys == s.keys + KeysOf(t.found[|s.found|..])
    decreases |reqs|
  {
    var t := PassFrom(up, s, reqs, available).state;
    if |reqs| > 0 {
      assert PassFrom(up, s, reqs, available) == PageStep(up, s, reqs, available);
    }
    var page := if |reqs| == 0 then Err(BodyNotOk) else TimelinePage(up, reqs[0].userid, reqs[0].page, true);
    if page.Err? {
      assert t.found[|s.found|..] == [];
      assert KeysOf([]) == {};
    } else {
      var stored := StoreFrom(s, page.value, available);
      StoreFromGrows(s, page.value, available);
      if stored.error.None? {
        var s1 := stored.state;
        PassFromGrows(up, s1, reqs[1..], available);
        assert t.found[..|s.found|] == s1.found[..|s.found|];
        assert t.found[|s.found|..] == s1.found[|s.found|..] + t.found[|s1.found|..];
        KeysOfAppend(s1.found[|s.found|..], t.found[|s1.found|..]);
      }
    }
  }

  /** A pass from the `a`-th author on is a pass over that author's pages, then, unless it failed,
      over the remaining authors. */
  lemma PassFromAuthorAt(up: Upstream, s: PassState, authors: seq<string>, a: int, first: int, last: int, available: bool)
    requires 0 <= a < |authors|
    ensures PassFrom(up, s, Requests(authors[a..], first, last), available)
            == Then(up, PassFrom(up, s, PagesOf(authors[a], first, last), available), Requests(authors[a + 1..], first, last), available)
  {
    assert authors[a..][0] == authors[a] && authors[a..][1..] == authors[a + 1..];
    PassFromAppend(up, s, PagesOf(authors[a], first, last), Requests(authors[a + 1..], first, last), available);
  }

  /** The pass over the authors from the `a`-th on: each author's pages in turn, the next author
      only when the previous one finished without error. */
  function AuthorsFrom(up: Upstream, s: PassState, authors: seq<string>, a: nat, first: int, last: int, available: bool): Reached
    decreases |authors| - a
  {
    if a >= |authors| then Reached(s, None)
    else
      var pass := PassFrom(up, s, PagesOf(authors[a], first, last), available);
      if pass.error.Some? then pass else AuthorsFrom(up, pass.state, authors, a + 1, first, last, available)
  }

  /** Author after author is the pass over the requests of the remaining authors. */
  lemma {:induction false} AuthorsFromIsPass(up: Upstream, s: PassState, authors: seq<string>, a: nat, first: int, last: int, available: bool)
    requires a <= |authors|
    ensures AuthorsFrom(up, s, authors, a, first, last, available) == PassFrom(up, s, Requests(authors[a..], first, last), available)
    decreases |authors| - a
  {
    if a == |authors| {
      assert authors[a..] == [];
    } else {
      PassFromAuthorAt(up, s, authors, a, first, last, available);
      var pass := PassFrom(up, s, PagesOf(authors[a], first, last), available);
      if pass.error.None? {
        AuthorsFromIsPass(up, pass.state, authors, a + 1, first, last, available);
      }
    }
  }

  /** A fetch error anywhere fails the pass. */
  lemma FetchErrorFailsPass(up: Upstream, s: PassState, reqs: seq<Request>, available: bool)
    requires FetchAll(up, reqs).Err?
    ensures PassOver(up, s, reqs, available).Err?
  {
    PassOverMeaning(up, s, reqs, available);
  }

  /** Running a pass again over the same upstream, on the store the first pass left, finds
      nothing and stores nothing. */
  lemma SecondPassFindsNothing(up: Upstream, seen: set<Key>, reqs: seq<Request>, available: bool)
    requires PassOver(up, PassState(seen, []), reqs, available).Ok?
    ensures var after := PassOver(up, PassState(seen, []), reqs, available).value.keys;
            PassOver(up, PassState(after, []), reqs, available) == Ok(PassState(after, []))
  {
    PassOverMeaning(up, PassState(seen, []), reqs, available);
    var after := PassOver(up, PassState(seen, []), reqs, available).value.keys;
    var fetched := FetchAll(up, reqs).value;
    assert after == seen + KeysOf(fetched);
    NewPostsAllSeen(after, fetched);
    assert AllStorable(NewPosts(after, fetched));
    PassOverMeaning(up, PassState(after, []), reqs, available);
    assert after + KeysOf(fetched) == after;
    var none: seq<Mblog> := [];
    assert none + NewPosts(after, fetched) == none;
  }

  /** The collector program: its client and store, and its configuration. */
  class App {
    const client: Client
    const database: Database
    const full: bool
    const userid: string
    const page: int
    const spec: string
    var notifications: seq<seq<Mblog>>
    var scheduled: bool

    constructor (client: Client, database: Database, full: bool, userid: string, page: int, spec: string)
      ensures this.client == client && this.database == database && this.full == full
      ensures this.userid == userid && this.page == page && this.spec == spec
      ensures notifications == [] && !scheduled
    {
      this.client := client;
      this.database := database;
      this.full := full;
      this.userid := userid;
      this.page := page;
      this.spec := spec;
      notifications := [];
      scheduled := false;
    }

    /** One post of a page after the posts found so far: look it up and, when absent, insert it
        and append it. The step is `StorePost`; a failed step leaves the table as it was. */
    method StoreOne(p: Mblog, found: seq<Mblog>) returns (r: Result<seq<Mblog>>)
      requires database.StoresAll(found)
      modifies database`table
      ensures var step := StorePost(PassState(old(database.table).Keys, found), p, database.online && database.hasTable);
              && (step.Err? ==> r == Err(step.error) && database.table == old(database.table))
              && (step.Ok? ==> r == Ok(step.value.found) && database.table.Keys == step.value.keys)
      ensures r.Ok? ==> database.StoresAll(r.value)
      ensures KeepsRows(old(database.table), database.table)
      ensures old(database.Keyed()) ==> database.Keyed()
    {
      var has := database.HasMblog(p);
      if has.Err? {
        return Err(has.error);
      }
      if has.value {
        return Ok(found);
      }
      ghost var before := database.table;
      var added := database.AddMblog(p);
      if added.Fail? {
        return Err(added.error);
      }
      assert database.table.Keys == before.Keys + {KeyOf(p)};
      StoredInKept(before, database.table, found);
      assert database.Stores(p);
      r := Ok(found + [p]);
    }

    /** Store the posts of one page after those found so far, one post after the other. Whether
        the page is stored completely or an error stops it, the table holds exactly the keys
        reached, with a row for every post found. */
    method StorePage(posts: seq<Mblog>, found: seq<Mblog>) returns (r: Result<seq<Mblog>>)
      requires database.StoresAll(found)
      modifies database`table
      ensures var reached := StoreFrom(PassState(old(database.table).Keys, found), posts, database.online && database.hasTable);
              && r == Returned(reached)
              && database.table.Keys == reached.state.keys
              && database.StoresAll(reached.state.found)
      ensures KeepsRows(old(database.table), database.table)
      ensures old(database.Keyed()) ==> database.Keyed()
    {
      ghost var available := database.online && database.hasTable;
      ghost var whole := StoreFrom(PassState(database.table.Keys, found), posts, available);
      var mblogs := found;
      var k := 0;
      while k < |posts|
        invariant 0 <= k <= |posts|
        invariant StoreFrom(PassState(database.table.Keys, mblogs), posts[k..], available) == whole
        invariant KeepsRows(old(database.table), database.table)
        invariant database.StoresAll(mblogs)
        invariant old(database.Keyed()) ==> database.Keyed()
      {
        StoreFromAt(PassState(database.table.Keys, mblogs), posts, k, available);
        ghost var before := database.table;
        var stored := StoreOne(posts[k], mblogs);
        KeepsRowsTrans(old(database.table), before, database.table);
        if stored.Err? {
          return Err(stored.error);
        }
        mblogs := stored.value;
        k := k + 1;
      }
      assert posts[k..] == [];
      r := Ok(mblogs);
    }

    /** One page of an author, after the posts found so far: the page is fetched with long texts
        resolved and its posts stored. On an error the table holds exactly the keys the pass over
        this page and the following ones reached; otherwise the rest of that pass continues from
        the posts found with this page. */
    method CollectPage(author: string, page: int, rest: seq<Request>, found: seq<Mblog>) returns (r: Result<seq<Mblog>>)
      requires database.StoresAll(found) && database.Keyed()
      modifies database`table
      ensures var pass := PassFrom(client.upstream, PassState(old(database.table).Keys, found), [Request(author, page)] + rest,
                                   database.online && database.hasTable);
              && (r.Err? ==> r == Returned(pass) && database.table.Keys == pass.state.keys && database.StoresAll(pass.state.found))
              && (r.Ok? ==> PassFrom(client.upstream, PassState(database.table.Keys, r.value), rest, database.online && database.hasTable) == pass)
      ensures r.Ok? ==> database.StoresAll(r.value)
      ensures KeepsRows(old(database.table), database.table)
      ensures database.Keyed()
    {
      PassFromCons(client.upstream, PassState(database.table.Keys, found), Request(author, page), rest, database.online && database.hasTable);
      var posts := client.GetMblogs(author, page, true);
      if posts.Err? {
        return Err(posts.error);
      }
      r := StorePage(posts.value, found);
    }

    /** The pages `first` to `last` of one author, after the posts found so far: each page is
        fetched with long texts resolved and stored before the next one is fetched. */
    method CollectAuthor(author: string, first: int, last: int, found: seq<Mblog>) returns (r: Result<seq<Mblog>>)
      requires database.StoresAll(found) && database.Keyed()
      modifies database`table
      ensures var pass := PassFrom(client.upstream, PassState(old(database.table).Keys, found), PagesOf(author, first, last),
                                   database.online && database.hasTable);
              && r == Returned(pass)
              && database.table.Keys == pass.state.keys
              && database.StoresAll(pass.state.found)
      ensures KeepsRows(old(database.table), database.table)
      ensures database.Keyed()
    {
      ghost var up := client.upstream;
      ghost var available := database.online && database.hasTable;
      ghost var whole := PassFrom(up, PassState(database.table.Keys, found), PagesOf(author, first, last), available);
      var mblogs := found;
      var i := first;
      while i <= last
        invariant PassFrom(up, PassState(database.table.Keys, mblogs), PagesOf(author, i, last), available) == whole
        invariant KeepsRows(old(database.table), database.table)
        invariant database.StoresAll(mblogs)
        invariant database.Keyed()
        decreases last - i + 1
      {
        ghost var before := database.table;
        var stored := CollectPage(author, i, PagesOf(author, i + 1, last), mblogs);
        KeepsRowsTrans(old(database.table), before, database.table);
        if stored.Err? {
          return stored;
        }
        mblogs := stored.value;
        i := i + 1;
      }
      r := Ok(mblogs);
    }

    /** The pages `first` to `last` of every author in turn, from an empty list of found posts.
        Rows already in the store stay as they were; whether the pass completes or an error stops
        it, the table holds exactly the keys the pass reached, with a row for every post found. */
    method CollectAuthors(authors: seq<string>, first: int, last: int) returns (r: Result<seq<Mblog>>)
      requires database.Keyed()
      modifies database`table
      ensures var whole := AuthorsFrom(client.upstream, PassState(old(database.table).Keys, []), authors, 0, first, last,
                                       database.online && database.hasTable);
              && r == Returned(whole)
              && database.table.Keys == whole.state.keys
              && database.StoresAll(whole.state.found)
      ensures KeepsRows(old(database.table), database.table)
      ensures database.Keyed()
    {
      ghost var up := client.upstream;
      ghost var available := database.online && database.hasTable;
      ghost var whole := AuthorsFrom(up, PassState(database.table.Keys, []), authors, 0, first, last, available);
      var mblogs: seq<Mblog> := [];
      var a := 0;
      while a < |authors|
        invariant 0 <= a <= |authors|
        invariant AuthorsFrom(up, PassState(database.table.Keys, mblogs), authors, a, first, last, available) == whole
        invariant KeepsRows(old(database.table), database.table)
        invariant database.StoresAll(mblogs)
        invariant database.Keyed()
      {
        ghost var before := database.table;
        var found := CollectAuthor(authors[a], first, last, mblogs);
        KeepsRowsTrans(old(database.table), before, database.table);
        if found.Err? {
          return Err(found.error);
        }
        mblogs := found.value;
        a := a + 1;
      }
      r := Ok(mblogs);
    }

    /** One collection pass: every author of the comma-separated list in turn, pages `page` to 98
        for a full pass or to 1 otherwise. Rows already in the store stay as they were; whether
        the pass completes or an error stops it, the table holds exactly the keys the pass reached,
        with a row for every post it found. */
    method Collect(full: bool) returns (r: Result<seq<Mblog>>)
      requires database.Keyed()
      modifies database`table
      ensures var whole := CollectPass(client.upstream, old(database.table).Keys, userid, page, full, database.online && database.hasTable);
              && r == Returned(whole)
              && database.table.Keys == whole.state.keys
              && database.StoresAll(whole.state.found)
      ensures KeepsRows(old(database.table), database.table)
      ensures database.Keyed()
    {
      var last := if full then 98 else 1;
      var authors := Split(userid, ',');
      AuthorsFromIsPass(client.upstream, PassState(database.table.Keys, []), authors, 0, page, last, database.online && database.hasTable);
      assert authors[0..] == authors;
      r := CollectAuthors(authors, page, last);
    }

    /** One scheduled run: an incremental pass, and a notification carrying its posts when it
        succeeded with at least one new post. The posts notified are stored, so a later run does
        not notify them again; a failed pass keeps the rows it wrote before the error. */
    method Monitoring()
      requires database.Keyed()
      modifies database`table, this`notifications
      ensures var whole := CollectPass(client.upstream, old(database.table).Keys, userid, page, false, database.online && database.hasTable);
              && notifications == old(notifications) + (if whole.error.None? && |whole.state.found| > 0 then [whole.state.found] else [])
              && database.table.Keys == whole.state.keys
              && database.StoresAll(whole.state.found)
      ensures KeepsRows(old(database.table), database.table)
      ensures database.Keyed()
    {
      var found := Collect(false);
      if found.Ok? && |found.value| > 0 {
        notifications := notifications + [found.value];
      }
    }

    /** Register monitoring with the scheduler. */
    method Cron()
      modifies this`scheduled
      ensures scheduled
    {
      scheduled := true;
    }

    /** Startup: migrate the store first; a failed migration stops everything. Then, for a full
        configuration, one full pass, whose failure also stops startup with the pass's error;
        then monitoring is scheduled. The full pass leaves its rows in the store either way. */
    method Run() returns (r: Outcome)
      requires database.Keyed()
      modifies database`hasTable, database`table, this`scheduled
      ensures !database.online ==> r == Fail(StoreUnavailable) && database.table == old(database.table) && scheduled == old(scheduled)
      ensures r.Pass? <==>
                (database.online && (full ==> CollectPass(client.upstream, old(database.table).Keys, userid, page, true, true).error.None?))
      ensures r.Pass? ==> scheduled && database.hasTable
      ensures r.Fail? ==> scheduled == old(scheduled)
      ensures database.online && !full ==> database.table == old(database.table)
      ensures var whole := CollectPass(client.upstream, old(database.table).Keys, userid, page, true, true);
              database.online && full ==>
                && database.table.Keys == whole.state.keys
                && database.StoresAll(whole.state.found)
                && (whole.error.Some? ==> r == Fail(whole.error.value))
      ensures KeepsRows(old(database.table), database.table)
    {
      r := database.Migrate();
      if r.Fail? {
        return;
      }
      if full {
        var found := Collect(true);
        if found.Err? {
          return Fail(found.error);
        }
      }
      Cron();
      r := Pass;
    }
  }
}
