/** The desktop API client: the long-text request, the long-text resolution policy, the timeline
    page request with its per-post resolution loop, and the cookie check. The platform itself is
    an `Upstream`: what it answers to each request URL. */
module Api {
  import opened Base
  import opened Text
  import opened Posts
  import opened MPosts

  /** The outcome of one HTTP exchange: a decoded body, status 400, or any other failure
      (transport, reading the body, decoding it). */
  datatype Reply<T> = Answer(body: T) | Rejected | Broken(reason: string)

  datatype MymblogBody = MymblogBody(list: seq<Mblog>, ok: int)

  datatype LongtextBody = LongtextBody(longTextContent: string, ok: int)

  /** What the platform answers, per request URL (GET) or per followed user id (the friendship
      POST, whose body is ignored). */
  datatype Upstream = Upstream(
    timeline: string -> Reply<MymblogBody>,
    longtext: string -> Reply<LongtextBody>,
    container: string -> Reply<CMblogBody>,
    friendship: string -> Reply<()>)

  /** `getJSON`'s error mapping: status 400 becomes `BadRequest`, every other failure its own error. */
  function Received<T>(reply: Reply<T>): (r: Result<T>)
    ensures r == Err(BadRequest) <==> reply.Rejected?
    ensures r.Ok? <==> reply.Answer?
    ensures r.Ok? ==> r.value == reply.body
  {
    match reply
    case Answer(body) => Ok(body)
    case Rejected => Err(BadRequest)
    case Broken(reason) => Err(Transport(reason))
  }

  function LongTextUrl(mblogId: string): string {
    "https://weibo.com/ajax/statuses/longtext?id=" + mblogId
  }

  function TimelineUrl(userid: string, page: int): string {
    "https://weibo.com/ajax/statuses/mymblog?uid=" + userid + "&page=" + IntToString(page) + "&feature=0"
  }

  /** One author's timeline pages are requested at distinct URLs: the URL determines the page. */
  lemma TimelineUrlInjective(userid: string, p1: int, p2: int)
    ensures TimelineUrl(userid, p1) == TimelineUrl(userid, p2) <==> p1 == p2
  {
    var head := "https://weibo.com/ajax/statuses/mymblog?uid=" + userid + "&page=";
    var tail := "&feature=0";
    var u1, u2 := TimelineUrl(userid, p1), TimelineUrl(userid, p2);
    assert u1 == head + IntToString(p1) + tail;
    assert u2 == head + IntToString(p2) + tail;
    if u1 == u2 {
      assert u1[|head|..|u1| - |tail|] == IntToString(p1);
      assert u2[|head|..|u2| - |tail|] == IntToString(p2);
      IntToStringRoundTrip(p1);
      IntToStringRoundTrip(p2);
    }
  }

  /** The long text of a post as `GetMblogLongText` obtains it. */
  function LongTextOf(up: Upstream, mblogId: string): Result<string> {
    match Received(up.longtext(LongTextUrl(mblogId)))
    case Err(e) => Err(e)
    case Ok(body) => if body.ok != 1 then Err(BodyNotOk) else Ok(body.longTextContent)
  }

  /** The long-text policy applied to one post: a post that is not long text is left alone; a long
      text that is obtained replaces `longTextRaw`; a BadRequest leaves the post as it was; any
      other error is passed on. */
  function ResolveLongText(up: Upstream, m: Mblog): Result<Mblog> {
    if !m.isLongText then Ok(m)
    else match LongTextOf(up, m.mblogId)
      case Ok(t) => Ok(m.(longTextRaw := t))
      case Err(e) => if e == BadRequest then Ok(m) else Err(e)
  }

  /** A post resolved, then its repost; the repost is only tried once the post itself succeeded. */
  function ResolvePost(up: Upstream, m: Mblog): Result<Mblog> {
    match ResolveLongText(up, m)
    case Err(e) => Err(e)
    case Ok(m1) =>
      if m1.retweeted.None? then Ok(m1)
      else match ResolveLongText(up, m1.retweeted.value)
        case Err(e) => Err(e)
        case Ok(rt) => Ok(m1.(retweeted := Some(rt)))
  }

  /** The page loop of `GetMblogs` from position i on, with the posts kept so far. */
  function ResolveFrom(up: Upstream, list: seq<Mblog>, i: nat, acc: seq<Mblog>, longtext: bool): Result<seq<Mblog>>
    decreases |list| - i
  {
    if i >= |list| then Ok(acc)
    else if !longtext then ResolveFrom(up, list, i + 1, acc + [list[i]], longtext)
    else match ResolvePost(up, list[i])
      case Err(e) => Err(e)
      case Ok(m) => ResolveFrom(up, list, i + 1, acc + [m], longtext)
  }

  /** One page of a user's timeline as `GetMblogs` returns it. */
  function TimelinePage(up: Upstream, userid: string, page: int, longtext: bool): Result<seq<Mblog>> {
    PageOf(up, up.timeline(TimelineUrl(userid, page)), longtext)
  }

  /** A timeline page from the reply to its request. */
  function PageOf(up: Upstream, reply: Reply<MymblogBody>, longtext: bool): Result<seq<Mblog>> {
    match Received(reply)
    case Err(e) => Err(e)
    case Ok(body) => if body.ok != 1 then Err(BodyNotOk) else ResolveFrom(up, body.list, 0, [], longtext)
  }

  /** `m2` is `m` with at most its own and its repost's `longTextRaw` replaced. */
  predicate SameExceptLongText(m2: Mblog, m: Mblog) {
    && m2 == m.(longTextRaw := m2.longTextRaw, retweeted := m2.retweeted)
    && m2.retweeted.Some? == m.retweeted.Some?
    && (m.retweeted.Some? ==>
          m2.retweeted.value == m.retweeted.value.(longTextRaw := m2.retweeted.value.longTextRaw))
  }

  /** Resolution only ever fills in long texts: identity, raw text, pictures and the repost's own
      fields are kept. */
  lemma ResolvePostKeepsPost(up: Upstream, m: Mblog)
    requires ResolvePost(up, m).Ok?
    ensures SameExceptLongText(ResolvePost(up, m).value, m)
  {
  }

  /** A failure of the post's own long text ends its resolution: the repost is not tried. */
  lemma OuterFailureSkipsRepost(up: Upstream, m: Mblog, repost: Option<Mblog>)
    requires ResolveLongText(up, m).Err?
    ensures ResolvePost(up, m.(retweeted := repost)) == ResolveLongText(up, m)
  {
  }

  /** A repost whose long text is refused with BadRequest does not stop the post itself from being
      resolved; the repost is kept as it was. */
  lemma RepostRefusalKeepsPost(up: Upstream, m: Mblog)
    requires m.retweeted.Some? && m.retweeted.value.isLongText
    requires up.longtext(LongTextUrl(m.retweeted.value.mblogId)).Rejected?
    requires ResolveLongText(up, m).Ok?
    ensures ResolvePost(up, m) == ResolveLongText(up, m)
  {
  }

  /** After resolution the stored text is the fetched long text when that is non-empty, and the raw
      text otherwise (an empty long text falls back). */
  lemma TheTextAfterResolve(up: Upstream, m: Mblog)
    requires m.isLongText && m.longTextRaw == "" && LongTextOf(up, m.mblogId).Ok?
    ensures ResolveLongText(up, m).Ok?
    ensures var t := LongTextOf(up, m.mblogId).value;
            ResolveLongText(up, m).value.TheText() == if t != "" then t else m.textRaw
  {
  }

  /** Without long-text resolution the page loop returns the decoded list unchanged. */
  lemma {:induction false} ResolveFromWithoutLongText(up: Upstream, list: seq<Mblog>, i: nat, acc: seq<Mblog>)
    requires i <= |list|
    ensures ResolveFrom(up, list, i, acc, false) == Ok(acc + list[i..])
    decreases |list| - i
  {
    if i < |list| {
      ResolveFromWithoutLongText(up, list, i + 1, acc + [list[i]]);
      assert acc + [list[i]] + list[i + 1..] == acc + list[i..];
    } else {
      assert acc + list[i..] == acc;
    }
  }

  /** A successful page loop keeps the length and order of the decoded list: position k of the
      output is the k-th decoded post with at most its long texts filled in. */
  lemma {:induction false} ResolveFromKeepsOrder(up: Upstream, list: seq<Mblog>, i: nat, acc: seq<Mblog>, longtext: bool)
    requires i <= |list| && ResolveFrom(up, list, i, acc, longtext).Ok?
    ensures var out := ResolveFrom(up, list, i, acc, longtext).value;
            |out| == |acc| + |list| - i && out[..|acc|] == acc &&
            forall k :: i <= k < |list| ==> SameExceptLongText(out[|acc| + k - i], list[k])
    decreases |list| - i
  {
    if i < |list| {
      var m := if longtext then ResolvePost(up, list[i]).value else list[i];
      assert SameExceptLongText(m, list[i]);
      ResolveFromKeepsOrder(up, list, i + 1, acc + [m], longtext);
      var out := ResolveFrom(up, list, i, acc, longtext).value;
      assert out[..|acc|] == (acc + [m])[..|acc|];
      assert out[|acc|] == (acc + [m])[|acc|];
    }
  }

  /** A failed page loop fails with the error of the first post (or its repost) that failed, after
      every earlier post resolved. */
  lemma {:induction false} ResolveFromFirstError(up: Upstream, list: seq<Mblog>, i: nat, acc: seq<Mblog>, longtext: bool)
    requires ResolveFrom(up, list, i, acc, longtext).Err?
    ensures longtext
    ensures exists k :: i <= k < |list| && ResolvePost(up, list[k]) == Err(ResolveFrom(up, list, i, acc, longtext).error) &&
                        forall j :: i <= j < k ==> ResolvePost(up, list[j]).Ok?
    decreases |list| - i
  {
    if !longtext {
      ResolveFromWithoutLongText(up, list, i, acc);
    } else if ResolvePost(up, list[i]).Ok? {
      ResolveFromFirstError(up, list, i + 1, acc + [ResolvePost(up, list[i]).value], longtext);
      var k :| i + 1 <= k < |list| && ResolvePost(up, list[k]) == Err(ResolveFrom(up, list, i, acc, longtext).error) &&
               forall j :: i + 1 <= j < k ==> ResolvePost(up, list[j]).Ok?;
      assert forall j :: i <= j < k ==> ResolvePost(up, list[j]).Ok?;
    }
  }

  /** A page fails with the request's own error, or with BodyNotOk when the envelope's `ok` is
      not 1. */
  lemma PageErrors(up: Upstream, reply: Reply<MymblogBody>, longtext: bool)
    ensures !reply.Answer? ==> PageOf(up, reply, longtext) == Err(Received(reply).error)
    ensures reply.Answer? && reply.body.ok != 1 ==> PageOf(up, reply, longtext) == Err(BodyNotOk)
  {
  }

  /** A page that succeeds came from an envelope with `ok` 1 and holds the decoded list in its
      order, each post with at most its long texts filled in. */
  lemma PageKeepsOrder(up: Upstream, reply: Reply<MymblogBody>, longtext: bool)
    requires PageOf(up, reply, longtext).Ok?
    ensures reply.Answer? && reply.body.ok == 1
    ensures var r := PageOf(up, reply, longtext).value;
            |r| == |reply.body.list| &&
            forall k :: 0 <= k < |reply.body.list| ==> SameExceptLongText(r[k], reply.body.list[k])
  {
    ResolveFromKeepsOrder(up, reply.body.list, 0, [], longtext);
  }

  /** Without long-text resolution a page is exactly the decoded list. */
  lemma PageWithoutLongText(up: Upstream, reply: Reply<MymblogBody>)
    requires reply.Answer? && reply.body.ok == 1
    ensures PageOf(up, reply, false) == Ok(reply.body.list)
  {
    ResolveFromWithoutLongText(up, reply.body.list, 0, []);
    assert [] + reply.body.list[0..] == reply.body.list;
  }

  /** The settings of the cookie check. */
  datatype CookieCheck = CookieCheck(check: bool, checked: bool, hiddenMblog: string, checkUser: string, checkMblogId: string)

  /** An API client: the session cookie, an optional proxy, the cookie-check state, and the platform
      it talks to. */
  class Client {
    var cookie: string
    var proxy: string
    var check: CookieCheck
    const upstream: Upstream

    constructor (cookie: string, proxy: string, check: CookieCheck, upstream: Upstream)
      ensures this.cookie == cookie && this.proxy == proxy && this.check == check
      ensures this.upstream == upstream
    {
      this.cookie := cookie;
      this.proxy := proxy;
      this.check := check;
      this.upstream := upstream;
    }

    /** Follow a user: only the status of the POST matters, 400 being BadRequest. */
    method AddFriend(uid: string) returns (r: Outcome)
      ensures r.Pass? <==> upstream.friendship(uid).Answer?
      ensures r.Fail? ==> r.error == Received(upstream.friendship(uid)).error
      ensures r == Fail(BadRequest) <==> upstream.friendship(uid).Rejected?
    {
      match Received(upstream.friendship(uid)) {
        case Ok(_) => r := Pass;
        case Err(e) => r := Fail(e);
      }
    }

    /** Fetch the full text of a post: the request's own error, or BodyNotOk when the envelope's
        `ok` is not 1, or the text. */
    method GetMblogLongText(mblogId: string) returns (r: Result<string>)
      ensures r == LongTextOf(upstream, mblogId)
      ensures r.Ok? <==> upstream.longtext(LongTextUrl(mblogId)).Answer? && upstream.longtext(LongTextUrl(mblogId)).body.ok == 1
      ensures r.Ok? ==> r.value == upstream.longtext(LongTextUrl(mblogId)).body.longTextContent
      ensures r == Err(BadRequest) <==> upstream.longtext(LongTextUrl(mblogId)).Rejected?
    {
      var body := Received(upstream.longtext(LongTextUrl(mblogId)));
      if body.Err? {
        return Err(body.error);
      }
      if body.value.ok != 1 {
        return Err(BodyNotOk);
      }
      r := Ok(body.value.longTextContent);
    }

    /** Resolve one post's long text; the post comes back with `longTextRaw` filled in. */
    method FetchMblogLongText(m: Mblog) returns (r: Result<Mblog>)
      ensures r == ResolveLongText(upstream, m)
      ensures !m.isLongText ==> r == Ok(m)
      ensures m.isLongText && upstream.longtext(LongTextUrl(m.mblogId)).Rejected? ==> r == Ok(m)
      ensures m.isLongText && LongTextOf(upstream, m.mblogId).Ok? ==>
                r == Ok(m.(longTextRaw := LongTextOf(upstream, m.mblogId).value))
      ensures r.Err? ==> r.error != BadRequest && r.error == LongTextOf(upstream, m.mblogId).error
      ensures r.Ok? ==> r.value == m.(longTextRaw := r.value.longTextRaw)
    {
      if m.isLongText {
        var longtext := GetMblogLongText(m.mblogId);
        if longtext.Err? {
          if longtext.error == BadRequest {
            return Ok(m);
          }
          return Err(longtext.error);
        }
        return Ok(m.(longTextRaw := longtext.value));
      }
      return Ok(m);
    }

    /** The body of `GetMblogs`' loop for one post: its own long text, then its repost's. */
    method ResolveMblog(m: Mblog) returns (r: Result<Mblog>)
      ensures r == ResolvePost(upstream, m)
      ensures r.Ok? ==> SameExceptLongText(r.value, m)
    {
      r := FetchMblogLongText(m);
      if r.Err? {
        return;
      }
      var v := r.value;
      if v.retweeted.Some? {
        var repost := FetchMblogLongText(v.retweeted.value);
        if repost.Err? {
          return Err(repost.error);
        }
        r := Ok(v.(retweeted := Some(repost.value)));
      }
    }

    /** One page of a user's timeline. A body whose `ok` is not 1 is an error; otherwise every post
        (and then its repost) is resolved in list order when `longtext` is set, and the first error
        that is not an absorbed BadRequest ends the call. */
    method GetMblogs(userid: string, page: int, longtext: bool) returns (r: Result<seq<Mblog>>)
      ensures r == TimelinePage(upstream, userid, page, longtext)
    {
      var body := Received(upstream.timeline(TimelineUrl(userid, page)));
      if body.Err? {
        return Err(body.error);
      }
      if body.value.ok != 1 {
        return Err(BodyNotOk);
      }
      var list := body.value.list;
      var mblogs: seq<Mblog> := [];
      var i := 0;
      while i < |list|
        invariant 0 <= i <= |list|
        invariant ResolveFrom(upstream, list, i, mblogs, longtext) == ResolveFrom(upstream, list, 0, [], longtext)
      {
        var v := list[i];
        if longtext {
          var resolved := ResolveMblog(v);
          if resolved.Err? {
            return Err(resolved.error);
          }
          v := resolved.value;
        }
        mblogs := mblogs + [v];
        i := i + 1;
      }
      r := Ok(mblogs);
    }

    /** Check that the cookie can see a hidden post: follow the check user, fetch the check post's
        long text, and set `checked` when it contains "live". Errors are returned and change
        nothing. */
    method CheckCookie() returns (isActivate: bool, r: Outcome)
      modifies this`check
      ensures upstream.friendship(old(check).checkUser).Answer? && LongTextOf(upstream, old(check).checkMblogId).Ok? ==>
                r == Pass &&
                isActivate == Contains(LongTextOf(upstream, old(check).checkMblogId).value, "live") &&
                check == old(check).(checked := old(check).checked || isActivate)
      ensures !upstream.friendship(old(check).checkUser).Answer? ==>
                r == Fail(Received(upstream.friendship(old(check).checkUser)).error) && !isActivate && check == old(check)
      ensures upstream.friendship(old(check).checkUser).Answer? && LongTextOf(upstream, old(check).checkMblogId).Err? ==>
                r == Fail(LongTextOf(upstream, old(check).checkMblogId).error) && !isActivate && check == old(check)
    {
      isActivate := false;
      r := AddFriend(check.checkUser);
      if r.Fail? {
        return;
      }
      var longtext := GetMblogLongText(check.checkMblogId);
      if longtext.Err? {
        r := Fail(longtext.error);
        return;
      }
      if Contains(longtext.value, "live") {
        isActivate := true;
        check := check.(checked := isActivate);
      }
    }
  }
}
