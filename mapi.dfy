/** The mobile container API: the interactions feed and the profile feed, both a list of cards from
    which posts are selected card by card, with the same long-text policy as the desktop API. */
module MApi {
  import opened Base
  import opened Text
  import opened MPosts
  import opened Api

  const ContainerPrefix := "https://m.weibo.cn/api/container/getIndex?containerid="

  /** The interactions feed of a user (container 230869). */
  function CommentsUrl(userid: string, page: int): string {
    ContainerPrefix + "230869" + userid + "_-_comment&page_type=03&page=" + IntToString(page)
  }

  /** The profile feed of a user (container 230413). */
  function ProfileUrl(userid: string, page: int): string {
    ContainerPrefix + "230413" + userid + "_-_WEIBO_SECOND_PROFILE_WEIBO&page_type=01&page=" + IntToString(page)
  }

  /** The two feeds never share a request: their container ids differ. */
  lemma FeedsAreDistinct(userid: string, page: int, userid2: string, page2: int)
    ensures CommentsUrl(userid, page) != ProfileUrl(userid2, page2)
  {
    var n := |ContainerPrefix|;
    assert CommentsUrl(userid, page)[n + 3] == '8';
    assert ProfileUrl(userid2, page2)[n + 3] == '4';
  }

  /** The long-text policy for a mobile post: not long text is left alone, BadRequest leaves the
      post as it was, any other error is passed on, a fetched text replaces `longTextRaw`. */
  function ResolveCLongText(up: Upstream, m: CMblog): Result<CMblog> {
    if !m.isLongText then Ok(m)
    else match LongTextOf(up, m.mblogId)
      case Ok(t) => Ok(m.(longTextRaw := t))
      case Err(e) => if e == BadRequest then Ok(m) else Err(e)
  }

  /** A mobile post resolved, then its repost once the post itself succeeded. */
  function ResolveCPost(up: Upstream, m: CMblog): Result<CMblog> {
    match ResolveCLongText(up, m)
    case Err(e) => Err(e)
    case Ok(m1) =>
      if m1.retweeted.None? then Ok(m1)
      else match ResolveCLongText(up, m1.retweeted.value)
        case Err(e) => Err(e)
        case Ok(rt) => Ok(m1.(retweeted := Some(rt)))
  }

  /** The card loop from card i on, with the posts selected so far. */
  function CardsFrom(up: Upstream, cards: seq<Card>, i: nat, acc: seq<CMblog>, longtext: bool): Result<seq<CMblog>>
    decreases |cards| - i
  {
    if i >= |cards| then Ok(acc)
    else match CardPost(cards[i])
      case None => CardsFrom(up, cards, i + 1, acc, longtext)
      case Some(m) =>
        if !longtext then CardsFrom(up, cards, i + 1, acc + [m], longtext)
        else match ResolveCPost(up, m)
          case Err(e) => Err(e)
          case Ok(m1) => CardsFrom(up, cards, i + 1, acc + [m1], longtext)
  }

  /** A feed page from the reply to its request, the same for both feeds. */
  function CardsPage(up: Upstream, reply: Reply<CMblogBody>, longtext: bool): Result<seq<CMblog>> {
    match Received(reply)
    case Err(e) => Err(e)
    case Ok(body) => if body.ok != 1 then Err(BodyNotOk) else CardsFrom(up, body.cards, 0, [], longtext)
  }

  /** `m2` is `m` with at most its own and its repost's `longTextRaw` replaced. */
  predicate SameExceptCLongText(m2: CMblog, m: CMblog) {
    && m2 == m.(longTextRaw := m2.longTextRaw, retweeted := m2.retweeted)
    && m2.retweeted.Some? == m.retweeted.Some?
    && (m.retweeted.Some? ==>
          m2.retweeted.value == m.retweeted.value.(longTextRaw := m2.retweeted.value.longTextRaw))
  }

  lemma SelectedFrom(cards: seq<Card>, i: nat)
    requires i < |cards|
    ensures Selected(cards[i..]) == OptionSeq(CardPost(cards[i])) + Selected(cards[i + 1..])
  {
    assert cards[i..][0] == cards[i];
    assert cards[i..][1..] == cards[i + 1..];
  }

  /** Without long-text resolution the card loop returns exactly the selected posts. */
  lemma {:induction false} CardsFromWithoutLongText(up: Upstream, cards: seq<Card>, i: nat, acc: seq<CMblog>)
    requires i <= |cards|
    ensures CardsFrom(up, cards, i, acc, false) == Ok(acc + Selected(cards[i..]))
    decreases |cards| - i
  {
    if i < |cards| {
      SelectedFrom(cards, i);
      var picked := OptionSeq(CardPost(cards[i]));
      CardsFromWithoutLongText(up, cards, i + 1, acc + picked);
      if CardPost(cards[i]).None? {
        assert acc + picked == acc;
      }
      assert acc + picked + Selected(cards[i + 1..]) == acc + Selected(cards[i..]);
    } else {
      assert acc + Selected(cards[i..]) == acc;
    }
  }

  /** A successful card loop returns the selected posts, in card order, each with at most its
      long texts filled in. */
  lemma {:induction false} CardsFromKeepsSelection(up: Upstream, cards: seq<Card>, i: nat, acc: seq<CMblog>, longtext: bool)
    requires i <= |cards| && CardsFrom(up, cards, i, acc, longtext).Ok?
    ensures var out := CardsFrom(up, cards, i, acc, longtext).value;
            var sel := Selected(cards[i..]);
            |out| == |acc| + |sel| && out[..|acc|] == acc &&
            forall k :: 0 <= k < |sel| ==> SameExceptCLongText(out[|acc| + k], sel[k])
    decreases |cards| - i, 1
  {
    if i < |cards| {
      SelectedFrom(cards, i);
      if CardPost(cards[i]).None? {
        CardsFromKeepsSelection(up, cards, i + 1, acc, longtext);
        assert Selected(cards[i..]) == Selected(cards[i + 1..]);
      } else {
        SelectedPostKept(up, cards, i, acc, longtext);
      }
    } else {
      assert Selected(cards[i..]) == [];
    }
  }

  /** The step of `CardsFromKeepsSelection` at a card that holds a post: that post, with at most
      its long texts filled in, comes right after the posts before it. */
  lemma {:induction false} SelectedPostKept(up: Upstream, cards: seq<Card>, i: nat, acc: seq<CMblog>, longtext: bool)
    requires i < |cards| && CardPost(cards[i]).Some? && CardsFrom(up, cards, i, acc, longtext).Ok?
    ensures var out := CardsFrom(up, cards, i, acc, longtext).value;
            var sel := Selected(cards[i..]);
            |out| == |acc| + |sel| && out[..|acc|] == acc &&
            forall k :: 0 <= k < |sel| ==> SameExceptCLongText(out[|acc| + k], sel[k])
    decreases |cards| - i, 0
  {
    SelectedFrom(cards, i);
    var out := CardsFrom(up, cards, i, acc, longtext).value;
    var sel := Selected(cards[i..]);
    var post := CardPost(cards[i]).value;
    var m := if longtext then ResolveCPost(up, post).value else post;
    assert SameExceptCLongText(m, post);
    CardsFromKeepsSelection(up, cards, i + 1, acc + [m], longtext);
    assert out[..|acc|] == (acc + [m])[..|acc|];
    assert out[|acc|] == (acc + [m])[|acc|];
    assert sel == [post] + Selected(cards[i + 1..]);
    forall k | 0 <= k < |sel|
      ensures SameExceptCLongText(out[|acc| + k], sel[k])
    {
      if k > 0 {
        assert sel[k] == Selected(cards[i + 1..])[k - 1];
      }
    }
  }

  /** A failed card loop fails with the error of the first selected post (or its repost) whose
      resolution failed, every earlier selected post having resolved. */
  lemma {:induction false} CardsFromFirstError(up: Upstream, cards: seq<Card>, i: nat, acc: seq<CMblog>, longtext: bool)
    requires CardsFrom(up, cards, i, acc, longtext).Err?
    ensures longtext
    ensures exists k :: i <= k < |cards| && CardPost(cards[k]).Some? &&
                        ResolveCPost(up, CardPost(cards[k]).value) == Err(CardsFrom(up, cards, i, acc, longtext).error) &&
                        forall j :: i <= j < k && CardPost(cards[j]).Some? ==> ResolveCPost(up, CardPost(cards[j]).value).Ok?
    decreases |cards| - i
  {
    if !longtext {
      CardsFromWithoutLongText(up, cards, i, acc);
    } else if CardPost(cards[i]).None? || ResolveCPost(up, CardPost(cards[i]).value).Ok? {
      var acc' := if CardPost(cards[i]).None? then acc else acc + [ResolveCPost(up, CardPost(cards[i]).value).value];
      CardsFromFirstError(up, cards, i + 1, acc', longtext);
      var k :| i + 1 <= k < |cards| && CardPost(cards[k]).Some? &&
               ResolveCPost(up, CardPost(cards[k]).value) == Err(CardsFrom(up, cards, i, acc, longtext).error) &&
               forall j :: i + 1 <= j < k && CardPost(cards[j]).Some? ==> ResolveCPost(up, CardPost(cards[j]).value).Ok?;
      assert forall j :: i <= j < k && CardPost(cards[j]).Some? ==> ResolveCPost(up, CardPost(cards[j]).value).Ok?;
    }
  }

  /** When a selected post's own long text fails, its repost is not tried and the whole card loop
      fails with that error. */
  lemma OuterFailureAbortsCards(up: Upstream, cards: seq<Card>, i: nat, acc: seq<CMblog>, repost: Option<CMblog>)
    requires i < |cards| && CardPost(cards[i]).Some?
    requires ResolveCLongText(up, CardPost(cards[i]).value).Err?
    ensures ResolveCPost(up, CardPost(cards[i]).value.(retweeted := repost)) == ResolveCLongText(up, CardPost(cards[i]).value)
    ensures CardsFrom(up, cards, i, acc, true) == Err(ResolveCLongText(up, CardPost(cards[i]).value).error)
  {
  }

  /** A feed page fails with the request's own error, or BodyNotOk when the envelope's `ok` is not
      1. */
  lemma CardsPageErrors(up: Upstream, reply: Reply<CMblogBody>, longtext: bool)
    ensures !reply.Answer? ==> CardsPage(up, reply, longtext) == Err(Received(reply).error)
    ensures reply.Answer? && reply.body.ok != 1 ==> CardsPage(up, reply, longtext) == Err(BodyNotOk)
  {
  }

  /** A feed page that succeeds came from an envelope with `ok` 1 and holds the selected posts of
      its cards, in card order, each with at most its long texts filled in. */
  lemma CardsPageKeepsSelection(up: Upstream, reply: Reply<CMblogBody>, longtext: bool)
    requires CardsPage(up, reply, longtext).Ok?
    ensures reply.Answer? && reply.body.ok == 1
    ensures var out := CardsPage(up, reply, longtext).value;
            var sel := Selected(reply.body.cards);
            |out| == |sel| && forall k :: 0 <= k < |sel| ==> SameExceptCLongText(out[k], sel[k])
  {
    var cards := reply.body.cards;
    assert cards[0..] == cards;
    CardsFromKeepsSelection(up, cards, 0, [], longtext);
  }

  /** Without long-text resolution a feed page is exactly the selected posts. */
  lemma CardsPageWithoutLongText(up: Upstream, reply: Reply<CMblogBody>)
    requires reply.Answer? && reply.body.ok == 1
    ensures CardsPage(up, reply, false) == Ok(Selected(reply.body.cards))
  {
    var cards := reply.body.cards;
    assert cards[0..] == cards;
    CardsFromWithoutLongText(up, cards, 0, []);
    assert [] + Selected(cards) == Selected(cards);
  }

  /** Resolve one mobile post's long text. */
  method FetchCMblogLongText(c: Client, m: CMblog) returns (r: Result<CMblog>)
    ensures r == ResolveCLongText(c.upstream, m)
    ensures !m.isLongText ==> r == Ok(m)
    ensures m.isLongText && c.upstream.longtext(LongTextUrl(m.mblogId)).Rejected? ==> r == Ok(m)
    ensures m.isLongText && LongTextOf(c.upstream, m.mblogId).Ok? ==>
              r == Ok(m.(longTextRaw := LongTextOf(c.upstream, m.mblogId).value))
    ensures r.Err? ==> r.error != BadRequest && r.error == LongTextOf(c.upstream, m.mblogId).error
  {
    if m.isLongText {
      var longtext := c.GetMblogLongText(m.mblogId);
      if longtext.Err? {
        if longtext.error == BadRequest {
          return Ok(m);
        }
        return Err(longtext.error);
      }
      return Ok(m.(longTextRaw := longtext.value));
    }
    return Ok(m);
  }

  /** One selected post: its own long text, then its repost's. */
  method ResolveCMblog(c: Client, m: CMblog) returns (r: Result<CMblog>)
    ensures r == ResolveCPost(c.upstream, m)
    ensures r.Ok? ==> SameExceptCLongText(r.value, m)
  {
    r := FetchCMblogLongText(c, m);
    if r.Err? {
      return;
    }
    var v := r.value;
    if v.retweeted.Some? {
      var repost := FetchCMblogLongText(c, v.retweeted.value);
      if repost.Err? {
        return Err(repost.error);
      }
      r := Ok(v.(retweeted := Some(repost.value)));
    }
  }

  /** The card loop shared by both feeds: a type-11 card with a non-empty group and no skip flag
      gives its first group entry's post, a type-9 card its own post, any other card nothing. */
  method CollectCards(c: Client, cards: seq<Card>, longtext: bool) returns (r: Result<seq<CMblog>>)
    ensures r == CardsFrom(c.upstream, cards, 0, [], longtext)
  {
    var mblogs: seq<CMblog> := [];
    var i := 0;
    while i < |cards|
      invariant 0 <= i <= |cards|
      invariant CardsFrom(c.upstream, cards, i, mblogs, longtext) == CardsFrom(c.upstream, cards, 0, [], longtext)
    {
      var card := cards[i];
      if card.cardType == 11 {
        if |card.cardGroup| == 0 || card.skipGroupTitle {
          i := i + 1;
          continue;
        }
        var v := card.cardGroup[0].mblog;
        if longtext {
          var resolved := ResolveCMblog(c, v);
          if resolved.Err? {
            return Err(resolved.error);
          }
          v := resolved.value;
        }
        mblogs := mblogs + [v];
      } else if card.cardType == 9 {
        var v := card.mblog;
        if longtext {
          var resolved := ResolveCMblog(c, v);
          if resolved.Err? {
            return Err(resolved.error);
          }
          v := resolved.value;
        }
        mblogs := mblogs + [v];
      }
      i := i + 1;
    }
    r := Ok(mblogs);
  }

  /** One page of a user's interactions feed. */
  method GetCMblogs(c: Client, userid: string, page: int, longtext: bool) returns (r: Result<seq<CMblog>>)
    ensures r == CardsPage(c.upstream, c.upstream.container(CommentsUrl(userid, page)), longtext)
  {
    var body := Received(c.upstream.container(CommentsUrl(userid, page)));
    if body.Err? {
      return Err(body.error);
    }
    if body.value.ok != 1 {
      return Err(BodyNotOk);
    }
    r := CollectCards(c, body.value.cards, longtext);
  }

  /** One page of a user's profile feed: the same selection and resolution, another container. */
  method GetMMblogs(c: Client, userid: string, page: int, longtext: bool) returns (r: Result<seq<CMblog>>)
    ensures r == CardsPage(c.upstream, c.upstream.container(ProfileUrl(userid, page)), longtext)
  {
    var body := Received(c.upstream.container(ProfileUrl(userid, page)));
    if body.Err? {
      return Err(body.error);
    }
    if body.value.ok != 1 {
      return Err(BodyNotOk);
    }
    r := CollectCards(c, body.value.cards, longtext);
  }
}
