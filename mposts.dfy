/** The records of the mobile container API: an envelope of cards, each card either a group whose
    first entry carries a post (type 11) or a card carrying a post itself (type 9). */
module MPosts {
  import opened Base
  import opened Text
  import opened Posts

  /** One post of the mobile API. `longTextRaw` is not part of the JSON; it starts empty. */
  datatype CMblog = CMblog(
    createdAt: string,
    id: string,
    text: string,
    picIds: seq<string>,
    user: Option<User>,
    isLongText: bool,
    picNum: int,
    mblogId: string,
    retweeted: Option<CMblog>,
    longTextRaw: string)
  {
    /** The post's text: its resolved long text, or else the HTML `text` with every `<br />` turned
        into a newline and the remaining tags removed by `stripTags` (an HTML tag stripper from a
        third-party library, taken as a parameter). */
    function TheText(stripTags: string -> string): (t: string)
      ensures longTextRaw != "" ==> t == longTextRaw
      ensures longTextRaw == "" ==> t == stripTags(ReplaceAll(text, "<br />", "\n"))
      ensures longTextRaw == "" && !Contains(text, "<br />") ==> t == stripTags(text)
    {
      if longTextRaw != "" then longTextRaw
      else if Contains(text, "<br />") then stripTags(ReplaceAll(text, "<br />", "\n"))
      else
        ReplaceAllWithoutOccurrence(text, "<br />", "\n");
        stripTags(ReplaceAll(text, "<br />", "\n"))
    }
  }

  datatype CardGroup = CardGroup(cardType: int, showType: int, mblog: CMblog)

  datatype Card = Card(cardType: int, showType: int, skipGroupTitle: bool, cardGroup: seq<CardGroup>, mblog: CMblog)

  datatype CMblogBody = CMblogBody(cards: seq<Card>, ok: int, msg: string)

  /** The post a card contributes: the first group entry's post for a type-11 card with a non-empty
      group and no skip flag, the card's own post for a type-9 card, nothing otherwise. */
  function CardPost(card: Card): Option<CMblog> {
    if card.cardType == 11 then
      if |card.cardGroup| == 0 || card.skipGroupTitle then None else Some(card.cardGroup[0].mblog)
    else if card.cardType == 9 then Some(card.mblog)
    else None
  }

  function OptionSeq<T>(o: Option<T>): seq<T> {
    if o.Some? then [o.value] else []
  }

  /** The posts a card list contributes before any long text is resolved, in card order. */
  function Selected(cards: seq<Card>): seq<CMblog>
    decreases |cards|
  {
    if |cards| == 0 then [] else OptionSeq(CardPost(cards[0])) + Selected(cards[1..])
  }

  /** Selection works card by card: the posts of a concatenation are the posts of each part, in
      order, so the output keeps card order and takes at most one post from each card. */
  lemma {:induction false} SelectedAppend(a: seq<Card>, b: seq<Card>)
    ensures Selected(a + b) == Selected(a) + Selected(b)
    decreases |a|
  {
    if |a| > 0 {
      assert (a + b)[0] == a[0] && (a + b)[1..] == a[1..] + b;
      SelectedAppend(a[1..], b);
    } else {
      assert a + b == b;
    }
  }

  /** At most one post per card. */
  lemma {:induction false} SelectedAtMostOnePerCard(cards: seq<Card>)
    ensures |Selected(cards)| <= |cards|
    decreases |cards|
  {
    if |cards| > 0 {
      SelectedAtMostOnePerCard(cards[1..]);
    }
  }

  /** A resolved long text is returned verbatim, whatever the stripper does. */
  lemma LongTextIsVerbatim(m: CMblog, stripTags: string -> string)
    requires m.longTextRaw != ""
    ensures m.TheText(stripTags) == m.longTextRaw
  {
  }

  /** Without a long text, the stripper is handed the HTML text with no `<br />` left in it, and a
      text that had none is handed over unchanged. */
  lemma BreaksBecomeNewlines(m: CMblog, stripTags: string -> string)
    requires m.longTextRaw == ""
    ensures var html := ReplaceAll(m.text, "<br />", "\n");
            m.TheText(stripTags) == stripTags(html) && !Contains(html, "<br />")
    ensures !Contains(m.text, "<br />") ==> m.TheText(stripTags) == stripTags(m.text)
  {
    ReplaceAllRemovesEvery(m.text, "<br />", "\n");
    if !Contains(m.text, "<br />") {
      ReplaceAllWithoutOccurrence(m.text, "<br />", "\n");
    }
  }
}
