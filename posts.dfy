/** The post record of the desktop API (`Mblog`) and what it computes from itself: the text to
    store, a one-line preview, and the normalisation of its two picture-location shapes into one
    map from picture id to the URL of its largest rendition. */
module Posts {
  import opened Base
  import opened Text

  datatype User = User(id: int, name: string, icon: string, remark: string)

  /** An untyped JSON value, as `encoding/json` decodes it into `interface{}`. Numbers keep no
      value here: no rule of the core reads one. */
  datatype Json =
    | JNull
    | JBool(b: bool)
    | JNumber
    | JString(s: string)
    | JArray(items: seq<Json>)
    | JObject(fields: map<string, Json>)

  /** Go's `m[name]` on a `map[string]interface{}`: a missing member reads as nil, like JSON null. */
  function Member(fields: map<string, Json>, name: string): Json {
    if name in fields then fields[name] else JNull
  }

  /** One post of the desktop timeline. `picInfos` and `mixMediaInfo` are `None` when the JSON
      member is absent or null (a nil Go map). `longTextRaw` is not part of the JSON: it starts
      empty and is filled in by the long-text resolution. */
  datatype Mblog = Mblog(
    user: Option<User>,
    createdAt: string,
    id: int,
    mblogId: string,
    textRaw: string,
    text: string,
    isLongText: bool,
    picNum: int,
    picIds: seq<string>,
    picInfos: Option<map<string, Json>>,
    mixMediaInfo: Option<map<string, Json>>,
    retweeted: Option<Mblog>,
    longTextRaw: string)
  {
    /** The text a post is stored with: its resolved long text, or its raw text while that is
        empty; so it is empty only when both are. */
    function TheText(): (t: string)
      ensures longTextRaw != "" ==> t == longTextRaw
      ensures longTextRaw == "" ==> t == textRaw
      ensures t == "" <==> longTextRaw == "" && textRaw == ""
    {
      if longTextRaw != "" then longTextRaw else textRaw
    }

    /** The one-line log form `ID | MblogID | IsLongText | long text resolved | preview`. */
    function String(): (r: string)
      ensures |Preview(textRaw)| <= |r| && r[|r| - |Preview(textRaw)|..] == Preview(textRaw)
      ensures '\n' !in mblogId ==> '\n' !in r
    {
      var r := IntToString(id) + " | " + mblogId + " | " + BoolString(isLongText) + " | "
               + BoolString(|longTextRaw| > 0) + " | " + Preview(textRaw);
      IntToStringHasNoNewline(id);
      PreviewShape(textRaw);
      r
    }

    /** The picture map of a present post. Only the picture fields are read: `pic_infos` when it
        is present, otherwise the picture items of `mix_media_info`. */
    method PicUrls() returns (r: Result<map<string, string>>)
      ensures r == PicUrlsOf(this)
      ensures picNum <= 0 ==> r == Ok(map[])
      ensures picNum > 0 && picInfos.Some? ==>
                (r.Ok? <==> forall i :: 0 <= i < |picIds| ==> LargestUrl(picInfos.value, picIds[i]).Ok?)
      ensures picNum > 0 && picInfos.Some? && r.Ok? ==>
                r.value.Keys == (set i | 0 <= i < |picIds| :: picIds[i]) &&
                forall i :: 0 <= i < |picIds| ==> r.value[picIds[i]] == LargestUrl(picInfos.value, picIds[i]).value
      ensures picNum > 0 && picInfos.None? && mixMediaInfo.None? ==> r == Ok(map[])
    {
      if picNum <= 0 {
        return Ok(map[]);
      }
      if picInfos.Some? {
        var infos := picInfos.value;
        var pics: map<string, string> := map[];
        var i := 0;
        while i < |picIds|
          invariant 0 <= i <= |picIds|
          invariant InfoUrlsFrom(picIds, infos, i, pics) == InfoUrlsFrom(picIds, infos, 0, map[])
        {
          var url := LargestUrl(infos, picIds[i]);
          if url.Err? {
            return Err(url.error);
          }
          pics := pics[picIds[i] := url.value];
          i := i + 1;
        }
        r := Ok(pics);
        InfoUrlsMeaning(picIds, infos, 0, map[]);
        return;
      }
      if mixMediaInfo.Some? {
        var items: seq<Json>;
        match Member(mixMediaInfo.value, "items") {
          case JArray(xs) => items := xs;
          case _ => return Err(Panic("mix_media_info.items is not an array"));
        }
        var pics: map<string, string> := map[];
        var i := 0;
        while i < |items|
          invariant 0 <= i <= |items|
          invariant MixUrlsFrom(items, i, pics) == MixUrlsFrom(items, 0, map[])
        {
          var item := MixItem(items[i]);
          match item {
            case Err(e) => return Err(e);
            case Ok(None) =>
            case Ok(Some(pic)) => pics := pics[pic.0 := pic.1];
          }
          i := i + 1;
        }
        return Ok(pics);
      }
      return Ok(map[]);
    }
  }

  function BoolString(b: bool): string {
    if b then "true" else "false"
  }

  /** The largest URL of one picture id in the `pic_infos` payload. Only the final type assertion
      is checked: a missing or non-object entry, or a missing or non-object `largest`, is a panic;
      a `url` that is not a string gives "". */
  function LargestUrl(infos: map<string, Json>, pic: string): Result<string> {
    match Member(infos, pic)
    case JObject(entry) =>
      (match Member(entry, "largest")
       case JObject(largest) =>
         Ok(match Member(largest, "url") case JString(u) => u case _ => "")
       case _ => Err(Panic("pic_infos entry has no largest object")))
    case _ => Err(Panic("pic_infos has no object for a pic id"))
  }

  /** The `pic_infos` loop from position i on, with the map built so far. */
  function InfoUrlsFrom(ids: seq<string>, infos: map<string, Json>, i: nat, acc: map<string, string>)
    : Result<map<string, string>>
    decreases |ids| - i
  {
    if i >= |ids| then Ok(acc)
    else match LargestUrl(infos, ids[i])
      case Err(e) => Err(e)
      case Ok(u) => InfoUrlsFrom(ids, infos, i + 1, acc[ids[i] := u])
  }

  /** One item of `mix_media_info.items`: `Ok(None)` for an object whose `type` is not the string
      "pic", `Ok(Some((id, url)))` for a picture item. Any other shape is a panic: the item must be
      an object, and a picture item needs `data.largest.url` and `id` as strings. */
  function MixItem(item: Json): Result<Option<(string, string)>> {
    match item
    case JObject(f) =>
      if Member(f, "type") != JString("pic") then Ok(None)
      else
        (match Member(f, "data")
         case JObject(data) =>
           (match Member(data, "largest")
            case JObject(largest) =>
              (match Member(largest, "url")
               case JString(url) =>
                 (match Member(f, "id")
                  case JString(id) => Ok(Some((id, url)))
                  case _ => Err(Panic("picture item id is not a string")))
               case _ => Err(Panic("picture item url is not a string")))
            case _ => Err(Panic("picture item has no largest object")))
         case _ => Err(Panic("picture item has no data object")))
    case _ => Err(Panic("mix_media_info item is not an object"))
  }

  /** The `mix_media_info` loop from position i on; a later picture item with the same id
      overwrites an earlier one. */
  function MixUrlsFrom(items: seq<Json>, i: nat, acc: map<string, string>): Result<map<string, string>>
    decreases |items| - i
  {
    if i >= |items| then Ok(acc)
    else match MixItem(items[i])
      case Err(e) => Err(e)
      case Ok(None) => MixUrlsFrom(items, i + 1, acc)
      case Ok(Some(pic)) => MixUrlsFrom(items, i + 1, acc[pic.0 := pic.1])
  }

  /** What `PicUrls` returns for a present post. */
  function PicUrlsOf(m: Mblog): Result<map<string, string>> {
    if m.picNum <= 0 then Ok(map[])
    else if m.picInfos.Some? then InfoUrlsFrom(m.picIds, m.picInfos.value, 0, map[])
    else if m.mixMediaInfo.Some? then
      (match Member(m.mixMediaInfo.value, "items")
       case JArray(items) => MixUrlsFrom(items, 0, map[])
       case _ => Err(Panic("mix_media_info.items is not an array")))
    else Ok(map[])
  }

  /** The `pic_infos` shape resolves exactly when every listed id does; its result then has one key
      per listed id, none dropped and none added, each mapped to that id's largest URL. */
  lemma {:induction false} InfoUrlsMeaning(ids: seq<string>, infos: map<string, Json>, i: nat, acc: map<string, string>)
    requires i <= |ids|
    requires forall k :: k in acc ==> exists j :: 0 <= j < i && ids[j] == k
    requires forall j :: 0 <= j < i ==> ids[j] in acc && LargestUrl(infos, ids[j]) == Ok(acc[ids[j]])
    ensures InfoUrlsFrom(ids, infos, i, acc).Ok? <==> forall j :: i <= j < |ids| ==> LargestUrl(infos, ids[j]).Ok?
    ensures InfoUrlsFrom(ids, infos, i, acc).Ok? ==>
              var m := InfoUrlsFrom(ids, infos, i, acc).value;
              m.Keys == (set j | 0 <= j < |ids| :: ids[j]) &&
              forall j :: 0 <= j < |ids| ==> LargestUrl(infos, ids[j]) == Ok(m[ids[j]])
    decreases |ids| - i
  {
    if i == |ids| {
      assert acc.Keys == (set j | 0 <= j < |ids| :: ids[j]);
    } else {
      var u := LargestUrl(infos, ids[i]);
      if u.Ok? {
        var acc' := acc[ids[i] := u.value];
        forall k | k in acc' ensures exists j :: 0 <= j < i + 1 && ids[j] == k {
          if k != ids[i] {
            var j :| 0 <= j < i && ids[j] == k;
          } else {
            assert ids[i] == k;
          }
        }
        InfoUrlsMeaning(ids, infos, i + 1, acc');
      }
    }
  }

  /** The ids contributed by the picture items at positions i and later. */
  function PictureIds(items: seq<Json>, i: nat): set<string> {
    set j | i <= j < |items| && IsPicture(items[j]) :: MixItem(items[j]).value.value.0
  }

  /** A well-formed picture item of `mix_media_info`. */
  predicate IsPicture(item: Json) {
    MixItem(item).Ok? && MixItem(item).value.Some?
  }

  /** A well-formed picture item with the given id. */
  predicate IsPictureWithId(item: Json, id: string) {
    IsPicture(item) && MixItem(item).value.value.0 == id
  }

  /** The `mix_media_info` shape resolves exactly when every item has a valid shape; its keys are
      then the ids of the picture items and nothing else: other items add nothing. */
  lemma {:induction false} MixUrlsKeys(items: seq<Json>, i: nat, acc: map<string, string>)
    requires i <= |items|
    ensures MixUrlsFrom(items, i, acc).Ok? <==> forall j :: i <= j < |items| ==> MixItem(items[j]).Ok?
    ensures MixUrlsFrom(items, i, acc).Ok? ==> MixUrlsFrom(items, i, acc).value.Keys == acc.Keys + PictureIds(items, i)
    decreases |items| - i
  {
    if i < |items| {
      var item := MixItem(items[i]);
      if item.Ok? {
        var acc' := if item.value.Some? then acc[item.value.value.0 := item.value.value.1] else acc;
        MixUrlsKeys(items, i + 1, acc');
        assert MixUrlsFrom(items, i, acc) == MixUrlsFrom(items, i + 1, acc');
        if MixUrlsFrom(items, i, acc).Ok? {
          if item.value.Some? {
            assert PictureIds(items, i) == {item.value.value.0} + PictureIds(items, i + 1);
          } else {
            assert PictureIds(items, i) == PictureIds(items, i + 1);
          }
        }
      }
    } else {
      assert PictureIds(items, i) == {};
    }
  }

  /** The last picture item with a given id decides that id's URL. */
  lemma {:induction false} MixUrlsLastWins(items: seq<Json>, i: nat, acc: map<string, string>, j: nat, id: string, url: string)
    requires i <= j < |items| && MixItem(items[j]) == Ok(Some((id, url)))
    requires forall k :: j < k < |items| ==> !IsPictureWithId(items[k], id)
    requires MixUrlsFrom(items, i, acc).Ok?
    ensures id in MixUrlsFrom(items, i, acc).value && MixUrlsFrom(items, i, acc).value[id] == url
    decreases |items| - i
  {
    var item := MixItem(items[i]);
    var acc' := if item.value.Some? then acc[item.value.value.0 := item.value.value.1] else acc;
    assert MixUrlsFrom(items, i, acc) == MixUrlsFrom(items, i + 1, acc');
    if i < j {
      MixUrlsLastWins(items, i + 1, acc', j, id, url);
    } else {
      assert acc'[id] == url;
      MixUrlsKeep(items, i + 1, acc', id);
    }
  }

  /** An id that no later picture item names keeps the value it has in the accumulated map. */
  lemma {:induction false} MixUrlsKeep(items: seq<Json>, i: nat, acc: map<string, string>, id: string)
    requires i <= |items| && id in acc
    requires forall k :: i <= k < |items| ==> !IsPictureWithId(items[k], id)
    requires MixUrlsFrom(items, i, acc).Ok?
    ensures id in MixUrlsFrom(items, i, acc).value && MixUrlsFrom(items, i, acc).value[id] == acc[id]
    decreases |items| - i
  {
    if i < |items| {
      var item := MixItem(items[i]);
      var acc' := if item.value.Some? then acc[item.value.value.0 := item.value.value.1] else acc;
      assert !IsPictureWithId(items[i], id);
      MixUrlsKeep(items, i + 1, acc', id);
    }
  }

  /** A post that claims no pictures has an empty picture map, whatever its picture fields hold. */
  lemma NoPicturesWhateverTheFields(m: Mblog, infos: Option<map<string, Json>>, media: Option<map<string, Json>>)
    requires m.picNum <= 0
    ensures PicUrlsOf(m.(picInfos := infos, mixMediaInfo := media)) == Ok(map[])
  {
  }

  /** When `pic_infos` is present, `mix_media_info` is never consulted. */
  lemma InfosShadowMixMedia(m: Mblog, media: Option<map<string, Json>>)
    requires m.picInfos.Some?
    ensures PicUrlsOf(m.(mixMediaInfo := media)) == PicUrlsOf(m)
  {
  }

  /** The preview of a post's raw text: newlines escaped as `\n`, then cut to 50 runes followed by
      "..." when longer than that. */
  function Preview(text: string): string {
    var escaped := ReplaceAll(text, "\n", "\\n");
    if |escaped| > 50 then escaped[..50] + "..." else escaped
  }

  /** A preview is one line of at most 53 runes: no newline survives the escaping. */
  lemma PreviewShape(text: string)
    ensures '\n' !in Preview(text)
    ensures |Preview(text)| <= 53
  {
    var escaped := ReplaceAll(text, "\n", "\\n");
    ReplaceAllRemovesEvery(text, "\n", "\\n");
    ContainsChar(escaped, '\n');
    if |escaped| > 50 {
      assert forall c :: c in escaped[..50] ==> c in escaped;
    }
  }

  /** A single-line text of at most 50 runes is its own preview. */
  lemma ShortLineIsItsOwnPreview(text: string)
    requires '\n' !in text && |text| <= 50
    ensures Preview(text) == text
  {
    ContainsChar(text, '\n');
    ReplaceAllWithoutOccurrence(text, "\n", "\\n");
  }
}
