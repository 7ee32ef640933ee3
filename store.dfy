/** The post store: one table row per collected post, keyed by the triple (user id, post id,
    mblog id), with the post's text, picture URLs and creation time, and the same four columns for
    the post it reposts. */
module Store {
  import opened Base
  import opened Posts

  /** The runtime panic of reading the user of a post that has none. */
  const NilUser := Panic("nil pointer dereference: post without user")

  /** The primary key of a row. */
  datatype Key = Key(uid: int, id: int, mblogId: string)

  /** A `Pics` column: empty when the post has no picture URL, otherwise the JSON array of its
      URLs (the array is held as the list it encodes). */
  datatype PicsColumn = NoPics | PicList(urls: seq<string>)

  datatype Row = Row(
    uid: int, id: int, mblogId: string, theText: string, pics: PicsColumn, createdAt: string,
    retweetedUid: int, retweetedId: int, retweetedMblogId: string, retweetedTheText: string,
    retweetedPics: PicsColumn, retweetedCreatedAt: string)

  function KeyOf(m: Mblog): Key
    requires m.user.Some?
  {
    Key(m.user.value.id, m.id, m.mblogId)
  }

  function RowKey(row: Row): Key {
    Key(row.uid, row.id, row.mblogId)
  }

  /** The column a URL list is written as: the last JSON encoding of the growing list, or nothing
      when the loop never ran. */
  function PicsColumnOf(list: seq<string>): PicsColumn {
    if |list| == 0 then NoPics else PicList(list)
  }

  /** `order` lists every key of `keys` exactly once: one possible iteration order of a Go map. */
  predicate IsOrdering(order: seq<string>, keys: set<string>) {
    && (forall i :: 0 <= i < |order| ==> order[i] in keys)
    && (forall k :: k in keys ==> k in order)
    && (forall i, j :: 0 <= i < j < |order| ==> order[i] != order[j])
  }

  /** The values of `urls` taken in the key order `order`. */
  function ValuesInOrder(urls: map<string, string>, order: seq<string>): (list: seq<string>)
    requires forall i :: 0 <= i < |order| ==> order[i] in urls
    ensures |list| == |order|
    ensures forall i :: 0 <= i < |order| ==> list[i] == urls[order[i]]
  {
    if |order| == 0 then [] else ValuesInOrder(urls, order[..|order| - 1]) + [urls[order[|order| - 1]]]
  }

  /** `column` is what the listing loop writes for `urls` under some iteration order. */
  ghost predicate ColumnLists(urls: map<string, string>, column: PicsColumn) {
    exists order :: IsOrdering(order, urls.Keys) && column == PicsColumnOf(ValuesInOrder(urls, order))
  }

  /** A distinct listing of a set has one entry per element. */
  lemma {:induction false} OrderingSize(order: seq<string>, keys: set<string>)
    requires IsOrdering(order, keys)
    ensures |order| == |keys|
    decreases |order|
  {
    if |order| > 0 {
      var last := order[|order| - 1];
      var front := order[..|order| - 1];
      assert IsOrdering(front, keys - {last}) by {
        forall k | k in keys - {last}
          ensures k in front
        {
          var i :| 0 <= i < |order| && order[i] == k;
          assert i < |order| - 1;
          assert front[i] == k;
        }
      }
      OrderingSize(front, keys - {last});
    } else {
      assert forall k :: k !in keys;
      assert keys == {};
    }
  }

  /** Whatever the iteration order, the written column holds every URL of the map, one entry per
      picture, and nothing else. */
  lemma ColumnHoldsEveryUrl(urls: map<string, string>, order: seq<string>)
    requires IsOrdering(order, urls.Keys)
    ensures var list := ValuesInOrder(urls, order);
            && |list| == |urls|
            && (forall k :: k in urls ==> urls[k] in list)
            && (forall u :: u in list ==> u in urls.Values)
            && (PicsColumnOf(list) == NoPics <==> |urls| == 0)
  {
    OrderingSize(order, urls.Keys);
    var list := ValuesInOrder(urls, order);
    forall k | k in urls
      ensures urls[k] in list
    {
      var i :| 0 <= i < |order| && order[i] == k;
      assert list[i] == urls[k];
    }
    forall u | u in list
      ensures u in urls.Values
    {
      var i :| 0 <= i < |list| && list[i] == u;
      assert order[i] in urls;
    }
  }

  /** The repost listing loop as written: every URL is appended to the post's own list, which is
      still empty at that point, instead of to the repost's list, and the column is re-encoded
      from that one-element list. */
  function RepostLoopAsWritten(picUrls: seq<string>, list: seq<string>, column: PicsColumn): PicsColumn
    decreases |list|
  {
    if |list| == 0 then column else RepostLoopAsWritten(picUrls, list[1..], PicList(picUrls + [list[0]]))
  }

  /** As written, the repost column keeps only the last URL listed. */
  lemma {:induction false} RepostLoopKeepsOnlyLast(list: seq<string>, column: PicsColumn)
    requires |list| > 0
    ensures RepostLoopAsWritten([], list, column) == PicList([list[|list| - 1]])
    decreases |list|
  {
    if |list| > 1 {
      RepostLoopKeepsOnlyLast(list[1..], PicList([list[0]]));
    }
  }

  /** So a repost with two or more pictures loses all but one of them, whatever the iteration
      order, while the corrected column keeps all of them. */
  lemma RepostPicsLost(urls: map<string, string>, order: seq<string>)
    requires IsOrdering(order, urls.Keys) && |urls| >= 2
    ensures var list := ValuesInOrder(urls, order);
            && RepostLoopAsWritten([], list, NoPics).PicList?
            && |RepostLoopAsWritten([], list, NoPics).urls| == 1
            && |PicsColumnOf(list).urls| == |urls|
            && RepostLoopAsWritten([], list, NoPics) != PicsColumnOf(list)
  {
    OrderingSize(order, urls.Keys);
    RepostLoopKeepsOnlyLast(ValuesInOrder(urls, order), NoPics);
  }

  /** `column` is what the repost loop as written leaves for `urls` under some iteration order:
      nothing for no URL, otherwise a one-element list holding the URL of the last key visited. */
  ghost predicate RepostColumnLists(urls: map<string, string>, column: PicsColumn) {
    if |urls| == 0 then column == NoPics
    else exists order :: IsOrdering(order, urls.Keys) && |order| > 0 && column == PicList([urls[order[|order| - 1]]])
  }

  /** As written, the repost column stays empty exactly when the repost has no picture URL, and
      otherwise holds exactly one of its URLs, whatever the iteration order. */
  lemma RepostColumnShape(urls: map<string, string>, order: seq<string>)
    requires IsOrdering(order, urls.Keys)
    ensures var column := RepostLoopAsWritten([], ValuesInOrder(urls, order), NoPics);
            && (column == NoPics <==> |urls| == 0)
            && (|urls| > 0 ==> column.PicList? && |column.urls| == 1 && column.urls[0] in urls.Values)
  {
    OrderingSize(order, urls.Keys);
    var list := ValuesInOrder(urls, order);
    if |list| > 0 {
      RepostLoopKeepsOnlyLast(list, NoPics);
      assert order[|list| - 1] in urls;
    }
  }

  /** The same for a column written under an unknown iteration order. */
  lemma RepostColumnHoldsOneUrl(urls: map<string, string>, column: PicsColumn)
    requires RepostColumnLists(urls, column)
    ensures column == NoPics <==> |urls| == 0
    ensures |urls| > 0 ==> column.PicList? && |column.urls| == 1 && column.urls[0] in urls.Values
  {
    if |urls| > 0 {
      var order :| IsOrdering(order, urls.Keys) && |order| > 0 && column == PicList([urls[order[|order| - 1]]]);
      assert order[|order| - 1] in urls;
    }
  }

  /** The listing loop: walks `urls` in an unspecified order, collecting the values. The order
      taken is returned as ghost `order`. */
  method ListUrls(urls: map<string, string>) returns (list: seq<string>, ghost order: seq<string>)
    ensures IsOrdering(order, urls.Keys)
    ensures list == ValuesInOrder(urls, order)
    ensures |list| == |urls| && forall k :: k in urls ==> urls[k] in list
  {
    list := [];
    order := [];
    var rest := urls.Keys;
    while rest != {}
      invariant rest <= urls.Keys
      invariant forall i :: 0 <= i < |order| ==> order[i] in urls.Keys && order[i] !in rest
      invariant forall k :: k in urls.Keys ==> k in rest || k in order
      invariant forall i, j :: 0 <= i < j < |order| ==> order[i] != order[j]
      invariant list == ValuesInOrder(urls, order)
      decreases rest
    {
      var k :| k in rest;
      list := list + [urls[k]];
      order := order + [k];
      rest := rest - {k};
    }
    ColumnHoldsEveryUrl(urls, order);
  }

  /** The repost listing loop as written, run while the post's own list `picUrls` is still
      empty. */
  method ListRepostUrls(urls: map<string, string>, picUrls: seq<string>) returns (column: PicsColumn)
    requires picUrls == []
    ensures RepostColumnLists(urls, column)
  {
    var list, order := ListUrls(urls);
    column := RepostLoopAsWritten(picUrls, list, NoPics);
    OrderingSize(order, urls.Keys);
    if |list| > 0 {
      RepostLoopKeepsOnlyLast(list, NoPics);
    }
  }

  /** The post's listing loop, run on the post's own list `picUrls`, still empty at that point:
      the column lists every URL, in the order the loop took. */
  method ListPostUrls(urls: map<string, string>, picUrls: seq<string>) returns (column: PicsColumn)
    requires picUrls == []
    ensures ColumnLists(urls, column)
  {
    var list, order := ListUrls(urls);
    assert picUrls + list == list;
    column := PicsColumnOf(picUrls + list);
  }

  /** The posts `AddMblog` can write without a runtime panic: the post has a user and both its
      own and its repost's picture payloads are well formed. */
  predicate Storable(m: Mblog) {
    && m.user.Some?
    && PicUrlsOf(m).Ok?
    && (m.retweeted.Some? ==> PicUrlsOf(m.retweeted.value).Ok?)
  }

  /** `row` is a row `AddMblog` may write for `m`: the post's key and columns, the repost's columns
      with user id -1 for a repost without user, and zero or empty repost columns without a
      repost. The post's picture column lists its URLs in any order; the repost's picture column
      is the one the repost loop as written leaves (see `RepostColumnHoldsOneUrl`). */
  ghost predicate RowFor(m: Mblog, row: Row)
    requires Storable(m)
  {
    && RowKey(row) == KeyOf(m)
    && row.theText == m.TheText() && row.createdAt == m.createdAt
    && ColumnLists(PicUrlsOf(m).value, row.pics)
    && (m.retweeted.None? ==>
          && row.retweetedUid == 0 && row.retweetedId == 0 && row.retweetedMblogId == ""
          && row.retweetedTheText == "" && row.retweetedPics == NoPics && row.retweetedCreatedAt == "")
    && (m.retweeted.Some? ==>
          var rt := m.retweeted.value;
          && row.retweetedUid == (if rt.user.Some? then rt.user.value.id else -1)
          && row.retweetedId == rt.id && row.retweetedMblogId == rt.mblogId
          && row.retweetedTheText == rt.TheText() && row.retweetedCreatedAt == rt.createdAt
          && RepostColumnLists(PicUrlsOf(rt).value, row.retweetedPics))
  }

  /** `m` is stored in `table` under its key with a row written for it. */
  ghost predicate StoredIn(table: map<Key, Row>, m: Mblog) {
    Storable(m) && KeyOf(m) in table && RowFor(m, table[KeyOf(m)])
  }

  /** Every row of `before` is still in `after`, unchanged: rows are only ever added. */
  predicate KeepsRows(before: map<Key, Row>, after: map<Key, Row>) {
    forall k :: k in before ==> k in after && after[k] == before[k]
  }

  lemma KeepsRowsTrans(t0: map<Key, Row>, t1: map<Key, Row>, t2: map<Key, Row>)
    requires KeepsRows(t0, t1) && KeepsRows(t1, t2)
    ensures KeepsRows(t0, t2)
  {
  }

  /** Rows are only ever added: the posts stored in a table stay stored once rows are added. */
  lemma StoredInKept(before: map<Key, Row>, after: map<Key, Row>, found: seq<Mblog>)
    requires KeepsRows(before, after)
    requires forall i :: 0 <= i < |found| ==> StoredIn(before, found[i])
    ensures forall i :: 0 <= i < |found| ==> StoredIn(after, found[i])
  {
  }

  /** The panic `AddMblog` stops with for a post it cannot write: the repost's pictures are listed
      first, then the post's own, and the post's user is read last. */
  function AddPanic(m: Mblog): Error
    requires !Storable(m)
  {
    if m.retweeted.Some? && PicUrlsOf(m.retweeted.value).Err? then PicUrlsOf(m.retweeted.value).error
    else if PicUrlsOf(m).Err? then PicUrlsOf(m).error
    else NilUser
  }

  /** The values `AddMblog` binds to its INSERT: the repost's columns, then the post's picture
      column, then the post's own columns, which read its user. A panic on the way is the error. */
  method RowValues(m: Mblog) returns (r: Result<Row>)
    ensures r.Err? <==> !Storable(m)
    ensures r.Err? ==> r.error == AddPanic(m)
    ensures r.Ok? ==> RowFor(m, r.value)
  {
    var uid, id, mblogId, theText, createdAt := 0, 0, "", "", "";
    var rePics := NoPics;
    var picUrls: seq<string> := [];
    if m.retweeted.Some? {
      var rt := m.retweeted.value;
      uid := if rt.user.Some? then rt.user.value.id else -1;
      id := rt.id;
      mblogId := rt.mblogId;
      theText := rt.TheText();
      createdAt := rt.createdAt;
      var urls := rt.PicUrls();
      if urls.Err? {
        return Err(urls.error);
      }
      rePics := ListRepostUrls(urls.value, picUrls);
    }
    var urls := m.PicUrls();
    if urls.Err? {
      return Err(urls.error);
    }
    var pics := ListPostUrls(urls.value, picUrls);
    if m.user.None? {
      return Err(NilUser);
    }
    var row := Row(m.user.value.id, m.id, m.mblogId, m.TheText(), pics, m.createdAt,
                   uid, id, mblogId, theText, rePics, createdAt);
    assert RowFor(m, row);
    r := Ok(row);
  }

  /** A database handle. `online` says whether the server accepts statements; `hasTable` whether
      the `mblog` table exists; `table` maps each key to its row. */
  class Database {
    const dn: string
    const dsn: string
    var online: bool
    var hasTable: bool
    var table: map<Key, Row>

    constructor (dn: string, dsn: string, online: bool)
      ensures this.dn == dn && this.dsn == dsn && this.online == online
      ensures !hasTable && table == map[]
    {
      this.dn := dn;
      this.dsn := dsn;
      this.online := online;
      hasTable := false;
      table := map[];
    }

    /** Every row is filed under its own key columns: the triple is the primary key. */
    predicate Keyed()
      reads this
    {
      forall k :: k in table ==> RowKey(table[k]) == k
    }

    /** `m` is stored under its key with a row written for it. */
    ghost predicate Stores(m: Mblog)
      reads this
    {
      StoredIn(table, m)
    }

    /** Every post of `found` is stored under its key with a row written for it. */
    ghost predicate StoresAll(found: seq<Mblog>)
      reads this
    {
      forall i :: 0 <= i < |found| ==> Stores(found[i])
    }

    /** Create the table if it does not exist; an existing table and its rows are kept. */
    method Migrate() returns (r: Outcome)
      modifies this`hasTable
      ensures r.Pass? <==> online
      ensures r.Fail? ==> r.error == StoreUnavailable && hasTable == old(hasTable)
      ensures r.Pass? ==> hasTable
    {
      if !online {
        return Fail(StoreUnavailable);
      }
      hasTable := true;
      r := Pass;
    }

    /** Whether a row with the post's key exists. The post's user is read first (a post without
        user panics), then the query can fail when the store is unavailable. */
    method HasMblog(m: Mblog) returns (r: Result<bool>)
      ensures m.user.None? ==> r == Err(NilUser)
      ensures m.user.Some? && !(online && hasTable) ==> r == Err(StoreUnavailable)
      ensures r.Ok? <==> m.user.Some? && online && hasTable
      ensures r.Ok? ==> (r.value <==> KeyOf(m) in table)
    {
      if m.user.None? {
        return Err(NilUser);
      }
      if !(online && hasTable) {
        return Err(StoreUnavailable);
      }
      r := Ok(KeyOf(m) in table);
    }

    /** Insert the post's row. Runtime panics come first (see `AddPanic`), then the insert fails
        when the store is unavailable or the key is already present; otherwise exactly one row, for
        the post's key, is added. */
    method AddMblog(m: Mblog) returns (r: Outcome)
      modifies this`table
      ensures !Storable(m) ==> r == Fail(AddPanic(m))
      ensures Storable(m) && !(online && hasTable) ==> r == Fail(StoreUnavailable)
      ensures Storable(m) && online && hasTable && KeyOf(m) in old(table) ==> r == Fail(DuplicateKey)
      ensures r.Pass? <==> Storable(m) && online && hasTable && KeyOf(m) !in old(table)
      ensures r.Fail? ==> table == old(table)
      ensures r.Pass? ==> KeyOf(m) in table && table == old(table)[KeyOf(m) := table[KeyOf(m)]] &&
                          RowFor(m, table[KeyOf(m)])
      ensures old(Keyed()) ==> Keyed()
    {
      var row := RowValues(m);
      if row.Err? {
        return Fail(row.error);
      }
      if !(online && hasTable) {
        return Fail(StoreUnavailable);
      }
      var key := KeyOf(m);
      if key in table {
        return Fail(DuplicateKey);
      }
      table := table[key := row.value];
      r := Pass;
    }
  }
}
