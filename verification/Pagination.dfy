/**
 Keyset pagination: one page fetch with its limit+1 probe (the List methods of
 internal/db/collector_postgres.go, specimen_postgres.go, photo_postgres.go) and the export
 loops that walk pages until the cursor is empty (internal/api/export.go).

 A sort key is the tuple of ordering columns; collectors, journal entries and specimens
 order by (created_at, id) or (rank, created_at, id) descending, photos by
 (position, created_at, id) ascending.
 */
module Pagination {
  import opened Options
  import opened Cursor

  type Key = seq<int>

  /** `columns` stands for everything that is not an ordering column. */
  datatype Row = Row(key: Key, columns: string)

  datatype Direction = Ascending | Descending

  // ------------------------------------------------------------------ order

  /** Row comparison: (a1, a2, ...) < (b1, b2, ...). */
  predicate Less(a: Key, b: Key) {
    b != [] && (a == [] || a[0] < b[0] || (a[0] == b[0] && Less(a[1..], b[1..])))
  }

  predicate Before(dir: Direction, a: Key, b: Key) {
    match dir
    case Ascending => Less(a, b)
    case Descending => Less(b, a)
  }

  lemma {:induction false} LessTransitive(a: Key, b: Key, c: Key)
    requires Less(a, b) && Less(b, c)
    ensures Less(a, c)
  {
    if a != [] && a[0] == b[0] == c[0] {
      LessTransitive(a[1..], b[1..], c[1..]);
    }
  }

  lemma {:induction false} LessTotal(a: Key, b: Key)
    ensures Less(a, b) || a == b || Less(b, a)
    ensures !(Less(a, b) && Less(b, a)) && (a == b ==> !Less(a, b))
    decreases |a|
  {
    if a != [] && b != [] && a[0] == b[0] {
      LessTotal(a[1..], b[1..]);
      assert a == [a[0]] + a[1..] && b == [b[0]] + b[1..];
    }
  }

  /** a has the smaller value in column i, the first in which the keys differ. */
  ghost predicate DiffersAt(a: Key, b: Key, i: nat) {
    i < |a| && i < |b| && a[i] < b[i] && forall j :: 0 <= j < i ==> a[j] == b[j]
  }

  /** Column by column, the first difference decides. */
  lemma {:induction false} LessAtFirstDifference(a: Key, b: Key)
    requires |a| == |b|
    ensures Less(a, b) <==> exists i: nat :: DiffersAt(a, b, i)
    decreases |a|
  {
    if a != [] {
      LessAtFirstDifference(a[1..], b[1..]);
      if Less(a, b) {
        if a[0] < b[0] {
          assert DiffersAt(a, b, 0);
        } else {
          var i: nat :| DiffersAt(a[1..], b[1..], i);
          assert forall j :: 0 < j <= i ==> a[j] == a[1..][j - 1] && b[j] == b[1..][j - 1];
          assert DiffersAt(a, b, i + 1);
        }
      }
      if i: nat :| DiffersAt(a, b, i) && i > 0 {
        assert DiffersAt(a[1..], b[1..], i - 1);
      }
    }
  }

  lemma BeforeTransitive(dir: Direction, a: Key, b: Key, c: Key)
    requires Before(dir, a, b) && Before(dir, b, c)
    ensures Before(dir, a, c)
  {
    if dir == Ascending { LessTransitive(a, b, c); } else { LessTransitive(c, b, a); }
  }

  lemma BeforeTotal(dir: Direction, a: Key, b: Key)
    ensures Before(dir, a, b) || a == b || Before(dir, b, a)
    ensures !(Before(dir, a, b) && Before(dir, b, a)) && (a == b ==> !Before(dir, a, b))
  {
    LessTotal(a, b);
  }

  // -------------------------------------------------- filter, order by, limit

  /** The rows as stored: any order, no two with one key (every key ends in the primary key). */
  ghost predicate DistinctKeys(rows: seq<Row>) {
    forall i, j :: 0 <= i < j < |rows| ==> rows[i].key != rows[j].key
  }

  ghost predicate Sorted(dir: Direction, rows: seq<Row>) {
    forall i, j :: 0 <= i < j < |rows| ==> Before(dir, rows[i].key, rows[j].key)
  }

  /** Behind the cursor, which an absent one never is. */
  predicate Follows(dir: Direction, after: Option<Key>, k: Key) {
    after.Some? ==> Before(dir, after.value, k)
  }

  /** Rows that pass the filter and come after the cursor. */
  predicate Wanted(q: Query, after: Option<Key>, r: Row) {
    q.where(r) && Follows(q.dir, after, r.key)
  }

  /** `where` is the conjunction of the caller's filters and the visibility scope. */
  datatype Query = Query(dir: Direction, where: Row -> bool, limit: nat)

  function Filter(q: Query, after: Option<Key>, rows: seq<Row>): seq<Row> {
    if rows == [] then [] else
      (if Wanted(q, after, rows[0]) then [rows[0]] else []) + Filter(q, after, rows[1..])
  }

  function InsertSorted(dir: Direction, r: Row, rows: seq<Row>): seq<Row> {
    if rows == [] || Before(dir, r.key, rows[0].key) then [r] + rows
    else [rows[0]] + InsertSorted(dir, r, rows[1..])
  }

  function OrderBy(dir: Direction, rows: seq<Row>): seq<Row> {
    if rows == [] then [] else InsertSorted(dir, rows[0], OrderBy(dir, rows[1..]))
  }

  /** WHERE ... AND key after cursor ORDER BY key. */
  function Select(q: Query, after: Option<Key>, table: seq<Row>): seq<Row> {
    OrderBy(q.dir, Filter(q, after, table))
  }

  lemma HeadKeyIsNew(rows: seq<Row>, some: seq<Row>)
    requires rows != [] && DistinctKeys(rows) && forall r :: r in some ==> r in rows[1..]
    ensures forall r :: r in some ==> r.key != rows[0].key
  {
    forall r | r in some
      ensures r.key != rows[0].key
    {
      assert r in rows[1..];
      var i :| 0 <= i < |rows| - 1 && rows[i + 1] == r;
    }
  }

  lemma {:induction false} FilterMembers(q: Query, after: Option<Key>, rows: seq<Row>)
    requires DistinctKeys(rows)
    ensures forall r :: r in Filter(q, after, rows) <==> r in rows && Wanted(q, after, r)
    ensures DistinctKeys(Filter(q, after, rows))
  {
    if rows != [] {
      FilterMembers(q, after, rows[1..]);
      assert forall r :: r in rows <==> r == rows[0] || r in rows[1..];
      HeadKeyIsNew(rows, Filter(q, after, rows[1..]));
    }
  }

  lemma SortedTail(dir: Direction, a: seq<Row>)
    requires Sorted(dir, a) && a != []
    ensures Sorted(dir, a[1..]) && a[0] !in a[1..]
  {
    if a[0] in a[1..] {
      var i :| 0 <= i < |a[1..]| && a[1..][i] == a[0];
      assert Before(dir, a[0].key, a[i + 1].key);
      BeforeTotal(dir, a[0].key, a[0].key);
    }
  }

  lemma SortedHead(dir: Direction, a: seq<Row>, r: Row)
    requires Sorted(dir, a) && a != [] && r in a
    ensures r == a[0] || Before(dir, a[0].key, r.key)
  {
    var i :| 0 <= i < |a| && a[i] == r;
  }

  lemma {:induction false} InsertSortedCorrect(dir: Direction, r: Row, rows: seq<Row>)
    requires Sorted(dir, rows) && forall x :: x in rows ==> x.key != r.key
    ensures Sorted(dir, InsertSorted(dir, r, rows))
    ensures forall x :: x in InsertSorted(dir, r, rows) <==> x == r || x in rows
  {
    if rows == [] {
    } else if Before(dir, r.key, rows[0].key) {
      forall i | 0 < i < |rows|
        ensures Before(dir, r.key, rows[i].key)
      {
        BeforeTransitive(dir, r.key, rows[0].key, rows[i].key);
      }
    } else {
      BeforeTotal(dir, r.key, rows[0].key);
      InsertSortedCorrect(dir, r, rows[1..]);
      var rest := InsertSorted(dir, r, rows[1..]);
      assert forall x :: x in rows <==> x == rows[0] || x in rows[1..];
      forall i | 0 <= i < |rest|
        ensures Before(dir, rows[0].key, rest[i].key)
      {
        assert rest[i] in rest;
        if rest[i] != r { SortedHead(dir, rows, rest[i]); }
      }
    }
  }

  lemma {:induction false} OrderByCorrect(dir: Direction, rows: seq<Row>)
    requires DistinctKeys(rows)
    ensures Sorted(dir, OrderBy(dir, rows))
    ensures forall x :: x in OrderBy(dir, rows) <==> x in rows
  {
    if rows != [] {
      OrderByCorrect(dir, rows[1..]);
      assert forall x :: x in rows <==> x == rows[0] || x in rows[1..];
      HeadKeyIsNew(rows, OrderBy(dir, rows[1..]));
      InsertSortedCorrect(dir, rows[0], OrderBy(dir, rows[1..]));
    }
  }

  lemma SelectCorrect(q: Query, after: Option<Key>, table: seq<Row>)
    requires DistinctKeys(table)
    ensures Sorted(q.dir, Select(q, after, table))
    ensures forall r :: r in Select(q, after, table) <==> r in table && Wanted(q, after, r)
  {
    FilterMembers(q, after, table);
    OrderByCorrect(q.dir, Filter(q, after, table));
  }

  lemma SomeMember(rows: seq<Row>)
    requires rows != []
    ensures exists r :: r in rows
  {
    assert rows[0] in rows;
  }

  /** There is only one way to list a set of rows in order. */
  lemma {:induction false} SortedUnique(dir: Direction, a: seq<Row>, b: seq<Row>)
    requires Sorted(dir, a) && Sorted(dir, b)
    requires forall r :: r in a <==> r in b
    ensures a == b
  {
    if a == [] {
      if b != [] { SomeMember(b); }
    } else {
      assert a[0] in b;
      assert b[0] in a;
      SortedHead(dir, a, b[0]);
      SortedHead(dir, b, a[0]);
      BeforeTotal(dir, a[0].key, b[0].key);
      assert a[0] == b[0];
      SortedTail(dir, a);
      SortedTail(dir, b);
      forall r
        ensures r in a[1..] <==> r in b[1..]
      {
        assert r in a <==> r == a[0] || r in a[1..];
        assert r in b <==> r == b[0] || r in b[1..];
      }
      SortedUnique(dir, a[1..], b[1..]);
    }
  }

  // ---------------------------------------------------------------- one page

  const MAX_LIST_LIMIT := 200
  const DEFAULT_LIST_LIMIT := 50

  function ClampLimit(n: int): (limit: nat)
    ensures 1 <= limit <= MAX_LIST_LIMIT
    ensures 1 <= n <= MAX_LIST_LIMIT ==> limit == n
    ensures n > MAX_LIST_LIMIT ==> limit == MAX_LIST_LIMIT
    ensures n <= 0 ==> limit == DEFAULT_LIST_LIMIT
  {
    if n <= 0 then DEFAULT_LIST_LIMIT else if n > MAX_LIST_LIMIT then MAX_LIST_LIMIT else n
  }

  /** The rows of one page and, when more may follow, the key of its last row. */
  datatype Page = Page(rows: seq<Row>, next: Option<Key>)

  function Fetch(q: Query, after: Option<Key>, table: seq<Row>): Page
    requires q.limit >= 1
  {
    var all := Select(q, after, table);
    if |all| > q.limit then Page(all[..q.limit], Some(all[q.limit - 1].key)) else Page(all, None)
  }

  /** A cursor codec; First is the decoding of "". */
  datatype Codec = Codec(encode: Key -> string, decode: string -> Position) {
    ghost predicate RoundTrips(k: Key) {
      encode(k) != "" && decode(encode(k)) == At(k)
    }
  }

  datatype ListResult = Listed(rows: seq<Row>, next: string) | BadCursor

  function WireCursor(codec: Codec, next: Option<Key>): string {
    if next.None? then "" else codec.encode(next.value)
  }

  /** One List call: probe with limit + 1 rows, drop the extra one, point the cursor at the last row kept. */
  method List(dir: Direction, where: Row -> bool, codec: Codec, table: seq<Row>, limit: int, cursor: string)
    returns (r: ListResult)
    ensures r == BadCursor <==> codec.decode(cursor) == Malformed
    ensures r.Listed? ==>
              var after := if cursor != "" && codec.decode(cursor).At? then Some(codec.decode(cursor).key) else None;
              var page := Fetch(Query(dir, where, ClampLimit(limit)), after, table);
              r.rows == page.rows && r.next == WireCursor(codec, page.next)
  {
    var n := ClampLimit(limit);
    var position := codec.decode(cursor);
    if position == Malformed { return BadCursor; }
    var after := if cursor != "" && position.At? then Some(position.key) else None;
    var all := Select(Query(dir, where, n), after, table);
    var rows := if |all| > n + 1 then all[..n + 1] else all;  // LIMIT n + 1
    var out := [];
    for i := 0 to |rows|
      invariant out == rows[..i]
    {
      out := out + [rows[i]];
    }
    assert out == rows;
    var next := "";
    if |out| > n {
      out := out[..n];
      next := codec.encode(out[n - 1].key);
    }
    return Listed(out, next);
  }

  /** The three codecs, on keys shaped like their ordering columns. */
  function DefaultCodec(j: JsonCodec): Codec {
    Codec(k => if |k| == 2 && k[1] >= 0 then EncodeCursor(j, k[0], k[1]) else "", s => DecodeCursor(j, s))
  }

  function RankCodec(j: JsonCodec): Codec {
    Codec(k => if |k| == 3 && k[2] >= 0 then EncodeRankCursor(j, k[0], k[1], k[2]) else "", s => DecodeRankCursor(j, s))
  }

  function PhotoCodec(j: JsonCodec): Codec {
    Codec(k => if |k| == 3 && k[2] >= 0 then EncodePhotoCursor(j, k[0], k[1], k[2]) else "", s => DecodePhotoCursor(j, s))
  }

  lemma PairRoundTrips(j: JsonCodec, k: Key)
    requires j.Lawful() && |k| == 2 && k[1] > NIL_ID
    ensures DefaultCodec(j).RoundTrips(k)
  {
    DefaultCursorRoundTrip(j, k[0], k[1]);
    assert k == [k[0], k[1]];
  }

  lemma RankRoundTrips(j: JsonCodec, k: Key)
    requires j.Lawful() && |k| == 3 && k[2] > NIL_ID
    ensures RankCodec(j).RoundTrips(k)
  {
    RankCursorRoundTrip(j, k[0], k[1], k[2]);
    assert k == [k[0], k[1], k[2]];
  }

  lemma PhotoRoundTrips(j: JsonCodec, k: Key)
    requires j.Lawful() && |k| == 3 && k[2] > NIL_ID
    ensures PhotoCodec(j).RoundTrips(k)
  {
    PhotoCursorRoundTrip(j, k[0], k[1], k[2]);
    assert k == [k[0], k[1], k[2]];
  }

  /** Every cursor a page hands out is read back as the key it was made from. */
  lemma CodecsRoundTrip(j: JsonCodec, k: Key)
    requires j.Lawful() && k != [] && k[|k| - 1] > NIL_ID
    ensures DefaultCodec(j).decode("") == RankCodec(j).decode("") == PhotoCodec(j).decode("") == First
    ensures |k| == 2 ==> DefaultCodec(j).RoundTrips(k)
    ensures |k| == 3 ==> RankCodec(j).RoundTrips(k) && PhotoCodec(j).RoundTrips(k)
  {
    if |k| == 2 { PairRoundTrips(j, k); }
    if |k| == 3 {
      RankRoundTrips(j, k);
      PhotoRoundTrips(j, k);
    }
  }

  // ------------------------------------------------------------ a whole walk

  /**
   What one fetch finds: the rows of the table and the filter they then pass. Both may change
   before the next fetch, the filter because it consults shares and the visibility of other rows.
   */
  datatype Snapshot = Snapshot(rows: seq<Row>, where: Row -> bool)

  ghost predicate Keyed(snapshots: seq<Snapshot>) {
    forall s :: s in snapshots ==> DistinctKeys(s.rows)
  }

  /** The order and page size of a walk stay the same. */
  datatype Scroll = Scroll(dir: Direction, limit: nat) {
    function On(s: Snapshot): Query {
      Query(dir, s.where, limit)
    }
  }

  function FetchFrom(w: Scroll, after: Option<Key>, s: Snapshot): Page
    requires w.limit >= 1
  {
    Fetch(w.On(s), after, s.rows)
  }

  /** The fetches of a walk find these snapshots, one after the other. */
  datatype Walked = Complete(rows: seq<Row>, pages: nat) | Unfinished

  function Walk(w: Scroll, after: Option<Key>, snapshots: seq<Snapshot>): Walked
    requires w.limit >= 1
    decreases snapshots
  {
    if snapshots == [] then Unfinished else
      var page := FetchFrom(w, after, snapshots[0]);
      if page.next.None? then Complete(page.rows, 1) else Following(page.rows, 1, Walk(w, page.next, snapshots[1..]))
  }

  function Following(rows: seq<Row>, pages: nat, rest: Walked): Walked {
    match rest
    case Complete(more, n) => Complete(rows + more, pages + n)
    case Unfinished => Unfinished
  }

  lemma FollowingTwice(a: seq<Row>, m: nat, b: seq<Row>, n: nat, rest: Walked)
    ensures Following(a, m, Following(b, n, rest)) == Following(a + b, m + n, rest)
  {
    if rest.Complete? { assert a + (b + rest.rows) == a + b + rest.rows; }
  }

  lemma WalkStep(w: Scroll, after: Option<Key>, snapshots: seq<Snapshot>, i: nat, out: seq<Row>)
    requires w.limit >= 1 && i < |snapshots|
    ensures var page := FetchFrom(w, after, snapshots[i]);
            Following(out, i, Walk(w, after, snapshots[i..])) ==
            if page.next.None? then Complete(out + page.rows, i + 1)
            else Following(out + page.rows, i + 1, Walk(w, page.next, snapshots[i + 1..]))
  {
    var page := FetchFrom(w, after, snapshots[i]);
    assert snapshots[i..][0] == snapshots[i] && snapshots[i..][1..] == snapshots[i + 1..];
    if page.next.Some? { FollowingTwice(out, i, page.rows, 1, Walk(w, page.next, snapshots[i + 1..])); }
  }

  lemma NextRoundTrips(codec: Codec, w: Scroll, after: Option<Key>, s: Snapshot)
    requires w.limit >= 1 && DistinctKeys(s.rows) && forall r :: r in s.rows ==> codec.RoundTrips(r.key)
    ensures var next := FetchFrom(w, after, s).next;
            next.Some? ==> codec.RoundTrips(next.value)
  {
    FetchCorrect(w.On(s), after, s.rows);
    var page := FetchFrom(w, after, s);
    if page.next.Some? { assert page.rows[w.limit - 1] in page.rows; }
  }

  /** The export loop: fetch, append, stop at an empty cursor. */
  method ListAll(dir: Direction, codec: Codec, limit: int, snapshots: seq<Snapshot>)
    returns (walked: Walked)
    requires codec.decode("") == First && Keyed(snapshots)
    requires forall s, r :: s in snapshots && r in s.rows ==> codec.RoundTrips(r.key)
    ensures walked == Walk(Scroll(dir, ClampLimit(limit)), None, snapshots)
  {
    ghost var w := Scroll(dir, ClampLimit(limit));
    var out, cursor := [], "";
    ghost var after: Option<Key> := None;
    for i := 0 to |snapshots|
      invariant (after == None && cursor == "") || (after.Some? && codec.RoundTrips(after.value) && cursor == codec.encode(after.value))
      invariant Walk(w, None, snapshots) == Following(out, i, Walk(w, after, snapshots[i..]))
    {
      ghost var page := FetchFrom(w, after, snapshots[i]);
      var batch := List(dir, snapshots[i].where, codec, snapshots[i].rows, limit, cursor);
      assert batch == Listed(page.rows, WireCursor(codec, page.next));
      NextRoundTrips(codec, w, after, snapshots[i]);
      WalkStep(w, after, snapshots, i, out);
      out := out + batch.rows;
      if batch.next == "" {
        return Complete(out, i + 1);
      }
      cursor, after := batch.next, page.next;
    }
    return Unfinished;
  }

  // ------------------------------------------------------ what a page contains

  lemma FetchCorrect(q: Query, after: Option<Key>, table: seq<Row>)
    requires q.limit >= 1 && DistinctKeys(table)
    ensures var page := Fetch(q, after, table);
            && Sorted(q.dir, page.rows)
            && (forall r :: r in page.rows ==> r in table && Wanted(q, after, r))
            && (page.next.None? ==> forall r :: r in table && Wanted(q, after, r) ==> r in page.rows)
            && (page.next.Some? ==>
                  && |page.rows| == q.limit && page.rows[q.limit - 1].key == page.next.value
                  && forall r :: r in table && Wanted(q, after, r) ==> r in page.rows || Before(q.dir, page.next.value, r.key))
  {
    SelectCorrect(q, after, table);
    var all, page := Select(q, after, table), Fetch(q, after, table);
    if page.next.Some? {
      forall r | r in table && Wanted(q, after, r)
        ensures r in page.rows || Before(q.dir, page.next.value, r.key)
      {
        assert r in all;
        var i :| 0 <= i < |all| && all[i] == r;
        if i < q.limit { assert page.rows[i] == r; }
      }
    }
  }

  /** A row with this key is there and passes the filter. */
  ghost predicate Present(s: Snapshot, k: Key) {
    exists r :: r in s.rows && r.key == k && s.where(r)
  }

  ghost predicate Appears(rows: seq<Row>, k: Key) {
    exists i :: 0 <= i < |rows| && rows[i].key == k
  }

  lemma SortedConcat(dir: Direction, a: seq<Row>, b: seq<Row>)
    requires Sorted(dir, a) && Sorted(dir, b) && a != []
    requires forall r :: r in b ==> Before(dir, a[|a| - 1].key, r.key)
    ensures Sorted(dir, a + b)
  {
    var rows, last := a + b, a[|a| - 1].key;
    forall i, j | 0 <= i < j < |rows|
      ensures Before(dir, rows[i].key, rows[j].key)
    {
      if i < |a| <= j {
        assert rows[j] in b;
        if i < |a| - 1 { BeforeTransitive(dir, rows[i].key, last, rows[j].key); }
      }
    }
  }

  /** The row was there for one of the first fetches, and passed the filter. */
  ghost predicate Seen(snapshots: seq<Snapshot>, pages: nat, r: Row) {
    exists j :: 0 <= j < |snapshots| && j < pages && r in snapshots[j].rows && snapshots[j].where(r)
  }

  /** Rows of a completed walk: in order, each behind the cursor and seen in a fetched snapshot. */
  ghost predicate FromSnapshots(w: Scroll, after: Option<Key>, snapshots: seq<Snapshot>, walked: Walked) {
    && walked.Complete? && 1 <= walked.pages <= |snapshots| && Sorted(w.dir, walked.rows)
    && forall r :: r in walked.rows ==> Follows(w.dir, after, r.key) && Seen(snapshots, walked.pages, r)
  }

  lemma SeenLater(snapshots: seq<Snapshot>, pages: nat, r: Row)
    requires snapshots != [] && Seen(snapshots[1..], pages, r)
    ensures Seen(snapshots, pages + 1, r)
  {
    var j :| 0 <= j < |snapshots[1..]| && j < pages && r in snapshots[1..][j].rows && snapshots[1..][j].where(r);
    assert snapshots[1..][j] == snapshots[j + 1];
  }

  /**
   A page of a walk: sorted, drawn from its snapshot behind the cursor, with the next cursor at
   its last row; a wanted row it lacks lies behind the next cursor.
   */
  ghost predicate PageOk(w: Scroll, after: Option<Key>, s: Snapshot, page: Page) {
    && Sorted(w.dir, page.rows)
    && (forall r :: r in page.rows ==> r in s.rows && s.where(r) && Follows(w.dir, after, r.key))
    && (page.next.Some? ==> page.rows != [] && page.rows[|page.rows| - 1].key == page.next.value)
    && (forall r :: r in s.rows && s.where(r) && Follows(w.dir, after, r.key) ==>
          r in page.rows || (page.next.Some? && Before(w.dir, page.next.value, r.key)))
  }

  lemma FetchedPageOk(w: Scroll, after: Option<Key>, s: Snapshot)
    requires w.limit >= 1 && DistinctKeys(s.rows)
    ensures PageOk(w, after, s, FetchFrom(w, after, s))
  {
    FetchCorrect(w.On(s), after, s.rows);
  }

  lemma KeyedSnapshots(snapshots: seq<Snapshot>)
    requires Keyed(snapshots) && snapshots != []
    ensures DistinctKeys(snapshots[0].rows) && Keyed(snapshots[1..])
  {
    assert snapshots[0] in snapshots;
  }

  /** A completed walk is its first page and the rest of the walk. */
  lemma FirstPage(w: Scroll, after: Option<Key>, snapshots: seq<Snapshot>) returns (page: Page, rest: Walked)
    requires w.limit >= 1 && Walk(w, after, snapshots).Complete? && Keyed(snapshots)
    ensures snapshots != [] && PageOk(w, after, snapshots[0], page) && Keyed(snapshots[1..])
    ensures page.next.None? ==> Walk(w, after, snapshots) == Complete(page.rows, 1)
    ensures page.next.Some? ==>
              && rest.Complete? && rest == Walk(w, page.next, snapshots[1..])
              && Walk(w, after, snapshots) == Complete(page.rows + rest.rows, rest.pages + 1)
  {
    page := FetchFrom(w, after, snapshots[0]);
    KeyedSnapshots(snapshots);
    FetchedPageOk(w, after, snapshots[0]);
    rest := if page.next.Some? then Walk(w, page.next, snapshots[1..]) else Unfinished;
  }

  lemma {:induction false} WalkInOrder(w: Scroll, after: Option<Key>, snapshots: seq<Snapshot>)
    requires w.limit >= 1 && Walk(w, after, snapshots).Complete? && Keyed(snapshots)
    ensures FromSnapshots(w, after, snapshots, Walk(w, after, snapshots))
    decreases snapshots
  {
    var page, rest := FirstPage(w, after, snapshots);
    if page.next.Some? {
      WalkInOrder(w, page.next, snapshots[1..]);
      ContinuesInOrder(w, after, snapshots, page, rest);
    } else {
      StopsInOrder(w, after, snapshots, page);
    }
  }

  lemma StopsInOrder(w: Scroll, after: Option<Key>, snapshots: seq<Snapshot>, page: Page)
    requires snapshots != [] && PageOk(w, after, snapshots[0], page)
    ensures FromSnapshots(w, after, snapshots, Complete(page.rows, 1))
  {}

  lemma ContinuesInOrder(w: Scroll, after: Option<Key>, snapshots: seq<Snapshot>, page: Page, rest: Walked)
    requires snapshots != [] && PageOk(w, after, snapshots[0], page) && page.next.Some?
    requires FromSnapshots(w, page.next, snapshots[1..], rest)
    ensures FromSnapshots(w, after, snapshots, Complete(page.rows + rest.rows, rest.pages + 1))
  {
    var last := page.rows[|page.rows| - 1];
    assert last in page.rows;
    SortedConcat(w.dir, page.rows, rest.rows);
    forall r | r in page.rows + rest.rows
      ensures Follows(w.dir, after, r.key) && Seen(snapshots, rest.pages + 1, r)
    {
      if r in page.rows {
        assert r in snapshots[0].rows && snapshots[0].where(r);
      } else {
        SeenLater(snapshots, rest.pages, r);
        FollowsLater(w.dir, after, last.key, r.key);
      }
    }
  }

  lemma FollowsLater(dir: Direction, after: Option<Key>, k: Key, later: Key)
    requires Follows(dir, after, k) && Before(dir, k, later)
    ensures Follows(dir, after, later)
  {
    if after.Some? { BeforeTransitive(dir, after.value, k, later); }
  }

  lemma {:induction false} WalkMissesNothing(w: Scroll, after: Option<Key>, snapshots: seq<Snapshot>, k: Key)
    requires w.limit >= 1 && Walk(w, after, snapshots).Complete? && Keyed(snapshots)
    requires Follows(w.dir, after, k)
    requires forall j :: 0 <= j < Walk(w, after, snapshots).pages && j < |snapshots| ==> Present(snapshots[j], k)
    ensures Appears(Walk(w, after, snapshots).rows, k)
    decreases snapshots
  {
    var page, rest := FirstPage(w, after, snapshots);
    var r :| r in snapshots[0].rows && r.key == k && snapshots[0].where(r);
    if r in page.rows {
      var i :| 0 <= i < |page.rows| && page.rows[i] == r;
      assert Walk(w, after, snapshots).rows[i].key == k;
    } else {
      forall j | 0 <= j < rest.pages && j < |snapshots[1..]|
        ensures Present(snapshots[1..][j], k)
      {
        assert snapshots[1..][j] == snapshots[j + 1];
      }
      WalkMissesNothing(w, page.next, snapshots[1..], k);
      var i :| 0 <= i < |rest.rows| && rest.rows[i].key == k;
      assert (page.rows + rest.rows)[|page.rows| + i].key == k;
    }
  }

  /**
   While rows and filter change arbitrarily between fetches, a completed walk returns rows in
   sort order, never one key twice, and a key that passes the filter in every fetched snapshot
   appears exactly once.
   */
  lemma WalkUnderChanges(w: Scroll, snapshots: seq<Snapshot>, k: Key)
    requires w.limit >= 1 && Walk(w, None, snapshots).Complete? && Keyed(snapshots)
    ensures FromSnapshots(w, None, snapshots, Walk(w, None, snapshots))
    ensures var walked := Walk(w, None, snapshots);
            && (forall i, j :: 0 <= i < j < |walked.rows| ==> walked.rows[i].key != walked.rows[j].key)
            && ((forall j :: 0 <= j < walked.pages ==> Present(snapshots[j], k)) ==> Appears(walked.rows, k))
  {
    var walked := Walk(w, None, snapshots);
    WalkInOrder(w, None, snapshots);
    forall i, j | 0 <= i < j < |walked.rows|
      ensures walked.rows[i].key != walked.rows[j].key
    {
      BeforeTotal(w.dir, walked.rows[i].key, walked.rows[j].key);
    }
    if forall j :: 0 <= j < walked.pages ==> Present(snapshots[j], k) {
      WalkMissesNothing(w, None, snapshots, k);
    }
  }

  /** All rows a walk behind `after` has to return. */
  function Rows(w: Scroll, after: Option<Key>, s: Snapshot): seq<Row> {
    Select(w.On(s), after, s.rows)
  }

  lemma WalkStops(w: Scroll, after: Option<Key>, snapshots: seq<Snapshot>, all: seq<Row>)
    requires w.limit >= 1 && snapshots != [] && all == Rows(w, after, snapshots[0]) && |all| <= w.limit
    ensures Walk(w, after, snapshots) == Complete(all, 1)
  {}

  lemma WalkContinues(w: Scroll, after: Option<Key>, snapshots: seq<Snapshot>, all: seq<Row>)
    requires w.limit >= 1 && snapshots != [] && all == Rows(w, after, snapshots[0]) && |all| > w.limit
    ensures Walk(w, after, snapshots) == Following(all[..w.limit], 1, Walk(w, Some(all[w.limit - 1].key), snapshots[1..]))
  {}

  // ---------------------------------------------------- rows whose key changes

  /** The primary key: the last ordering column. */
  function IdOf(r: Row): int {
    if r.key == [] then 0 else r.key[|r.key| - 1]
  }

  /** r was found by fetch a and r' by the same or a later fetch b. */
  ghost predicate FetchedBefore(snapshots: seq<Snapshot>, r: Row, r': Row, a: nat, b: nat) {
    a <= b < |snapshots| && r in snapshots[a].rows && r' in snapshots[b].rows
  }

  ghost predicate Fetched(snapshots: seq<Snapshot>, r: Row, r': Row) {
    exists a: nat, b: nat :: FetchedBefore(snapshots, r, r', a, b)
  }

  /** Earlier rows come from earlier fetches. */
  ghost predicate InFetchOrder(snapshots: seq<Snapshot>, rows: seq<Row>) {
    forall i, j :: 0 <= i <= j < |rows| ==> Fetched(snapshots, rows[i], rows[j])
  }

  lemma FirstFetched(snapshots: seq<Snapshot>, rows: seq<Row>)
    requires snapshots != [] && forall r :: r in rows ==> r in snapshots[0].rows
    ensures InFetchOrder(snapshots, rows)
  {
    forall i, j | 0 <= i <= j < |rows|
      ensures Fetched(snapshots, rows[i], rows[j])
    {
      assert FetchedBefore(snapshots, rows[i], rows[j], 0, 0);
    }
  }

  lemma FetchedNext(snapshots: seq<Snapshot>, page: seq<Row>, rest: seq<Row>, i: nat, j: nat)
    requires snapshots != [] && (forall r :: r in page ==> r in snapshots[0].rows) && InFetchOrder(snapshots[1..], rest)
    requires i <= j < |page + rest| && j >= |page|
    ensures Fetched(snapshots, (page + rest)[i], (page + rest)[j])
  {
    var n := |page|;
    var k := if i < n then j - n else i - n;
    assert Fetched(snapshots[1..], rest[k], rest[j - n]);
    var a: nat, b: nat :| FetchedBefore(snapshots[1..], rest[k], rest[j - n], a, b);
    if i < n {
      assert page[i] in page;
      assert FetchedBefore(snapshots, (page + rest)[i], (page + rest)[j], 0, b + 1);
    } else {
      assert FetchedBefore(snapshots, (page + rest)[i], (page + rest)[j], a + 1, b + 1);
    }
  }

  lemma FetchOrderContinues(snapshots: seq<Snapshot>, page: seq<Row>, rest: seq<Row>)
    requires snapshots != [] && (forall r :: r in page ==> r in snapshots[0].rows) && InFetchOrder(snapshots[1..], rest)
    ensures InFetchOrder(snapshots, page + rest)
  {
    FirstFetched(snapshots, page);
    forall i, j | 0 <= i <= j < |page + rest|
      ensures Fetched(snapshots, (page + rest)[i], (page + rest)[j])
    {
      if j < |page| {
        assert Fetched(snapshots, page[i], page[j]);
      } else {
        FetchedNext(snapshots, page, rest, i, j);
      }
    }
  }

  lemma {:induction false} WalkInFetchOrder(w: Scroll, after: Option<Key>, snapshots: seq<Snapshot>)
    requires w.limit >= 1 && Walk(w, after, snapshots).Complete? && Keyed(snapshots)
    ensures InFetchOrder(snapshots, Walk(w, after, snapshots).rows)
    decreases snapshots
  {
    var page, rest := FirstPage(w, after, snapshots);
    if page.next.Some? {
      WalkInFetchOrder(w, page.next, snapshots[1..]);
      FetchOrderContinues(snapshots, page.rows, rest.rows);
    } else {
      FirstFetched(snapshots, page.rows);
    }
  }

  /** A row listed twice was moved forward in between: its key then comes after its key before. */
  lemma RepeatMeansMovedForward(w: Scroll, snapshots: seq<Snapshot>, i: nat, j: nat) returns (a: nat, b: nat)
    requires w.limit >= 1 && Walk(w, None, snapshots).Complete? && Keyed(snapshots)
    requires i < j < |Walk(w, None, snapshots).rows|
    ensures var rows := Walk(w, None, snapshots).rows;
            FetchedBefore(snapshots, rows[i], rows[j], a, b) && Before(w.dir, rows[i].key, rows[j].key)
  {
    WalkInOrder(w, None, snapshots);
    WalkInFetchOrder(w, None, snapshots);
    var rows := Walk(w, None, snapshots).rows;
    assert Fetched(snapshots, rows[i], rows[j]);
    a, b :| FetchedBefore(snapshots, rows[i], rows[j], a, b);
  }

  /** From one fetch to the next, no row's key moves forward; it may stay or move back. */
  ghost predicate NoneMovesForward(dir: Direction, snapshots: seq<Snapshot>) {
    forall a, b, r, r' :: 0 <= a <= b < |snapshots| && r in snapshots[a].rows && r' in snapshots[b].rows && IdOf(r) == IdOf(r')
      ==> !Before(dir, r.key, r'.key)
  }

  /** Then no row appears twice; created_at and id, which never change, are the common case. */
  lemma NoRowTwice(w: Scroll, snapshots: seq<Snapshot>, i: nat, j: nat)
    requires w.limit >= 1 && Walk(w, None, snapshots).Complete? && Keyed(snapshots)
    requires NoneMovesForward(w.dir, snapshots)
    requires i < j < |Walk(w, None, snapshots).rows|
    ensures IdOf(Walk(w, None, snapshots).rows[i]) != IdOf(Walk(w, None, snapshots).rows[j])
  {
    var a, b := RepeatMeansMovedForward(w, snapshots, i, j);
  }

  predicate Everything(r: Row) {
    true
  }

  lemma SelectSorted(q: Query, after: Option<Key>, rows: seq<Row>)
    requires Sorted(q.dir, rows) && DistinctKeys(rows) && forall r :: r in rows ==> Wanted(q, after, r)
    ensures Select(q, after, rows) == rows
  {
    SelectCorrect(q, after, rows);
    SortedUnique(q.dir, Select(q, after, rows), rows);
  }

  lemma SortedDistinct(dir: Direction, rows: seq<Row>)
    requires Sorted(dir, rows)
    ensures DistinctKeys(rows)
  {
    forall i, j | 0 <= i < j < |rows|
      ensures rows[i].key != rows[j].key
    {
      BeforeTotal(dir, rows[i].key, rows[j].key);
    }
  }

  /**
   The condition is needed, for every page size: whenever the first row of a full first page
   moves behind that page's last key before the next fetch, it is listed again.
   */
  lemma MovedForwardIsRepeated(w: Scroll, first: seq<Row>, moved: Row)
    requires w.limit >= 1 && |first| == w.limit + 1 && Sorted(w.dir, first)
    requires Before(w.dir, first[w.limit - 1].key, moved.key)
    ensures Walk(w, None, [Snapshot(first, Everything), Snapshot([moved], Everything)])
         == Complete(first[..w.limit] + [moved], 2)
  {
    var a, b := Snapshot(first, Everything), Snapshot([moved], Everything);
    var cursor := Some(first[w.limit - 1].key);
    SortedDistinct(w.dir, first);
    SelectSorted(w.On(a), None, first);
    SelectSorted(w.On(b), cursor, [moved]);
    assert [a, b][1..] == [b];
    WalkContinues(w, None, [a, b], first);
    WalkStops(w, cursor, [b], [moved]);
  }

  /** A photo moved from position 1 to 3 while position 2 is dropped: the walk lists photo 7 twice. */
  lemma PhotoListedTwice()
    ensures var (before, other, moved) := (Row([1, 0, 7], ""), Row([2, 0, 8], ""), Row([3, 0, 7], ""));
            && Walk(Scroll(Ascending, 1), None, [Snapshot([before, other], Everything), Snapshot([moved], Everything)])
               == Complete([before, moved], 2)
            && IdOf(before) == IdOf(moved)
  {
    var before, other, moved := Row([1, 0, 7], ""), Row([2, 0, 8], ""), Row([3, 0, 7], "");
    assert Before(Ascending, before.key, other.key) && Before(Ascending, before.key, moved.key);
    MovedForwardIsRepeated(Scroll(Ascending, 1), [before, other], moved);
    assert [before, other][..1] + [moved] == [before, moved];
  }

  // When exactly rows may repeat, over all histories that change keys in given ways only.

  /** k with its id raised by i. */
  function Bump(k: Key, i: nat): (r: Key)
    requires k != []
    ensures |r| == |k| && r[|k| - 1] == k[|k| - 1] + i
  {
    k[..|k| - 1] + [k[|k| - 1] + i]
  }

  lemma {:induction false} BumpGrows(k: Key, i: nat, j: nat)
    requires k != [] && i < j
    ensures Less(Bump(k, i), Bump(k, j))
    decreases |k|
  {
    if |k| > 1 {
      assert Bump(k, i)[1..] == Bump(k[1..], i) && Bump(k, j)[1..] == Bump(k[1..], j);
      BumpGrows(k[1..], i, j);
    }
  }

  /** Two keys of one row. */
  predicate SameRow(k: Key, k': Key) {
    k != [] && |k| == |k'| && k[|k| - 1] == k'[|k'| - 1]
  }

  lemma {:induction false} BumpStaysBelow(k: Key, k': Key, i: nat)
    requires SameRow(k, k') && Less(k, k')
    ensures Less(Bump(k, i), k')
    decreases |k|
  {
    if |k| > 1 && k[0] == k'[0] {
      assert Bump(k, i)[1..] == Bump(k[1..], i);
      BumpStaysBelow(k[1..], k'[1..], i);
    }
  }

  function CrowdRow(dir: Direction, k: Key, k': Key, limit: nat, i: nat): Row
    requires SameRow(k, k') && i <= limit
  {
    if i == 0 then Row(k, "")
    else if dir == Ascending then Row(Bump(k, i), "") else Row(Bump(k', limit + 1 - i), "")
  }

  /** A full page and one row more that starts with k and ends before k'. */
  function Crowd(dir: Direction, k: Key, k': Key, limit: nat): (rows: seq<Row>)
    requires SameRow(k, k')
    ensures |rows| == limit + 1 && forall i :: 0 <= i <= limit ==> rows[i] == CrowdRow(dir, k, k', limit, i)
  {
    seq(limit + 1, i requires 0 <= i <= limit => CrowdRow(dir, k, k', limit, i))
  }

  lemma CrowdOrdered(dir: Direction, k: Key, k': Key, limit: nat, i: nat, j: nat)
    requires SameRow(k, k') && Before(dir, k, k') && i < j <= limit
    ensures Before(dir, Crowd(dir, k, k', limit)[i].key, Crowd(dir, k, k', limit)[j].key)
  {
    if dir == Ascending {
      assert Bump(k, 0) == k;
      BumpGrows(k, i, j);
    } else if i == 0 {
      BumpStaysBelow(k', k, limit + 1 - j);
    } else {
      BumpGrows(k', limit + 1 - j, limit + 1 - i);
    }
  }

  lemma CrowdEndsBefore(dir: Direction, k: Key, k': Key, limit: nat, i: nat)
    requires SameRow(k, k') && Before(dir, k, k') && i <= limit
    ensures Before(dir, Crowd(dir, k, k', limit)[i].key, k')
  {
    if dir == Ascending {
      assert Bump(k, 0) == k;
      BumpStaysBelow(k, k', i);
    } else if i > 0 {
      assert Bump(k', 0) == k';
      BumpGrows(k', 0, limit + 1 - i);
    }
  }

  /** Every row has n ordering columns, and its key changes between fetches in the given ways only. */
  ghost predicate MovesOnly(n: nat, moves: (Key, Key) -> bool, snapshots: seq<Snapshot>) {
    && Keyed(snapshots)
    && (forall a, r :: 0 <= a < |snapshots| && r in snapshots[a].rows ==> |r.key| == n)
    && (forall a, b, r, r' :: 0 <= a <= b < |snapshots| && r in snapshots[a].rows && r' in snapshots[b].rows && IdOf(r) == IdOf(r')
          ==> r.key == r'.key || moves(r.key, r'.key))
  }

  ghost predicate ListsOnce(rows: seq<Row>) {
    forall i, j :: 0 <= i < j < |rows| ==> IdOf(rows[i]) != IdOf(rows[j])
  }

  /** No walk over any such history lists a row twice. */
  ghost predicate NeverRepeats(w: Scroll, n: nat, moves: (Key, Key) -> bool)
    requires w.limit >= 1
  {
    forall snapshots: seq<Snapshot> :: MovesOnly(n, moves, snapshots) && Walk(w, None, snapshots).Complete?
      ==> ListsOnce(Walk(w, None, snapshots).rows)
  }

  ghost predicate NoForwardMove(dir: Direction, n: nat, moves: (Key, Key) -> bool) {
    forall k: Key, k': Key :: |k| == n && SameRow(k, k') && moves(k, k') ==> !Before(dir, k, k')
  }

  lemma StayingBehind(w: Scroll, n: nat, moves: (Key, Key) -> bool, snapshots: seq<Snapshot>)
    requires n >= 1 && NoForwardMove(w.dir, n, moves) && MovesOnly(n, moves, snapshots)
    ensures NoneMovesForward(w.dir, snapshots)
  {
    forall a, b, r, r' | 0 <= a <= b < |snapshots| && r in snapshots[a].rows && r' in snapshots[b].rows && IdOf(r) == IdOf(r')
      ensures !Before(w.dir, r.key, r'.key)
    {
      BeforeTotal(w.dir, r.key, r'.key);
      assert SameRow(r.key, r'.key);
    }
  }

  /** The history that lists a row twice: its key moves from k forward to k' behind a full page. */
  function Overtaken(w: Scroll, k: Key, k': Key): seq<Snapshot>
    requires SameRow(k, k')
  {
    [Snapshot(Crowd(w.dir, k, k', w.limit), Everything), Snapshot([Row(k', "")], Everything)]
  }

  lemma CrowdMember(dir: Direction, k: Key, k': Key, limit: nat, i: nat)
    requires SameRow(k, k') && i <= limit
    ensures |Crowd(dir, k, k', limit)[i].key| == |k|
    ensures IdOf(Crowd(dir, k, k', limit)[i]) ==
            k[|k| - 1] + if i == 0 then 0 else if dir == Ascending then i else limit + 1 - i
  {}

  /** In the crowd only its first row has the id of k, and no two rows have one id. */
  lemma CrowdIds(dir: Direction, k: Key, k': Key, limit: nat, r: Row, r': Row)
    requires SameRow(k, k') && r in Crowd(dir, k, k', limit)
    ensures |r.key| == |k| && (IdOf(r) == k[|k| - 1] ==> r.key == k)
    ensures r' in Crowd(dir, k, k', limit) && IdOf(r) == IdOf(r') ==> r == r'
  {
    var crowd := Crowd(dir, k, k', limit);
    var i :| 0 <= i < |crowd| && crowd[i] == r;
    CrowdMember(dir, k, k', limit, i);
    if r' in crowd {
      var j :| 0 <= j < |crowd| && crowd[j] == r';
      CrowdMember(dir, k, k', limit, j);
    }
  }

  lemma CrowdKeyed(dir: Direction, k: Key, k': Key, limit: nat)
    requires SameRow(k, k') && Before(dir, k, k')
    ensures DistinctKeys(Crowd(dir, k, k', limit))
  {
    var crowd := Crowd(dir, k, k', limit);
    forall i, j | 0 <= i < j < |crowd|
      ensures crowd[i].key != crowd[j].key
    {
      CrowdOrdered(dir, k, k', limit, i, j);
      BeforeTotal(dir, crowd[i].key, crowd[j].key);
    }
  }

  lemma OvertakenPair(w: Scroll, k: Key, k': Key, a: nat, b: nat, r: Row, r': Row)
    requires SameRow(k, k') && a <= b < 2 && IdOf(r) == IdOf(r')
    requires r in Overtaken(w, k, k')[a].rows && r' in Overtaken(w, k, k')[b].rows
    ensures r.key == r'.key || (r.key == k && r'.key == k')
  {
    if a == 0 { CrowdIds(w.dir, k, k', w.limit, r, r'); }
  }

  lemma OvertakenMoves(w: Scroll, n: nat, moves: (Key, Key) -> bool, k: Key, k': Key)
    requires |k| == n && SameRow(k, k') && moves(k, k') && Before(w.dir, k, k')
    ensures MovesOnly(n, moves, Overtaken(w, k, k'))
  {
    var snapshots := Overtaken(w, k, k');
    CrowdKeyed(w.dir, k, k', w.limit);
    forall a, r | 0 <= a < |snapshots| && r in snapshots[a].rows
      ensures |r.key| == n
    {
      if a == 0 { CrowdIds(w.dir, k, k', w.limit, r, r); }
    }
    forall a, b, r, r' | 0 <= a <= b < |snapshots| && r in snapshots[a].rows && r' in snapshots[b].rows && IdOf(r) == IdOf(r')
      ensures r.key == r'.key || moves(r.key, r'.key)
    {
      OvertakenPair(w, k, k', a, b, r, r');
    }
  }

  lemma OvertakenRepeats(w: Scroll, k: Key, k': Key)
    requires w.limit >= 1 && SameRow(k, k') && Before(w.dir, k, k')
    ensures Walk(w, None, Overtaken(w, k, k')).Complete? && !ListsOnce(Walk(w, None, Overtaken(w, k, k')).rows)
  {
    var crowd := Crowd(w.dir, k, k', w.limit);
    forall i, j | 0 <= i < j < |crowd|
      ensures Before(w.dir, crowd[i].key, crowd[j].key)
    {
      CrowdOrdered(w.dir, k, k', w.limit, i, j);
    }
    CrowdEndsBefore(w.dir, k, k', w.limit, w.limit - 1);
    MovedForwardIsRepeated(w, crowd, Row(k', ""));
    var rows := crowd[..w.limit] + [Row(k', "")];
    assert IdOf(rows[0]) == IdOf(rows[w.limit]);
  }

  /**
   For every page size and direction: no walk lists a row twice, if and only if keys never
   move forward. created_at and id never move; a photo's position can.
   */
  lemma NeverRepeatsIff(w: Scroll, n: nat, moves: (Key, Key) -> bool)
    requires w.limit >= 1 && n >= 1
    ensures NeverRepeats(w, n, moves) <==> NoForwardMove(w.dir, n, moves)
  {
    if NoForwardMove(w.dir, n, moves) {
      forall snapshots: seq<Snapshot> | MovesOnly(n, moves, snapshots) && Walk(w, None, snapshots).Complete?
        ensures ListsOnce(Walk(w, None, snapshots).rows)
      {
        StayingBehind(w, n, moves, snapshots);
        forall i, j | 0 <= i < j < |Walk(w, None, snapshots).rows|
          ensures IdOf(Walk(w, None, snapshots).rows[i]) != IdOf(Walk(w, None, snapshots).rows[j])
        {
          NoRowTwice(w, snapshots, i, j);
        }
      }
    } else {
      var k: Key, k': Key :| |k| == n && SameRow(k, k') && moves(k, k') && Before(w.dir, k, k');
      OvertakenMoves(w, n, moves, k, k');
      OvertakenRepeats(w, k, k');
    }
  }

  // ------------------------------------------------------- an unchanged table

  /** max(1, ceil(n / limit)): the least number of pages, at least one, that holds n rows. */
  function PageCount(n: nat, limit: nat): (pages: nat)
    requires limit >= 1
    ensures pages >= 1
  {
    if n <= limit then 1 else 1 + PageCount(n - limit, limit)
  }

  lemma {:induction false} PageCountIsCeiling(n: nat, limit: nat)
    requires limit >= 1
    ensures n <= PageCount(n, limit) * limit
    ensures PageCount(n, limit) > 1 ==> (PageCount(n, limit) - 1) * limit < n
  {
    if n > limit {
      var p := PageCount(n - limit, limit);
      PageCountIsCeiling(n - limit, limit);
      assert (p + 1) * limit == p * limit + limit;
      assert p > 1 ==> p * limit == (p - 1) * limit + limit;
    }
  }

  /** The fetches of a walk over a table that does not change. */
  function Unchanged(s: Snapshot, fetches: nat): (snapshots: seq<Snapshot>)
    ensures |snapshots| == fetches && forall i :: 0 <= i < fetches ==> snapshots[i] == s
  {
    seq(fetches, _ => s)
  }

  lemma UnchangedRest(s: Snapshot, fetches: nat)
    requires fetches > 0
    ensures Unchanged(s, fetches)[1..] == Unchanged(s, fetches - 1)
  {}

  lemma SortedSuffix(dir: Direction, all: seq<Row>, n: nat, r: Row)
    requires Sorted(dir, all) && 1 <= n <= |all| && r in all
    ensures r in all[n..] <==> Before(dir, all[n - 1].key, r.key)
  {
    var i :| 0 <= i < |all| && all[i] == r;
    if i >= n {
      assert all[n..][i - n] == r;
    } else if r in all[n..] {
      var j :| n <= j < |all| && all[j] == r;
    } else if i < n - 1 {
      BeforeTotal(dir, all[n - 1].key, r.key);
    } else {
      BeforeTotal(dir, r.key, r.key);
    }
  }

  lemma WantedNext(q: Query, after: Option<Key>, table: seq<Row>, all: seq<Row>, r: Row)
    requires 1 <= q.limit <= |all| && Sorted(q.dir, all)
    requires forall x :: x in all <==> x in table && Wanted(q, after, x)
    ensures r in all[q.limit..] <==> r in table && Wanted(q, Some(all[q.limit - 1].key), r)
  {
    var last := all[q.limit - 1];
    assert last in all;
    if r in all {
      SortedSuffix(q.dir, all, q.limit, r);
    } else if r in table && Wanted(q, Some(last.key), r) {
      FollowsLater(q.dir, after, last.key, r.key);
    }
  }

  /** The next page continues exactly where this one stopped. */
  lemma SelectContinues(q: Query, after: Option<Key>, table: seq<Row>)
    requires q.limit >= 1 && DistinctKeys(table) && |Select(q, after, table)| > q.limit
    ensures Select(q, Some(Select(q, after, table)[q.limit - 1].key), table) == Select(q, after, table)[q.limit..]
  {
    var all := Select(q, after, table);
    var rest := Select(q, Some(all[q.limit - 1].key), table);
    SelectCorrect(q, after, table);
    SelectCorrect(q, Some(all[q.limit - 1].key), table);
    forall r
      ensures r in rest <==> r in all[q.limit..]
    {
      WantedNext(q, after, table, all, r);
    }
    SortedUnique(q.dir, rest, all[q.limit..]);
  }

  lemma JoinPages(all: seq<Row>, limit: nat)
    requires 1 <= limit < |all|
    ensures Following(all[..limit], 1, Complete(all[limit..], PageCount(|all| - limit, limit))) == Complete(all, PageCount(|all|, limit))
  {
    assert all[..limit] + all[limit..] == all;
  }

  lemma {:induction false} WalkFrom(w: Scroll, after: Option<Key>, s: Snapshot, fetches: nat)
    requires w.limit >= 1 && DistinctKeys(s.rows)
    requires fetches >= PageCount(|Rows(w, after, s)|, w.limit)
    ensures Walk(w, after, Unchanged(s, fetches)) == Complete(Rows(w, after, s), PageCount(|Rows(w, after, s)|, w.limit))
    decreases fetches
  {
    var all, n := Rows(w, after, s), w.limit;
    if |all| > n {
      SelectContinues(w.On(s), after, s.rows);
      WalkFrom(w, Some(all[n - 1].key), s, fetches - 1);
      UnchangedRest(s, fetches);
      WalkContinues(w, after, Unchanged(s, fetches), all);
      JoinPages(all, n);
    } else {
      WalkStops(w, after, Unchanged(s, fetches), all);
    }
  }

  /** On an unchanged table the walk returns every row that passes the filter, in order, each exactly once. */
  lemma WalkExhausts(w: Scroll, s: Snapshot, fetches: nat)
    requires w.limit >= 1 && DistinctKeys(s.rows)
    requires fetches >= PageCount(|Rows(w, None, s)|, w.limit)
    ensures var walked := Walk(w, None, Unchanged(s, fetches));
            && walked == Complete(Rows(w, None, s), PageCount(|Rows(w, None, s)|, w.limit))
            && Sorted(w.dir, walked.rows)
            && forall r :: r in walked.rows <==> r in s.rows && s.where(r)
  {
    WalkFrom(w, None, s, fetches);
    SelectCorrect(w.On(s), None, s.rows);
  }
}
