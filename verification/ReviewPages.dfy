/**
 Keyset pagination of a reviewee's revealed reviews in date order. The cursor carries the last row's
 stamp printed with milliseconds, while the column may be finer: `grain` is the number of stored ticks
 in a millisecond. Proved: pages never repeat a row, and exactly when they skip none.
 */
module ReviewPages {
  import opened Wrappers
  import opened Reviews

  datatype Cursor = Cursor(at: int, id: ReviewId)
  datatype Page = Page(keys: seq<Key>, next: Option<Cursor>)

  /** What the finder returns: rows, next cursor and total count. */
  type Answer = (seq<Review>, Option<Cursor>, nat)

  /** toISOString keeps whole milliseconds only. */
  function CursorOf(k: Key, grain: int): Cursor
    requires grain > 0
  {
    Cursor(k.at / grain * grain, k.id)
  }

  predicate Past(x: Key, c: Cursor) {
    x.at < c.at || (x.at == c.at && x.id < c.id)
  }

  function After(s: set<Key>, cursor: Option<Cursor>): set<Key> {
    set x <- s | cursor.Some? ==> Past(x, cursor.value)
  }

  /** The page query: one row more than the limit tells whether there is a next page. */
  ghost function PageOf(s: set<Key>, cursor: Option<Cursor>, limit: nat, grain: int): Page
    requires grain > 0
  {
    var rows := Sorted(After(s, cursor));
    if |rows| > limit then
      Page(rows[..limit], if limit > 0 then Some(CursorOf(rows[limit - 1], grain)) else None)
    else
      Page(rows, None)
  }

  /** findRevealedByReviewee in date order: the rows of the page, the next cursor and the total count. */
  ghost function FindRevealed(
    t: Table, reviewee: UserId, role: Option<Role>, cursor: Option<Cursor>, limit: nat, grain: int): Answer
    requires WellKeyed(t) && grain > 0
  {
    var s := Visible(t, reviewee, role);
    var page := PageOf(s, cursor, limit, grain);
    VisibleKeysHaveRows(t, reviewee, role);
    PageFacts(s, cursor, limit, grain);
    (Rows(t, page.keys), page.next, |s|)
  }

  function KeysOf(rows: seq<Review>): (keys: seq<Key>)
    ensures |keys| == |rows|
  {
    seq(|rows|, i requires 0 <= i < |rows| => KeyOf(rows[i]))
  }

  /** What a client keeps of an answer: the rows' keys and the next cursor. */
  ghost function FoundPage(
    t: Table, reviewee: UserId, role: Option<Role>, cursor: Option<Cursor>, limit: nat, grain: int): Page
    requires WellKeyed(t) && grain > 0
  {
    var found := FindRevealed(t, reviewee, role, cursor, limit, grain);
    Page(KeysOf(found.0), found.1)
  }

  lemma FoundIsPage(t: Table, reviewee: UserId, role: Option<Role>, cursor: Option<Cursor>, limit: nat, grain: int)
    requires WellKeyed(t) && grain > 0
    ensures FoundPage(t, reviewee, role, cursor, limit, grain) ==
            PageOf(Visible(t, reviewee, role), cursor, limit, grain)
    ensures forall row <- FindRevealed(t, reviewee, role, cursor, limit, grain).0 ::
              row.id in t && t[row.id] == row && Revealed(row, reviewee, role)
  {
    var s := Visible(t, reviewee, role);
    var page, found := PageOf(s, cursor, limit, grain), FindRevealed(t, reviewee, role, cursor, limit, grain);
    VisibleKeysHaveRows(t, reviewee, role);
    PageFacts(s, cursor, limit, grain);
    forall i | 0 <= i < |page.keys|
      ensures KeyOf(found.0[i]) == page.keys[i] && found.0[i].id in t && t[found.0[i].id] == found.0[i]
      ensures Revealed(found.0[i], reviewee, role)
    {
      assert page.keys[i] in page.keys && page.keys[i] in After(s, cursor);
    }
    assert KeysOf(found.0) == page.keys;
  }

  /** The reviews that are revealed for the reviewee and role. */
  function RevealedIds(t: Table, reviewee: UserId, role: Option<Role>): set<ReviewId> {
    set id <- t |
      t[id].reviewee == reviewee && t[id].revealedAt.Some? && (role.None? || t[id].role == role.value)
  }

  /** Those of them that come after the cursor: an older stamp, or the same one and a smaller id. */
  function Ahead(t: Table, reviewee: UserId, role: Option<Role>, cursor: Option<Cursor>): set<ReviewId> {
    set id <- RevealedIds(t, reviewee, role) |
      match cursor
      case None => true
      case Some(Cursor(at, last)) => t[id].at < at || (t[id].at == at && id < last)
  }

  lemma SameSize(ids: set<ReviewId>, keys: set<Key>)
    requires forall id <- ids :: exists k <- keys :: k.id == id
    requires (forall k <- keys :: k.id in ids) && forall k, x | k in keys && x in keys && k.id == x.id :: k == x
    ensures |ids| == |keys|
    decreases keys
  {
    if keys != {} {
      var k :| k in keys;
      SameSize(ids - {k.id}, keys - {k});
    }
  }

  lemma AheadIsAfter(t: Table, reviewee: UserId, role: Option<Role>, cursor: Option<Cursor>)
    requires WellKeyed(t)
    ensures |After(Visible(t, reviewee, role), cursor)| == |Ahead(t, reviewee, role, cursor)|
    ensures |Visible(t, reviewee, role)| == |RevealedIds(t, reviewee, role)|
    ensures forall id <- t :: KeyOf(t[id]) in After(Visible(t, reviewee, role), cursor) <==>
              id in Ahead(t, reviewee, role, cursor)
  {
    var s := Visible(t, reviewee, role);
    VisibleKeysHaveRows(t, reviewee, role);
    forall id <- RevealedIds(t, reviewee, role) ensures exists k <- s :: k.id == id {
      assert KeyOf(t[id]) in s;
    }
    SameSize(RevealedIds(t, reviewee, role), s);
    forall id <- Ahead(t, reviewee, role, cursor) ensures exists k <- After(s, cursor) :: k.id == id {
      assert KeyOf(t[id]) in After(s, cursor);
    }
    SameSize(Ahead(t, reviewee, role, cursor), After(s, cursor));
  }

  /** The newest of these reviews, as many as the limit allows, newest first. */
  ghost predicate AreNewest(rows: seq<Review>, t: Table, ids: set<ReviewId>, limit: nat)
    requires forall id <- ids :: id in t
  {
    && |rows| == (if |ids| <= limit then |ids| else limit)
    && (forall row <- rows :: row.id in ids && t[row.id] == row)
    && (forall i, j | 0 <= i < j < |rows| :: Newer(KeyOf(rows[i]), KeyOf(rows[j])))
    && (forall id <- ids, row <- rows :: t[id] in rows || Newer(KeyOf(row), KeyOf(t[id])))
  }

  lemma FoundRowsAreAhead(
    t: Table, reviewee: UserId, role: Option<Role>, cursor: Option<Cursor>, limit: nat, grain: int)
    requires WellKeyed(t) && grain > 0
    ensures
      var rows := FindRevealed(t, reviewee, role, cursor, limit, grain).0;
      var page := PageOf(Visible(t, reviewee, role), cursor, limit, grain);
      && |rows| == |page.keys| && (forall i | 0 <= i < |rows| :: KeyOf(rows[i]) == page.keys[i])
      && (forall row <- rows :: row.id in Ahead(t, reviewee, role, cursor) && t[row.id] == row)
  {
    var rows, s := FindRevealed(t, reviewee, role, cursor, limit, grain).0, Visible(t, reviewee, role);
    FoundIsPage(t, reviewee, role, cursor, limit, grain);
    AheadIsAfter(t, reviewee, role, cursor);
    PageFacts(s, cursor, limit, grain);
    var keys := PageOf(s, cursor, limit, grain).keys;
    assert KeysOf(rows) == keys;
    forall i | 0 <= i < |rows| ensures KeyOf(rows[i]) == keys[i] && rows[i].id in Ahead(t, reviewee, role, cursor) {
      assert KeysOf(rows)[i] == keys[i] && keys[i] in keys && rows[i] in rows;
    }
  }

  /** The finder's rows are the newest of the revealed reviews that come after the cursor. */
  lemma FoundRows(t: Table, reviewee: UserId, role: Option<Role>, cursor: Option<Cursor>, limit: nat, grain: int)
    requires WellKeyed(t) && grain > 0
    ensures AreNewest(FindRevealed(t, reviewee, role, cursor, limit, grain).0, t,
                      Ahead(t, reviewee, role, cursor), limit)
  {
    var rows, s := FindRevealed(t, reviewee, role, cursor, limit, grain).0, Visible(t, reviewee, role);
    FoundRowsAreAhead(t, reviewee, role, cursor, limit, grain);
    AheadIsAfter(t, reviewee, role, cursor);
    var keys := PageOf(s, cursor, limit, grain).keys;
    forall id <- Ahead(t, reviewee, role, cursor), row <- rows
      ensures t[id] in rows || Newer(KeyOf(row), KeyOf(t[id]))
    {
      NewestAreFound(s, cursor, limit, grain, KeyOf(t[id]));
      FoundOrOlder(t, rows, keys, id, row);
    }
    PageFacts(s, cursor, limit, grain);
  }

  lemma FoundOrOlder(t: Table, rows: seq<Review>, keys: seq<Key>, id: ReviewId, row: Review)
    requires WellKeyed(t) && id in t && row in rows && |rows| == |keys|
    requires forall i | 0 <= i < |rows| :: KeyOf(rows[i]) == keys[i]
    requires forall x <- rows :: x.id in t && t[x.id] == x
    requires KeyOf(t[id]) in keys || forall x <- keys :: Newer(x, KeyOf(t[id]))
    ensures t[id] in rows || Newer(KeyOf(row), KeyOf(t[id]))
  {
    if KeyOf(t[id]) in keys {
      var i :| 0 <= i < |keys| && keys[i] == KeyOf(t[id]);
      assert rows[i] in rows && rows[i].id == id;
    } else {
      var i :| 0 <= i < |rows| && rows[i] == row;
      assert keys[i] in keys;
    }
  }

  /** The cursor is the key of a row, but for the stamp: that is cut to a whole number of grains. */
  predicate PointsAt(c: Cursor, k: Key, grain: int)
    requires grain > 0
  {
    c.id == k.id && c.at % grain == 0 && c.at <= k.at < c.at + grain
  }

  lemma CutStamp(k: Key, grain: int)
    requires grain > 0
    ensures PointsAt(CursorOf(k, grain), k, grain)
  {
    assert k.at == k.at / grain * grain + k.at % grain;
    MultipleHasNoRest(k.at / grain, grain);
  }

  lemma MultipleHasNoRest(q: int, grain: int)
    requires grain > 0
    ensures q * grain % grain == 0
  {
    var n := q * grain;
    MultipleIsFar(n / grain - q, grain);
    assert (n / grain - q) * grain == -(n % grain);
  }

  lemma MultipleIsFar(k: int, d: int)
    requires d > 0
    ensures k > 0 ==> k * d >= d
    ensures k < 0 ==> k * d <= -d
  {
  }

  lemma PageCursor(s: set<Key>, cursor: Option<Cursor>, limit: nat, grain: int)
    requires grain > 0
    ensures
      var page := PageOf(s, cursor, limit, grain);
      && (page.next.None? <==> limit == 0 || |After(s, cursor)| <= limit)
      && (page.next.Some? ==> |page.keys| == limit > 0 && PointsAt(page.next.value, page.keys[limit - 1], grain))
  {
    PageFacts(s, cursor, limit, grain);
    var page := PageOf(s, cursor, limit, grain);
    if page.next.Some? {
      CutStamp(page.keys[limit - 1], grain);
    }
  }

  /**
   Its cursor is none exactly when no row was asked for or none is left; otherwise it is the last row's id
   and its stamp cut to the millisecond. Its total counts all revealed reviews.
   */
  lemma FoundCursor(t: Table, reviewee: UserId, role: Option<Role>, cursor: Option<Cursor>, limit: nat, grain: int)
    requires WellKeyed(t) && grain > 0
    ensures
      var found, ahead := FindRevealed(t, reviewee, role, cursor, limit, grain), Ahead(t, reviewee, role, cursor);
      && (found.1.None? <==> limit == 0 || |ahead| <= limit)
      && (found.1.Some? ==> |found.0| == limit > 0 && PointsAt(found.1.value, KeyOf(found.0[limit - 1]), grain))
      && found.2 == |RevealedIds(t, reviewee, role)|
  {
    FoundRowsAreAhead(t, reviewee, role, cursor, limit, grain);
    FoundIsPage(t, reviewee, role, cursor, limit, grain);
    AheadIsAfter(t, reviewee, role, cursor);
    PageCursor(Visible(t, reviewee, role), cursor, limit, grain);
  }

  /** A key past the cursor is on the page, or older than everything on it. */
  lemma NewestAreFound(s: set<Key>, cursor: Option<Cursor>, limit: nat, grain: int, k: Key)
    requires grain > 0 && k in After(s, cursor)
    ensures
      var keys := PageOf(s, cursor, limit, grain).keys;
      k in keys || forall x <- keys :: Newer(x, k)
  {
    var rows := Sorted(After(s, cursor));
    var p :| 0 <= p < |rows| && rows[p] == k;
    if |rows| <= limit || p < limit {
      assert PageOf(s, cursor, limit, grain).keys[p] == k;
    }
  }

  lemma PageFacts(s: set<Key>, cursor: Option<Cursor>, limit: nat, grain: int)
    requires grain > 0
    ensures
      var page := PageOf(s, cursor, limit, grain);
      && Descending(page.keys)
      && (forall k <- page.keys :: k in After(s, cursor))
      && |page.keys| <= limit
      && (page.next.Some? ==> |page.keys| == limit > 0 && page.next.value == CursorOf(page.keys[limit - 1], grain))
  {
  }

  // ---------------------------------------------------------------------------
  // One page after another
  // ---------------------------------------------------------------------------

  /** What is past the cursor of a row is older than the row, and past every earlier cursor. */
  lemma CursorMovesOn(k: Key, x: Key, grain: int)
    requires grain > 0 && Past(x, CursorOf(k, grain))
    ensures Newer(k, x)
    ensures forall c: Cursor :: Past(k, c) ==> Past(x, c)
  {
  }

  /** With whole-millisecond stamps, past the cursor of a row is the same as older than the row. */
  lemma WholeStampCursorIsExact(k: Key, x: Key, grain: int)
    requires grain > 0 && k.at % grain == 0
    ensures Past(x, CursorOf(k, grain)) <==> Newer(k, x)
  {
  }

  /** The pages of a client that follows nextCursor from `cursor` on an unchanging table. */
  ghost function Walk(s: set<Key>, cursor: Option<Cursor>, limit: nat, grain: int): (pages: seq<Page>)
    requires limit > 0 && grain > 0
    ensures |pages| > 0
    decreases After(s, cursor)
  {
    var page := PageOf(s, cursor, limit, grain);
    if page.next.None? then [page]
    else
      NextPageIsLater(s, cursor, limit, grain);
      [page] + Walk(s, page.next, limit, grain)
  }

  function Seen(pages: seq<Page>): seq<Key> {
    if pages == [] then [] else pages[0].keys + Seen(pages[1..])
  }

  /** The next page is cut from what follows this page, newest first as well. */
  lemma NextPageIsLater(s: set<Key>, cursor: Option<Cursor>, limit: nat, grain: int)
    requires limit > 0 && grain > 0
    requires PageOf(s, cursor, limit, grain).next.Some?
    ensures
      var rows, next := Sorted(After(s, cursor)), PageOf(s, cursor, limit, grain).next;
      && After(s, next) < After(s, cursor)
      && (forall x <- After(s, next) :: x in rows[limit..])
  {
    var rows, next := Sorted(After(s, cursor)), PageOf(s, cursor, limit, grain).next;
    var last := rows[limit - 1];
    assert last in After(s, cursor);
    forall x <- After(s, next) ensures x in After(s, cursor) && x in rows[limit..] && x != last {
      CursorMovesOn(last, x, grain);
      assert x in After(s, cursor);
      var i :| 0 <= i < |rows| && rows[i] == x;
      assert i >= limit;
      assert rows[limit..][i - limit] == x;
    }
    assert last !in After(s, next);
  }

  lemma JoinFits(rows: seq<Key>, n: nat, rest: seq<Key>)
    requires n <= |rows| && Descending(rows) && Descending(rest) && forall y <- rest :: y in rows[n..]
    ensures Descending(rows[..n] + rest)
  {
    forall i, j | 0 <= i < n && 0 <= j < |rest| ensures Newer(rows[i], rest[j]) {
      assert rest[j] in rows[n..];
      var k :| n <= k < |rows| && rows[k] == rest[j];
    }
  }

  lemma WalkUnfolds(s: set<Key>, cursor: Option<Cursor>, limit: nat, grain: int)
    requires limit > 0 && grain > 0
    ensures
      var page := PageOf(s, cursor, limit, grain);
      && |Walk(s, cursor, limit, grain)| == (if page.next.None? then 1 else 1 + |Walk(s, page.next, limit, grain)|)
      && Seen(Walk(s, cursor, limit, grain)) ==
         if page.next.None? then page.keys else page.keys + Seen(Walk(s, page.next, limit, grain))
  {
  }

  /** A walk lists rows of the table past its cursor, newest first, whatever the stamps: none is repeated. */
  lemma {:induction false} WalkNeverRepeats(s: set<Key>, cursor: Option<Cursor>, limit: nat, grain: int)
    requires limit > 0 && grain > 0
    ensures
      var seen := Seen(Walk(s, cursor, limit, grain));
      && Descending(seen)
      && (forall x <- seen :: x in After(s, cursor))
      && |seen| <= |After(s, cursor)|
    decreases After(s, cursor)
  {
    var rows, page := Sorted(After(s, cursor)), PageOf(s, cursor, limit, grain);
    WalkUnfolds(s, cursor, limit, grain);
    if page.next.Some? {
      NextPageIsLater(s, cursor, limit, grain);
      WalkNeverRepeats(s, page.next, limit, grain);
      var rest := Seen(Walk(s, page.next, limit, grain));
      LaterFits(s, cursor, limit, grain);
      JoinFits(rows, limit, rest);
      assert forall x <- rows[..limit] :: x in rows;
    }
  }

  lemma LaterFits(s: set<Key>, cursor: Option<Cursor>, limit: nat, grain: int)
    requires limit > 0 && grain > 0
    requires PageOf(s, cursor, limit, grain).next.Some?
    ensures limit + |After(s, PageOf(s, cursor, limit, grain).next)| <= |After(s, cursor)|
  {
    NextPageIsLater(s, cursor, limit, grain);
    var rows, next := Sorted(After(s, cursor)), PageOf(s, cursor, limit, grain).next;
    var tail := set x <- rows[limit..];
    assert After(s, next) <= tail;
    TailSet(rows, limit);
    SubsetSize(After(s, next), tail);
  }

  lemma SubsetSize<T>(a: set<T>, b: set<T>)
    requires a <= b
    ensures |a| <= |b| && (|a| == |b| ==> a == b)
  {
    assert b == a + (b - a);
  }

  lemma {:induction false} TailSet(rows: seq<Key>, n: nat)
    requires Descending(rows) && n <= |rows|
    ensures |(set x <- rows[n..])| == |rows| - n
    decreases |rows| - n
  {
    if n < |rows| {
      TailSet(rows, n + 1);
      var tail := rows[n + 1..];
      assert (set x <- rows[n..]) == (set x <- tail) + {rows[n]};
      assert forall i | n < i < |rows| :: Newer(rows[n], rows[i]);
    }
  }

  // ---------------------------------------------------------------------------
  // When a walk is complete
  // ---------------------------------------------------------------------------

  /**
   At every page boundary the first row of the next page is past the printed cursor of the row before
   it: it is not in the same millisecond, or the boundary stamp is a whole millisecond.
   */
  ghost predicate SafeBoundaries(rows: seq<Key>, limit: nat, grain: int)
    requires limit > 0 && grain > 0
    decreases |rows|
  {
    |rows| > limit ==>
      Past(rows[limit], CursorOf(rows[limit - 1], grain)) && SafeBoundaries(rows[limit..], limit, grain)
  }

  /** Nothing is lost at a safe boundary, and something is at an unsafe one. */
  lemma BoundaryKeepsAll(s: set<Key>, cursor: Option<Cursor>, limit: nat, grain: int)
    requires limit > 0 && grain > 0
    requires PageOf(s, cursor, limit, grain).next.Some?
    ensures
      var rows, next := Sorted(After(s, cursor)), PageOf(s, cursor, limit, grain).next;
      if Past(rows[limit], CursorOf(rows[limit - 1], grain)) then Sorted(After(s, next)) == rows[limit..]
      else |After(s, next)| < |rows| - limit
  {
    var rows, next := Sorted(After(s, cursor)), PageOf(s, cursor, limit, grain).next;
    NextPageIsLater(s, cursor, limit, grain);
    var first := rows[limit];
    assert first in After(s, cursor);
    if Past(first, next.value) {
      forall x ensures x in rows[limit..] <==> x in After(s, next) {
        if x in rows[limit..] {
          var i :| limit <= i < |rows| && rows[i] == x;
          assert i == limit || Newer(first, rows[i]);
          assert x in After(s, cursor);
        }
      }
      assert Descending(rows[limit..]);
      SortedIsUnique(rows[limit..], After(s, next));
    } else {
      var tail := set x <- rows[limit..];
      TailSet(rows, limit);
      assert first == rows[limit..][0];
      assert first in tail && first !in After(s, next) && After(s, next) <= tail;
      SubsetSize(After(s, next), tail);
    }
  }

  /** Whole pages of `limit` rows, and then one of at most `limit`. */
  function PageCount(n: nat, limit: nat): nat
    requires limit > 0
  {
    if n <= limit then 1 else 1 + PageCount(n - limit, limit)
  }

  /** That is ceil(n / limit) pages, or 1 when n is 0. */
  lemma {:induction false} PageCountIsCeiling(n: nat, limit: nat)
    requires limit > 0
    ensures if n == 0 then PageCount(n, limit) == 1
            else (PageCount(n, limit) - 1) * limit < n <= PageCount(n, limit) * limit
  {
    if n > limit {
      PageCountIsCeiling(n - limit, limit);
      var p := PageCount(n - limit, limit);
      assert (p + 1) * limit == p * limit + limit && p * limit == (p - 1) * limit + limit;
    }
  }

  /**
   Exactly when the boundaries are safe does a walk return every row once, newest first, and then in
   ceil(total / limit) pages, or one page when there is nothing.
   */
  lemma {:induction false} WalkIsCompleteIff(s: set<Key>, cursor: Option<Cursor>, limit: nat, grain: int)
    requires limit > 0 && grain > 0
    ensures Seen(Walk(s, cursor, limit, grain)) == Sorted(After(s, cursor)) <==>
            SafeBoundaries(Sorted(After(s, cursor)), limit, grain)
    decreases After(s, cursor)
  {
    var rows, page := Sorted(After(s, cursor)), PageOf(s, cursor, limit, grain);
    WalkUnfolds(s, cursor, limit, grain);
    if page.next.Some? {
      NextPageIsLater(s, cursor, limit, grain);
      WalkIsCompleteIff(s, page.next, limit, grain);
      WalkNeverRepeats(s, page.next, limit, grain);
      BoundaryKeepsAll(s, cursor, limit, grain);
      SameHead(rows, limit, Seen(Walk(s, page.next, limit, grain)));
    }
  }

  lemma SameHead(rows: seq<Key>, n: nat, rest: seq<Key>)
    requires n <= |rows|
    ensures rows[..n] + rest == rows <==> rest == rows[n..]
  {
  }

  lemma SafeNextPage(s: set<Key>, cursor: Option<Cursor>, limit: nat, grain: int)
    requires limit > 0 && grain > 0 && SafeBoundaries(Sorted(After(s, cursor)), limit, grain)
    requires PageOf(s, cursor, limit, grain).next.Some?
    ensures
      var rows, next := Sorted(After(s, cursor)), PageOf(s, cursor, limit, grain).next;
      SafeBoundaries(Sorted(After(s, next)), limit, grain) && |Sorted(After(s, next))| == |rows| - limit
  {
    var rows := Sorted(After(s, cursor));
    assert Past(rows[limit], CursorOf(rows[limit - 1], grain)) && SafeBoundaries(rows[limit..], limit, grain);
    BoundaryKeepsAll(s, cursor, limit, grain);
  }

  lemma {:induction false} SafeWalkPageCount(s: set<Key>, cursor: Option<Cursor>, limit: nat, grain: int, n: nat)
    requires limit > 0 && grain > 0 && Safe(s, cursor, limit, grain) && n == |After(s, cursor)|
    ensures |Walk(s, cursor, limit, grain)| == PageCount(n, limit)
    decreases n
  {
    if n <= limit {
      WalkLength(s, cursor, limit, grain);
    } else {
      var next := SafeStep(s, cursor, limit, grain);
      SafeWalkPageCount(s, next, limit, grain, n - limit);
    }
  }

  ghost predicate Safe(s: set<Key>, cursor: Option<Cursor>, limit: nat, grain: int)
    requires limit > 0 && grain > 0
  {
    SafeBoundaries(Sorted(After(s, cursor)), limit, grain)
  }

  lemma WalkLength(s: set<Key>, cursor: Option<Cursor>, limit: nat, grain: int)
    requires limit > 0 && grain > 0
    ensures
      var next := PageOf(s, cursor, limit, grain).next;
      && (next.Some? <==> |After(s, cursor)| > limit)
      && |Walk(s, cursor, limit, grain)| == if next.None? then 1 else 1 + |Walk(s, next, limit, grain)|
  {
  }

  lemma SafeStep(s: set<Key>, cursor: Option<Cursor>, limit: nat, grain: int) returns (next: Option<Cursor>)
    requires limit > 0 && grain > 0 && Safe(s, cursor, limit, grain) && |After(s, cursor)| > limit
    ensures Safe(s, next, limit, grain) && |After(s, next)| == |After(s, cursor)| - limit
    ensures |Walk(s, cursor, limit, grain)| == 1 + |Walk(s, next, limit, grain)|
  {
    next := PageOf(s, cursor, limit, grain).next;
    WalkLength(s, cursor, limit, grain);
    SafeNextPage(s, cursor, limit, grain);
  }

  /** Whole-millisecond stamps make every boundary safe. */
  lemma {:induction false} WholeStampsAreSafe(rows: seq<Key>, limit: nat, grain: int)
    requires limit > 0 && grain > 0 && Descending(rows) && forall k <- rows :: k.at % grain == 0
    ensures SafeBoundaries(rows, limit, grain)
    decreases |rows|
  {
    if |rows| > limit {
      assert rows[limit - 1] in rows && Newer(rows[limit - 1], rows[limit]);
      WholeStampCursorIsExact(rows[limit - 1], rows[limit], grain);
      WholeStampsAreSafe(rows[limit..], limit, grain);
    }
  }

  /** What a client gets that follows the finder's cursors from `cursor` on an unchanging table. */
  ghost function ClientWalk(
    t: Table, reviewee: UserId, role: Option<Role>, cursor: Option<Cursor>, limit: nat, grain: int):
    (answers: seq<Answer>)
    requires WellKeyed(t) && limit > 0 && grain > 0
    ensures |answers| > 0
    decreases After(Visible(t, reviewee, role), cursor)
  {
    var answer := FindRevealed(t, reviewee, role, cursor, limit, grain);
    if answer.1.None? then [answer]
    else
      FoundIsPage(t, reviewee, role, cursor, limit, grain);
      NextPageIsLater(Visible(t, reviewee, role), cursor, limit, grain);
      [answer] + ClientWalk(t, reviewee, role, answer.1, limit, grain)
  }

  function RowsSeen(answers: seq<Answer>): seq<Review> {
    if answers == [] then [] else answers[0].0 + RowsSeen(answers[1..])
  }

  lemma KeysOfBoth(a: seq<Review>, b: seq<Review>)
    ensures KeysOf(a + b) == KeysOf(a) + KeysOf(b)
  {
  }

  lemma {:induction false} ClientWalkIsWalk(
    t: Table, reviewee: UserId, role: Option<Role>, cursor: Option<Cursor>, limit: nat, grain: int)
    requires WellKeyed(t) && limit > 0 && grain > 0
    ensures
      var answers, s := ClientWalk(t, reviewee, role, cursor, limit, grain), Visible(t, reviewee, role);
      && |answers| == |Walk(s, cursor, limit, grain)|
      && KeysOf(RowsSeen(answers)) == Seen(Walk(s, cursor, limit, grain))
      && (forall row <- RowsSeen(answers) :: row.id in RevealedIds(t, reviewee, role) && t[row.id] == row)
      && forall answer <- answers :: answer.2 == |RevealedIds(t, reviewee, role)|
    decreases After(Visible(t, reviewee, role), cursor)
  {
    var answer, s := FindRevealed(t, reviewee, role, cursor, limit, grain), Visible(t, reviewee, role);
    FoundIsPage(t, reviewee, role, cursor, limit, grain);
    FoundCursor(t, reviewee, role, cursor, limit, grain);
    WalkUnfolds(s, cursor, limit, grain);
    if answer.1.Some? {
      NextPageIsLater(s, cursor, limit, grain);
      ClientWalkIsWalk(t, reviewee, role, answer.1, limit, grain);
      var rest := ClientWalk(t, reviewee, role, answer.1, limit, grain);
      assert ([answer] + rest)[1..] == rest;
      KeysOfBoth(answer.0, RowsSeen(rest));
    } else {
      assert RowsSeen([answer]) == answer.0;
    }
  }

  lemma AllSeenIff(t: Table, reviewee: UserId, role: Option<Role>, rows: seq<Review>)
    requires WellKeyed(t) && Descending(KeysOf(rows))
    requires forall row <- rows :: row.id in RevealedIds(t, reviewee, role) && t[row.id] == row
    ensures (forall id <- RevealedIds(t, reviewee, role) :: t[id] in rows) <==>
            KeysOf(rows) == Sorted(Visible(t, reviewee, role))
  {
    var s, keys := Visible(t, reviewee, role), KeysOf(rows);
    forall i | 0 <= i < |rows| ensures keys[i] in s {
      assert rows[i] in rows;
    }
    if forall id <- RevealedIds(t, reviewee, role) :: t[id] in rows {
      forall k ensures k in keys <==> k in s {
        if k in s {
          VisibleKeysHaveRows(t, reviewee, role);
          var i :| 0 <= i < |rows| && rows[i] == t[k.id];
          assert keys[i] == k;
        }
      }
      SortedIsUnique(keys, s);
    } else if keys == Sorted(s) {
      forall id <- RevealedIds(t, reviewee, role) ensures t[id] in rows {
        assert KeyOf(t[id]) in keys;
        var i :| 0 <= i < |keys| && keys[i] == KeyOf(t[id]);
        assert rows[i] in rows && rows[i].id == id;
      }
    }
  }

  lemma ClientSees(t: Table, reviewee: UserId, role: Option<Role>, limit: nat, grain: int)
    requires WellKeyed(t) && limit > 0 && grain > 0
    ensures
      var answers, ids := ClientWalk(t, reviewee, role, None, limit, grain), RevealedIds(t, reviewee, role);
      var rows := RowsSeen(answers);
      && (forall row <- rows :: row.id in ids && t[row.id] == row)
      && Descending(KeysOf(rows)) && (forall answer <- answers :: answer.2 == |ids|)
      && ((forall id <- ids :: t[id] in rows) <==>
          SafeBoundaries(Sorted(Visible(t, reviewee, role)), limit, grain))
  {
    var s := Visible(t, reviewee, role);
    assert After(s, None) == s;
    ClientWalkIsWalk(t, reviewee, role, None, limit, grain);
    WalkNeverRepeats(s, None, limit, grain);
    AllSeenIff(t, reviewee, role, RowsSeen(ClientWalk(t, reviewee, role, None, limit, grain)));
    WalkIsCompleteIff(s, None, limit, grain);
  }

  /**
   A client's walk from no cursor, for any stamps: its rows are revealed reviews of the reviewee and role,
   newest first and so none twice, and every answer's total counts all of them. It sees every one exactly
   when its boundaries are safe, and then in the promised number of pages; with whole-millisecond stamps
   of those reviews they always are.
   */
  lemma FullWalkSeesAllIff(t: Table, reviewee: UserId, role: Option<Role>, limit: nat, grain: int)
    requires WellKeyed(t) && limit > 0 && grain > 0
    ensures
      var answers, ids := ClientWalk(t, reviewee, role, None, limit, grain), RevealedIds(t, reviewee, role);
      var rows, boundaries := RowsSeen(answers), Sorted(Visible(t, reviewee, role));
      && (forall row <- rows :: row.id in ids && t[row.id] == row)
      && Descending(KeysOf(rows)) && (forall answer <- answers :: answer.2 == |ids|)
      && ((forall id <- ids :: t[id] in rows) <==> SafeBoundaries(boundaries, limit, grain))
      && (SafeBoundaries(boundaries, limit, grain) ==> |answers| == PageCount(|ids|, limit))
      && ((forall id <- ids :: t[id].at % grain == 0) ==> SafeBoundaries(boundaries, limit, grain))
  {
    var s, ids := Visible(t, reviewee, role), RevealedIds(t, reviewee, role);
    ClientSees(t, reviewee, role, limit, grain);
    AheadIsAfter(t, reviewee, role, None);
    if forall id <- ids :: t[id].at % grain == 0 {
      VisibleKeysHaveRows(t, reviewee, role);
      WholeStampsAreSafe(Sorted(s), limit, grain);
    }
    if SafeBoundaries(Sorted(s), limit, grain) {
      assert After(s, None) == s;
      SafeWalkPageCount(s, None, limit, grain, |s|);
      ClientWalkIsWalk(t, reviewee, role, None, limit, grain);
    }
  }

  /** Stamps kept in microseconds: the second of two reviews of one millisecond is never listed. */
  lemma FineStampsCanSkip()
    ensures
      var s := {Key(1_000_700, 2), Key(1_000_300, 1)};
      !SafeBoundaries(Sorted(s), 1, TICKS) && Seen(Walk(s, None, 1, TICKS)) != Sorted(s)
  {
    var newer, older := Key(1_000_700, 2), Key(1_000_300, 1);
    var s := {newer, older};
    SortedIsUnique([newer, older], s);
    assert Sorted(s)[1] == older && CursorOf(newer, TICKS) == Cursor(1_000_000, 2);
    assert After(s, None) == s;
    WalkIsCompleteIff(s, None, 1, TICKS);
  }

  // ---------------------------------------------------------------------------
  // Reviews arriving between fetches
  // ---------------------------------------------------------------------------

  ghost predicate GrowsThroughout(ts: seq<Table>) {
    forall i, j | 0 <= i < j < |ts| && j == i + 1 :: Grows(ts[i], ts[j])
  }

  function CursorBefore(pages: seq<Page>, i: nat): Option<Cursor>
    requires i < |pages|
  {
    if i == 0 then None else pages[i - 1].next
  }

  ghost predicate Fetched(
    t: Table, pages: seq<Page>, i: nat, reviewee: UserId, role: Option<Role>, limit: nat, grain: int)
    requires i < |pages| && grain > 0
  {
    && (i > 0 ==> CursorBefore(pages, i).Some?)
    && WellKeyed(t) && pages[i] == FoundPage(t, reviewee, role, CursorBefore(pages, i), limit, grain)
  }

  lemma FetchedPage(t: Table, pages: seq<Page>, i: nat, reviewee: UserId, role: Option<Role>, limit: nat, grain: int)
    requires i < |pages| && grain > 0 && Fetched(t, pages, i, reviewee, role, limit, grain)
    ensures pages[i] == PageOf(Visible(t, reviewee, role), CursorBefore(pages, i), limit, grain)
  {
    FoundIsPage(t, reviewee, role, CursorBefore(pages, i), limit, grain);
  }

  /** Page i was fetched from table i, each with the cursor the page before returned. */
  ghost predicate IsWalk(ts: seq<Table>, pages: seq<Page>, reviewee: UserId, role: Option<Role>, limit: nat, grain: int)
    requires grain > 0
  {
    && |ts| == |pages| > 0
    && (forall i | 0 <= i < |pages| :: Fetched(ts[i], pages, i, reviewee, role, limit, grain))
    && GrowsThroughout(ts)
  }

  lemma {:induction false} VisibleGrows(ts: seq<Table>, i: nat, reviewee: UserId, role: Option<Role>)
    requires i < |ts| && GrowsThroughout(ts)
    ensures Visible(ts[0], reviewee, role) <= Visible(ts[i], reviewee, role)
  {
    if i > 0 {
      VisibleGrows(ts, i - 1, reviewee, role);
      forall k <- Visible(ts[i - 1], reviewee, role) ensures k in Visible(ts[i], reviewee, role) {
        assert Grows(ts[i - 1], ts[i]);
        var id :| id in ts[i - 1] && Revealed(ts[i - 1][id], reviewee, role) && KeyOf(ts[i - 1][id]) == k;
        assert Revealed(ts[i][id], reviewee, role) && KeyOf(ts[i][id]) == k;
      }
    }
  }

  ghost predicate Listed(pages: seq<Page>, i: nat, k: Key) {
    exists j :: 0 <= j <= i && j < |pages| && k in pages[j].keys
  }

  /** Page i passes the review by: it is older than the page's last row, but not past the printed cursor. */
  ghost predicate LostAt(pages: seq<Page>, i: nat, limit: nat, k: Key)
    requires i < |pages|
  {
    && pages[i].next.Some? && |pages[i].keys| == limit > 0
    && Newer(pages[i].keys[limit - 1], k) && !Past(k, pages[i].next.value)
  }

  /** A row past the cursor is on the page, or past the next cursor, or passed by. */
  lemma OnPageOrPast(s: set<Key>, pages: seq<Page>, i: nat, cursor: Option<Cursor>, limit: nat, grain: int, k: Key)
    requires limit > 0 && grain > 0 && k in After(s, cursor)
    requires i < |pages| && pages[i] == PageOf(s, cursor, limit, grain) && !LostAt(pages, i, limit, k)
    ensures k in pages[i].keys || (pages[i].next.Some? && Past(k, pages[i].next.value))
  {
    var rows := Sorted(After(s, cursor));
    var p :| 0 <= p < |rows| && rows[p] == k;
    if p < limit || |rows| <= limit {
      assert pages[i].keys[p] == k;
    }
  }

  /** After i pages an original review that none of them passed by has been listed or still lies past the cursor. */
  lemma {:induction false} ListedOrAhead(
    ts: seq<Table>, pages: seq<Page>, reviewee: UserId, role: Option<Role>, limit: nat, grain: int, i: nat, k: Key)
    requires limit > 0 && grain > 0 && IsWalk(ts, pages, reviewee, role, limit, grain) && i < |pages|
    requires k in Visible(ts[0], reviewee, role) && forall j | 0 <= j <= i :: !LostAt(pages, j, limit, k)
    ensures Listed(pages, i, k) || (pages[i].next.Some? && Past(k, pages[i].next.value))
  {
    VisibleGrows(ts, i, reviewee, role);
    FetchedPage(ts[i], pages, i, reviewee, role, limit, grain);
    if i > 0 {
      ListedOrAhead(ts, pages, reviewee, role, limit, grain, i - 1, k);
    }
    if i == 0 || !Listed(pages, i - 1, k) {
      OnPageOrPast(Visible(ts[i], reviewee, role), pages, i, CursorBefore(pages, i), limit, grain, k);
    }
  }

  lemma NextPageIsOlder(
    t: Table, u: Table, pages: seq<Page>, reviewee: UserId, role: Option<Role>, limit: nat, grain: int,
    j: nat, a: Key, b: Key)
    returns (last: Key)
    requires limit > 0 && grain > 0 && 0 < j < |pages| && b in pages[j].keys
    requires Fetched(t, pages, j - 1, reviewee, role, limit, grain)
    requires Fetched(u, pages, j, reviewee, role, limit, grain)
    ensures last in pages[j - 1].keys && Newer(last, b)
    ensures a in pages[j - 1].keys ==> Newer(a, b)
  {
    FetchedPage(t, pages, j - 1, reviewee, role, limit, grain);
    FetchedPage(u, pages, j, reviewee, role, limit, grain);
    PageFacts(Visible(t, reviewee, role), CursorBefore(pages, j - 1), limit, grain);
    PageFacts(Visible(u, reviewee, role), CursorBefore(pages, j), limit, grain);
    last := pages[j - 1].keys[limit - 1];
    CursorMovesOn(last, b, grain);
  }

  /** Every row of a page is older than every row of the pages before. */
  lemma {:induction false} LaterPagesAreOlder(
    ts: seq<Table>, pages: seq<Page>, reviewee: UserId, role: Option<Role>, limit: nat, grain: int,
    i: nat, j: nat, a: Key, b: Key)
    requires limit > 0 && grain > 0 && IsWalk(ts, pages, reviewee, role, limit, grain)
    requires i < j < |pages| && a in pages[i].keys && b in pages[j].keys
    ensures Newer(a, b)
    decreases j
  {
    FetchedPage(ts[j - 1], pages, j - 1, reviewee, role, limit, grain);
    FetchedPage(ts[j], pages, j, reviewee, role, limit, grain);
    var last := NextPageIsOlder(ts[j - 1], ts[j], pages, reviewee, role, limit, grain, j, a, b);
    if i < j - 1 {
      LaterPagesAreOlder(ts, pages, reviewee, role, limit, grain, i, j - 1, a, last);
    }
  }

  /** Every row of a page is past the cursor of every page before. */
  lemma {:induction false} LaterPagesArePast(
    ts: seq<Table>, pages: seq<Page>, reviewee: UserId, role: Option<Role>, limit: nat, grain: int,
    i: nat, j: nat, k: Key)
    requires limit > 0 && grain > 0 && IsWalk(ts, pages, reviewee, role, limit, grain)
    requires i < j < |pages| && k in pages[j].keys
    ensures pages[i].next.Some? && Past(k, pages[i].next.value)
    decreases j
  {
    FetchedPage(ts[j - 1], pages, j - 1, reviewee, role, limit, grain);
    FetchedPage(ts[j], pages, j, reviewee, role, limit, grain);
    PageFacts(Visible(ts[j], reviewee, role), CursorBefore(pages, j), limit, grain);
    PageFacts(Visible(ts[j - 1], reviewee, role), CursorBefore(pages, j - 1), limit, grain);
    if i < j - 1 {
      var last := pages[j - 1].keys[limit - 1];
      LaterPagesArePast(ts, pages, reviewee, role, limit, grain, i, j - 1, last);
      CursorMovesOn(last, k, grain);
    }
  }

  /** A listed review was passed by no page. */
  lemma ListedIsNotLost(
    ts: seq<Table>, pages: seq<Page>, reviewee: UserId, role: Option<Role>, limit: nat, grain: int,
    i: nat, j: nat, k: Key)
    requires limit > 0 && grain > 0 && IsWalk(ts, pages, reviewee, role, limit, grain)
    requires i < |pages| && j < |pages| && k in pages[j].keys
    ensures !LostAt(pages, i, limit, k)
  {
    FetchedPage(ts[i], pages, i, reviewee, role, limit, grain);
    if LostAt(pages, i, limit, k) {
      var last := pages[i].keys[limit - 1];
      if i < j {
        LaterPagesArePast(ts, pages, reviewee, role, limit, grain, i, j, k);
      } else if j < i {
        LaterPagesAreOlder(ts, pages, reviewee, role, limit, grain, j, i, k, last);
      }
    }
  }

  /**
   A finished walk over a table that only grows, for any stamps: a review that was revealed at its start
   is listed exactly when no page passes it by; and no review is on two pages or twice on one.
   */
  lemma OriginalsSeenOnceIff(
    ts: seq<Table>, pages: seq<Page>, reviewee: UserId, role: Option<Role>, limit: nat, grain: int, k: Key)
    requires limit > 0 && grain > 0 && IsWalk(ts, pages, reviewee, role, limit, grain)
    requires pages[|pages| - 1].next.None? && k in Visible(ts[0], reviewee, role)
    ensures Listed(pages, |pages| - 1, k) <==> forall i | 0 <= i < |pages| :: !LostAt(pages, i, limit, k)
    ensures forall i, j | 0 <= i < j < |pages| :: !(k in pages[i].keys && k in pages[j].keys)
    ensures forall j | 0 <= j < |pages| :: Descending(pages[j].keys)
  {
    if forall i | 0 <= i < |pages| :: !LostAt(pages, i, limit, k) {
      ListedOrAhead(ts, pages, reviewee, role, limit, grain, |pages| - 1, k);
    }
    if Listed(pages, |pages| - 1, k) {
      var j :| 0 <= j < |pages| && k in pages[j].keys;
      forall i | 0 <= i < |pages| ensures !LostAt(pages, i, limit, k) {
        ListedIsNotLost(ts, pages, reviewee, role, limit, grain, i, j, k);
      }
    }
    forall i, j | 0 <= i < j < |pages|
      ensures !(k in pages[i].keys && k in pages[j].keys)
    {
      if k in pages[i].keys && k in pages[j].keys {
        LaterPagesAreOlder(ts, pages, reviewee, role, limit, grain, i, j, k, k);
      }
    }
    forall j | 0 <= j < |pages| ensures Descending(pages[j].keys) {
      FetchedPage(ts[j], pages, j, reviewee, role, limit, grain);
    }
  }

  /** A page whose last row has a whole-millisecond stamp passes nothing by. */
  lemma WholeBoundaryLosesNothing(
    ts: seq<Table>, pages: seq<Page>, reviewee: UserId, role: Option<Role>, limit: nat, grain: int, i: nat, k: Key)
    requires limit > 0 && grain > 0 && IsWalk(ts, pages, reviewee, role, limit, grain) && i < |pages|
    requires |pages[i].keys| == limit ==> pages[i].keys[limit - 1].at % grain == 0
    ensures !LostAt(pages, i, limit, k)
  {
    FetchedPage(ts[i], pages, i, reviewee, role, limit, grain);
    PageFacts(Visible(ts[i], reviewee, role), CursorBefore(pages, i), limit, grain);
    if LostAt(pages, i, limit, k) {
      WholeStampCursorIsExact(pages[i].keys[limit - 1], k, grain);
    }
  }
}
