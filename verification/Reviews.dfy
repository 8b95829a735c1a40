/** The review table and the queries over it that the page finder and the scorecard share. */
module Reviews {
  import opened Wrappers
  import opened Calendar

  type ReviewId = nat
  type UserId = nat
  type BookingId = nat

  datatype Role = OwnerRole | PassengerRole
  datatype Target = DriverTarget | VehicleTarget | PassengerTarget

  /** The database keeps stamps in microseconds; a JavaScript date has whole milliseconds. */
  const TICKS: int := 1000

  /** `at` is the submission stamp in ticks; the other times are in milliseconds. */
  datatype Review = Review(
    id: ReviewId, booking: BookingId, reviewer: UserId, reviewee: UserId, role: Role, target: Target,
    rating: int, isLiked: bool, likes: nat, text: string, at: int,
    revealedAt: Option<Time>, expiresAt: Time, response: Option<string>)

  /** The columns that decide the order. */
  datatype Key = Key(at: int, id: ReviewId)

  type Table = map<ReviewId, Review>

  predicate WellKeyed(t: Table) {
    forall id <- t :: t[id].id == id
  }

  function KeyOf(r: Review): Key {
    Key(r.at, r.id)
  }

  /** ORDER BY submitted_at DESC, id DESC. */
  predicate Newer(a: Key, b: Key) {
    a.at > b.at || (a.at == b.at && a.id > b.id)
  }

  predicate Descending(xs: seq<Key>) {
    forall i, j | 0 <= i < j < |xs| :: Newer(xs[i], xs[j])
  }

  predicate IsNewest(m: Key, s: set<Key>) {
    m in s && forall x <- s :: x == m || Newer(m, x)
  }

  lemma {:induction false} NewestExists(s: set<Key>) returns (m: Key)
    requires s != {}
    ensures IsNewest(m, s)
  {
    var y :| y in s;
    if s == {y} {
      m := y;
    } else {
      var z := NewestExists(s - {y});
      m := if Newer(z, y) then z else y;
      assert forall x <- s :: x == y || x in s - {y};
    }
  }

  /** A row set has one newest row. */
  function Newest(s: set<Key>): (m: Key)
    requires s != {}
    ensures IsNewest(m, s)
  {
    assert exists m :: IsNewest(m, s) by {
      var m := NewestExists(s);
    }
    var m :| m in s && IsNewest(m, s);
    m
  }

  /** The list holds the set, newest first. */
  ghost predicate Lists(xs: seq<Key>, s: set<Key>) {
    Descending(xs) && (forall x :: x in xs <==> x in s) && |xs| == |s|
  }

  lemma NewestFirst(rest: seq<Key>, s: set<Key>, m: Key)
    requires IsNewest(m, s) && Lists(rest, s - {m})
    ensures Lists([m] + rest, s)
  {
    assert forall x <- rest :: x in s - {m} && Newer(m, x);
  }

  lemma {:induction false} ListExists(s: set<Key>) returns (xs: seq<Key>)
    ensures Lists(xs, s)
  {
    if s == {} {
      xs := [];
    } else {
      var m := NewestExists(s);
      var rest := ListExists(s - {m});
      NewestFirst(rest, s, m);
      xs := [m] + rest;
    }
  }

  ghost function Sorted(s: set<Key>): (xs: seq<Key>)
    ensures Descending(xs)
    ensures forall x :: x in xs <==> x in s
    ensures |xs| == |s|
  {
    assert exists xs :: Lists(xs, s) by {
      var xs := ListExists(s);
    }
    var xs :| Lists(xs, s);
    xs
  }

  lemma {:induction false} SameElementsSameList(xs: seq<Key>, ys: seq<Key>)
    requires Descending(xs) && Descending(ys) && forall x :: x in xs <==> x in ys
    ensures xs == ys
  {
    BothEmpty(xs, ys);
    if xs != [] {
      HeadIsNewest(xs, ys);
      forall x ensures x in xs[1..] <==> x in ys[1..] {
        TailHasTheRest(xs, x);
        TailHasTheRest(ys, x);
      }
      SameElementsSameList(xs[1..], ys[1..]);
    }
  }

  lemma BothEmpty(xs: seq<Key>, ys: seq<Key>)
    requires forall x :: x in xs <==> x in ys
    ensures xs == [] <==> ys == []
  {
    if xs != [] { assert xs[0] in xs; }
    if ys != [] { assert ys[0] in ys; }
  }

  lemma HeadIsNewest(xs: seq<Key>, ys: seq<Key>)
    requires Descending(xs) && Descending(ys) && xs != [] && ys != [] && forall x :: x in xs <==> x in ys
    ensures xs[0] == ys[0]
  {
    assert xs[0] in ys;
    assert ys[0] in xs;
  }

  lemma TailHasTheRest(xs: seq<Key>, x: Key)
    requires Descending(xs) && xs != []
    ensures x in xs[1..] <==> x in xs && x != xs[0]
  {
  }

  /** There is only one way to list a set newest first. */
  lemma SortedIsUnique(xs: seq<Key>, s: set<Key>)
    requires Descending(xs) && forall x :: x in xs <==> x in s
    ensures xs == Sorted(s)
  {
    SameElementsSameList(xs, Sorted(s));
  }

  predicate Revealed(r: Review, reviewee: UserId, role: Option<Role>) {
    r.reviewee == reviewee && r.revealedAt.Some? && (role.Some? ==> r.role == role.value)
  }

  function Visible(t: Table, reviewee: UserId, role: Option<Role>): set<Key> {
    set id <- t | Revealed(t[id], reviewee, role) :: KeyOf(t[id])
  }

  lemma VisibleKeysHaveRows(t: Table, reviewee: UserId, role: Option<Role>)
    requires WellKeyed(t)
    ensures forall k <- Visible(t, reviewee, role) ::
              k.id in t && KeyOf(t[k.id]) == k && Revealed(t[k.id], reviewee, role)
  {
  }

  /** The rows behind a list of keys. */
  function Rows(t: Table, keys: seq<Key>): (rs: seq<Review>)
    requires forall k <- keys :: k.id in t
    ensures |rs| == |keys| && forall i | 0 <= i < |keys| :: rs[i] == t[keys[i].id]
  {
    seq(|keys|, i requires 0 <= i < |keys| => t[keys[i].id])
  }

  /** Rows are only added or revealed; what orders and selects a row never changes. */
  ghost predicate Grows(t: Table, u: Table) {
    forall id <- t ::
      && id in u && u[id].id == t[id].id && u[id].at == t[id].at
      && u[id].reviewee == t[id].reviewee && u[id].role == t[id].role
      && (t[id].revealedAt.Some? ==> u[id].revealedAt.Some?)
  }
}
