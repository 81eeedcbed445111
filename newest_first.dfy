/** shows.sort(reverse=True) and shows[:20]: the shows newest first, shows
    of the same day in the order they were read, and the first twenty kept. */
module NewestFirst {
  import opened Shows
  import opened TimeFormat

  /** No show is older than a show after it. */
  predicate IsNewestFirst(s: seq<Show>) {
    forall i, j :: 0 <= i < j < |s| ==> !Less(s[i], s[j])
  }

  /** The shows of s watched on day d, in the order of s. */
  function OnDay(s: seq<Show>, d: ParsedDate): seq<Show> {
    if s == [] then [] else (if s[0].date == d then [s[0]] else []) + OnDay(s[1..], d)
  }

  /** Puts x in front of the first show that is not newer than it. */
  function Insert(x: Show, s: seq<Show>): seq<Show> {
    if s == [] || !Less(x, s[0]) then [x] + s else [s[0]] + Insert(x, s[1..])
  }

  /** list.sort(reverse=True) with Show.__lt__: a stable sort from newest to
      oldest. Each show is inserted ahead of the later shows of its day, so
      shows of one day keep their input order. */
  function SortNewestFirst(s: seq<Show>): seq<Show> {
    if s == [] then [] else Insert(s[0], SortNewestFirst(s[1..]))
  }

  lemma {:induction false} InsertPermutes(x: Show, s: seq<Show>)
    ensures multiset(Insert(x, s)) == multiset(s) + multiset{x}
  {
    if s != [] && Less(x, s[0]) {
      InsertPermutes(x, s[1..]);
      assert s == [s[0]] + s[1..];
    }
  }

  lemma {:induction false} InsertKeepsOrder(x: Show, s: seq<Show>)
    requires IsNewestFirst(s)
    ensures IsNewestFirst(Insert(x, s))
  {
    var r := Insert(x, s);
    if s == [] {
    } else if !Less(x, s[0]) {
      forall j | 1 <= j < |r| ensures !Less(r[0], r[j]) {
        LessIsStrictWeakOrder(x, s[0], s[j - 1]);
      }
    } else {
      var rest := Insert(x, s[1..]);
      assert IsNewestFirst(s[1..]);
      InsertKeepsOrder(x, s[1..]);
      forall j | 1 <= j < |r| ensures !Less(r[0], r[j]) {
        assert r[j] == rest[j - 1];
        InsertMember(x, s[1..], rest[j - 1]);
        if rest[j - 1] == x {
          LessIsStrictWeakOrder(x, s[0], x);
        } else {
          HeadNotBefore(s, rest[j - 1]);
        }
      }
    }
  }

  lemma {:induction false} InsertMember(x: Show, s: seq<Show>, y: Show)
    requires y in Insert(x, s)
    ensures y == x || y in s
  {
    InsertPermutes(x, s);
    assert y in multiset(Insert(x, s));
  }

  lemma {:induction false} HeadNotBefore(s: seq<Show>, y: Show)
    requires IsNewestFirst(s) && s != [] && y in s[1..]
    ensures !Less(s[0], y)
  {
    var k :| 0 <= k < |s[1..]| && s[1..][k] == y;
    assert s[k + 1] == y;
  }

  lemma {:induction false} InsertOnDay(x: Show, s: seq<Show>, d: ParsedDate)
    ensures OnDay(Insert(x, s), d) == (if x.date == d then [x] else []) + OnDay(s, d)
  {
    if s == [] || !Less(x, s[0]) {
      OnDayCons(x, s, d);
    } else {
      LessIsChronological(x, s[0]);
      InsertOnDay(x, s[1..], d);
      OnDayCons(s[0], Insert(x, s[1..]), d);
      OnDayCons(s[0], s[1..], d);
      assert [s[0]] + s[1..] == s;
      assert x.date != s[0].date;
      assert Insert(x, s) == [s[0]] + Insert(x, s[1..]);
    }
  }

  lemma {:induction false} OnDayCons(y: Show, t: seq<Show>, d: ParsedDate)
    ensures OnDay([y] + t, d) == (if y.date == d then [y] else []) + OnDay(t, d)
  {
    assert ([y] + t)[1..] == t;
  }

  /** The sorted list holds exactly the input shows. */
  lemma {:induction false} SortPermutes(s: seq<Show>)
    ensures multiset(SortNewestFirst(s)) == multiset(s)
  {
    if s != [] {
      SortPermutes(s[1..]);
      InsertPermutes(s[0], SortNewestFirst(s[1..]));
      assert s == [s[0]] + s[1..];
    }
  }

  lemma {:induction false} SortKeepsLength(s: seq<Show>)
    ensures |SortNewestFirst(s)| == |s|
  {
    SortPermutes(s);
    assert |multiset(SortNewestFirst(s))| == |SortNewestFirst(s)| && |multiset(s)| == |s|;
  }

  /** The sorted list runs from newest to oldest. */
  lemma {:induction false} SortOrders(s: seq<Show>)
    ensures IsNewestFirst(SortNewestFirst(s))
  {
    if s != [] {
      SortOrders(s[1..]);
      InsertKeepsOrder(s[0], SortNewestFirst(s[1..]));
    }
  }

  /** The sort is stable: the shows of any one day come out in input order. */
  lemma {:induction false} SortIsStable(s: seq<Show>, d: ParsedDate)
    ensures OnDay(SortNewestFirst(s), d) == OnDay(s, d)
  {
    if s != [] {
      SortIsStable(s[1..], d);
      InsertOnDay(s[0], SortNewestFirst(s[1..]), d);
    }
  }

  /** Two shows: the second goes first only when the first is older. */
  lemma {:induction false} SortTwo(x: Show, y: Show)
    ensures SortNewestFirst([x, y]) == if Less(x, y) then [y, x] else [x, y]
  {
    assert [x, y][1..] == [y] && [y][1..] == [];
    assert SortNewestFirst([y]) == [y];
    assert SortNewestFirst([x, y]) == Insert(x, [y]);
  }

  /** How many shows the feed keeps. */
  const FeedSize: nat := 20

  /** shows[:n]. */
  function Newest(s: seq<Show>, n: nat): (r: seq<Show>)
    ensures |r| == if |s| < n then |s| else n
  {
    if |s| < n then s else s[..n]
  }

  /** The shows the feed renders: the first twenty of the sorted list, none
      older than any show left out, newest first, each one taken from the
      input. */
  lemma {:induction false} FeedKeepsNewest(s: seq<Show>)
    ensures var sorted := SortNewestFirst(s);
      var kept := Newest(sorted, FeedSize);
      && kept == sorted[..|kept|]
      && IsNewestFirst(kept)
      && multiset(kept) <= multiset(s)
      && forall i, j :: 0 <= i < |kept| <= j < |sorted| ==> !Less(kept[i], sorted[j])
  {
    var sorted := SortNewestFirst(s);
    var kept := Newest(sorted, FeedSize);
    SortOrders(s);
    SortPermutes(s);
    assert sorted == kept + sorted[|kept|..];
    assert multiset(sorted) == multiset(kept) + multiset(sorted[|kept|..]);
  }
}
