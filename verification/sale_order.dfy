/** The processing order of one fetched batch: `_.sortBy(events, e =>
    new Date(e.created_date))`. lodash's `sortBy` is stable, so the order is
    fully determined: ascending creation instant, and events created at the
    same instant stay in the order the feed returned them. */
module SaleOrder {
  import opened SaleEvent

  function Key(e: RawEvent): int { e.createdMillis }

  predicate SortedByCreated(s: seq<RawEvent>) {
    forall i, j :: 0 <= i < j < |s| ==> Key(s[i]) <= Key(s[j])
  }

  /** The events of `s` created at instant `k`, in the order of `s`. */
  function CreatedAt(s: seq<RawEvent>, k: int): (r: seq<RawEvent>)
    ensures |r| <= |s|
  {
    if s == [] then []
    else if Key(s[0]) == k then [s[0]] + CreatedAt(s[1..], k)
    else CreatedAt(s[1..], k)
  }

  /** A stable sort of `s`: sorted by creation instant, and for every instant
      the events created then appear in the same relative order as in `s`. */
  ghost predicate IsStableSortOf(r: seq<RawEvent>, s: seq<RawEvent>) {
    && SortedByCreated(r)
    && forall k :: CreatedAt(r, k) == CreatedAt(s, k)
  }

  /** Places `e` in front of the first event of `t` created no earlier than it. */
  function Insert(e: RawEvent, t: seq<RawEvent>): (r: seq<RawEvent>)
    ensures |r| == |t| + 1
    ensures multiset(r) == multiset{e} + multiset(t)
    decreases |t|
  {
    if t == [] || Key(e) <= Key(t[0]) then [e] + t
    else
      assert t == [t[0]] + t[1..];
      [t[0]] + Insert(e, t[1..])
  }

  lemma {:induction false} InsertSorted(e: RawEvent, t: seq<RawEvent>)
    requires SortedByCreated(t)
    ensures SortedByCreated(Insert(e, t))
    ensures Insert(e, t) != [] && (Key(Insert(e, t)[0]) == Key(e) || (t != [] && Key(Insert(e, t)[0]) == Key(t[0])))
    decreases |t|
  {
    if t == [] || Key(e) <= Key(t[0]) {
    } else {
      InsertSorted(e, t[1..]);
      var r := Insert(e, t);
      assert r == [t[0]] + Insert(e, t[1..]);
      forall i, j | 0 <= i < j < |r|
        ensures Key(r[i]) <= Key(r[j])
      {
        if i == 0 {
          var tail := Insert(e, t[1..]);
          assert r[j] == tail[j - 1];
          assert Key(tail[0]) >= Key(t[0]) by {
            if Key(tail[0]) == Key(e) {
            } else {
              assert Key(tail[0]) == Key(t[1]);
            }
          }
          assert Key(tail[0]) <= Key(tail[j - 1]);
        }
      }
    }
  }

  /** Inserting `e` only moves it past events created strictly earlier, so no
      event created at `e`'s instant is overtaken. */
  lemma {:induction false} InsertCreatedAt(e: RawEvent, t: seq<RawEvent>, k: int)
    ensures CreatedAt(Insert(e, t), k) == if Key(e) == k then [e] + CreatedAt(t, k) else CreatedAt(t, k)
    decreases |t|
  {
    if t == [] || Key(e) <= Key(t[0]) {
      assert ([e] + t)[1..] == t;
    } else {
      InsertCreatedAt(e, t[1..], k);
      assert ([t[0]] + Insert(e, t[1..]))[1..] == Insert(e, t[1..]);
    }
  }

  /** `_.sortBy` on the creation instant, as a stable insertion sort. */
  function SortByCreated(s: seq<RawEvent>): (r: seq<RawEvent>)
    ensures |r| == |s|
    ensures multiset(r) == multiset(s)
    decreases |s|
  {
    if s == [] then []
    else
      assert s == [s[0]] + s[1..];
      Insert(s[0], SortByCreated(s[1..]))
  }

  /** The processing order is a stable sort, hence a permutation, of the batch. */
  lemma {:induction false} SortByCreatedIsStable(s: seq<RawEvent>)
    ensures IsStableSortOf(SortByCreated(s), s)
    ensures multiset(SortByCreated(s)) == multiset(s)
    decreases |s|
  {
    if s != [] {
      SortByCreatedIsStable(s[1..]);
      var t := SortByCreated(s[1..]);
      InsertSorted(s[0], t);
      forall k
        ensures CreatedAt(SortByCreated(s), k) == CreatedAt(s, k)
      {
        InsertCreatedAt(s[0], t, k);
      }
    }
  }

  /** The processing order is sorted by creation instant. */
  lemma SortByCreatedIsSorted(s: seq<RawEvent>)
    ensures SortedByCreated(SortByCreated(s))
  {
    SortByCreatedIsStable(s);
  }

  /** The last event processed is an event of the batch created no earlier
      than any other. */
  lemma SortedLastIsLatest(s: seq<RawEvent>)
    requires s != []
    ensures var r := SortByCreated(s);
            && r[|r| - 1] in s
            && forall i :: 0 <= i < |s| ==> Key(s[i]) <= Key(r[|r| - 1])
  {
    var r := SortByCreated(s);
    SortByCreatedIsSorted(s);
    assert r[|r| - 1] in multiset(s) by { assert r[|r| - 1] in multiset(r); }
    forall i | 0 <= i < |s|
      ensures Key(s[i]) <= Key(r[|r| - 1])
    {
      assert s[i] in multiset(r) by { assert s[i] in multiset(s); }
      var j :| 0 <= j < |r| && r[j] == s[i];
    }
  }

  /** The first event of a sorted sequence is created no later than any other. */
  lemma SortedHeadIsEarliest(s: seq<RawEvent>, i: int)
    requires SortedByCreated(s) && 0 <= i < |s|
    ensures Key(s[0]) <= Key(s[i])
  {
  }

  /** An event is in `s` exactly when it is among the events of `s` created
      at its own instant. */
  lemma {:induction false} CreatedAtMembership(s: seq<RawEvent>, e: RawEvent)
    ensures e in s <==> e in CreatedAt(s, Key(e))
    decreases |s|
  {
    if s != [] {
      CreatedAtMembership(s[1..], e);
      assert s == [s[0]] + s[1..];
    }
  }

  lemma HeadHasInstant(s: seq<RawEvent>)
    ensures s != [] ==> CreatedAt(s, Key(s[0])) != []
  {
  }

  /** Two sorted sequences that agree on the events of every instant are
      equal: the stable-sort condition leaves no freedom. */
  lemma {:induction false} StableSortUnique(a: seq<RawEvent>, b: seq<RawEvent>)
    requires SortedByCreated(a) && SortedByCreated(b)
    requires forall k :: CreatedAt(a, k) == CreatedAt(b, k)
    ensures a == b
    decreases |a|
  {
    if a == [] || b == [] {
      // The head of a non-empty side would be missing from the other side.
      HeadHasInstant(a);
      HeadHasInstant(b);
    } else {
      var ka, kb := Key(a[0]), Key(b[0]);
      assert CreatedAt(a, ka) == [a[0]] + CreatedAt(a[1..], ka);
      assert CreatedAt(b, kb) == [b[0]] + CreatedAt(b[1..], kb);
      // a[0] occurs in b, so b's head is no later than it, and vice versa.
      assert a[0] in CreatedAt(b, ka);
      CreatedAtMembership(b, a[0]);
      var i :| 0 <= i < |b| && b[i] == a[0];
      SortedHeadIsEarliest(b, i);
      assert b[0] in CreatedAt(a, kb);
      CreatedAtMembership(a, b[0]);
      var j :| 0 <= j < |a| && a[j] == b[0];
      SortedHeadIsEarliest(a, j);
      assert ka == kb;
      assert a[0] == b[0] by {
        assert CreatedAt(a, ka)[0] == a[0];
        assert CreatedAt(b, kb)[0] == b[0];
      }
      forall k
        ensures CreatedAt(a[1..], k) == CreatedAt(b[1..], k)
      {
        if k == ka {
          assert [a[0]] + CreatedAt(a[1..], k) == [b[0]] + CreatedAt(b[1..], k);
          assert CreatedAt(a[1..], k) == ([a[0]] + CreatedAt(a[1..], k))[1..];
          assert CreatedAt(b[1..], k) == ([b[0]] + CreatedAt(b[1..], k))[1..];
        } else {
          assert CreatedAt(a, k) == CreatedAt(a[1..], k);
          assert CreatedAt(b, k) == CreatedAt(b[1..], k);
        }
      }
      StableSortUnique(a[1..], b[1..]);
      assert a == [a[0]] + a[1..];
      assert b == [b[0]] + b[1..];
    }
  }

  /** Any stable sort of the batch is exactly the processing order. */
  lemma ProcessingOrderIsTheStableSort(s: seq<RawEvent>, r: seq<RawEvent>)
    requires IsStableSortOf(r, s)
    ensures r == SortByCreated(s)
  {
    SortByCreatedIsStable(s);
    StableSortUnique(r, SortByCreated(s));
  }
}
