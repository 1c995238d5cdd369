/** The ordering the page query puts on fetched summaries:
    keep the summaries that have a date, then order them by date, newest first.
    LINQ's `OrderByDescending` is a stable sort, modelled here as an insertion
    sort that places each summary before the first one that is not newer. */
module SummaryOrder {
  import opened Wrappers
  import opened MailModels

  predicate Dated(s: Summary) { s.date.Some? }

  predicate AllDated(t: seq<Summary>) { forall i :: 0 <= i < |t| ==> Dated(t[i]) }

  function DateOf(s: Summary): int
    requires Dated(s)
  {
    s.date.value
  }

  /** Newest first: no summary is older than one after it. */
  predicate SortedNewestFirst(t: seq<Summary>)
    requires AllDated(t)
  {
    forall i, j :: 0 <= i < j < |t| ==> DateOf(t[i]) >= DateOf(t[j])
  }

  /** The summaries of `t` whose date is `d`, in the order of `t`. */
  function WithDate(t: seq<Summary>, d: int): seq<Summary>
  {
    if t == [] then []
    else (if t[0].date == Some(d) then [t[0]] else []) + WithDate(t[1..], d)
  }

  /** The summaries that have a date, in fetch order. */
  function WhereDated(summaries: seq<Summary>): (r: seq<Summary>)
    ensures AllDated(r)
    ensures |r| <= |summaries|
    ensures forall s :: s in r <==> s in summaries && Dated(s)
  {
    if summaries == [] then []
    else (if Dated(summaries[0]) then [summaries[0]] else []) + WhereDated(summaries[1..])
  }

  /** No summary of `t` is newer than `d`. */
  predicate NotNewerThan(t: seq<Summary>, d: int)
    requires AllDated(t)
  {
    forall i :: 0 <= i < |t| ==> DateOf(t[i]) <= d
  }

  /** One insertion step: `x` goes before the first summary that is not newer than it. */
  function InsertByDate(x: Summary, t: seq<Summary>): (r: seq<Summary>)
    requires Dated(x) && AllDated(t)
    ensures AllDated(r)
    ensures multiset(r) == multiset(t) + multiset{x}
  {
    if t == [] || DateOf(x) >= DateOf(t[0]) then [x] + t
    else
      var r := [t[0]] + InsertByDate(x, t[1..]);
      assert t == [t[0]] + t[1..];
      r
  }

  lemma {:induction false} InsertNotNewer(x: Summary, t: seq<Summary>, d: int)
    requires Dated(x) && AllDated(t)
    requires NotNewerThan(t, d) && DateOf(x) <= d
    ensures NotNewerThan(InsertByDate(x, t), d)
  {
    if t != [] && DateOf(x) < DateOf(t[0]) {
      InsertNotNewer(x, t[1..], d);
    }
  }

  /** Inserting into a newest-first list keeps it newest first. */
  lemma {:induction false} InsertSorted(x: Summary, t: seq<Summary>)
    requires Dated(x) && AllDated(t) && SortedNewestFirst(t)
    ensures SortedNewestFirst(InsertByDate(x, t))
  {
    var r := InsertByDate(x, t);
    if t == [] || DateOf(x) >= DateOf(t[0]) {
      forall i, j | 0 <= i < j < |r| ensures DateOf(r[i]) >= DateOf(r[j]) {
        assert r[j] == t[j - 1];
        if i > 0 { assert r[i] == t[i - 1]; }
        else if j > 1 { assert DateOf(t[0]) >= DateOf(t[j - 1]); }
      }
    } else {
      var rest := InsertByDate(x, t[1..]);
      InsertSorted(x, t[1..]);
      assert NotNewerThan(t[1..], DateOf(t[0])) by {
        forall i | 0 <= i < |t[1..]| ensures DateOf(t[1..][i]) <= DateOf(t[0]) {
          assert t[1..][i] == t[i + 1];
        }
      }
      InsertNotNewer(x, t[1..], DateOf(t[0]));
      assert r == [t[0]] + rest;
      forall i, j | 0 <= i < j < |r| ensures DateOf(r[i]) >= DateOf(r[j]) {
        assert r[j] == rest[j - 1];
        if i > 0 { assert r[i] == rest[i - 1]; }
      }
    }
  }

  /** The descending sort by date of dated summaries. */
  function OrderByDateDescending(t: seq<Summary>): (r: seq<Summary>)
    requires AllDated(t)
    ensures AllDated(r)
    ensures multiset(r) == multiset(t)
    ensures SortedNewestFirst(r)
  {
    if t == [] then []
    else
      var sortedTail := OrderByDateDescending(t[1..]);
      InsertSorted(t[0], sortedTail);
      assert t == [t[0]] + t[1..];
      InsertByDate(t[0], sortedTail)
  }

  /** The sorted list the page query indexes into. */
  function SortedByDate(summaries: seq<Summary>): seq<Summary>
  {
    OrderByDateDescending(WhereDated(summaries))
  }

  /** Inserting `x` adds it in front of the summaries with its date and leaves the
      others with a date in place. */
  lemma {:induction false} InsertKeepsDateOrder(x: Summary, t: seq<Summary>, d: int)
    requires Dated(x) && AllDated(t)
    ensures WithDate(InsertByDate(x, t), d) == (if x.date == Some(d) then [x] else []) + WithDate(t, d)
  {
    if t == [] || DateOf(x) >= DateOf(t[0]) {
      assert InsertByDate(x, t)[1..] == t;
    } else {
      var r := InsertByDate(x, t);
      var rest := InsertByDate(x, t[1..]);
      var h0 := if t[0].date == Some(d) then [t[0]] else [];
      var hx := if x.date == Some(d) then [x] else [];
      assert r == [t[0]] + rest;
      assert r[0] == t[0] && r[1..] == rest;
      assert WithDate(r, d) == h0 + WithDate(rest, d);
      InsertKeepsDateOrder(x, t[1..], d);
      var w1 := WithDate(t[1..], d);
      assert WithDate(t, d) == h0 + w1;
      if hx == [] {
        assert hx + w1 == w1;
      } else {
        // x is strictly older than t[0], so t[0] does not have date d
        assert h0 == [];
        assert h0 + (hx + w1) == hx + w1;
        assert h0 + w1 == w1;
      }
    }
  }

  lemma {:induction false} SortKeepsDateOrder(t: seq<Summary>, d: int)
    requires AllDated(t)
    ensures WithDate(OrderByDateDescending(t), d) == WithDate(t, d)
  {
    if t != [] {
      SortKeepsDateOrder(t[1..], d);
      InsertKeepsDateOrder(t[0], OrderByDateDescending(t[1..]), d);
    }
  }

  lemma {:induction false} WithDateConcat(a: seq<Summary>, b: seq<Summary>, d: int)
    ensures WithDate(a + b, d) == WithDate(a, d) + WithDate(b, d)
  {
    if a == [] {
      assert a + b == b;
    } else {
      assert (a + b)[0] == a[0];
      assert (a + b)[1..] == a[1..] + b;
      WithDateConcat(a[1..], b, d);
    }
  }

  lemma {:induction false} WhereKeepsDateOrder(t: seq<Summary>, d: int)
    ensures WithDate(WhereDated(t), d) == WithDate(t, d)
  {
    if t != [] {
      WhereKeepsDateOrder(t[1..], d);
      var head := if Dated(t[0]) then [t[0]] else [];
      assert WhereDated(t) == head + WhereDated(t[1..]);
      WithDateConcat(head, WhereDated(t[1..]), d);
      assert WithDate(head, d) == WithDate([t[0]], d);
      assert t == [t[0]] + t[1..];
      WithDateConcat([t[0]], t[1..], d);
    }
  }

  /** The sorted list holds exactly the dated summaries, newest first, and
      summaries with equal dates keep the order in which they were fetched. */
  lemma SortedByDateSpec(summaries: seq<Summary>)
    ensures AllDated(SortedByDate(summaries))
    ensures SortedNewestFirst(SortedByDate(summaries))
    ensures multiset(SortedByDate(summaries)) == multiset(WhereDated(summaries))
    ensures forall s :: s in SortedByDate(summaries) <==> s in summaries && Dated(s)
    ensures forall d :: WithDate(SortedByDate(summaries), d) == WithDate(summaries, d)
  {
    var r := SortedByDate(summaries);
    forall s ensures s in r <==> s in WhereDated(summaries) {
      assert s in r <==> s in multiset(r);
    }
    forall d ensures WithDate(r, d) == WithDate(summaries, d) {
      SortKeepsDateOrder(WhereDated(summaries), d);
      WhereKeepsDateOrder(summaries, d);
    }
  }
}
