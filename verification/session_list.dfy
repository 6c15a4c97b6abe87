/**
 * The session list page (app/page.tsx): the chamber and date filters over the
 * loaded sessions, the "Clear filters" button, and the "N of M sessions"
 * footer.
 */
module SessionList {
  import opened Database
  import LexOrder
  import IsoDates

  /** The chamber selector: `"all" | "house" | "senate"`. */
  datatype ChamberFilter = AllChambers | OnlyChamber(chamber: Chamber)

  /** The filter bar; an empty date string means that bound is off. */
  datatype Filters = Filters(chamber: ChamberFilter, dateFrom: string, dateTo: string)

  /** The state the page starts in and the clear button returns to. */
  const NoFilters := Filters(AllChambers, "", "")

  /** The predicate passed to `sessions.filter`. */
  predicate Keeps(f: Filters, s: Session)
  {
    if f.chamber.OnlyChamber? && s.chamber != f.chamber.chamber then false
    else if f.dateFrom != "" && LexOrder.Less(s.sessionDate, f.dateFrom) then false
    else if f.dateTo != "" && LexOrder.Less(f.dateTo, s.sessionDate) then false
    else true
  }

  /** `sessions.filter(keeps)`. */
  function FilterSessions(ss: seq<Session>, f: Filters): (r: seq<Session>)
    ensures |r| <= |ss|
    ensures forall k :: 0 <= k < |r| ==> r[k] in ss && Keeps(f, r[k])
  {
    if |ss| == 0 then []
    else if Keeps(f, ss[0]) then [ss[0]] + FilterSessions(ss[1..], f)
    else FilterSessions(ss[1..], f)
  }

  /** `a` is `b` with some elements dropped and the rest in their order. */
  predicate IsSubsequence<T(==)>(a: seq<T>, b: seq<T>)
  {
    if |a| == 0 then true
    else if |b| == 0 then false
    else if a[0] == b[0] then IsSubsequence(a[1..], b[1..])
    else IsSubsequence(a, b[1..])
  }

  /** The filtered list keeps the loaded list's order. */
  lemma {:induction false} FilterIsSubsequence(ss: seq<Session>, f: Filters)
    ensures IsSubsequence(FilterSessions(ss, f), ss)
  {
    if |ss| > 0 {
      FilterIsSubsequence(ss[1..], f);
      var r := FilterSessions(ss[1..], f);
      if |r| > 0 {
        assert Keeps(f, r[0]);
      }
    }
  }

  /**
   * The filter keeps every copy of a kept session and no copy of any other:
   * the shown list is the loaded list's kept part, counted with repetitions.
   */
  lemma {:induction false} FilterMultiplicity(ss: seq<Session>, f: Filters)
    ensures forall s :: multiset(FilterSessions(ss, f))[s] ==
                        (if Keeps(f, s) then multiset(ss)[s] else 0)
  {
    if |ss| > 0 {
      FilterMultiplicity(ss[1..], f);
      assert ss == [ss[0]] + ss[1..];
      assert multiset(ss) == multiset{ss[0]} + multiset(ss[1..]);
    }
  }

  /** Every loaded session that meets all active conditions is shown. */
  lemma {:induction false} FilterComplete(ss: seq<Session>, f: Filters, s: Session)
    requires s in ss && Keeps(f, s)
    ensures s in FilterSessions(ss, f)
  {
    if ss[0] != s {
      FilterComplete(ss[1..], f, s);
    }
  }

  /** A session is shown exactly when it is loaded and passes the filter. */
  lemma FilterMembership(ss: seq<Session>, f: Filters, s: Session)
    ensures s in FilterSessions(ss, f) <==> s in ss && Keeps(f, s)
  {
    if s in ss && Keeps(f, s) {
      FilterComplete(ss, f, s);
    }
    var r := FilterSessions(ss, f);
    if s in r {
      var k :| 0 <= k < |r| && r[k] == s;
    }
  }

  /** Each active condition holds of every shown session. */
  lemma FilterSound(ss: seq<Session>, f: Filters, s: Session)
    requires s in FilterSessions(ss, f)
    ensures f.chamber.OnlyChamber? ==> s.chamber == f.chamber.chamber
    ensures f.dateFrom != "" ==> LexOrder.AtMost(f.dateFrom, s.sessionDate)
    ensures f.dateTo != "" ==> LexOrder.AtMost(s.sessionDate, f.dateTo)
  {
    FilterMembership(ss, f, s);
  }

  /** The filter excludes none of `ss`. */
  predicate AllKept(ss: seq<Session>, f: Filters)
  {
    forall k :: 0 <= k < |ss| ==> Keeps(f, ss[k])
  }

  lemma AllKeptCons(ss: seq<Session>, f: Filters)
    requires |ss| > 0
    ensures AllKept(ss, f) <==> Keeps(f, ss[0]) && AllKept(ss[1..], f)
  {
    var tail := ss[1..];
    assert forall k :: 0 < k < |ss| ==> ss[k] == tail[k - 1];
  }

  /** The filter returns its input exactly when it excludes nobody. */
  lemma {:induction false} FilterIdentityIff(ss: seq<Session>, f: Filters)
    ensures FilterSessions(ss, f) == ss <==> AllKept(ss, f)
  {
    if |ss| > 0 {
      var tail := ss[1..];
      FilterIdentityIff(tail, f);
      AllKeptCons(ss, f);
      var r := FilterSessions(tail, f);
      if Keeps(f, ss[0]) {
        assert FilterSessions(ss, f) == [ss[0]] + r;
        assert ss == [ss[0]] + tail;
        assert [ss[0]] + r == ss <==> r == tail;
      } else {
        assert |FilterSessions(ss, f)| <= |tail| < |ss|;
      }
    }
  }

  /** No chamber and no dates: the whole list, unchanged. */
  lemma NoFiltersKeepAll(ss: seq<Session>)
    ensures FilterSessions(ss, NoFilters) == ss
  {
    FilterIdentityIff(ss, NoFilters);
  }

  /** Date-descending: no session is earlier than one listed after it. */
  predicate DateDescending(ss: seq<Session>)
  {
    forall i, j :: 0 <= i < j < |ss| ==> LexOrder.AtMost(ss[j].sessionDate, ss[i].sessionDate)
  }

  /** The tail of a date-descending list is date-descending. */
  lemma DateDescendingTail(ss: seq<Session>)
    requires |ss| > 0 && DateDescending(ss)
    ensures DateDescending(ss[1..])
  {
    var tail := ss[1..];
    forall i, j | 0 <= i < j < |tail|
      ensures LexOrder.AtMost(tail[j].sessionDate, tail[i].sessionDate)
    {
      assert tail[i] == ss[i + 1] && tail[j] == ss[j + 1];
    }
  }

  /** A session no earlier than every one of a date-descending list can head it. */
  lemma DateDescendingCons(x: Session, r: seq<Session>)
    requires DateDescending(r)
    requires forall k :: 0 <= k < |r| ==> LexOrder.AtMost(r[k].sessionDate, x.sessionDate)
    ensures DateDescending([x] + r)
  {
    var out := [x] + r;
    forall i, j | 0 <= i < j < |out|
      ensures LexOrder.AtMost(out[j].sessionDate, out[i].sessionDate)
    {
      assert out[j] == r[j - 1];
      if i > 0 {
        assert out[i] == r[i - 1];
      }
    }
  }

  /** Filtering keeps the date-descending order the list is loaded in. */
  lemma {:induction false} FilterKeepsDateOrder(ss: seq<Session>, f: Filters)
    requires DateDescending(ss)
    ensures DateDescending(FilterSessions(ss, f))
  {
    if |ss| > 0 {
      var tail := ss[1..];
      DateDescendingTail(ss);
      FilterKeepsDateOrder(tail, f);
      if Keeps(f, ss[0]) {
        var r := FilterSessions(tail, f);
        forall k | 0 <= k < |r|
          ensures LexOrder.AtMost(r[k].sessionDate, ss[0].sessionDate)
        {
          var m :| 0 <= m < |tail| && tail[m] == r[k];
          assert ss[m + 1] == r[k];
        }
        DateDescendingCons(ss[0], r);
      }
    }
  }

  /**
   * On ISO dates, a non-empty "From" bound keeps exactly the sessions on or
   * after that calendar day, and a non-empty "To" bound those on or before it.
   */
  lemma DateBoundsAreCalendarBounds(f: Filters, s: Session)
    requires IsoDates.IsIsoDate(s.sessionDate)
    requires f.dateFrom != "" ==> IsoDates.IsIsoDate(f.dateFrom)
    requires f.dateTo != "" ==> IsoDates.IsIsoDate(f.dateTo)
    ensures Keeps(f, s) <==>
      && (f.chamber.OnlyChamber? ==> s.chamber == f.chamber.chamber)
      && (f.dateFrom != "" ==> !IsoDates.Before(s.sessionDate, f.dateFrom))
      && (f.dateTo != "" ==> !IsoDates.Before(f.dateTo, s.sessionDate))
  {
    if f.dateFrom != "" {
      IsoDates.StringOrderIsCalendarOrder(s.sessionDate, f.dateFrom);
    }
    if f.dateTo != "" {
      IsoDates.StringOrderIsCalendarOrder(f.dateTo, s.sessionDate);
    }
  }

  /**
   * The JavaScript `filter` loop: visit the sessions in order and append
   * each one the predicate keeps.
   */
  method ApplyFilter(ss: seq<Session>, f: Filters) returns (r: seq<Session>)
    ensures r == FilterSessions(ss, f)
  {
    r := [];
    var i := 0;
    while i < |ss|
      invariant 0 <= i <= |ss|
      invariant r + FilterSessions(ss[i..], f) == FilterSessions(ss, f)
    {
      assert ss[i..][1..] == ss[i + 1..];
      if Keeps(f, ss[i]) {
        r := r + [ss[i]];
      }
      i := i + 1;
    }
    assert ss[i..] == [];
  }

  /** `chamber !== "all" || dateFrom || dateTo`: some filter is active. */
  predicate ClearVisible(f: Filters)
    ensures ClearVisible(f) <==> f != NoFilters
  {
    f.chamber.OnlyChamber? || f.dateFrom != "" || f.dateTo != ""
  }

  /**
   * The button's click handler, whatever the filters were: chamber back to
   * all, both dates emptied.
   */
  function ClearFilters(): (r: Filters)
    ensures !ClearVisible(r)
    ensures forall ss :: FilterSessions(ss, r) == ss
  {
    assert forall ss :: FilterSessions(ss, NoFilters) == ss by {
      forall ss: seq<Session> ensures FilterSessions(ss, NoFilters) == ss {
        NoFiltersKeepAll(ss);
      }
    }
    NoFilters
  }

  /**
   * The button is shown exactly when the filters can hide some session: an
   * active chamber hides the other chamber, a "From" date hides the empty
   * date, and a "To" date hides that date with a character appended.
   */
  lemma ClearVisibleIffFilterActive(f: Filters)
    ensures ClearVisible(f) <==> exists s: Session :: !Keeps(f, s)
  {
    if ClearVisible(f) {
      var base := Session("", "", "", "", House, "", "", 0, true, false);
      if f.chamber.OnlyChamber? {
        var other := if f.chamber.chamber == House then Senate else House;
        assert !Keeps(f, base.(chamber := other));
      } else if f.dateFrom != "" {
        LexOrder.PrefixIsLess("", f.dateFrom);
        assert !Keeps(f, base);
      } else {
        var later := f.dateTo + "0";
        LexOrder.PrefixIsLess(f.dateTo, later);
        assert !Keeps(f, base.(sessionDate := later));
      }
    }
  }

  /** The "N of M sessions" footer: shown and loaded counts. */
  function SessionCounts(ss: seq<Session>, f: Filters): (c: (nat, nat))
    ensures c.0 == |FilterSessions(ss, f)| && c.1 == |ss|
    ensures c.0 <= c.1
    ensures c.0 == c.1 <==> AllKept(ss, f)
  {
    var r := FilterSessions(ss, f);
    FilterIdentityIff(ss, f);
    assert |r| == |ss| ==> r == ss by {
      if |r| == |ss| {
        FilterIsSubsequence(ss, f);
        SubsequenceOfSameLength(r, ss);
      }
    }
    (|r|, |ss|)
  }

  /** A subsequence as long as its source is the source itself. */
  lemma {:induction false} SubsequenceOfSameLength<T>(a: seq<T>, b: seq<T>)
    requires IsSubsequence(a, b) && |a| == |b|
    ensures a == b
  {
    if |a| > 0 {
      if a[0] == b[0] {
        SubsequenceOfSameLength(a[1..], b[1..]);
        assert a == [a[0]] + a[1..] && b == [b[0]] + b[1..];
      } else {
        SubsequenceNoLonger(a, b[1..]);
        assert false;
      }
    }
  }

  lemma {:induction false} SubsequenceNoLonger<T>(a: seq<T>, b: seq<T>)
    requires IsSubsequence(a, b)
    ensures |a| <= |b|
  {
    if |a| > 0 {
      if a[0] == b[0] {
        SubsequenceNoLonger(a[1..], b[1..]);
      } else {
        SubsequenceNoLonger(a, b[1..]);
      }
    }
  }
}
