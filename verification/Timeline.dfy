/** The binary searches of utils/grid.py over sorted, disjoint ranges and over events, and the slices
    that `get_ranges` and `get_events` cut out between two hits. */
module Timeline {

  datatype Range = Range(start: real, end: real)

  datatype Event = Event(at: real, value: int)

  predicate Contains(r: Range, key: real) {
    r.start <= key <= r.end
  }

  ghost predicate SortedDisjoint(rs: seq<Range>) {
    && (forall i :: 0 <= i < |rs| ==> rs[i].start <= rs[i].end)
    && (forall i, j :: 0 <= i < j < |rs| ==> rs[i].end < rs[j].start)
  }

  /** `i` is where `key` lies, or -1 if it lies in no range. */
  ghost predicate Located(rs: seq<Range>, key: real, i: int) {
    if i == -1 then forall k :: 0 <= k < |rs| ==> !Contains(rs[k], key)
    else 0 <= i < |rs| && Contains(rs[i], key)
  }

  method Search(rs: seq<Range>, key: real) returns (r: int)
    requires SortedDisjoint(rs)
    ensures Located(rs, key, r)
  {
    var l, u := 0, |rs| - 1;
    while l <= u
      invariant 0 <= l <= u + 1 <= |rs|
      invariant forall k :: 0 <= k < l ==> rs[k].end < key
      invariant forall k :: u < k < |rs| ==> key < rs[k].start
      decreases u - l + 1
    {
      var i := (l + u) / 2;
      if key >= rs[i].start && key <= rs[i].end {
        return i;
      } else if key < rs[i].start {
        u := i - 1;
      } else {
        l := i + 1;
      }
    }
    return -1;
  }

  /** What `get_ranges` cuts out for the two search results. */
  function Cut(rs: seq<Range>, s: int, e: int): seq<Range>
    requires -1 <= s < |rs| && -1 <= e < |rs|
  {
    if s == -1 && e == -1 then []
    else if s == -1 then rs[0..e + 1]
    else if e == -1 then rs[s..|rs|]
    else if s <= e + 1 then rs[s..e + 1]
    else []
  }

  method GetRanges(rs: seq<Range>, start: real, end: real) returns (r: seq<Range>)
    requires SortedDisjoint(rs)
    ensures exists s, e :: Located(rs, start, s) && Located(rs, end, e) && r == Cut(rs, s, e)
                           && (start <= end ==> (r == MeetingRanges(rs, start, end) <==> CutIsExact(rs, start, end, s, e)))
  {
    var s := Search(rs, start);
    var e := Search(rs, end);
    r := Cut(rs, s, e);
    if start <= end { CutIffExact(rs, start, end, s, e); }
  }

  // ---------------------------------------------------------------- against the linear filter

  predicate Meets(r: Range, start: real, end: real) {
    r.start <= end && start <= r.end
  }

  ghost function MeetingRanges(rs: seq<Range>, start: real, end: real): seq<Range> {
    if rs == [] then []
    else (if Meets(rs[0], start, end) then [rs[0]] else []) + MeetingRanges(rs[1..], start, end)
  }

  function Before(n: nat): nat {
    if n == 0 then 0 else n - 1
  }

  lemma SliceFromFirst<T>(s: seq<T>, lo: nat, hi: nat)
    requires lo <= hi <= |s| && s != []
    ensures s[lo..hi] == (if lo == 0 && hi > 0 then [s[0]] else []) + s[1..][Before(lo)..Before(hi)]
  {
  }

  /** If exactly the positions from `lo` to `hi` meet the window, the filter is that slice. */
  lemma {:induction false} FilterIsSlice(rs: seq<Range>, start: real, end: real, lo: nat, hi: nat)
    requires lo <= hi <= |rs| && forall k :: 0 <= k < |rs| ==> (Meets(rs[k], start, end) <==> lo <= k < hi)
    ensures MeetingRanges(rs, start, end) == rs[lo..hi]
  {
    if rs != [] {
      var rest := rs[1..];
      assert forall k :: 0 <= k < |rest| ==> rest[k] == rs[k + 1];
      FilterIsSlice(rest, start, end, Before(lo), Before(hi));
      SliceFromFirst(rs, lo, hi);
    }
  }

  lemma {:induction false} FilterMembers(rs: seq<Range>, start: real, end: real, r: Range)
    ensures r in MeetingRanges(rs, start, end) <==> r in rs && Meets(r, start, end)
  {
    if rs != [] {
      FilterMembers(rs[1..], start, end, r);
      assert rs == [rs[0]] + rs[1..];
    }
  }

  /** How many ranges end before `key`; for a key in a gap, which gap it is. */
  function EndsBefore(rs: seq<Range>, key: real): nat {
    if rs == [] then 0 else (if rs[0].end < key then 1 else 0) + EndsBefore(rs[1..], key)
  }

  /** The cut equals the filter exactly when no hit is missing on a side where something would be cut off. */
  predicate CutIsExact(rs: seq<Range>, start: real, end: real, s: int, e: int)
    requires -1 <= s < |rs| && -1 <= e < |rs|
  {
    if s == -1 && e == -1 then EndsBefore(rs, start) == EndsBefore(rs, end)
    else if s == -1 then start <= rs[0].end
    else if e == -1 then rs[|rs| - 1].start <= end
    else true
  }

  /** Two keys in gaps lie in the same gap exactly when no range is between them. */
  lemma {:induction false} SameGap(rs: seq<Range>, start: real, end: real)
    requires start <= end
    requires forall k :: 0 <= k < |rs| ==> !Contains(rs[k], start) && !Contains(rs[k], end) && rs[k].start <= rs[k].end
    ensures EndsBefore(rs, start) <= EndsBefore(rs, end)
    ensures EndsBefore(rs, start) == EndsBefore(rs, end) <==> MeetingRanges(rs, start, end) == []
  {
    if rs != [] {
      assert forall k :: 0 <= k < |rs[1..]| ==> rs[1..][k] == rs[k + 1];
      SameGap(rs[1..], start, end);
      assert !Contains(rs[0], start) && !Contains(rs[0], end);
    }
  }

  lemma OnlyEndHits(rs: seq<Range>, start: real, end: real, e: nat)
    requires SortedDisjoint(rs) && start <= end && Located(rs, start, -1) && Located(rs, end, e)
    ensures rs[0..e + 1] == MeetingRanges(rs, start, end) <==> start <= rs[0].end
  {
    if start <= rs[0].end {
      FilterIsSlice(rs, start, end, 0, e + 1);
    } else {
      FilterMembers(rs, start, end, rs[0]);
      assert rs[0..e + 1][0] == rs[0];
    }
  }

  lemma OnlyStartHits(rs: seq<Range>, start: real, end: real, s: nat)
    requires SortedDisjoint(rs) && start <= end && Located(rs, start, s) && Located(rs, end, -1)
    ensures rs[s..|rs|] == MeetingRanges(rs, start, end) <==> rs[|rs| - 1].start <= end
  {
    var last := |rs| - 1;
    if rs[last].start <= end {
      FilterIsSlice(rs, start, end, s, |rs|);
    } else {
      FilterMembers(rs, start, end, rs[last]);
      assert rs[s..|rs|][last - s] == rs[last];
    }
  }

  /** With both ends in ranges the cut is the filter; with one, it is when nothing lies beyond the other end;
      with none, it is when both ends lie in the same gap. */
  lemma CutIffExact(rs: seq<Range>, start: real, end: real, s: int, e: int)
    requires SortedDisjoint(rs) && start <= end && Located(rs, start, s) && Located(rs, end, e)
    ensures Cut(rs, s, e) == MeetingRanges(rs, start, end) <==> CutIsExact(rs, start, end, s, e)
  {
    if s == -1 && e == -1 {
      SameGap(rs, start, end);
    } else if s == -1 {
      OnlyEndHits(rs, start, end, e);
    } else if e == -1 {
      OnlyStartHits(rs, start, end, s);
    } else {
      FilterIsSlice(rs, start, end, s, e + 1);
    }
  }

  /** No range that meets the window is lost, exactly when one end hits or both lie in the same gap. */
  lemma NothingLostIff(rs: seq<Range>, start: real, end: real, s: int, e: int)
    requires SortedDisjoint(rs) && start <= end && Located(rs, start, s) && Located(rs, end, e)
    ensures (forall r :: r in MeetingRanges(rs, start, end) ==> r in Cut(rs, s, e))
       <==> s != -1 || e != -1 || EndsBefore(rs, start) == EndsBefore(rs, end)
  {
    if s == -1 && e == -1 {
      SameGap(rs, start, end);
      assert MeetingRanges(rs, start, end) != [] ==> MeetingRanges(rs, start, end)[0] in MeetingRanges(rs, start, end);
    } else {
      forall r | r in MeetingRanges(rs, start, end) ensures r in Cut(rs, s, e) {
        FilterMembers(rs, start, end, r);
        MeetingIsKept(rs, start, end, s, e, r);
      }
    }
  }

  lemma MeetingIsKept(rs: seq<Range>, start: real, end: real, s: int, e: int, r: Range)
    requires SortedDisjoint(rs) && start <= end && Located(rs, start, s) && Located(rs, end, e)
    requires (s != -1 || e != -1) && r in rs && Meets(r, start, end)
    ensures r in Cut(rs, s, e)
  {
    var k :| 0 <= k < |rs| && rs[k] == r;
    assert s != -1 ==> s <= k;
    assert e != -1 ==> k <= e;
    var lo, hi := if s == -1 then 0 else s, if e == -1 then |rs| else e + 1;
    assert Cut(rs, s, e) == rs[lo..hi];
    assert rs[lo..hi][k - lo] == r;
  }

  /** A window that strictly encloses a range comes back empty. */
  lemma EnclosedRangeIsLost(r: Range, start: real, end: real)
    requires start < r.start <= r.end < end
    ensures Located([r], start, -1) && Located([r], end, -1)
    ensures Cut([r], -1, -1) == [] && MeetingRanges([r], start, end) == [r]
  {
    FilterIsSlice([r], start, end, 0, 1);
  }

  // ---------------------------------------------------------------- events

  ghost predicate Increasing(es: seq<Event>) {
    forall i, j :: 0 <= i < j < |es| ==> es[i].at < es[j].at
  }

  /** `i` events lie before `key`, the others at or after it. */
  ghost predicate FirstNotBefore(es: seq<Event>, key: real, i: int) {
    && 0 <= i <= |es|
    && (forall k :: 0 <= k < i ==> es[k].at < key)
    && (forall k :: i <= k < |es| ==> es[k].at >= key)
  }

  method SearchEvent(es: seq<Event>, key: real) returns (r: int)
    requires Increasing(es)
    ensures FirstNotBefore(es, key, r)
  {
    var l, u := 0, |es| - 1;
    while l <= u
      invariant 0 <= l <= u + 1 <= |es|
      invariant forall k :: 0 <= k < l ==> es[k].at < key
      invariant forall k :: u < k < |es| ==> key < es[k].at
      decreases u - l + 1
    {
      var i := (l + u) / 2;
      if key == es[i].at {
        return i;
      } else if key < es[i].at {
        u := i - 1;
      } else {
        l := i + 1;
      }
    }
    return l;
  }

  ghost function Window(es: seq<Event>, start: real, end: real): seq<Event> {
    if es == [] then []
    else (if InWindow(es[0], start, end) then [es[0]] else []) + Window(es[1..], start, end)
  }

  predicate InWindow(e: Event, start: real, end: real) {
    start <= e.at <= end
  }

  lemma {:induction false} WindowIsSlice(es: seq<Event>, start: real, end: real, lo: nat, hi: nat)
    requires lo <= hi <= |es| && forall k :: 0 <= k < |es| ==> (InWindow(es[k], start, end) <==> lo <= k < hi)
    ensures Window(es, start, end) == es[lo..hi]
  {
    if es != [] {
      var rest := es[1..];
      assert forall k :: 0 <= k < |rest| ==> rest[k] == es[k + 1];
      WindowIsSlice(rest, start, end, Before(lo), Before(hi));
      SliceFromFirst(es, lo, hi);
    }
  }

  /** The earliest event after `end`. */
  ghost predicate FirstAfter(es: seq<Event>, end: real, e: Event) {
    e in es && e.at > end && forall f :: f in es && f.at > end ==> e.at <= f.at
  }

  /** The events of the window, in order, and the first later event unless one sits exactly at the end. */
  method GetEvents(es: seq<Event>, start: real, end: real) returns (r: seq<Event>)
    requires Increasing(es) && start <= end
    ensures Window(es, start, end) <= r && |r| <= |Window(es, start, end)| + 1
    ensures forall k :: |Window(es, start, end)| <= k < |r| ==> FirstAfter(es, end, r[k])
    ensures r == Window(es, start, end)
       <==> (forall k :: 0 <= k < |es| ==> es[k].at <= end) || (exists k :: 0 <= k < |es| && es[k].at == end)
  {
    var s := SearchEvent(es, start);
    var e := SearchEvent(es, end);
    assert e == |es| || es[e].at >= end;
    r := es[s..if e + 1 <= |es| then e + 1 else |es|];
    if e < |es| && es[e].at == end {
      WindowIsSlice(es, start, end, s, e + 1);
    } else {
      WindowIsSlice(es, start, end, s, e);
    }
  }
}
