// Ordering punches by time: the pages call
//   records.sort((a, b) => time(a) - time(b))
// which sorts the array in place with a stable sort. SortByTime is that sort
// as a function (a stable insertion sort); SortRecords performs it on an array.

module RecordOrder {
  import opened Model

  predicate SortedByTime(s: seq<TimeRecord>) {
    forall i, j :: 0 <= i < j < |s| ==> s[i].timestamp <= s[j].timestamp
  }

  predicate AllAtMost(s: seq<TimeRecord>, bound: int) {
    forall i :: 0 <= i < |s| ==> s[i].timestamp <= bound
  }

  lemma AllAtMostPermuted(a: seq<TimeRecord>, b: seq<TimeRecord>, bound: int)
    requires multiset(a) == multiset(b) && AllAtMost(b, bound)
    ensures AllAtMost(a, bound)
  {
    forall i | 0 <= i < |a|
      ensures a[i].timestamp <= bound
    {
      assert a[i] in multiset(b);
      var j :| 0 <= j < |b| && b[j] == a[i];
    }
  }

  /** Inserts x into s after every element whose time is not later than x's. */
  function InsertByTime(s: seq<TimeRecord>, x: TimeRecord): (r: seq<TimeRecord>)
    ensures |r| == |s| + 1
    decreases |s|
  {
    if s == [] || s[|s| - 1].timestamp <= x.timestamp then
      s + [x]
    else
      InsertByTime(s[..|s| - 1], x) + [s[|s| - 1]]
  }

  /** Insertion adds exactly x to the records. */
  lemma {:induction false} InsertByTimePermutes(s: seq<TimeRecord>, x: TimeRecord)
    ensures multiset(InsertByTime(s, x)) == multiset(s) + multiset{x}
    decreases |s|
  {
    if !(s == [] || s[|s| - 1].timestamp <= x.timestamp) {
      var init, last := s[..|s| - 1], s[|s| - 1];
      assert s == init + [last];
      InsertByTimePermutes(init, x);
    }
  }

  /** Insertion into a sorted list keeps it sorted. */
  lemma {:induction false} InsertByTimeSorted(s: seq<TimeRecord>, x: TimeRecord)
    requires SortedByTime(s)
    ensures SortedByTime(InsertByTime(s, x))
    decreases |s|
  {
    if !(s == [] || s[|s| - 1].timestamp <= x.timestamp) {
      var init, last := s[..|s| - 1], s[|s| - 1];
      assert s == init + [last];
      var ins := InsertByTime(init, x);
      InsertByTimeSorted(init, x);
      InsertByTimePermutes(init, x);
      assert AllAtMost(init + [x], last.timestamp);
      AllAtMostPermuted(ins, init + [x], last.timestamp);
    }
  }

  /** The stable ascending sort by timestamp. */
  function SortByTime(s: seq<TimeRecord>): (r: seq<TimeRecord>)
    ensures |r| == |s|
    decreases |s|
  {
    if s == [] then [] else InsertByTime(SortByTime(s[..|s| - 1]), s[|s| - 1])
  }

  /** Sorting keeps exactly the records it is given. */
  lemma {:induction false} SortByTimePermutes(s: seq<TimeRecord>)
    ensures multiset(SortByTime(s)) == multiset(s)
    decreases |s|
  {
    if s != [] {
      var init, last := s[..|s| - 1], s[|s| - 1];
      assert s == init + [last];
      SortByTimePermutes(init);
      InsertByTimePermutes(SortByTime(init), last);
    }
  }

  /** Sorting yields ascending timestamps. */
  lemma {:induction false} SortByTimeSorted(s: seq<TimeRecord>)
    ensures SortedByTime(SortByTime(s))
    decreases |s|
  {
    if s != [] {
      var init := s[..|s| - 1];
      SortByTimeSorted(init);
      InsertByTimeSorted(SortByTime(init), s[|s| - 1]);
    }
  }

  /** Sorting moves no punch past a bound that every punch respects. */
  lemma SortKeepsBound(s: seq<TimeRecord>, bound: int)
    ensures AllAtMost(s, bound) ==> AllAtMost(SortByTime(s), bound)
  {
    if AllAtMost(s, bound) {
      SortByTimePermutes(s);
      AllAtMostPermuted(SortByTime(s), s, bound);
    }
  }

  /** Sorting an already sorted list changes nothing. */
  lemma {:induction false} SortSortedIsIdentity(s: seq<TimeRecord>)
    requires SortedByTime(s)
    ensures SortByTime(s) == s
    decreases |s|
  {
    if s != [] {
      var init, last := s[..|s| - 1], s[|s| - 1];
      assert SortedByTime(init);
      SortSortedIsIdentity(init);
      assert SortByTime(s) == InsertByTime(SortByTime(init), last);
      assert init == [] || init[|init| - 1].timestamp <= last.timestamp;
      assert InsertByTime(init, last) == init + [last];
      assert s == init + [last];
    }
  }

  lemma SortedTail(s: seq<TimeRecord>)
    requires SortedByTime(s) && s != []
    ensures SortedByTime(s[1..])
  {
    forall i, j | 0 <= i < j < |s| - 1
      ensures s[1..][i].timestamp <= s[1..][j].timestamp
    {
      assert s[1..][i] == s[i + 1] && s[1..][j] == s[j + 1];
    }
  }

  /** Records whose timestamps coincide are the same record. */
  predicate TimesIdentify(m: multiset<TimeRecord>) {
    forall a, b :: a in m && b in m && a.timestamp == b.timestamp ==> a == b
  }

  lemma TimesIdentifySub(m: multiset<TimeRecord>, n: multiset<TimeRecord>)
    requires n <= m && TimesIdentify(m)
    ensures TimesIdentify(n)
  {
    forall a, b | a in n && b in n && a.timestamp == b.timestamp
      ensures a == b
    {
      assert a in m && b in m;
    }
  }

  /** Removing equal first elements from two lists with the same records
      leaves lists with the same records. */
  lemma MultisetTails(x: seq<TimeRecord>, y: seq<TimeRecord>)
    requires multiset(x) == multiset(y)
    requires x != [] && y != [] && x[0] == y[0]
    ensures multiset(x[1..]) == multiset(y[1..]) && multiset(x[1..]) <= multiset(x)
  {
    var x', y' := x[1..], y[1..];
    assert x == [x[0]] + x';
    assert y == [y[0]] + y';
    assert multiset(x) == multiset{x[0]} + multiset(x');
    assert multiset(y) == multiset{y[0]} + multiset(y');
    assert multiset(x') == multiset(x) - multiset{x[0]};
  }

  /** The first elements of two sorted lists with the same records agree. */
  lemma SortedSameHead(x: seq<TimeRecord>, y: seq<TimeRecord>)
    requires SortedByTime(x) && SortedByTime(y) && x != []
    requires multiset(x) == multiset(y)
    requires TimesIdentify(multiset(x))
    ensures y != [] && x[0] == y[0]
  {
    assert x[0] in multiset(y);
    var j :| 0 <= j < |y| && y[j] == x[0];
    assert y[0] in multiset(x);
    var i :| 0 <= i < |x| && x[i] == y[0];
    assert x[0].timestamp <= x[i].timestamp;
    assert y[0].timestamp <= y[j].timestamp;
  }

  /** Two non-empty sorted lists holding the same records share their first
      element, and their tails again satisfy the same conditions. */
  lemma SortedPermutationsTails(x: seq<TimeRecord>, y: seq<TimeRecord>)
    requires SortedByTime(x) && SortedByTime(y) && x != []
    requires multiset(x) == multiset(y)
    requires TimesIdentify(multiset(x))
    ensures y != [] && x[0] == y[0]
    ensures SortedByTime(x[1..]) && SortedByTime(y[1..])
    ensures multiset(x[1..]) == multiset(y[1..])
    ensures TimesIdentify(multiset(x[1..]))
  {
    SortedSameHead(x, y);
    MultisetTails(x, y);
    TimesIdentifySub(multiset(x), multiset(x[1..]));
    SortedTail(x);
    SortedTail(y);
  }

  /** Two sorted lists holding the same records are equal when no two
      distinct records share a timestamp. */
  lemma {:induction false} SortedPermutationsEqual(x: seq<TimeRecord>, y: seq<TimeRecord>)
    requires SortedByTime(x) && SortedByTime(y)
    requires multiset(x) == multiset(y)
    requires TimesIdentify(multiset(x))
    ensures x == y
    decreases |x|
  {
    if x == [] {
      NoneLeft(x, y);
    } else {
      SortedPermutationsTails(x, y);
      SortedPermutationsEqual(x[1..], y[1..]);
      SameHeadAndTail(x, y);
    }
  }

  lemma NoneLeft(x: seq<TimeRecord>, y: seq<TimeRecord>)
    requires x == [] && multiset(x) == multiset(y)
    ensures y == []
  {
    assert |multiset(y)| == 0;
  }

  lemma SameHeadAndTail(x: seq<TimeRecord>, y: seq<TimeRecord>)
    requires x != [] && y != [] && x[0] == y[0] && x[1..] == y[1..]
    ensures x == y
  {
    assert x == [x[0]] + x[1..] && y == [y[0]] + y[1..];
  }

  /** With pairwise-distinct timestamps the sorted order does not depend on
      the order of the input. */
  lemma SortIgnoresInputOrder(a: seq<TimeRecord>, b: seq<TimeRecord>)
    requires multiset(a) == multiset(b)
    requires TimesIdentify(multiset(a))
    ensures SortByTime(a) == SortByTime(b)
  {
    SortByTimePermutes(a);
    SortByTimePermutes(b);
    SortByTimeSorted(a);
    SortByTimeSorted(b);
    SortedPermutationsEqual(SortByTime(a), SortByTime(b));
  }

  lemma SortSnoc(s: seq<TimeRecord>, x: TimeRecord)
    ensures SortByTime(s + [x]) == InsertByTime(SortByTime(s), x)
  {
    assert (s + [x])[..|s|] == s;
  }

  /** One step of insertion from the right: when the element left of the
      gap is later than x, x goes before it. */
  lemma InsertShift(s: seq<TimeRecord>, x: TimeRecord, j: int)
    requires 0 < j <= |s| && s[j - 1].timestamp > x.timestamp
    ensures InsertByTime(s[..j], x) + s[j..] == InsertByTime(s[..j - 1], x) + s[j - 1..]
  {
    assert s[..j][..j - 1] == s[..j - 1];
    assert s[j - 1..] == [s[j - 1]] + s[j..];
  }

  /** Where the element left of the gap is not later than x (or there is
      none), x goes into the gap. */
  lemma InsertStop(s: seq<TimeRecord>, x: TimeRecord, j: int)
    requires 0 <= j <= |s| && (j == 0 || s[j - 1].timestamp <= x.timestamp)
    ensures InsertByTime(s[..j], x) + s[j..] == s[..j] + [x] + s[j..]
  {
  }

  /** Moving the element left of the gap into the gap moves the gap one
      place left. */
  lemma ShiftGap(b: seq<TimeRecord>, sorted: seq<TimeRecord>, rest: seq<TimeRecord>, y: TimeRecord, j: int)
    requires 0 < j <= |sorted| && b == sorted[..j] + [y] + sorted[j..] + rest
    ensures b[j := b[j - 1]] == sorted[..j - 1] + [b[j - 1]] + sorted[j - 1..] + rest
  {
    assert b[j - 1] == sorted[j - 1];
    assert sorted[..j] == sorted[..j - 1] + [sorted[j - 1]];
    assert sorted[j - 1..] == [sorted[j - 1]] + sorted[j..];
  }

  /** Putting x into the gap once the element left of it is not later. */
  lemma FillGap(b: seq<TimeRecord>, sorted: seq<TimeRecord>, rest: seq<TimeRecord>, y: TimeRecord, x: TimeRecord, j: int)
    requires 0 <= j <= |sorted| && b == sorted[..j] + [y] + sorted[j..] + rest
    requires j == 0 || sorted[j - 1].timestamp <= x.timestamp
    requires InsertByTime(sorted, x) == InsertByTime(sorted[..j], x) + sorted[j..]
    ensures b[j := x] == InsertByTime(sorted, x) + rest
  {
    InsertStop(sorted, x, j);
  }

  /** Moves a[i] left past every earlier punch that is later than it. */
  method InsertInto(a: array<TimeRecord>, i: int)
    requires 0 <= i < a.Length
    modifies a
    ensures a[..] == InsertByTime(old(a[..i]), old(a[i])) + old(a[i + 1..])
  {
    ghost var sorted := a[..i];
    ghost var rest := a[i + 1..];
    var x := a[i];
    var j := i;
    assert sorted[..j] == sorted && sorted[j..] == [];
    assert a[..] == sorted[..j] + [x] + sorted[j..] + rest;
    while j > 0 && a[j - 1].timestamp > x.timestamp
      invariant 0 <= j <= i
      invariant a[..] == sorted[..j] + [a[j]] + sorted[j..] + rest
      invariant InsertByTime(sorted, x) == InsertByTime(sorted[..j], x) + sorted[j..]
    {
      InsertShift(sorted, x, j);
      ShiftGap(a[..], sorted, rest, a[j], j);
      a[j] := a[j - 1];
      j := j - 1;
    }
    FillGap(a[..], sorted, rest, a[j], x, j);
    a[j] := x;
  }

  /** Array.prototype.sort by timestamp, in place (insertion sort). */
  method SortRecords(a: array<TimeRecord>)
    modifies a
    ensures a[..] == SortByTime(old(a[..]))
  {
    ghost var input := a[..];
    for i := 0 to a.Length
      invariant a[..] == SortByTime(input[..i]) + input[i..]
    {
      assert a[..i] == SortByTime(input[..i]) && a[i] == input[i] && a[i + 1..] == input[i + 1..];
      InsertInto(a, i);
      SortSnoc(input[..i], input[i]);
      assert input[..i + 1] == input[..i] + [input[i]];
    }
    assert input[..a.Length] == input;
  }
}
