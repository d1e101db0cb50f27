/**
 * The order in which both transcript builders list messages: by formatted time, `unknown`
 * last, equal times in input order. `Array.prototype.sort` and Python's `list.sort` are both
 * stable, so the sorted list is determined by the comparator alone; it is modelled here as a
 * stable insertion sort over any record type that carries a time string.
 */
module TimeOrder {
  import opened Text
  import Timestamp

  /** `localeCompare` of the fixed-format time strings, taken as ordinal comparison. */
  function LocaleCompare(a: string, b: string): int {
    if StrLess(a, b) then -1 else if a == b then 0 else 1
  }

  /** The comparator `extractMessages` passes to `sort`. */
  function CompareTimes(a: string, b: string): int {
    var aUnknown := a == Timestamp.Unknown;
    var bUnknown := b == Timestamp.Unknown;
    if aUnknown && !bUnknown then 1
    else if !aUnknown && bUnknown then -1
    else if aUnknown && bUnknown then 0
    else LocaleCompare(a, b)
  }

  /** `a` may precede `b` in the sorted list. */
  predicate TimeLE(a: string, b: string) {
    CompareTimes(a, b) <= 0
  }

  /** The comparator orders known times by string, puts them before `unknown`, and treats
    * only equal times as ties. */
  lemma CompareTimesMeaning(a: string, b: string)
    ensures CompareTimes(a, b) < 0 <==>
      a != Timestamp.Unknown && (b == Timestamp.Unknown || StrLess(a, b))
    ensures CompareTimes(a, b) == 0 <==> a == b
    ensures CompareTimes(a, b) == -CompareTimes(b, a)
  {
    if StrLess(a, b) {
      StrLessIrreflexive(a);
      StrLessAsymmetric(a, b);
    }
    if StrLess(b, a) {
      StrLessIrreflexive(a);
      StrLessAsymmetric(b, a);
    }
    StrLessTotal(a, b);
  }

  /** The comparator is consistent, as `sort` requires: a total preorder. */
  lemma TimeLETotal(a: string, b: string)
    ensures TimeLE(a, b) || TimeLE(b, a)
  {
    CompareTimesMeaning(a, b);
  }

  lemma TimeLETransitive(a: string, b: string, c: string)
    requires TimeLE(a, b) && TimeLE(b, c)
    ensures TimeLE(a, c)
  {
    CompareTimesMeaning(a, b);
    CompareTimesMeaning(b, c);
    CompareTimesMeaning(a, c);
    if a != b && b != c && a != Timestamp.Unknown && c != Timestamp.Unknown {
      StrLessTransitive(a, b, c);
    }
  }

  /** Python's sort key `(time == "unknown", time)` compared as a tuple. */
  predicate PyKeyLess(a: string, b: string) {
    var ka, kb := a == Timestamp.Unknown, b == Timestamp.Unknown;
    (!ka && kb) || (ka == kb && StrLess(a, b))
  }

  /** The Python key and the JavaScript comparator induce the same order, and both treat only
    * equal times as ties, so the two stable sorts produce the same list. */
  lemma PyKeyMatchesComparator(a: string, b: string)
    ensures PyKeyLess(a, b) <==> CompareTimes(a, b) < 0
    ensures (!PyKeyLess(a, b) && !PyKeyLess(b, a)) <==> CompareTimes(a, b) == 0
  {
    CompareTimesMeaning(a, b);
    CompareTimesMeaning(b, a);
    if a == Timestamp.Unknown && b == Timestamp.Unknown {
      StrLessIrreflexive(a);
    }
  }

  /** Every pair appears in comparator order. */
  predicate SortedBy<T>(xs: seq<T>, time: T -> string) {
    forall i, j :: 0 <= i < j < |xs| ==> TimeLE(time(xs[i]), time(xs[j]))
  }

  /** The elements whose time is `t`, in order. */
  function WithTime<T>(xs: seq<T>, time: T -> string, t: string): seq<T> {
    if xs == [] then []
    else WithTime(xs[..|xs| - 1], time, t) + (if time(xs[|xs| - 1]) == t then [xs[|xs| - 1]] else [])
  }

  /** Inserting `x` into a sorted list after every element that may precede it. */
  function Insert<T>(xs: seq<T>, x: T, time: T -> string): seq<T> {
    if xs == [] || TimeLE(time(xs[|xs| - 1]), time(x)) then xs + [x]
    else Insert(xs[..|xs| - 1], x, time) + [xs[|xs| - 1]]
  }

  /** `collected.sort(comparator)`: a stable sort by time. */
  function SortByTime<T>(xs: seq<T>, time: T -> string): seq<T> {
    if xs == [] then [] else Insert(SortByTime(xs[..|xs| - 1], time), xs[|xs| - 1], time)
  }

  lemma {:induction false} InsertPermutes<T>(xs: seq<T>, x: T, time: T -> string)
    ensures multiset(Insert(xs, x, time)) == multiset(xs) + multiset{x}
  {
    if !(xs == [] || TimeLE(time(xs[|xs| - 1]), time(x))) {
      var init := xs[..|xs| - 1];
      InsertPermutes(init, x, time);
      assert xs == init + [xs[|xs| - 1]];
    }
  }

  lemma {:induction false} InsertSorted<T>(xs: seq<T>, x: T, time: T -> string)
    requires SortedBy(xs, time)
    ensures SortedBy(Insert(xs, x, time), time)
  {
    var r := Insert(xs, x, time);
    if xs == [] {
    } else if TimeLE(time(xs[|xs| - 1]), time(x)) {
      forall i, j | 0 <= i < j < |r| ensures TimeLE(time(r[i]), time(r[j])) {
        if j == |xs| && i < |xs| - 1 {
          TimeLETransitive(time(xs[i]), time(xs[|xs| - 1]), time(x));
        }
      }
    } else {
      var init, last := xs[..|xs| - 1], xs[|xs| - 1];
      InsertSorted(init, x, time);
      InsertPermutes(init, x, time);
      var r' := Insert(init, x, time);
      TimeLETotal(time(last), time(x));
      forall i, j | 0 <= i < j < |r| ensures TimeLE(time(r[i]), time(r[j])) {
        if j == |r| - 1 {
          assert r[i] in multiset(r');
          assert r[i] == x || r[i] in multiset(init);
          if r[i] != x {
            var k :| 0 <= k < |init| && init[k] == r[i];
            assert xs[k] == r[i];
          }
        } else {
          assert r[i] == r'[i] && r[j] == r'[j];
        }
      }
    }
  }

  lemma {:induction false} InsertStable<T>(xs: seq<T>, x: T, time: T -> string, t: string)
    ensures WithTime(Insert(xs, x, time), time, t)
         == WithTime(xs, time, t) + (if time(x) == t then [x] else [])
  {
    var r := Insert(xs, x, time);
    if xs == [] || TimeLE(time(xs[|xs| - 1]), time(x)) {
      assert r[..|r| - 1] == xs;
    } else {
      var init, last := xs[..|xs| - 1], xs[|xs| - 1];
      InsertStable(init, x, time, t);
      assert r[..|r| - 1] == Insert(init, x, time);
      CompareTimesMeaning(time(last), time(x));
    }
  }

  /** The sorted list is ordered by the comparator. */
  lemma {:induction false} SortSorted<T>(xs: seq<T>, time: T -> string)
    ensures SortedBy(SortByTime(xs, time), time)
  {
    if xs != [] {
      SortSorted(xs[..|xs| - 1], time);
      InsertSorted(SortByTime(xs[..|xs| - 1], time), xs[|xs| - 1], time);
    }
  }

  /** The sorted list holds the same records. */
  lemma {:induction false} SortPermutes<T>(xs: seq<T>, time: T -> string)
    ensures multiset(SortByTime(xs, time)) == multiset(xs)
  {
    if xs != [] {
      SortPermutes(xs[..|xs| - 1], time);
      InsertPermutes(SortByTime(xs[..|xs| - 1], time), xs[|xs| - 1], time);
      assert xs == xs[..|xs| - 1] + [xs[|xs| - 1]];
    }
  }

  /** Records with equal times keep their input order. */
  lemma {:induction false} SortStable<T>(xs: seq<T>, time: T -> string, t: string)
    ensures WithTime(SortByTime(xs, time), time, t) == WithTime(xs, time, t)
  {
    if xs != [] {
      SortStable(xs[..|xs| - 1], time, t);
      InsertStable(SortByTime(xs[..|xs| - 1], time), xs[|xs| - 1], time, t);
    }
  }

  /** In a sorted list every `unknown` time follows every known one, and known times ascend. */
  lemma SortedMeaning<T>(xs: seq<T>, time: T -> string, i: int, j: int)
    requires SortedBy(xs, time) && 0 <= i < j < |xs|
    ensures time(xs[i]) == Timestamp.Unknown ==> time(xs[j]) == Timestamp.Unknown
    ensures time(xs[j]) != Timestamp.Unknown ==> time(xs[i]) == time(xs[j]) || StrLess(time(xs[i]), time(xs[j]))
  {
    CompareTimesMeaning(time(xs[i]), time(xs[j]));
  }
}
