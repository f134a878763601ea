/**
 * Timestamps and the chronological events shared by the discharge prompt builder and the
 * training-data preprocessor: each source record becomes an (timestamp, XML string) pair,
 * and all pairs are sorted by timestamp with Python's stable `list.sort(key=...)`.
 */
module Events {
  import opened Strings

  /** A Python `datetime` (time-zone naive). */
  datatype DateTime = DateTime(year: nat, month: nat, day: nat,
                               hour: nat, minute: nat, second: nat, microsecond: nat)

  /** A Python `date`. */
  datatype Date = Date(year: nat, month: nat, day: nat)

  /** `datetime.combine(d, datetime.min.time())` */
  function Midnight(d: Date): DateTime {
    DateTime(d.year, d.month, d.day, 0, 0, 0, 0)
  }

  /** The fields in the order Python compares them. */
  function Fields(t: DateTime): seq<int> {
    [t.year, t.month, t.day, t.hour, t.minute, t.second, t.microsecond]
  }

  /** Lexicographic order on equally long integer sequences. */
  predicate LexLess(a: seq<int>, b: seq<int>)
    requires |a| == |b|
  {
    |a| > 0 && (a[0] < b[0] || (a[0] == b[0] && LexLess(a[1..], b[1..])))
  }

  lemma {:induction false} LexLessIrreflexive(a: seq<int>)
    ensures !LexLess(a, a)
  {
    if |a| > 0 {
      LexLessIrreflexive(a[1..]);
    }
  }

  lemma {:induction false} LexLessTransitive(a: seq<int>, b: seq<int>, c: seq<int>)
    requires |a| == |b| == |c| && LexLess(a, b) && LexLess(b, c)
    ensures LexLess(a, c)
  {
    if a[0] == b[0] == c[0] {
      LexLessTransitive(a[1..], b[1..], c[1..]);
    }
  }

  lemma {:induction false} LexLessTotal(a: seq<int>, b: seq<int>)
    requires |a| == |b|
    ensures a == b || LexLess(a, b) || LexLess(b, a)
  {
    if |a| > 0 && a[0] == b[0] {
      LexLessTotal(a[1..], b[1..]);
      if a[1..] == b[1..] {
        assert a == [a[0]] + a[1..] && b == [b[0]] + b[1..];
      }
    }
  }

  /** Python's `a < b` on datetimes compares field by field. */
  predicate Before(a: DateTime, b: DateTime) {
    LexLess(Fields(a), Fields(b))
  }

  lemma BeforeIrreflexive(a: DateTime)
    ensures !Before(a, a)
  {
    LexLessIrreflexive(Fields(a));
  }

  lemma BeforeTransitive(a: DateTime, b: DateTime, c: DateTime)
    requires Before(a, b) && Before(b, c)
    ensures Before(a, c)
  {
    LexLessTransitive(Fields(a), Fields(b), Fields(c));
  }

  lemma BeforeTotal(a: DateTime, b: DateTime)
    ensures a == b || Before(a, b) || Before(b, a)
  {
    LexLessTotal(Fields(a), Fields(b));
  }

  /** `n` in decimal, padded with zeros on the left to `width` digits. */
  function ZeroPad(n: nat, width: nat): (s: string)
    ensures |s| >= width
  {
    var d := NatToString(n);
    if |d| >= width then d else seq(width - |d|, _ => '0') + d
  }

  /** `t.strftime('%Y-%m-%d %H:%M:%S')` */
  function FormatDateTime(t: DateTime): string {
    ZeroPad(t.year, 4) + "-" + ZeroPad(t.month, 2) + "-" + ZeroPad(t.day, 2) + " "
    + ZeroPad(t.hour, 2) + ":" + ZeroPad(t.minute, 2) + ":" + ZeroPad(t.second, 2)
  }

  /** `d.strftime('%Y-%m-%d')` */
  function FormatDate(d: Date): string {
    ZeroPad(d.year, 4) + "-" + ZeroPad(d.month, 2) + "-" + ZeroPad(d.day, 2)
  }

  /** One chronological event: the `(timestamp, xml_string)` tuple or the `Event` dataclass. */
  datatype Event = Event(time: DateTime, xml: string)

  /** The XML strings of the events, in list order. */
  function Xmls(es: seq<Event>): (r: seq<string>)
    ensures |r| == |es| && forall i :: 0 <= i < |es| ==> r[i] == es[i].xml
  {
    seq(|es|, i requires 0 <= i < |es| => es[i].xml)
  }

  /** No event comes after a later one. */
  predicate Sorted(es: seq<Event>) {
    forall i, j :: 0 <= i < j < |es| ==> !Before(es[j].time, es[i].time)
  }

  /** Puts `e` into a sorted list after every event that is not later than `e`. */
  function Insert(sorted: seq<Event>, e: Event): seq<Event> {
    if |sorted| == 0 then [e]
    else if Before(e.time, sorted[0].time) then [e] + sorted
    else [sorted[0]] + Insert(sorted[1..], e)
  }

  /** `events.sort(key=lambda x: x.timestamp)`: Python's sort is stable, so it is the
      insertion sort that places each event after the equal ones already placed. */
  function SortByTime(es: seq<Event>): seq<Event> {
    if |es| == 0 then [] else Insert(SortByTime(es[..|es| - 1]), es[|es| - 1])
  }

  lemma {:induction false} InsertMultiset(xs: seq<Event>, e: Event)
    ensures multiset(Insert(xs, e)) == multiset(xs) + multiset{e}
  {
    if |xs| > 0 && !Before(e.time, xs[0].time) {
      InsertMultiset(xs[1..], e);
      assert xs == [xs[0]] + xs[1..];
    }
  }

  lemma {:induction false} InsertSorted(xs: seq<Event>, e: Event)
    requires Sorted(xs)
    ensures Sorted(Insert(xs, e))
  {
    if |xs| > 0 {
      if Before(e.time, xs[0].time) {
        forall j | 0 <= j < |xs| ensures !Before(xs[j].time, e.time) {
          if Before(xs[j].time, e.time) {
            BeforeTransitive(xs[j].time, e.time, xs[0].time);
            BeforeIrreflexive(xs[0].time);
          }
        }
      } else {
        InsertSorted(xs[1..], e);
        InsertMultiset(xs[1..], e);
        var r := Insert(xs[1..], e);
        forall j | 0 <= j < |r| ensures !Before(r[j].time, xs[0].time) {
          assert r[j] in multiset(r);
          if r[j] != e {
            assert r[j] in multiset(xs[1..]);
            var k :| 0 <= k < |xs[1..]| && xs[1..][k] == r[j];
            assert xs[k + 1] == r[j];
          }
        }
      }
    }
  }

  /** The sort puts the events in time order. */
  lemma {:induction false} SortByTimeSorted(es: seq<Event>)
    ensures Sorted(SortByTime(es))
    ensures multiset(SortByTime(es)) == multiset(es)
  {
    if |es| > 0 {
      SortByTimeSorted(es[..|es| - 1]);
      InsertSorted(SortByTime(es[..|es| - 1]), es[|es| - 1]);
      InsertMultiset(SortByTime(es[..|es| - 1]), es[|es| - 1]);
      assert es == es[..|es| - 1] + [es[|es| - 1]];
    }
  }

  /** The events stamped with time `t`, in list order. */
  function AtTime(es: seq<Event>, t: DateTime): seq<Event> {
    if |es| == 0 then []
    else (if es[0].time == t then [es[0]] else []) + AtTime(es[1..], t)
  }

  lemma {:induction false} AtTimeAppend(a: seq<Event>, b: seq<Event>, t: DateTime)
    ensures AtTime(a + b, t) == AtTime(a, t) + AtTime(b, t)
  {
    if |a| > 0 {
      AtTimeAppend(a[1..], b, t);
      assert (a + b)[1..] == a[1..] + b;
    } else {
      assert a + b == b;
    }
  }

  lemma {:induction false} AtTimeNone(es: seq<Event>, t: DateTime)
    requires forall i :: 0 <= i < |es| ==> es[i].time != t
    ensures AtTime(es, t) == []
  {
    if |es| > 0 {
      AtTimeNone(es[1..], t);
    }
  }

  lemma {:induction false} InsertStable(xs: seq<Event>, e: Event, t: DateTime)
    requires Sorted(xs)
    ensures AtTime(Insert(xs, e), t) == AtTime(xs, t) + (if e.time == t then [e] else [])
  {
    if |xs| == 0 {
    } else if Before(e.time, xs[0].time) {
      if e.time == t {
        forall i | 0 <= i < |xs| ensures xs[i].time != t {
          if i > 0 && !Before(xs[0].time, xs[i].time) {
            BeforeTotal(xs[0].time, xs[i].time);
          }
          if i > 0 && Before(xs[0].time, xs[i].time) {
            BeforeTransitive(e.time, xs[0].time, xs[i].time);
          }
          BeforeIrreflexive(e.time);
        }
        AtTimeNone(xs, t);
      }
    } else {
      InsertStable(xs[1..], e, t);
    }
  }

  /** The sort is stable: events with equal timestamps keep their relative order. */
  lemma {:induction false} SortByTimeStable(es: seq<Event>, t: DateTime)
    ensures AtTime(SortByTime(es), t) == AtTime(es, t)
  {
    if |es| > 0 {
      var init, last := es[..|es| - 1], es[|es| - 1];
      var sortedInit := SortByTime(init);
      SortByTimeStable(init, t);
      SortByTimeSorted(init);
      InsertStable(sortedInit, last, t);
      assert es == init + [last];
      AtTimeAppend(init, [last], t);
      assert AtTime([last], t) == (if last.time == t then [last] else []);
      calc {
        AtTime(SortByTime(es), t);
        AtTime(Insert(sortedInit, last), t);
        AtTime(sortedInit, t) + (if last.time == t then [last] else []);
        AtTime(init, t) + AtTime([last], t);
        AtTime(es, t);
      }
    }
  }
}
