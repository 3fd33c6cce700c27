/**
 * The severity grouping in `print_report`: three filters of the anomaly
 * list, printed critical first, then high, then medium. Grouping looks at
 * nothing but an item's severity, so it is stated for any item type `T`
 * given its severity accessor; the detector groups anomalies by `.severity`.
 */
module Report {
  import opened Anomalies

  /** The items of severity `severity`, in their original order. */
  function Group<T>(items: seq<T>, severityOf: T -> Severity, severity: Severity): (r: seq<T>)
    ensures |r| <= |items|
  {
    if |items| == 0 then []
    else Keep(items[0], severityOf, severity) + Group(items[1..], severityOf, severity)
  }

  /** The one-element filter: `x` itself if it has severity `severity`. */
  function Keep<T>(x: T, severityOf: T -> Severity, severity: Severity): seq<T> {
    if severityOf(x) == severity then [x] else []
  }

  /** An anomaly's severity. */
  function SeverityOf(a: Anomaly): Severity {
    a.severity
  }

  /** A group holds exactly the items of its severity. */
  lemma {:induction false} GroupMembers<T>(items: seq<T>, severityOf: T -> Severity, severity: Severity)
    ensures forall x :: x in Group(items, severityOf, severity) <==> x in items && severityOf(x) == severity
  {
    if |items| > 0 {
      GroupMembers(items[1..], severityOf, severity);
      assert items == [items[0]] + items[1..];
    }
  }

  /** Position of a severity in the report: critical first. */
  function Rank(severity: Severity): nat {
    match severity
    case Critical => 2
    case High => 1
    case Medium => 0
  }

  /** The items in the order the report lists them. */
  function ReportOrder<T>(items: seq<T>, severityOf: T -> Severity): seq<T> {
    Group(items, severityOf, Critical) + Group(items, severityOf, High) + Group(items, severityOf, Medium)
  }

  /** Grouping distributes over concatenation, so it never reorders items. */
  lemma {:induction false} GroupConcat<T>(a: seq<T>, b: seq<T>, severityOf: T -> Severity, severity: Severity)
    ensures Group(a + b, severityOf, severity) == Group(a, severityOf, severity) + Group(b, severityOf, severity)
  {
    if |a| == 0 {
      assert a + b == b;
    } else {
      assert (a + b)[0] == a[0];
      assert (a + b)[1..] == a[1..] + b;
      GroupConcat(a[1..], b, severityOf, severity);
    }
  }

  /** Grouping again by the same severity keeps a group as it is. */
  lemma {:induction false} GroupIdempotent<T>(a: seq<T>, severityOf: T -> Severity, severity: Severity)
    ensures Group(Group(a, severityOf, severity), severityOf, severity) == Group(a, severityOf, severity)
  {
    if |a| > 0 {
      var head := Keep(a[0], severityOf, severity);
      GroupConcat(head, Group(a[1..], severityOf, severity), severityOf, severity);
      GroupIdempotent(a[1..], severityOf, severity);
      if severityOf(a[0]) == severity {
        assert head[1..] == [];
      }
    }
  }

  /** A group holds nothing of another severity. */
  lemma {:induction false} GroupDisjoint<T>(a: seq<T>, severityOf: T -> Severity, severity: Severity, other: Severity)
    requires severity != other
    ensures Group(Group(a, severityOf, severity), severityOf, other) == []
  {
    if |a| > 0 {
      var head := Keep(a[0], severityOf, severity);
      GroupConcat(head, Group(a[1..], severityOf, severity), severityOf, other);
      GroupDisjoint(a[1..], severityOf, severity, other);
      if severityOf(a[0]) == severity {
        assert head[1..] == [];
      }
    }
  }

  /** The three groups together hold every item exactly as often as the list does. */
  lemma {:induction false} GroupsPartition<T>(a: seq<T>, severityOf: T -> Severity)
    ensures multiset(Group(a, severityOf, Critical)) + multiset(Group(a, severityOf, High))
            + multiset(Group(a, severityOf, Medium))
         == multiset(a)
  {
    if |a| > 0 {
      GroupsPartition(a[1..], severityOf);
      GroupMultisetCons(a, severityOf, Critical);
      GroupMultisetCons(a, severityOf, High);
      GroupMultisetCons(a, severityOf, Medium);
      KeepPartition(a[0], severityOf);
      MultisetCons(a);
      Regroup(multiset(Keep(a[0], severityOf, Critical)), multiset(Keep(a[0], severityOf, High)),
              multiset(Keep(a[0], severityOf, Medium)), multiset(Group(a[1..], severityOf, Critical)),
              multiset(Group(a[1..], severityOf, High)), multiset(Group(a[1..], severityOf, Medium)));
    }
  }

  lemma MultisetCons<T>(a: seq<T>)
    requires |a| > 0
    ensures multiset(a) == multiset{a[0]} + multiset(a[1..])
  {
    assert a == [a[0]] + a[1..];
  }

  lemma Regroup<T>(kc: multiset<T>, kh: multiset<T>, km: multiset<T>, gc: multiset<T>, gh: multiset<T>, gm: multiset<T>)
    ensures (kc + gc) + (kh + gh) + (km + gm) == (kc + kh + km) + (gc + gh + gm)
  {
  }

  lemma GroupMultisetCons<T>(a: seq<T>, severityOf: T -> Severity, severity: Severity)
    requires |a| > 0
    ensures multiset(Group(a, severityOf, severity))
         == multiset(Keep(a[0], severityOf, severity)) + multiset(Group(a[1..], severityOf, severity))
  {
  }

  /** Exactly one of the three one-element filters keeps an item. */
  lemma KeepPartition<T>(x: T, severityOf: T -> Severity)
    ensures multiset(Keep(x, severityOf, Critical)) + multiset(Keep(x, severityOf, High))
            + multiset(Keep(x, severityOf, Medium))
         == multiset{x}
  {
  }

  /** The report lists every item exactly as often as the list holds it. */
  lemma ReportOrderIsPermutation<T>(a: seq<T>, severityOf: T -> Severity)
    ensures multiset(ReportOrder(a, severityOf)) == multiset(a)
  {
    GroupsPartition(a, severityOf);
  }

  /** The report lists critical before high before medium. */
  lemma ReportOrderIsSorted<T>(a: seq<T>, severityOf: T -> Severity)
    ensures var r := ReportOrder(a, severityOf);
      forall i, j :: 0 <= i < j < |r| ==> Rank(severityOf(r[i])) >= Rank(severityOf(r[j]))
  {
    var c, h, m := Group(a, severityOf, Critical), Group(a, severityOf, High), Group(a, severityOf, Medium);
    var r := ReportOrder(a, severityOf);
    forall i, j | 0 <= i < j < |r| ensures Rank(severityOf(r[i])) >= Rank(severityOf(r[j])) {
      ReportOrderAt(a, severityOf, i);
      ReportOrderAt(a, severityOf, j);
    }
  }

  /** The severity of the item at position `k` of the report, by the group sizes. */
  lemma ReportOrderAt<T>(a: seq<T>, severityOf: T -> Severity, k: int)
    requires 0 <= k < |ReportOrder(a, severityOf)|
    ensures var c, h := Group(a, severityOf, Critical), Group(a, severityOf, High);
      severityOf(ReportOrder(a, severityOf)[k])
      == if k < |c| then Critical else if k < |c| + |h| then High else Medium
  {
    var c, h, m := Group(a, severityOf, Critical), Group(a, severityOf, High), Group(a, severityOf, Medium);
    var r := ReportOrder(a, severityOf);
    if k < |c| {
      GroupAt(a, severityOf, Critical, k);
      assert r[k] == c[k];
    } else if k < |c| + |h| {
      GroupAt(a, severityOf, High, k - |c|);
      assert r[k] == h[k - |c|];
    } else {
      GroupAt(a, severityOf, Medium, k - |c| - |h|);
      assert r[k] == m[k - |c| - |h|];
    }
  }

  /** Every item of a group has the group's severity. */
  lemma {:induction false} GroupAt<T>(items: seq<T>, severityOf: T -> Severity, severity: Severity, k: int)
    requires 0 <= k < |Group(items, severityOf, severity)|
    ensures severityOf(Group(items, severityOf, severity)[k]) == severity
  {
    var head := Keep(items[0], severityOf, severity);
    if k >= |head| {
      GroupAt(items[1..], severityOf, severity, k - |head|);
    }
  }

  /** Within one severity the report keeps the order in which items were found. */
  lemma ReportOrderIsStable<T>(a: seq<T>, severityOf: T -> Severity, s: Severity)
    ensures Group(ReportOrder(a, severityOf), severityOf, s) == Group(a, severityOf, s)
  {
    var c, h, m := Group(a, severityOf, Critical), Group(a, severityOf, High), Group(a, severityOf, Medium);
    GroupOfReport(a, severityOf, s);
    GroupIdempotent(a, severityOf, s);
    if s == Critical {
      GroupDisjoint(a, severityOf, High, s);
      GroupDisjoint(a, severityOf, Medium, s);
    } else if s == High {
      GroupDisjoint(a, severityOf, Critical, s);
      GroupDisjoint(a, severityOf, Medium, s);
    } else {
      GroupDisjoint(a, severityOf, Critical, s);
      GroupDisjoint(a, severityOf, High, s);
    }
  }

  lemma GroupOfReport<T>(a: seq<T>, severityOf: T -> Severity, s: Severity)
    ensures Group(ReportOrder(a, severityOf), severityOf, s)
         == Group(Group(a, severityOf, Critical), severityOf, s) + Group(Group(a, severityOf, High), severityOf, s)
            + Group(Group(a, severityOf, Medium), severityOf, s)
  {
    var c, h, m := Group(a, severityOf, Critical), Group(a, severityOf, High), Group(a, severityOf, Medium);
    GroupConcat(c + h, m, severityOf, s);
    GroupConcat(c, h, severityOf, s);
  }
}
