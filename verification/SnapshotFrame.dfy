/**
 Canonical UI frames (internal/clusterstate/clusterstate.go): the hub compares
 encoded bytes, so a frame must not depend on the order in which an indexer
 lists its objects. Rows are merged per identity and then sorted by a library
 sort that is free to order ties as it likes.
 */
module SnapshotFrame {
  import opened Wrappers
  import opened Text

  /** One event or row; the object is shown as kind/name. */
  datatype Alert = Alert(
    ns: string, kind: string, name: string, reason: string, message: string, count: int, lastSeen: string)

  function Object(a: Alert): string { a.kind + "/" + a.name }

  // ---- string order ---------------------------------------------------------------------------

  predicate Less(a: string, b: string) {
    b != "" && (a == "" || a[0] < b[0] || (a[0] == b[0] && Less(a[1..], b[1..])))
  }

  lemma {:induction false} LessIsTotal(a: string, b: string)
    ensures a == b <==> !Less(a, b) && !Less(b, a)
    ensures !(Less(a, b) && Less(b, a))
  {
    if a != "" && b != "" {
      LessIsTotal(a[1..], b[1..]);
      assert a == [a[0]] + a[1..] && b == [b[0]] + b[1..];
    }
  }

  lemma {:induction false} LessIsTransitive(a: string, b: string, c: string)
    requires Less(a, b) && Less(b, c)
    ensures Less(a, c)
  {
    if a != "" && a[0] == b[0] == c[0] {
      LessIsTransitive(a[1..], b[1..], c[1..]);
    }
  }

  /** The first difference decides, and a text comes before its continuations. */
  lemma {:induction false} LessByFirstDifference(a: string, b: string, k: nat)
    requires k <= |a| && k < |b| && a[..k] == b[..k] && (k < |a| ==> a[k] < b[k])
    ensures Less(a, b)
  {
    if k > 0 {
      assert a[0] == a[..k][0] == b[..k][0] == b[0];
      assert a[1..][..k - 1] == a[..k][1..] && b[1..][..k - 1] == b[..k][1..];
      LessByFirstDifference(a[1..], b[1..], k - 1);
    }
  }

  // ---- aggregation ----------------------------------------------------------------------------

  function Identity(a: Alert): string { a.ns + "/" + Object(a) + "/" + a.reason }

  function Merge(prev: Alert, a: Alert): Alert {
    var sum := prev.(count := prev.count + a.count);
    if Less(prev.lastSeen, a.lastSeen) then sum.(lastSeen := a.lastSeen, message := a.message) else sum
  }

  /** The row that events arriving in this order leave for identity k. */
  function RowOf(es: seq<Alert>, k: string): Option<Alert> {
    if es == [] then None
    else
      var prev, a := RowOf(es[..|es| - 1], k), es[|es| - 1];
      if Identity(a) != k then prev
      else if prev.None? then Some(a)
      else Some(Merge(prev.value, a))
  }

  /** The rows so far hold exactly one row per identity, at the index `seen` keeps. */
  ghost predicate Aggregated(es: seq<Alert>, rows: seq<Alert>, seen: map<string, nat>) {
    (forall k :: k in seen <==> RowOf(es, k).Some?) &&
    (forall k :: k in seen ==> seen[k] < |rows| && RowOf(es, k) == Some(rows[seen[k]])) &&
    (forall i :: 0 <= i < |rows| ==> Identity(rows[i]) in seen && seen[Identity(rows[i])] == i)
  }

  lemma {:induction false} RowKeepsIdentity(es: seq<Alert>, k: string)
    ensures RowOf(es, k).Some? ==> Identity(RowOf(es, k).value) == k
  {
    if es != [] {
      RowKeepsIdentity(es[..|es| - 1], k);
    }
  }

  lemma RowStep(es: seq<Alert>, n: nat, k: string)
    requires n < |es|
    ensures RowOf(es[..n + 1], k) ==
      var prev := RowOf(es[..n], k);
      if Identity(es[n]) != k then prev else if prev.None? then Some(es[n]) else Some(Merge(prev.value, es[n]))
  {
    assert es[..n + 1][..n] == es[..n];
  }

  lemma MergeStep(es: seq<Alert>, n: nat, rows: seq<Alert>, seen: map<string, nat>)
    requires n < |es| && Aggregated(es[..n], rows, seen) && Identity(es[n]) in seen
    ensures seen[Identity(es[n])] < |rows|
    ensures var i := seen[Identity(es[n])]; Aggregated(es[..n + 1], rows[i := Merge(rows[i], es[n])], seen)
  {
    var key := Identity(es[n]);
    var i := seen[key];
    var now := rows[i := Merge(rows[i], es[n])];
    RowKeepsIdentity(es[..n], key);
    forall k
      ensures k in seen <==> RowOf(es[..n + 1], k).Some?
      ensures k in seen ==> RowOf(es[..n + 1], k) == Some(now[seen[k]])
    {
      RowStep(es, n, k);
      RowKeepsIdentity(es[..n], k);
    }
  }

  lemma NewStep(es: seq<Alert>, n: nat, rows: seq<Alert>, seen: map<string, nat>)
    requires n < |es| && Aggregated(es[..n], rows, seen) && Identity(es[n]) !in seen
    ensures Aggregated(es[..n + 1], rows + [es[n]], seen[Identity(es[n]) := |rows|])
  {
    forall k
      ensures k in seen || k == Identity(es[n]) <==> RowOf(es[..n + 1], k).Some?
      ensures k in seen ==> RowOf(es[..n + 1], k) == Some(rows[seen[k]])
      ensures k == Identity(es[n]) ==> RowOf(es[..n + 1], k) == Some(es[n])
    {
      RowStep(es, n, k);
    }
  }

  method Joined(row: Alert, a: Alert) returns (prev: Alert)
    ensures prev == Merge(row, a)
  {
    prev := row;
    prev := prev.(count := prev.count + a.count);
    if Less(prev.lastSeen, a.lastSeen) {
      prev := prev.(lastSeen := a.lastSeen, message := a.message);
    }
  }

  method Aggregate(es: seq<Alert>) returns (rows: seq<Alert>, seen: map<string, nat>)
    ensures Aggregated(es, rows, seen)
  {
    rows, seen := [], map[];
    for n := 0 to |es|
      invariant Aggregated(es[..n], rows, seen)
    {
      var a := es[n];
      var key := Identity(a);
      if key in seen {
        MergeStep(es, n, rows, seen);
        var prev := Joined(rows[seen[key]], a);
        rows := rows[seen[key] := prev];
        continue;
      }
      NewStep(es, n, rows, seen);
      seen := seen[key := |rows|];
      rows := rows + [a];
    }
    assert es[..|es|] == es;
  }

  // ---- what a row says, in terms of its group ---------------------------------------------------

  function Total(es: seq<Alert>, k: string): int {
    if es == [] then 0
    else Total(es[..|es| - 1], k) + (if Identity(es[|es| - 1]) == k then es[|es| - 1].count else 0)
  }

  /** e is an event of group k no other one of the group is newer than. */
  predicate Newest(es: seq<Alert>, k: string, e: Alert) {
    e in es && Identity(e) == k && forall f :: f in es && Identity(f) == k ==> !Less(e.lastSeen, f.lastSeen)
  }

  lemma {:induction false} RowSums(es: seq<Alert>, k: string)
    ensures RowOf(es, k).Some? <==> exists e :: e in es && Identity(e) == k
    ensures RowOf(es, k).Some? ==> RowOf(es, k).value.count == Total(es, k)
    ensures RowOf(es, k).None? ==> Total(es, k) == 0
  {
    if es != [] {
      var init, last := es[..|es| - 1], es[|es| - 1];
      RowSums(init, k);
      assert es == init + [last];
      assert forall e :: e in es <==> e in init || e == last;
      assert last in es;
    }
  }

  /** The row's time and message come from one newest event of the group. */
  lemma {:induction false} RowIsNewest(es: seq<Alert>, k: string) returns (e: Alert)
    requires RowOf(es, k).Some?
    ensures Newest(es, k, e)
    ensures RowOf(es, k).value.lastSeen == e.lastSeen && RowOf(es, k).value.message == e.message
  {
    var init, last := es[..|es| - 1], es[|es| - 1];
    assert es == init + [last];
    assert forall f :: f in es <==> f in init || f == last;
    RowSums(init, k);
    LessIsTotal(last.lastSeen, last.lastSeen);
    if RowOf(init, k).None? {
      return last;
    }
    e := RowIsNewest(init, k);
    if Identity(last) == k && Less(e.lastSeen, last.lastSeen) {
      forall f | f in es && Identity(f) == k
        ensures !Less(last.lastSeen, f.lastSeen)
      {
        if f in init && Less(last.lastSeen, f.lastSeen) {
          LessIsTransitive(e.lastSeen, last.lastSeen, f.lastSeen);
        }
      }
      return last;
    }
  }

  predicate SameNames(
      e: Alert, f: Alert) { e.ns == f.ns && e.kind == f.kind && e.name == f.name && e.reason == f.reason }

  /** Equal identities name the same object and reason. */
  predicate Faithful(es: seq<Alert>) {
    forall e, f :: e in es && f in es && Identity(e) == Identity(f) ==> SameNames(e, f)
  }

  lemma {:induction false} RowNames(es: seq<Alert>, k: string, e: Alert)
    requires Faithful(es) && e in es && Identity(e) == k && RowOf(es, k).Some?
    ensures SameNames(RowOf(es, k).value, e)
  {
    var f := RowFirst(es, k);
    assert f in es;
  }

  lemma {:induction false} RowFirst(es: seq<Alert>, k: string) returns (f: Alert)
    requires RowOf(es, k).Some?
    ensures f in es && Identity(f) == k
    ensures SameNames(RowOf(es, k).value, f)
  {
    var init, last := es[..|es| - 1], es[|es| - 1];
    assert es == init + [last];
    if RowOf(init, k).None? {
      return last;
    }
    f := RowFirst(init, k);
  }

  // ---- order of arrival -------------------------------------------------------------------------

  predicate SameEvents(a: seq<Alert>, b: seq<Alert>) { multiset(a) == multiset(b) }

  lemma SameEventsSameMembers(a: seq<Alert>, b: seq<Alert>)
    requires SameEvents(a, b)
    ensures |a| == |b| && forall e :: e in a <==> e in b
  {
    assert |multiset(a)| == |a| && |multiset(b)| == |b|;
    forall e
      ensures e in a <==> e in b
    {
      assert e in a <==> e in multiset(a);
      assert e in b <==> e in multiset(b);
    }
  }

  function Without(es: seq<Alert>, i: nat): (rest: seq<Alert>)
    requires i < |es|
    ensures |rest| == |es| - 1
  {
    es[..i] + es[i + 1..]
  }

  function Share(e: Alert, k: string): int { if Identity(e) == k then e.count else 0 }

  lemma {:induction false} TotalWithout(es: seq<Alert>, i: nat, k: string)
    requires i < |es|
    ensures Total(es, k) == Total(Without(es, i), k) + Share(es[i], k)
  {
    var n := |es| - 1;
    if i == n {
      assert Without(es, i) == es[..n];
    } else {
      var rest := Without(es, i);
      TotalWithout(es[..n], i, k);
      assert rest[..n - 1] == Without(es[..n], i);
      assert rest[n - 1] == es[n];
    }
  }

  lemma RemoveMultiset(es: seq<Alert>, i: nat)
    requires i < |es|
    ensures multiset(Without(es, i)) == multiset(es) - multiset{es[i]}
  {
    assert es == es[..i] + [es[i]] + es[i + 1..];
  }

  lemma {:induction false} TotalIgnoresOrder(a: seq<Alert>, b: seq<Alert>, k: string)
    requires SameEvents(a, b)
    ensures Total(a, k) == Total(b, k)
    decreases |a|
  {
    SameEventsSameMembers(a, b);
    if a != [] {
      assert a[0] in b;
      var i :| 0 <= i < |b| && b[i] == a[0];
      TotalWithout(a, 0, k);
      TotalWithout(b, i, k);
      RemoveMultiset(a, 0);
      RemoveMultiset(b, i);
      TotalIgnoresOrder(Without(a, 0), Without(b, i), k);
    }
  }

  lemma NewestAgree(a: seq<Alert>, b: seq<Alert>, k: string, e: Alert, f: Alert)
    requires SameEvents(a, b) && Newest(a, k, e) && Newest(b, k, f)
    ensures e.lastSeen == f.lastSeen && Newest(a, k, f)
  {
    SameEventsSameMembers(a, b);
    LessIsTotal(e.lastSeen, f.lastSeen);
  }

  /** Everything but the message is the same in any order: names, the group's sum, the group's maximum. */
  lemma RowsAgree(a: seq<Alert>, b: seq<Alert>, k: string)
    requires SameEvents(a, b) && Faithful(a)
    ensures RowOf(a, k).Some? <==> RowOf(b, k).Some?
    ensures RowOf(a, k).Some? ==> RowOf(a, k).value == RowOf(b, k).value.(message := RowOf(a, k).value.message)
  {
    SameEventsSameMembers(a, b);
    RowSums(a, k);
    RowSums(b, k);
    TotalIgnoresOrder(a, b, k);
    if RowOf(a, k).Some? {
      var e := RowIsNewest(a, k);
      var f := RowIsNewest(b, k);
      NewestAgree(a, b, k, e, f);
      RowNames(a, k, e);
      RowNames(b, k, e);
    }
  }

  /** The newest events of group k all say the same. */
  ghost predicate OneMessage(es: seq<Alert>, k: string) {
    forall e, f :: Newest(es, k, e) && Newest(es, k, f) ==> e.message == f.message
  }

  lemma {:induction false} FirstNewestWins(es: seq<Alert>, k: string)
    requires es != [] && Newest(es, k, es[0])
    ensures RowOf(es, k).Some? && RowOf(es, k).value.message == es[0].message
    ensures RowOf(es, k).value.lastSeen == es[0].lastSeen
  {
    var n := |es| - 1;
    if n == 0 {
      assert es[..0] == [];
    } else {
      var init := es[..n];
      assert forall f :: f in init ==> f in es;
      assert es[n] in es;
      assert init[0] == es[0];
      FirstNewestWins(init, k);
    }
  }

  lemma Bring(es: seq<Alert>, e: Alert, k: string) returns (b: seq<Alert>)
    requires Newest(es, k, e)
    ensures SameEvents(es, b) && b != [] && b[0] == e && Newest(b, k, b[0])
  {
    var i :| 0 <= i < |es| && es[i] == e;
    b := [e] + Without(es, i);
    RemoveMultiset(es, i);
    SameEventsSameMembers(es, b);
  }

  /** A group's row is the same in every order of arrival exactly when its newest events say the same. */
  lemma OrderFreeExactly(es: seq<Alert>, k: string)
    requires Faithful(es)
    ensures OneMessage(es, k) <==> forall b :: SameEvents(es, b) ==> RowOf(b, k) == RowOf(es, k)
  {
    if OneMessage(es, k) {
      forall b | SameEvents(es, b)
        ensures RowOf(b, k) == RowOf(es, k)
      {
        RowsAgree(es, b, k);
        if RowOf(es, k).Some? {
          var e := RowIsNewest(es, k);
          var f := RowIsNewest(b, k);
          NewestAgree(es, b, k, e, f);
        }
      }
    } else {
      var e, f :| Newest(es, k, e) && Newest(es, k, f) && e.message != f.message;
      var b := Bring(es, e, k);
      var c := Bring(es, f, k);
      FirstNewestWins(b, k);
      FirstNewestWins(c, k);
      assert RowOf(b, k) != RowOf(c, k);
    }
  }

  ghost predicate Distinct(rows: seq<Alert>) {
    forall i, j :: 0 <= i < j < |rows| ==> Identity(rows[i]) != Identity(rows[j])
  }

  lemma AggregatedIsDistinct(es: seq<Alert>, rows: seq<Alert>, seen: map<string, nat>)
    requires Aggregated(es, rows, seen)
    ensures Distinct(rows)
    ensures forall r :: r in rows <==> RowOf(es, Identity(r)) == Some(r)
  {
    forall r
      ensures r in rows <==> RowOf(es, Identity(r)) == Some(r)
    {
      if r in rows {
        var i :| 0 <= i < |rows| && rows[i] == r;
        assert seen[Identity(r)] == i;
      }
    }
  }

  lemma {:induction false} DistinctCounts(rows: seq<Alert>, r: Alert)
    requires Distinct(rows)
    ensures multiset(rows)[r] == if r in rows then 1 else 0
  {
    if rows != [] {
      var init, last := rows[..|rows| - 1], rows[|rows| - 1];
      assert rows == init + [last];
      DistinctCounts(init, r);
      assert forall i :: 0 <= i < |init| ==> init[i] == rows[i];
    }
  }

  /** Two listings of the same events give the same rows. */
  lemma RowsAreCanonical(
      a: seq<Alert>, ra: seq<Alert>, sa: map<string, nat>, b: seq<Alert>, rb: seq<Alert>, sb: map<string, nat>)
    requires SameEvents(a, b) && Faithful(a) && (forall k :: OneMessage(a, k))
    requires Aggregated(a, ra, sa) && Aggregated(b, rb, sb)
    ensures multiset(ra) == multiset(rb)
  {
    AggregatedIsDistinct(a, ra, sa);
    AggregatedIsDistinct(b, rb, sb);
    forall r
      ensures multiset(ra)[r] == multiset(rb)[r]
    {
      OrderFreeExactly(a, Identity(r));
      assert r in ra <==> r in rb;
      DistinctCounts(ra, r);
      DistinctCounts(rb, r);
    }
  }

  // ---- sorting ----------------------------------------------------------------------------------

  ghost predicate Sorted<T(!new)>(s: seq<T>, less: (T, T) -> bool) {
    forall i, j :: 0 <= i < j < |s| ==> !less(s[j], s[i])
  }

  /** A comparison a sort may be given: irreflexive, transitive, and "neither comes first" is transitive too. */
  ghost predicate WeakOrder<T(!new)>(less: (T, T) -> bool) {
    (forall x :: !less(x, x)) &&
    (forall x, y, z :: less(x, y) && !less(z, y) ==> less(x, z))
  }

  ghost predicate Tied<T(!new)>(less: (T, T) -> bool, x: T, y: T) { !less(x, y) && !less(y, x) }

  ghost predicate NoTies<T(!new)>(s: seq<T>, less: (T, T) -> bool) {
    forall i, j :: 0 <= i < |s| && 0 <= j < |s| && Tied(less, s[i], s[j]) ==> s[i] == s[j]
  }

  lemma {:induction false} SortIsCanonical<T(!new)>(s: seq<T>, t: seq<T>, less: (T, T) -> bool)
    requires WeakOrder(less) && Sorted(s, less) && Sorted(t, less) && multiset(s) == multiset(t) && NoTies(s, less)
    ensures s == t
    decreases |s|
  {
    SameSize(s, t);
    if s != [] {
      HeadsTie(s, t, less);
      TailsAgree(s, t);
      SortIsCanonical(s[1..], t[1..], less);
      assert s == [s[0]] + s[1..] && t == [t[0]] + t[1..];
    }
  }

  lemma SameSize<T>(s: seq<T>, t: seq<T>)
    requires multiset(s) == multiset(t)
    ensures |s| == |t|
  {
    assert |multiset(s)| == |s| && |multiset(t)| == |t|;
  }

  lemma HeadsTie<T(!new)>(s: seq<T>, t: seq<T>, less: (T, T) -> bool)
    requires WeakOrder(less) && Sorted(s, less) && Sorted(t, less) && multiset(s) == multiset(t) && NoTies(s, less)
    requires s != [] && t != []
    ensures s[0] == t[0]
  {
    assert t[0] in multiset(t) && s[0] in multiset(s);
    var i :| 0 <= i < |s| && s[i] == t[0];
    var j :| 0 <= j < |t| && t[j] == s[0];
    assert Tied(less, s[0], s[i]);
  }

  lemma TailsAgree<T>(s: seq<T>, t: seq<T>)
    requires s != [] && t != [] && s[0] == t[0] && multiset(s) == multiset(t)
    ensures multiset(s[1..]) == multiset(t[1..])
  {
    assert s == [s[0]] + s[1..] && t == [t[0]] + t[1..];
    assert multiset(s[1..]) == multiset(s) - multiset{s[0]};
    assert multiset(t[1..]) == multiset(t) - multiset{t[0]};
  }

  lemma SwapTied<T(!new)>(s: seq<T>, less: (T, T) -> bool, i: nat, j: nat) returns (t: seq<T>)
    requires WeakOrder(less) && Sorted(s, less) && i < j < |s| && Tied(less, s[i], s[j]) && s[i] != s[j]
    ensures Sorted(t, less) && multiset(t) == multiset(s) && t != s
  {
    t := s[i := s[j]][j := s[i]];
    assert t[i] != s[i];
    forall p, q | 0 <= p < q < |t|
      ensures !less(t[q], t[p])
    {
      assert i <= p ==> !less(s[p], s[i]);
      assert q <= j ==> !less(s[j], s[q]);
      assert p < q;
    }
  }

  lemma OtherArrangement<T(!new)>(s: seq<T>, less: (T, T) -> bool) returns (t: seq<T>)
    requires WeakOrder(less) && Sorted(s, less) && !NoTies(s, less)
    ensures Sorted(t, less) && multiset(t) == multiset(s) && t != s
  {
    var i, j :| 0 <= i < |s| && 0 <= j < |s| && Tied(less, s[i], s[j]) && s[i] != s[j];
    t := SwapTied(s, less, if i < j then i else j, if i < j then j else i);
  }

  /** A sorted list is the only sorted arrangement of its rows exactly when no two different rows tie. */
  lemma CanonicalExactly<T(!new)>(s: seq<T>, less: (T, T) -> bool)
    requires WeakOrder(less) && Sorted(s, less)
    ensures NoTies(s, less) <==> forall t :: Sorted(t, less) && multiset(t) == multiset(s) ==> t == s
  {
    if NoTies(s, less) {
      forall t | Sorted(t, less) && multiset(t) == multiset(s)
        ensures t == s
      {
        SortIsCanonical(s, t, less);
      }
    } else {
      var t := OtherArrangement(s, less);
    }
  }

  function SortText(a: Alert): string { a.ns + Object(a) + a.reason }

  predicate NewerFirst(a: Alert, b: Alert) {
    if a.lastSeen != b.lastSeen then Less(b.lastSeen, a.lastSeen) else Less(SortText(a), SortText(b))
  }

  lemma NewerFirstIsWeakOrder()
    ensures WeakOrder(NewerFirst)
  {
    forall x: Alert
      ensures !NewerFirst(x, x)
    {
      LessIsTotal(SortText(x), SortText(x));
    }
    forall x: Alert, y: Alert, z: Alert | NewerFirst(x, y) && !NewerFirst(z, y)
      ensures NewerFirst(x, z)
    {
      NegativelyTransitive(y.lastSeen, x.lastSeen, z.lastSeen);
      NegativelyTransitive(SortText(x), SortText(y), SortText(z));
    }
  }

  lemma NegativelyTransitive(a: string, b: string, c: string)
    ensures Less(a, b) && !Less(c, b) ==> Less(a, c)
    ensures Less(a, b) && !Less(a, c) ==> Less(c, b)
    ensures a == b <==> !Less(a, b) && !Less(b, a)
    ensures !(Less(a, b) && Less(b, a))
    ensures b == c <==> !Less(b, c) && !Less(c, b)
    ensures a == c <==> !Less(a, c) && !Less(c, a)
  {
    LessIsTotal(a, b);
    LessIsTotal(b, c);
    LessIsTotal(a, c);
    if Less(a, b) && Less(b, c) {
      LessIsTransitive(a, b, c);
    }
    if Less(c, a) && Less(a, b) {
      LessIsTransitive(c, a, b);
    }
  }

  // ---- names that decide -------------------------------------------------------------------------

  predicate Upper(c: char) { 'A' <= c <= 'Z' }

  predicate NoUpper(s: string) { forall i :: 0 <= i < |s| ==> !Upper(s[i]) }

  predicate UpperHead(s: string) { s == "" || Upper(s[0]) }

  /** API names have no capitals and no slash; kinds and reasons start with a capital. */
  predicate Shaped(a: Alert) {
    NoUpper(a.ns) && NoUpper(a.name) && UpperHead(a.kind) && a.kind != "" && UpperHead(a.reason) &&
    Free(a.ns, '/') && Free(a.kind, '/') && Free(a.name, '/')
  }

  lemma UpperDecides(p: string, x: string, q: string, y: string)
    requires NoUpper(p) && NoUpper(q) && UpperHead(x) && UpperHead(y) && p + x == q + y
    ensures p == q && x == y
  {
    var s := p + x;
    assert forall i :: 0 <= i < |p| ==> s[i] == p[i];
    assert forall i :: 0 <= i < |q| ==> s[i] == q[i];
    assert x != "" ==> s[|p|] == x[0];
    assert y != "" ==> s[|q|] == y[0];
    assert |p| == |q|;
    assert p == s[..|p|] && q == s[..|q|] && x == s[|p|..] && y == s[|q|..];
  }

  lemma IdentityDecides(a: Alert, b: Alert)
    requires Shaped(a) && Shaped(b) && Identity(a) == Identity(b)
    ensures SameNames(a, b)
  {
    var ra, rb := a.name + ['/'] + a.reason, b.name + ['/'] + b.reason;
    var oa, ob := a.kind + ['/'] + ra, b.kind + ['/'] + rb;
    assert Identity(a) == a.ns + ['/'] + oa && Identity(b) == b.ns + ['/'] + ob;
    SplitFirst('/', a.ns, oa, b.ns, ob);
    SplitFirst('/', a.kind, ra, b.kind, rb);
    SplitFirst('/', a.name, a.reason, b.name, b.reason);
  }

  lemma SortTextDecides(a: Alert, b: Alert)
    requires Shaped(a) && Shaped(b) && SortText(a) == SortText(b)
    ensures SameNames(a, b)
  {
    var ra, rb := a.name + a.reason, b.name + b.reason;
    var oa, ob := a.kind + ['/'] + ra, b.kind + ['/'] + rb;
    assert SortText(a) == a.ns + oa && SortText(b) == b.ns + ob;
    UpperDecides(a.ns, oa, b.ns, ob);
    SplitFirst('/', a.kind, ra, b.kind, rb);
    UpperDecides(a.name, a.reason, b.name, b.reason);
  }

  ghost predicate AllShaped(es: seq<Alert>) { forall e :: e in es ==> Shaped(e) }

  lemma ShapedIsFaithful(es: seq<Alert>)
    requires AllShaped(es)
    ensures Faithful(es)
  {
    forall e, f | e in es && f in es && Identity(e) == Identity(f)
      ensures SameNames(e, f)
    {
      IdentityDecides(e, f);
    }
  }

  lemma ShapedRowsDoNotTie(rows: seq<Alert>, shown: seq<Alert>)
    requires AllShaped(rows) && Distinct(rows) && multiset(shown) == multiset(rows)
    ensures NoTies(shown, NewerFirst)
  {
    SameEventsSameMembers(shown, rows);
    forall i, j | 0 <= i < |shown| && 0 <= j < |shown| && Tied(NewerFirst, shown[i], shown[j])
      ensures shown[i] == shown[j]
    {
      var a, b := shown[i], shown[j];
      assert a in rows && b in rows;
      LessIsTotal(a.lastSeen, b.lastSeen);
      LessIsTotal(SortText(a), SortText(b));
      SortTextDecides(a, b);
    }
  }

  lemma RowsAreShaped(es: seq<Alert>, rows: seq<Alert>, seen: map<string, nat>)
    requires AllShaped(es) && Aggregated(es, rows, seen)
    ensures AllShaped(rows)
  {
    AggregatedIsDistinct(es, rows, seen);
    forall r | r in rows
      ensures Shaped(r)
    {
      var f := RowFirst(es, Identity(r));
    }
  }

  /** Two listings of the same events end in the same sorted rows, whatever the sort does with ties. */
  lemma AlertsAreCanonical(
      a: seq<Alert>, ra: seq<Alert>, sa: map<string, nat>, b: seq<Alert>, rb: seq<Alert>, sb: map<string, nat>,
                           shownA: seq<Alert>, shownB: seq<Alert>)
    requires SameEvents(a, b) && AllShaped(a) && (forall k :: OneMessage(a, k))
    requires Aggregated(a, ra, sa) && Aggregated(b, rb, sb)
    requires Sorted(shownA, NewerFirst) && multiset(shownA) == multiset(ra)
    requires Sorted(shownB, NewerFirst) && multiset(shownB) == multiset(rb)
    ensures shownA == shownB
  {
    ShapedIsFaithful(a);
    RowsAreCanonical(a, ra, sa, b, rb, sb);
    AggregatedIsDistinct(a, ra, sa);
    RowsAreShaped(a, ra, sa);
    ShapedRowsDoNotTie(ra, shownA);
    NewerFirstIsWeakOrder();
    SortIsCanonical(shownA, shownB, NewerFirst);
  }

  /** Without the naming rules two different rows can tie, so the concatenated sort key alone does not order them. */
  lemma TextCanTie(message: string, lastSeen: string)
    ensures var a := Alert("a", "b", "c", "d", message, 1, lastSeen);
      var b := Alert("ab", "", "c", "d", message, 1, lastSeen);
      Identity(a) != Identity(b)
    ensures var a := Alert("a", "b", "c", "d", message, 1, lastSeen);
      var b := Alert("ab", "", "c", "d", message, 1, lastSeen);
      Tied(NewerFirst, a, b)
  {
    var a, b := Alert("a", "b", "c", "d", message, 1, lastSeen), Alert("ab", "", "c", "d", message, 1, lastSeen);
    assert Identity(a)[1] != Identity(b)[1];
    assert SortText(a) == "ab/cd" == SortText(b);
    LessIsTotal(SortText(a), SortText(b));
  }

  // ---- the frame -----------------------------------------------------------------------------------

  ghost predicate UniqueKeys<T(!new)>(s: seq<T>, key: T -> string) {
    forall i, j :: 0 <= i < |s| && 0 <= j < |s| && key(s[i]) == key(s[j]) ==> s[i] == s[j]
  }

  ghost predicate SortedBy<T(!new)>(s: seq<T>, key: T -> string) {
    forall i, j :: 0 <= i < j < |s| ==> !Less(key(s[j]), key(s[i]))
  }

  /** Lists of objects sorted by name: unique keys leave one arrangement. */
  lemma NamedListIsCanonical<T(!new)>(s: seq<T>, t: seq<T>, key: T -> string)
    requires multiset(s) == multiset(t) && UniqueKeys(s, key) && SortedBy(s, key) && SortedBy(t, key)
    ensures s == t
  {
    var less := (x: T, y: T) => Less(key(x), key(y));
    forall x: T
      ensures !less(x, x)
    {
      LessIsTotal(key(x), key(x));
    }
    forall x: T, y: T, z: T | less(x, y) && !less(z, y)
      ensures less(x, z)
    {
      NegativelyTransitive(key(x), key(y), key(z));
    }
    forall i, j | 0 <= i < |s| && 0 <= j < |s| && Tied(less, s[i], s[j])
      ensures s[i] == s[j]
    {
      LessIsTotal(key(s[i]), key(s[j]));
    }
    SortIsCanonical(s, t, less);
  }

  /** Failing disks lead, then at most a hundred rows. */
  function Feed(smart: seq<Alert>, shown: seq<Alert>): (feed: seq<Alert>) {
    smart + if |shown| > 100 then shown[..100] else shown
  }

  /** The cap only drops rows no newer than every one it keeps. */
  lemma CapKeepsNewest(shown: seq<Alert>, i: nat, j: nat)
    requires Sorted(shown, NewerFirst) && i < 100 <= j < |shown|
    ensures |Feed([], shown)| == 100 && Feed([], shown)[i] == shown[i] && !Less(shown[i].lastSeen, shown[j].lastSeen)
  {
    assert !NewerFirst(shown[j], shown[i]);
    LessIsTotal(shown[i].lastSeen, shown[j].lastSeen);
  }

  /** The whole alert feed depends only on which events and failing disks there are. */
  lemma FeedIsCanonical(
      a: seq<Alert>, ra: seq<Alert>, sa: map<string, nat>, b: seq<Alert>, rb: seq<Alert>, sb: map<string, nat>,
                        shownA: seq<Alert>, shownB: seq<Alert>, smartA: seq<Alert>, smartB: seq<Alert>)
    requires SameEvents(a, b) && AllShaped(a) && (forall k :: OneMessage(a, k))
    requires Aggregated(a, ra, sa) && Aggregated(b, rb, sb)
    requires Sorted(shownA, NewerFirst) && multiset(shownA) == multiset(ra)
    requires Sorted(shownB, NewerFirst) && multiset(shownB) == multiset(rb)
    requires multiset(smartA) == multiset(smartB) && UniqueKeys(smartA, Object) && SortedBy(smartA, Object)
    requires SortedBy(smartB, Object)
    ensures Feed(smartA, shownA) == Feed(smartB, shownB)
  {
    AlertsAreCanonical(a, ra, sa, b, rb, sb, shownA, shownB);
    NamedListIsCanonical(smartA, smartB, Object);
  }
}
