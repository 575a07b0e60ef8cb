/** The two sorts the program uses: names in string order, and a stable sort by number. */
module Sorting {
  import opened Basics
  import Utf8

  // ----- String order: strings compare as their UTF-8 bytes -----

  predicate BytesLe(a: Bytes, b: Bytes) {
    a == [] || (b != [] && (a[0] < b[0] || (a[0] == b[0] && BytesLe(a[1..], b[1..]))))
  }

  lemma {:induction false} BytesLeTotal(a: Bytes, b: Bytes)
    ensures BytesLe(a, b) || BytesLe(b, a)
    ensures BytesLe(a, b) && BytesLe(b, a) ==> a == b
  {
    if a != [] && b != [] {
      BytesLeTotal(a[1..], b[1..]);
      Rejoin(a);
      Rejoin(b);
    }
  }

  lemma {:induction false} BytesLeTransitive(a: Bytes, b: Bytes, c: Bytes)
    requires BytesLe(a, b) && BytesLe(b, c)
    ensures BytesLe(a, c)
  {
    if a != [] && a[0] == b[0] == c[0] {
      BytesLeTransitive(a[1..], b[1..], c[1..]);
    }
  }

  /** Where two byte strings first differ, the smaller byte decides; a prefix comes first. */
  lemma {:induction false} BytesOrder(a: Bytes, b: Bytes, i: nat)
    requires i <= |a| && i <= |b| && a[..i] == b[..i]
    requires i == |a| || (i < |b| && a[i] < b[i])
    ensures BytesLe(a, b) && (a != b ==> !BytesLe(b, a))
  {
    if i > 0 {
      assert a[0] == a[..i][0] == b[..i][0] == b[0];
      assert a[1..][..i - 1] == a[..i][1..] == b[..i][1..] == b[1..][..i - 1];
      BytesOrder(a[1..], b[1..], i - 1);
      Rejoin(a);
      Rejoin(b);
    }
  }

  predicate NameLe(a: string, b: string) { BytesLe(Utf8.Encode(a), Utf8.Encode(b)) }

  predicate NameLt(a: string, b: string) { NameLe(a, b) && a != b }

  lemma NameLeTotal(a: string, b: string)
    ensures NameLe(a, b) || NameLe(b, a)
    ensures NameLe(a, b) && NameLe(b, a) ==> a == b
  {
    BytesLeTotal(Utf8.Encode(a), Utf8.Encode(b));
    Utf8.DecodeEncode(a);
    Utf8.DecodeEncode(b);
  }

  lemma NameLtTransitive(a: string, b: string, c: string)
    requires NameLe(a, b) && NameLe(b, c)
    ensures NameLe(a, c)
    ensures a != b || b != c ==> NameLt(a, c)
  {
    BytesLeTransitive(Utf8.Encode(a), Utf8.Encode(b), Utf8.Encode(c));
    NameLeTotal(a, b);
    NameLeTotal(b, c);
  }

  // ----- Sorting names -----

  predicate StrictlySorted(s: seq<string>) { forall i, j | 0 <= i < j < |s| :: NameLt(s[i], s[j]) }

  predicate Distinct<T(==)>(s: seq<T>) { forall i, j | 0 <= i < j < |s| :: s[i] != s[j] }

  /** A listing of a set, as a hash map or a directory yields it: every element once, in any order. */
  ghost predicate Lists<T(!new)>(listing: seq<T>, elements: set<T>) {
    Distinct(listing) && forall x :: x in listing <==> x in elements
  }

  function InsertName(x: string, s: seq<string>): seq<string> {
    if s == [] then [x] else if NameLe(x, s[0]) then [x] + s else [s[0]] + InsertName(x, s[1..])
  }

  function SortNames(s: seq<string>): seq<string> {
    if s == [] then [] else InsertName(s[0], SortNames(s[1..]))
  }

  lemma {:induction false} InsertNameElements(x: string, s: seq<string>, y: string)
    ensures y in InsertName(x, s) <==> y == x || y in s
  {
    if s != [] && !NameLe(x, s[0]) {
      InsertNameElements(x, s[1..], y);
      Rejoin(s);
    }
  }

  lemma {:induction false} InsertNameSorted(x: string, s: seq<string>)
    requires StrictlySorted(s) && x !in s
    ensures StrictlySorted(InsertName(x, s))
  {
    if s != [] {
      NameLeTotal(x, s[0]);
      if NameLe(x, s[0]) {
        forall j | 0 < j < |s|
          ensures NameLt(x, s[j])
        {
          NameLtTransitive(x, s[0], s[j]);
        }
      } else {
        var rest := InsertName(x, s[1..]);
        InsertNameSorted(x, s[1..]);
        forall j | 0 <= j < |rest|
          ensures NameLt(s[0], rest[j])
        {
          InsertNameElements(x, s[1..], rest[j]);
          if rest[j] != x {
            var k :| 0 <= k < |s[1..]| && s[1..][k] == rest[j];
            assert NameLt(s[0], s[k + 1]);
          }
        }
      }
    }
  }

  lemma {:induction false} SortNamesElements(s: seq<string>, y: string)
    ensures y in SortNames(s) <==> y in s
  {
    if s != [] {
      SortNamesElements(s[1..], y);
      InsertNameElements(s[0], SortNames(s[1..]), y);
      Rejoin(s);
    }
  }

  lemma {:induction false} SortNamesSorted(s: seq<string>)
    requires Distinct(s)
    ensures StrictlySorted(SortNames(s))
  {
    if s != [] {
      assert forall i | 0 <= i < |s[1..]| :: s[1..][i] == s[i + 1];
      SortNamesSorted(s[1..]);
      SortNamesElements(s[1..], s[0]);
      InsertNameSorted(s[0], SortNames(s[1..]));
    }
  }

  /** A strictly sorted list is determined by its elements. */
  lemma {:induction false} SortedUnique(a: seq<string>, b: seq<string>)
    requires StrictlySorted(a) && StrictlySorted(b)
    requires forall x :: x in a <==> x in b
    ensures a == b
  {
    assert b != [] ==> b[0] in b;
    if a != [] {
      assert a[0] in a;
      assert b != [];
      FirstIsLeast(a, b[0]);
      FirstIsLeast(b, a[0]);
      NameLeTotal(a[0], b[0]);
      forall x
        ensures x in a[1..] <==> x in b[1..]
      {
        TailElements(a, x);
        TailElements(b, x);
      }
      SortedUnique(a[1..], b[1..]);
      Rejoin(a);
      Rejoin(b);
    }
  }

  lemma FirstIsLeast(a: seq<string>, x: string)
    requires StrictlySorted(a) && x in a
    ensures NameLe(a[0], x)
  {
    var k :| 0 <= k < |a| && a[k] == x;
    NameLeTotal(x, x);
    assert k > 0 ==> NameLt(a[0], a[k]);
  }

  lemma TailElements(a: seq<string>, x: string)
    requires StrictlySorted(a) && a != []
    ensures x in a[1..] <==> x in a && x != a[0]
  {
    Rejoin(a);
    assert forall k | 0 <= k < |a[1..]| :: NameLt(a[0], a[1..][k]);
  }

  /** The order in which distinct names arrive does not matter. */
  lemma ArrivalIrrelevant(a: seq<string>, b: seq<string>)
    requires Distinct(a) && Distinct(b) && forall x :: x in a <==> x in b
    ensures SortNames(a) == SortNames(b)
  {
    SortNamesSorted(a);
    SortNamesSorted(b);
    forall x
      ensures x in SortNames(a) <==> x in SortNames(b)
    {
      SortNamesElements(a, x);
      SortNamesElements(b, x);
    }
    SortedUnique(SortNames(a), SortNames(b));
  }

  // ----- Stable sorting by number -----

  type Keyed<X> = (nat, X)

  predicate Ascending<X>(s: seq<Keyed<X>>) { forall i, j | 0 <= i < j < |s| :: s[i].0 <= s[j].0 }

  function Insert<X>(x: Keyed<X>, s: seq<Keyed<X>>): seq<Keyed<X>> {
    if s == [] then [x] else if x.0 <= s[0].0 then [x] + s else [s[0]] + Insert(x, s[1..])
  }

  function SortByKey<X>(s: seq<Keyed<X>>): seq<Keyed<X>> {
    if s == [] then [] else Insert(s[0], SortByKey(s[1..]))
  }

  /** The entries with one key, in order. */
  function WithKey<X>(s: seq<Keyed<X>>, k: nat): seq<Keyed<X>> {
    if s == [] then [] else (if s[0].0 == k then [s[0]] else []) + WithKey(s[1..], k)
  }

  lemma {:induction false} InsertKey<X>(x: Keyed<X>, s: seq<Keyed<X>>, k: nat)
    requires Ascending(s)
    ensures WithKey(Insert(x, s), k) == (if x.0 == k then [x] else []) + WithKey(s, k)
  {
    if s == [] {
      assert [x][1..] == [];
    } else if x.0 <= s[0].0 {
      SplitAt([x], s);
    } else {
      InsertKey(x, s[1..], k);
      SplitAt([s[0]], Insert(x, s[1..]));
      BehindSmaller(x, s, k);
    }
  }

  lemma BehindSmaller<X>(x: Keyed<X>, s: seq<Keyed<X>>, k: nat)
    requires s != [] && x.0 > s[0].0
    ensures var front, own := if s[0].0 == k then [s[0]] else [], if x.0 == k then [x] else [];
            front + (own + WithKey(s[1..], k)) == own + WithKey(s, k)
  {
    if x.0 == k {
      NoSmallerKey(s, k);
      EmptySides([x] + WithKey(s[1..], k));
    } else {
      EmptySides(WithKey(s[1..], k));
      EmptySides(WithKey(s, k));
    }
  }

  lemma NoSmallerKey<X>(s: seq<Keyed<X>>, k: nat)
    requires s != [] && k > s[0].0
    ensures WithKey(s, k) == WithKey(s[1..], k)
  {
    EmptySides(WithKey(s[1..], k));
  }

  lemma {:induction false} InsertAscending<X>(x: Keyed<X>, s: seq<Keyed<X>>)
    requires Ascending(s)
    ensures Ascending(Insert(x, s))
    ensures forall y | y in Insert(x, s) :: y == x || y in s
  {
    if s != [] && x.0 > s[0].0 {
      var rest := Insert(x, s[1..]);
      InsertAscending(x, s[1..]);
      forall j | 0 <= j < |rest|
        ensures s[0].0 <= rest[j].0
      {
        assert rest[j] in rest;
        if rest[j] != x {
          var k :| 0 <= k < |s[1..]| && s[1..][k] == rest[j];
          assert s[k + 1] == rest[j];
        }
      }
    }
  }

  /** Ascending, and stable: equal keys keep their order. */
  lemma {:induction false} SortByKeyStable<X>(s: seq<Keyed<X>>)
    ensures Ascending(SortByKey(s))
    ensures forall k :: WithKey(SortByKey(s), k) == WithKey(s, k)
  {
    if s != [] {
      SortByKeyStable(s[1..]);
      InsertAscending(s[0], SortByKey(s[1..]));
      forall k
        ensures WithKey(SortByKey(s), k) == WithKey(s, k)
      {
        InsertKey(s[0], SortByKey(s[1..]), k);
      }
    }
  }

  lemma {:induction false} InsertElements<X>(x: Keyed<X>, s: seq<Keyed<X>>, y: Keyed<X>)
    ensures y in Insert(x, s) <==> y == x || y in s
  {
    if s != [] && x.0 > s[0].0 {
      InsertElements(x, s[1..], y);
      Rejoin(s);
    }
  }

  lemma {:induction false} SortElements<X>(s: seq<Keyed<X>>, y: Keyed<X>)
    ensures y in SortByKey(s) <==> y in s
  {
    if s != [] {
      SortElements(s[1..], y);
      InsertElements(s[0], SortByKey(s[1..]), y);
      Rejoin(s);
    }
  }

  lemma {:induction false} InsertDistinct<X>(x: Keyed<X>, s: seq<Keyed<X>>)
    requires Distinct(s) && x !in s
    ensures Distinct(Insert(x, s))
  {
    if s != [] && x.0 > s[0].0 {
      assert forall i | 0 <= i < |s[1..]| :: s[1..][i] == s[i + 1];
      InsertDistinct(x, s[1..]);
      InsertElements(x, s[1..], s[0]);
    }
  }

  lemma {:induction false} SortDistinct<X>(s: seq<Keyed<X>>)
    requires Distinct(s)
    ensures Distinct(SortByKey(s))
  {
    if s != [] {
      assert forall i | 0 <= i < |s[1..]| :: s[1..][i] == s[i + 1];
      SortDistinct(s[1..]);
      SortElements(s[1..], s[0]);
      InsertDistinct(s[0], SortByKey(s[1..]));
    }
  }

  /** An ascending list is its own sort. */
  lemma {:induction false} AscendingStays<X>(s: seq<Keyed<X>>)
    requires Ascending(s)
    ensures SortByKey(s) == s
  {
    if s != [] {
      AscendingStays(s[1..]);
      Rejoin(s);
    }
  }

  predicate HasKey<X>(s: seq<Keyed<X>>, k: nat) { exists i :: 0 <= i < |s| && s[i].0 == k }

  lemma {:induction false} KeyPresent<X>(s: seq<Keyed<X>>, k: nat)
    ensures WithKey(s, k) != [] <==> HasKey(s, k)
  {
    if s != [] {
      KeyPresent(s[1..], k);
      if HasKey(s, k) {
        var i :| 0 <= i < |s| && s[i].0 == k;
        assert i > 0 ==> s[1..][i - 1].0 == k;
      }
      if HasKey(s[1..], k) {
        var i :| 0 <= i < |s[1..]| && s[1..][i].0 == k;
        assert s[i + 1].0 == k;
      }
    }
  }

  lemma FirstKeyPresent<X>(a: seq<Keyed<X>>, b: seq<Keyed<X>>)
    requires a != [] && forall k :: WithKey(a, k) == WithKey(b, k)
    ensures b != [] && HasKey(b, a[0].0)
  {
    assert HasKey(a, a[0].0);
    KeyPresent(a, a[0].0);
    KeyPresent(b, a[0].0);
  }

  lemma FirstKeyLeast<X>(a: seq<Keyed<X>>, b: seq<Keyed<X>>)
    requires Ascending(a) && a != [] && forall k :: WithKey(a, k) == WithKey(b, k)
    ensures b != [] && a[0].0 <= b[0].0
  {
    FirstKeyPresent(a, b);
    FirstKeyPresent(b, a);
    var i :| 0 <= i < |a| && a[i].0 == b[0].0;
  }

  /** Nothing but this sort is ascending and stable. */
  lemma {:induction false} StableSortUnique<X>(a: seq<Keyed<X>>, b: seq<Keyed<X>>)
    requires Ascending(a) && Ascending(b)
    requires forall k :: WithKey(a, k) == WithKey(b, k)
    ensures a == b
  {
    if b != [] {
      FirstKeyLeast(b, a);
    }
    if a != [] {
      FirstKeyLeast(a, b);
      SplitAt([a[0]], WithKey(a[1..], a[0].0));
      SplitAt([b[0]], WithKey(b[1..], a[0].0));
      assert WithKey(a, a[0].0)[0] == a[0] && WithKey(b, a[0].0)[0] == b[0];
      forall k
        ensures WithKey(a[1..], k) == WithKey(b[1..], k)
      {
        assert WithKey(a, k) == WithKey(b, k);
        if k != a[0].0 {
          EmptySides(WithKey(a[1..], k));
          EmptySides(WithKey(b[1..], k));
        } else {
          SplitAt([a[0]], WithKey(a[1..], k));
          SplitAt([b[0]], WithKey(b[1..], k));
        }
      }
      StableSortUnique(a[1..], b[1..]);
      Rejoin(a);
      Rejoin(b);
    }
  }
}
