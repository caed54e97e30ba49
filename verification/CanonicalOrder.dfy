// The order the canonical form gives the members of one object.

module CanonicalOrder {
  import opened CanonicalJson

  ghost predicate SortedBy(ms: seq<Member>, place: Member -> int) {
    forall i, j :: 0 <= i < j < |ms| ==> place(ms[i]) <= place(ms[j])
  }

  // ---- sorting ----

  lemma LastOfTwo(a: seq<Member>, b: seq<Member>)
    requires b != []
    ensures b == b[..|b| - 1] + [b[|b| - 1]] && a + b == a + b[..|b| - 1] + [b[|b| - 1]]
  {
  }

  lemma PlaceInSorted(ms: seq<Member>, place: Member -> int, m: Member)
    requires SortedBy(ms, place)
    ensures forall i :: 0 <= i < PlaceIn(ms, place, m) ==> place(ms[i]) <= place(m)
    ensures SortedBy(Insert(ms, place, m), place)
  {
    var p := PlaceIn(ms, place, m);
    hide PlaceIn;
    forall i | 0 <= i < p ensures place(ms[i]) <= place(m) {
      assert place(ms[i]) <= place(ms[p - 1]);
    }
    var longer := ms[..p] + [m] + ms[p..];
    assert forall i :: 0 <= i < |longer| ==> longer[i] == if i < p then ms[i] else if i == p then m else ms[i - 1];
    forall i, j | 0 <= i < j < |longer| ensures place(longer[i]) <= place(longer[j]) {
      assert i != p && j != p ==> place(ms[if i < p then i else i - 1]) <= place(ms[if j < p then j else j - 1]);
    }
  }

  lemma {:induction false} SortSorts(ms: seq<Member>, place: Member -> int)
    ensures SortedBy(StableSort(ms, place), place)
  {
    if ms != [] {
      SortSorts(ms[..|ms| - 1], place);
      PlaceInSorted(StableSort(ms[..|ms| - 1], place), place, ms[|ms| - 1]);
    }
  }

  lemma InsertKeeps(s: seq<Member>, place: Member -> int, m: Member)
    ensures multiset(Insert(s, place, m)) == multiset(s) + multiset{m} && |Insert(s, place, m)| == |s| + 1
  {
    hide PlaceIn;
    var p := PlaceIn(s, place, m);
    assert s == s[..p] + s[p..];
  }

  lemma SameCounts(a: seq<Member>, b: seq<Member>)
    requires multiset(a) == multiset(b)
    ensures forall m: Member :: m in a <==> m in b
  {
    forall m ensures m in a <==> m in b {
      assert m in a <==> m in multiset(a);
      assert m in b <==> m in multiset(b);
    }
  }

  lemma {:induction false} SortCounts(ms: seq<Member>, place: Member -> int)
    ensures multiset(StableSort(ms, place)) == multiset(ms) && |StableSort(ms, place)| == |ms|
  {
    if ms != [] {
      var before, last := ms[..|ms| - 1], ms[|ms| - 1];
      SortCounts(before, place);
      hide Insert;
      InsertKeeps(StableSort(before, place), place, last);
      assert ms == before + [last];
    }
  }

  lemma SortIsPermutation(ms: seq<Member>, place: Member -> int)
    ensures multiset(StableSort(ms, place)) == multiset(ms) && |StableSort(ms, place)| == |ms|
    ensures forall m: Member :: m in StableSort(ms, place) <==> m in ms
  {
    SortCounts(ms, place);
    SameCounts(StableSort(ms, place), ms);
  }

  lemma InsertLast(s: seq<Member>, place: Member -> int, m: Member)
    requires s != [] ==> place(s[|s| - 1]) <= place(m)
    ensures Insert(s, place, m) == s + [m]
  {
  }

  lemma {:induction false} SortedStays(ms: seq<Member>, place: Member -> int)
    requires SortedBy(ms, place)
    ensures StableSort(ms, place) == ms
  {
    hide Insert;
    if ms != [] {
      SortedStays(ms[..|ms| - 1], place);
      InsertLast(ms[..|ms| - 1], place, ms[|ms| - 1]);
      assert ms[..|ms| - 1] + [ms[|ms| - 1]] == ms;
    }
  }

  lemma {:induction false} PlaceIsUnique(ms: seq<Member>, place: Member -> int, m: Member, p: nat)
    requires p <= |ms|
    requires forall i :: 0 <= i < p ==> place(ms[i]) <= place(m)
    requires forall i :: p <= i < |ms| ==> place(ms[i]) > place(m)
    ensures PlaceIn(ms, place, m) == p
  {
    if p < |ms| {
      PlaceIsUnique(ms[..|ms| - 1], place, m, p);
    }
  }

  // ---- indices and names ----

  function NameOf(m: Member): seq<Member> { if m.key.Name? then [m] else [] }
  function IndexOf(m: Member): seq<Member> { if m.key.Index? then [m] else [] }

  lemma PartsOfOne(ms: seq<Member>, m: Member)
    ensures Names(ms + [m]) == Names(ms) + NameOf(m) && Indices(ms + [m]) == Indices(ms) + IndexOf(m)
  {
    assert (ms + [m])[..|ms|] == ms;
  }

  lemma {:induction false} PartsOfTwo(a: seq<Member>, b: seq<Member>)
    ensures Names(a + b) == Names(a) + Names(b)
    ensures Indices(a + b) == Indices(a) + Indices(b)
  {
    if b == [] {
      assert a + b == a;
    } else {
      hide Names, Indices;
      var b', x := b[..|b| - 1], b[|b| - 1];
      PartsOfTwo(a, b');
      PartsOfOne(a + b', x);
      PartsOfOne(b', x);
      LastOfTwo(a, b);
    }
  }

  lemma {:induction false} PartsOf(ms: seq<Member>)
    ensures forall m: Member :: m in Names(ms) <==> m in ms && m.key.Name?
    ensures forall m: Member :: m in Indices(ms) <==> m in ms && m.key.Index?
    ensures |Names(ms)| + |Indices(ms)| == |ms|
  {
    if ms != [] {
      hide Names, Indices;
      var before, last := ms[..|ms| - 1], ms[|ms| - 1];
      PartsOf(before);
      PartsOfOne(before, last);
      assert ms == before + [last];
    }
  }

  lemma {:induction false} OnlyNames(ms: seq<Member>)
    requires forall m: Member :: m in ms ==> m.key.Name?
    ensures Names(ms) == ms && Indices(ms) == []
  {
    if ms != [] {
      hide Names, Indices;
      OnlyNames(ms[..|ms| - 1]);
      PartsOfOne(ms[..|ms| - 1], ms[|ms| - 1]);
      LastOfTwo([], ms);
    }
  }

  lemma {:induction false} OnlyIndices(ms: seq<Member>)
    requires forall m: Member :: m in ms ==> m.key.Index?
    ensures Names(ms) == [] && Indices(ms) == ms
  {
    if ms != [] {
      hide Names, Indices;
      OnlyIndices(ms[..|ms| - 1]);
      PartsOfOne(ms[..|ms| - 1], ms[|ms| - 1]);
      LastOfTwo([], ms);
    }
  }

  lemma {:induction false} NamesStaySorted(ms: seq<Member>, place: Member -> int)
    requires SortedBy(ms, place)
    ensures SortedBy(Names(ms), place)
  {
    if ms != [] {
      NamesStaySorted(ms[..|ms| - 1], place);
      PartsOf(ms[..|ms| - 1]);
      forall m | m in Names(ms[..|ms| - 1]) ensures place(m) <= place(ms[|ms| - 1]) {
        var i :| 0 <= i < |ms| - 1 && ms[i] == m;
      }
    }
  }

  lemma NamesOfSplit(a: seq<Member>, m: Member, b: seq<Member>)
    ensures Names(a + [m] + b) == Names(a) + NameOf(m) + Names(b) && Names(a + b) == Names(a) + Names(b)
  {
    PartsOfTwo(a + [m], b);
    PartsOfTwo(a, b);
    assert (a + [m])[..|a|] == a;
  }

  lemma PlaceInNames(a: seq<Member>, b: seq<Member>, place: Member -> int, m: Member)
    requires forall i :: 0 <= i < |a| ==> place(a[i]) <= place(m)
    requires forall i :: 0 <= i < |b| ==> place(b[i]) > place(m)
    ensures PlaceIn(Names(a) + Names(b), place, m) == |Names(a)|
  {
    PartsOf(a);
    PartsOf(b);
    var q, all := |Names(a)|, Names(a) + Names(b);
    forall i | 0 <= i < |all| ensures if i < q then place(all[i]) <= place(m) else place(all[i]) > place(m) {
      assert if i < q then all[i] in Names(a) else all[i] in Names(b);
    }
    PlaceIsUnique(all, place, m, q);
  }

  lemma NamesOfInsert(s: seq<Member>, place: Member -> int, m: Member)
    requires SortedBy(s, place)
    ensures Names(Insert(s, place, m)) == if m.key.Name? then Insert(Names(s), place, m) else Names(s)
  {
    hide Names, PlaceIn;
    var p := PlaceIn(s, place, m);
    PlaceInSorted(s, place, m);
    NamesOfSplit(s[..p], m, s[p..]);
    assert s == s[..p] + s[p..];
    PlaceInNames(s[..p], s[p..], place, m);
  }

  lemma {:induction false} NamesOfSort(ms: seq<Member>, place: Member -> int)
    ensures Names(StableSort(ms, place)) == StableSort(Names(ms), place)
  {
    hide Insert;
    if ms != [] {
      var before, last := ms[..|ms| - 1], ms[|ms| - 1];
      NamesOfSort(before, place);
      SortSorts(before, place);
      NamesOfInsert(StableSort(before, place), place, last);
      assert Names(ms) == Names(before) + NameOf(last);
      if last.key.Name? {
        assert Names(ms)[..|Names(ms)| - 1] == Names(before);
      } else {
        assert Names(ms) == Names(before);
      }
    }
  }

  // ---- the members stay ----

  lemma FromEntriesKeeps(ms: seq<Member>)
    ensures |FromEntries(ms)| == |ms| && forall m: Member :: m in FromEntries(ms) <==> m in ms
  {
    PartsOf(ms);
    SortIsPermutation(Indices(ms), ByIndex());
  }

  lemma ArrangeKeeps(ms: seq<Member>, rank: Collation)
    ensures |Arrange(ms, rank)| == |ms| && forall m: Member :: m in Arrange(ms, rank) <==> m in ms
  {
    SortIsPermutation(ms, ByCollation(rank));
    FromEntriesKeeps(StableSort(ms, ByCollation(rank)));
  }

  lemma AppendDistinct(ms: seq<Member>, m: Member)
    ensures DistinctKeys(ms + [m]) <==> DistinctKeys(ms) && m.key !in Keys(ms)
    ensures Keys(ms + [m]) == Keys(ms) + {m.key}
  {
    var longer := ms + [m];
    if DistinctKeys(longer) {
      forall i, j | 0 <= i < j < |ms| ensures ms[i].key != ms[j].key {
        assert longer[i] == ms[i] && longer[j] == ms[j];
      }
      forall n | n in ms ensures n.key != m.key {
        var i :| 0 <= i < |ms| && ms[i] == n;
        assert longer[i] == n && longer[|ms|] == m;
      }
    }
    if DistinctKeys(ms) && m.key !in Keys(ms) {
      forall i, j | 0 <= i < j < |longer| ensures longer[i].key != longer[j].key {
        assert longer[i] in ms;
      }
    }
  }

  lemma {:induction false} DistinctBySize(ms: seq<Member>)
    ensures |Keys(ms)| <= |ms| && (DistinctKeys(ms) <==> |Keys(ms)| == |ms|)
  {
    if ms == [] {
      assert Keys(ms) == {};
    } else {
      var before, last := ms[..|ms| - 1], ms[|ms| - 1];
      DistinctBySize(before);
      AppendDistinct(before, last);
      assert ms == before + [last];
      hide DistinctKeys, Keys;
      assert last.key in Keys(before) ==> Keys(before) + {last.key} == Keys(before);
    }
  }

  lemma SameMembersDistinct(ms: seq<Member>, ns: seq<Member>)
    requires DistinctKeys(ms) && |ms| == |ns| && forall m: Member :: m in ms <==> m in ns
    ensures DistinctKeys(ns)
  {
    DistinctBySize(ms);
    DistinctBySize(ns);
    assert Keys(ms) == Keys(ns);
  }

  // ---- one order only ----

  predicate Before(k: Key, l: Key, rank: Collation) {
    if k.Index? then l.Index? ==> k.n < l.n else l.Name? && rank(k) < rank(l)
  }

  ghost predicate Arranged(ms: seq<Member>, rank: Collation) {
    forall i, j :: 0 <= i < j < |ms| ==> Before(ms[i].key, ms[j].key, rank)
  }

  // Lists in strict order with the same members are the same list.
  lemma HasMember(a: seq<Member>)
    ensures a != [] <==> exists m: Member :: m in a
  {
    assert a != [] ==> a[0] in a;
  }

  lemma SameLast(a: seq<Member>, b: seq<Member>, rank: Collation)
    requires Arranged(a, rank) && Arranged(b, rank) && a != [] && b != [] && forall m: Member :: m in a <==> m in b
    ensures a[|a| - 1] == b[|b| - 1]
  {
    assert a[|a| - 1] in b && b[|b| - 1] in a;
    LastIsLast(a, b[|b| - 1], rank);
    LastIsLast(b, a[|a| - 1], rank);
  }

  lemma {:induction false} StrictOrderIsUnique(a: seq<Member>, b: seq<Member>, rank: Collation)
    requires Arranged(a, rank) && Arranged(b, rank) && forall m: Member :: m in a <==> m in b
    ensures a == b
  {
    if a == [] {
      HasMember(b);
    } else {
      HasMember(a);
      SameLast(a, b, rank);
      var a', b' := a[..|a| - 1], b[..|b| - 1];
      forall m ensures m in a' <==> m in b' {
        NotAgain(a, m, rank);
        NotAgain(b, m, rank);
      }
      StrictOrderIsUnique(a', b', rank);
      assert a == a' + [a[|a| - 1]] && b == b' + [b[|b| - 1]];
    }
  }

  lemma LastIsLast(a: seq<Member>, m: Member, rank: Collation)
    requires Arranged(a, rank) && m in a
    ensures m == a[|a| - 1] || Before(m.key, a[|a| - 1].key, rank)
  {
    var i :| 0 <= i < |a| && a[i] == m;
  }

  lemma NotAgain(a: seq<Member>, m: Member, rank: Collation)
    requires Arranged(a, rank) && a != []
    ensures m in a[..|a| - 1] <==> m in a && m != a[|a| - 1]
  {
    assert a == a[..|a| - 1] + [a[|a| - 1]];
    if m in a[..|a| - 1] {
      var i :| 0 <= i < |a| - 1 && a[i] == m;
      assert Before(a[i].key, a[|a| - 1].key, rank);
    }
  }

  lemma IndicesAreArranged(ms: seq<Member>, rank: Collation)
    requires DistinctKeys(ms) && forall m: Member :: m in ms ==> m.key.Index?
    ensures Arranged(StableSort(ms, ByIndex()), rank)
  {
    var sorted := StableSort(ms, ByIndex());
    SortSorts(ms, ByIndex());
    SortIsPermutation(ms, ByIndex());
    SameMembersDistinct(ms, sorted);
    forall i, j | 0 <= i < j < |sorted| ensures Before(sorted[i].key, sorted[j].key, rank) {
      assert sorted[i] in ms && sorted[j] in ms && sorted[i].key != sorted[j].key;
      assert ByIndex()(sorted[i]) <= ByIndex()(sorted[j]);
    }
  }

  lemma NamesAreArranged(ms: seq<Member>, rank: Collation)
    requires DistinctKeys(ms) && NoTies(ms, rank) && SortedBy(ms, ByCollation(rank)) && forall m: Member :: m in ms ==> m.key.Name?
    ensures Arranged(ms, rank)
  {
    forall i, j | 0 <= i < j < |ms| ensures Before(ms[i].key, ms[j].key, rank) {
      assert ms[i] in ms && ms[j] in ms && ms[i].key != ms[j].key;
      assert ByCollation(rank)(ms[i]) <= ByCollation(rank)(ms[j]);
    }
  }

  lemma FreshInParts(ms: seq<Member>, k: Key)
    requires k !in Keys(ms)
    ensures k !in Keys(Names(ms)) && k !in Keys(Indices(ms))
  {
    PartsOf(ms);
  }

  lemma {:induction false} PartsDistinct(ms: seq<Member>)
    requires DistinctKeys(ms)
    ensures DistinctKeys(Names(ms)) && DistinctKeys(Indices(ms))
  {
    if ms != [] {
      hide Keys;
      var before, last := ms[..|ms| - 1], ms[|ms| - 1];
      assert ms == before + [last];
      AppendDistinct(before, last);
      PartsDistinct(before);
      FreshInParts(before, last.key);
      AppendDistinct(Names(before), last);
      AppendDistinct(Indices(before), last);
      hide DistinctKeys;
      assert Names(ms) == if last.key.Name? then Names(before) + [last] else Names(before);
      assert Indices(ms) == if last.key.Index? then Indices(before) + [last] else Indices(before);
    }
  }

  // Without ties the arrangement is the strict order.
  lemma ArrangeIsStrict(ms: seq<Member>, rank: Collation)
    requires DistinctKeys(ms) && NoTies(ms, rank)
    ensures Arranged(Arrange(ms, rank), rank)
  {
    var first, second := ArrangedParts(ms, rank);
    ArrangeKeeps(ms, rank);
    forall m | m in second ensures m in ms {
      assert m in first + second;
    }
    assert second == (first + second)[|first|..];
    NamesAreArranged(second, rank);
    var both: seq<Member> := first + second;
    forall i, j | 0 <= i < j < |both| ensures Before(both[i].key, both[j].key, rank) {
      if i < |first| <= j {
        assert first[i] in first && second[j - |first|] in second;
      }
    }
  }

  // The sorted names come out of another sort as they went in.
  lemma NamesAgain(first: seq<Member>, second: seq<Member>, rank: Collation)
    requires (forall m: Member :: m in first ==> m.key.Index?) && (forall m: Member :: m in second ==> m.key.Name?)
    requires SortedBy(second, ByCollation(rank))
    ensures Names(StableSort(first + second, ByCollation(rank))) == second
  {
    hide StableSort, Names;
    NamesOfSort(first + second, ByCollation(rank));
    PartsOfTwo(first, second);
    assert [] + second == second;
    OnlyIndices(first);
    OnlyNames(second);
    SortedStays(second, ByCollation(rank));
  }

  lemma {:induction false} IndicesAgain(first: seq<Member>, second: seq<Member>, rank: Collation)
    requires (forall m: Member :: m in first ==> m.key.Index?) && (forall m: Member :: m in second ==> m.key.Name?)
    requires DistinctKeys(first + second) && Arranged(first, rank)
    ensures StableSort(Indices(StableSort(first + second, ByCollation(rank))), ByIndex()) == first
  {
    var t := first + second;
    var again := StableSort(t, ByCollation(rank));
    SortIsPermutation(t, ByCollation(rank));
    SameMembersDistinct(t, again);
    PartsOf(again);
    PartsDistinct(again);
    hide StableSort, Indices, DistinctKeys;
    var first' := StableSort(Indices(again), ByIndex());
    SortIsPermutation(Indices(again), ByIndex());
    IndicesAreArranged(Indices(again), rank);
    StrictOrderIsUnique(first', first, rank);
  }

  // The two parts of an arrangement.
  lemma ArrangedParts(ms: seq<Member>, rank: Collation) returns (first: seq<Member>, second: seq<Member>)
    requires DistinctKeys(ms)
    ensures Arrange(ms, rank) == first + second && DistinctKeys(first + second)
    ensures (forall m: Member :: m in first ==> m.key.Index?) && (forall m: Member :: m in second ==> m.key.Name?)
    ensures Arranged(first, rank) && SortedBy(second, ByCollation(rank))
  {
    var sorted := StableSort(ms, ByCollation(rank));
    SortSorts(ms, ByCollation(rank));
    SortIsPermutation(ms, ByCollation(rank));
    SameMembersDistinct(ms, sorted);
    PartsOf(sorted);
    PartsDistinct(sorted);
    first, second := StableSort(Indices(sorted), ByIndex()), Names(sorted);
    NamesStaySorted(sorted, ByCollation(rank));
    SortIsPermutation(Indices(sorted), ByIndex());
    IndicesAreArranged(Indices(sorted), rank);
    ArrangeKeeps(ms, rank);
    SameMembersDistinct(ms, first + second);
  }

  // Arranging what is arranged changes nothing, ties or not.
  lemma ArrangeAgain(ms: seq<Member>, rank: Collation)
    requires DistinctKeys(ms)
    ensures Arrange(Arrange(ms, rank), rank) == Arrange(ms, rank)
  {
    var first, second := ArrangedParts(ms, rank);
    NamesAgain(first, second, rank);
    IndicesAgain(first, second, rank);
  }

  // ---- ties keep their order ----

  // The names of one place, in order.
  function Tied(ms: seq<Member>, rank: Collation, r: int): seq<Key> {
    if ms == [] then []
    else
      var last := ms[|ms| - 1];
      Tied(ms[..|ms| - 1], rank, r) + if last.key.Name? && rank(last.key) == r then [last.key] else []
  }

  function TiedOf(m: Member, rank: Collation, r: int): seq<Key> { if m.key.Name? && rank(m.key) == r then [m.key] else [] }

  lemma TiedOfOne(ms: seq<Member>, m: Member, rank: Collation, r: int)
    ensures Tied(ms + [m], rank, r) == Tied(ms, rank, r) + TiedOf(m, rank, r)
  {
    assert (ms + [m])[..|ms|] == ms;
  }

  lemma {:induction false} TiedOfTwo(a: seq<Member>, b: seq<Member>, rank: Collation, r: int)
    ensures Tied(a + b, rank, r) == Tied(a, rank, r) + Tied(b, rank, r)
  {
    if b == [] {
      assert a + b == a;
    } else {
      hide Tied;
      var b', x := b[..|b| - 1], b[|b| - 1];
      TiedOfTwo(a, b', rank, r);
      TiedOfOne(a + b', x, rank, r);
      TiedOfOne(b', x, rank, r);
      LastOfTwo(a, b);
    }
  }

  lemma {:induction false} NoneTied(ms: seq<Member>, rank: Collation, r: int)
    requires forall i :: 0 <= i < |ms| ==> !ms[i].key.Name? || rank(ms[i].key) != r
    ensures Tied(ms, rank, r) == []
  {
    if ms != [] {
      NoneTied(ms[..|ms| - 1], rank, r);
    }
  }

  lemma TiedOfSplit(a: seq<Member>, m: Member, b: seq<Member>, rank: Collation, r: int)
    ensures Tied(a + [m] + b, rank, r) == Tied(a, rank, r) + TiedOf(m, rank, r) + Tied(b, rank, r)
    ensures Tied(a + b, rank, r) == Tied(a, rank, r) + Tied(b, rank, r)
  {
    TiedOfTwo(a + [m], b, rank, r);
    TiedOfTwo(a, b, rank, r);
    assert (a + [m])[..|a|] == a;
  }

  lemma TiedOfInsert(s: seq<Member>, m: Member, rank: Collation, r: int)
    ensures Tied(Insert(s, ByCollation(rank), m), rank, r) == Tied(s, rank, r) + TiedOf(m, rank, r)
  {
    hide Tied, PlaceIn;
    var p := PlaceIn(s, ByCollation(rank), m);
    assert s == s[..p] + s[p..];
    TiedOfSplit(s[..p], m, s[p..], rank, r);
    if m.key.Name? && rank(m.key) == r {
      forall i | 0 <= i < |s[p..]| ensures rank(s[p..][i].key) != r {
        assert ByCollation(rank)(s[p + i]) > ByCollation(rank)(m);
      }
      NoneTied(s[p..], rank, r);
    }
  }

  lemma {:induction false} SortKeepsTied(ms: seq<Member>, rank: Collation, r: int)
    ensures Tied(StableSort(ms, ByCollation(rank)), rank, r) == Tied(ms, rank, r)
  {
    hide Insert;
    if ms != [] {
      SortKeepsTied(ms[..|ms| - 1], rank, r);
      TiedOfInsert(StableSort(ms[..|ms| - 1], ByCollation(rank)), ms[|ms| - 1], rank, r);
    }
  }

  lemma {:induction false} NamesKeepTied(ms: seq<Member>, rank: Collation, r: int)
    ensures Tied(Names(ms), rank, r) == Tied(ms, rank, r)
  {
    if ms != [] {
      var before, last := ms[..|ms| - 1], ms[|ms| - 1];
      NamesKeepTied(before, rank, r);
      TiedOfTwo(Names(before), if last.key.Name? then [last] else [], rank, r);
      assert Tied([last], rank, r) == if last.key.Name? && rank(last.key) == r then [last.key] else [];
    }
  }

  lemma ArrangeKeepsTied(ms: seq<Member>, rank: Collation, r: int)
    ensures Tied(Arrange(ms, rank), rank, r) == Tied(ms, rank, r)
  {
    var sorted := StableSort(ms, ByCollation(rank));
    SortKeepsTied(ms, rank, r);
    NamesKeepTied(sorted, rank, r);
    PartsOf(sorted);
    SortIsPermutation(Indices(sorted), ByIndex());
    var first := StableSort(Indices(sorted), ByIndex());
    forall i | 0 <= i < |first| ensures !first[i].key.Name? {
      assert first[i] in first;
    }
    NoneTied(first, rank, r);
    TiedOfTwo(first, Names(sorted), rank, r);
  }
}
