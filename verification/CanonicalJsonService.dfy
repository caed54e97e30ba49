// The computation of the canonical form as the service does it: entries sorted first, then each value in turn.

module CanonicalJsonService {
  import opened Common
  import opened CanonicalJson
  import opened CanonicalOrder
  import opened CanonicalJsonTheorems

  lemma {:induction false} PlaceInConverted(ms: seq<Member>, f: Value -> Value, rank: Collation, m: Member, n: Member)
    requires n.key == m.key
    ensures PlaceIn(Convert(ms, f), ByCollation(rank), n) == PlaceIn(ms, ByCollation(rank), m)
  {
    if ms != [] {
      PlaceInConverted(ms[..|ms| - 1], f, rank, m, n);
      assert Convert(ms, f)[..|ms| - 1] == Convert(ms[..|ms| - 1], f);
    }
  }

  lemma ConvertedParts(a: seq<Member>, m: Member, b: seq<Member>, f: Value -> Value)
    ensures Convert(a + [m] + b, f) == Convert(a, f) + [Member(m.key, f(m.value))] + Convert(b, f)
    ensures Convert(a + b, f) == Convert(a, f) + Convert(b, f)
  {
    hide Convert;
    assert Convert(a + b, f) == Convert(a, f) + Convert(b, f);
    var longer: seq<Member> := a + [m] + b;
    assert longer == a + ([m] + b);
    assert Convert(longer, f) == Convert(a, f) + [Member(m.key, f(m.value))] + Convert(b, f);
  }

  lemma InsertConverted(s: seq<Member>, f: Value -> Value, rank: Collation, m: Member)
    ensures Insert(Convert(s, f), ByCollation(rank), Member(m.key, f(m.value))) == Convert(Insert(s, ByCollation(rank), m), f)
  {
    PlaceInConverted(s, f, rank, m, Member(m.key, f(m.value)));
    var p := PlaceIn(s, ByCollation(rank), m);
    var a, b := s[..p], s[p..];
    ConvertedParts(a, m, b, f);
    hide Convert, PlaceIn;
    assert s == a + b;
    TakeDrop(Convert(a, f), Convert(b, f));
  }

  lemma TakeDrop(a: seq<Member>, b: seq<Member>)
    ensures (a + b)[..|a|] == a && (a + b)[|a|..] == b
  {
  }

  // Sorting looks at keys only, so it does not matter whether values are converted before or after.
  lemma {:induction false} SortConverted(ms: seq<Member>, f: Value -> Value, rank: Collation)
    ensures StableSort(Convert(ms, f), ByCollation(rank)) == Convert(StableSort(ms, ByCollation(rank)), f)
  {
    if ms != [] {
      var before, last := ms[..|ms| - 1], ms[|ms| - 1];
      SortConverted(before, f, rank);
      assert Convert(ms, f)[..|ms| - 1] == Convert(before, f);
      assert StableSort(Convert(ms, f), ByCollation(rank))
             == Insert(StableSort(Convert(before, f), ByCollation(rank)), ByCollation(rank), Member(last.key, f(last.value)));
      hide Insert, Convert;
      InsertConverted(StableSort(before, ByCollation(rank)), f, rank, last);
    }
  }

  // Entries sorted first, each value made canonical in turn, the object built from them.
  method CanonicalJsonValue(v: Value, rank: Collation) returns (r: Option<Value>)
    ensures r == Canonical(v, rank)
    decreases v, 1
  {
    match v {
      case Unsupported =>
        return None;
      case Array(items) =>
        r := CanonicalItems(v, rank);
      case Object(ms) =>
        r := CanonicalEntries(v, rank);
      case _ =>
        return Some(v);
    }
  }

  method CanonicalItems(v: Value, rank: Collation) returns (r: Option<Value>)
    requires v.Array?
    ensures r == Canonical(v, rank)
    decreases v, 0
  {
    CanonicalArray(v.items, rank);
    hide Canonical;
    var values: seq<Value>, missing := [], false;
    for i := 0 to |v.items|
      invariant missing <==> exists k :: 0 <= k < i && Canonical(v.items[k], rank).None?
      invariant !missing ==> |values| == i && forall k :: 0 <= k < i ==> Canonical(v.items[k], rank) == Some(values[k])
    {
      var c := CanonicalJsonValue(v.items[i], rank);
      if c.None? {
        missing := true;
      } else if !missing {
        values := values + [c.value];
      }
    }
    if missing {
      return None;
    }
    assert Canonical(v, rank).value.items == values;
    return Some(Array(values));
  }

  lemma {:induction false} CanonicalSorted(ms: seq<Member>, rank: Collation)
    ensures var entries := StableSort(ms, ByCollation(rank));
            && (forall m: Member :: m in entries <==> m in ms)
            && Canonical(Object(ms), rank)
               == if exists i :: 0 <= i < |ms| && Canonical(ms[i].value, rank).None? then None
                  else Some(Object(FromEntries(Convert(entries, Form(rank)))))
  {
    CanonicalObject(ms, rank);
    SortIsPermutation(ms, ByCollation(rank));
    SortConverted(ms, Form(rank), rank);
  }

  method CanonicalEntries(v: Value, rank: Collation) returns (r: Option<Value>)
    requires v.Object?
    ensures r == Canonical(v, rank)
    decreases v, 0
  {
    hide Canonical, StableSort, Convert, FromEntries, Arrange;
    CanonicalSorted(v.members, rank);
    var entries := StableSort(v.members, ByCollation(rank));
    var canonicalEntries: seq<Member> := [];
    for i := 0 to |entries|
      invariant |canonicalEntries| == i
      invariant forall k :: 0 <= k < i ==> Canonical(entries[k].value, rank).Some?
                                           && canonicalEntries[k] == Member(entries[k].key, Canonical(entries[k].value, rank).value)
    {
      assert entries[i] in v.members;
      var canonical := CanonicalJsonValue(entries[i].value, rank);
      if canonical.None? {
        var k :| 0 <= k < |v.members| && v.members[k] == entries[i];
        return None;
      }
      canonicalEntries := canonicalEntries + [Member(entries[i].key, canonical.value)];
    }
    assert canonicalEntries == Convert(entries, Form(rank));
    forall k | 0 <= k < |v.members| ensures Canonical(v.members[k].value, rank).Some? {
      assert v.members[k] in entries;
    }
    return Some(Object(FromEntries(canonicalEntries)));
  }
}
