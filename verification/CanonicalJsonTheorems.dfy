// What the canonical form is good for: it is a fixed point, it forgets the order of keys exactly where the collation
// tells them apart, and it forgets nothing else.

module CanonicalJsonTheorems {
  import opened Common
  import opened CanonicalJson
  import opened CanonicalOrder

  // ---- one object or array at a time ----

  // The canonical form of a supported value.
  function Form(rank: Collation): Value -> Value {
    (v: Value) => if Canonical(v, rank).Some? then Canonical(v, rank).value else Null
  }

  function Convert(ms: seq<Member>, f: Value -> Value): (r: seq<Member>)
    ensures |r| == |ms| && forall i :: 0 <= i < |ms| ==> r[i] == Member(ms[i].key, f(ms[i].value))
  {
    if ms == [] then [] else Convert(ms[..|ms| - 1], f) + [Member(ms[|ms| - 1].key, f(ms[|ms| - 1].value))]
  }

  lemma {:induction false} CanonicalObject(ms: seq<Member>, rank: Collation)
    ensures Canonical(Object(ms), rank)
            == if exists i :: 0 <= i < |ms| && Canonical(ms[i].value, rank).None? then None
               else Some(Object(Arrange(Convert(ms, Form(rank)), rank)))
  {
    var cs := seq(|ms|, i requires 0 <= i < |ms| => Canonical(ms[i].value, rank));
    if i :| 0 <= i < |ms| && Canonical(ms[i].value, rank).None? {
      assert cs[i].None?;
    } else {
      assert forall i :: 0 <= i < |cs| ==> cs[i].Some?;
      assert seq(|cs|, i requires 0 <= i < |cs| => Member(ms[i].key, cs[i].value)) == Convert(ms, Form(rank));
    }
  }

  lemma CanonicalArray(items: seq<Value>, rank: Collation)
    ensures var c := Canonical(Array(items), rank);
            && (c.None? <==> exists i :: 0 <= i < |items| && Canonical(items[i], rank).None?)
            && (c.Some? ==> c.value.Array? && |c.value.items| == |items|
                            && forall i :: 0 <= i < |items| ==> Canonical(items[i], rank) == Some(c.value.items[i]))
  {
    var cs := seq(|items|, i requires 0 <= i < |items| => Canonical(items[i], rank));
    if i :| 0 <= i < |items| && Canonical(items[i], rank).None? {
      assert cs[i].None?;
    } else {
      assert forall i :: 0 <= i < |cs| ==> cs[i].Some?;
    }
  }

  lemma ConvertKeepsKeys(ms: seq<Member>, f: Value -> Value)
    ensures Keys(Convert(ms, f)) == Keys(ms) && (DistinctKeys(Convert(ms, f)) <==> DistinctKeys(ms))
  {
    var cs := Convert(ms, f);
    forall k ensures k in Keys(cs) <==> k in Keys(ms) {
      if m :| m in ms && m.key == k {
        var i :| 0 <= i < |ms| && ms[i] == m;
        assert cs[i] in cs && cs[i].key == k;
      }
      if m :| m in cs && m.key == k {
        var i :| 0 <= i < |cs| && cs[i] == m;
        assert ms[i] in ms && ms[i].key == k;
      }
    }
    assert forall i :: 0 <= i < |ms| ==> cs[i].key == ms[i].key;
  }

  lemma ConvertKeepsTies(ms: seq<Member>, f: Value -> Value, rank: Collation)
    requires NoTies(ms, rank)
    ensures NoTies(Convert(ms, f), rank)
  {
    var cs := Convert(ms, f);
    forall m, n | m in cs && n in cs && m.key.Name? && n.key.Name? && m.key != n.key ensures rank(m.key) != rank(n.key) {
      var i :| 0 <= i < |cs| && cs[i] == m;
      var j :| 0 <= j < |cs| && cs[j] == n;
      assert ms[i] in ms && ms[j] in ms;
    }
  }

  lemma KeyAt(ms: seq<Member>, k: Key) returns (i: nat)
    requires k in Keys(ms)
    ensures i < |ms| && ms[i].key == k
  {
    var m :| m in ms && m.key == k;
    i :| 0 <= i < |ms| && ms[i] == m;
  }

  // ---- undefined exactly on unsupported values ----

  lemma {:induction false} UndefinedExactlyWhenUnsupported(v: Value, rank: Collation)
    ensures Canonical(v, rank).None? <==> !Supported(v)
    decreases v
  {
    match v {
      case Array(items) =>
        CanonicalArray(items, rank);
        forall i | 0 <= i < |items| ensures Canonical(items[i], rank).None? <==> !Supported(items[i]) {
          UndefinedExactlyWhenUnsupported(items[i], rank);
        }
      case Object(ms) =>
        CanonicalObject(ms, rank);
        forall i | 0 <= i < |ms| ensures Canonical(ms[i].value, rank).None? <==> !Supported(ms[i].value) {
          UndefinedExactlyWhenUnsupported(ms[i].value, rank);
        }
      case _ =>
    }
  }

  // ---- idempotent ----

  lemma {:induction false} FormIsFixed(v: Value, rank: Collation)
    requires Proper(v) && Canonical(v, rank).Some?
    ensures Canonical(Canonical(v, rank).value, rank) == Canonical(v, rank) && Proper(Canonical(v, rank).value)
    decreases v
  {
    match v {
      case Array(items) =>
        CanonicalArray(items, rank);
        var cs := Canonical(v, rank).value.items;
        forall i | 0 <= i < |items| ensures Canonical(cs[i], rank) == Some(cs[i]) && Proper(cs[i]) {
          FormIsFixed(items[i], rank);
        }
        CanonicalArray(cs, rank);
        assert Canonical(Array(cs), rank).value.items == cs;
      case Object(ms) =>
        CanonicalObject(ms, rank);
        var cs := Convert(ms, Form(rank));
        forall i | 0 <= i < |ms| ensures Canonical(cs[i].value, rank) == Some(cs[i].value) && Proper(cs[i].value) {
          FormIsFixed(ms[i].value, rank);
        }
        ConvertKeepsKeys(ms, Form(rank));
        ArrangedFormIsFixed(cs, rank);
      case _ =>
    }
  }

  lemma ArrangedFormIsFixed(cs: seq<Member>, rank: Collation)
    requires DistinctKeys(cs) && forall i :: 0 <= i < |cs| ==> Canonical(cs[i].value, rank) == Some(cs[i].value) && Proper(cs[i].value)
    ensures var arranged := Arrange(cs, rank);
            Canonical(Object(arranged), rank) == Some(Object(arranged)) && Proper(Object(arranged))
  {
    var arranged := Arrange(cs, rank);
    ArrangeKeeps(cs, rank);
    SameMembersDistinct(cs, arranged);
    ArrangeAgain(cs, rank);
    hide Arrange;
    forall i | 0 <= i < |arranged| ensures Canonical(arranged[i].value, rank) == Some(arranged[i].value) && Proper(arranged[i].value) {
      assert arranged[i] in cs;
    }
    CanonicalObject(arranged, rank);
    assert Convert(arranged, Form(rank)) == arranged;
  }

  // ---- nothing but the order of keys is forgotten ----

  // Values with the same canonical form are equal up to the order of keys, whatever the collation.
  lemma {:induction false} SameFormMeansEquivalent(v: Value, w: Value, rank: Collation)
    requires Proper(v) && Proper(w) && Canonical(v, rank).Some? && Canonical(v, rank) == Canonical(w, rank)
    ensures Equivalent(v, w)
    decreases v
  {
    match v {
      case Array(items) =>
        ArrayFormIsArray(w, rank);
        CanonicalArray(items, rank);
        CanonicalArray(w.items, rank);
        forall i | 0 <= i < |items| ensures Equivalent(items[i], w.items[i]) {
          SameFormMeansEquivalent(items[i], w.items[i], rank);
        }
      case Object(ms) =>
        CanonicalObject(ms, rank);
        ObjectFormIsObject(w, rank);
        CanonicalObject(w.members, rank);
        SameMembersConverted(ms, w.members, rank);
        forall i, j | 0 <= i < |ms| && 0 <= j < |w.members| && ms[i].key == w.members[j].key
          ensures Equivalent(ms[i].value, w.members[j].value)
        {
          SameFormMeansEquivalent(ms[i].value, w.members[j].value, rank);
        }
      case _ =>
        OtherFormIsItself(w, v, rank);
    }
  }

  lemma ArrayFormIsArray(w: Value, rank: Collation)
    requires Canonical(w, rank).Some? && Canonical(w, rank).value.Array?
    ensures w.Array?
  {
    if w.Object? {
      CanonicalObject(w.members, rank);
    }
  }

  lemma ObjectFormIsObject(w: Value, rank: Collation)
    requires Canonical(w, rank).Some? && Canonical(w, rank).value.Object?
    ensures w.Object?
  {
    if w.Array? {
      CanonicalArray(w.items, rank);
    }
  }

  lemma OtherFormIsItself(w: Value, v: Value, rank: Collation)
    requires !v.Array? && !v.Object? && Canonical(w, rank) == Some(v)
    ensures w == v
  {
    if w.Array? {
      CanonicalArray(w.items, rank);
    } else if w.Object? {
      CanonicalObject(w.members, rank);
    }
  }

  // Two objects with one arrangement hold the same converted members.
  lemma {:induction false} SameMembersConverted(ms: seq<Member>, ns: seq<Member>, rank: Collation)
    requires DistinctKeys(ms) && DistinctKeys(ns)
    requires Arrange(Convert(ms, Form(rank)), rank) == Arrange(Convert(ns, Form(rank)), rank)
    ensures Keys(ms) == Keys(ns)
    ensures forall i, j :: 0 <= i < |ms| && 0 <= j < |ns| && ms[i].key == ns[j].key ==> Form(rank)(ms[i].value) == Form(rank)(ns[j].value)
  {
    var f := Form(rank);
    var a, b := Convert(ms, f), Convert(ns, f);
    ConvertKeepsKeys(ms, f);
    ConvertKeepsKeys(ns, f);
    ArrangeKeeps(a, rank);
    ArrangeKeeps(b, rank);
    hide Arrange, Form, Convert;
    assert forall m: Member :: m in a <==> m in b;
    assert Keys(a) == Keys(b);
    forall i, j | 0 <= i < |ms| && 0 <= j < |ns| && ms[i].key == ns[j].key ensures f(ms[i].value) == f(ns[j].value) {
      assert a[i] in b;
      var k :| 0 <= k < |b| && b[k] == a[i];
      assert k == j;
    }
  }

  // ---- and the order of keys is, where the collation tells them apart ----

  lemma {:induction false} EquivalentMeansSameForm(v: Value, w: Value, rank: Collation)
    requires Proper(v) && Proper(w) && Untied(v, rank) && Equivalent(v, w)
    ensures Canonical(v, rank) == Canonical(w, rank)
    decreases v
  {
    match v {
      case Array(items) =>
        CanonicalArray(items, rank);
        CanonicalArray(w.items, rank);
        forall i | 0 <= i < |items| ensures Canonical(items[i], rank) == Canonical(w.items[i], rank) {
          EquivalentMeansSameForm(items[i], w.items[i], rank);
        }
        if Canonical(v, rank).Some? {
          assert Canonical(v, rank).value.items == Canonical(w, rank).value.items;
        }
      case Object(ms) =>
        forall i, j | 0 <= i < |ms| && 0 <= j < |w.members| && ms[i].key == w.members[j].key
          ensures Canonical(ms[i].value, rank) == Canonical(w.members[j].value, rank)
        {
          EquivalentMeansSameForm(ms[i].value, w.members[j].value, rank);
        }
        SameConversionSameForm(ms, w.members, rank);
      case _ =>
    }
  }

  // Members with the same key and the same canonical form on both sides, whatever their positions.
  ghost predicate SameConversions(ms: seq<Member>, ns: seq<Member>, rank: Collation) {
    && Keys(ms) == Keys(ns)
    && forall i, j :: 0 <= i < |ms| && 0 <= j < |ns| && ms[i].key == ns[j].key ==> Canonical(ms[i].value, rank) == Canonical(ns[j].value, rank)
  }

  lemma AllOrNone(ms: seq<Member>, ns: seq<Member>, rank: Collation)
    requires SameConversions(ms, ns, rank) && forall i :: 0 <= i < |ms| ==> Canonical(ms[i].value, rank).Some?
    ensures forall j :: 0 <= j < |ns| ==> Canonical(ns[j].value, rank).Some?
  {
    hide Canonical;
    forall j | 0 <= j < |ns| ensures Canonical(ns[j].value, rank).Some? {
      assert ns[j] in ns;
      var i := KeyAt(ms, ns[j].key);
    }
  }

  lemma SameConversionSameForm(ms: seq<Member>, ns: seq<Member>, rank: Collation)
    requires DistinctKeys(ms) && DistinctKeys(ns) && NoTies(ms, rank) && SameConversions(ms, ns, rank)
    ensures Canonical(Object(ms), rank) == Canonical(Object(ns), rank)
  {
    CanonicalObject(ms, rank);
    CanonicalObject(ns, rank);
    hide Canonical, Arrange;
    if forall i :: 0 <= i < |ms| ==> Canonical(ms[i].value, rank).Some? {
      AllOrNone(ms, ns, rank);
      SameConversion(ms, ns, rank);
    } else if forall j :: 0 <= j < |ns| ==> Canonical(ns[j].value, rank).Some? {
      AllOrNone(ns, ms, rank);
    }
  }

  lemma MemberOfBoth(ms: seq<Member>, ns: seq<Member>, rank: Collation, m: Member)
    requires SameConversions(ms, ns, rank) && m in Convert(ms, Form(rank))
    ensures m in Convert(ns, Form(rank))
  {
    hide Canonical, Convert;
    var a, b := Convert(ms, Form(rank)), Convert(ns, Form(rank));
    var i :| 0 <= i < |a| && a[i] == m;
    assert ms[i] in ms;
    var j := KeyAt(ns, ms[i].key);
    assert b[j] == m;
  }

  lemma {:induction false} SameConversion(ms: seq<Member>, ns: seq<Member>, rank: Collation)
    requires DistinctKeys(ms) && DistinctKeys(ns) && NoTies(ms, rank) && SameConversions(ms, ns, rank)
    ensures Arrange(Convert(ms, Form(rank)), rank) == Arrange(Convert(ns, Form(rank)), rank)
  {
    var f := Form(rank);
    var a, b := Convert(ms, f), Convert(ns, f);
    assert SameConversions(ns, ms, rank);
    forall m ensures m in a <==> m in b {
      if m in a { MemberOfBoth(ms, ns, rank, m); }
      if m in b { MemberOfBoth(ns, ms, rank, m); }
    }
    ConvertKeepsKeys(ms, f);
    ConvertKeepsKeys(ns, f);
    ConvertKeepsTies(ms, f, rank);
    OneArrangement(a, b, rank);
  }

  lemma OneArrangement(a: seq<Member>, b: seq<Member>, rank: Collation)
    requires DistinctKeys(a) && DistinctKeys(b) && NoTies(a, rank) && forall m: Member :: m in a <==> m in b
    ensures Arrange(a, rank) == Arrange(b, rank)
  {
    assert NoTies(b, rank);
    hide Arrange, DistinctKeys, NoTies;
    ArrangeIsStrict(a, rank);
    ArrangeIsStrict(b, rank);
    ArrangeKeeps(a, rank);
    ArrangeKeeps(b, rank);
    StrictOrderIsUnique(Arrange(a, rank), Arrange(b, rank), rank);
  }
}
