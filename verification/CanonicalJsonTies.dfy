// Where the collation ties two names of one object, the order in which they came decides the canonical form.

module CanonicalJsonTies {
  import opened Common
  import opened CanonicalJson
  import opened CanonicalOrder
  import opened CanonicalJsonTheorems

  function Reversed<T>(s: seq<T>): (r: seq<T>)
    ensures |r| == |s| && forall i :: 0 <= i < |s| ==> r[i] == s[|s| - 1 - i]
  {
    if s == [] then [] else [s[|s| - 1]] + Reversed(s[..|s| - 1])
  }

  // ---- tied names ----

  lemma TiedOfSingle(m: Member, rank: Collation, r: int)
    ensures Tied([m], rank, r) == TiedOf(m, rank, r)
  {
    TiedOfOne([], m, rank, r);
    assert [] + [m] == [m];
  }

  lemma ReversedLast(ms: seq<Member>)
    requires ms != []
    ensures Reversed(ms) == [ms[|ms| - 1]] + Reversed(ms[..|ms| - 1])
  {
  }

  lemma {:induction false} TiedOfReversed(ms: seq<Member>, rank: Collation, r: int)
    ensures Tied(Reversed(ms), rank, r) == Reversed(Tied(ms, rank, r))
  {
    if ms != [] {
      hide Tied, Reversed;
      var before, last := ms[..|ms| - 1], ms[|ms| - 1];
      TiedOfReversed(before, rank, r);
      ReversedLast(ms);
      LastOfTwo([], ms);
      TiedOfTwo([last], Reversed(before), rank, r);
      TiedOfSingle(last, rank, r);
      TiedOfOne(before, last, rank, r);
      ReversedOne(Tied(before, rank, r), TiedOf(last, rank, r));
    }
  }

  lemma {:induction false} ReversedOne(s: seq<Key>, last: seq<Key>)
    requires |last| <= 1
    ensures Reversed(s + last) == last + Reversed(s)
  {
    var longer: seq<Key> := s + last;
    if last == [] {
      assert longer == s && [] + Reversed(s) == Reversed(s);
    } else {
      assert last == [last[0]] && longer[..|s|] == s && longer[|s|] == last[0];
    }
  }

  lemma {:induction false} TiedOfConverted(ms: seq<Member>, f: Value -> Value, rank: Collation, r: int)
    ensures Tied(Convert(ms, f), rank, r) == Tied(ms, rank, r)
  {
    if ms != [] {
      TiedOfConverted(ms[..|ms| - 1], f, rank, r);
      assert Convert(ms, f)[..|ms| - 1] == Convert(ms[..|ms| - 1], f);
    }
  }

  lemma {:induction false} TiedAreThere(ms: seq<Member>, rank: Collation, r: int)
    ensures forall k: Key :: k in Tied(ms, rank, r) <==> k in Keys(ms) && k.Name? && rank(k) == r
  {
    if ms != [] {
      hide Tied, Keys;
      var before, last := ms[..|ms| - 1], ms[|ms| - 1];
      TiedAreThere(before, rank, r);
      TiedOfOne(before, last, rank, r);
      AppendDistinct(before, last);
      LastOfTwo([], ms);
    }
  }

  lemma {:induction false} TiedAreDistinct(ms: seq<Member>, rank: Collation, r: int)
    requires DistinctKeys(ms)
    ensures forall i, j :: 0 <= i < j < |Tied(ms, rank, r)| ==> Tied(ms, rank, r)[i] != Tied(ms, rank, r)[j]
  {
    if ms != [] {
      hide Tied, Keys, DistinctKeys;
      var before, last := ms[..|ms| - 1], ms[|ms| - 1];
      AppendDistinct(before, last);
      LastOfTwo([], ms);
      TiedAreDistinct(before, rank, r);
      TiedAreThere(before, rank, r);
      TiedOfOne(before, last, rank, r);
      var t: seq<Key> := Tied(before, rank, r);
      assert last.key !in t && Tied(ms, rank, r) == t + TiedOf(last, rank, r);
    }
  }

  lemma NotItsOwnReverse(t: seq<Key>, k: Key, l: Key)
    requires k in t && l in t && k != l && forall i, j :: 0 <= i < j < |t| ==> t[i] != t[j]
    ensures Reversed(t) != t
  {
    hide Reversed;
    var i :| 0 <= i < |t| && t[i] == k;
    var j :| 0 <= j < |t| && t[j] == l;
    assert |t| >= 2 && t[0] != t[|t| - 1];
    assert Reversed(t)[0] == t[|t| - 1];
  }

  lemma TiesDoNotReverse(ms: seq<Member>, rank: Collation, m: Member, n: Member)
    requires DistinctKeys(ms) && m in ms && n in ms && m.key.Name? && n.key.Name? && m.key != n.key && rank(m.key) == rank(n.key)
    ensures Reversed(Tied(ms, rank, rank(m.key))) != Tied(ms, rank, rank(m.key))
  {
    hide Tied, Reversed;
    TiedAreThere(ms, rank, rank(m.key));
    TiedAreDistinct(ms, rank, rank(m.key));
    assert m.key in Keys(ms) && n.key in Keys(ms);
    hide Keys, DistinctKeys;
    NotItsOwnReverse(Tied(ms, rank, rank(m.key)), m.key, n.key);
  }

  // ---- the rival: the same object with its names the other way round ----

  lemma {:induction false} EquivalentToItself(v: Value)
    requires Proper(v)
    ensures Equivalent(v, v)
    decreases v
  {
    match v {
      case Array(items) =>
        forall i | 0 <= i < |items| ensures Equivalent(items[i], items[i]) {
          EquivalentToItself(items[i]);
        }
      case Object(ms) =>
        forall i, j | 0 <= i < |ms| && 0 <= j < |ms| && ms[i].key == ms[j].key ensures Equivalent(ms[i].value, ms[j].value) {
          EquivalentToItself(ms[i].value);
        }
      case _ =>
    }
  }

  function Rival(ms: seq<Member>): seq<Member> { Indices(ms) + Reversed(Names(ms)) }

  lemma RivalKeeps(ms: seq<Member>)
    requires DistinctKeys(ms)
    ensures |Rival(ms)| == |ms| && DistinctKeys(Rival(ms)) && (forall m: Member :: m in Rival(ms) <==> m in ms) && Keys(Rival(ms)) == Keys(ms)
  {
    PartsOf(ms);
    var names, back := Names(ms), Reversed(Names(ms));
    forall m ensures m in back <==> m in names {
      if m in names {
        var i :| 0 <= i < |names| && names[i] == m;
        assert back[|names| - 1 - i] == m;
      }
    }
    SameMembersDistinct(ms, Rival(ms));
  }

  lemma {:induction false} RivalTied(ms: seq<Member>, rank: Collation, r: int)
    ensures Tied(Rival(ms), rank, r) == Reversed(Tied(ms, rank, r))
  {
    PartsOf(ms);
    forall i | 0 <= i < |Indices(ms)| ensures !Indices(ms)[i].key.Name? {
      assert Indices(ms)[i] in Indices(ms);
    }
    hide Tied, Names, Indices;
    NoneTied(Indices(ms), rank, r);
    TiedOfTwo(Indices(ms), Reversed(Names(ms)), rank, r);
    TiedOfReversed(Names(ms), rank, r);
    NamesKeepTied(ms, rank, r);
    assert [] + Reversed(Tied(ms, rank, r)) == Reversed(Tied(ms, rank, r));
  }

  lemma RivalIsEquivalent(ms: seq<Member>)
    requires Proper(Object(ms))
    ensures Proper(Object(Rival(ms))) && Equivalent(Object(ms), Object(Rival(ms)))
  {
    RivalKeeps(ms);
    var ns := Rival(ms);
    hide Rival;
    forall j | 0 <= j < |ns| ensures Proper(ns[j].value) {
      assert ns[j] in ms;
    }
    forall i, j | 0 <= i < |ms| && 0 <= j < |ns| && ms[i].key == ns[j].key ensures Equivalent(ms[i].value, ns[j].value) {
      assert ns[j] in ms;
      var k :| 0 <= k < |ms| && ms[k] == ns[j];
      assert k == i;
      EquivalentToItself(ms[i].value);
    }
  }

  lemma {:induction false} RivalIsSupported(ms: seq<Member>, rank: Collation)
    requires DistinctKeys(ms) && Canonical(Object(ms), rank).Some?
    ensures Canonical(Object(ms), rank) == Some(Object(Arrange(Convert(ms, Form(rank)), rank)))
    ensures Canonical(Object(Rival(ms)), rank) == Some(Object(Arrange(Convert(Rival(ms), Form(rank)), rank)))
  {
    var ns := Rival(ms);
    hide Canonical, Arrange, Rival, Convert, Form;
    RivalKeeps(ms);
    CanonicalObject(ms, rank);
    CanonicalObject(ns, rank);
    forall j | 0 <= j < |ns| ensures Canonical(ns[j].value, rank).Some? {
      assert ns[j] in ms;
    }
  }

  lemma RivalIsArrangedOtherwise(ms: seq<Member>, rank: Collation, f: Value -> Value)
    requires DistinctKeys(ms) && !NoTies(ms, rank)
    ensures Arrange(Convert(ms, f), rank) != Arrange(Convert(Rival(ms), f), rank)
  {
    var m, n :| m in ms && n in ms && m.key.Name? && n.key.Name? && m.key != n.key && rank(m.key) == rank(n.key);
    var r := rank(m.key);
    hide Arrange, Tied, Rival, NoTies, Convert, Reversed;
    TiesDoNotReverse(ms, rank, m, n);
    RivalTied(ms, rank, r);
    ArrangeKeepsTied(Convert(ms, f), rank, r);
    ArrangeKeepsTied(Convert(Rival(ms), f), rank, r);
    TiedOfConverted(ms, f, rank, r);
    TiedOfConverted(Rival(ms), f, rank, r);
  }

  lemma RivalHasAnotherForm(ms: seq<Member>, rank: Collation)
    requires DistinctKeys(ms) && !NoTies(ms, rank) && Canonical(Object(ms), rank).Some?
    ensures Canonical(Object(Rival(ms)), rank).Some? && Canonical(Object(Rival(ms)), rank) != Canonical(Object(ms), rank)
  {
    hide Canonical, Arrange, Rival, NoTies, DistinctKeys;
    RivalIsSupported(ms, rank);
    RivalIsArrangedOtherwise(ms, rank, Form(rank));
  }

  // ---- at any depth ----

  // Every tied value has an equivalent one with another canonical form.
  lemma {:induction false} TiedValuesHaveRivals(v: Value, rank: Collation) returns (w: Value)
    requires Proper(v) && Canonical(v, rank).Some? && !Untied(v, rank)
    ensures Proper(w) && Equivalent(v, w) && Canonical(w, rank).Some? && Canonical(w, rank) != Canonical(v, rank)
    decreases v
  {
    hide Canonical, Arrange, Equivalent, Convert, Form;
    match v {
      case Array(items) =>
        CanonicalArray(items, rank);
        var i :| 0 <= i < |items| && !Untied(items[i], rank);
        var x := TiedValuesHaveRivals(items[i], rank);
        w := ItemReplaced(items, i, x, rank);
      case Object(ms) =>
        CanonicalObject(ms, rank);
        if NoTies(ms, rank) {
          var i :| 0 <= i < |ms| && !Untied(ms[i].value, rank);
          var x := TiedValuesHaveRivals(ms[i].value, rank);
          w := MemberReplaced(ms, i, x, rank);
        } else {
          RivalIsEquivalent(ms);
          RivalHasAnotherForm(ms, rank);
          w := Object(Rival(ms));
        }
    }
  }

  lemma {:induction false} ItemReplaced(items: seq<Value>, i: nat, x: Value, rank: Collation) returns (w: Value)
    requires Proper(Array(items)) && Canonical(Array(items), rank).Some? && i < |items|
    requires Proper(x) && Equivalent(items[i], x) && Canonical(x, rank).Some? && Canonical(x, rank) != Canonical(items[i], rank)
    ensures Proper(w) && Equivalent(Array(items), w) && Canonical(w, rank).Some? && Canonical(w, rank) != Canonical(Array(items), rank)
  {
    var others := items[i := x];
    w := Array(others);
    CanonicalArray(items, rank);
    CanonicalArray(others, rank);
    forall k | 0 <= k < |items| ensures Equivalent(items[k], others[k]) {
      EquivalentToItself(items[k]);
    }
  }

  lemma ReplacedIsEquivalent(ms: seq<Member>, i: nat, x: Value)
    requires Proper(Object(ms)) && i < |ms| && Proper(x) && Equivalent(ms[i].value, x)
    ensures var ns := ms[i := Member(ms[i].key, x)];
            Proper(Object(ns)) && Keys(ns) == Keys(ms) && Equivalent(Object(ms), Object(ns))
  {
    var ns := ms[i := Member(ms[i].key, x)];
    forall k ensures k in Keys(ms) <==> k in Keys(ns) {
      if k in Keys(ms) {
        var j := KeyAt(ms, k);
        assert ns[j] in ns;
      }
      if k in Keys(ns) {
        var j := KeyAt(ns, k);
        assert ms[j] in ms;
      }
    }
    forall j, k | 0 <= j < |ms| && 0 <= k < |ns| && ms[j].key == ns[k].key ensures Equivalent(ms[j].value, ns[k].value) {
      assert j == k;
      EquivalentToItself(ms[j].value);
    }
  }

  lemma FormsDiffer(v: Value, w: Value, rank: Collation)
    requires Canonical(v, rank).Some? && Canonical(w, rank).Some? && Canonical(v, rank) != Canonical(w, rank)
    ensures Form(rank)(v) != Form(rank)(w)
  {
    hide Canonical;
  }

  lemma ReplacedHasAnotherForm(ms: seq<Member>, i: nat, x: Value, rank: Collation)
    requires DistinctKeys(ms) && Canonical(Object(ms), rank).Some? && i < |ms|
    requires Canonical(x, rank).Some? && Canonical(x, rank) != Canonical(ms[i].value, rank)
    ensures var w := Object(ms[i := Member(ms[i].key, x)]);
            Canonical(w, rank).Some? && Canonical(w, rank) != Canonical(Object(ms), rank)
  {
    hide Canonical, Arrange, Convert, Form;
    var ns := ms[i := Member(ms[i].key, x)];
    CanonicalObject(ms, rank);
    CanonicalObject(ns, rank);
    FormsDiffer(ms[i].value, x, rank);
    DifferentMembersDifferentForm(ms, ns, i, rank);
  }

  lemma {:induction false} DifferentMembersDifferentForm(ms: seq<Member>, ns: seq<Member>, i: nat, rank: Collation)
    requires DistinctKeys(ms) && DistinctKeys(ns) && i < |ms| && i < |ns| && ms[i].key == ns[i].key
    requires Form(rank)(ms[i].value) != Form(rank)(ns[i].value)
    ensures Arrange(Convert(ms, Form(rank)), rank) != Arrange(Convert(ns, Form(rank)), rank)
  {
    hide Arrange, Convert, Form;
    if Arrange(Convert(ms, Form(rank)), rank) == Arrange(Convert(ns, Form(rank)), rank) {
      SameMembersConverted(ms, ns, rank);
    }
  }

  lemma {:induction false} MemberReplaced(ms: seq<Member>, i: nat, x: Value, rank: Collation) returns (w: Value)
    requires Proper(Object(ms)) && Canonical(Object(ms), rank).Some? && i < |ms|
    requires Proper(x) && Equivalent(ms[i].value, x) && Canonical(x, rank).Some? && Canonical(x, rank) != Canonical(ms[i].value, rank)
    ensures Proper(w) && Equivalent(Object(ms), w) && Canonical(w, rank).Some? && Canonical(w, rank) != Canonical(Object(ms), rank)
  {
    hide Canonical, Equivalent;
    w := Object(ms[i := Member(ms[i].key, x)]);
    ReplacedIsEquivalent(ms, i, x);
    ReplacedHasAnotherForm(ms, i, x, rank);
  }

  // The canonical form of a supported value forgets the order of its keys exactly when no two names of one object tie.
  lemma KeyOrderIsForgottenExactlyWithoutTies(v: Value, rank: Collation)
    requires Proper(v) && Supported(v)
    ensures Untied(v, rank) <==> forall w :: Proper(w) && Equivalent(v, w) ==> Canonical(w, rank) == Canonical(v, rank)
  {
    UndefinedExactlyWhenUnsupported(v, rank);
    if Untied(v, rank) {
      forall w | Proper(w) && Equivalent(v, w) ensures Canonical(w, rank) == Canonical(v, rank) {
        EquivalentMeansSameForm(v, w, rank);
      }
    } else {
      var w := TiedValuesHaveRivals(v, rank);
    }
  }
}
