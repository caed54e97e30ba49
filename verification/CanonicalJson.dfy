// The canonical form of nested values: members sorted by a collation, then held in the order in which the language keeps
// an object's properties (array indices first and ascending, other names as they were inserted).

module CanonicalJson {
  import opened Common

  // Unsupported stands for what has no JSON form: a missing value, a function, a number that is not finite.
  datatype Key = Index(n: nat) | Name(text: string)
  datatype Member = Member(key: Key, value: Value)
  datatype Value =
    | Null | Bool(b: bool) | Number(n: int) | Text(s: string)
    | Array(items: seq<Value>) | Object(members: seq<Member>) | Unsupported

  // The collation gives every key its place; different keys may share one.
  type Collation = Key -> int

  // ---- order of members ----

  function PlaceIn(ms: seq<Member>, place: Member -> int, m: Member): (p: nat)
    ensures p <= |ms|
    ensures forall i :: p <= i < |ms| ==> place(ms[i]) > place(m)
    ensures p > 0 ==> place(ms[p - 1]) <= place(m)
  {
    if ms == [] || place(ms[|ms| - 1]) <= place(m) then |ms| else PlaceIn(ms[..|ms| - 1], place, m)
  }

  // Goes in after every member whose place is not higher.
  function Insert(ms: seq<Member>, place: Member -> int, m: Member): seq<Member> {
    var p := PlaceIn(ms, place, m);
    ms[..p] + [m] + ms[p..]
  }

  function StableSort(ms: seq<Member>, place: Member -> int): seq<Member> {
    if ms == [] then [] else Insert(StableSort(ms[..|ms| - 1], place), place, ms[|ms| - 1])
  }

  function Indices(ms: seq<Member>): seq<Member> {
    if ms == [] then []
    else Indices(ms[..|ms| - 1]) + if ms[|ms| - 1].key.Index? then [ms[|ms| - 1]] else []
  }

  function Names(ms: seq<Member>): seq<Member> {
    if ms == [] then []
    else Names(ms[..|ms| - 1]) + if ms[|ms| - 1].key.Name? then [ms[|ms| - 1]] else []
  }

  function ByIndex(): Member -> int { (m: Member) => if m.key.Index? then m.key.n else 0 }

  function ByCollation(rank: Collation): Member -> int { (m: Member) => rank(m.key) }

  // The object the entries make.
  function FromEntries(ms: seq<Member>): seq<Member> { StableSort(Indices(ms), ByIndex()) + Names(ms) }

  function Arrange(ms: seq<Member>, rank: Collation): seq<Member> { FromEntries(StableSort(ms, ByCollation(rank))) }

  // ---- the canonical form ----

  function Canonical(v: Value, rank: Collation): Option<Value>
    decreases v
  {
    match v
    case Unsupported => None
    case Array(items) =>
      var cs := seq(|items|, i requires 0 <= i < |items| => Canonical(items[i], rank));
      if exists i :: 0 <= i < |cs| && cs[i].None? then None
      else Some(Array(seq(|cs|, i requires 0 <= i < |cs| => cs[i].value)))
    case Object(ms) =>
      var cs := seq(|ms|, i requires 0 <= i < |ms| => Canonical(ms[i].value, rank));
      if exists i :: 0 <= i < |cs| && cs[i].None? then None
      else Some(Object(Arrange(seq(|cs|, i requires 0 <= i < |cs| => Member(ms[i].key, cs[i].value)), rank)))
    case _ => Some(v)
  }

  // ---- the values the language has ----

  ghost predicate DistinctKeys(ms: seq<Member>) {
    forall i, j :: 0 <= i < j < |ms| ==> ms[i].key != ms[j].key
  }

  function Keys(ms: seq<Member>): set<Key> { set m | m in ms :: m.key }

  // No object has a key twice.
  ghost predicate Proper(v: Value)
    decreases v
  {
    match v
    case Array(items) => forall i :: 0 <= i < |items| ==> Proper(items[i])
    case Object(ms) => DistinctKeys(ms) && forall i :: 0 <= i < |ms| ==> Proper(ms[i].value)
    case _ => true
  }

  // No two names of one object share a place in the collation.
  ghost predicate Untied(v: Value, rank: Collation)
    decreases v
  {
    match v
    case Array(items) => forall i :: 0 <= i < |items| ==> Untied(items[i], rank)
    case Object(ms) => NoTies(ms, rank) && forall i :: 0 <= i < |ms| ==> Untied(ms[i].value, rank)
    case _ => true
  }

  ghost predicate NoTies(ms: seq<Member>, rank: Collation) {
    forall m: Member, n: Member :: m in ms && n in ms && m.key.Name? && n.key.Name? && m.key != n.key ==> rank(m.key) != rank(n.key)
  }

  ghost predicate Supported(v: Value)
    decreases v
  {
    match v
    case Unsupported => false
    case Array(items) => forall i :: 0 <= i < |items| ==> Supported(items[i])
    case Object(ms) => forall i :: 0 <= i < |ms| ==> Supported(ms[i].value)
    case _ => true
  }

  // Equal but for the order of keys, at every level.
  ghost predicate Equivalent(v: Value, w: Value)
    decreases v
  {
    match v
    case Array(items) =>
      w.Array? && |items| == |w.items| && forall i :: 0 <= i < |items| ==> Equivalent(items[i], w.items[i])
    case Object(ms) =>
      && w.Object? && Keys(ms) == Keys(w.members)
      && forall i, j :: 0 <= i < |ms| && 0 <= j < |w.members| && ms[i].key == w.members[j].key ==> Equivalent(ms[i].value, w.members[j].value)
    case _ => v == w
  }
}
