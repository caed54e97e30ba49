// Option, looking a row up, and finite sums over a counter with the few laws the ledgers need.

module Common {

  datatype Option<+T> = None | Some(value: T)
}

module Lookup {
  import opened Common

  // The last row that is meant; where a column is unique, the only one.
  function LastWhere<T>(rows: seq<T>, meant: T -> bool): (r: Option<nat>)
    ensures r.Some? ==> r.value < |rows| && meant(rows[r.value])
    ensures r.None? <==> forall i :: 0 <= i < |rows| ==> !meant(rows[i])
  {
    if rows == [] then None
    else if meant(rows[|rows| - 1]) then Some(|rows| - 1)
    else LastWhere(rows[..|rows| - 1], meant)
  }

  method FindLast<T>(rows: seq<T>, meant: T -> bool) returns (found: Option<nat>)
    ensures found == LastWhere(rows, meant)
  {
    found := None;
    for i := 0 to |rows|
      invariant found == LastWhere(rows[..i], meant)
    {
      assert rows[..i + 1][..i] == rows[..i];
      if meant(rows[i]) {
        found := Some(i);
      }
    }
    assert rows[..|rows|] == rows;
  }
}

module Sums {

  // f(0) + ... + f(n - 1)
  function Sum(f: nat -> int, n: nat): int {
    if n == 0 then 0 else Sum(f, n - 1) + f(n - 1)
  }

  lemma {:induction false} SumSame(f: nat -> int, g: nat -> int, n: nat)
    requires forall i: nat :: i < n ==> f(i) == g(i)
    ensures Sum(f, n) == Sum(g, n)
  {
    if n > 0 {
      SumSame(f, g, n - 1);
    }
  }

  // Two summands that agree except at k.
  lemma {:induction false} SumChangedAt(f: nat -> int, g: nat -> int, k: nat, n: nat)
    requires k < n
    requires forall i: nat :: i < n && i != k ==> f(i) == g(i)
    ensures Sum(g, n) == Sum(f, n) - f(k) + g(k)
  {
    if k == n - 1 {
      SumSame(f, g, n - 1);
    } else {
      SumChangedAt(f, g, k, n - 1);
    }
  }

  lemma {:induction false} SumZero(f: nat -> int, n: nat)
    requires forall i: nat :: i < n ==> f(i) == 0
    ensures Sum(f, n) == 0
  {
    if n > 0 {
      SumZero(f, n - 1);
    }
  }

  lemma {:induction false} SumPlus(f: nat -> int, g: nat -> int, h: nat -> int, n: nat)
    requires forall i: nat :: i < n ==> h(i) == f(i) + g(i)
    ensures Sum(h, n) == Sum(f, n) + Sum(g, n)
  {
    if n > 0 {
      SumPlus(f, g, h, n - 1);
    }
  }

  function Ones(f: nat -> int, n: nat): set<nat> { set i: nat | i < n && f(i) == 1 }

  // A sum of zeros and ones counts the ones.
  lemma {:induction false} SumCounts(f: nat -> int, n: nat)
    requires forall i: nat :: i < n ==> f(i) == 0 || f(i) == 1
    ensures Sum(f, n) == |Ones(f, n)|
  {
    if n > 0 {
      SumCounts(f, n - 1);
      var before, last: nat := Ones(f, n - 1), n - 1;
      if f(last) == 1 {
        assert Ones(f, n) == before + {last};
        hide Ones;
      } else {
        assert Ones(f, n) == before;
      }
    }
  }

  // The weights of one group, for the groups that are picked.
  function PickedGroup(weight: nat -> int, owner: nat -> int, picked: nat -> bool, n: nat): nat -> int {
    (k: nat) => if picked(k) then GroupTotal(weight, owner, k, n) else 0
  }

  function GroupTotal(weight: nat -> int, owner: nat -> int, k: nat, n: nat): int {
    Sum(OfGroup(weight, owner, k), n)
  }

  function OfGroup(weight: nat -> int, owner: nat -> int, k: nat): nat -> int {
    (i: nat) => if owner(i) == k then weight(i) else 0
  }

  function InPicked(weight: nat -> int, owner: nat -> int, picked: nat -> bool, m: nat): nat -> int {
    (i: nat) => if 0 <= owner(i) < m && picked(owner(i)) then weight(i) else 0
  }

  // Summing group by group over the picked groups below m is summing the items owned by such a group.
  lemma {:induction false} SumByGroup(weight: nat -> int, owner: nat -> int, picked: nat -> bool, m: nat, n: nat)
    ensures Sum(PickedGroup(weight, owner, picked, n), m) == Sum(InPicked(weight, owner, picked, m), n)
  {
    if n == 0 {
      forall k: nat | k < m ensures PickedGroup(weight, owner, picked, 0)(k) == 0 {
        assert GroupTotal(weight, owner, k, 0) == 0;
      }
      SumZero(PickedGroup(weight, owner, picked, 0), m);
    } else {
      SumByGroup(weight, owner, picked, m, n - 1);
      var before, after := PickedGroup(weight, owner, picked, n - 1), PickedGroup(weight, owner, picked, n);
      var o := owner(n - 1);
      forall k: nat | k < m && k != o ensures before(k) == after(k) {
        assert GroupTotal(weight, owner, k, n) == GroupTotal(weight, owner, k, n - 1);
      }
      if 0 <= o < m {
        assert GroupTotal(weight, owner, o, n) == GroupTotal(weight, owner, o, n - 1) + weight(n - 1);
        SumChangedAt(before, after, o, m);
      } else {
        SumSame(before, after, m);
      }
    }
  }
}
