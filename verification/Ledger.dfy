/** Solidity mappings from addresses, and sums over them. A mapping is a finite map whose
    missing keys read as zero. */
module Ledger {

  /** Account addresses; 0 is `address(0)`. */
  type Address = nat

  const ZERO: Address := 0

  function Get<K>(m: map<K, nat>, key: K): nat {
    if key in m then m[key] else 0
  }

  /** The sum of the entries of `m` at the keys in `s`. */
  ghost function SumOver(m: map<Address, nat>, s: set<Address>): nat {
    if s == {} then
      0
    else
      var a :| a in s;
      Get(m, a) + SumOver(m, s - {a})
  }

  /** The sum of all values of `m`. */
  ghost function Sum(m: map<Address, nat>): nat {
    SumOver(m, m.Keys)
  }

  /** The sum does not depend on the order in which keys are picked. */
  lemma {:induction false} SumOverSplit(m: map<Address, nat>, s: set<Address>, a: Address)
    requires a in s
    ensures SumOver(m, s) == Get(m, a) + SumOver(m, s - {a})
    decreases |s|
  {
    var b :| b in s && SumOver(m, s) == Get(m, b) + SumOver(m, s - {b});
    if a != b {
      SumOverSplit(m, s - {b}, a);
      SumOverSplit(m, s - {a}, b);
      assert s - {a} - {b} == s - {b} - {a};
    }
  }

  lemma {:induction false} SumOverAgree(m: map<Address, nat>, n: map<Address, nat>, s: set<Address>)
    requires forall a :: a in s ==> Get(m, a) == Get(n, a)
    ensures SumOver(m, s) == SumOver(n, s)
  {
    if s != {} {
      var a :| a in s;
      SumOverSplit(m, s, a);
      SumOverSplit(n, s, a);
      SumOverAgree(m, n, s - {a});
    }
  }

  /** Changing at most two entries changes the sum over `s` by the changes inside of `s`. */
  lemma {:induction false} SumOverChanges(
      m: map<Address, nat>, n: map<Address, nat>, s: set<Address>, a: Address, x: int, b: Address, y: int)
    requires forall k :: k in s ==>
               Get(n, k) == Get(m, k) + (if k == a then x else 0) + (if k == b then y else 0)
    ensures SumOver(n, s) == SumOver(m, s) + (if a in s then x else 0) + (if b in s then y else 0)
  {
    if s != {} {
      var k :| k in s;
      SumOverSplit(m, s, k);
      SumOverSplit(n, s, k);
      SumOverChanges(m, n, s - {k}, a, x, b, y);
    }
  }

  lemma SumOverSingle(m: map<Address, nat>, a: Address)
    ensures SumOver(m, {a}) == Get(m, a)
  {
    SumOverSplit(m, {a}, a);
    assert {a} - {a} == {};
  }

  lemma {:induction false} SumOverUnion(m: map<Address, nat>, s: set<Address>, t: set<Address>)
    requires s !! t
    ensures SumOver(m, s + t) == SumOver(m, s) + SumOver(m, t)
  {
    if s == {} {
      assert s + t == t;
    } else {
      var a :| a in s;
      SumOverSplit(m, s, a);
      SumOverSplit(m, s + t, a);
      assert s + t - {a} == (s - {a}) + t;
      SumOverUnion(m, s - {a}, t);
    }
  }

  lemma SumSplit(m: map<Address, nat>, a: Address)
    requires a in m
    ensures Sum(m) == m[a] + Sum(m - {a})
  {
    SumOverSplit(m, m.Keys, a);
    SumOverAgree(m, m - {a}, m.Keys - {a});
    assert (m - {a}).Keys == m.Keys - {a};
  }

  /** Writing one entry moves the sum by the difference. */
  lemma SumUpdate(m: map<Address, nat>, a: Address, v: nat)
    ensures Sum(m[a := v]) == Sum(m) - Get(m, a) + v
  {
    SumOverSplit(m[a := v], m.Keys + {a}, a);
    assert m[a := v].Keys == m.Keys + {a};
    SumOverAgree(m, m[a := v], m.Keys - {a});
    if a in m {
      SumOverSplit(m, m.Keys, a);
      assert m.Keys + {a} - {a} == m.Keys - {a};
    } else {
      assert m.Keys + {a} - {a} == m.Keys == m.Keys - {a};
    }
  }

  /** A mapping split in two parts sums to the sums of the parts. */
  lemma SumParts(whole: map<Address, nat>, m: map<Address, nat>, n: map<Address, nat>)
    requires m.Keys !! n.Keys && whole.Keys == m.Keys + n.Keys
    requires forall a :: a in m ==> whole[a] == m[a]
    requires forall a :: a in n ==> whole[a] == n[a]
    ensures Sum(whole) == Sum(m) + Sum(n)
  {
    SumOverUnion(whole, m.Keys, n.Keys);
    SumOverAgree(whole, m, m.Keys);
    SumOverAgree(whole, n, n.Keys);
  }

  /** A part of a mapping sums to at most the whole. */
  lemma SumPart(part: map<Address, nat>, whole: map<Address, nat>)
    requires part.Keys <= whole.Keys
    requires forall a :: a in part ==> whole[a] == part[a]
    ensures Sum(part) <= Sum(whole)
  {
    var rest := map a | a in whole && a !in part :: whole[a];
    SumParts(whole, part, rest);
  }
}
