/** The `byName` ordering of commands, and the in-place sort that GenCustom runs
    over a command's children before listing them under See Also. */
module ByName {
  import opened Commands

  /** Go's `<` on strings: lexicographic order, a proper prefix coming first.
      Go compares UTF-8 bytes; comparing characters by code point orders
      strings the same way. */
  predicate NameLess(a: string, b: string)
  {
    if a == [] then b != []
    else if b == [] then false
    else if a[0] != b[0] then a[0] < b[0]
    else NameLess(a[1..], b[1..])
  }

  lemma {:induction false} NameLessIrreflexive(a: string)
    ensures !NameLess(a, a)
  {
    if a != [] {
      NameLessIrreflexive(a[1..]);
    }
  }

  lemma {:induction false} NameLessTransitive(a: string, b: string, c: string)
    requires NameLess(a, b) && NameLess(b, c)
    ensures NameLess(a, c)
  {
    if a != [] && b != [] && c != [] && a[0] == b[0] && b[0] == c[0] {
      NameLessTransitive(a[1..], b[1..], c[1..]);
    }
  }

  /** Two different names are ordered one way or the other. */
  lemma {:induction false} NameLessTotal(a: string, b: string)
    requires a != b
    ensures NameLess(a, b) || NameLess(b, a)
  {
    if a != [] && b != [] && a[0] == b[0] {
      assert a == [a[0]] + a[1..] && b == [b[0]] + b[1..];
      NameLessTotal(a[1..], b[1..]);
    }
  }

  lemma NameLessAsymmetric(a: string, b: string)
    requires NameLess(a, b)
    ensures !NameLess(b, a)
  {
    if NameLess(b, a) {
      NameLessTransitive(a, b, a);
      NameLessIrreflexive(a);
    }
  }

  /** `a` may come before `b` in a sorted list. */
  predicate NameLeq(a: string, b: string)
  {
    !NameLess(b, a)
  }

  lemma NameLeqTransitive(a: string, b: string, c: string)
    requires NameLeq(a, b) && NameLeq(b, c)
    ensures NameLeq(a, c)
  {
    if NameLess(c, a) {
      if a == b {
      } else {
        NameLessTotal(a, b);
        NameLessTransitive(c, a, b);
      }
    }
  }

  /** `byName.Less`. */
  predicate Less(x: Command, y: Command)
  {
    NameLess(x.name, y.name)
  }

  /** Non-decreasing `Name()` order. */
  ghost predicate SortedByName(cs: seq<Command>)
  {
    forall i, j :: 0 <= i < j < |cs| ==> NameLeq(cs[i].name, cs[j].name)
  }

  /** `sort.Sort(byName(a))`: sorts in place, using only `Less` and `Swap`.
      Like `sort.Sort`, it promises nothing about the order of equal names. */
  method SortByName(a: array<Command>)
    modifies a
    ensures SortedByName(a[..])
    ensures multiset(a[..]) == multiset(old(a[..]))
  {
    var i := 0;
    while i < a.Length
      invariant 0 <= i <= a.Length
      invariant forall k, l :: 0 <= k < l < i ==> NameLeq(a[k].name, a[l].name)
      invariant multiset(a[..]) == multiset(old(a[..]))
    {
      InsertAt(a, i);
      i := i + 1;
    }
  }

  /** `byName.Swap`: exchanges two entries and leaves the others alone. */
  method Swap(a: array<Command>, i: nat, j: nat)
    requires i < a.Length && j < a.Length
    modifies a
    ensures a[i] == old(a[j]) && a[j] == old(a[i])
    ensures forall k :: 0 <= k < a.Length && k != i && k != j ==> a[k] == old(a[k])
    ensures multiset(a[..]) == multiset(old(a[..]))
  {
    a[i], a[j] := a[j], a[i];
  }

  /** One insertion step: `a[i]` is swapped down into the sorted prefix `a[..i]`. */
  method InsertAt(a: array<Command>, i: nat)
    requires i < a.Length
    requires forall k, l :: 0 <= k < l < i ==> NameLeq(a[k].name, a[l].name)
    modifies a
    ensures forall k, l :: 0 <= k < l <= i ==> NameLeq(a[k].name, a[l].name)
    ensures multiset(a[..]) == multiset(old(a[..]))
  {
    var j := i;
    while j > 0 && Less(a[j], a[j - 1])
      invariant 0 <= j <= i
      invariant forall k, l :: 0 <= k < l <= i && k != j && l != j ==> NameLeq(a[k].name, a[l].name)
      invariant forall l :: j < l <= i ==> NameLeq(a[j].name, a[l].name)
      invariant multiset(a[..]) == multiset(old(a[..]))
    {
      NameLessAsymmetric(a[j].name, a[j - 1].name);
      Swap(a, j, j - 1);
      j := j - 1;
    }
    forall k, l | 0 <= k < l <= i
      ensures NameLeq(a[k].name, a[l].name)
    {
      if l == j && k < j - 1 {
        NameLeqTransitive(a[k].name, a[j - 1].name, a[j].name);
      }
    }
  }
}
