/** Small facts about sequences and numbers that several modules share. */
module Lists {
  function Min(a: nat, b: nat): nat {
    if a < b then a else b
  }

  ghost predicate Distinct<T>(s: seq<T>) {
    forall i, j :: 0 <= i < j < |s| ==> s[i] != s[j]
  }

  /** a and b together have the elements of all, with multiplicity. */
  ghost predicate SharedOut<T>(a: seq<T>, b: seq<T>, all: seq<T>) {
    multiset(a) + multiset(b) == multiset(all)
  }

  lemma ShareNone<T>()
    ensures SharedOut<T>([], [], [])
  {
  }

  lemma ShareOneMore<T>(a: seq<T>, b: seq<T>, all: seq<T>, x: T)
    requires SharedOut(a, b, all)
    ensures SharedOut(a + [x], b, all + [x]) && SharedOut(a, b + [x], all + [x])
  {
  }
}
