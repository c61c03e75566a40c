/** The order in which the scheduler serves demands: its comparator, and what a stable sort by it delivers. */
module DemandOrder {
  import opened Options

  /** What a Date can hold, in milliseconds. */
  const MAX_TIME := 8_640_000_000_000_000
  type Instant = t: int | -MAX_TIME <= t <= MAX_TIME
  const MAX_SAFE_INTEGER := 9_007_199_254_740_991

  datatype Demand = Demand(
    workOrderId: string, operationId: string, estimatedHours: real, priority: real, dueAt: Option<Instant>)

  /** `localeCompare` as an arbitrary total preorder of strings: the sign of a difference of ranks. */
  type Collation = string -> real

  function ToTimestamp(value: Option<Instant>): int {
    match value
    case Some(t) => t
    case None => MAX_SAFE_INTEGER
  }

  function Compare(collation: Collation, left: Demand, right: Demand): real {
    if left.priority != right.priority then right.priority - left.priority
    else
      var dueDelta := ToTimestamp(left.dueAt) - ToTimestamp(right.dueAt);
      if dueDelta != 0 then dueDelta as real
      else collation(left.workOrderId) - collation(right.workOrderId)
  }

  ghost predicate Sorted(c: Collation, s: seq<Demand>) {
    forall i, j :: 0 <= i < j < |s| ==> Compare(c, s[i], s[j]) <= 0.0
  }

  /** The demands of s that compare equal to d, in their order. */
  ghost function Ties(c: Collation, s: seq<Demand>, d: Demand): seq<Demand> {
    if s == [] then [] else (if Compare(c, s[0], d) == 0.0 then [s[0]] else []) + Ties(c, s[1..], d)
  }

  /** What JavaScript's sort promises: the output is sorted, and demands that compare equal keep their order. */
  ghost predicate IsStableSort(c: Collation, input: seq<Demand>, output: seq<Demand>) {
    Sorted(c, output) && forall d :: Ties(c, output, d) == Ties(c, input, d)
  }

  function Insert(c: Collation, d: Demand, s: seq<Demand>): seq<Demand> {
    if s == [] || Compare(c, d, s[0]) <= 0.0 then [d] + s else [s[0]] + Insert(c, d, s[1..])
  }

  function SortDemands(c: Collation, demands: seq<Demand>): seq<Demand> {
    if demands == [] then [] else Insert(c, demands[0], SortDemands(c, demands[1..]))
  }

  // ---------------------------------------------------------- the comparator

  lemma CompareIsPreorder(c: Collation, a: Demand, b: Demand, d: Demand)
    ensures Compare(c, a, a) == 0.0
    ensures Compare(c, a, b) == -Compare(c, b, a)
    ensures Compare(c, a, b) <= 0.0 && Compare(c, b, d) <= 0.0 ==> Compare(c, a, d) <= 0.0
    ensures Compare(c, a, b) == 0.0 ==> (Compare(c, a, d) == 0.0 <==> Compare(c, b, d) == 0.0)
  {
  }

  /** Higher priority first, then the earlier due date, with no due date last of all, then the lower-ranked id. */
  lemma CompareMeans(c: Collation, a: Demand, b: Demand)
    ensures a.priority > b.priority ==> Compare(c, a, b) < 0.0
    ensures a.priority == b.priority && a.dueAt.Some? && b.dueAt.None? ==> Compare(c, a, b) < 0.0
    ensures a.priority == b.priority && a.dueAt.Some? && b.dueAt.Some? && a.dueAt.value < b.dueAt.value
        ==> Compare(c, a, b) < 0.0
    ensures a.priority == b.priority && a.dueAt == b.dueAt && c(a.workOrderId) < c(b.workOrderId)
        ==> Compare(c, a, b) < 0.0
    ensures Compare(c, a, b) == 0.0
       <==> a.priority == b.priority && a.dueAt == b.dueAt && c(a.workOrderId) == c(b.workOrderId)
  {
  }

  // ------------------------------------------------------------ stable sorting

  lemma {:induction false} InsertSplits(c: Collation, d: Demand, s: seq<Demand>) returns (k: nat)
    ensures k <= |s| && Insert(c, d, s) == s[..k] + [d] + s[k..]
    ensures forall i :: 0 <= i < k ==> Compare(c, d, s[i]) > 0.0
    ensures k < |s| ==> Compare(c, d, s[k]) <= 0.0
  {
    hide Compare;
    if s == [] || Compare(c, d, s[0]) <= 0.0 {
      k := 0;
    } else {
      var m := InsertSplits(c, d, s[1..]);
      k := m + 1;
      assert s[..k] == [s[0]] + s[1..][..m];
      assert s[k..] == s[1..][m..];
    }
  }

  lemma InsertKeepsSorted(c: Collation, d: Demand, s: seq<Demand>)
    requires Sorted(c, s)
    ensures Sorted(c, Insert(c, d, s))
  {
    hide Compare;
    var k := InsertSplits(c, d, s);
    forall i | 0 <= i < |s|
      ensures i < k ==> Compare(c, s[i], d) <= 0.0
      ensures i >= k ==> Compare(c, d, s[i]) <= 0.0
    {
      CompareIsPreorder(c, d, s[i], d);
      if i > k {
        CompareIsPreorder(c, d, s[k], s[i]);
      }
    }
    var t := s[..k] + [d] + s[k..];
    assert forall i :: 0 <= i < |t| ==> t[i] == if i < k then s[i] else if i == k then d else s[i - 1];
  }

  lemma {:induction false} InsertTies(c: Collation, d: Demand, s: seq<Demand>, e: Demand)
    ensures Ties(c, Insert(c, d, s), e) == Ties(c, [d] + s, e)
  {
    hide Compare;
    assert ([d] + s)[1..] == s;
    if s == [] || Compare(c, d, s[0]) <= 0.0 {
    } else {
      InsertTies(c, d, s[1..], e);
      var rest := Insert(c, d, s[1..]);
      assert ([d] + s[1..])[1..] == s[1..];
      assert ([s[0]] + rest)[1..] == rest;
      CompareIsPreorder(c, d, e, s[0]);
      CompareIsPreorder(c, e, s[0], e);
    }
  }

  /** The sort is sorted and stable. */
  lemma {:induction false} SortIsStableSort(c: Collation, demands: seq<Demand>)
    ensures IsStableSort(c, demands, SortDemands(c, demands))
  {
    hide Compare;
    if demands != [] {
      var rest := SortDemands(c, demands[1..]);
      SortIsStableSort(c, demands[1..]);
      InsertKeepsSorted(c, demands[0], rest);
      forall e
        ensures Ties(c, Insert(c, demands[0], rest), e) == Ties(c, demands, e)
      {
        InsertTies(c, demands[0], rest, e);
        assert ([demands[0]] + rest)[1..] == rest;
      }
    }
  }

  lemma {:induction false} TiesAreTied(c: Collation, s: seq<Demand>, d: Demand)
    ensures forall x <- Ties(c, s, d) :: x in s && Compare(c, x, d) == 0.0
    ensures forall x <- s :: Compare(c, x, d) == 0.0 ==> x in Ties(c, s, d)
  {
    hide Compare;
    if s != [] {
      TiesAreTied(c, s[1..], d);
    }
  }

  /** Sortedness and stability leave no choice: at most one sequence is a stable sort of an input. */
  lemma {:induction false} StableSortUnique(c: Collation, a: seq<Demand>, b: seq<Demand>)
    requires Sorted(c, a) && Sorted(c, b)
    requires forall d :: Ties(c, a, d) == Ties(c, b, d)
    ensures a == b
  {
    hide Compare;
    if a == [] {
      if b != [] {
        TieOfHead(c, b);
      }
    } else {
      TieOfHead(c, a);
      assert Ties(c, b, a[0]) != [];
      TieOfHead(c, b);
      HeadLeast(c, b, a[0]);
      HeadLeast(c, a, b[0]);
      CompareIsPreorder(c, a[0], b[0], a[0]);
      assert a[0] == Ties(c, a, a[0])[0] == Ties(c, b, a[0])[0] == b[0];
      forall d
        ensures Ties(c, a[1..], d) == Ties(c, b[1..], d)
      {
        assert Ties(c, a, d) == Ties(c, b, d);
        var head := if Compare(c, a[0], d) == 0.0 then [a[0]] else [];
        assert Ties(c, a[1..], d) == Ties(c, a, d)[|head|..];
        assert Ties(c, b[1..], d) == Ties(c, b, d)[|head|..];
      }
      StableSortUnique(c, a[1..], b[1..]);
      assert a == [a[0]] + a[1..] && b == [b[0]] + b[1..];
    }
  }

  lemma TieOfHead(c: Collation, s: seq<Demand>)
    requires s != []
    ensures Ties(c, s, s[0]) != [] && Ties(c, s, s[0])[0] == s[0]
  {
    CompareIsPreorder(c, s[0], s[0], s[0]);
  }

  lemma HeadLeast(c: Collation, s: seq<Demand>, d: Demand)
    requires Sorted(c, s) && Ties(c, s, d) != []
    ensures Compare(c, s[0], d) <= 0.0
  {
    hide Compare;
    TiesAreTied(c, s, d);
    var x := Ties(c, s, d)[0];
    assert x in Ties(c, s, d);
    var i :| 0 <= i < |s| && s[i] == x;
    CompareIsPreorder(c, s[0], s[0], s[0]);
    CompareIsPreorder(c, s[0], x, d);
  }

  lemma {:induction false} TiesCount(c: Collation, s: seq<Demand>, x: Demand)
    ensures multiset(s)[x] == multiset(Ties(c, s, x))[x]
  {
    if s != [] {
      TiesCount(c, s[1..], x);
      CompareIsPreorder(c, s[0], x, x);
      CompareIsPreorder(c, x, x, x);
      assert s == [s[0]] + s[1..];
      assert multiset(s) == multiset{s[0]} + multiset(s[1..]);
    }
  }

  /** A stable sort neither loses nor invents demands. */
  lemma StableSortPermutes(c: Collation, input: seq<Demand>, output: seq<Demand>)
    requires IsStableSort(c, input, output)
    ensures multiset(output) == multiset(input)
    ensures |output| == |input|
  {
    forall x
      ensures multiset(output)[x] == multiset(input)[x]
    {
      TiesCount(c, input, x);
      TiesCount(c, output, x);
    }
    assert multiset(output) == multiset(input);
    assert |output| == |multiset(output)| == |multiset(input)| == |input|;
  }

  /** No two positions compare equal. */
  ghost predicate DistinctKeys(c: Collation, s: seq<Demand>) {
    forall i, j :: 0 <= i < j < |s| ==> Compare(c, s[i], s[j]) != 0.0
  }

  lemma {:induction false} FewTies(c: Collation, s: seq<Demand>, d: Demand)
    requires DistinctKeys(c, s)
    ensures |Ties(c, s, d)| <= 1
  {
    hide Compare;
    if s != [] {
      FewTies(c, s[1..], d);
      if Compare(c, s[0], d) == 0.0 && Ties(c, s[1..], d) != [] {
        TiesAreTied(c, s[1..], d);
        var x := Ties(c, s[1..], d)[0];
        assert x in Ties(c, s[1..], d);
        var i :| 0 <= i < |s[1..]| && s[1..][i] == x;
        CompareIsPreorder(c, s[0], d, x);
        CompareIsPreorder(c, x, d, x);
      }
    }
  }

  lemma SameTies(c: Collation, a: seq<Demand>, b: seq<Demand>, d: Demand)
    requires multiset(a) == multiset(b) && DistinctKeys(c, a) && DistinctKeys(c, b)
    ensures Ties(c, a, d) == Ties(c, b, d)
  {
    hide Compare, Ties;
    FewTies(c, a, d);
    FewTies(c, b, d);
    hide DistinctKeys;
    TiesAreTied(c, a, d);
    TiesAreTied(c, b, d);
    var ta, tb := Ties(c, a, d), Ties(c, b, d);
    if ta != [] {
      assert ta[0] in ta && ta[0] in multiset(a);
      assert ta[0] in b;
    }
    if tb != [] {
      assert tb[0] in tb && tb[0] in multiset(b);
      assert tb[0] in a;
    }
  }

  /** With pairwise distinct keys the order of the input does not matter. */
  lemma SortOfPermutation(c: Collation, a: seq<Demand>, b: seq<Demand>)
    requires multiset(a) == multiset(b) && DistinctKeys(c, a) && DistinctKeys(c, b)
    ensures SortDemands(c, a) == SortDemands(c, b)
  {
    hide Compare, SortDemands, Ties, DistinctKeys;
    SortIsStableSort(c, a);
    SortIsStableSort(c, b);
    forall d
      ensures Ties(c, a, d) == Ties(c, b, d)
    {
      SameTies(c, a, b, d);
    }
    StableSortUnique(c, SortDemands(c, a), SortDemands(c, b));
  }

  // -------------------------------------------------------- adding one demand

  lemma {:induction false} InsertIntoFront(c: Collation, d: Demand, a: seq<Demand>, b: seq<Demand>)
    ensures (forall x <- a :: Compare(c, d, x) > 0.0) ==> Insert(c, d, a + b) == a + Insert(c, d, b)
    ensures (exists x <- a :: Compare(c, d, x) <= 0.0) ==> Insert(c, d, a + b) == Insert(c, d, a) + b
  {
    hide Compare;
    if a == [] {
      assert a + b == b;
    } else {
      assert (a + b)[0] == a[0] && (a + b)[1..] == a[1..] + b;
      InsertIntoFront(c, d, a[1..], b);
      if Compare(c, d, a[0]) <= 0.0 {
        assert [d] + (a + b) == [d] + a + b;
      } else {
        assert a == [a[0]] + a[1..];
      }
    }
  }

  /** One more demand goes in at one place of the sorted order and moves nothing else. */
  lemma {:induction false} SortWithOneMore(c: Collation, demands: seq<Demand>, p: nat, x: Demand) returns (k: nat)
    requires p <= |demands|
    ensures var s := SortDemands(c, demands);
      k <= |s| && SortDemands(c, demands[..p] + [x] + demands[p..]) == s[..k] + [x] + s[k..]
    decreases p
  {
    hide Compare;
    var more := demands[..p] + [x] + demands[p..];
    if p == 0 {
      assert more == [x] + demands;
      assert more[1..] == demands;
      k := InsertSplits(c, x, SortDemands(c, demands));
    } else {
      var rest := demands[1..];
      var t, d := SortDemands(c, rest), demands[0];
      assert more[1..] == rest[..p - 1] + [x] + rest[p - 1..];
      var m := SortWithOneMore(c, rest, p - 1, x);
      SortIsStableSort(c, more[1..]);
      assert t[..m] + [x] + t[m..] == t[..m] + ([x] + t[m..]);
      k := InsertAround(c, d, t[..m], x, t[m..]);
      assert t == t[..m] + t[m..];
    }
  }

  lemma InsertBeforeHead(c: Collation, d: Demand, x: Demand, b: seq<Demand>)
    ensures Insert(c, d, [x] + b) == if Compare(c, d, x) <= 0.0 then [d] + ([x] + b) else [x] + Insert(c, d, b)
  {
    assert ([x] + b)[1..] == b;
  }

  lemma InsertAround(c: Collation, d: Demand, a: seq<Demand>, x: Demand, b: seq<Demand>) returns (k: nat)
    requires Sorted(c, a + ([x] + b))
    ensures var s := Insert(c, d, a + b); k <= |s| && Insert(c, d, a + ([x] + b)) == s[..k] + [x] + s[k..]
  {
    hide Compare;
    InsertIntoFront(c, d, a, [x] + b);
    InsertIntoFront(c, d, a, b);
    InsertBeforeHead(c, d, x, b);
    var first: seq<Demand>, last: seq<Demand>;
    if exists e <- a :: Compare(c, d, e) <= 0.0 {
      first, last := Insert(c, d, a), b;
    } else if Compare(c, d, x) <= 0.0 {
      if b != [] {
        assert (a + ([x] + b))[|a|] == x && (a + ([x] + b))[|a| + 1] == b[0];
        CompareIsPreorder(c, d, x, b[0]);
      }
      assert Insert(c, d, b) == [d] + b;
      assert a + ([d] + b) == a + [d] + b && a + ([d] + ([x] + b)) == a + [d] + ([x] + b);
      first, last := a + [d], b;
    } else {
      assert a + ([x] + Insert(c, d, b)) == a + ([x] + Insert(c, d, b));
      first, last := a, Insert(c, d, b);
    }
    k := Around(first, x, last);
  }

  lemma Around(first: seq<Demand>, x: Demand, last: seq<Demand>) returns (k: nat)
    ensures var s := first + last; k <= |s| && first + ([x] + last) == s[..k] + [x] + s[k..]
  {
    k := |first|;
  }
}
