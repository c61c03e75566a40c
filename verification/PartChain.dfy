/** What a part chain is: the path of ancestors, the levels of descendants, and how the two fit together. */
module PartChain {
  import opened Options
  import opened Parts

  // ------------------------------------------------------------------- ancestors

  /** The path runs from a record without a parent down to r's parent, each record the parent of the next. */
  ghost predicate IsAncestorPath(s: Store, r: PartRecord, path: Store)
    decreases |path|
  {
    if path == [] then Parent(s, r).None?
    else
      var last := path[|path| - 1];
      Parent(s, r) == Some(last) && IsAncestorPath(s, last, path[..|path| - 1])
  }

  // ----------------------------------------------------------------- descendants

  predicate IsChild(c: PartRecord, id: string) {
    c.producedFromPartId == Some(id) && Live(c)
  }

  /** The live records linked to an id, in store order. */
  function Children(s: Store, id: string): Store {
    if s == [] then [] else Children(s[..|s| - 1], id) + if IsChild(s[|s| - 1], id) then [s[|s| - 1]] else []
  }

  ghost function ChildrenOfAll(s: Store, parents: Store): Store {
    if parents == [] then []
    else ChildrenOfAll(s, parents[..|parents| - 1]) + Children(s, parents[|parents| - 1].id)
  }

  /** The records k links below a part, level by level. */
  ghost function LevelAt(s: Store, part: PartRecord, k: nat): Store {
    if k == 0 then [part] else ChildrenOfAll(s, LevelAt(s, part, k - 1))
  }

  ghost function UpTo(s: Store, part: PartRecord, k: nat): Store {
    if k == 0 then [] else UpTo(s, part, k - 1) + LevelAt(s, part, k)
  }

  /** All levels below a part, nearest first. */
  ghost predicate IsDescendantList(s: Store, part: PartRecord, list: Store) {
    exists depth: nat :: list == UpTo(s, part, depth) && LevelAt(s, part, depth + 1) == []
  }

  /** The reference definition: d is a live part k links below p, through live parts only. */
  ghost predicate Descends(s: Store, p: PartRecord, d: PartRecord, k: nat)
    decreases k
  {
    if k == 0 then d == p
    else d in s && exists q: PartRecord :: IsChild(d, q.id) && Descends(s, p, q, k - 1)
  }

  /** Reached from p by one link or more. */
  ghost predicate Below(s: Store, p: PartRecord, d: PartRecord) {
    exists k: nat :: k > 0 && Descends(s, p, d, k)
  }

  // --------------------------------------------------------------- lists of levels

  lemma {:induction false} ChildrenMeans(s: Store, id: string)
    ensures forall c :: c in Children(s, id) <==> c in s && IsChild(c, id)
  {
    hide IsChild;
    if s != [] {
      ChildrenMeans(s[..|s| - 1], id);
      assert s == s[..|s| - 1] + [s[|s| - 1]];
    }
  }

  lemma DistinctConcat(a: Store, b: Store)
    requires DistinctIds(a) && DistinctIds(b)
    requires forall x <- a, y <- b :: x.id != y.id
    ensures DistinctIds(a + b)
  {
    forall i, j | 0 <= i < j < |a + b|
      ensures (a + b)[i].id != (a + b)[j].id
    {
      if i < |a| <= j {
        assert a[i] in a && b[j - |a|] in b;
      }
    }
  }

  lemma SameIdSameRecord(s: Store, x: PartRecord, y: PartRecord)
    requires DistinctIds(s) && x in s && y in s && x.id == y.id
    ensures x == y
  {
    GetsItself(s, x);
    GetsItself(s, y);
  }

  lemma {:induction false} ChildrenDistinct(s: Store, id: string)
    requires DistinctIds(s)
    ensures DistinctIds(Children(s, id))
  {
    if s != [] {
      var front, last := s[..|s| - 1], s[|s| - 1];
      ChildrenDistinct(front, id);
      ChildrenMeans(front, id);
      hide Children;
      if IsChild(last, id) {
        DistinctConcat(Children(front, id), [last]);
      }
    }
  }

  lemma {:induction false} ChildrenOfAllMeans(s: Store, parents: Store)
    ensures forall c :: c in ChildrenOfAll(s, parents) <==> c in s && exists p <- parents :: IsChild(c, p.id)
  {
    hide IsChild;
    if parents != [] {
      var front, last := parents[..|parents| - 1], parents[|parents| - 1];
      ChildrenOfAllMeans(s, front);
      ChildrenMeans(s, last.id);
      assert parents == front + [last];
    }
  }

  lemma {:induction false} ChildrenOfAllDistinct(s: Store, parents: Store)
    requires DistinctIds(s) && DistinctIds(parents)
    ensures DistinctIds(ChildrenOfAll(s, parents))
  {
    if parents != [] {
      var front, last := parents[..|parents| - 1], parents[|parents| - 1];
      ChildrenOfAllDistinct(s, front);
      ChildrenDistinct(s, last.id);
      ChildrenOfAllMeans(s, front);
      ChildrenMeans(s, last.id);
      var a, b := ChildrenOfAll(s, front), Children(s, last.id);
      assert ChildrenOfAll(s, parents) == a + b;
      hide ChildrenOfAll, Children;
      forall x <- a, y <- b
        ensures x.id != y.id
      {
        if x.id == y.id {
          SameIdSameRecord(s, x, y);
        }
      }
      DistinctConcat(a, b);
    }
  }

  /** A level holds exactly the records that descend by its number of links. */
  lemma {:induction false} InLevelIffDescends(s: Store, part: PartRecord, d: PartRecord, k: nat)
    ensures d in LevelAt(s, part, k) <==> Descends(s, part, d, k)
    decreases k
  {
    if k > 0 {
      var parents := LevelAt(s, part, k - 1);
      forall q
        ensures q in parents <==> Descends(s, part, q, k - 1)
      {
        InLevelIffDescends(s, part, q, k - 1);
      }
      ChildrenOfAllMeans(s, parents);
      hide LevelAt;
    }
  }

  lemma ParentInLevel(s: Store, part: PartRecord, d: PartRecord, k: nat) returns (p: PartRecord)
    requires k > 0 && d in LevelAt(s, part, k)
    ensures d in s && p in LevelAt(s, part, k - 1) && IsChild(d, p.id)
  {
    var parents := LevelAt(s, part, k - 1);
    ChildrenOfAllMeans(s, parents);
    p :| p in parents && IsChild(d, p.id);
  }

  lemma HeightOfChild(s: Store, d: PartRecord, p: PartRecord, n: nat)
    requires DistinctIds(s) && p in s && IsChild(d, p.id) && HeightIs(s, p, n)
    ensures HeightIs(s, d, n + 1) && Live(d)
  {
    hide DistinctIds, Get;
    GetsItself(s, p);
  }

  lemma LevelZero(s: Store, part: PartRecord, d: PartRecord)
    ensures d in LevelAt(s, part, 0) <==> d == part
  {
  }

  /** Every record k links below a part of height h has height h + k, so it is on no other level. */
  lemma {:induction false} LevelHeight(s: Store, part: PartRecord, h: nat, d: PartRecord, k: nat)
    requires DistinctIds(s) && part in s && HeightIs(s, part, h) && d in LevelAt(s, part, k)
    ensures d in s && HeightIs(s, d, h + k) && (k > 0 ==> Live(d))
    decreases k
  {
    hide *;
    if k == 0 {
      LevelZero(s, part, d);
    } else {
      var p := ParentInLevel(s, part, d, k);
      LevelHeight(s, part, h, p, k - 1);
      HeightOfChild(s, d, p, h + k - 1);
    }
  }

  /** Following links downwards from the part never leads back to it. */
  ghost predicate NoReturn(s: Store, part: PartRecord) {
    forall m: nat :: m > 0 ==> part !in LevelAt(s, part, m)
  }

  lemma {:induction false} LevelInStore(s: Store, part: PartRecord, d: PartRecord, k: nat)
    requires part in s && d in LevelAt(s, part, k)
    ensures d in s && (k > 0 ==> Live(d))
  {
    if k > 0 {
      var p := ParentInLevel(s, part, d, k);
    }
  }

  lemma {:induction false} OneLevelOnly(s: Store, part: PartRecord, d: PartRecord, j: nat, k: nat)
    requires DistinctIds(s) && part in s && NoReturn(s, part)
    requires d in LevelAt(s, part, j) && d in LevelAt(s, part, k)
    ensures j == k
    decreases j
  {
    hide *;
    if j == 0 || k == 0 {
      LevelZero(s, part, d);
      Returned(s, part, j);
      Returned(s, part, k);
    } else {
      var p := ParentInLevel(s, part, d, j);
      var q := ParentInLevel(s, part, d, k);
      LevelInStore(s, part, p, j - 1);
      LevelInStore(s, part, q, k - 1);
      OneParent(s, d, p, q);
      OneLevelOnly(s, part, p, j - 1, k - 1);
    }
  }

  lemma Returned(s: Store, part: PartRecord, m: nat)
    requires NoReturn(s, part)
    ensures m > 0 ==> part !in LevelAt(s, part, m)
  {
  }

  lemma OneParent(s: Store, d: PartRecord, p: PartRecord, q: PartRecord)
    requires DistinctIds(s) && p in s && q in s && IsChild(d, p.id) && IsChild(d, q.id)
    ensures p == q
  {
    SameIdSameRecord(s, p, q);
  }

  lemma {:induction false} LevelDistinct(s: Store, part: PartRecord, k: nat)
    requires DistinctIds(s)
    ensures DistinctIds(LevelAt(s, part, k))
  {
    if k > 0 {
      LevelDistinct(s, part, k - 1);
      ChildrenOfAllDistinct(s, LevelAt(s, part, k - 1));
    }
  }

  ghost predicate InSomeLevel(s: Store, part: PartRecord, k: nat, d: PartRecord) {
    exists j: nat :: 0 < j <= k && d in LevelAt(s, part, j)
  }

  lemma SomeLevel(s: Store, part: PartRecord, j: nat, k: nat, d: PartRecord)
    requires 0 < j <= k && d in LevelAt(s, part, j)
    ensures InSomeLevel(s, part, k, d)
  {
  }

  lemma {:induction false} InUpTo(s: Store, part: PartRecord, k: nat, d: PartRecord)
    ensures d in UpTo(s, part, k) <==> InSomeLevel(s, part, k, d)
  {
    hide LevelAt;
    if k > 0 {
      InUpTo(s, part, k - 1, d);
      assert d in UpTo(s, part, k) <==> d in UpTo(s, part, k - 1) || d in LevelAt(s, part, k);
      if d in LevelAt(s, part, k) {
        SomeLevel(s, part, k, k, d);
      }
      if j: nat :| 0 < j <= k - 1 && d in LevelAt(s, part, j) {
        SomeLevel(s, part, j, k, d);
      }
    }
  }

  lemma LevelApart(s: Store, part: PartRecord, k: nat, x: PartRecord, y: PartRecord)
    requires DistinctIds(s) && part in s && NoReturn(s, part) && k > 0
    requires x in UpTo(s, part, k - 1) && y in LevelAt(s, part, k)
    ensures x in s && y in s && x.id != y.id
  {
    hide LevelAt, DistinctIds, NoReturn, UpTo;
    InUpTo(s, part, k - 1, x);
    var j: nat :| 0 < j <= k - 1 && x in LevelAt(s, part, j);
    LevelInStore(s, part, x, j);
    LevelInStore(s, part, y, k);
    if x.id == y.id {
      SameIdSameRecord(s, x, y);
      OneLevelOnly(s, part, x, j, k);
    }
  }

  lemma {:induction false} UpToDistinct(s: Store, part: PartRecord, k: nat)
    requires DistinctIds(s) && part in s && NoReturn(s, part)
    ensures DistinctIds(UpTo(s, part, k))
    ensures forall d <- UpTo(s, part, k) :: d in s
  {
    hide LevelAt, DistinctIds, NoReturn;
    if k == 0 {
      NoneDistinct();
    } else {
      var a, b := UpTo(s, part, k - 1), LevelAt(s, part, k);
      assert UpTo(s, part, k) == a + b;
      hide UpTo;
      UpToDistinct(s, part, k - 1);
      LevelDistinct(s, part, k);
      forall y <- b
        ensures y in s
      {
        LevelInStore(s, part, y, k);
      }
      forall x <- a, y <- b
        ensures x.id != y.id
      {
        LevelApart(s, part, k, x, y);
      }
      DistinctConcat(a, b);
    }
  }

  lemma NoneDistinct()
    ensures DistinctIds([])
  {
  }

  /** Within the list of levels, what comes later is at least as many links away. */
  lemma {:induction false} UpToOrdered(s: Store, part: PartRecord, k: nat, i: nat, j: nat, a: nat, b: nat)
    requires DistinctIds(s) && part in s && NoReturn(s, part)
    requires i < j < |UpTo(s, part, k)|
    requires UpTo(s, part, k)[i] in LevelAt(s, part, a) && UpTo(s, part, k)[j] in LevelAt(s, part, b)
    ensures a <= b
    decreases k
  {
    hide LevelAt;
    var list, before := UpTo(s, part, k), UpTo(s, part, k - 1);
    if j < |before| {
      assert list[i] == before[i] && list[j] == before[j];
      UpToOrdered(s, part, k - 1, i, j, a, b);
    } else {
      assert list[j] == LevelAt(s, part, k)[j - |before|];
      OneLevelOnly(s, part, list[j], b, k);
      assert list[i] in list;
      InUpTo(s, part, k, list[i]);
      var m: nat :| 0 < m <= k && list[i] in LevelAt(s, part, m);
      OneLevelOnly(s, part, list[i], a, m);
    }
  }

  lemma {:induction false} NothingBelowEmptyLevel(s: Store, part: PartRecord, depth: nat, k: nat)
    requires depth < k && LevelAt(s, part, depth + 1) == []
    ensures LevelAt(s, part, k) == []
    decreases k
  {
    if k > depth + 1 {
      NothingBelowEmptyLevel(s, part, depth, k - 1);
    }
  }

  lemma InDescendantList(s: Store, part: PartRecord, list: Store, d: PartRecord)
    requires IsDescendantList(s, part, list)
    ensures d in list <==> Below(s, part, d)
  {
    var depth: nat :| list == UpTo(s, part, depth) && LevelAt(s, part, depth + 1) == [];
    hide LevelAt;
    InUpTo(s, part, depth, d);
    if d in list {
      var j: nat :| 0 < j <= depth && d in LevelAt(s, part, j);
      InLevelIffDescends(s, part, d, j);
    }
    if Below(s, part, d) {
      var k: nat :| k > 0 && Descends(s, part, d, k);
      InLevelIffDescends(s, part, d, k);
      if k > depth {
        NothingBelowEmptyLevel(s, part, depth, k);
      }
    }
  }

  /**
   * A descendant list is free of duplicates, ordered by distance, and exactly the live parts reached through live
   * parts.
   */
  lemma DescendantListMeans(s: Store, part: PartRecord, list: Store)
    requires DistinctIds(s) && part in s && IsDescendantList(s, part, list)
    ensures DistinctIds(list) && part !in list
    ensures forall d :: d in list <==> Below(s, part, d)
    ensures forall i, j, a, b |
      0 <= i < j < |list| && Descends(s, part, list[i], a) && Descends(s, part, list[j], b) :: a <= b
  {
    hide LevelAt, Descends, Below, NoReturn;
    var depth: nat :| list == UpTo(s, part, depth) && LevelAt(s, part, depth + 1) == [];
    EndedWithoutReturn(s, part, depth);
    UpToDistinct(s, part, depth);
    forall d
      ensures d in list <==> Below(s, part, d)
    {
      InDescendantList(s, part, list, d);
    }
    forall i, j, a, b | 0 <= i < j < |list| && Descends(s, part, list[i], a) && Descends(s, part, list[j], b)
      ensures a <= b
    {
      InLevelIffDescends(s, part, list[i], a);
      InLevelIffDescends(s, part, list[j], b);
      UpToOrdered(s, part, depth, i, j, a, b);
    }
    NotBelowItself(s, part);
  }

  // ------------------------------------------------------------- on plain fields

  ghost predicate NotDeleted(r: PartRecord) {
    r.deletedAt == None || r.deletedAt == Some("")
  }

  /**
   * By the fields: every descendant is stored, not deleted, and names the part or another descendant as the one it was
   * produced from; and every stored part that is not deleted and names one of these is a descendant.
   */
  lemma DescendantsByFields(s: Store, part: PartRecord, list: Store)
    requires IsDescendantList(s, part, list)
    ensures forall d <- list :: d in s && NotDeleted(d)
    ensures forall d <- list :: exists q :: (q == part || q in list) && d.producedFromPartId == Some(q.id)
    ensures forall c, q | c in s && NotDeleted(c) && (q == part || q in list) ::
      c.producedFromPartId == Some(q.id) ==> c in list
  {
    forall d
      ensures d in list <==> Below(s, part, d)
    {
      InDescendantList(s, part, list, d);
    }
    hide IsDescendantList;
    forall d <- list
      ensures d in s && NotDeleted(d)
      ensures exists q :: (q == part || q in list) && d.producedFromPartId == Some(q.id)
    {
      var k: nat :| k > 0 && Descends(s, part, d, k);
      var q: PartRecord :| IsChild(d, q.id) && Descends(s, part, q, k - 1);
      assert k - 1 == 0 || Below(s, part, q);
    }
    forall c, q | c in s && NotDeleted(c) && (q == part || q in list) && c.producedFromPartId == Some(q.id)
      ensures c in list
    {
      ChildIsBelow(s, part, c, q);
    }
  }

  lemma ChildIsBelow(s: Store, part: PartRecord, c: PartRecord, q: PartRecord)
    requires c in s && IsChild(c, q.id) && (q == part || Below(s, part, q))
    ensures Below(s, part, c)
  {
    if q == part {
      assert Descends(s, part, q, 0);
      assert Descends(s, part, c, 1);
    } else {
      var k: nat :| k > 0 && Descends(s, part, q, k);
      assert Descends(s, part, c, k + 1);
    }
  }

  /** No stored record has the id that r was produced from: it names none, the empty one, or one that is not there. */
  ghost predicate NamesNoParent(s: Store, r: PartRecord) {
    forall q <- s :: r.producedFromPartId == Some(q.id) ==> q.id == ""
  }

  ghost predicate Names(r: PartRecord, p: PartRecord) {
    r.producedFromPartId == Some(p.id) && p.id != ""
  }

  /** The record after the k-th on the way down a path to r. */
  ghost function Next(path: Store, r: PartRecord, k: nat): PartRecord {
    if k + 1 < |path| then path[k + 1] else r
  }

  /** By the fields: a path of stored records from one that names no parent, each named by the next, the last by r. */
  ghost predicate IsPathByFields(s: Store, r: PartRecord, path: Store) {
    && (forall k :: 0 <= k < |path| ==> path[k] in s)
    && (forall k :: 0 <= k < |path| ==> Names(Next(path, r, k), path[k]))
    && NamesNoParent(s, if path == [] then r else path[0])
  }

  lemma PathOneMore(s: Store, r: PartRecord, last: PartRecord, front: Store)
    requires IsPathByFields(s, last, front) && last in s && Names(r, last)
    ensures IsPathByFields(s, r, front + [last])
  {
    hide Names, NamesNoParent;
    var path := front + [last];
    forall k | 0 <= k < |path|
      ensures path[k] in s && Names(Next(path, r, k), path[k])
    {
      if k < |front| {
        assert path[k] == front[k] && Next(path, r, k) == Next(front, last, k);
      }
    }
  }

  lemma {:induction false} AncestorsByFields(s: Store, r: PartRecord, path: Store)
    requires IsAncestorPath(s, r, path)
    ensures IsPathByFields(s, r, path)
    decreases |path|
  {
    if path != [] {
      var front, last := path[..|path| - 1], path[|path| - 1];
      AncestorsByFields(s, last, front);
      assert Names(r, last) && last in s;
      hide *;
      PathOneMore(s, r, last, front);
      assert path == front + [last];
    }
  }

  // ------------------------------------------------------- when the levels run out

  /** Below a part that is itself m links below, everything is there again m links further down. */
  lemma {:induction false} LevelsRepeat(s: Store, part: PartRecord, m: nat, d: PartRecord, k: nat)
    requires part in LevelAt(s, part, m) && d in LevelAt(s, part, k)
    ensures d in LevelAt(s, part, m + k)
    decreases k
  {
    hide *;
    if k == 0 {
      LevelZero(s, part, d);
    } else {
      var p := ParentInLevel(s, part, d, k);
      LevelsRepeat(s, part, m, p, k - 1);
      ChildOneDown(s, part, d, p, m + k - 1);
    }
  }

  lemma ChildOneDown(s: Store, part: PartRecord, d: PartRecord, p: PartRecord, k: nat)
    requires d in s && p in LevelAt(s, part, k) && IsChild(d, p.id)
    ensures d in LevelAt(s, part, k + 1)
  {
    ChildrenOfAllMeans(s, LevelAt(s, part, k));
  }

  lemma {:induction false} ReturnsLater(s: Store, part: PartRecord, m: nat, n: nat) returns (k: nat)
    requires m > 0 && part in LevelAt(s, part, m)
    ensures k >= n && part in LevelAt(s, part, k)
  {
    if n == 0 {
      k := m;
    } else {
      var l := ReturnsLater(s, part, m, n - 1);
      LevelsRepeat(s, part, m, part, l);
      k := m + l;
    }
  }

  lemma EndedWithoutReturn(s: Store, part: PartRecord, depth: nat)
    requires LevelAt(s, part, depth + 1) == []
    ensures NoReturn(s, part)
  {
    forall m: nat | m > 0
      ensures part !in LevelAt(s, part, m)
    {
      if part in LevelAt(s, part, m) {
        var k := ReturnsLater(s, part, m, depth + 1);
        NothingBelowEmptyLevel(s, part, depth, k);
      }
    }
  }

  lemma NotBelowItself(s: Store, part: PartRecord)
    ensures NoReturn(s, part) <==> !Below(s, part, part)
  {
    hide LevelAt, Descends;
    forall m: nat
      ensures part in LevelAt(s, part, m) <==> Descends(s, part, part, m)
    {
      InLevelIffDescends(s, part, part, m);
    }
  }

  ghost predicate HasDescendantList(s: Store, part: PartRecord) {
    exists list :: IsDescendantList(s, part, list)
  }

  /** The levels below a part run out exactly when the part is not below itself. */
  lemma LevelsRunOutIff(s: Store, part: PartRecord)
    requires DistinctIds(s) && part in s
    ensures HasDescendantList(s, part) <==> !Below(s, part, part)
  {
    hide LevelAt, UpTo, Below, NoReturn;
    NotBelowItself(s, part);
    if HasDescendantList(s, part) {
      var depth: nat :| LevelAt(s, part, depth + 1) == [];
      EndedWithoutReturn(s, part, depth);
    }
    if NoReturn(s, part) {
      var list := DescendantListExists(s, part);
    }
  }

  // ------------------------------------------------------------------ sizes

  ghost function IdSet(s: Store): set<string> {
    set r <- s :: r.id
  }

  lemma {:induction false} IdSetSize(s: Store)
    ensures |IdSet(s)| <= |s|
    ensures DistinctIds(s) ==> |IdSet(s)| == |s|
  {
    if s != [] {
      var front, last := s[..|s| - 1], s[|s| - 1];
      IdSetSize(front);
      assert s == front + [last];
      assert IdSet(s) == IdSet(front) + {last.id};
      if DistinctIds(s) {
        assert last.id !in IdSet(front);
      }
    }
  }

  lemma SubsetSize(a: Store, s: Store)
    requires DistinctIds(a) && forall x <- a :: x in s
    ensures |a| <= |s|
  {
    IdSetSize(a);
    IdSetSize(s);
    assert IdSet(a) <= IdSet(s);
    SubsetCardinality(IdSet(a), IdSet(s));
  }

  lemma {:induction false} SubsetCardinality(a: set<string>, b: set<string>)
    requires a <= b
    ensures |a| <= |b|
  {
    if a != {} {
      var x :| x in a;
      SubsetCardinality(a - {x}, b - {x});
    }
  }

  lemma {:induction false} FullLevels(s: Store, part: PartRecord, k: nat)
    requires forall j :: 0 < j <= k ==> LevelAt(s, part, j) != []
    ensures |UpTo(s, part, k)| >= k
  {
    hide LevelAt;
    if k > 0 {
      FullLevels(s, part, k - 1);
    }
  }

  /** Levels that never return to the part run out, at the latest after as many as there are records. */
  lemma DescendantListExists(s: Store, part: PartRecord) returns (list: Store)
    requires DistinctIds(s) && part in s && NoReturn(s, part)
    ensures IsDescendantList(s, part, list)
  {
    hide LevelAt, UpTo, NoReturn;
    var n := |s| + 1;
    UpToDistinct(s, part, n);
    SubsetSize(UpTo(s, part, n), s);
    if forall j :: 0 < j <= n ==> LevelAt(s, part, j) != [] {
      FullLevels(s, part, n);
    }
    var j: nat :| 0 < j <= n && LevelAt(s, part, j) == [];
    assert LevelAt(s, part, (j - 1) + 1) == [];
    list := UpTo(s, part, j - 1);
  }

  /** Where the links above a part come to an end, both loops of its chain do. */
  lemma GroundedChainEnds(s: Store, part: PartRecord)
    requires DistinctIds(s) && part in s && Grounded(s, part)
    ensures WalkEnds(s, part) && !Circles(s, part) && NoReturn(s, part) && !Below(s, part, part)
  {
    hide LevelAt, Below, HeightIs, Up, NoReturn, Circles;
    var h: nat :| HeightIs(s, part, h);
    var path := AncestorPathExists(s, part, h);
    PathEndsWalk(s, part, path);
    WalkEndsIff(s, part);
    NeverReturns(s, part, h);
    NotBelowItself(s, part);
  }

  lemma NeverReturns(s: Store, part: PartRecord, h: nat)
    requires DistinctIds(s) && part in s && HeightIs(s, part, h)
    ensures NoReturn(s, part)
  {
    hide LevelAt, HeightIs;
    forall m: nat | m > 0
      ensures part !in LevelAt(s, part, m)
    {
      if part in LevelAt(s, part, m) {
        LevelHeight(s, part, h, part, m);
        HeightUnique(s, part, h, h + m);
      }
    }
  }

  lemma {:induction false} AncestorPathExists(s: Store, r: PartRecord, h: nat) returns (path: Store)
    requires HeightIs(s, r, h)
    ensures IsAncestorPath(s, r, path)
    decreases h
  {
    var p := Parent(s, r);
    if p.None? {
      path := [];
    } else {
      var above := AncestorPathExists(s, p.value, h - 1);
      path := above + [p.value];
      assert path[..|path| - 1] == above;
    }
  }

  // --------------------------------------------------------------------- duality

  /** p is in the path and every part below it in the path is live. */
  ghost predicate ReachedThroughLive(path: Store, p: PartRecord) {
    exists i: nat :: i < |path| && path[i] == p && forall j :: i < j < |path| ==> Live(path[j])
  }

  /** No live part links by the empty id to a stored part: the upward walk would not follow that link. */
  ghost predicate NoEmptyIdLink(s: Store) {
    Get(s, "").Some? ==> forall r <- s :: !IsChild(r, "")
  }

  lemma {:induction false} DescendsIsOnPath(s: Store, p: PartRecord, d: PartRecord, k: nat, path: Store)
    requires DistinctIds(s) && NoEmptyIdLink(s) && p in s && k > 0
    requires Descends(s, p, d, k) && IsAncestorPath(s, d, path)
    ensures k <= |path| && path[|path| - k] == p && forall j :: |path| - k < j < |path| ==> Live(path[j])
    decreases k
  {
    var q: PartRecord :| IsChild(d, q.id) && Descends(s, p, q, k - 1);
    assert q in s;
    GetsItself(s, q);
    assert Parent(s, d) == Some(q);
    if k > 1 {
      var above := path[..|path| - 1];
      DescendsIsOnPath(s, p, q, k - 1, above);
      assert path == above + [q];
    }
  }

  lemma {:induction false} OnPathDescends(s: Store, p: PartRecord, d: PartRecord, path: Store, i: nat)
    requires d in s && Live(d) && IsAncestorPath(s, d, path)
    requires i < |path| && path[i] == p && forall j :: i < j < |path| ==> Live(path[j])
    ensures Descends(s, p, d, |path| - i)
    decreases |path|
  {
    var q, above := path[|path| - 1], path[..|path| - 1];
    assert Parent(s, d) == Some(q) && IsChild(d, q.id);
    if i == |path| - 1 {
      assert Descends(s, p, q, 0);
    } else {
      OnPathDescends(s, p, q, above, i);
    }
  }

  /** d is a descendant of p exactly when p is an ancestor of d with only live parts between them. */
  lemma Duality(s: Store, p: PartRecord, d: PartRecord, list: Store, path: Store)
    requires DistinctIds(s) && NoEmptyIdLink(s) && p in s && d in s && Live(d)
    requires IsDescendantList(s, p, list) && IsAncestorPath(s, d, path)
    ensures d in list <==> ReachedThroughLive(path, p)
  {
    hide IsDescendantList;
    InDescendantList(s, p, list, d);
    if d in list {
      var k: nat :| k > 0 && Descends(s, p, d, k);
      DescendsIsOnPath(s, p, d, k, path);
    }
    if ReachedThroughLive(path, p) {
      var i: nat :| i < |path| && path[i] == p && forall j :: i < j < |path| ==> Live(path[j]);
      OnPathDescends(s, p, d, path, i);
    }
  }

  ghost predicate DualEverywhere(s: Store) {
    forall p, d, list, path ::
      p in s && d in s && Live(d) && IsDescendantList(s, p, list) && IsAncestorPath(s, d, path)
      ==> (d in list <==> ReachedThroughLive(path, p))
  }

  /** Duality holds throughout a store without endless chains exactly when no live part links by the empty id. */
  lemma DualityIff(s: Store)
    requires DistinctIds(s) && forall r <- s :: Grounded(s, r)
    ensures DualEverywhere(s) <==> NoEmptyIdLink(s)
  {
    hide IsDescendantList, IsAncestorPath, Live;
    if NoEmptyIdLink(s) {
      forall p, d, list, path
        | p in s && d in s && Live(d) && IsDescendantList(s, p, list) && IsAncestorPath(s, d, path)
        ensures d in list <==> ReachedThroughLive(path, p)
      {
        Duality(s, p, d, list, path);
      }
    } else {
      var r :| r in s && IsChild(r, "");
      EmptyIdLinkBreaksDuality(s, r);
    }
  }

  lemma EmptyIdLinkBreaksDuality(s: Store, r: PartRecord)
    requires DistinctIds(s) && r in s && IsChild(r, "") && Get(s, "").Some?
    requires forall r <- s :: Grounded(s, r)
    ensures !DualEverywhere(s)
  {
    var p := Get(s, "").value;
    GroundedChainEnds(s, p);
    var list := DescendantListExists(s, p);
    InDescendantList(s, p, list, r);
    assert Descends(s, p, p, 0);
    assert Descends(s, p, r, 1);
    assert r in list;
    assert IsAncestorPath(s, r, []);
    assert !ReachedThroughLive([], p);
  }

  // ----------------------------------------------------------- when the walk ends

  /** The record the upward walk stands on after n steps. */
  ghost function Up(s: Store, r: PartRecord, n: nat): Option<PartRecord> {
    if n == 0 then Some(r)
    else
      var below := Up(s, r, n - 1);
      if below.None? then None else Parent(s, below.value)
  }

  lemma {:induction false} UpFromParent(s: Store, r: PartRecord, n: nat)
    ensures Up(s, r, n + 1) == if Parent(s, r).None? then None else Up(s, Parent(s, r).value, n)
  {
    if n > 0 {
      UpFromParent(s, r, n - 1);
    } else {
      assert Up(s, r, 0) == Some(r);
    }
  }

  lemma {:induction false} PathEndsWalk(s: Store, r: PartRecord, path: Store)
    requires IsAncestorPath(s, r, path)
    ensures Up(s, r, |path| + 1).None?
    decreases |path|
  {
    UpFromParent(s, r, |path|);
    if path != [] {
      PathEndsWalk(s, path[|path| - 1], path[..|path| - 1]);
    }
  }

  lemma {:induction false} EndOfWalkIsPath(s: Store, r: PartRecord, n: nat) returns (path: Store)
    requires Up(s, r, n).None?
    ensures IsAncestorPath(s, r, path)
    decreases n
  {
    UpFromParent(s, r, n - 1);
    var p := Parent(s, r);
    if p.None? {
      path := [];
    } else {
      var above := EndOfWalkIsPath(s, p.value, n - 1);
      path := above + [p.value];
      assert path[..|path| - 1] == above;
    }
  }

  ghost predicate WalkEnds(s: Store, r: PartRecord) {
    exists n: nat :: Up(s, r, n).None?
  }

  ghost predicate HasAncestorPath(s: Store, r: PartRecord) {
    exists path :: IsAncestorPath(s, r, path)
  }

  /** The upward walk from a part comes to an end exactly when the part has an ancestor path. */
  lemma WalkEndsAtPath(s: Store, r: PartRecord)
    ensures WalkEnds(s, r) <==> HasAncestorPath(s, r)
  {
    if WalkEnds(s, r) {
      var n: nat :| Up(s, r, n).None?;
      var path := EndOfWalkIsPath(s, r, n);
    }
    if HasAncestorPath(s, r) {
      var path :| IsAncestorPath(s, r, path);
      PathEndsWalk(s, r, path);
    }
  }

  /** The walk stands on one record twice, after i and after j steps. */
  ghost predicate StandsTwice(s: Store, r: PartRecord, i: nat, j: nat) {
    i < j && Up(s, r, i).Some? && Up(s, r, i) == Up(s, r, j)
  }

  ghost predicate Circles(s: Store, r: PartRecord) {
    exists i, j :: StandsTwice(s, r, i, j)
  }

  lemma UpInStore(s: Store, r: PartRecord, n: nat)
    requires r in s && Up(s, r, n).Some?
    ensures Up(s, r, n).value in s
  {
  }

  lemma {:induction false} UpEarlier(s: Store, r: PartRecord, m: nat, n: nat)
    requires m <= n && Up(s, r, n).Some?
    ensures Up(s, r, m).Some?
    decreases n
  {
    if m < n {
      UpEarlier(s, r, m, n - 1);
    }
  }

  lemma {:induction false} UpRepeats(s: Store, r: PartRecord, i: nat, j: nat, n: nat)
    requires StandsTwice(s, r, i, j)
    ensures Up(s, r, i + n) == Up(s, r, j + n)
  {
    if n > 0 {
      UpRepeats(s, r, i, j, n - 1);
    }
  }

  /** Once it stands on a record twice, the walk goes on for any number of steps. */
  lemma {:induction false} CirclesForever(s: Store, r: PartRecord, i: nat, j: nat, n: nat)
    requires StandsTwice(s, r, i, j)
    ensures Up(s, r, i + n).Some?
  {
    if n < j - i {
      UpEarlier(s, r, i + n, j);
    } else {
      CirclesForever(s, r, i, j, n - (j - i));
      UpRepeats(s, r, i, j, n - (j - i));
    }
  }

  ghost function FirstSteps(s: Store, r: PartRecord, n: nat): (steps: Store)
    requires Up(s, r, n).Some?
    ensures |steps| == n + 1
  {
    if n == 0 then [r] else FirstSteps(s, r, n - 1) + [Up(s, r, n).value]
  }

  lemma {:induction false} StepOfWalk(s: Store, r: PartRecord, n: nat, k: nat)
    requires Up(s, r, n).Some? && k <= n
    ensures Up(s, r, k) == Some(FirstSteps(s, r, n)[k])
  {
    if k < n {
      StepOfWalk(s, r, n - 1, k);
    }
  }

  /** As many steps as there are records, if the walk can make them, lead to a record it has been on. */
  lemma LongWalkCircles(s: Store, r: PartRecord)
    requires DistinctIds(s) && r in s && Up(s, r, |s|).Some?
    ensures Circles(s, r)
  {
    hide Up, FirstSteps, StandsTwice;
    var steps := FirstSteps(s, r, |s|);
    forall k | 0 <= k < |steps|
      ensures Up(s, r, k) == Some(steps[k]) && steps[k] in s
    {
      StepOfWalk(s, r, |s|, k);
      UpInStore(s, r, k);
    }
    if DistinctIds(steps) {
      SubsetSize(steps, s);
    } else {
      var i, j :| 0 <= i < j < |steps| && steps[i].id == steps[j].id;
      SameIdSameRecord(s, steps[i], steps[j]);
      TwiceThere(s, r, i, j);
    }
  }

  lemma TwiceThere(s: Store, r: PartRecord, i: nat, j: nat)
    requires i < j && Up(s, r, i).Some? && Up(s, r, i) == Up(s, r, j)
    ensures Circles(s, r)
  {
    assert StandsTwice(s, r, i, j);
  }

  /** The upward walk ends, within as many steps as there are records, exactly when it stands on no record twice. */
  lemma WalkEndsIff(s: Store, r: PartRecord)
    requires DistinctIds(s) && r in s
    ensures WalkEnds(s, r) <==> !Circles(s, r)
    ensures WalkEnds(s, r) <==> Up(s, r, |s|).None?
  {
    hide Up, StandsTwice;
    if i: nat, j: nat :| StandsTwice(s, r, i, j) {
      forall n: nat
        ensures Up(s, r, n).Some?
      {
        CirclesForever(s, r, i, j, n);
        UpEarlier(s, r, n, i + n);
      }
    } else if Up(s, r, |s|).Some? {
      LongWalkCircles(s, r);
    }
  }

  /** Two live parts that name each other, saved one after the other, are a store on which neither loop ends. */
  lemma TwoPartsInACircle(a: PartRecord, b: PartRecord)
    requires a.id != b.id && a.id != "" && b.id != "" && Live(a) && Live(b)
    requires a.producedFromPartId == Some(b.id) && b.producedFromPartId == Some(a.id)
    ensures var s := Saved(Saved([], a), b);
      DistinctIds(s) && Get(s, a.id) == Some(a) && Circles(s, a) && !WalkEnds(s, a) && Below(s, a, a)
  {
    var s := Saved(Saved([], a), b);
    assert Saved([], a) == [a];
    assert s == [a] + Saved([a][1..], b) == [a, b];
    GetsItself(s, a);
    GetsItself(s, b);
    assert Up(s, a, 0) == Some(a) && Up(s, a, 1) == Some(b) && Up(s, a, 2) == Some(a);
    TwiceThere(s, a, 0, 2);
    WalkEndsIff(s, a);
    assert Descends(s, a, a, 0) && IsChild(b, a.id) && IsChild(a, b.id);
    assert Descends(s, a, b, 1);
    assert Descends(s, a, a, 2);
  }
}
