/** The in-memory part repository: a map of records, and the chain of a part, read off without a visited set. */
module PartRepository {
  import opened Options
  import opened Parts
  import opened PartChain

  datatype Chain = Chain(ancestors: Store, part: PartRecord, descendants: Store)

  class InMemoryPartRepository {
    var records: Store

    ghost predicate Valid()
      reads this
    {
      DistinctIds(records)
    }

    constructor ()
      ensures Valid() && records == []
    {
      records := [];
    }

    method Save(record: PartRecord)
      requires Valid()
      modifies this
      ensures Valid()
      ensures |records| == |old(records)| + if Get(old(records), record.id).Some? then 0 else 1
      ensures forall i :: 0 <= i < |old(records)| ==>
        records[i] == if old(records)[i].id == record.id then record else old(records)[i]
      ensures |records| > |old(records)| ==> records[|old(records)|] == record
    {
      SavedKeepsPlaces(records, record);
      SavedKeepsDistinct(records, record);
      records := Saved(records, record);
    }

    method SoftDelete(id: string, now: string)
      requires Valid()
      modifies this
      ensures Valid() && |records| == |old(records)|
      ensures forall i :: 0 <= i < |records| ==>
        records[i] == if old(records)[i].id == id then old(records)[i].(deletedAt := Some(now)) else old(records)[i]
    {
      var record := Get(records, id);
      if record.Some? {
        SavedKeepsPlaces(records, record.value.(deletedAt := Some(now)));
        SavedKeepsDistinct(records, record.value.(deletedAt := Some(now)));
        forall i | 0 <= i < |records| && records[i].id == id
          ensures records[i] == record.value
        {
          SameIdSameRecord(records, records[i], record.value);
        }
        records := Saved(records, record.value.(deletedAt := Some(now)));
      }
    }

    /** The chain of a part. Without these conditions, and only then, one of the two loops does not end. */
    method GetChain(partId: string) returns (chain: Option<Chain>)
      requires Valid()
      requires var part := Get(records, partId);
        part.Some? ==> !Circles(records, part.value) && !Below(records, part.value, part.value)
      ensures chain.None? <==> Get(records, partId).None?
      ensures chain.Some? ==>
        && Some(chain.value.part) == Get(records, partId)
        && IsAncestorPath(records, chain.value.part, chain.value.ancestors)
        && IsDescendantList(records, chain.value.part, chain.value.descendants)
    {
      var found := Get(records, partId);
      if found.None? {
        return None;
      }
      var part := found.value;
      var ancestors := Ancestors(part);
      var descendants := Descendants(part);
      return Some(Chain(ancestors, part, descendants));
    }

    method Ancestors(part: PartRecord) returns (ancestors: Store)
      requires Valid() && part in records && !Circles(records, part)
      ensures IsAncestorPath(records, part, ancestors)
    {
      WalkEndsIff(records, part);
      WalkEndsAtPath(records, part);
      ghost var path :| IsAncestorPath(records, part, path);
      ghost var k := |path|;
      ghost var below := part;
      assert path[..k] == path;
      ancestors := [];
      var cursor := Parent(records, part);
      while cursor.Some?
        invariant 0 <= k <= |path| && ancestors == path[k..]
        invariant IsAncestorPath(records, below, path[..k]) && cursor == Parent(records, below)
        decreases k
      {
        assert path[..k][..k - 1] == path[..k - 1];
        below := cursor.value;
        k := k - 1;
        assert path[k..] == [cursor.value] + path[k + 1..];
        ancestors := [cursor.value] + ancestors;
        cursor := Parent(records, cursor.value);
      }
    }

    method Descendants(part: PartRecord) returns (descendants: Store)
      requires Valid() && part in records && !Below(records, part, part)
      ensures IsDescendantList(records, part, descendants)
    {
      ghost var depth := LastLevel(records, part);
      hide *;
      ghost var k: nat, i: nat := 0, 0;
      descendants := [];
      var toVisit := [part];
      FirstTurn(records, part);
      while |toVisit| > 0
        invariant AtTurn(records, part, k, i, descendants, toVisit)
        decreases |UpTo(records, part, depth)| + 1 - Popped(records, part, k, i)
      {
        ghost var wasDescendants, wasToVisit := descendants, toVisit;
        var current := toVisit[0];
        toVisit := toVisit[1..];
        ghost var rest := toVisit;
        NoChildren(records, current.id);
        assert descendants == wasDescendants + [] && toVisit == rest + [];
        for j := 0 to |records|
          invariant descendants == wasDescendants + Children(records[..j], current.id)
          invariant toVisit == rest + Children(records[..j], current.id)
        {
          var candidate := records[j];
          NextCandidate(records, j, current.id);
          Append(wasDescendants, rest, Children(records[..j], current.id), candidate);
          if candidate.producedFromPartId == Some(current.id) && Live(candidate) {
            descendants := descendants + [candidate];
            toVisit := toVisit + [candidate];
          }
        }
        assert records[..|records|] == records;
        k, i := TakeTurn(records, part, depth, k, i, wasDescendants, wasToVisit);
      }
      LastTurn(records, part, k, i, descendants);
    }
  }

  // --------------------------------------- the breadth-first loop, level by level

  /** The queue holds the rest of level k from record i on, then the children of the records before i. */
  ghost predicate AtTurn(s: Store, part: PartRecord, k: nat, i: nat, descendants: Store, toVisit: Store) {
    var level := LevelAt(s, part, k);
    && i <= |level|
    && descendants == UpTo(s, part, k) + ChildrenOfAll(s, level[..i])
    && toVisit == level[i..] + ChildrenOfAll(s, level[..i])
  }

  /** How many records have left the queue. */
  ghost function Popped(s: Store, part: PartRecord, k: nat, i: nat): int {
    1 + |UpTo(s, part, k)| - |LevelAt(s, part, k)| + i
  }

  lemma LastLevel(s: Store, part: PartRecord) returns (depth: nat)
    requires DistinctIds(s) && part in s && !Below(s, part, part)
    ensures LevelAt(s, part, depth + 1) == []
  {
    hide LevelAt, UpTo, Below;
    LevelsRunOutIff(s, part);
    depth :| LevelAt(s, part, depth + 1) == [];
  }

  lemma FirstTurn(s: Store, part: PartRecord)
    ensures AtTurn(s, part, 0, 0, [], [part])
  {
    assert [part][0..] == [part];
  }

  lemma TakeTurn(s: Store, part: PartRecord, depth: nat, k: nat, i: nat, descendants: Store, toVisit: Store)
    returns (k': nat, i': nat)
    requires LevelAt(s, part, depth + 1) == []
    requires AtTurn(s, part, k, i, descendants, toVisit) && toVisit != []
    ensures var kids := Children(s, toVisit[0].id);
      AtTurn(s, part, k', i', descendants + kids, toVisit[1..] + kids)
    ensures Popped(s, part, k', i') == Popped(s, part, k, i) + 1 <= |UpTo(s, part, depth)| + 1
  {
    hide Children, ChildrenOfAll, LevelAt, UpTo;
    assert i <= |LevelAt(s, part, k)|;
    hide AtTurn;
    if i == |LevelAt(s, part, k)| {
      NextLevel(s, part, k, descendants, toVisit);
      k', i' := k + 1, 0;
    } else {
      k', i' := k, i;
    }
    TurnWithinLevel(s, part, depth, k', i', descendants, toVisit);
    i' := i' + 1;
  }

  lemma TurnWithinLevel(s: Store, part: PartRecord, depth: nat, k: nat, i: nat, descendants: Store, toVisit: Store)
    requires LevelAt(s, part, depth + 1) == []
    requires AtTurn(s, part, k, i, descendants, toVisit) && toVisit != []
    requires i < |LevelAt(s, part, k)| || i == 0
    ensures var kids := Children(s, toVisit[0].id);
      AtTurn(s, part, k, i + 1, descendants + kids, toVisit[1..] + kids)
    ensures Popped(s, part, k, i + 1) == Popped(s, part, k, i) + 1 <= |UpTo(s, part, depth)| + 1
  {
    hide Children, ChildrenOfAll, LevelAt, UpTo;
    var level := LevelAt(s, part, k);
    NoParents(s, level);
    NextParent(s, level, i);
    LevelsFit(s, part, depth, k);
    var up, before, kids := UpTo(s, part, k), ChildrenOfAll(s, level[..i]), Children(s, level[i].id);
    hide AtTurn;
    Regroup(level[i], level[i + 1..], before, kids, up);
    FoldTurn(s, part, k, i + 1, descendants + kids, toVisit[1..] + kids);
  }

  lemma NoParents(s: Store, level: Store)
    ensures ChildrenOfAll(s, level[..0]) == []
  {
  }

  lemma FoldTurn(s: Store, part: PartRecord, k: nat, i: nat, descendants: Store, toVisit: Store)
    requires i <= |LevelAt(s, part, k)|
    requires descendants == UpTo(s, part, k) + ChildrenOfAll(s, LevelAt(s, part, k)[..i])
    requires toVisit == LevelAt(s, part, k)[i..] + ChildrenOfAll(s, LevelAt(s, part, k)[..i])
    ensures AtTurn(s, part, k, i, descendants, toVisit)
  {
  }

  lemma Regroup(x: PartRecord, rest: Store, before: Store, kids: Store, up: Store)
    ensures ([x] + rest + before)[0] == x
    ensures ([x] + rest + before)[1..] + kids == rest + (before + kids)
    ensures up + before + kids == up + (before + kids)
  {
    assert ([x] + rest + before)[1..] == rest + before;
  }

  lemma NextLevel(s: Store, part: PartRecord, k: nat, descendants: Store, toVisit: Store)
    requires AtTurn(s, part, k, |LevelAt(s, part, k)|, descendants, toVisit)
    ensures AtTurn(s, part, k + 1, 0, descendants, toVisit)
    ensures Popped(s, part, k + 1, 0) == Popped(s, part, k, |LevelAt(s, part, k)|)
  {
    var level, next := LevelAt(s, part, k), LevelAt(s, part, k + 1);
    assert level[..|level|] == level && level[|level|..] == [];
    assert next == ChildrenOfAll(s, level);
    assert toVisit == next[0..] + ChildrenOfAll(s, next[..0]);
    assert descendants == UpTo(s, part, k + 1) == UpTo(s, part, k + 1) + ChildrenOfAll(s, next[..0]);
  }

  lemma LastTurn(s: Store, part: PartRecord, k: nat, i: nat, descendants: Store)
    requires AtTurn(s, part, k, i, descendants, [])
    ensures IsDescendantList(s, part, descendants)
  {
    hide ChildrenOfAll;
    var level := LevelAt(s, part, k);
    assert i == |level| && level[..i] == level;
    assert descendants == UpTo(s, part, k);
  }

  lemma {:induction false} LevelsFit(s: Store, part: PartRecord, depth: nat, k: nat)
    requires LevelAt(s, part, depth + 1) == []
    ensures |UpTo(s, part, k)| <= |UpTo(s, part, depth)|
    decreases if k > depth then k - depth else depth - k
  {
    if k > depth {
      NothingBelowEmptyLevel(s, part, depth, k);
      LevelsFit(s, part, depth, k - 1);
    } else if k < depth {
      LevelsFit(s, part, depth, k + 1);
    }
  }

  lemma NextParent(s: Store, level: Store, i: nat)
    requires i < |level|
    ensures level[i..] == [level[i]] + level[i + 1..]
    ensures ChildrenOfAll(s, level[..i + 1]) == ChildrenOfAll(s, level[..i]) + Children(s, level[i].id)
  {
    assert level[..i + 1][..i] == level[..i];
    hide Children;
  }

  lemma NoChildren(s: Store, id: string)
    ensures Children(s[..0], id) == []
  {
  }

  lemma Append(a: Store, b: Store, kids: Store, c: PartRecord)
    ensures a + (kids + [c]) == a + kids + [c] && b + (kids + [c]) == b + kids + [c]
  {
  }

  lemma NextCandidate(s: Store, j: nat, id: string)
    requires j < |s|
    ensures var taken := s[j].producedFromPartId == Some(id) && Live(s[j]);
      Children(s[..j + 1], id) == if taken then Children(s[..j], id) + [s[j]] else Children(s[..j], id)
  {
    assert s[..j + 1][..j] == s[..j];
    hide Live;
  }
}
