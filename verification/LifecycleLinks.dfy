/** The seed step that links each prepared or assembled part to the part it is made from. */
module LifecycleLinks {
  import opened Options
  import opened Parts

  function Predecessor(level: Level): Option<Level> {
    match level
    case RawMaterial => None
    case RawComponent => None
    case PreparedComponent => Some(RawComponent)
    case AssembledComponent => Some(PreparedComponent)
  }

  predicate IsDownstream(r: PartRecord) {
    r.deletedAt.None? && (r.lifecycleLevel.PreparedComponent? || r.lifecycleLevel.AssembledComponent?)
  }

  function Downstream(parts: Store): Store {
    if parts == [] then []
    else Downstream(parts[..|parts| - 1]) + if IsDownstream(parts[|parts| - 1]) then [parts[|parts| - 1]] else []
  }

  predicate Matches(r: PartRecord, name: string, variant: Option<string>, level: Level) {
    r.name == name && r.variant == variant && r.lifecycleLevel == level && r.deletedAt.None?
  }

  /** `findFirst` with an arbitrary but fixed order: that of the table. */
  function FindFirst(parts: Store, name: string, variant: Option<string>, level: Level): (found: Option<PartRecord>)
    ensures found.Some? ==> found.value in parts && Matches(found.value, name, variant, level)
    ensures found.None? ==> forall r <- parts :: !Matches(r, name, variant, level)
  {
    if parts == [] then None
    else if Matches(parts[0], name, variant, level) then Some(parts[0])
    else FindFirst(parts[1..], name, variant, level)
  }

  /** The part that r should be linked to. */
  function Source(parts: Store, r: PartRecord): Option<PartRecord> {
    if IsDownstream(r) && Predecessor(r.lifecycleLevel).Some?
    then FindFirst(parts, r.name, r.variant, Predecessor(r.lifecycleLevel).value)
    else None
  }

  function Relinked(parts: Store, r: PartRecord): PartRecord {
    match Source(parts, r)
    case None => r
    case Some(source) => r.(producedFromPartId := Some(source.id), producedViaStage := source.installStage)
  }

  function CountRelinked(parts: Store, rows: Store): nat {
    if rows == [] then 0
    else
      var last := rows[|rows| - 1];
      CountRelinked(parts, rows[..|rows| - 1]) + if Relinked(parts, last) != last then 1 else 0
  }

  /** The table after a run: each row linked to its source in the table before. */
  ghost predicate IsRelinked(before: Store, after: Store) {
    |after| == |before| && forall i :: 0 <= i < |before| ==> after[i] == Relinked(before, before[i])
  }

  class PartTable {
    var parts: Store

    /** `part.update` of the two link fields of the row with the given id. */
    method UpdateLinks(id: string, from: string, via: Option<Stage>)
      modifies this
      ensures |parts| == |old(parts)|
      ensures forall i :: 0 <= i < |parts| ==>
        var was := old(parts)[i];
        parts[i] == if was.id == id then was.(producedFromPartId := Some(from), producedViaStage := via) else was
    {
      parts := seq(|parts|, i requires 0 <= i < |parts| reads this =>
        if parts[i].id == id then parts[i].(producedFromPartId := Some(from), producedViaStage := via) else parts[i]);
    }

    method LinkLifecycleChain() returns (linkedCount: nat)
      requires DistinctIds(parts)
      modifies this
      ensures IsRelinked(old(parts), parts)
      ensures linkedCount == Changed(old(parts), parts)
    {
      linkedCount := 0;
      var downstream := Downstream(parts);
      ghost var before := parts;
      DownstreamMeans(before);
      DownstreamDistinct(before);
      hide Downstream, FindFirst, CountRelinked, Progress, DistinctIds;
      StartProgress(before);
      for k := 0 to |downstream|
        invariant Progress(before, parts, downstream[..k])
        invariant linkedCount == CountRelinked(before, downstream[..k])
      {
        var part := downstream[k];
        ghost var done := downstream[..k];
        assert part in downstream && part !in done;
        assert downstream[..k + 1] == done + [part];
        CountOneMore(before, done, part);
        var prevLevel := Predecessor(part.lifecycleLevel);
        if prevLevel.None? {
          continue;
        }
        var predecessor := FindFirst(parts, part.name, part.variant, prevLevel.value);
        ProgressKeepsRest(before, parts, done);
        FindFirstStable(before, parts, part.name, part.variant, prevLevel.value);
        if predecessor.None? {
          ProgressUnchanged(before, parts, done, part);
          continue;
        }
        if part.producedFromPartId == Some(predecessor.value.id)
          && part.producedViaStage == predecessor.value.installStage {
          ProgressUnchanged(before, parts, done, part);
          continue;
        }
        ghost var was := parts;
        UpdateLinks(part.id, predecessor.value.id, predecessor.value.installStage);
        ProgressUpdated(before, was, parts, done, part);
        linkedCount := linkedCount + 1;
      }
      assert downstream[..|downstream|] == downstream;
      AllDone(before, parts, downstream);
      CountDownstream(before, before);
      CountIsChanged(before, before, parts);
    }
  }

  // ------------------------------------------------------------ the loop's steps

  lemma {:induction false} DownstreamMeans(parts: Store)
    ensures forall r :: r in Downstream(parts) <==> r in parts && IsDownstream(r)
  {
    hide IsDownstream;
    if parts != [] {
      DownstreamMeans(parts[..|parts| - 1]);
      assert parts == parts[..|parts| - 1] + [parts[|parts| - 1]];
    }
  }

  lemma {:induction false} DownstreamDistinct(parts: Store)
    requires DistinctIds(parts)
    ensures forall i, j :: 0 <= i < j < |Downstream(parts)| ==> Downstream(parts)[i] != Downstream(parts)[j]
  {
    hide IsDownstream;
    if parts != [] {
      var front, last := parts[..|parts| - 1], parts[|parts| - 1];
      DownstreamDistinct(front);
      DownstreamMeans(front);
      assert last !in front;
      var d := Downstream(front);
      assert forall i :: 0 <= i < |d| ==> d[i] in d;
    }
  }

  /** The rows in done have been relinked, the others are as before. */
  ghost predicate Progress(before: Store, now: Store, done: Store) {
    && |now| == |before|
    && forall i :: 0 <= i < |before| ==>
      now[i] == if before[i] in done then Relinked(before, before[i]) else before[i]
  }

  ghost predicate SameButLinks(a: PartRecord, b: PartRecord) {
    a.(producedFromPartId := b.producedFromPartId, producedViaStage := b.producedViaStage) == b
  }

  ghost predicate AllSameButLinks(a: Store, b: Store) {
    |a| == |b| && forall i :: 0 <= i < |a| ==> SameButLinks(a[i], b[i])
  }

  lemma StartProgress(before: Store)
    ensures Progress(before, before, []) && CountRelinked(before, []) == 0
  {
  }

  lemma CountOneMore(before: Store, done: Store, part: PartRecord)
    ensures CountRelinked(before, done + [part])
         == CountRelinked(before, done) + if Relinked(before, part) != part then 1 else 0
  {
    assert (done + [part])[..|done|] == done;
    hide Relinked;
  }

  lemma ProgressKeepsRest(before: Store, now: Store, done: Store)
    requires Progress(before, now, done)
    ensures AllSameButLinks(before, now)
  {
    forall i | 0 <= i < |before|
      ensures SameButLinks(before[i], now[i])
    {
      hide Source;
      assert now[i] == before[i] || now[i] == Relinked(before, before[i]);
    }
  }

  lemma {:induction false} FindFirstStable(a: Store, b: Store, name: string, variant: Option<string>, level: Level)
    requires AllSameButLinks(a, b)
    ensures var x, y := FindFirst(a, name, variant, level), FindFirst(b, name, variant, level);
      x.Some? == y.Some? && (x.Some? ==> x.value.id == y.value.id && x.value.installStage == y.value.installStage)
  {
    if a != [] {
      assert SameButLinks(a[0], b[0]);
      FindFirstStable(a[1..], b[1..], name, variant, level);
    }
  }

  lemma ProgressUnchanged(before: Store, now: Store, done: Store, part: PartRecord)
    requires Progress(before, now, done) && Relinked(before, part) == part
    ensures Progress(before, now, done + [part])
  {
    hide Relinked;
  }

  lemma ProgressUpdated(before: Store, was: Store, now: Store, done: Store, part: PartRecord)
    requires DistinctIds(before) && Progress(before, was, done) && part in before && part !in done
    requires |now| == |was| && forall i :: 0 <= i < |was| ==>
      now[i] == if was[i].id == part.id
                then was[i].(producedFromPartId := Relinked(before, part).producedFromPartId,
                             producedViaStage := Relinked(before, part).producedViaStage)
                else was[i]
    ensures Progress(before, now, done + [part])
  {
    hide Source;
    ProgressKeepsRest(before, was, done);
    forall i | 0 <= i < |before|
      ensures now[i] == if before[i] in done + [part] then Relinked(before, before[i]) else before[i]
    {
      assert SameButLinks(before[i], was[i]);
      if before[i].id == part.id {
        var j :| 0 <= j < |before| && before[j] == part;
        assert i == j;
      }
    }
  }

  lemma AllDone(before: Store, now: Store, downstream: Store)
    requires Progress(before, now, downstream)
    requires forall r :: r in downstream <==> r in before && IsDownstream(r)
    ensures IsRelinked(before, now)
  {
    hide IsDownstream;
    forall i | 0 <= i < |before|
      ensures now[i] == Relinked(before, before[i])
    {
      assert before[i] in before;
      if !IsDownstream(before[i]) {
        OthersKeepLinks(before, before[i]);
      }
    }
  }

  lemma OthersKeepLinks(parts: Store, r: PartRecord)
    requires !IsDownstream(r)
    ensures Relinked(parts, r) == r
  {
  }

  lemma {:induction false} CountDownstream(before: Store, rows: Store)
    ensures CountRelinked(before, Downstream(rows)) == CountRelinked(before, rows)
  {
    hide Relinked, IsDownstream;
    if rows != [] {
      var front, last := rows[..|rows| - 1], rows[|rows| - 1];
      CountDownstream(before, front);
      if IsDownstream(last) {
        var d := Downstream(rows);
        assert d[..|d| - 1] == Downstream(front);
      } else {
        OthersKeepLinks(before, last);
        assert Downstream(rows) == Downstream(front);
      }
    }
  }

  // ------------------------------------------------------------------- theorems

  function LevelRank(level: Level): nat {
    match level
    case RawMaterial => 0
    case RawComponent => 1
    case PreparedComponent => 2
    case AssembledComponent => 3
  }

  /** Every link goes to a strictly lower lifecycle level. */
  ghost predicate LinksDescend(parts: Store) {
    Ranked(parts, (r: PartRecord) => LevelRank(r.lifecycleLevel))
  }

  lemma {:induction false} GetRelinked(before: Store, after: Store, source: Store, id: string)
    requires |after| == |before| && forall i :: 0 <= i < |before| ==> after[i] == Relinked(source, before[i])
    ensures Get(after, id) == match Get(before, id) case None => None case Some(r) => Some(Relinked(source, r))
  {
    hide Source;
    if before != [] {
      assert after[0] == Relinked(source, before[0]);
      GetRelinked(before[1..], after[1..], source, id);
    }
  }

  lemma RelinkedRowDescends(before: Store, after: Store, r: PartRecord)
    requires DistinctIds(before) && IsRelinked(before, after) && Source(before, r).Some?
    ensures Linked(after, Relinked(before, r)) == Some(Relinked(before, Source(before, r).value))
    ensures LevelRank(Source(before, r).value.lifecycleLevel) < LevelRank(r.lifecycleLevel)
  {
    hide FindFirst;
    var source := Source(before, r).value;
    GetRelinked(before, after, before, source.id);
    GetsItself(before, source);
  }

  /**
   * After a run every link descends exactly when those links already did that the run leaves alone: the links of
   * rows without a matching predecessor. In particular a run keeps the property.
   */
  lemma LinksDescendIff(before: Store, after: Store)
    requires DistinctIds(before) && IsRelinked(before, after)
    ensures LinksDescend(after) <==>
      forall r <- before :: Source(before, r).None? && Linked(before, r).Some?
        ==> LevelRank(Linked(before, r).value.lifecycleLevel) < LevelRank(r.lifecycleLevel)
    ensures LinksDescend(before) ==> LinksDescend(after)
  {
    hide Source, FindFirst;
    forall i | 0 <= i < |before|
      ensures Source(before, before[i]).None? ==> RowDescends(after, after[i]) == RowDescends(before, before[i])
      ensures Source(before, before[i]).Some? ==> RowDescends(after, after[i])
    {
      var r := before[i];
      if Source(before, r).Some? {
        RelinkedRowDescends(before, after, r);
      } else if r.producedFromPartId.Some? {
        GetRelinked(before, after, before, r.producedFromPartId.value);
      }
    }
    DescendRowByRow(before);
    DescendRowByRow(after);
  }

  ghost predicate RowDescends(parts: Store, r: PartRecord) {
    Linked(parts, r).Some? ==> LevelRank(Linked(parts, r).value.lifecycleLevel) < LevelRank(r.lifecycleLevel)
  }

  lemma DescendRowByRow(parts: Store)
    ensures LinksDescend(parts) <==> forall i :: 0 <= i < |parts| ==> RowDescends(parts, parts[i])
  {
    if LinksDescend(parts) {
      forall i | 0 <= i < |parts|
        ensures RowDescends(parts, parts[i])
      {
        assert parts[i] in parts;
      }
    }
  }

  /** Hence no chain of links in the table is endless, and the chain of every part can be read off. */
  lemma LinkedTableIsGrounded(before: Store, after: Store)
    requires DistinctIds(before) && LinksDescend(before) && IsRelinked(before, after)
    ensures forall r <- after :: Grounded(after, r)
  {
    LinksDescendIff(before, after);
    RankedIffGrounded(after);
  }

  lemma RelinkedTwice(before: Store, after: Store, r: PartRecord)
    requires IsRelinked(before, after)
    ensures Relinked(after, Relinked(before, r)) == Relinked(before, r)
  {
    forall i | 0 <= i < |before|
      ensures SameButLinks(before[i], after[i])
    {
      hide Source;
      assert after[i] == Relinked(before, before[i]);
    }
    if Source(before, r).Some? || IsDownstream(r) {
      hide FindFirst;
      FindFirstStable(before, after, r.name, r.variant, Predecessor(r.lifecycleLevel).value);
    }
  }

  lemma {:induction false} CountOfNone(parts: Store, rows: Store)
    requires forall r <- rows :: Relinked(parts, r) == r
    ensures CountRelinked(parts, rows) == 0
  {
    hide Relinked;
    if rows != [] {
      assert rows[|rows| - 1] in rows;
      CountOfNone(parts, rows[..|rows| - 1]);
    }
  }

  /** A second run links nothing and returns 0. */
  lemma SecondRun(before: Store, middle: Store, after: Store)
    requires IsRelinked(before, middle) && IsRelinked(middle, after)
    ensures after == middle && Changed(middle, after) == 0
  {
    hide Relinked;
    forall i | 0 <= i < |middle|
      ensures Relinked(middle, middle[i]) == middle[i]
    {
      RelinkedTwice(before, middle, before[i]);
    }
    CountOfNone(middle, middle);
    CountIsChanged(middle, middle, after);
  }

  /** A run links every live prepared or assembled part that has a live predecessor of its name and variant. */
  lemma EveryMatchIsLinked(before: Store, after: Store, i: nat, p: PartRecord)
    requires IsRelinked(before, after) && i < |before| && IsDownstream(before[i]) && p in before
    requires Matches(p, before[i].name, before[i].variant, Predecessor(before[i].lifecycleLevel).value)
    ensures exists q <- before ::
      && Matches(q, before[i].name, before[i].variant, Predecessor(before[i].lifecycleLevel).value)
      && after[i].producedFromPartId == Some(q.id) && after[i].producedViaStage == q.installStage
  {
    hide FindFirst;
    var q := Source(before, before[i]);
    assert q.Some?;
  }

  // ------------------------------------------------------------- on plain fields

  /** p is what r is made from: both live, of one name and variant, and p exactly one level below r. */
  ghost predicate MadeFrom(r: PartRecord, p: PartRecord) {
    && r.deletedAt == None && p.deletedAt == None && r.name == p.name && r.variant == p.variant
    && match r.lifecycleLevel
       case PreparedComponent => p.lifecycleLevel == RawComponent
       case AssembledComponent => p.lifecycleLevel == PreparedComponent
       case _ => false
  }

  /** By the fields: a row is linked to a part it is made from, if there is one, and otherwise is as it was. */
  lemma LinkedByFields(before: Store, after: Store, i: nat)
    requires IsRelinked(before, after) && i < |before|
    ensures (exists p <- before :: MadeFrom(before[i], p)) ==>
      exists q <- before :: MadeFrom(before[i], q)
        && after[i] == before[i].(producedFromPartId := Some(q.id), producedViaStage := q.installStage)
    ensures (forall p <- before :: !MadeFrom(before[i], p)) ==> after[i] == before[i]
  {
    hide FindFirst;
    var r := before[i];
    forall p <- before
      ensures MadeFrom(r, p) <==>
        IsDownstream(r) && Matches(p, r.name, r.variant, Predecessor(r.lifecycleLevel).value)
    {
    }
    if p :| p in before && MadeFrom(r, p) {
      EveryMatchIsLinked(before, after, i, p);
    }
  }

  lemma LevelsAscend()
    ensures LevelRank(RawMaterial) < LevelRank(RawComponent) < LevelRank(PreparedComponent)
    ensures LevelRank(PreparedComponent) < LevelRank(AssembledComponent)
  {
  }

  /** The number of rows that differ. */
  ghost function Changed(before: Store, after: Store): nat
    requires |before| == |after|
  {
    if before == [] then 0
    else
      var last := |before| - 1;
      Changed(before[..last], after[..last]) + if before[last] == after[last] then 0 else 1
  }

  lemma {:induction false} CountIsChanged(parts: Store, before: Store, after: Store)
    requires |after| == |before| && forall i :: 0 <= i < |before| ==> after[i] == Relinked(parts, before[i])
    ensures CountRelinked(parts, before) == Changed(before, after)
  {
    hide Relinked;
    if before != [] {
      CountIsChanged(parts, before[..|before| - 1], after[..|before| - 1]);
    }
  }
}
