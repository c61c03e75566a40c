/** Part records, the store they live in, and the links that say which part each was produced from. */
module Parts {
  import opened Options

  datatype Level = RawMaterial | RawComponent | PreparedComponent | AssembledComponent
  datatype Stage = Fabrication | Frame | Wiring | PartsPrep | FinalAssembly

  datatype PartRecord = PartRecord(
    id: string, name: string, variant: Option<string>, lifecycleLevel: Level, installStage: Option<Stage>,
    producedFromPartId: Option<string>, producedViaStage: Option<Stage>, deletedAt: Option<string>)

  /** A JavaScript Map from id to record, in its iteration order. */
  type Store = seq<PartRecord>

  ghost predicate DistinctIds(s: Store) {
    forall i, j :: 0 <= i < j < |s| ==> s[i].id != s[j].id
  }

  /** An absent or empty date counts as not deleted. */
  predicate Live(r: PartRecord) {
    r.deletedAt.None? || r.deletedAt.value == ""
  }

  function Get(s: Store, id: string): (found: Option<PartRecord>)
    ensures found.Some? ==> found.value in s && found.value.id == id
    ensures found.None? ==> forall r <- s :: r.id != id
  {
    if s == [] then None
    else if s[0].id == id then Some(s[0])
    else Get(s[1..], id)
  }

  lemma GetsItself(s: Store, r: PartRecord)
    requires DistinctIds(s) && r in s
    ensures Get(s, r.id) == Some(r)
  {
    var found := Get(s, r.id);
    assert found.Some?;
    var i :| 0 <= i < |s| && s[i] == found.value;
    var j :| 0 <= j < |s| && s[j] == r;
    assert i == j;
  }

  /** The record a link names, whatever the name. */
  function Linked(s: Store, r: PartRecord): Option<PartRecord> {
    if r.producedFromPartId.Some? then Get(s, r.producedFromPartId.value) else None
  }

  /** The parent the upward walk follows: an empty link is no link to it. */
  function Parent(s: Store, r: PartRecord): Option<PartRecord> {
    if r.producedFromPartId.Some? && r.producedFromPartId.value != "" then Get(s, r.producedFromPartId.value) else None
  }

  // ------------------------------------------------------------------ writing

  /** `Map.set`: an existing key keeps its place, a new one goes last. */
  function Saved(s: Store, r: PartRecord): Store {
    if s == [] then [r]
    else if s[0].id == r.id then [r] + s[1..]
    else [s[0]] + Saved(s[1..], r)
  }

  lemma {:induction false} SavedGets(s: Store, r: PartRecord, id: string)
    ensures Get(Saved(s, r), id) == if id == r.id then Some(r) else Get(s, id)
  {
    if s != [] && s[0].id != r.id {
      SavedGets(s[1..], r, id);
    }
  }

  lemma {:induction false} SavedKeepsPlaces(s: Store, r: PartRecord)
    requires DistinctIds(s)
    ensures |Saved(s, r)| == if Get(s, r.id).Some? then |s| else |s| + 1
    ensures forall i :: 0 <= i < |s| ==> Saved(s, r)[i] == if s[i].id == r.id then r else s[i]
    ensures Get(s, r.id).None? ==> Saved(s, r)[|s|] == r
  {
    if s == [] {
    } else if s[0].id == r.id {
      assert forall i :: 0 < i < |s| ==> s[i].id != s[0].id;
    } else {
      SavedKeepsPlaces(s[1..], r);
      var t := Saved(s[1..], r);
      assert Saved(s, r) == [s[0]] + t;
      forall i | 0 <= i < |s|
        ensures Saved(s, r)[i] == if s[i].id == r.id then r else s[i]
      {
        if i > 0 {
          assert s[i] == s[1..][i - 1] && Saved(s, r)[i] == t[i - 1];
        }
      }
    }
  }

  lemma SavedKeepsDistinct(s: Store, r: PartRecord)
    requires DistinctIds(s)
    ensures DistinctIds(Saved(s, r))
  {
    hide Saved;
    SavedKeepsPlaces(s, r);
    var found := Get(s, r.id);
    assert forall i :: 0 <= i < |s| ==> Saved(s, r)[i].id == s[i].id;
    if found.None? {
      assert forall i :: 0 <= i < |s| ==> s[i] in s && s[i].id != r.id;
    }
  }

  // ------------------------------------------------- chains of links upwards

  /** Following links from r reaches a record without a linked record after exactly n steps. */
  ghost predicate HeightIs(s: Store, r: PartRecord, n: nat)
    decreases n
  {
    match Linked(s, r)
    case None => n == 0
    case Some(p) => n > 0 && HeightIs(s, p, n - 1)
  }

  ghost predicate Grounded(s: Store, r: PartRecord) {
    exists n :: HeightIs(s, r, n)
  }

  lemma {:induction false} HeightUnique(s: Store, r: PartRecord, m: nat, n: nat)
    requires HeightIs(s, r, m) && HeightIs(s, r, n)
    ensures m == n
    decreases m
  {
    var p := Linked(s, r);
    if p.Some? {
      HeightUnique(s, p.value, m - 1, n - 1);
    }
  }

  /** A store whose every link goes to a strictly lower rank. */
  ghost predicate Ranked(s: Store, rank: PartRecord -> nat) {
    forall r <- s :: Linked(s, r).Some? ==> rank(Linked(s, r).value) < rank(r)
  }

  lemma {:induction false} RankedHeight(s: Store, rank: PartRecord -> nat, r: PartRecord) returns (n: nat)
    requires Ranked(s, rank) && r in s
    ensures HeightIs(s, r, n) && n <= rank(r)
    decreases rank(r)
  {
    var p := Linked(s, r);
    if p.None? {
      n := 0;
    } else {
      var m := RankedHeight(s, rank, p.value);
      n := m + 1;
    }
  }

  /** Links that strictly decrease a rank leave no chain without an end, and the other way round. */
  lemma RankedIffGrounded(s: Store)
    ensures (exists rank :: Ranked(s, rank)) <==> forall r <- s :: Grounded(s, r)
  {
    if rank :| Ranked(s, rank) {
      forall r <- s
        ensures Grounded(s, r)
      {
        var n := RankedHeight(s, rank, r);
      }
    }
    if forall r <- s :: Grounded(s, r) {
      var rank := HeightRank(s);
      forall r <- s | Linked(s, r).Some?
        ensures rank(Linked(s, r).value) < rank(r)
      {
        HeightRankMeans(s, r);
        HeightRankMeans(s, Linked(s, r).value);
        HeightUnique(s, Linked(s, r).value, rank(Linked(s, r).value), rank(r) - 1);
      }
      assert Ranked(s, rank);
    }
  }

  ghost function HeightRank(s: Store): PartRecord -> nat {
    r => if Grounded(s, r) then HeightOf(s, r) else 0
  }

  ghost function HeightOf(s: Store, r: PartRecord): (n: nat)
    requires Grounded(s, r)
    ensures HeightIs(s, r, n)
  {
    var n :| HeightIs(s, r, n);
    n
  }

  lemma HeightRankMeans(s: Store, r: PartRecord)
    requires Grounded(s, r)
    ensures HeightIs(s, r, HeightRank(s)(r))
  {
  }
}
