/** Scope grants: their keys, their deduplication, and which grant decides on a target. */
module Scope {
  import opened Options
  import opened Text

  datatype ScopeGrant =
    | Org(orgId: string)
    | Shop(orgId: string, shopId: string)
    | Team(orgId: string, shopId: string, teamId: string)

  function Weight(g: ScopeGrant): nat {
    match g
    case Org(_) => 1
    case Shop(_, _) => 2
    case Team(_, _, _) => 3
  }

  function ScopeGrantKey(g: ScopeGrant): string {
    match g
    case Org(o) => "org:" + Trim(o)
    case Shop(o, s) => "shop:" + Trim(o) + ":" + Trim(s)
    case Team(o, s, t) => "team:" + Trim(o) + ":" + Trim(s) + ":" + Trim(t)
  }

  /** A grant with trimmed ids, or None if one of them is blank. */
  function NormalizeScopeGrant(g: ScopeGrant): Option<ScopeGrant> {
    var o := Trim(g.orgId);
    if o == "" then None
    else if g.Org? then Some(Org(o))
    else
      var s := Trim(g.shopId);
      if s == "" then None
      else if g.Shop? then Some(Shop(o, s))
      else
        var t := Trim(g.teamId);
        if t == "" then None else Some(Team(o, s, t))
  }

  /** `Map.set` under the grant's key: an existing key keeps its place and gets the new grant. */
  function Put(list: seq<ScopeGrant>, g: ScopeGrant): seq<ScopeGrant> {
    if list == [] then [g]
    else if ScopeGrantKey(list[0]) == ScopeGrantKey(g) then [g] + list[1..]
    else [list[0]] + Put(list[1..], g)
  }

  /** The values of the map after all grants were put in, in insertion order of their keys. */
  function Normalized(grants: seq<ScopeGrant>): seq<ScopeGrant> {
    if grants == [] then []
    else
      var list := Normalized(grants[..|grants| - 1]);
      match NormalizeScopeGrant(grants[|grants| - 1])
      case None => list
      case Some(g) => Put(list, g)
  }

  method NormalizeScopeGrants(grants: seq<ScopeGrant>) returns (deduped: seq<ScopeGrant>)
    ensures deduped == Normalized(grants)
  {
    hide Put, NormalizeScopeGrant;
    deduped := [];
    for i := 0 to |grants|
      invariant deduped == Normalized(grants[..i])
    {
      assert grants[..i + 1][..i] == grants[..i];
      var normalized := NormalizeScopeGrant(grants[i]);
      if normalized.None? {
        continue;
      }
      deduped := Put(deduped, normalized.value);
    }
    assert grants[..|grants|] == grants;
  }

  predicate MatchesScopeTarget(grant: ScopeGrant, target: ScopeGrant) {
    if grant.orgId != target.orgId then false
    else if target.Org? then grant.Org?
    else if target.Shop? then grant.Org? || (grant.Shop? && grant.shopId == target.shopId)
    else if grant.Org? then true
    else if grant.Shop? then grant.shopId == target.shopId
    else grant.shopId == target.shopId && grant.teamId == target.teamId
  }

  /** The choice made by the loop over a list of normalized grants. */
  function Best(list: seq<ScopeGrant>, target: ScopeGrant): Option<ScopeGrant> {
    if list == [] then None
    else
      var best, g := Best(list[..|list| - 1], target), list[|list| - 1];
      if MatchesScopeTarget(g, target) && (best.None? || Weight(g) > Weight(best.value)) then Some(g) else best
  }

  function EffectiveScope(grants: seq<ScopeGrant>, target: ScopeGrant): Option<ScopeGrant> {
    match NormalizeScopeGrant(target)
    case None => None
    case Some(t) => Best(Normalized(grants), t)
  }

  method ResolveEffectiveScope(grants: seq<ScopeGrant>, target: ScopeGrant) returns (effectiveScope: Option<ScopeGrant>)
    ensures effectiveScope == EffectiveScope(grants, target)
  {
    hide NormalizeScopeGrant, Normalized, MatchesScopeTarget, Weight;
    var normalizedTarget := NormalizeScopeGrant(target);
    effectiveScope := None;
    if normalizedTarget.None? {
      return;
    }
    var list := NormalizeScopeGrants(grants);
    for i := 0 to |list|
      invariant effectiveScope == Best(list[..i], normalizedTarget.value)
    {
      assert list[..i + 1][..i] == list[..i];
      var grant := list[i];
      if !MatchesScopeTarget(grant, normalizedTarget.value) {
        continue;
      }
      if effectiveScope.None? || Weight(grant) > Weight(effectiveScope.value) {
        effectiveScope := Some(grant);
      }
    }
    assert list[..|list|] == list;
  }

  predicate HasEffectiveScope(grants: seq<ScopeGrant>, target: ScopeGrant) {
    EffectiveScope(grants, target).Some?
  }

  // -------------------------------------------------------- containment as prefix

  /** The ids from the organisation down. */
  function Path(g: ScopeGrant): seq<string> {
    match g
    case Org(o) => [o]
    case Shop(o, s) => [o, s]
    case Team(o, s, t) => [o, s, t]
  }

  /** A grant matches a target exactly when it names an ancestor of the target or the target itself. */
  lemma MatchesIffPrefix(grant: ScopeGrant, target: ScopeGrant)
    ensures MatchesScopeTarget(grant, target) <==> Path(grant) <= Path(target)
    ensures Weight(grant) == |Path(grant)|
  {
    var p, q := Path(grant), Path(target);
    if p <= q {
      assert p[0] == q[0] && (|p| > 1 ==> p[1] == q[1]) && (|p| > 2 ==> p[2] == q[2]);
    }
    if MatchesScopeTarget(grant, target) {
      assert p == q[..|p|];
    }
  }

  /** The reference: g, once normalized, is at or above the normalized target. */
  ghost predicate Contains(g: ScopeGrant, target: ScopeGrant) {
    var n, t := NormalizeScopeGrant(g), NormalizeScopeGrant(target);
    n.Some? && t.Some? && Path(n.value) <= Path(t.value)
  }

  // ---------------------------------------------------------------- normal forms

  ghost predicate IsNormal(g: ScopeGrant) {
    NormalizeScopeGrant(g) == Some(g)
  }

  lemma NormalizedIsNormal(g: ScopeGrant)
    ensures NormalizeScopeGrant(g).Some? ==> IsNormal(NormalizeScopeGrant(g).value)
  {
    hide Trim;
    TrimIdempotent(g.orgId);
    if !g.Org? {
      TrimIdempotent(g.shopId);
    }
    if g.Team? {
      TrimIdempotent(g.teamId);
    }
  }

  /** By the fields: a grant is valid if each of its ids has some text, and its normal form has these ids, trimmed. */
  lemma NormalizeByFields(g: ScopeGrant)
    ensures match g
      case Org(o) => NormalizeScopeGrant(g) == if AllWhite(o) then None else Some(Org(Trim(o)))
      case Shop(o, s) =>
        NormalizeScopeGrant(g) == if AllWhite(o) || AllWhite(s) then None else Some(Shop(Trim(o), Trim(s)))
      case Team(o, s, t) =>
        NormalizeScopeGrant(g)
        == if AllWhite(o) || AllWhite(s) || AllWhite(t) then None else Some(Team(Trim(o), Trim(s), Trim(t)))
  {
    hide Trim, AllWhite;
    TrimTrims(g.orgId);
    if !g.Org? {
      TrimTrims(g.shopId);
    }
    if g.Team? {
      TrimTrims(g.teamId);
    }
  }

  ghost predicate DistinctKeys(list: seq<ScopeGrant>) {
    forall i, j :: 0 <= i < j < |list| ==> ScopeGrantKey(list[i]) != ScopeGrantKey(list[j])
  }

  lemma {:induction false} PutMeans(list: seq<ScopeGrant>, g: ScopeGrant)
    requires DistinctKeys(list)
    ensures DistinctKeys(Put(list, g))
    ensures forall x :: x in Put(list, g) <==> x == g || (x in list && ScopeGrantKey(x) != ScopeGrantKey(g))
  {
    hide ScopeGrantKey;
    if list == [] {
    } else if ScopeGrantKey(list[0]) == ScopeGrantKey(g) {
      assert forall x <- list[1..] :: ScopeGrantKey(x) != ScopeGrantKey(list[0]);
      assert list == [list[0]] + list[1..];
    } else {
      PutMeans(list[1..], g);
      var rest := Put(list[1..], g);
      assert list == [list[0]] + list[1..];
      assert forall x <- list[1..] :: ScopeGrantKey(x) != ScopeGrantKey(list[0]);
      assert forall k :: 0 <= k < |rest| ==> rest[k] in rest;
    }
  }

  /** A known key keeps its place and gets the new grant; a new one goes last. */
  lemma {:induction false} PutKeepsPlaces(list: seq<ScopeGrant>, g: ScopeGrant)
    requires DistinctKeys(list)
    ensures |Put(list, g)| == |list| + if exists x <- list :: ScopeGrantKey(x) == ScopeGrantKey(g) then 0 else 1
    ensures forall i :: 0 <= i < |list| ==>
      Put(list, g)[i] == if ScopeGrantKey(list[i]) == ScopeGrantKey(g) then g else list[i]
    ensures |Put(list, g)| > |list| ==> Put(list, g)[|list|] == g
  {
    hide ScopeGrantKey;
    if list != [] {
      if ScopeGrantKey(list[0]) == ScopeGrantKey(g) {
        assert list[0] in list;
      } else {
        PutKeepsPlaces(list[1..], g);
        assert list == [list[0]] + list[1..];
      }
    }
  }

  /** n survives deduplication: it is a normalized grant and no later grant of another value has its key. */
  ghost predicate Survives(grants: seq<ScopeGrant>, n: ScopeGrant) {
    exists i :: 0 <= i < |grants| && NormalizeScopeGrant(grants[i]) == Some(n) && NotOverwritten(grants, i, n)
  }

  ghost predicate NotOverwritten(grants: seq<ScopeGrant>, i: int, n: ScopeGrant) {
    forall j :: 0 <= i < j < |grants| ==>
      var m := NormalizeScopeGrant(grants[j]);
      m.Some? ==> ScopeGrantKey(m.value) != ScopeGrantKey(n)
  }

  /** Deduplication keeps, of the valid grants with one key, exactly the last, in normal form. */
  lemma {:induction false} NormalizedMeans(grants: seq<ScopeGrant>)
    ensures DistinctKeys(Normalized(grants))
    ensures forall n <- Normalized(grants) :: IsNormal(n)
    ensures forall n :: n in Normalized(grants) <==> Survives(grants, n)
  {
    hide ScopeGrantKey, NormalizeScopeGrant, Put;
    if grants != [] {
      var front, g := grants[..|grants| - 1], grants[|grants| - 1];
      NormalizedMeans(front);
      NormalizedIsNormal(g);
      var m := NormalizeScopeGrant(g);
      if m.Some? {
        PutMeans(Normalized(front), m.value);
      }
      hide DistinctKeys;
      forall n
        ensures n in Normalized(grants) <==> Survives(grants, n)
      {
        SurvivesOneMore(grants, n);
      }
    }
  }

  lemma SurvivesOneMore(grants: seq<ScopeGrant>, n: ScopeGrant)
    requires grants != []
    ensures var m := NormalizeScopeGrant(grants[|grants| - 1]);
      Survives(grants, n) <==>
        m == Some(n)
        || (Survives(grants[..|grants| - 1], n) && (m.Some? ==> ScopeGrantKey(m.value) != ScopeGrantKey(n)))
  {
    hide ScopeGrantKey, NormalizeScopeGrant;
    var front, last := grants[..|grants| - 1], |grants| - 1;
    var m := NormalizeScopeGrant(grants[last]);
    if m == Some(n) {
      assert NotOverwritten(grants, last, n);
    }
    if Survives(grants, n) && m != Some(n) {
      var i :| 0 <= i < |grants| && NormalizeScopeGrant(grants[i]) == Some(n) && NotOverwritten(grants, i, n);
      assert front[i] == grants[i];
      assert NotOverwritten(front, i, n);
    }
    if Survives(front, n) && (m.Some? ==> ScopeGrantKey(m.value) != ScopeGrantKey(n)) {
      var i :| 0 <= i < |front| && NormalizeScopeGrant(front[i]) == Some(n) && NotOverwritten(front, i, n);
      assert grants[i] == front[i];
      forall j | i < j < |grants|
        ensures var k := NormalizeScopeGrant(grants[j]); k.Some? ==> ScopeGrantKey(k.value) != ScopeGrantKey(n)
      {
        if j < last {
          assert grants[j] == front[j];
        }
      }
      assert NotOverwritten(grants, i, n);
    }
  }

  lemma {:induction false} PutNew(list: seq<ScopeGrant>, g: ScopeGrant)
    requires forall x <- list :: ScopeGrantKey(x) != ScopeGrantKey(g)
    ensures Put(list, g) == list + [g]
  {
    hide ScopeGrantKey;
    if list != [] {
      PutNew(list[1..], g);
    }
  }

  lemma {:induction false} NormalListFixed(list: seq<ScopeGrant>)
    requires DistinctKeys(list) && forall n <- list :: IsNormal(n)
    ensures Normalized(list) == list
  {
    hide ScopeGrantKey, NormalizeScopeGrant, Put;
    if list != [] {
      var front, last := list[..|list| - 1], list[|list| - 1];
      NormalListFixed(front);
      assert last in list;
      PutNew(front, last);
    }
  }

  /** Normalizing twice is normalizing once, whatever the ids. */
  lemma NormalizeIdempotent(grants: seq<ScopeGrant>)
    ensures Normalized(Normalized(grants)) == Normalized(grants)
  {
    hide *;
    NormalizedMeans(grants);
    NormalListFixed(Normalized(grants));
  }
}
