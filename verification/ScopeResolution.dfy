/** What the key-based deduplication and the choice of a grant amount to: containment of the target in some grant. */
module ScopeResolution {
  import opened Options
  import opened Text
  import opened Scope

  // -------------------------------------------------------------- injective keys

  ghost predicate ColonFree(s: string) {
    ':' !in s
  }

  /** No id but the last holds a colon, so that the key can be taken apart again. */
  ghost predicate Separable(g: ScopeGrant) {
    match g
    case Org(_) => true
    case Shop(o, _) => ColonFree(o)
    case Team(o, s, _) => ColonFree(o) && ColonFree(s)
  }

  lemma {:induction false} SplitAtColon(a: string, x: string, b: string, y: string)
    requires ColonFree(a) && ColonFree(b) && a + ":" + x == b + ":" + y
    ensures a == b && x == y
    decreases |a|
  {
    var s, t := a + ":" + x, b + ":" + y;
    assert s[0] == if a == "" then ':' else a[0];
    assert t[0] == if b == "" then ':' else b[0];
    if a == "" {
      assert s[1..] == x && t[1..] == y;
    } else {
      assert s[1..] == a[1..] + ":" + x && t[1..] == b[1..] + ":" + y;
      SplitAtColon(a[1..], x, b[1..], y);
      assert a == [a[0]] + a[1..] && b == [b[0]] + b[1..];
    }
  }

  lemma DropSame(p: string, x: string, y: string)
    requires p + x == p + y
    ensures x == y
  {
    assert (p + x)[|p|..] == x && (p + y)[|p|..] == y;
  }

  lemma TrimKeepsSeparable(g: ScopeGrant)
    requires Separable(g) && NormalizeScopeGrant(g).Some?
    ensures Separable(NormalizeScopeGrant(g).value)
  {
    hide Trim;
    TrimTrims(g.orgId);
    if !g.Org? {
      TrimTrims(g.shopId);
    }
  }

  lemma KeyOfNormal(g: ScopeGrant)
    requires IsNormal(g)
    ensures ScopeGrantKey(g) == match g
      case Org(o) => "org:" + o
      case Shop(o, s) => "shop:" + (o + ":" + s)
      case Team(o, s, t) => "team:" + (o + ":" + (s + ":" + t))
  {
    hide Trim;
    assert "shop:" + g.orgId + ":" == "shop:" + (g.orgId + ":");
    if g.Shop? {
      assert "shop:" + g.orgId + ":" + g.shopId == "shop:" + (g.orgId + ":" + g.shopId);
    } else if g.Team? {
      assert "team:" + g.orgId + ":" + g.shopId + ":" + g.teamId
          == "team:" + (g.orgId + ":" + (g.shopId + ":" + g.teamId));
    }
  }

  lemma KeyHead(g: ScopeGrant)
    requires IsNormal(g)
    ensures ScopeGrantKey(g) != ""
    ensures ScopeGrantKey(g)[0] == if g.Org? then 'o' else if g.Shop? then 's' else 't'
  {
    KeyOfNormal(g);
  }

  /** Without colons in the way, the key determines the grant. */
  lemma KeyInjective(g: ScopeGrant, h: ScopeGrant)
    requires IsNormal(g) && IsNormal(h) && Separable(g) && Separable(h)
    requires ScopeGrantKey(g) == ScopeGrantKey(h)
    ensures g == h
  {
    KeyHead(g);
    KeyHead(h);
    KeyOfNormal(g);
    KeyOfNormal(h);
    hide ScopeGrantKey, NormalizeScopeGrant, ColonFree;
    match g
    case Org(o) =>
      DropSame("org:", o, h.orgId);
    case Shop(o, s) =>
      DropSame("shop:", o + ":" + s, h.orgId + ":" + h.shopId);
      SplitAtColon(o, s, h.orgId, h.shopId);
    case Team(o, s, t) =>
      DropSame("team:", o + ":" + (s + ":" + t), h.orgId + ":" + (h.shopId + ":" + h.teamId));
      SplitAtColon(o, s + ":" + t, h.orgId, h.shopId + ":" + h.teamId);
      SplitAtColon(s, t, h.shopId, h.teamId);
  }

  // ---------------------------------------------------- what deduplication keeps

  /** The valid grants in normal form. */
  ghost predicate IsValidGrant(grants: seq<ScopeGrant>, n: ScopeGrant) {
    exists i :: 0 <= i < |grants| && NormalizeScopeGrant(grants[i]) == Some(n)
  }

  /** No two different valid grants share a key. */
  ghost predicate NoCollision(grants: seq<ScopeGrant>) {
    forall m, n :: IsValidGrant(grants, m) && IsValidGrant(grants, n) && ScopeGrantKey(m) == ScopeGrantKey(n) ==> m == n
  }

  ghost predicate AllSeparable(grants: seq<ScopeGrant>) {
    forall g <- grants :: Separable(g)
  }

  lemma SeparableNoCollision(grants: seq<ScopeGrant>)
    requires AllSeparable(grants)
    ensures NoCollision(grants)
  {
    hide ScopeGrantKey, NormalizeScopeGrant, Separable;
    forall m, n | IsValidGrant(grants, m) && IsValidGrant(grants, n) && ScopeGrantKey(m) == ScopeGrantKey(n)
      ensures m == n
    {
      var i :| 0 <= i < |grants| && NormalizeScopeGrant(grants[i]) == Some(m);
      var j :| 0 <= j < |grants| && NormalizeScopeGrant(grants[j]) == Some(n);
      TrimKeepsSeparable(grants[i]);
      TrimKeepsSeparable(grants[j]);
      NormalizedIsNormal(grants[i]);
      NormalizedIsNormal(grants[j]);
      KeyInjective(m, n);
    }
  }

  /** Of every valid grant's key, the last grant with that key survives. */
  lemma KeySurvives(grants: seq<ScopeGrant>, n: ScopeGrant) returns (last: ScopeGrant)
    requires IsValidGrant(grants, n)
    ensures last in Normalized(grants) && ScopeGrantKey(last) == ScopeGrantKey(n) && IsValidGrant(grants, last)
  {
    hide ScopeGrantKey, NormalizeScopeGrant, Normalized;
    NormalizedMeans(grants);
    var i :| 0 <= i < |grants| && NormalizeScopeGrant(grants[i]) == Some(n);
    var k := i;
    last := n;
    var j := i + 1;
    while j < |grants|
      invariant i <= k < j <= |grants|
      invariant NormalizeScopeGrant(grants[k]) == Some(last) && ScopeGrantKey(last) == ScopeGrantKey(n)
      invariant forall l :: k < l < j ==>
        var m := NormalizeScopeGrant(grants[l]); m.Some? ==> ScopeGrantKey(m.value) != ScopeGrantKey(last)
    {
      var m := NormalizeScopeGrant(grants[j]);
      if m.Some? && ScopeGrantKey(m.value) == ScopeGrantKey(last) {
        k, last := j, m.value;
      }
      j := j + 1;
    }
    assert NotOverwritten(grants, k, last);
    assert Survives(grants, last);
  }

  lemma SurvivorIsValid(grants: seq<ScopeGrant>, n: ScopeGrant)
    requires n in Normalized(grants)
    ensures IsValidGrant(grants, n) && IsNormal(n)
  {
    hide ScopeGrantKey, NormalizeScopeGrant, Normalized;
    NormalizedMeans(grants);
    var i :| 0 <= i < |grants| && NormalizeScopeGrant(grants[i]) == Some(n) && NotOverwritten(grants, i, n);
  }

  /** Deduplication keeps every valid grant, and nothing else, exactly when no two of them collide on a key. */
  lemma KeepsEveryGrantIff(grants: seq<ScopeGrant>)
    ensures (forall n :: n in Normalized(grants) <==> IsValidGrant(grants, n)) <==> NoCollision(grants)
  {
    hide ScopeGrantKey, NormalizeScopeGrant, Normalized, IsValidGrant;
    forall n <- Normalized(grants)
      ensures IsValidGrant(grants, n)
    {
      SurvivorIsValid(grants, n);
    }
    if NoCollision(grants) {
      forall n | IsValidGrant(grants, n)
        ensures n in Normalized(grants)
      {
        var last := KeySurvives(grants, n);
      }
    } else {
      var m, n :| IsValidGrant(grants, m) && IsValidGrant(grants, n) && ScopeGrantKey(m) == ScopeGrantKey(n) && m != n;
      NormalizedMeans(grants);
      if m in Normalized(grants) && n in Normalized(grants) {
        DistinctKeysApart(Normalized(grants), m, n);
      }
    }
  }

  lemma DistinctKeysApart(list: seq<ScopeGrant>, m: ScopeGrant, n: ScopeGrant)
    requires DistinctKeys(list) && m in list && n in list && m != n
    ensures ScopeGrantKey(m) != ScopeGrantKey(n)
  {
    var i :| 0 <= i < |list| && list[i] == m;
    var j :| 0 <= j < |list| && list[j] == n;
    assert i < j || j < i;
  }

  // ------------------------------------------------------------------ resolution

  lemma {:induction false} BestMeans(list: seq<ScopeGrant>, target: ScopeGrant)
    ensures var best := Best(list, target);
      && (best.None? <==> forall g <- list :: !MatchesScopeTarget(g, target))
      && (best.Some? ==>
        && best.value in list && MatchesScopeTarget(best.value, target)
        && forall g <- list :: MatchesScopeTarget(g, target) ==> Weight(g) <= Weight(best.value))
  {
    hide MatchesScopeTarget, Weight;
    if list != [] {
      BestMeans(list[..|list| - 1], target);
      assert list == list[..|list| - 1] + [list[|list| - 1]];
    }
  }

  /** What resolution returns is a valid grant that contains the target, for all grants whatever their ids. */
  lemma EffectiveScopeIsSound(grants: seq<ScopeGrant>, target: ScopeGrant)
    requires HasEffectiveScope(grants, target)
    ensures var g := EffectiveScope(grants, target).value;
      IsValidGrant(grants, g) && Contains(g, target)
  {
    hide NormalizeScopeGrant, Normalized, Best, MatchesScopeTarget, IsValidGrant, Path;
    var t := NormalizeScopeGrant(target).value;
    var g := EffectiveScope(grants, target).value;
    BestMeans(Normalized(grants), t);
    SurvivorIsValid(grants, g);
    MatchesIffPrefix(g, t);
  }

  ghost predicate SomeGrantContains(grants: seq<ScopeGrant>, target: ScopeGrant) {
    exists g <- grants :: Contains(g, target)
  }

  lemma SomeValidGrant(grants: seq<ScopeGrant>, target: ScopeGrant)
    ensures SomeGrantContains(grants, target) <==>
      exists n :: IsValidGrant(grants, n) && Contains(n, target)
  {
    hide NormalizeScopeGrant, Path;
    if g :| g in grants && Contains(g, target) {
      var i :| 0 <= i < |grants| && grants[i] == g;
      NormalizedIsNormal(g);
      assert IsValidGrant(grants, NormalizeScopeGrant(g).value);
    }
    if n :| IsValidGrant(grants, n) && Contains(n, target) {
      var i :| 0 <= i < |grants| && NormalizeScopeGrant(grants[i]) == Some(n);
      NormalizedIsNormal(grants[i]);
      assert grants[i] in grants && Contains(grants[i], target);
    }
  }

  /**
   * Without collisions resolution refines containment: it finds a grant exactly when some grant contains the target,
   * and the one it returns is the most specific of all valid grants that do.
   */
  lemma ResolutionIsContainment(grants: seq<ScopeGrant>, target: ScopeGrant)
    requires NoCollision(grants)
    ensures HasEffectiveScope(grants, target) <==> SomeGrantContains(grants, target)
    ensures HasEffectiveScope(grants, target) ==> forall n | IsValidGrant(grants, n) && Contains(n, target) ::
      Weight(n) <= Weight(EffectiveScope(grants, target).value)
  {
    hide NormalizeScopeGrant, Normalized, Best, MatchesScopeTarget, IsValidGrant, Path, Weight, SomeGrantContains;
    SomeValidGrant(grants, target);
    KeepsEveryGrantIff(grants);
    if HasEffectiveScope(grants, target) {
      EffectiveScopeIsSound(grants, target);
    }
    var t := NormalizeScopeGrant(target);
    if t.Some? {
      BestMeans(Normalized(grants), t.value);
      forall n | IsValidGrant(grants, n) && Contains(n, target)
        ensures n in Normalized(grants) && MatchesScopeTarget(n, t.value)
      {
        SurvivorIsValid(grants, n);
        MatchesIffPrefix(n, t.value);
      }
    }
  }

  /** Some grant at or above n is kept: no later grant of another value has its key. */
  ghost predicate Covered(grants: seq<ScopeGrant>, n: ScopeGrant) {
    exists h :: Survives(grants, h) && Path(h) <= Path(n)
  }

  lemma CoveredIff(grants: seq<ScopeGrant>, n: ScopeGrant)
    requires IsNormal(n)
    ensures HasEffectiveScope(grants, n) <==> Covered(grants, n)
  {
    hide NormalizeScopeGrant, Normalized, Best, MatchesScopeTarget, Survives, Path;
    NormalizedMeans(grants);
    BestMeans(Normalized(grants), n);
    forall h
      ensures MatchesScopeTarget(h, n) <==> Path(h) <= Path(n)
    {
      MatchesIffPrefix(h, n);
    }
  }

  /**
   * Collisions or not, resolution is containment for every target exactly when overwriting uncovers no grant: each
   * valid grant of the list that a later one of the same key displaces lies at or below another one that is kept.
   */
  lemma ResolutionIsContainmentIff(grants: seq<ScopeGrant>)
    ensures (forall target :: HasEffectiveScope(grants, target) <==> SomeGrantContains(grants, target))
       <==> forall n | IsValidGrant(grants, n) :: Covered(grants, n)
  {
    hide NormalizeScopeGrant, Normalized, Best, IsValidGrant, SomeGrantContains, HasEffectiveScope, Covered;
    forall target
      ensures HasEffectiveScope(grants, target) ==> SomeGrantContains(grants, target)
    {
      if HasEffectiveScope(grants, target) {
        SoundlyContained(grants, target);
      }
    }
    forall n | IsValidGrant(grants, n)
      ensures HasEffectiveScope(grants, n) <==> Covered(grants, n)
      ensures SomeGrantContains(grants, n)
    {
      ValidContainsItself(grants, n);
      CoveredIff(grants, n);
      SomeValidGrant(grants, n);
    }
    if forall n | IsValidGrant(grants, n) :: Covered(grants, n) {
      forall target | SomeGrantContains(grants, target)
        ensures HasEffectiveScope(grants, target)
      {
        SomeValidGrant(grants, target);
        var n :| IsValidGrant(grants, n) && Contains(n, target);
        ValidContainsItself(grants, n);
        Upwards(grants, n, target);
      }
    }
  }

  lemma SoundlyContained(grants: seq<ScopeGrant>, target: ScopeGrant)
    requires HasEffectiveScope(grants, target)
    ensures SomeGrantContains(grants, target)
  {
    hide NormalizeScopeGrant, EffectiveScope, IsValidGrant, Contains, SomeGrantContains;
    EffectiveScopeIsSound(grants, target);
    SomeValidGrant(grants, target);
  }

  lemma ValidContainsItself(grants: seq<ScopeGrant>, n: ScopeGrant)
    requires IsValidGrant(grants, n)
    ensures IsNormal(n) && Contains(n, n)
  {
    hide NormalizeScopeGrant, Path;
    var i :| 0 <= i < |grants| && NormalizeScopeGrant(grants[i]) == Some(n);
    NormalizedIsNormal(grants[i]);
  }

  /** A target below a decided one is decided. */
  lemma Upwards(grants: seq<ScopeGrant>, n: ScopeGrant, target: ScopeGrant)
    requires IsNormal(n) && HasEffectiveScope(grants, n) && Contains(n, target)
    ensures HasEffectiveScope(grants, target)
  {
    hide NormalizeScopeGrant, Normalized, Best, Path;
    var t := NormalizeScopeGrant(target).value;
    BestMeans(Normalized(grants), n);
    var h := Best(Normalized(grants), n).value;
    MatchesIffPrefix(h, n);
    MatchesIffPrefix(h, t);
    BestMeans(Normalized(grants), t);
  }

  /** Colons inside ids can make two grants collide: the later one takes the place of the earlier one. */
  lemma CollidingGrants()
    ensures var first, second := Shop("a:b", "c"), Shop("a", "b:c");
      && HasEffectiveScope([first], first)
      && SomeGrantContains([first, second], first)
      && !HasEffectiveScope([first, second], first)
  {
    var first, second := Shop("a:b", "c"), Shop("a", "b:c");
    TrimFixed("a:b");
    TrimFixed("c");
    TrimFixed("a");
    TrimFixed("b:c");
    hide Trim;
    assert first in [first, second] && Contains(first, first);
    assert "shop:" + "a:b" + ":" + "c" == "shop:a:b:c" == "shop:" + "a" + ":" + "b:c";
    assert [first, second][..1] == [first] && [first][..0] == [];
    assert Normalized([]) == [];
    assert Normalized([first]) == [first];
    assert Normalized([first, second]) == [second];
    assert [second][..0] == [];
    assert Best([second], first).None?;
    assert Best([first], first) == Some(first);
  }

  // ----------------------------------------------------- comparing lists of grants

  /** After decides whatever before decides exactly when it keeps a grant at or above each one that before keeps. */
  lemma AuthorityKeptIff(before: seq<ScopeGrant>, after: seq<ScopeGrant>)
    ensures (forall target :: HasEffectiveScope(before, target) ==> HasEffectiveScope(after, target))
       <==> forall g | Survives(before, g) :: Covered(after, g)
  {
    hide NormalizeScopeGrant, Normalized, Best, Path, HasEffectiveScope, Survives, Covered, MatchesScopeTarget;
    NormalizedMeans(before);
    forall g | Survives(before, g)
      ensures HasEffectiveScope(before, g) && IsNormal(g) && (HasEffectiveScope(after, g) <==> Covered(after, g))
    {
      SurvivorIsValid(before, g);
      KeptIsCovered(before, g);
      CoveredIff(before, g);
      CoveredIff(after, g);
    }
    if forall g | Survives(before, g) :: Covered(after, g) {
      forall target | HasEffectiveScope(before, target)
        ensures HasEffectiveScope(after, target)
      {
        var g := KeptAbove(before, target);
        Upwards(after, g, target);
      }
    }
  }

  lemma KeptIsCovered(grants: seq<ScopeGrant>, g: ScopeGrant)
    requires Survives(grants, g)
    ensures Covered(grants, g)
  {
    hide Survives, Path;
  }

  /** A decided target has a kept grant at or above it. */
  lemma KeptAbove(grants: seq<ScopeGrant>, target: ScopeGrant) returns (g: ScopeGrant)
    requires HasEffectiveScope(grants, target)
    ensures Survives(grants, g) && IsNormal(g) && Contains(g, target)
  {
    hide NormalizeScopeGrant, Normalized, Best, Path, Survives, MatchesScopeTarget;
    var t := NormalizeScopeGrant(target).value;
    BestMeans(Normalized(grants), t);
    g := Best(Normalized(grants), t).value;
    NormalizedMeans(grants);
    MatchesIffPrefix(g, t);
  }

  /** With keys that do not collide, more grants never take a target away. */
  lemma MoreGrants(before: seq<ScopeGrant>, after: seq<ScopeGrant>, target: ScopeGrant)
    requires (forall g <- before :: g in after) && NoCollision(after)
    requires HasEffectiveScope(before, target)
    ensures HasEffectiveScope(after, target)
  {
    hide NormalizeScopeGrant, Normalized, Best, Contains, HasEffectiveScope, NoCollision;
    EffectiveScopeIsSound(before, target);
    SomeValidGrant(before, target);
    ResolutionIsContainment(after, target);
  }

  /** Resolution sees only the normal forms: normalizing the grants first makes no difference. */
  lemma ResolveNormalized(grants: seq<ScopeGrant>, target: ScopeGrant)
    ensures EffectiveScope(Normalized(grants), target) == EffectiveScope(grants, target)
  {
    hide NormalizeScopeGrant, Normalized, Best;
    NormalizeIdempotent(grants);
  }
}
