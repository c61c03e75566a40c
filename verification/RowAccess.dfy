/** Row-level access: the target a row's scope asks for, the decision on it, and filtering rows by it. */
module RowAccess {
  import opened Options
  import opened Text
  import opened Scope
  import opened ScopeResolution

  datatype ScopeLevel = OrgLevel | ShopLevel | TeamLevel
  datatype RowScope = RowScope(orgId: Option<string>, shopId: Option<string>, teamId: Option<string>)

  datatype Reason = Allow | DenyMissingOrg | DenyMissingShop | DenyMissingTeam | DenyScope
  datatype Resolution = Resolved(target: ScopeGrant) | Refused(reason: Reason)
  datatype Decision = Decision(allowed: bool, reason: Reason, target: Option<ScopeGrant>)
  datatype DeniedRow<Row> = DeniedRow(row: Row, reason: Reason)

  function NormalizeScopeField(value: Option<string>): Option<string> {
    if value.None? || Trim(value.value) == "" then None else Some(Trim(value.value))
  }

  function ResolveRequiredScopeTarget(scope: RowScope, minimumLevel: ScopeLevel): Resolution {
    var orgId := NormalizeScopeField(scope.orgId);
    if orgId.None? then Refused(DenyMissingOrg)
    else
      var shopId, teamId := NormalizeScopeField(scope.shopId), NormalizeScopeField(scope.teamId);
      if minimumLevel.TeamLevel? || teamId.Some? then
        if shopId.None? then Refused(DenyMissingShop)
        else if teamId.None? then Refused(DenyMissingTeam)
        else Resolved(Team(orgId.value, shopId.value, teamId.value))
      else if minimumLevel.ShopLevel? || shopId.Some? then
        if shopId.None? then Refused(DenyMissingShop)
        else Resolved(Shop(orgId.value, shopId.value))
      else Resolved(Org(orgId.value))
  }

  function EvaluateRowLevelAccess(grants: seq<ScopeGrant>, scope: RowScope, minimumLevel: ScopeLevel): Decision {
    match ResolveRequiredScopeTarget(scope, minimumLevel)
    case Refused(reason) => Decision(false, reason, None)
    case Resolved(target) =>
      if HasEffectiveScope(Normalized(grants), target) then Decision(true, Allow, Some(target))
      else Decision(false, DenyScope, Some(target))
  }

  // ------------------------------------------------------------------- filtering

  function AllowedRows<Row>(rows: seq<Row>, decide: Row -> Decision): seq<Row> {
    if rows == [] then []
    else
      var last := rows[|rows| - 1];
      AllowedRows(rows[..|rows| - 1], decide) + if decide(last).allowed then [last] else []
  }

  function DeniedRows<Row>(rows: seq<Row>, decide: Row -> Decision): seq<DeniedRow<Row>> {
    if rows == [] then []
    else
      var last := rows[|rows| - 1];
      DeniedRows(rows[..|rows| - 1], decide) +
      if decide(last).allowed then []
      else [DeniedRow(last, if decide(last).reason.Allow? then DenyScope else decide(last).reason)]
  }

  method FilterRowsByScope<Row>(
    rows: seq<Row>, grantedScopes: seq<ScopeGrant>, getRowScope: Row -> RowScope, minimumLevel: ScopeLevel)
    returns (allowedRows: seq<Row>, deniedRows: seq<DeniedRow<Row>>)
    ensures var decide := (row: Row) => EvaluateRowLevelAccess(grantedScopes, getRowScope(row), minimumLevel);
      allowedRows == AllowedRows(rows, decide) && deniedRows == DeniedRows(rows, decide)
  {
    hide EvaluateRowLevelAccess;
    ghost var decide := (row: Row) => EvaluateRowLevelAccess(grantedScopes, getRowScope(row), minimumLevel);
    allowedRows, deniedRows := [], [];
    for i := 0 to |rows|
      invariant allowedRows == AllowedRows(rows[..i], decide)
      invariant deniedRows == DeniedRows(rows[..i], decide)
    {
      assert rows[..i + 1][..i] == rows[..i];
      var row := rows[i];
      var decision := EvaluateRowLevelAccess(grantedScopes, getRowScope(row), minimumLevel);
      if decision.allowed {
        allowedRows := allowedRows + [row];
        continue;
      }
      var deniedReason := if decision.reason.Allow? then DenyScope else decision.reason;
      deniedRows := deniedRows + [DeniedRow(row, deniedReason)];
    }
    assert rows[..|rows|] == rows;
  }

  // ---------------------------------------------------------------- one decision

  predicate Missing(id: Option<string>) {
    NormalizeScopeField(id).None?
  }

  /** The id, normalized, if it is there. */
  function Present(id: Option<string>): seq<string> {
    match NormalizeScopeField(id)
    case None => []
    case Some(value) => [value]
  }

  /** Whether the minimum level, or an id below it that is there, asks for the shop id. */
  predicate AsksForShop(scope: RowScope, minimumLevel: ScopeLevel) {
    !minimumLevel.OrgLevel? || !Missing(scope.teamId)
  }

  /**
   * A resolved target is in normal form and names exactly the ids that are there, normalized. A refusal names the first
   * id, from the organisation down, that is both asked for and missing; nothing else is refused.
   */
  lemma ResolvedIsNormal(scope: RowScope, minimumLevel: ScopeLevel)
    ensures match ResolveRequiredScopeTarget(scope, minimumLevel)
      case Resolved(target) =>
        IsNormal(target) && Path(target) == Present(scope.orgId) + Present(scope.shopId) + Present(scope.teamId)
      case Refused(reason) => !reason.Allow? && !reason.DenyScope?
    ensures var r := ResolveRequiredScopeTarget(scope, minimumLevel);
      && (r == Refused(DenyMissingOrg) <==> Missing(scope.orgId))
      && (r == Refused(DenyMissingShop) <==>
        !Missing(scope.orgId) && Missing(scope.shopId) && AsksForShop(scope, minimumLevel))
      && (r == Refused(DenyMissingTeam) <==>
        !Missing(scope.orgId) && !Missing(scope.shopId) && Missing(scope.teamId) && minimumLevel.TeamLevel?)
  {
    hide Trim;
    if scope.orgId.Some? {
      TrimIdempotent(scope.orgId.value);
    }
    if scope.shopId.Some? {
      TrimIdempotent(scope.shopId.value);
    }
    if scope.teamId.Some? {
      TrimIdempotent(scope.teamId.value);
    }
  }

  /**
   * A row is allowed exactly when its scope resolves and some grant contains the target; the reason is ALLOW then only.
   */
  lemma AllowedIffContained(grants: seq<ScopeGrant>, scope: RowScope, minimumLevel: ScopeLevel)
    requires NoCollision(grants)
    ensures var d := EvaluateRowLevelAccess(grants, scope, minimumLevel);
      var r := ResolveRequiredScopeTarget(scope, minimumLevel);
      && (d.allowed <==> r.Resolved? && SomeGrantContains(grants, r.target))
      && (d.allowed <==> d.reason.Allow?)
  {
    hide Normalized, HasEffectiveScope, SomeGrantContains, NoCollision, EffectiveScope;
    ResolvedIsNormal(scope, minimumLevel);
    var r := ResolveRequiredScopeTarget(scope, minimumLevel);
    hide ResolveRequiredScopeTarget;
    if r.Resolved? {
      HasScopeNormalized(grants, r.target);
      ResolutionIsContainment(grants, r.target);
    }
  }

  /** By the fields: an id counts as there if it has some text, and then it is taken trimmed. */
  lemma PresentByFields(id: Option<string>)
    ensures Present(id) == if id.None? || AllWhite(id.value) then [] else [Trim(id.value)]
  {
    if id.Some? {
      TrimTrims(id.value);
    }
    hide Trim, AllWhite;
  }

  /** A decision passes on what resolving the scope gave: the reason of a refusal, or the target that was looked up. */
  lemma DecisionByFields(grants: seq<ScopeGrant>, scope: RowScope, minimumLevel: ScopeLevel)
    ensures var d := EvaluateRowLevelAccess(grants, scope, minimumLevel);
      match ResolveRequiredScopeTarget(scope, minimumLevel)
      case Refused(reason) => !d.allowed && d.reason == reason && d.target == None
      case Resolved(target) =>
        && d.target == Some(target) && d.reason == (if d.allowed then Allow else DenyScope)
        && (d.allowed <==> HasEffectiveScope(grants, target))
  {
    hide HasEffectiveScope, Normalized;
    var r := ResolveRequiredScopeTarget(scope, minimumLevel);
    hide ResolveRequiredScopeTarget;
    if r.Resolved? {
      HasScopeNormalized(grants, r.target);
    }
  }

  lemma HasScopeNormalized(grants: seq<ScopeGrant>, target: ScopeGrant)
    ensures HasEffectiveScope(Normalized(grants), target) <==> HasEffectiveScope(grants, target)
  {
    hide EffectiveScope, Normalized;
    ResolveNormalized(grants, target);
  }

  function LevelWeight(level: ScopeLevel): nat {
    match level
    case OrgLevel => 1
    case ShopLevel => 2
    case TeamLevel => 3
  }

  /** A row that resolves at a higher minimum level resolves to the same target at a lower one. */
  lemma LowerMinimumSameTarget(scope: RowScope, low: ScopeLevel, high: ScopeLevel)
    requires LevelWeight(low) <= LevelWeight(high) && ResolveRequiredScopeTarget(scope, high).Resolved?
    ensures ResolveRequiredScopeTarget(scope, low) == ResolveRequiredScopeTarget(scope, high)
  {
    hide NormalizeScopeField;
  }

  /** Raising the minimum level never allows a row that was denied. */
  lemma HigherMinimumAllowsLess(grants: seq<ScopeGrant>, scope: RowScope, low: ScopeLevel, high: ScopeLevel)
    requires LevelWeight(low) <= LevelWeight(high)
    requires EvaluateRowLevelAccess(grants, scope, high).allowed
    ensures EvaluateRowLevelAccess(grants, scope, low) == EvaluateRowLevelAccess(grants, scope, high)
  {
    LowerMinimumSameTarget(scope, low, high);
    hide ResolveRequiredScopeTarget, HasEffectiveScope, Normalized;
  }

  /** With keys that do not collide, more grants never deny a row that was allowed. */
  lemma MoreGrantsAllowMore(before: seq<ScopeGrant>, after: seq<ScopeGrant>, scope: RowScope, minimumLevel: ScopeLevel)
    requires (forall g <- before :: g in after) && NoCollision(after)
    requires EvaluateRowLevelAccess(before, scope, minimumLevel).allowed
    ensures EvaluateRowLevelAccess(after, scope, minimumLevel).allowed
  {
    hide ResolveRequiredScopeTarget, HasEffectiveScope, Normalized, NoCollision;
    var target := ResolveRequiredScopeTarget(scope, minimumLevel).target;
    HasScopeNormalized(before, target);
    HasScopeNormalized(after, target);
    MoreGrants(before, after, target);
  }

  // ------------------------------------------------------------------ all the rows

  /** The rows are the two lists shuffled together, each in its order, row k taken from the list its decision says. */
  ghost predicate IsShuffle<Row>(rows: seq<Row>, decide: Row -> Decision, yes: seq<Row>, no: seq<Row>) {
    if rows == [] then yes == [] && no == []
    else
      var front, last := rows[..|rows| - 1], rows[|rows| - 1];
      if decide(last).allowed then yes != [] && yes[|yes| - 1] == last && IsShuffle(front, decide, yes[..|yes| - 1], no)
      else no != [] && no[|no| - 1] == last && IsShuffle(front, decide, yes, no[..|no| - 1])
  }

  ghost function RowsOf<Row>(denied: seq<DeniedRow<Row>>): seq<Row> {
    seq(|denied|, k requires 0 <= k < |denied| => denied[k].row)
  }

  lemma DeniedSnoc<Row>(rows: seq<Row>, decide: Row -> Decision)
    requires rows != []
    ensures var front, last := rows[..|rows| - 1], rows[|rows| - 1];
      && RowsOf(DeniedRows(rows, decide)) == (
        if decide(last).allowed then RowsOf(DeniedRows(front, decide)) else RowsOf(DeniedRows(front, decide)) + [last])
      && AllowedRows(rows, decide) == (
        if decide(last).allowed then AllowedRows(front, decide) + [last] else AllowedRows(front, decide))
  {
  }

  /** Filtering is an order-preserving partition of the rows by their decisions. */
  lemma {:induction false} FilterPartitions<Row>(rows: seq<Row>, decide: Row -> Decision)
    ensures IsShuffle(rows, decide, AllowedRows(rows, decide), RowsOf(DeniedRows(rows, decide)))
  {
    hide AllowedRows, DeniedRows, RowsOf;
    if rows == [] {
      NoRows(decide);
    } else {
      var front, last := rows[..|rows| - 1], rows[|rows| - 1];
      FilterPartitions(front, decide);
      DeniedSnoc(rows, decide);
      var yes, no := AllowedRows(front, decide), RowsOf(DeniedRows(front, decide));
      assert (yes + [last])[..|yes|] == yes && (no + [last])[..|no|] == no;
    }
  }

  lemma NoRows<Row>(decide: Row -> Decision)
    ensures AllowedRows([], decide) == [] && RowsOf(DeniedRows([], decide)) == []
  {
  }

  /** Each row ends up where its decision says, a denied one with the decision's reason, never with ALLOW. */
  lemma {:induction false} FilterDecides<Row>(rows: seq<Row>, decide: Row -> Decision)
    ensures forall row <- AllowedRows(rows, decide) :: decide(row).allowed
    ensures forall d <- DeniedRows(rows, decide) ::
      !decide(d.row).allowed && d.reason == if decide(d.row).reason.Allow? then DenyScope else decide(d.row).reason
  {
    if rows != [] {
      FilterDecides(rows[..|rows| - 1], decide);
    }
  }

  ghost predicate IsSubsequence<T(!new)>(a: seq<T>, b: seq<T>) {
    if a == [] then true
    else if b == [] then false
    else
      var x, y := a[|a| - 1], b[|b| - 1];
      (x == y && IsSubsequence(a[..|a| - 1], b[..|b| - 1])) || IsSubsequence(a, b[..|b| - 1])
  }

  /** If the second decision allows whatever the first does, rows only move from denied to allowed. */
  lemma {:induction false} AllowingMore<Row(!new)>(rows: seq<Row>, first: Row -> Decision, second: Row -> Decision)
    requires forall row <- rows :: first(row).allowed ==> second(row).allowed
    ensures IsSubsequence(AllowedRows(rows, first), AllowedRows(rows, second))
    ensures IsSubsequence(RowsOf(DeniedRows(rows, second)), RowsOf(DeniedRows(rows, first)))
  {
    if rows != [] {
      var front, last := rows[..|rows| - 1], rows[|rows| - 1];
      AllowingMore(front, first, second);
      assert last in rows;
      Snoc(AllowedRows(front, first), AllowedRows(front, second), last);
      Snoc(RowsOf(DeniedRows(front, second)), RowsOf(DeniedRows(front, first)), last);
      DeniedSnoc(rows, first);
      DeniedSnoc(rows, second);
    }
  }

  lemma Snoc<T(!new)>(a: seq<T>, b: seq<T>, x: T)
    requires IsSubsequence(a, b)
    ensures IsSubsequence(a + [x], b + [x]) && IsSubsequence(a, b + [x])
  {
    assert (a + [x])[..|a|] == a && (b + [x])[..|b|] == b;
  }

  /** Adding grants whose keys do not collide only moves rows from denied to allowed. */
  lemma MoreGrantsFilter<Row(!new)>(
    rows: seq<Row>, before: seq<ScopeGrant>, after: seq<ScopeGrant>, getRowScope: Row -> RowScope, level: ScopeLevel)
    requires (forall g <- before :: g in after) && NoCollision(after)
    ensures var first := (row: Row) => EvaluateRowLevelAccess(before, getRowScope(row), level);
      var second := (row: Row) => EvaluateRowLevelAccess(after, getRowScope(row), level);
      && IsSubsequence(AllowedRows(rows, first), AllowedRows(rows, second))
      && IsSubsequence(RowsOf(DeniedRows(rows, second)), RowsOf(DeniedRows(rows, first)))
  {
    hide EvaluateRowLevelAccess, NoCollision;
    var first := (row: Row) => EvaluateRowLevelAccess(before, getRowScope(row), level);
    var second := (row: Row) => EvaluateRowLevelAccess(after, getRowScope(row), level);
    forall row <- rows | first(row).allowed
      ensures second(row).allowed
    {
      MoreGrantsAllowMore(before, after, getRowScope(row), level);
    }
    AllowingMore(rows, first, second);
  }

  /** Raising the minimum level only moves rows from allowed to denied. */
  lemma HigherMinimumFilter<Row(!new)>(
    rows: seq<Row>, grants: seq<ScopeGrant>, getRowScope: Row -> RowScope, low: ScopeLevel, high: ScopeLevel)
    requires LevelWeight(low) <= LevelWeight(high)
    ensures var first := (row: Row) => EvaluateRowLevelAccess(grants, getRowScope(row), high);
      var second := (row: Row) => EvaluateRowLevelAccess(grants, getRowScope(row), low);
      && IsSubsequence(AllowedRows(rows, first), AllowedRows(rows, second))
      && IsSubsequence(RowsOf(DeniedRows(rows, second)), RowsOf(DeniedRows(rows, first)))
  {
    hide EvaluateRowLevelAccess;
    var first := (row: Row) => EvaluateRowLevelAccess(grants, getRowScope(row), high);
    var second := (row: Row) => EvaluateRowLevelAccess(grants, getRowScope(row), low);
    forall row <- rows | first(row).allowed
      ensures second(row).allowed
    {
      HigherMinimumAllowsLess(grants, getRowScope(row), low, high);
    }
    AllowingMore(rows, first, second);
  }
}
