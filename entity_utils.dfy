/** Two list-level helpers of the entity feature: whether an entity takes part
    in the projection under the mute and solo switches, and the display order
    of an entity list (top-level entities by category, each followed by its
    children, orphans last). */
module EntityUtils {
  import opened Wrappers
  import opened Entities
  import Templates
  import DisplayOrder

  // ---------------------------------------------------------------------------
  // isEntityActive
  // ---------------------------------------------------------------------------

  /** The entity a parent link leads to; none when `e` has no parent or the
      parent is not in the map. */
  function ParentIn(m: map<string, Entity>, e: Entity): Option<Entity> {
    if HasParent(e) && e.parentId.value in m then Some(m[e.parentId.value]) else None
  }

  /** The entity `k` parent links above `e` (`e` itself for `k == 0`). */
  function Ancestor(m: map<string, Entity>, e: Entity, k: nat): Option<Entity> {
    if k == 0 then Some(e)
    else
      match Ancestor(m, e, k - 1)
      case None => None
      case Some(a) => ParentIn(m, a)
  }

  /** The walk up the parent links from `e` stops. A walk that stops meets each
      entity of the map at most once, so it stops within `|m| + 1` links. */
  predicate ChainEnds(m: map<string, Entity>, e: Entity) {
    Ancestor(m, e, |m| + 1).None?
  }

  /** Some proper ancestor of `e` has its id in `ids`. */
  ghost predicate AncestorIn(m: map<string, Entity>, e: Entity, ids: set<string>) {
    exists k: nat :: 0 < k && Ancestor(m, e, k).Some? && Ancestor(m, e, k).value.id in ids
  }

  /** An entity is active when neither it nor an ancestor is muted and, if any
      entity is soloed, it or an ancestor is. */
  ghost predicate Active(m: map<string, Entity>, e: Entity, soloed: set<string>, muted: set<string>) {
    e.id !in muted && !AncestorIn(m, e, muted) &&
    (soloed == {} || e.id in soloed || AncestorIn(m, e, soloed))
  }

  /** Once the walk has stopped it stays stopped. */
  lemma {:induction false} AncestorStaysGone(m: map<string, Entity>, e: Entity, k: nat, j: nat)
    requires k <= j && Ancestor(m, e, k).None?
    ensures Ancestor(m, e, j).None?
    decreases j - k
  {
    if k < j {
      AncestorStaysGone(m, e, k, j - 1);
    }
  }

  /** The ancestors of `e` are its parent and the ancestors of its parent. */
  lemma {:induction false} AncestorShift(m: map<string, Entity>, e: Entity, p: Entity, k: nat)
    requires ParentIn(m, e) == Some(p)
    ensures Ancestor(m, e, k + 1) == Ancestor(m, p, k)
  {
    if k > 0 {
      AncestorShift(m, e, p, k - 1);
    }
  }

  /** An ancestor of `e` is in `ids` exactly when its parent is, or an ancestor
      of its parent is. */
  lemma AncestorInParent(m: map<string, Entity>, e: Entity, p: Entity, ids: set<string>)
    requires ParentIn(m, e) == Some(p)
    ensures AncestorIn(m, e, ids) <==> p.id in ids || AncestorIn(m, p, ids)
  {
    if AncestorIn(m, e, ids) {
      var k: nat :| 0 < k && Ancestor(m, e, k).Some? && Ancestor(m, e, k).value.id in ids;
      AncestorShift(m, e, p, k - 1);
      if k > 1 {
        assert Ancestor(m, p, k - 1).Some? && Ancestor(m, p, k - 1).value.id in ids;
      }
    }
    if p.id in ids {
      AncestorShift(m, e, p, 0);
      assert Ancestor(m, e, 1).Some? && Ancestor(m, e, 1).value.id in ids;
    } else if AncestorIn(m, p, ids) {
      var k: nat :| 0 < k && Ancestor(m, p, k).Some? && Ancestor(m, p, k).value.id in ids;
      AncestorShift(m, e, p, k);
      assert Ancestor(m, e, k + 1).Some? && Ancestor(m, e, k + 1).value.id in ids;
    }
  }

  /** An entity whose parent link leads nowhere has no ancestors. */
  lemma NoAncestors(m: map<string, Entity>, e: Entity, ids: set<string>)
    requires ParentIn(m, e).None?
    ensures !AncestorIn(m, e, ids)
  {
    forall k: nat | 0 < k
      ensures Ancestor(m, e, k).None?
    {
      AncestorStaysGone(m, e, 1, k);
    }
  }

  /** The ancestor walk of lines 20-26 and 35-41: whether some ancestor of `e`
      has its id in `ids`. The walk stops when the chain ends or when it meets
      an id in `ids`, even on a cycle of parent links. */
  method HasAncestorIn(m: map<string, Entity>, e: Entity, ids: set<string>) returns (found: bool)
    requires ChainEnds(m, e) || AncestorIn(m, e, ids)
    ensures found <==> AncestorIn(m, e, ids)
  {
    // The number of links after which the walk has surely stopped.
    ghost var bound: nat := |m| + 1;
    if !ChainEnds(m, e) {
      bound :| 0 < bound && Ancestor(m, e, bound).Some? && Ancestor(m, e, bound).value.id in ids;
    }
    var parent := ParentIn(m, e);
    var k := 1;
    while parent.Some?
      invariant 1 <= k <= bound
      invariant Ancestor(m, e, bound).None? || Ancestor(m, e, bound).value.id in ids
      invariant parent == Ancestor(m, e, k)
      invariant forall j: nat :: 0 < j < k ==> Ancestor(m, e, j).Some? && Ancestor(m, e, j).value.id !in ids
      decreases bound - k
    {
      if parent.value.id in ids {
        return true;
      }
      parent := ParentIn(m, parent.value);
      k := k + 1;
    }
    forall j: nat | k <= j
      ensures Ancestor(m, e, j).None?
    {
      AncestorStaysGone(m, e, k, j);
    }
    return false;
  }

  /** The walks of `isEntityActive` stop: the entity is muted, the first walk
      meets a muted ancestor, or the parent chain ends. Only on a cycle of
      parent links that holds no muted entity do they run forever. */
  ghost predicate WalkStops(m: map<string, Entity>, e: Entity, muted: set<string>) {
    e.id in muted || AncestorIn(m, e, muted) || ChainEnds(m, e)
  }

  /** Two entities whose parent links name each other: the walk from `e`
      alternates between them. */
  lemma {:induction false} TwoCycleAncestors(m: map<string, Entity>, e: Entity, p: Entity, k: nat)
    requires ParentIn(m, e) == Some(p) && ParentIn(m, p) == Some(e)
    ensures Ancestor(m, e, k) == if k % 2 == 0 then Some(e) else Some(p)
  {
    if k > 0 {
      TwoCycleAncestors(m, e, p, k - 1);
    }
  }

  /** On such a cycle the chain never ends, yet the walk stops at a muted
      parent and the entity is inactive. */
  lemma MutedCycleStops(m: map<string, Entity>, e: Entity, p: Entity, soloed: set<string>, muted: set<string>)
    requires ParentIn(m, e) == Some(p) && ParentIn(m, p) == Some(e) && p.id in muted
    ensures !ChainEnds(m, e) && WalkStops(m, e, muted) && !Active(m, e, soloed, muted)
  {
    TwoCycleAncestors(m, e, p, |m| + 1);
    TwoCycleAncestors(m, e, p, 1);
  }

  /** `isEntityActive`: a mute on the entity or an ancestor excludes it; when
      anything is soloed, only soloed entities and their descendants stay. */
  method IsEntityActive(e: Entity, soloed: set<string>, muted: set<string>, m: map<string, Entity>)
    returns (active: bool)
    requires WalkStops(m, e, muted)
    ensures active <==> Active(m, e, soloed, muted)
  {
    if e.id in muted {
      return false;
    }
    var mutedAbove := HasAncestorIn(m, e, muted);
    if mutedAbove {
      return false;
    }
    if |soloed| > 0 {
      if e.id in soloed {
        return true;
      }
      active := HasAncestorIn(m, e, soloed);
      return;
    }
    return true;
  }

  /** A top-level entity is active when it is not muted and, under solos, is
      soloed itself. */
  lemma TopLevelActive(m: map<string, Entity>, e: Entity, soloed: set<string>, muted: set<string>)
    requires ParentIn(m, e).None?
    ensures Active(m, e, soloed, muted) <==> e.id !in muted && (soloed == {} || e.id in soloed)
  {
    NoAncestors(m, e, muted);
    NoAncestors(m, e, soloed);
  }

  /** Muting an entity mutes every entity below it. */
  lemma MutedParentMutesChild(m: map<string, Entity>, e: Entity, p: Entity, soloed: set<string>, muted: set<string>)
    requires ParentIn(m, e) == Some(p)
    requires p.id in muted || AncestorIn(m, p, muted)
    ensures !Active(m, e, soloed, muted)
  {
    AncestorInParent(m, e, p, muted);
  }

  /** The child of an active entity is active unless it is muted itself. */
  lemma ActiveParentActivatesChild(m: map<string, Entity>, e: Entity, p: Entity, soloed: set<string>, muted: set<string>)
    requires ParentIn(m, e) == Some(p)
    requires Active(m, p, soloed, muted) && e.id !in muted
    ensures Active(m, e, soloed, muted)
  {
    AncestorInParent(m, e, p, muted);
    AncestorInParent(m, e, p, soloed);
  }

  /** Under solos, an active entity that is not soloed itself owes it to an
      active parent. */
  lemma ActiveChildHasActiveParent(m: map<string, Entity>, e: Entity, p: Entity, soloed: set<string>, muted: set<string>)
    requires ParentIn(m, e) == Some(p)
    requires Active(m, e, soloed, muted) && soloed != {} && e.id !in soloed
    ensures Active(m, p, soloed, muted)
  {
    AncestorInParent(m, e, p, muted);
    AncestorInParent(m, e, p, soloed);
  }

  // ---------------------------------------------------------------------------
  // sortEntities
  // ---------------------------------------------------------------------------

  /** `getCategory`: the category of the entity's template, Investment when
      the key names no template. */
  function Category(e: Entity): Templates.EntityCategory {
    match Templates.GetEntityTemplate(e.templateKey)
    case Some(t) => t.category
    case None => Templates.Investment
  }

  /** `indexOf`, with the length of `order` standing for "absent". */
  function IndexOf(order: seq<Templates.EntityCategory>, c: Templates.EntityCategory): (i: nat)
    ensures i <= |order|
    ensures i < |order| <==> c in order
    ensures i < |order| ==> order[i] == c
    ensures forall j :: 0 <= j < i ==> order[j] != c
  {
    if order == [] then 0
    else if order[0] == c then 0
    else
      assert forall j :: 1 <= j < |order| ==> order[j] == order[1..][j - 1];
      1 + IndexOf(order[1..], c)
  }

  /** `getCategoryIndex(getCategory(e))`: the place of the entity's category
      in the sort order; the "absent" rank is never taken. */
  function Rank(e: Entity): (r: nat)
    ensures r < |Templates.SortOrder| && Templates.SortOrder[r] == Category(e)
    ensures forall j :: 0 <= j < r ==> Templates.SortOrder[j] != Category(e)
  {
    Templates.SortOrderComplete(Category(e));
    IndexOf(Templates.SortOrder, Category(e))
  }


  /** An entity without a parent sorts under the Investment category when its
      key names no template, as the fallback entity's key does. */
  lemma FallbackRanksAsInvestment(e: Entity)
    requires e.templateKey == "fallback"
    ensures Category(e) == Templates.Investment && Rank(e) == 1
  {
    assert Category(e) == Templates.Investment by {
      Templates.FallbackKeyHasNoTemplate();
    }
    var r := Rank(e);
    assert r < 4 && Templates.SortOrder[r] == Templates.Investment;
    assert r == 1 by {
      assert Templates.SortOrder == [Templates.Income, Templates.Investment, Templates.Debt, Templates.Expense];
    }
  }


  /** `parentId` where it is truthy, the empty string otherwise. */
  function ParentKey(e: Entity): (k: string)
    ensures k != "" <==> HasParent(e)
  {
    if HasParent(e) then e.parentId.value else ""
  }

  /** The id of an entity. */
  function EntityId(e: Entity): string {
    e.id
  }

  /** The number of values `getCategoryIndex` can take: a place in the sort
      order, or its length for a category outside it. */
  const RankCount: nat := |Templates.SortOrder| + 1

  /** Every entity's rank is one `getCategoryIndex` can return. */
  lemma RanksBelowCount(es: seq<Entity>)
    ensures DisplayOrder.RankedBelow(es, Rank, RankCount)
  {
    forall k | 0 <= k < |es|
      ensures Rank(es[k]) < RankCount
    {
    }
  }

  /** `sortEntities`: the top-level entities in category order (ties in input
      order), each followed by its children, then the orphans. With distinct
      ids it lists every entity exactly once. */
  method SortEntities(es: seq<Entity>) returns (result: seq<Entity>)
    ensures result == DisplayOrder.Arranged(es, EntityId, ParentKey, Rank, RankCount)
    ensures DisplayOrder.Parents(result, ParentKey) ==
            DisplayOrder.SortedByRank(DisplayOrder.Parents(es, ParentKey), Rank, RankCount)
    ensures DisplayOrder.DistinctIds(es, EntityId) ==> multiset(result) == multiset(es)
  {
    result := DisplayOrder.Arrange(es, EntityId, ParentKey, Rank, RankCount);
    DisplayOrder.ArrangedSortsParents(es, EntityId, ParentKey, Rank, RankCount);
    if DisplayOrder.DistinctIds(es, EntityId) {
      RanksBelowCount(es);
      DisplayOrder.ArrangedPermutes(es, EntityId, ParentKey, Rank, RankCount);
    }
  }
}
