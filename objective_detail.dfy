/** The objective detail page: whether the signed-in user holds the objective, which of its
    places the user has visited, and the two commands that change them (add/remove the
    objective, toggle a place). The remote store is replaced by the two row sets the page
    writes, `user_objectives` and `user_progress`, and the read-only `objectives` and
    `objective_items` tables. */
module ObjectiveDetail {
  import opened Wrappers

  type Id = string

  /** The columns of an `objectives` row that the page uses. */
  datatype Objective = Objective(id: Id, title: string, totalItems: int)

  /** A row of `objective_items`. */
  datatype ItemRow = ItemRow(id: Id, objectiveId: Id, name: string, orderIndex: int)

  /** An entry of the page's `items` list: the row with the merged `completed` flag. */
  datatype Item = Item(id: Id, name: string, orderIndex: int, completed: bool)

  /** A `user_objectives` row (user, objective) or a `user_progress` row (user, item). */
  datatype Edge = Edge(user: Id, target: Id)

  /** Which of the four reads of `loadObjective` returned data (a failed read returns null). */
  datatype LoadReplies = LoadReplies(objectiveOk: bool, membershipOk: bool, itemsOk: bool, progressOk: bool)

  /** Everything the page's commands read or write: view state and the two written tables. */
  datatype Page = Page(
    objective: Option<Objective>,
    hasObjective: bool,
    items: seq<Item>,
    loading: bool,
    memberships: set<Edge>,
    progress: set<Edge>)

  // ---------------------------------------------------------------------------------------
  // Reads and the progress merge of loadObjective

  /** The `objective_items` query: the rows of one objective, in table order. The table is
      taken to be kept in `order_index` order, which stands for the query's `.order(...)`. */
  function ItemsOf(catalog: seq<ItemRow>, objectiveId: Id): (rows: seq<ItemRow>)
    ensures |rows| <= |catalog|
    ensures forall r :: r in rows <==> r in catalog && r.objectiveId == objectiveId
  {
    if catalog == [] then []
    else if catalog[0].objectiveId == objectiveId then [catalog[0]] + ItemsOf(catalog[1..], objectiveId)
    else ItemsOf(catalog[1..], objectiveId)
  }

  predicate SortedByOrder(rows: seq<ItemRow>)
  {
    forall i, j :: 0 <= i < j < |rows| ==> rows[i].orderIndex <= rows[j].orderIndex
  }

  /** Selecting one objective's rows keeps the table's `order_index` order. */
  lemma {:induction false} ItemsOfSorted(catalog: seq<ItemRow>, objectiveId: Id)
    requires SortedByOrder(catalog)
    ensures SortedByOrder(ItemsOf(catalog, objectiveId))
  {
    if catalog != [] {
      ItemsOfSorted(catalog[1..], objectiveId);
      var rest := ItemsOf(catalog[1..], objectiveId);
      forall r | r in rest ensures catalog[0].orderIndex <= r.orderIndex {
        var k :| 0 <= k < |catalog[1..]| && catalog[1..][k] == r;
        assert catalog[k + 1] == r;
      }
    }
  }

  function Ids(rows: seq<ItemRow>): (ids: seq<Id>)
    ensures |ids| == |rows| && forall i :: 0 <= i < |rows| ==> ids[i] == rows[i].id
  {
    seq(|rows|, i requires 0 <= i < |rows| => rows[i].id)
  }

  /** `completedIds`: the item ids of the user's progress rows, restricted to `ids`. */
  function CompletedIds(progress: set<Edge>, user: Id, ids: seq<Id>): set<Id>
  {
    set e | e in progress && e.user == user && e.target in ids :: e.target
  }

  /** `itemsData.map(item => ({...item, completed: completedIds.has(item.id)}))`. */
  function Merge(rows: seq<ItemRow>, completedIds: set<Id>): (items: seq<Item>)
    ensures |items| == |rows|
  {
    seq(|rows|, i requires 0 <= i < |rows| =>
      Item(rows[i].id, rows[i].name, rows[i].orderIndex, rows[i].id in completedIds))
  }

  /** The page state after `loadObjective`. A missing route id returns before the `try`,
      so `loading` stays true; every other early exit passes through `finally`. */
  function AfterLoad(p: Page, user: Option<Id>, routeId: Option<Id>,
                     objectives: map<Id, Objective>, catalog: seq<ItemRow>, r: LoadReplies): (q: Page)
    ensures q.memberships == p.memberships && q.progress == p.progress
    ensures !Truthy(routeId) ==> q == p
    ensures Truthy(routeId) ==> !q.loading
  {
    if !Truthy(routeId) then p
    else if user.None? then p.(loading := false)
    else if !r.objectiveOk || routeId.value !in objectives then p.(loading := false)
    else
      var id := routeId.value;
      var held := r.membershipOk && Edge(user.value, id) in p.memberships;
      var q := p.(objective := Some(objectives[id]), hasObjective := held);
      if !r.itemsOk then q.(loading := false)
      else
        var rows := ItemsOf(catalog, id);
        var done := if r.progressOk then CompletedIds(p.progress, user.value, Ids(rows)) else {};
        q.(items := Merge(rows, done), loading := false)
  }

  /** After a load whose reads all answered, the list is the objective's rows in order, and
      a place is marked completed exactly when the user has a progress row for it. */
  lemma LoadMergesProgress(p: Page, user: Option<Id>, routeId: Option<Id>,
                           objectives: map<Id, Objective>, catalog: seq<ItemRow>)
    requires user.Some? && Truthy(routeId) && routeId.value in objectives
    ensures var q := AfterLoad(p, user, routeId, objectives, catalog, LoadReplies(true, true, true, true));
      var rows := ItemsOf(catalog, routeId.value);
      && q.objective == Some(objectives[routeId.value])
      && !q.loading
      && (q.hasObjective <==> Edge(user.value, routeId.value) in p.memberships)
      && |q.items| == |rows|
      && (forall i :: 0 <= i < |rows| ==>
            q.items[i].id == rows[i].id && q.items[i].orderIndex == rows[i].orderIndex
            && (q.items[i].completed <==> Edge(user.value, rows[i].id) in p.progress))
      && q.memberships == p.memberships && q.progress == p.progress
  {
    var rows := ItemsOf(catalog, routeId.value);
    var ids := Ids(rows);
    forall i | 0 <= i < |rows|
      ensures rows[i].id in CompletedIds(p.progress, user.value, ids)
              <==> Edge(user.value, rows[i].id) in p.progress
    {
      assert ids[i] == rows[i].id;
      if Edge(user.value, rows[i].id) in p.progress {
        var e := Edge(user.value, rows[i].id);
        assert e.target in ids;
      }
    }
  }

  /** When the progress read fails, every place shows as not visited. */
  lemma LoadWithoutProgress(p: Page, user: Option<Id>, routeId: Option<Id>,
                            objectives: map<Id, Objective>, catalog: seq<ItemRow>, r: LoadReplies)
    requires user.Some? && Truthy(routeId) && routeId.value in objectives
    requires r.objectiveOk && r.itemsOk && !r.progressOk
    ensures var q := AfterLoad(p, user, routeId, objectives, catalog, r);
      forall i :: 0 <= i < |q.items| ==> !q.items[i].completed
  {
  }

  // ---------------------------------------------------------------------------------------
  // Commands

  /** `handleAddObjective`: without a user or route id nothing happens; otherwise a held
      objective is removed and an unheld one inserted, and the flag follows only when the
      write reports no error. */
  function AfterAdd(p: Page, user: Option<Id>, routeId: Option<Id>, ok: bool): Page
  {
    if user.None? || !Truthy(routeId) || !ok then p
    else
      var e := Edge(user.value, routeId.value);
      if p.hasObjective then p.(memberships := p.memberships - {e}, hasObjective := false)
      else p.(memberships := p.memberships + {e}, hasObjective := true)
  }

  /** The list after `setItems(prev => prev.map(...))`: entries with `itemId` get
      `completed := !completed`, the rest are kept. */
  function Flip(items: seq<Item>, itemId: Id, completed: bool): (r: seq<Item>)
    ensures |r| == |items|
  {
    seq(|items|, i requires 0 <= i < |items| =>
      if items[i].id == itemId then items[i].(completed := !completed) else items[i])
  }

  /** `handleToggleItem(itemId, completed)`: first adds the objective when it is not held
      (that call reports its own errors, so the toggle goes on after a failed insert), then
      deletes or inserts the progress row, and flips the list only if that write succeeded. */
  function AfterToggle(p: Page, user: Option<Id>, routeId: Option<Id>, itemId: Id,
                       completed: bool, addOk: bool, writeOk: bool): (q: Page)
    ensures user.None? ==> q == p
    ensures |q.items| == |p.items|
    ensures q.memberships == p.memberships
            || (user.Some? && Truthy(routeId) && !p.hasObjective
                && q.memberships == p.memberships + {Edge(user.value, routeId.value)})
    ensures user.Some? ==> forall e :: e != Edge(user.value, itemId) ==> (e in q.progress <==> e in p.progress)
  {
    if user.None? then p
    else
      var q := if !p.hasObjective then AfterAdd(p, user, routeId, addOk) else p;
      var e := Edge(user.value, itemId);
      if !writeOk then q
      else if completed then q.(progress := q.progress - {e}, items := Flip(q.items, itemId, completed))
      else q.(progress := q.progress + {e}, items := Flip(q.items, itemId, completed))
  }

  /** `items.filter(item => item.completed).length`. */
  function CompletedCount(items: seq<Item>): (n: nat)
    ensures n <= |items|
    ensures n == |items| <==> forall i :: 0 <= i < |items| ==> items[i].completed
  {
    if items == [] then 0
    else (if items[0].completed then 1 else 0) + CompletedCount(items[1..])
  }

  // ---------------------------------------------------------------------------------------
  // Properties of the commands

  /** The view agrees with the store: the flag matches the membership row, and every
      listed place is completed exactly when its progress row exists. */
  ghost predicate Consistent(p: Page, user: Id, objectiveId: Id)
  {
    && (p.hasObjective <==> Edge(user, objectiveId) in p.memberships)
    && forall i :: 0 <= i < |p.items| ==> (p.items[i].completed <==> Edge(user, p.items[i].id) in p.progress)
  }

  /** A load whose reads all answered leaves the view consistent with the store. */
  lemma LoadEstablishesConsistency(p: Page, user: Id, routeId: Option<Id>,
                                   objectives: map<Id, Objective>, catalog: seq<ItemRow>)
    requires Truthy(routeId) && routeId.value in objectives
    ensures Consistent(AfterLoad(p, Some(user), routeId, objectives, catalog, LoadReplies(true, true, true, true)),
                       user, routeId.value)
  {
    LoadMergesProgress(p, Some(user), routeId, objectives, catalog);
  }

  /** Toggling flips `completed` for exactly the entries with the given id and keeps every
      other entry; the progress row is deleted for a completed place and inserted otherwise. */
  lemma ToggleFlipsOnlyTarget(p: Page, user: Id, routeId: Option<Id>, itemId: Id,
                              completed: bool, addOk: bool)
    ensures var q := AfterToggle(p, Some(user), routeId, itemId, completed, addOk, true);
      && |q.items| == |p.items|
      && (forall i :: 0 <= i < |p.items| ==>
            q.items[i] == if p.items[i].id == itemId then p.items[i].(completed := !completed) else p.items[i])
      && q.progress == if completed then p.progress - {Edge(user, itemId)} else p.progress + {Edge(user, itemId)}
  {
  }

  /** Toggling a place while the objective is not held inserts the membership row first, so
      the objective is held afterwards, even if the progress write then fails. */
  lemma ToggleAddsObjectiveFirst(p: Page, user: Id, routeId: Option<Id>, itemId: Id,
                                 completed: bool, writeOk: bool)
    requires Truthy(routeId) && !p.hasObjective
    ensures var q := AfterToggle(p, Some(user), routeId, itemId, completed, true, writeOk);
      q.hasObjective && q.memberships == p.memberships + {Edge(user, routeId.value)}
  {
  }

  /** A failed progress write leaves the list as it was; when no membership insert was
      needed (or it failed too) nothing changes at all. */
  lemma ToggleErrorChangesNothing(p: Page, user: Option<Id>, routeId: Option<Id>, itemId: Id,
                                  completed: bool, addOk: bool)
    ensures AfterToggle(p, user, routeId, itemId, completed, addOk, false).items == p.items
    ensures p.hasObjective || !addOk ==> AfterToggle(p, user, routeId, itemId, completed, addOk, false) == p
  {
  }

  /** Toggling a place twice (the second time with the flag the first one set) restores the
      progress rows and the list. When the objective was not held, the first toggle added it
      (or, if that insert failed, the second one did), so it is held afterwards; when it was
      held, the whole page is as before. */
  lemma ToggleTwiceRestores(p: Page, user: Id, routeId: Option<Id>, itemId: Id, completed: bool, addOk: bool)
    requires Truthy(routeId) && Consistent(p, user, routeId.value)
    requires completed <==> Edge(user, itemId) in p.progress
    ensures var q := AfterToggle(p, Some(user), routeId, itemId, completed, addOk, true);
      var r := AfterToggle(q, Some(user), routeId, itemId, !completed, true, true);
      && r.progress == p.progress && r.items == p.items && r.hasObjective
      && (p.hasObjective ==> r == p)
      && (!p.hasObjective ==> r.memberships == p.memberships + {Edge(user, routeId.value)})
  {
    var q := AfterToggle(p, Some(user), routeId, itemId, completed, addOk, true);
    var r := AfterToggle(q, Some(user), routeId, itemId, !completed, true, true);
    assert q.items == Flip(p.items, itemId, completed);
    forall i | 0 <= i < |p.items| ensures r.items[i] == p.items[i] {
      if p.items[i].id == itemId {
        assert p.items[i].completed == completed;
      }
    }
    assert r.items == p.items;
  }

  /** `handleAddObjective` inverts itself: removing then re-adding (or the reverse) restores
      the membership rows and the flag; it never touches progress rows or the list. */
  lemma AddObjectiveRoundTrip(p: Page, user: Id, routeId: Option<Id>)
    requires Truthy(routeId) && Consistent(p, user, routeId.value)
    ensures var q := AfterAdd(p, Some(user), routeId, true);
      && q.hasObjective == !p.hasObjective
      && q.progress == p.progress && q.items == p.items
      && AfterAdd(q, Some(user), routeId, true) == p
  {
  }

  /** A failed membership write changes nothing. */
  lemma AddObjectiveErrorChangesNothing(p: Page, user: Option<Id>, routeId: Option<Id>)
    ensures AfterAdd(p, user, routeId, false) == p
  {
  }

  /** Both commands keep the view consistent with the store, whatever the writes report,
      provided the page passes a listed place's current flag, as its buttons do. */
  lemma CommandsPreserveConsistency(p: Page, user: Id, routeId: Option<Id>, k: nat,
                                    addOk: bool, writeOk: bool)
    requires Truthy(routeId) && Consistent(p, user, routeId.value)
    requires k < |p.items|
    ensures Consistent(AfterAdd(p, Some(user), routeId, addOk), user, routeId.value)
    ensures Consistent(AfterToggle(p, Some(user), routeId, p.items[k].id, p.items[k].completed, addOk, writeOk),
                       user, routeId.value)
  {
    var itemId := p.items[k].id;
    var completed := p.items[k].completed;
    var q := AfterToggle(p, Some(user), routeId, itemId, completed, addOk, writeOk);
    if writeOk {
      forall i | 0 <= i < |q.items|
        ensures q.items[i].completed <==> Edge(user, q.items[i].id) in q.progress
      {
        if p.items[i].id == itemId {
          assert p.items[i].completed == completed;
        }
      }
    }
  }

  predicate DistinctIds(items: seq<Item>)
  {
    forall i, j :: 0 <= i < j < |items| ==> items[i].id != items[j].id
  }

  /** Flipping one listed place whose id is unique moves `completedCount` by exactly one:
      down for a completed place, up otherwise. */
  lemma {:induction false} FlipMovesCountByOne(items: seq<Item>, k: nat)
    requires DistinctIds(items) && k < |items|
    ensures CompletedCount(Flip(items, items[k].id, items[k].completed))
            == CompletedCount(items) + (if items[k].completed then -1 else 1)
  {
    var id, c := items[k].id, items[k].completed;
    var f := Flip(items, id, c);
    assert f[1..] == Flip(items[1..], id, c);
    if k == 0 {
      FlipMissesAbsent(items[1..], id, c);
    } else {
      assert items[1..][k - 1] == items[k];
      FlipMovesCountByOne(items[1..], k - 1);
    }
  }

  /** Flipping an id that is not listed leaves the count unchanged. */
  lemma FlipMissesAbsent(items: seq<Item>, id: Id, c: bool)
    requires forall i :: 0 <= i < |items| ==> items[i].id != id
    ensures Flip(items, id, c) == items
  {
  }

  // ---------------------------------------------------------------------------------------
  // The page

  /** The page component: its state hooks plus the rows it writes. */
  class ObjectiveDetailPage {
    const user: Option<Id>
    const routeId: Option<Id>
    const objectives: map<Id, Objective>
    const catalog: seq<ItemRow>

    var objective: Option<Objective>
    var hasObjective: bool
    var items: seq<Item>
    var loading: bool
    var memberships: set<Edge>
    var progress: set<Edge>

    function Snapshot(): Page
      reads this
    {
      Page(objective, hasObjective, items, loading, memberships, progress)
    }

    /** The initial hook values, over the store's current rows. */
    constructor (user: Option<Id>, routeId: Option<Id>, objectives: map<Id, Objective>,
                 catalog: seq<ItemRow>, memberships: set<Edge>, progress: set<Edge>)
      ensures this.user == user && this.routeId == routeId
      ensures this.objectives == objectives && this.catalog == catalog
      ensures Snapshot() == Page(None, false, [], true, memberships, progress)
    {
      this.user, this.routeId := user, routeId;
      this.objectives, this.catalog := objectives, catalog;
      objective, hasObjective, items, loading := None, false, [], true;
      this.memberships, this.progress := memberships, progress;
    }

    method Load(r: LoadReplies)
      modifies this
      ensures Snapshot() == AfterLoad(old(Snapshot()), user, routeId, objectives, catalog, r)
    {
      if !Truthy(routeId) {
        return;
      }
      if user.None? || !r.objectiveOk || routeId.value !in objectives {
        loading := false;
        return;
      }
      var id := routeId.value;
      objective := Some(objectives[id]);
      hasObjective := r.membershipOk && Edge(user.value, id) in memberships;
      if r.itemsOk {
        var rows := ItemsOf(catalog, id);
        var done := if r.progressOk then CompletedIds(progress, user.value, Ids(rows)) else {};
        items := Merge(rows, done);
      }
      loading := false;
    }

    method AddObjective(ok: bool)
      modifies this
      ensures Snapshot() == AfterAdd(old(Snapshot()), user, routeId, ok)
    {
      if user.None? || !Truthy(routeId) {
        return;
      }
      var e := Edge(user.value, routeId.value);
      if hasObjective {
        if !ok {
          return;
        }
        memberships := memberships - {e};
        hasObjective := false;
      } else {
        if !ok {
          return;
        }
        memberships := memberships + {e};
        hasObjective := true;
      }
    }

    method ToggleItem(itemId: Id, completed: bool, addOk: bool, writeOk: bool)
      modifies this
      ensures Snapshot() == AfterToggle(old(Snapshot()), user, routeId, itemId, completed, addOk, writeOk)
    {
      if user.None? {
        return;
      }
      if !hasObjective {
        AddObjective(addOk);
      }
      var e := Edge(user.value, itemId);
      if completed {
        if !writeOk {
          return;
        }
        progress := progress - {e};
      } else {
        if !writeOk {
          return;
        }
        progress := progress + {e};
      }
      items := Flip(items, itemId, completed);
    }
  }
}
