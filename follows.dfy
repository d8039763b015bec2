/** The `follows` table, shared by the profile page and the user search page: a set of
    (follower, following) pairs, at most one row per ordered pair. */
module Follows {

  type Id = string

  datatype Follow = Follow(follower: Id, following: Id)

  /** The rows `.eq("following_id", id)` selects: those whose followed user is `id`. */
  function FollowerRows(rows: set<Follow>, id: Id): set<Follow>
  {
    set f | f in rows && f.following == id
  }

  /** The rows `.eq("follower_id", id)` selects: those whose follower is `id`. */
  function FollowingRows(rows: set<Follow>, id: Id): set<Follow>
  {
    set f | f in rows && f.follower == id
  }

  /** The exact count of `.eq("following_id", id)`: how many follow `id`; zero exactly when
      no row names `id` as the followed user. */
  function FollowersOf(rows: set<Follow>, id: Id): (n: nat)
    ensures n <= |rows|
    ensures n == 0 <==> forall f :: f in rows ==> f.following != id
  {
    var m := FollowerRows(rows, id);
    SubsetCount(m, rows);
    assert (forall f :: f in rows ==> f.following != id) ==> m == {};
    assert m == {} ==> forall f :: f in rows ==> f !in m;
    |m|
  }

  /** The exact count of `.eq("follower_id", id)`: how many `id` follows; zero exactly when
      no row names `id` as the follower. */
  function FollowingOf(rows: set<Follow>, id: Id): (n: nat)
    ensures n <= |rows|
    ensures n == 0 <==> forall f :: f in rows ==> f.follower != id
  {
    var m := FollowingRows(rows, id);
    SubsetCount(m, rows);
    assert (forall f :: f in rows ==> f.follower != id) ==> m == {};
    assert m == {} ==> forall f :: f in rows ==> f !in m;
    |m|
  }

  /** A subset has at most as many elements as the whole set. */
  lemma {:induction false} SubsetCount<T>(a: set<T>, b: set<T>)
    requires a <= b
    ensures |a| <= |b|
  {
    if a != {} {
      var x :| x in a;
      SubsetCount(a - {x}, b - {x});
    }
  }

  /** Inserting a new pair raises the followed user's follower count by one and the
      follower's following count by one; every other user's counts stay as they were. */
  lemma InsertCounts(rows: set<Follow>, f: Follow, id: Id)
    requires f !in rows
    ensures FollowersOf(rows + {f}, id) == FollowersOf(rows, id) + (if f.following == id then 1 else 0)
    ensures FollowingOf(rows + {f}, id) == FollowingOf(rows, id) + (if f.follower == id then 1 else 0)
  {
    var a, b := FollowerRows(rows, id), FollowingRows(rows, id);
    if f.following == id {
      assert FollowerRows(rows + {f}, id) == a + {f};
    } else {
      assert FollowerRows(rows + {f}, id) == a;
    }
    if f.follower == id {
      assert FollowingRows(rows + {f}, id) == b + {f};
    } else {
      assert FollowingRows(rows + {f}, id) == b;
    }
  }

  /** Deleting an existing pair lowers the same two counts by one. */
  lemma DeleteCounts(rows: set<Follow>, f: Follow, id: Id)
    requires f in rows
    ensures FollowersOf(rows - {f}, id) == FollowersOf(rows, id) - (if f.following == id then 1 else 0)
    ensures FollowingOf(rows - {f}, id) == FollowingOf(rows, id) - (if f.follower == id then 1 else 0)
  {
    var rest := rows - {f};
    assert rows == rest + {f};
    InsertCounts(rest, f, id);
  }

  /** The table the pages write through. A write the store refuses changes no row. */
  class FollowTable {
    var rows: set<Follow>

    constructor (rows: set<Follow>)
      ensures this.rows == rows
    {
      this.rows := rows;
    }

    /** `insert({follower_id, following_id})`; `ok` is whether the store accepted it. */
    method Insert(f: Follow, ok: bool)
      modifies this
      ensures rows == if ok then old(rows) + {f} else old(rows)
    {
      if ok {
        rows := rows + {f};
      }
    }

    /** `delete().eq("follower_id", ...).eq("following_id", ...)`: every matching row goes. */
    method Delete(follower: Id, following: Id, ok: bool)
      modifies this
      ensures rows == if ok then old(rows) - {Follow(follower, following)} else old(rows)
    {
      if ok {
        rows := rows - {Follow(follower, following)};
      }
    }
  }
}
