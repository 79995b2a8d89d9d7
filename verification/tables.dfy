/**
 * Convex tables as the data layer sees them. Every row carries two system
 * fields, its id and its creation time, besides the fields its table declares.
 * A table is held in insertion order, which is also ascending creation order,
 * so a query's default `.order("asc")` is the table order itself.
 */
module Tables {

  /** Row ids. The store never issues id 0; it stands for the empty id string. */
  type Id = nat

  datatype Option<T> = None | Some(value: T)

  /** A stored row: `_id`, `_creationTime` and the table's own fields. */
  datatype Row<T> = Row(id: Id, creationTime: int, fields: T)

  type Table<T> = seq<Row<T>>

  /** Ids are distinct and creation times strictly increase along the table. */
  ghost predicate Chronological<T(!new)>(t: Table<T>) {
    forall i, j :: 0 <= i < j < |t| ==> t[i].id != t[j].id && t[i].creationTime < t[j].creationTime
  }

  /** Creation times strictly decrease along the table (`.order("desc")`). */
  ghost predicate NewestFirst<T(!new)>(t: Table<T>) {
    forall i, j :: 0 <= i < j < |t| ==> t[i].creationTime > t[j].creationTime
  }

  /** The invariant of a table in a store that has issued the ids below `nextId`
      and the creation times up to `clock`. */
  ghost predicate WellFormed<T(!new)>(t: Table<T>, nextId: Id, clock: int) {
    && Chronological(t)
    && forall i :: 0 <= i < |t| ==> 0 < t[i].id < nextId && t[i].creationTime <= clock
  }

  ghost function IdsOf<T(!new)>(t: Table<T>): set<Id> {
    set x | x in t :: x.id
  }

  /** The rows `keep` selects, in table order: a query's `.filter(...)`. */
  function Filter<T(!new)>(t: Table<T>, keep: Row<T> -> bool): (r: Table<T>)
    ensures forall x :: x in r <==> x in t && keep(x)
    ensures |r| <= |t|
    ensures Chronological(t) ==> Chronological(r)
    decreases |t|
  {
    if |t| == 0 then []
    else
      var rest := Filter(t[1..], keep);
      FirstBeforeRest(t, rest);
      if keep(t[0]) then [t[0]] + rest else rest
  }

  /** In a chronological table the first row precedes every row after it. */
  lemma FirstBeforeRest<T(!new)>(t: Table<T>, rest: Table<T>)
    requires |t| > 0
    requires forall x :: x in rest ==> x in t[1..]
    ensures Chronological(t) && Chronological(rest) ==> Chronological([t[0]] + rest)
  {
    if Chronological(t) && Chronological(rest) {
      forall x | x in rest ensures x.id != t[0].id && t[0].creationTime < x.creationTime {
        var k :| 0 <= k < |t[1..]| && t[1..][k] == x;
        assert t[k + 1] == x;
      }
      var u := [t[0]] + rest;
      forall i, j | 0 <= i < j < |u| ensures u[i].id != u[j].id && u[i].creationTime < u[j].creationTime {
        if i == 0 {
          assert u[j] in rest;
        } else {
          assert u[i] == rest[i - 1] && u[j] == rest[j - 1];
        }
      }
    }
  }

  /** The rows `drop` does not select, in table order. */
  function Reject<T(!new)>(t: Table<T>, drop: Row<T> -> bool): (r: Table<T>)
    ensures forall x :: x in r <==> x in t && !drop(x)
    ensures |r| <= |t|
    ensures Chronological(t) ==> Chronological(r)
  {
    Filter(t, x => !drop(x))
  }

  /** The table after `ctx.db.delete` of every id in `doomed`. */
  function Without<T(!new)>(t: Table<T>, doomed: set<Id>): (r: Table<T>)
    ensures forall x :: x in r <==> x in t && x.id !in doomed
    ensures Chronological(t) ==> Chronological(r)
  {
    Filter(t, (x: Row<T>) => x.id !in doomed)
  }

  /** `ctx.db.get(id)`: the row with that id, if any. */
  function Get<T(!new)>(t: Table<T>, id: Id): (r: Option<Row<T>>)
    ensures r.Some? ==> r.value in t && r.value.id == id
    ensures r.None? <==> forall x :: x in t ==> x.id != id
    decreases |t|
  {
    if |t| == 0 then None
    else if t[0].id == id then Some(t[0])
    else Get(t[1..], id)
  }

  /** Selects the row whose `_id` is `id`. */
  function HasId<T(!new)>(id: Id): Row<T> -> bool {
    (x: Row<T>) => x.id == id
  }

  /** The first element of a query result: `.first()`. */
  function First<T(!new)>(t: Table<T>): Option<Row<T>> {
    if |t| == 0 then None else Some(t[0])
  }

  function Reverse<T(!new)>(s: seq<T>): (r: seq<T>)
    ensures |r| == |s|
    ensures forall i :: 0 <= i < |s| ==> r[i] == s[|s| - 1 - i]
    ensures multiset(r) == multiset(s)
    decreases |s|
  {
    if |s| == 0 then []
    else
      assert s == [s[0]] + s[1..];
      Reverse(s[1..]) + [s[0]]
  }

  /** Rows inserted one after another from `firstId` and `firstTime` on. */
  function Stamped<T(!new)>(items: seq<T>, firstId: Id, firstTime: int): (r: Table<T>)
    ensures |r| == |items|
    ensures forall k :: 0 <= k < |items| ==> r[k] == Row(firstId + k, firstTime + k, items[k])
    decreases |items|
  {
    if |items| == 0 then [] else [Row(firstId, firstTime, items[0])] + Stamped(items[1..], firstId + 1, firstTime + 1)
  }

  /** The loop `for (const row of doomed) await ctx.db.delete(row._id)`. */
  method DeleteEach<T(!new)>(t: Table<T>, doomed: Table<T>) returns (rest: Table<T>)
    ensures rest == Without(t, IdsOf(doomed))
  {
    DeleteNone(t);
    assert IdsOf(doomed[..0]) == {};
    rest := t;
    var i := 0;
    while i < |doomed|
      invariant 0 <= i <= |doomed|
      invariant rest == Without(t, IdsOf(doomed[..i]))
    {
      assert doomed[..i + 1] == doomed[..i] + [doomed[i]];
      assert IdsOf(doomed[..i + 1]) == IdsOf(doomed[..i]) + {doomed[i].id};
      DeleteOneMore(t, IdsOf(doomed[..i]), doomed[i].id);
      rest := Without(rest, {doomed[i].id});
      i := i + 1;
    }
    assert doomed[..i] == doomed;
  }

  // ---------------------------------------------------------------------------
  // Lemmas about the table operations

  /** The leading rows of a table are among its rows. */
  lemma LeadingRows<T(!new)>(t: Table<T>)
    ensures |t| > 0 ==> t[0] in t
    ensures |t| > 1 ==> t[1] in t
  {
  }

  lemma {:induction false} DeleteNone<T(!new)>(t: Table<T>)
    ensures Without(t, {}) == t
    decreases |t|
  {
    if |t| > 0 {
      DeleteNone(t[1..]);
    }
  }

  /** Deleting one more id after a set of ids is deleting the larger set. */
  lemma {:induction false} DeleteOneMore<T(!new)>(t: Table<T>, doomed: set<Id>, id: Id)
    ensures Without(Without(t, doomed), {id}) == Without(t, doomed + {id})
    decreases |t|
  {
    if |t| > 0 {
      DeleteOneMore(t[1..], doomed, id);
    }
  }

  /** Deleting by ids is rejecting by any selector that agrees with those ids on the table. */
  lemma {:induction false} DeleteIsReject<T(!new)>(t: Table<T>, doomed: set<Id>, drop: Row<T> -> bool)
    requires forall x :: x in t ==> (x.id in doomed <==> drop(x))
    ensures Without(t, doomed) == Reject(t, drop)
    decreases |t|
  {
    if |t| > 0 {
      assert t[0] in t;
      DeleteIsReject(t[1..], doomed, drop);
    }
  }

  /** In a table with distinct ids, two rows with the same id are the same row. */
  lemma SameIdSameRow<T(!new)>(t: Table<T>, x: Row<T>, y: Row<T>)
    requires Chronological(t) && x in t && y in t && x.id == y.id
    ensures x == y
  {
    var i :| 0 <= i < |t| && t[i] == x;
    var j :| 0 <= j < |t| && t[j] == y;
    assert !(i < j) && !(j < i);
  }

  /** Collecting the rows `drop` selects and deleting each by id removes exactly those rows. */
  lemma DeleteSelected<T(!new)>(t: Table<T>, drop: Row<T> -> bool)
    requires Chronological(t)
    ensures Without(t, IdsOf(Filter(t, drop))) == Reject(t, drop)
  {
    var doomed := Filter(t, drop);
    forall x | x in t ensures x.id in IdsOf(doomed) <==> drop(x) {
      if x.id in IdsOf(doomed) {
        var y :| y in doomed && y.id == x.id;
        SameIdSameRow(t, x, y);
      }
    }
    DeleteIsReject(t, IdsOf(doomed), drop);
  }

  lemma {:induction false} FilterAppend<T(!new)>(a: Table<T>, b: Table<T>, keep: Row<T> -> bool)
    ensures Filter(a + b, keep) == Filter(a, keep) + Filter(b, keep)
    decreases |a|
  {
    if |a| > 0 {
      assert (a + b)[1..] == a[1..] + b;
      FilterAppend(a[1..], b, keep);
    } else {
      assert a + b == b;
    }
  }

  /** Rejecting rows that `keep` never selects leaves the `keep` query unchanged. */
  lemma {:induction false} FilterAfterReject<T(!new)>(t: Table<T>, drop: Row<T> -> bool, keep: Row<T> -> bool)
    requires forall x :: x in t && keep(x) ==> !drop(x)
    ensures Filter(Reject(t, drop), keep) == Filter(t, keep)
    decreases |t|
  {
    if |t| > 0 {
      assert t[0] in t;
      FilterAfterReject(t[1..], drop, keep);
    }
  }

  /** Rejecting rows when none is selected changes nothing. */
  lemma {:induction false} RejectNothing<T(!new)>(t: Table<T>, drop: Row<T> -> bool)
    requires forall x :: x in t ==> !drop(x)
    ensures Reject(t, drop) == t
    decreases |t|
  {
    if |t| > 0 {
      assert t[0] in t;
      RejectNothing(t[1..], drop);
    }
  }

  /** Every row is either selected or rejected. */
  lemma {:induction false} FilterRejectSplit<T(!new)>(t: Table<T>, p: Row<T> -> bool)
    ensures |Filter(t, p)| + |Reject(t, p)| == |t|
    decreases |t|
  {
    if |t| > 0 {
      FilterRejectSplit(t[1..], p);
    }
  }

  /** In a table with distinct ids, `get` finds every row by its own id. */
  lemma {:induction false} GetAt<T(!new)>(t: Table<T>, i: nat)
    requires Chronological(t) && i < |t|
    ensures Get(t, t[i].id) == Some(t[i])
    decreases i
  {
    if i > 0 {
      assert t[0].id != t[i].id;
      GetAt(t[1..], i - 1);
    }
  }

  /** `.filter(_id == id).first()` and `get(id)` agree. */
  lemma {:induction false} FirstWithIdIsGet<T(!new)>(t: Table<T>, id: Id)
    ensures First(Filter(t, HasId(id))) == Get(t, id)
    decreases |t|
  {
    if |t| > 0 {
      FirstWithIdIsGet(t[1..], id);
    }
  }

  /** Two chronological tables with the same rows are the same table: the rows a
      query selects and the ascending order together determine its result. */
  lemma {:induction false} ChronologicalUnique<T(!new)>(a: Table<T>, b: Table<T>)
    requires Chronological(a) && Chronological(b)
    requires forall x :: x in a <==> x in b
    ensures a == b
    decreases |a|
  {
    assert |b| > 0 ==> b[0] in b;
    if |a| > 0 {
      SameEarliest(a, b);
      SameLater(a, b);
      SameLater(b, a);
      ChronologicalUnique(a[1..], b[1..]);
      assert a == [a[0]] + a[1..] && b == [b[0]] + b[1..];
    }
  }

  lemma SameEarliest<T(!new)>(a: Table<T>, b: Table<T>)
    requires Chronological(a) && Chronological(b)
    requires forall x :: x in a <==> x in b
    requires |a| > 0
    ensures |b| > 0 && a[0] == b[0]
  {
    assert a[0] in a;
    assert b[0] in b;
    var k :| 0 <= k < |b| && b[k] == a[0];
    var j :| 0 <= j < |a| && a[j] == b[0];
    assert k == 0;
  }

  lemma SameLater<T(!new)>(a: Table<T>, b: Table<T>)
    requires Chronological(a) && Chronological(b)
    requires forall x :: x in a <==> x in b
    requires |a| > 0 && |b| > 0 && a[0] == b[0]
    ensures forall x :: x in a[1..] ==> x in b[1..]
  {
    forall x | x in a[1..] ensures x in b[1..] {
      var i :| 0 <= i < |a[1..]| && a[1..][i] == x;
      assert a[i + 1] == x && x != a[0];
      assert x in b;
      var m :| 0 <= m < |b| && b[m] == x;
      assert m != 0;
      assert b[1..][m - 1] == x;
    }
  }

  /** Appending a row stamped with the next id and time keeps a table well formed. */
  lemma AppendWellFormed<T(!new)>(t: Table<T>, nextId: Id, clock: int, fields: T)
    requires WellFormed(t, nextId, clock) && 0 < nextId
    ensures WellFormed(t + [Row(nextId, clock + 1, fields)], nextId + 1, clock + 1)
  {
    var u := t + [Row(nextId, clock + 1, fields)];
    forall i, j | 0 <= i < j < |u| ensures u[i].id != u[j].id && u[i].creationTime < u[j].creationTime {
      if j == |t| {
        assert u[i] in t;
      }
    }
  }

  /** Appending a stamped batch keeps a table well formed. */
  lemma {:induction false} AppendBatchWellFormed<T(!new)>(t: Table<T>, nextId: Id, clock: int, items: seq<T>)
    requires WellFormed(t, nextId, clock) && 0 < nextId
    ensures WellFormed(t + Stamped(items, nextId, clock + 1), nextId + |items|, clock + |items|)
    decreases |items|
  {
    var batch := Stamped(items, nextId, clock + 1);
    if |items| == 0 {
      assert t + batch == t;
    } else {
      var head := Row(nextId, clock + 1, items[0]);
      var tail := Stamped(items[1..], nextId + 1, clock + 2);
      assert batch == [head] + tail;
      AppendWellFormed(t, nextId, clock, items[0]);
      AppendBatchWellFormed(t + [head], nextId + 1, clock + 1, items[1..]);
      assert t + batch == (t + [head]) + tail;
    }
  }

  /** A well-formed table stays well formed once more ids and times are issued. */
  lemma WellFormedLater<T(!new)>(t: Table<T>, nextId: Id, clock: int, laterId: Id, laterClock: int)
    requires WellFormed(t, nextId, clock) && nextId <= laterId && clock <= laterClock
    ensures WellFormed(t, laterId, laterClock)
  {
  }

  /** A table whose rows keep their ids and creation times, position by position,
      keeps being well formed whatever happens to their fields. */
  lemma SameStampsWellFormed<T(!new)>(t: Table<T>, u: Table<T>, nextId: Id, clock: int)
    requires WellFormed(t, nextId, clock) && |u| == |t|
    requires forall i :: 0 <= i < |t| ==> u[i].id == t[i].id && u[i].creationTime == t[i].creationTime
    ensures WellFormed(u, nextId, clock)
  {
    forall x | x in u ensures 0 < x.id < nextId && x.creationTime <= clock {
      var i :| 0 <= i < |u| && u[i] == x;
      assert t[i] in t;
    }
  }

  /** Rows picked out of a well-formed table, kept in creation order, form a
      well-formed table. */
  lemma SubTableWellFormed<T(!new)>(t: Table<T>, r: Table<T>, nextId: Id, clock: int)
    requires WellFormed(t, nextId, clock) && Chronological(r)
    requires forall x :: x in r ==> x in t
    ensures WellFormed(r, nextId, clock)
  {
    forall i | 0 <= i < |r| ensures 0 < r[i].id < nextId && r[i].creationTime <= clock {
      assert r[i] in r;
      var p :| 0 <= p < |t| && t[p] == r[i];
    }
  }
}
