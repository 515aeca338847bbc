/**
 * The `subscribers` table as the newsletter code reads and writes it: rows
 * of id, email, name and `active`, in table order. The three query shapes the
 * code uses are modelled on that list: `update(patch).eq(col, v)...` sets the
 * patched columns of every row matching all filters, `select().eq(col, v)...`
 * keeps the matching rows in order, and `.single()` yields a row only when
 * exactly one matched. Ids are generated by the database and never repeat.
 */
module Subscribers {
  import opened Wrappers

  datatype Subscriber = Subscriber(id: string, email: string, name: string, active: bool)

  datatype Column = Id | Email

  /** The columns an `update` sets; `None` leaves a column alone. */
  datatype Patch = Patch(active: Option<bool>, email: Option<string>, name: Option<string>)

  /**
   * How a database call ended: it answered with data, it answered with an
   * `error` field, or its promise rejected (network failure).
   */
  datatype Reply = Answered | Errored | Rejected

  /** One `.eq(column, value)` filter. */
  type Filter = (Column, string)

  predicate Matches(r: Subscriber, filters: seq<Filter>) {
    forall i | 0 <= i < |filters| :: (if filters[i].0 == Id then r.id else r.email) == filters[i].1
  }

  function Apply(r: Subscriber, p: Patch): Subscriber {
    Subscriber(r.id, p.email.GetOr(r.email), p.name.GetOr(r.name), p.active.GetOr(r.active))
  }

  /** `update(p)` restricted by `filters`. */
  function Update(rows: seq<Subscriber>, p: Patch, filters: seq<Filter>): (r: seq<Subscriber>)
    ensures |r| == |rows|
  {
    seq(|rows|, i requires 0 <= i < |rows| => if Matches(rows[i], filters) then Apply(rows[i], p) else rows[i])
  }

  /** `select()` restricted by `filters`, in table order. */
  function Select(rows: seq<Subscriber>, filters: seq<Filter>): seq<Subscriber> {
    if rows == [] then []
    else (if Matches(rows[0], filters) then [rows[0]] else []) + Select(rows[1..], filters)
  }

  /** `delete()` restricted by `filters`: the rows that do not match, in table order. */
  function Delete(rows: seq<Subscriber>, filters: seq<Filter>): seq<Subscriber> {
    if rows == [] then []
    else (if Matches(rows[0], filters) then [] else [rows[0]]) + Delete(rows[1..], filters)
  }

  /** `.single()`: the row when exactly one matched. */
  function Single(rs: seq<Subscriber>): Option<Subscriber> {
    if |rs| == 1 then Some(rs[0]) else None
  }

  /** No two rows share an id. */
  predicate UniqueIds(rows: seq<Subscriber>) {
    forall i, j | 0 <= i < j < |rows| :: rows[i].id != rows[j].id
  }

  predicate HasId(rows: seq<Subscriber>, id: string) {
    exists i | 0 <= i < |rows| :: rows[i].id == id
  }

  /** The table the database holds; the flows change it through `update` and `insert`. */
  class Table {
    var rows: seq<Subscriber>

    constructor (initial: seq<Subscriber>)
      ensures rows == initial
    {
      rows := initial;
    }

    method UpdateWhere(p: Patch, filters: seq<Filter>)
      modifies this
      ensures rows == Update(old(rows), p, filters)
    {
      rows := Update(rows, p, filters);
    }

    method DeleteWhere(filters: seq<Filter>)
      modifies this
      ensures rows == Delete(old(rows), filters)
    {
      rows := Delete(rows, filters);
    }

    /** `insert(row)`; the database picks `id`, which no row has yet. */
    method Insert(id: string, email: string, name: string, active: bool)
      requires !HasId(rows, id)
      modifies this
      ensures rows == old(rows) + [Subscriber(id, email, name, active)]
    {
      rows := rows + [Subscriber(id, email, name, active)];
    }
  }

  // ---------------------------------------------------------------------
  // Properties

  /** An update changes only matching rows, only in the patched columns, and never an id. */
  lemma UpdateOnlyMatching(rows: seq<Subscriber>, p: Patch, filters: seq<Filter>, i: nat)
    requires i < |rows|
    ensures var r := Update(rows, p, filters)[i];
            r.id == rows[i].id &&
            (!Matches(rows[i], filters) ==> r == rows[i]) &&
            (Matches(rows[i], filters) ==>
               r.active == p.active.GetOr(rows[i].active) && r.email == p.email.GetOr(rows[i].email) &&
               r.name == p.name.GetOr(rows[i].name))
  {
  }

  lemma UpdateKeepsUniqueIds(rows: seq<Subscriber>, p: Patch, filters: seq<Filter>)
    requires UniqueIds(rows)
    ensures UniqueIds(Update(rows, p, filters))
  {
  }

  lemma InsertKeepsUniqueIds(rows: seq<Subscriber>, r: Subscriber)
    requires UniqueIds(rows) && !HasId(rows, r.id)
    ensures UniqueIds(rows + [r])
  {
  }

  /** Applying an update that filters on the id only a second time changes nothing. */
  lemma UpdateByIdIdempotent(rows: seq<Subscriber>, p: Patch, id: string)
    ensures Update(Update(rows, p, [(Id, id)]), p, [(Id, id)]) == Update(rows, p, [(Id, id)])
  {
    var once := Update(rows, p, [(Id, id)]);
    var twice := Update(once, p, [(Id, id)]);
    forall i | 0 <= i < |rows|
      ensures twice[i] == once[i]
    {
      assert Matches(once[i], [(Id, id)]) <==> Matches(rows[i], [(Id, id)]);
    }
  }

  /** The selected rows are exactly the matching rows, in table order. */
  lemma {:induction false} SelectSound(rows: seq<Subscriber>, filters: seq<Filter>)
    ensures forall r | r in Select(rows, filters) :: r in rows && Matches(r, filters)
    ensures forall r | r in rows && Matches(r, filters) :: r in Select(rows, filters)
    ensures |Select(rows, filters)| <= |rows|
    decreases |rows|
  {
    if rows != [] {
      SelectSound(rows[1..], filters);
      assert rows == [rows[0]] + rows[1..];
    }
  }

  /**
   * A delete keeps exactly the rows that do not match, and every row is either
   * deleted or kept: the survivors and the selected rows add up to the table.
   */
  lemma {:induction false} DeleteSound(rows: seq<Subscriber>, filters: seq<Filter>)
    ensures forall r | r in Delete(rows, filters) :: r in rows && !Matches(r, filters)
    ensures forall r | r in rows && !Matches(r, filters) :: r in Delete(rows, filters)
    ensures |Delete(rows, filters)| + |Select(rows, filters)| == |rows|
    decreases |rows|
  {
    if rows != [] {
      DeleteSound(rows[1..], filters);
      assert rows == [rows[0]] + rows[1..];
    }
  }

  /** With unique ids, a select that filters on the id finds at most one row. */
  lemma {:induction false} SelectByIdAtMostOne(rows: seq<Subscriber>, id: string, more: seq<Filter>)
    requires UniqueIds(rows)
    ensures |Select(rows, [(Id, id)] + more)| <= 1
    ensures |Select(rows, [(Id, id)] + more)| == 1 ==> Select(rows, [(Id, id)] + more)[0].id == id
    decreases |rows|
  {
    var f := [(Id, id)] + more;
    if rows != [] {
      SelectByIdAtMostOne(rows[1..], id, more);
      if Matches(rows[0], f) {
        assert f[0] == (Id, id);
        assert rows[0].id == id;
        var tail := rows[1..];
        forall k | 0 <= k < |tail|
          ensures !Matches(tail[k], f)
        {
          assert tail[k].id == rows[k + 1].id != rows[0].id;
        }
        SelectNone(tail, f);
      }
    }
  }

  /** Appending a row adds it to the selection exactly when it matches. */
  lemma {:induction false} SelectAppendRow(rows: seq<Subscriber>, r: Subscriber, filters: seq<Filter>)
    ensures Select(rows + [r], filters) == Select(rows, filters) + (if Matches(r, filters) then [r] else [])
    decreases |rows|
  {
    var t := rows + [r];
    if rows == [] {
      assert t == [r] && t[1..] == [];
    } else {
      assert t[0] == rows[0] && t[1..] == rows[1..] + [r];
      SelectAppendRow(rows[1..], r, filters);
      var h := if Matches(rows[0], filters) then [rows[0]] else [];
      assert Select(t, filters) == h + Select(rows[1..] + [r], filters);
      assert Select(rows, filters) == h + Select(rows[1..], filters);
    }
  }

  lemma {:induction false} SelectNone(rows: seq<Subscriber>, filters: seq<Filter>)
    requires forall k | 0 <= k < |rows| :: !Matches(rows[k], filters)
    ensures Select(rows, filters) == []
    decreases |rows|
  {
    if rows != [] {
      SelectNone(rows[1..], filters);
    }
  }

  /** What `.single()` returns is a row of the table matching every filter. */
  lemma SingleMatches(rows: seq<Subscriber>, filters: seq<Filter>)
    requires Single(Select(rows, filters)).Some?
    ensures Single(Select(rows, filters)).value in rows
    ensures Matches(Single(Select(rows, filters)).value, filters)
  {
    SelectSound(rows, filters);
  }

  /** A select whose filters only the row at `k` matches returns exactly that row. */
  lemma {:induction false} SelectOneAt(rows: seq<Subscriber>, filters: seq<Filter>, k: nat)
    requires k < |rows| && Matches(rows[k], filters)
    requires forall i | 0 <= i < |rows| && i != k :: !Matches(rows[i], filters)
    ensures Select(rows, filters) == [rows[k]]
    decreases |rows|
  {
    if k == 0 {
      SelectNone(rows[1..], filters);
    } else {
      SelectOneAt(rows[1..], filters, k - 1);
    }
  }

  /** When a select returns exactly one row, that row sits at some `k` and no other row matches. */
  lemma {:induction false} SingleAt(rows: seq<Subscriber>, filters: seq<Filter>) returns (k: nat)
    requires |Select(rows, filters)| == 1
    ensures k < |rows| && rows[k] == Select(rows, filters)[0] && Matches(rows[k], filters)
    ensures forall i | 0 <= i < |rows| && i != k :: !Matches(rows[i], filters)
    decreases |rows|
  {
    var tail := rows[1..];
    if Matches(rows[0], filters) {
      k := 0;
      assert Select(tail, filters) == [];
      SelectSound(tail, filters);
      forall i | 0 < i < |rows|
        ensures !Matches(rows[i], filters)
      {
        assert rows[i] == tail[i - 1];
      }
    } else {
      var j := SingleAt(tail, filters);
      k := j + 1;
    }
  }
}
