/** The ordering engine: which tickets sit in a column, the order numbers
    they carry, and the two sequential rewrites the ticket PUT handlers run
    over a client-supplied id list (move the listed tickets into a column,
    then number them by list position). */
module Ordering {
  import opened Schema

  /** Tickets whose column is `c`. */
  function TicketsIn(t: map<TicketId, Ticket>, c: ColumnId): set<TicketId> {
    set x | x in t && t[x].column == c
  }

  /** The `order` of every ticket in column `c`. */
  function TicketOrders(t: map<TicketId, Ticket>, c: ColumnId): map<TicketId, int> {
    map x | x in t && t[x].column == c :: t[x].order
  }

  /** Columns that belong to board `b`. */
  function ColumnsOn(cols: map<ColumnId, Column>, b: BoardId): set<ColumnId> {
    set x | x in cols && cols[x].board == b
  }

  /** The `ordernum` of every column of board `b`. */
  function ColumnOrders(cols: map<ColumnId, Column>, b: BoardId): map<ColumnId, int> {
    map x | x in cols && cols[x].board == b :: cols[x].ordernum
  }

  /** The order numbers are 0 .. |m|-1, each used once: a contiguous,
      0-based numbering. */
  ghost predicate Contiguous<K>(m: map<K, int>) {
    && (forall k :: k in m ==> 0 <= m[k] < |m|)
    && (forall a, b :: a in m && b in m && m[a] == m[b] ==> a == b)
  }

  lemma TicketOrdersCount(t: map<TicketId, Ticket>, c: ColumnId)
    ensures TicketOrders(t, c).Keys == TicketsIn(t, c)
    ensures |TicketOrders(t, c)| == |TicketsIn(t, c)|
  {
  }

  lemma ColumnOrdersCount(cols: map<ColumnId, Column>, b: BoardId)
    ensures ColumnOrders(cols, b).Keys == ColumnsOn(cols, b)
    ensures |ColumnOrders(cols, b)| == |ColumnsOn(cols, b)|
  {
  }

  /** Appending a new item with order = current count keeps a contiguous
      numbering contiguous. */
  lemma AppendKeepsContiguous<K>(m: map<K, int>, k: K)
    requires Contiguous(m) && k !in m
    ensures Contiguous(m[k := |m|])
  {
    var m' := m[k := |m|];
    assert m'.Keys == m.Keys + {k};
    assert |m'| == |m| + 1;
    forall a, b | a in m' && b in m' && m'[a] == m'[b]
      ensures a == b
    {
      if a != k && b != k {
        assert m[a] == m[b];
      }
    }
  }

  /** The tickets after the first loop of the ticket PUT: each listed ticket
      that exists is moved into column `c`, in list order. */
  function Reparented(t: map<TicketId, Ticket>, ids: seq<TicketId>, c: ColumnId): map<TicketId, Ticket>
    decreases |ids|
  {
    if ids == [] then t
    else
      var r := Reparented(t, ids[..|ids| - 1], c);
      var x := ids[|ids| - 1];
      if x in r then r[x := r[x].(column := c)] else r
  }

  /** The tickets after the renumbering loop: the ticket listed at index i
      gets `order = i`, later occurrences overwriting earlier ones. */
  function Renumbered(t: map<TicketId, Ticket>, ids: seq<TicketId>): map<TicketId, Ticket>
    decreases |ids|
  {
    if ids == [] then t
    else
      var r := Renumbered(t, ids[..|ids| - 1]);
      var x := ids[|ids| - 1];
      if x in r then r[x := r[x].(order := |ids| - 1)] else r
  }

  /** Reparenting keeps the set of tickets, moves exactly the listed
      existing tickets into `c`, and changes nothing else about them. */
  lemma {:induction false} ReparentedAt(t: map<TicketId, Ticket>, ids: seq<TicketId>, c: ColumnId)
    ensures Reparented(t, ids, c).Keys == t.Keys
    ensures forall x :: x in t ==>
      Reparented(t, ids, c)[x] == if x in ids then t[x].(column := c) else t[x]
    decreases |ids|
  {
    if ids != [] {
      var p := ids[..|ids| - 1];
      ReparentedAt(t, p, c);
      assert forall x :: x in ids <==> x in p || x == ids[|ids| - 1];
    }
  }

  /** Renumbering keeps the set of tickets, changes only `order`, and leaves
      unlisted tickets untouched. */
  lemma {:induction false} RenumberedFrame(t: map<TicketId, Ticket>, ids: seq<TicketId>)
    ensures Renumbered(t, ids).Keys == t.Keys
    ensures forall x :: x in t ==> Renumbered(t, ids)[x] == t[x].(order := Renumbered(t, ids)[x].order)
    ensures forall x :: x in t && x !in ids ==> Renumbered(t, ids)[x] == t[x]
    decreases |ids|
  {
    if ids != [] {
      var p := ids[..|ids| - 1];
      RenumberedFrame(t, p);
      assert forall x :: x in ids <==> x in p || x == ids[|ids| - 1];
    }
  }

  /** With no id listed twice, the ticket listed at index i ends with
      `order == i`. */
  lemma {:induction false} RenumberedOrder(t: map<TicketId, Ticket>, ids: seq<TicketId>, i: nat)
    requires NoDuplicates(ids) && i < |ids| && ids[i] in t
    ensures ids[i] in Renumbered(t, ids) && Renumbered(t, ids)[ids[i]].order == i
    decreases |ids|
  {
    var p := ids[..|ids| - 1];
    RenumberedFrame(t, p);
    if i < |ids| - 1 {
      assert p[i] == ids[i];
      RenumberedOrder(t, p, i);
    }
  }

  lemma {:induction false} DistinctCount<T>(s: seq<T>)
    requires NoDuplicates(s)
    ensures |set x | x in s| == |s|
    decreases |s|
  {
    if s != [] {
      var p := s[..|s| - 1];
      DistinctCount(p);
      assert (set x | x in s) == (set x | x in p) + {s[|s| - 1]};
      assert s[|s| - 1] !in p;
    }
  }

  /** The ticket PUT as a whole: after moving the listed tickets into `c`
      and numbering them by position, with no id listed twice, every listed
      ticket is in `c` with order equal to its index, and every unlisted
      ticket is exactly as before. When the list also names every ticket
      that was already in `c`, the column ends up numbered 0 .. n-1. */
  lemma {:induction false} MoveAndRenumber(t: map<TicketId, Ticket>, ids: seq<TicketId>, c: ColumnId)
    requires NoDuplicates(ids) && forall x :: x in ids ==> x in t
    ensures var r := Renumbered(Reparented(t, ids, c), ids);
      && r.Keys == t.Keys
      && (forall i :: 0 <= i < |ids| ==> r[ids[i]].column == c && r[ids[i]].order == i)
      && (forall x :: x in t && x !in ids ==> r[x] == t[x])
    ensures TicketsIn(t, c) <= (set x | x in ids) ==>
      var r := Renumbered(Reparented(t, ids, c), ids);
      TicketsIn(r, c) == (set x | x in ids) && Contiguous(TicketOrders(r, c))
  {
    var m := Reparented(t, ids, c);
    var r := Renumbered(m, ids);
    ReparentedAt(t, ids, c);
    RenumberedFrame(m, ids);
    forall i | 0 <= i < |ids|
      ensures r[ids[i]].column == c && r[ids[i]].order == i
    {
      RenumberedOrder(m, ids, i);
    }
    if TicketsIn(t, c) <= (set x | x in ids) {
      var listed := set x | x in ids;
      assert TicketsIn(r, c) == listed;
      var o := TicketOrders(r, c);
      TicketOrdersCount(r, c);
      DistinctCount(ids);
      assert |o| == |ids|;
      forall k | k in o
        ensures 0 <= o[k] < |o|
      {
        var i :| 0 <= i < |ids| && ids[i] == k;
      }
      forall a, b | a in o && b in o && o[a] == o[b]
        ensures a == b
      {
        var i :| 0 <= i < |ids| && ids[i] == a;
        var j :| 0 <= j < |ids| && ids[j] == b;
      }
    }
  }
}
