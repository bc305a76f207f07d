/** The request handlers of the older backend/futuboard/views.py, whose
    ticket PUT synchronises a column with the client's list (deleting the
    column's unlisted tickets and creating the listed ones it has never
    seen) instead of moving tickets between columns. It works on the same
    tables as the newer handlers but sets fewer fields: it never sets a
    ticket's corner note or a column's swimlane flag, and never touches
    usergroups itself, so `LegacyStore` holds only boards, columns and
    tickets; the rows it creates carry an empty corner note and a false
    swimlane flag. */
module LegacyViews {
  import opened Schema
  import opened Ordering

  /** The fields a ticket entry of the PUT must carry for the handler to
      create the ticket. */
  datatype TicketFields = TicketFields(
    title: string,
    description: string,
    color: string,
    storypoints: int,
    size: int,
    order: int)

  /** One entry of the PUT's list; `fields` is None when any of the keys
      the creation reads is missing. */
  datatype TicketEntry = TicketEntry(ticketid: TicketId, fields: Option<TicketFields>)

  /** The body of a ticket POST. */
  datatype TicketRequest = TicketRequest(title: Option<string>, description: Option<string>, size: SizeInput)

  /** `int(size) if size != '' else 0`: only the empty string gives 0; a
      null size makes `int()` fail. */
  function SizeValue(s: SizeInput): Option<int> {
    match s
    case Missing => None
    case Null => None
    case Blank => Some(0)
    case Number(n) => Some(n)
    case NotNumeric => None
  }

  /** The ticket row a POST creates, or None when the body is unusable. */
  function NewTicket(c: ColumnId, req: TicketRequest, order: int): (r: Option<Ticket>)
    ensures r.Some? <==> req.title.Some? && req.description.Some? && SizeValue(req.size).Some?
    ensures r.Some? ==> r.value.column == c && r.value.order == order && r.value.color == "white"
    ensures r.Some? ==> r.value.title == req.title.value && r.value.description == req.description.value
    ensures r.Some? ==> r.value.size == SizeValue(req.size).value && r.value.storypoints == 8 && r.value.cornernote == ""
    ensures req.size.Null? ==> r.None?
    ensures req.size.Blank? && r.Some? ==> r.value.size == 0
  {
    if req.title.None? || req.description.None? || SizeValue(req.size).None? then None
    else Some(Ticket(c, req.title.value, req.description.value, "white", 8, SizeValue(req.size).value, order, ""))
  }

  /** The ids of the PUT's entries, in list order. */
  function Ids(data: seq<TicketEntry>): (ids: seq<TicketId>)
    ensures |ids| == |data| && forall i :: 0 <= i < |data| ==> ids[i] == data[i].ticketid
  {
    seq(|data|, i requires 0 <= i < |data| => data[i].ticketid)
  }

  /** The row the PUT creates for an entry it has never seen. */
  function FromEntry(c: ColumnId, f: TicketFields): Ticket {
    Ticket(c, f.title, f.description, f.color, f.storypoints, f.size, f.order, "")
  }

  /** The tickets left once column `c`'s tickets not among `ids` are deleted. */
  function Pruned(t: map<TicketId, Ticket>, c: ColumnId, ids: seq<TicketId>): map<TicketId, Ticket> {
    map x | x in t && (t[x].column != c || x in ids) :: t[x]
  }

  /** The creation loop of the PUT, run over `data` in order: an entry whose
      id exists nowhere is created in `c`; the loop stops (false) at the
      first such entry when the column does not exist or the entry lacks a
      field, keeping what it created before. */
  function CreateMissing(t: map<TicketId, Ticket>, data: seq<TicketEntry>, c: ColumnId, columnExists: bool)
    : (map<TicketId, Ticket>, bool)
    decreases |data|
  {
    if data == [] then (t, true)
    else
      var (m, ok) := CreateMissing(t, data[..|data| - 1], c, columnExists);
      var d := data[|data| - 1];
      if !ok || d.ticketid in m then (m, ok)
      else if !columnExists || d.fields.None? then (m, false)
      else (m[d.ticketid := FromEntry(c, d.fields.value)], true)
  }

  /** Status and tickets after the legacy ticket PUT on column `c`. */
  function SyncOutcome(cols: map<ColumnId, Column>, t: map<TicketId, Ticket>, c: ColumnId, data: seq<TicketEntry>)
    : (Status, map<TicketId, Ticket>)
  {
    var ids := Ids(data);
    var (created, ok) := CreateMissing(Pruned(t, c, ids), data, c, c in cols);
    if !ok then (NotFound("Error updating tasks order."), created)
    else (Ok, Renumbered(created, ids))
  }

  /** Once the creation loop has stopped, later entries change nothing. */
  lemma {:induction false} CreateMissingStops(t: map<TicketId, Ticket>, data: seq<TicketEntry>, c: ColumnId, columnExists: bool, i: nat)
    requires i <= |data| && !CreateMissing(t, data[..i], c, columnExists).1
    ensures CreateMissing(t, data, c, columnExists) == CreateMissing(t, data[..i], c, columnExists)
    decreases |data| - i
  {
    if i < |data| {
      assert data[..i + 1][..i] == data[..i];
      CreateMissingStops(t, data, c, columnExists, i + 1);
    } else {
      assert data[..i] == data;
    }
  }

  /** The creation loop keeps every existing ticket as it is and adds only
      listed tickets. */
  lemma {:induction false} CreateMissingFrame(t: map<TicketId, Ticket>, data: seq<TicketEntry>, c: ColumnId, columnExists: bool)
    ensures var m := CreateMissing(t, data, c, columnExists).0;
      && t.Keys <= m.Keys
      && (forall x :: x in t ==> m[x] == t[x])
      && (forall x :: x in m && x !in t ==> x in Ids(data))
    decreases |data|
  {
    if data != [] {
      var p := data[..|data| - 1];
      CreateMissingFrame(t, p, c, columnExists);
      assert forall x :: x in Ids(p) ==> x in Ids(data) by {
        forall x | x in Ids(p) ensures x in Ids(data) {
          var i :| 0 <= i < |p| && Ids(p)[i] == x;
          assert Ids(data)[i] == x;
        }
      }
      assert Ids(data)[|data| - 1] == data[|data| - 1].ticketid;
    }
  }

  /** An id listed once is not among the tickets the loop created for the
      entries before it. */
  lemma LastNotCreated(t: map<TicketId, Ticket>, data: seq<TicketEntry>, c: ColumnId, columnExists: bool)
    requires data != [] && NoDuplicates(Ids(data))
    ensures var d := data[|data| - 1];
      d.ticketid in CreateMissing(t, data[..|data| - 1], c, columnExists).0 <==> d.ticketid in t
  {
    var p := data[..|data| - 1];
    var d := data[|data| - 1];
    CreateMissingFrame(t, p, c, columnExists);
  }

  /** With no id listed twice, the creation loop gets through the whole list
      exactly when every entry either names an existing ticket or can be
      created. */
  lemma {:induction false} CreateMissingOk(t: map<TicketId, Ticket>, data: seq<TicketEntry>, c: ColumnId, columnExists: bool)
    requires NoDuplicates(Ids(data))
    ensures CreateMissing(t, data, c, columnExists).1 <==>
      forall i :: 0 <= i < |data| ==> data[i].ticketid in t || (columnExists && data[i].fields.Some?)
    decreases |data|
  {
    if data != [] {
      var p := data[..|data| - 1];
      assert Ids(p) == Ids(data)[..|data| - 1];
      CreateMissingOk(t, p, c, columnExists);
      LastNotCreated(t, data, c, columnExists);
      assert forall i :: 0 <= i < |p| ==> p[i] == data[i];
    }
  }

  /** With no id listed twice, once the creation loop has got through the
      whole list every listed id names a ticket, each new one built in `c`
      from its own entry. */
  lemma {:induction false} CreateMissingAt(t: map<TicketId, Ticket>, data: seq<TicketEntry>, c: ColumnId, columnExists: bool)
    requires NoDuplicates(Ids(data)) && CreateMissing(t, data, c, columnExists).1
    ensures var m := CreateMissing(t, data, c, columnExists).0;
      forall i :: 0 <= i < |data| ==>
        && data[i].ticketid in m
        && (data[i].ticketid !in t ==>
              data[i].fields.Some? && m[data[i].ticketid] == FromEntry(c, data[i].fields.value))
    decreases |data|
  {
    if data != [] {
      var p := data[..|data| - 1];
      var d := data[|data| - 1];
      assert Ids(p) == Ids(data)[..|data| - 1];
      var (m, ok) := CreateMissing(t, p, c, columnExists);
      assert ok;
      CreateMissingAt(t, p, c, columnExists);
      LastNotCreated(t, data, c, columnExists);
      var m' := CreateMissing(t, data, c, columnExists).0;
      forall i | 0 <= i < |data|
        ensures data[i].ticketid in m'
        ensures data[i].ticketid !in t ==>
          data[i].fields.Some? && m'[data[i].ticketid] == FromEntry(c, data[i].fields.value)
      {
        if i < |p| {
          assert p[i] == data[i];
          assert Ids(data)[i] != Ids(data)[|data| - 1];
        }
      }
    }
  }

  /** What the legacy ticket PUT on column `c` promises, for a list that
      names no ticket twice. Whatever the outcome, every ticket of `c` that
      is not listed has been deleted. It succeeds exactly when each listed
      ticket exists or can be created (the column exists and the entry has
      its fields). On success the ticket listed at index i has `order == i`;
      one that already existed keeps its column, even another column, and
      all its other fields; one that did not is created in `c` from its
      entry; and tickets of other columns that are not listed are as they
      were. */
  lemma SyncPut(cols: map<ColumnId, Column>, t: map<TicketId, Ticket>, c: ColumnId, data: seq<TicketEntry>)
    requires NoDuplicates(Ids(data))
    ensures var (status, r) := SyncOutcome(cols, t, c, data);
      status.Ok? <==> forall i :: 0 <= i < |data| ==> data[i].ticketid in t || (c in cols && data[i].fields.Some?)
    ensures var (status, r) := SyncOutcome(cols, t, c, data);
      status.Ok? ==>
        && (forall i :: 0 <= i < |data| ==> data[i].ticketid in r && r[data[i].ticketid].order == i)
        && (forall i :: 0 <= i < |data| && data[i].ticketid in t ==>
              r[data[i].ticketid] == t[data[i].ticketid].(order := i))
        && (forall i :: 0 <= i < |data| && data[i].ticketid !in t ==>
              r[data[i].ticketid] == FromEntry(c, data[i].fields.value).(order := i))
        && (forall x :: x in t && t[x].column != c && x !in Ids(data) ==> x in r && r[x] == t[x])
  {
    var ids := Ids(data);
    var pruned := Pruned(t, c, ids);
    var (m, ok) := CreateMissing(pruned, data, c, c in cols);
    CreateMissingOk(pruned, data, c, c in cols);
    CreateMissingFrame(pruned, data, c, c in cols);
    forall i | 0 <= i < |data|
      ensures data[i].ticketid in pruned <==> data[i].ticketid in t
    {
      assert ids[i] == data[i].ticketid;
    }
    if ok {
      CreateMissingAt(pruned, data, c, c in cols);
      RenumberedFrame(m, ids);
      forall i | 0 <= i < |data|
        ensures data[i].ticketid in Renumbered(m, ids) && Renumbered(m, ids)[data[i].ticketid].order == i
      {
        RenumberedOrder(m, ids, i);
      }
    }
  }

  /** Whatever the list and whatever the outcome, the legacy ticket PUT on
      column `c` deletes every ticket of `c` that the list does not name,
      and every ticket left is one that existed or one the list names. */
  lemma SyncPutDeletesUnlisted(cols: map<ColumnId, Column>, t: map<TicketId, Ticket>, c: ColumnId, data: seq<TicketEntry>)
    ensures var (status, r) := SyncOutcome(cols, t, c, data);
      && (forall x :: x in t && t[x].column == c && x !in Ids(data) ==> x !in r)
      && (forall x :: x in r ==> x in t || x in Ids(data))
  {
    var ids := Ids(data);
    var pruned := Pruned(t, c, ids);
    var (m, ok) := CreateMissing(pruned, data, c, c in cols);
    CreateMissingFrame(pruned, data, c, c in cols);
    RenumberedFrame(m, ids);
  }

  /** A board with the two columns `a` and `b`. */
  function TwoColumns(a: ColumnId, b: ColumnId): map<ColumnId, Column> {
    map[a := Column("board", "A", "", "", 0, 0, false), b := Column("board", "B", "", "", 0, 1, false)]
  }

  /** Moving a ticket between columns with two legacy PUTs depends on the
      order the server handles them in. With ticket x in column A, the PUT
      that empties A deletes x, and the PUT that lists x on B then creates a
      new row x in B from the client's entry: the id survives, but the old
      row does not (its corner note is now empty, and its usergroup went
      with the deletion). Handled the other way round, the two PUTs delete
      x: the PUT on B does not move an existing ticket, and the PUT on A
      then deletes it. */
  lemma MoveDependsOnRequestOrder(x: TicketId, a: ColumnId, b: ColumnId, row: Ticket, f: TicketFields)
    requires a != b && row.column == a
    ensures var cols := TwoColumns(a, b);
      var (s1, t1) := SyncOutcome(cols, map[x := row], a, []);
      var (s2, t2) := SyncOutcome(cols, t1, b, [TicketEntry(x, Some(f))]);
      s1.Ok? && s2.Ok? && t1 == map[] && t2 == map[x := FromEntry(b, f).(order := 0)]
    ensures var cols := TwoColumns(a, b);
      var (s1, t1) := SyncOutcome(cols, map[x := row], b, [TicketEntry(x, Some(f))]);
      var (s2, t2) := SyncOutcome(cols, t1, a, []);
      s1.Ok? && s2.Ok? && x !in t2
  {
    var cols := TwoColumns(a, b);
    var t := map[x := row];
    var toB := [TicketEntry(x, Some(f))];
    assert Ids(toB) == [x];
    assert Ids([]) == [];
    // A emptied first: x is deleted from A, then created in B
    assert Pruned(t, a, []) == map[];
    var (s1, t1) := SyncOutcome(cols, t, a, []);
    assert t1 == map[];
    assert Pruned(t1, b, [x]) == map[];
    assert toB[..0] == [];
    var created := map[x := FromEntry(b, f)];
    assert CreateMissing(map[], toB, b, true) == (created, true);
    assert [x][..0] == [];
    assert Renumbered(created, []) == created;
    assert Renumbered(created, [x]) == created[x := created[x].(order := 0)];
    // B first: x already exists, so it stays in A and is then deleted
    assert Pruned(t, b, [x]) == t;
    assert CreateMissing(t, toB, b, true) == (t, true);
    assert Renumbered(t, []) == t;
    var u1 := t[x := t[x].(order := 0)];
    assert Renumbered(t, [x]) == u1;
    assert Pruned(u1, a, []) == map[];
  }

  class LegacyStore {
    var boards: set<BoardId>
    var columns: map<ColumnId, Column>
    var tickets: map<TicketId, Ticket>

    constructor ()
      ensures boards == {} && columns == map[] && tickets == map[]
    {
      boards, columns, tickets := {}, map[], map[];
    }

    /** Column POST: the new column's `ordernum` is the number of columns
        the board already has. */
    method AddColumn(board: BoardId, id: ColumnId, title: Option<string>) returns (status: Status)
      modifies this`columns
      ensures status == if board in boards && title.Some? && id !in old(columns) then Ok else NotFound("Column creation failed")
      ensures columns == if status.Ok?
        then old(columns)[id := Column(board, title.value, "", "", 0, |ColumnsOn(old(columns), board)|, false)]
        else old(columns)
    {
      var length := |ColumnsOn(columns, board)|;
      if board !in boards || title.None? || id in columns {
        return NotFound("Column creation failed");
      }
      columns := columns[id := Column(board, title.value, "", "", 0, length, false)];
      return Ok;
    }

    /** Ticket POST: the new ticket's `order` is the number of tickets the
        column already has. */
    method AddTicket(c: ColumnId, id: TicketId, req: TicketRequest) returns (status: Status)
      modifies this`tickets
      ensures var row := NewTicket(c, req, |TicketsIn(old(tickets), c)|);
        && status == (if c in columns && id !in old(tickets) && row.Some? then Ok else NotFound("Cannot create Ticket"))
        && tickets == (if status.Ok? then old(tickets)[id := row.value] else old(tickets))
    {
      var length := |TicketsIn(tickets, c)|;
      var row := NewTicket(c, req, length);
      if c !in columns || id in tickets || row.None? {
        return NotFound("Cannot create Ticket");
      }
      tickets := tickets[id := row.value];
      return Ok;
    }

    /** Ticket PUT on column `c`: deletes the column's unlisted tickets,
        creates the listed tickets that exist nowhere, then sets each listed
        ticket's `order` to its index. */
    method SyncTickets(c: ColumnId, data: seq<TicketEntry>) returns (status: Status)
      modifies this`tickets
      ensures (status, tickets) == SyncOutcome(columns, old(tickets), c, data)
    {
      var ids := Ids(data);
      tickets := Pruned(tickets, c, ids);
      ghost var pruned := tickets;
      var i := 0;
      while i < |data|
        invariant 0 <= i <= |data|
        invariant CreateMissing(pruned, data[..i], c, c in columns) == (tickets, true)
      {
        assert data[..i + 1][..i] == data[..i];
        if data[i].ticketid !in tickets {
          if c !in columns || data[i].fields.None? {
            CreateMissingStops(pruned, data, c, c in columns, i + 1);
            return NotFound("Error updating tasks order.");
          }
          tickets := tickets[data[i].ticketid := FromEntry(c, data[i].fields.value)];
        }
        i := i + 1;
      }
      assert data[..i] == data;
      ghost var created := tickets;
      i := 0;
      while i < |ids|
        invariant 0 <= i <= |ids|
        invariant tickets == Renumbered(created, ids[..i])
      {
        RenumberedFrame(created, ids[..i]);
        if ids[i] in tickets {
          tickets := tickets[ids[i] := tickets[ids[i]].(order := i)];
        }
        assert ids[..i + 1][..i] == ids[..i];
        i := i + 1;
      }
      assert ids[..i] == ids;
      return Ok;
    }

    /** Column PUT: a partial update of the title, and every existing ticket
        whose id is in a non-empty `ticketIds` moves into this column. */
    method UpdateColumn(b: BoardId, id: ColumnId, title: Option<string>, ticketIds: Option<seq<TicketId>>)
      returns (status: Status)
      modifies this`columns, this`tickets
      ensures status == if id in old(columns) && old(columns)[id].board == b then Ok else NotFound("Column not found")
      ensures columns == if status.Ok?
        then old(columns)[id := old(columns)[id].(title := title.GetOr(old(columns)[id].title))]
        else old(columns)
      ensures tickets == if status.Ok? && ticketIds.Some? && |ticketIds.value| > 0
        then map x | x in old(tickets) ::
          if x in ticketIds.value then old(tickets)[x].(column := id) else old(tickets)[x]
        else old(tickets)
    {
      if id !in columns || columns[id].board != b {
        return NotFound("Column not found");
      }
      var newTitle := title.GetOr(columns[id].title);
      if ticketIds.Some? && |ticketIds.value| > 0 {
        var listed := ticketIds.value;
        var pending := set x | x in tickets && x in listed;
        ghost var all := pending;
        while pending != {}
          invariant pending <= all
          invariant columns == old(columns)
          invariant tickets.Keys == old(tickets).Keys
          invariant forall x :: x in tickets ==>
            tickets[x] == if x in all - pending then old(tickets)[x].(column := id) else old(tickets)[x]
          decreases pending
        {
          var x :| x in pending;
          tickets := tickets[x := tickets[x].(column := id)];
          pending := pending - {x};
        }
      }
      columns := columns[id := columns[id].(title := newTitle)];
      return Ok;
    }
  }
}
