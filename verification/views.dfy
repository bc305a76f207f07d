/** The request handlers of backend/futuboard/views/views.py, as methods on
    an in-memory store that stands for the database tables they read and
    write. Each handler's answer is a `Status`; a handler that fails half
    way leaves the rows it has already saved, as the source does. */
module Views {
  import opened Schema
  import opened Ordering

  /** The four swimlane columns a swimlane column is created with. */
  function DefaultSwimlanes(c: ColumnId): seq<SwimlaneColumn> {
    [ SwimlaneColumn(c, "white", "To Do", 0),
      SwimlaneColumn(c, "white", "Doing", 1),
      SwimlaneColumn(c, "white", "Verify", 2),
      SwimlaneColumn(c, "white", "Done", 3) ]
  }

  /** The body of a ticket POST. `title` and `description` are read with
      `request.data[...]`, so a missing one fails the request. */
  datatype TicketRequest = TicketRequest(
    title: Option<string>,
    description: Option<string>,
    color: Option<string>,
    size: SizeInput,
    cornernote: Option<string>)

  /** `int(size) if size else 0`: a falsy size gives 0, a missing key or an
      unparsable string fails. */
  function SizeValue(s: SizeInput): Option<int> {
    match s
    case Missing => None
    case Null => Some(0)
    case Blank => Some(0)
    case Number(n) => Some(n)
    case NotNumeric => None
  }

  /** The ticket row a POST creates in column `c` with the given `order`,
      or None when the request body lacks a field the handler needs. */
  function NewTicket(c: ColumnId, req: TicketRequest, order: int): (r: Option<Ticket>)
    ensures r.Some? <==> req.title.Some? && req.description.Some? && SizeValue(req.size).Some?
    ensures r.Some? ==> r.value.column == c && r.value.order == order && r.value.storypoints == 8
    ensures r.Some? ==> r.value.title == req.title.value && r.value.description == req.description.value
    ensures r.Some? ==> r.value.size == SizeValue(req.size).value
    ensures r.Some? ==> r.value.color == req.color.GetOr("white") && r.value.cornernote == req.cornernote.GetOr("")
    ensures (req.size.Null? || req.size.Blank?) && r.Some? ==> r.value.size == 0
  {
    if req.title.None? || req.description.None? || SizeValue(req.size).None? then None
    else Some(Ticket(c, req.title.value, req.description.value, req.color.GetOr("white"),
                     8, SizeValue(req.size).value, order, req.cornernote.GetOr("")))
  }

  /** Status and tickets after the ticket PUT on column `c` with the listed
      ids: the first loop looks each listed ticket up (failing with "Task does
      not exist" on the first missing one, keeping the moves already saved)
      and then the column (failing on the first looked-up ticket when the
      column is missing); the second loop numbers the listed tickets. */
  function MoveOutcome(cols: map<ColumnId, Column>, t: map<TicketId, Ticket>, c: ColumnId, ids: seq<TicketId>)
    : (Status, map<TicketId, Ticket>)
  {
    var k := FirstAbsent(ids, t);
    if k < |ids| && (c in cols || k == 0) then (NotFound("Task does not exist"), Reparented(t, ids[..k], c))
    else if c !in cols && ids != [] then (NotFound("Error updating tasks order."), t)
    else (Ok, Renumbered(Reparented(t, ids, c), ids))
  }

  /** Users that are members of usergroup `g`. */
  function MemberUsers(ms: map<RowId, Membership>, g: GroupId): set<UserId> {
    set r | r in ms && ms[r].group == g :: ms[r].user
  }

  /** Membership rows of usergroup `g`. */
  function RowsOf(ms: map<RowId, Membership>, g: GroupId): set<RowId> {
    set r | r in ms && ms[r].group == g
  }

  /** The membership rows left once the users `us` are deleted. */
  function WithoutUsers(ms: map<RowId, Membership>, us: set<UserId>): map<RowId, Membership> {
    map r | r in ms && ms[r].user !in us :: ms[r]
  }

  /** One new row per listed user, numbered from `base` in list order. */
  function NewRows(g: GroupId, us: seq<UserId>, base: RowId): map<RowId, Membership>
    decreases |us|
  {
    if us == [] then map[]
    else NewRows(g, us[..|us| - 1], base)[base + |us| - 1 := Membership(g, us[|us| - 1])]
  }

  /** The new rows are numbered base .. base + |us| - 1, and the row
      numbered base + i names the user listed at index i. */
  lemma {:induction false} NewRowsAt(g: GroupId, us: seq<UserId>, base: RowId)
    ensures forall r :: r in NewRows(g, us, base) <==> base <= r < base + |us|
    ensures forall i :: 0 <= i < |us| ==> NewRows(g, us, base)[base + i] == Membership(g, us[i])
    decreases |us|
  {
    if us != [] {
      NewRowsAt(g, us[..|us| - 1], base);
    }
  }

  /** Status, membership rows and next row id after the PUT that replaces
      the users of ticket `id` with `us`. */
  function ReplaceOutcome(groups: map<TicketId, GroupId>, users: map<UserId, string>,
                          ms: map<RowId, Membership>, next: RowId, id: TicketId, us: seq<UserId>)
    : (Status, map<RowId, Membership>, RowId)
  {
    if id !in groups then (NotFound("User update failed"), ms, next)
    else
      var g := groups[id];
      var cleared := ms - RowsOf(ms, g);
      if us == [] then (Ok, cleared, next)
      else if us[0] !in users then (NotFound("User update failed"), ms, next)
      else
        var k := FirstAbsent(us, users);
        if k < |us| then (NotFound("User update failed"), cleared + NewRows(g, us[..k], next), next + k)
        else (Ok, cleared + NewRows(g, us, next), next + |us|)
  }

  /** Ticket ids sorted by non-decreasing `order`. */
  predicate SortedByOrder(t: map<TicketId, Ticket>, ids: seq<TicketId>)
    requires forall x :: x in ids ==> x in t
  {
    forall i, j :: 0 <= i < j < |ids| ==> t[ids[i]].order <= t[ids[j]].order
  }

  /** Column POST keeps a board's columns numbered 0 .. n-1 and leaves the
      numbering of every other board alone. */
  lemma AddColumnKeepsNumbering(cols: map<ColumnId, Column>, b: BoardId, id: ColumnId, title: string, swimlane: bool)
    requires Contiguous(ColumnOrders(cols, b)) && id !in cols
    ensures var cols' := cols[id := Column(b, title, "", "", 0, |ColumnsOn(cols, b)|, swimlane)];
      && Contiguous(ColumnOrders(cols', b))
      && ColumnOrders(cols', b) == ColumnOrders(cols, b)[id := |ColumnsOn(cols, b)|]
      && forall b' :: b' != b ==> ColumnOrders(cols', b') == ColumnOrders(cols, b')
  {
    var cols' := cols[id := Column(b, title, "", "", 0, |ColumnsOn(cols, b)|, swimlane)];
    ColumnOrdersCount(cols, b);
    assert ColumnOrders(cols', b) == ColumnOrders(cols, b)[id := |ColumnsOn(cols, b)|];
    AppendKeepsContiguous(ColumnOrders(cols, b), id);
  }

  /** Ticket POST keeps a column's tickets numbered 0 .. n-1 and leaves the
      numbering of every other column alone. */
  lemma AddTicketKeepsNumbering(t: map<TicketId, Ticket>, c: ColumnId, id: TicketId, req: TicketRequest)
    requires Contiguous(TicketOrders(t, c)) && id !in t
    requires NewTicket(c, req, |TicketsIn(t, c)|).Some?
    ensures var t' := t[id := NewTicket(c, req, |TicketsIn(t, c)|).value];
      && Contiguous(TicketOrders(t', c))
      && TicketOrders(t', c) == TicketOrders(t, c)[id := |TicketsIn(t, c)|]
      && forall c' :: c' != c ==> TicketOrders(t', c') == TicketOrders(t, c')
  {
    var t' := t[id := NewTicket(c, req, |TicketsIn(t, c)|).value];
    TicketOrdersCount(t, c);
    assert TicketOrders(t', c) == TicketOrders(t, c)[id := |TicketsIn(t, c)|];
    AppendKeepsContiguous(TicketOrders(t, c), id);
  }

  /** What the ticket PUT on column `c` promises. It succeeds exactly when
      every listed ticket exists (and the column exists, unless the list is
      empty). On success with no id listed twice, each listed ticket is in
      `c` with `order` equal to its index and every other ticket is as it
      was; when the list names all of `c`'s tickets, `c` is numbered
      0 .. n-1. On failure no `order` has changed, no ticket has appeared or
      gone, and the tickets listed before the missing one have already been
      moved into `c`. */
  lemma {:induction false} MoveTicketsPut(cols: map<ColumnId, Column>, t: map<TicketId, Ticket>, c: ColumnId, ids: seq<TicketId>)
    ensures var (status, r) := MoveOutcome(cols, t, c, ids);
      && (status.Ok? <==> (forall x :: x in ids ==> x in t) && (c in cols || ids == []))
      && r.Keys == t.Keys
    ensures var (status, r) := MoveOutcome(cols, t, c, ids);
      status.Ok? && NoDuplicates(ids) ==>
        && (forall i :: 0 <= i < |ids| ==> r[ids[i]].column == c && r[ids[i]].order == i)
        && (forall x :: x in t && x !in ids ==> r[x] == t[x])
        && (TicketsIn(t, c) <= (set x | x in ids) ==> TicketsIn(r, c) == (set x | x in ids) && Contiguous(TicketOrders(r, c)))
    ensures var (status, r) := MoveOutcome(cols, t, c, ids);
      !status.Ok? ==>
        && (forall x :: x in t ==> r[x].order == t[x].order)
        && (status == NotFound("Task does not exist") ==>
              forall j :: 0 <= j < FirstAbsent(ids, t) ==> r[ids[j]].column == c)
  {
    var (status, r) := MoveOutcome(cols, t, c, ids);
    var k := FirstAbsent(ids, t);
    ReparentedAt(t, ids, c);
    ReparentedAt(t, ids[..k], c);
    if status.Ok? {
      assert k == |ids|;
      RenumberedFrame(Reparented(t, ids, c), ids);
      if NoDuplicates(ids) {
        MoveAndRenumber(t, ids, c);
      }
    } else {
      assert k < |ids| || (c !in cols && ids != []);
      forall j | 0 <= j < k
        ensures ids[j] in ids[..k]
      {
        assert ids[..k][j] == ids[j];
      }
    }
  }

  /** What the users-on-ticket PUT promises. It succeeds exactly when the
      ticket has a usergroup and every listed user exists. On success the
      group's rows are exactly the new rows next .. next + |us| - 1, the row
      at next + i names the user listed at i, the group's users are exactly
      the listed users (none for an empty list), and the rows of every other
      group are untouched. */
  lemma ReplaceTicketUsersPut(groups: map<TicketId, GroupId>, users: map<UserId, string>,
                              ms: map<RowId, Membership>, next: RowId, id: TicketId, us: seq<UserId>)
    requires forall r :: r in ms ==> r < next
    ensures var (status, ms', next') := ReplaceOutcome(groups, users, ms, next, id, us);
      status.Ok? <==> id in groups && forall u :: u in us ==> u in users
    ensures var (status, ms', next') := ReplaceOutcome(groups, users, ms, next, id, us);
      status.Ok? ==>
        var g := groups[id];
        && next' == next + |us|
        && (forall r :: r in ms' && ms'[r].group == g <==> next <= r < next + |us|)
        && (forall i :: 0 <= i < |us| ==> ms'[next + i] == Membership(g, us[i]))
        && MemberUsers(ms', g) == (set u | u in us)
        && (forall r :: r in ms && ms[r].group != g ==> r in ms' && ms'[r] == ms[r])
  {
    var (status, ms', next') := ReplaceOutcome(groups, users, ms, next, id, us);
    NewRowsAt(if id in groups then groups[id] else 0, us, next);
    if id in groups && us != [] && us[0] in users && FirstAbsent(us, users) < |us| {
      assert us[FirstAbsent(us, users)] in us;
    }
    if status.Ok? {
      var g := groups[id];
      assert us != [] ==> FirstAbsent(us, users) == |us|;
      var cleared := ms - RowsOf(ms, g);
      assert ms' == cleared + NewRows(g, us, next);
      forall r | r in ms'
        ensures ms'[r].group == g <==> next <= r < next + |us|
      {
        if r !in NewRows(g, us, next) {
          assert r in cleared;
        } else {
          assert ms'[next + (r - next)] == Membership(g, us[r - next]);
        }
      }
      forall u | u in us
        ensures u in MemberUsers(ms', g)
      {
        var i :| 0 <= i < |us| && us[i] == u;
        assert ms'[next + i] == Membership(g, u);
      }
      forall u | u in MemberUsers(ms', g)
        ensures u in us
      {
        var r :| r in ms' && ms'[r].group == g && ms'[r].user == u;
        assert ms'[next + (r - next)].user == us[r - next];
      }
    }
  }

  /** Ticket DELETE leaves no membership row of the ticket's usergroup, and
      keeps every row of a user that had nothing to do with it. */
  lemma DeleteTicketClearsGroup(ms: map<RowId, Membership>, g: GroupId)
    ensures var gone := MemberUsers(ms, g);
      && RowsOf(WithoutUsers(ms, gone), g) == {}
      && (forall r :: r in ms && ms[r].user !in gone ==> r in WithoutUsers(ms, gone) && WithoutUsers(ms, gone)[r] == ms[r])
  {
  }

  /** A partial ticket update changes no ticket's column or order, so every
      column keeps its numbering. */
  lemma UpdateTicketKeepsNumbering(t: map<TicketId, Ticket>, id: TicketId, p: TicketPatch)
    requires id in t
    ensures forall c :: TicketOrders(t[id := Patched(t[id], p)], c) == TicketOrders(t, c)
  {
  }

  class Store {
    var boards: set<BoardId>
    var columns: map<ColumnId, Column>
    var swimlaneColumns: seq<SwimlaneColumn>
    var tickets: map<TicketId, Ticket>
    /** The usergroup (of type "ticket") of each ticket. */
    var ticketGroups: map<TicketId, GroupId>
    var memberships: map<RowId, Membership>
    var users: map<UserId, string>
    /** The next identifiers the database hands out. */
    var nextGroup: GroupId
    var nextRow: RowId

    /** Every ticket usergroup belongs to an existing ticket and to that
        ticket alone, and the identifier counters are ahead of every
        identifier in use. */
    ghost predicate Valid()
      reads this
    {
      && ticketGroups.Keys <= tickets.Keys
      && (forall x :: x in ticketGroups ==> ticketGroups[x] < nextGroup)
      && (forall x, y :: x in ticketGroups && y in ticketGroups && x != y ==> ticketGroups[x] != ticketGroups[y])
      && (forall r :: r in memberships ==> r < nextRow)
    }

    constructor ()
      ensures Valid()
      ensures boards == {} && columns == map[] && swimlaneColumns == [] && tickets == map[]
      ensures ticketGroups == map[] && memberships == map[] && users == map[]
    {
      boards, columns, swimlaneColumns, tickets := {}, map[], [], map[];
      ticketGroups, memberships, users := map[], map[], map[];
      nextGroup, nextRow := 0, 0;
    }

    /** Column POST: the new column's `ordernum` is the number of columns
        the board already has; a swimlane column also gets its four default
        swimlane columns. */
    method AddColumn(board: BoardId, id: ColumnId, title: Option<string>, swimlane: Option<bool>) returns (status: Status)
      requires Valid()
      modifies this`columns, this`swimlaneColumns
      ensures Valid()
      ensures status == if board in boards && title.Some? && swimlane.Some? && id !in old(columns)
        then Ok else NotFound("Column creation failed")
      ensures columns == if status.Ok?
        then old(columns)[id := Column(board, title.value, "", "", 0, |ColumnsOn(old(columns), board)|, swimlane.value)]
        else old(columns)
      ensures swimlaneColumns == if status.Ok? && swimlane.value
        then old(swimlaneColumns) + DefaultSwimlanes(id)
        else old(swimlaneColumns)
    {
      var length := |ColumnsOn(columns, board)|;
      if board !in boards || title.None? || swimlane.None? || id in columns {
        return NotFound("Column creation failed");
      }
      var column := Column(board, title.value, "", "", 0, length, swimlane.value);
      columns := columns[id := column];
      if swimlane.value {
        var names := ["To Do", "Doing", "Verify", "Done"];
        for i := 0 to |names|
          invariant columns == old(columns)[id := column]
          invariant swimlaneColumns == old(swimlaneColumns) + DefaultSwimlanes(id)[..i]
        {
          // `defaultSwimlaneNames.index(name)` is i: the names are distinct
          swimlaneColumns := swimlaneColumns + [SwimlaneColumn(id, "white", names[i], i)];
        }
        assert DefaultSwimlanes(id)[..4] == DefaultSwimlanes(id);
      }
      return Ok;
    }

    /** Ticket POST: the new ticket's `order` is the number of tickets the
        column already has, and the ticket gets a fresh usergroup. */
    method AddTicket(c: ColumnId, id: TicketId, req: TicketRequest) returns (status: Status)
      requires Valid()
      modifies this`tickets, this`ticketGroups, this`nextGroup
      ensures Valid()
      ensures var row := NewTicket(c, req, |TicketsIn(old(tickets), c)|);
        && status == (if c in columns && id !in old(tickets) && row.Some? then Ok else NotFound("Cannot create Ticket"))
        && tickets == (if status.Ok? then old(tickets)[id := row.value] else old(tickets))
      ensures ticketGroups == if status.Ok? then old(ticketGroups)[id := old(nextGroup)] else old(ticketGroups)
      ensures nextGroup == if status.Ok? then old(nextGroup) + 1 else old(nextGroup)
    {
      var length := |TicketsIn(tickets, c)|;
      var row := NewTicket(c, req, length);
      if c !in columns || id in tickets || row.None? {
        return NotFound("Cannot create Ticket");
      }
      tickets := tickets[id := row.value];
      ticketGroups := ticketGroups[id := nextGroup];
      nextGroup := nextGroup + 1;
      return Ok;
    }

    /** Ticket PUT on column `c`: moves every listed ticket into `c`, then
        sets each listed ticket's `order` to its index in the list. */
    method MoveTickets(c: ColumnId, ids: seq<TicketId>) returns (status: Status)
      requires Valid()
      modifies this`tickets
      ensures Valid()
      ensures (status, tickets) == MoveOutcome(columns, old(tickets), c, ids)
    {
      var i := 0;
      while i < |ids|
        invariant 0 <= i <= |ids|
        invariant forall j :: 0 <= j < i ==> ids[j] in old(tickets)
        invariant i > 0 ==> c in columns
        invariant tickets == Reparented(old(tickets), ids[..i], c)
      {
        ReparentedAt(old(tickets), ids[..i], c);
        if ids[i] !in tickets {
          return NotFound("Task does not exist");
        }
        if c !in columns {
          return NotFound("Error updating tasks order.");
        }
        if tickets[ids[i]].column != c {
          tickets := tickets[ids[i] := tickets[ids[i]].(column := c)];
        }
        assert ids[..i + 1][..i] == ids[..i];
        i := i + 1;
      }
      assert ids[..i] == ids;
      ghost var moved := tickets;
      ReparentedAt(old(tickets), ids, c);
      i := 0;
      while i < |ids|
        invariant 0 <= i <= |ids|
        invariant tickets == Renumbered(moved, ids[..i])
      {
        RenumberedFrame(moved, ids[..i]);
        tickets := tickets[ids[i] := tickets[ids[i]].(order := i)];
        assert ids[..i + 1][..i] == ids[..i];
        i := i + 1;
      }
      assert ids[..i] == ids;
      RenumberedFrame(moved, ids);
      return Ok;
    }

    /** Ticket GET: the tickets of column `c`, each once, by ascending
        `order`. */
    method ListTickets(c: ColumnId) returns (ids: seq<TicketId>)
      ensures forall x :: x in ids <==> x in tickets && tickets[x].column == c
      ensures NoDuplicates(ids)
      ensures SortedByOrder(tickets, ids)
    {
      var pending := TicketsIn(tickets, c);
      ids := [];
      while pending != {}
        invariant pending <= TicketsIn(tickets, c)
        invariant forall x :: x in ids <==> x in TicketsIn(tickets, c) && x !in pending
        invariant forall x :: x in ids ==> x in tickets
        invariant NoDuplicates(ids)
        invariant SortedByOrder(tickets, ids)
        decreases pending
      {
        var x :| x in pending;
        var p := 0;
        while p < |ids| && tickets[ids[p]].order <= tickets[x].order
          invariant 0 <= p <= |ids|
          invariant forall j :: 0 <= j < p ==> tickets[ids[j]].order <= tickets[x].order
        {
          p := p + 1;
        }
        ids := ids[..p] + [x] + ids[p..];
        pending := pending - {x};
      }
    }

    /** Ticket PUT on one ticket: a partial update of its fields. */
    method UpdateTicket(c: ColumnId, id: TicketId, patch: TicketPatch) returns (status: Status)
      requires Valid()
      modifies this`tickets
      ensures Valid()
      ensures status == if id in old(tickets) && old(tickets)[id].column == c then Ok else NotFound("Ticket not found")
      ensures tickets == if status.Ok? then old(tickets)[id := Patched(old(tickets)[id], patch)] else old(tickets)
    {
      if id !in tickets || tickets[id].column != c {
        return NotFound("Ticket not found");
      }
      tickets := tickets[id := Patched(tickets[id], patch)];
      return Ok;
    }

    /** Ticket DELETE: deletes every user that is a member of the ticket's
        usergroup, then the ticket. Deleting a user also deletes that user's
        membership rows, and deleting the ticket deletes its usergroup. */
    method DeleteTicket(c: ColumnId, id: TicketId) returns (status: Status)
      requires Valid()
      modifies this`tickets, this`ticketGroups, this`users, this`memberships
      ensures Valid()
      ensures status ==
        if id !in old(tickets) || old(tickets)[id].column != c then NotFound("Ticket not found")
        else if id !in old(ticketGroups) then NotFound("Cannot delete Ticket")
        else Ok
      ensures status.Ok? ==>
        var gone := MemberUsers(old(memberships), old(ticketGroups)[id]);
        && tickets == old(tickets) - {id}
        && ticketGroups == old(ticketGroups) - {id}
        && users == old(users) - gone
        && memberships == WithoutUsers(old(memberships), gone)
      ensures !status.Ok? ==>
        tickets == old(tickets) && ticketGroups == old(ticketGroups) &&
        users == old(users) && memberships == old(memberships)
    {
      if id !in tickets || tickets[id].column != c {
        return NotFound("Ticket not found");
      }
      if id !in ticketGroups {
        return NotFound("Cannot delete Ticket");
      }
      var g := ticketGroups[id];
      var pending := MemberUsers(memberships, g);
      ghost var all := pending;
      while pending != {}
        invariant pending <= all
        invariant users == old(users) - (all - pending)
        invariant memberships == WithoutUsers(old(memberships), all - pending)
        invariant forall r :: r in memberships ==> r < nextRow
        invariant tickets == old(tickets) && ticketGroups == old(ticketGroups)
        decreases pending
      {
        var u :| u in pending;
        users := users - {u};
        memberships := WithoutUsers(memberships, {u});
        pending := pending - {u};
      }
      tickets := tickets - {id};
      ticketGroups := ticketGroups - {id};
      return Ok;
    }

    /** Column PUT: a partial update of the column's title. */
    method UpdateColumn(b: BoardId, id: ColumnId, title: Option<string>) returns (status: Status)
      requires Valid()
      modifies this`columns
      ensures Valid()
      ensures status == if id in old(columns) && old(columns)[id].board == b then Ok else NotFound("Column not found")
      ensures columns == if status.Ok?
        then old(columns)[id := old(columns)[id].(title := title.GetOr(old(columns)[id].title))]
        else old(columns)
    {
      if id !in columns || columns[id].board != b {
        return NotFound("Column not found");
      }
      columns := columns[id := columns[id].(title := title.GetOr(columns[id].title))];
      return Ok;
    }

    /** Deletes the membership rows `rows`, one at a time. */
    method DeleteRows(rows: set<RowId>)
      requires Valid()
      modifies this`memberships
      ensures Valid()
      ensures memberships == old(memberships) - rows
    {
      var pending := rows;
      while pending != {}
        invariant pending <= rows
        invariant memberships == old(memberships) - (rows - pending)
        decreases pending
      {
        var r :| r in pending;
        memberships := memberships - {r};
        pending := pending - {r};
      }
    }

    /** Users-on-ticket PUT: replaces the membership rows of the ticket's
        usergroup with one new row per listed user. */
    method ReplaceTicketUsers(id: TicketId, us: seq<UserId>) returns (status: Status)
      requires Valid()
      modifies this`memberships, this`nextRow
      ensures Valid()
      ensures (status, memberships, nextRow) ==
        ReplaceOutcome(ticketGroups, users, old(memberships), old(nextRow), id, us)
    {
      if id !in ticketGroups {
        return NotFound("User update failed");
      }
      var g := ticketGroups[id];
      // the membership query, evaluated once by the list comprehension
      var rows := RowsOf(memberships, g);
      if us == [] {
        DeleteRows(rows);
        assert RowsOf(memberships, g) == {};
        DeleteRows(RowsOf(memberships, g));
        assert memberships == old(memberships) - RowsOf(old(memberships), g);
        return Ok;
      }
      if us[0] !in users {
        return NotFound("User update failed");
      }
      // deleting the unsaved UsergroupUser built for us[0] removes nothing:
      // its primary key is a fresh uuid that names no row
      DeleteRows(rows);
      var k := AddRows(g, us);
      if k < |us| {
        return NotFound("User update failed");
      }
      assert us[..k] == us;
      return Ok;
    }

    /** Saves a membership row of usergroup `g` for each listed user in
        turn, stopping at the first user that does not exist; returns how
        many rows it saved. */
    method AddRows(g: GroupId, us: seq<UserId>) returns (k: nat)
      requires Valid()
      modifies this`memberships, this`nextRow
      ensures Valid()
      ensures k == FirstAbsent(us, users)
      ensures memberships == old(memberships) + NewRows(g, us[..k], old(nextRow))
      ensures nextRow == old(nextRow) + k
    {
      k := 0;
      while k < |us|
        invariant 0 <= k <= |us|
        invariant forall j :: 0 <= j < k ==> us[j] in users
        invariant nextRow == old(nextRow) + k
        invariant memberships == old(memberships) + NewRows(g, us[..k], old(nextRow))
        invariant forall r :: r in memberships ==> r < nextRow
      {
        if us[k] !in users {
          return;
        }
        assert us[..k + 1][..k] == us[..k];
        NewRowsAt(g, us[..k], old(nextRow));
        memberships := memberships[nextRow := Membership(g, us[k])];
        nextRow := nextRow + 1;
        k := k + 1;
      }
    }
  }
}
