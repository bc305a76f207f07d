/** Rows of the kanban database and the request payloads the handlers read.
    Identifiers the client supplies (boards, columns, tickets, users) are
    strings; identifiers the database assigns itself (usergroups, membership
    rows) are numbers drawn from a counter. */
module Schema {

  datatype Option<T> = None | Some(value: T) {
    /** What `request.data.get(key, current)` yields: the request's value
        when the key is present, the current one otherwise. */
    function GetOr(current: T): T {
      if Some? then value else current
    }
  }

  /** The answer a handler gives; the string is the message it carries. */
  datatype Status =
    | Ok
    | NotFound(message: string)
    | Unauthorized(message: string)
    | BadRequest(message: string)
    | ServerError(message: string)

  type BoardId = string
  type ColumnId = string
  type TicketId = string
  type UserId = string
  type GroupId = nat
  type RowId = nat

  datatype Column = Column(
    board: BoardId,
    title: string,
    description: string,
    color: string,
    wipLimit: int,
    ordernum: int,
    swimlane: bool)

  datatype SwimlaneColumn = SwimlaneColumn(
    column: ColumnId,
    color: string,
    title: string,
    ordernum: int)

  datatype Ticket = Ticket(
    column: ColumnId,
    title: string,
    description: string,
    color: string,
    storypoints: int,
    size: int,
    order: int,
    cornernote: string)

  /** A UsergroupUser row: user `user` belongs to usergroup `group`. */
  datatype Membership = Membership(group: GroupId, user: UserId)

  /** The `size` entry of a ticket-creation request, as Python's
      truthiness test and `int(...)` see it. */
  datatype SizeInput =
    | Missing          // key absent: `request.data['size']` raises KeyError
    | Null             // JSON null
    | Blank            // the empty string
    | Number(n: int)   // an int, or a string `int()` parses to n
    | NotNumeric       // a non-empty string `int()` rejects

  /** Fields of a ticket PUT; an absent key keeps the current value. */
  datatype TicketPatch = TicketPatch(
    title: Option<string>,
    description: Option<string>,
    color: Option<string>,
    storypoints: Option<int>,
    size: Option<int>,
    cornernote: Option<string>)

  /** The ticket after a partial update: each field present in the patch is
      overwritten, every other field keeps its value. */
  function Patched(t: Ticket, p: TicketPatch): (r: Ticket)
    ensures r.column == t.column && r.order == t.order
  {
    t.(title := p.title.GetOr(t.title),
       description := p.description.GetOr(t.description),
       color := p.color.GetOr(t.color),
       storypoints := p.storypoints.GetOr(t.storypoints),
       size := p.size.GetOr(t.size),
       cornernote := p.cornernote.GetOr(t.cornernote))
  }

  /** Applying the same partial update twice is the same as applying it once. */
  lemma PatchedIdempotent(t: Ticket, p: TicketPatch)
    ensures Patched(Patched(t, p), p) == Patched(t, p)
  {
  }

  /** A patch with no keys changes nothing. */
  lemma EmptyPatchKeeps(t: Ticket)
    ensures Patched(t, TicketPatch(None, None, None, None, None, None)) == t
  {
  }

  predicate NoDuplicates<T(==)>(s: seq<T>) {
    forall i, j :: 0 <= i < j < |s| ==> s[i] != s[j]
  }

  /** The index of the first key of `ks` that `m` lacks, or |ks| when it has
      them all: where a handler that looks the keys up one by one stops. */
  function FirstAbsent<K, V>(ks: seq<K>, m: map<K, V>): (k: nat)
    ensures k <= |ks|
    ensures forall j :: 0 <= j < k ==> ks[j] in m
    ensures k < |ks| ==> ks[k] !in m
  {
    if ks == [] || ks[0] !in m then 0 else 1 + FirstAbsent(ks[1..], m)
  }
}
