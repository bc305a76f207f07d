/** The board endpoints of backend/futuboard/views/boardViews.py: board
    creation, the password check that hands out an access token, and the
    token-gated updates of a board's background, title, password and ticket
    template. Password hashing, password verification, token issuing and
    token checking live in a module that is not part of this model; they
    enter as function parameters and as a `TokenCheck` outcome. */
module BoardViews {
  import opened Schema

  /** The defaults a board offers new tickets. */
  datatype Template = Template(
    title: string,
    description: string,
    color: string,
    storypoints: int,
    size: int,
    cornernote: string)

  datatype Board = Board(
    title: string,
    description: string,
    passwordhash: string,
    salt: string,
    backgroundColor: string,
    template: Template)

  /** What checking a request's access token for a board comes to: the
      check passes, answers with a 401 of its own (no token, or a token for
      another board), or raises the expired- or invalid-token error. */
  datatype TokenCheck = Granted | Refused(message: string) | Expired | Invalid

  /** The response a token-gated handler returns before touching the
      database, or None when the token check lets it through. */
  function Authorize(check: TokenCheck): (r: Option<Status>)
    ensures r.None? <==> check.Granted?
    ensures check.Expired? ==> r == Some(Unauthorized("Access token expired"))
    ensures check.Invalid? ==> r == Some(Unauthorized("Access token invalid"))
    ensures check.Refused? ==> r == Some(Unauthorized(check.message))
  {
    match check
    case Granted => None
    case Refused(m) => Some(Unauthorized(m))
    case Expired => Some(Unauthorized("Access token expired"))
    case Invalid => Some(Unauthorized("Access token invalid"))
  }

  /** The reply of the password check: a failure status, or a 200 answer
      saying whether the password was right and, when it was, the token. */
  datatype LoginReply = Failed(status: Status) | Answered(success: bool, token: Option<string>)

  /** The body of a password-change request; a missing key is None. */
  datatype PasswordRequest = PasswordRequest(
    oldPassword: Option<string>,
    newPassword: Option<string>,
    confirmPassword: Option<string>)

  /** The message a handler's catch-all answers a 500 with. */
  const Unexpected := "An unexpected error occurred"

  /** The 500 the framework answers for an exception no handler catches. */
  const InternalError := "Internal Server Error"

  /** The template after a ticket-template PUT: each field the request
      carries is overwritten, every other keeps its value. */
  function TemplatePatched(t: Template, p: TicketPatch): Template {
    Template(
      p.title.GetOr(t.title),
      p.description.GetOr(t.description),
      p.color.GetOr(t.color),
      p.storypoints.GetOr(t.storypoints),
      p.size.GetOr(t.size),
      p.cornernote.GetOr(t.cornernote))
  }

  /** The ticket-template PUT overwrites exactly the fields the request
      carries: a field present in the request takes its value, an absent one
      keeps the old value. */
  lemma TemplatePatchedFields(t: Template, p: TicketPatch)
    ensures var r := TemplatePatched(t, p);
      && (r.title == if p.title.Some? then p.title.value else t.title)
      && (r.description == if p.description.Some? then p.description.value else t.description)
      && (r.color == if p.color.Some? then p.color.value else t.color)
      && (r.storypoints == if p.storypoints.Some? then p.storypoints.value else t.storypoints)
      && (r.size == if p.size.Some? then p.size.value else t.size)
      && (r.cornernote == if p.cornernote.Some? then p.cornernote.value else t.cornernote)
    ensures p == TicketPatch(None, None, None, None, None, None) ==> TemplatePatched(t, p) == t
    ensures TemplatePatched(TemplatePatched(t, p), p) == TemplatePatched(t, p)
  {
  }

  /** The password check: a 500 when the body has no password (the lookup
      is outside any `try`, so the framework answers it), a 404 when
      the board does not exist, otherwise a 200 whose `success` is whether
      the password verifies against the stored hash, with a token for the
      board exactly when it does. */
  function Login(
    boards: map<BoardId, Board>, id: BoardId, password: Option<string>,
    verify: (string, string) -> bool, encode: BoardId -> string): (r: LoginReply)
    ensures r == Failed(ServerError(InternalError)) <==> password.None?
    ensures r == Failed(NotFound("Board does not exist")) <==> password.Some? && id !in boards
    ensures r.Answered? ==> (r.success <==> verify(password.value, boards[id].passwordhash))
    ensures r.Answered? ==> (r.token.Some? <==> r.success) && (r.success ==> r.token == Some(encode(id)))
  {
    if password.None? then Failed(ServerError(InternalError))
    else if id !in boards then Failed(NotFound("Board does not exist"))
    else if verify(password.value, boards[id].passwordhash) then Answered(true, Some(encode(id)))
    else Answered(false, None)
  }

  /** The password change, its checks in the handler's order: the token,
      the board's existence, the old password (401), the new password
      against its confirmation (400); only then is the new hash stored.
      A missing key in the body is a 500. */
  function PasswordChange(
    boards: map<BoardId, Board>, id: BoardId, check: TokenCheck, req: PasswordRequest,
    verify: (string, string) -> bool, hash: string -> string): (r: (Status, map<BoardId, Board>))
    ensures r.0.Ok? <==>
      && check.Granted? && id in boards
      && req.oldPassword.Some? && verify(req.oldPassword.value, boards[id].passwordhash)
      && req.newPassword.Some? && req.confirmPassword == req.newPassword
    ensures r.0.Ok? ==> r.1 == boards[id := boards[id].(passwordhash := hash(req.newPassword.value))]
    ensures !r.0.Ok? ==> r.1 == boards
  {
    if Authorize(check).Some? then (Authorize(check).value, boards)
    else if id !in boards then (NotFound("Board does not exist"), boards)
    else if req.oldPassword.None? then (ServerError(Unexpected), boards)
    else if !verify(req.oldPassword.value, boards[id].passwordhash) then (Unauthorized("Wrong old password"), boards)
    else if req.newPassword.None? || req.confirmPassword.None? then (ServerError(Unexpected), boards)
    else if req.newPassword != req.confirmPassword then (BadRequest("Passwords do not match"), boards)
    else (Ok, boards[id := boards[id].(passwordhash := hash(req.newPassword.value))])
  }

  /** The checks come in a fixed order: a failed token check decides the
      answer whatever else is wrong; with a good token, a missing board is
      a 404; a wrong old password is a 401 even when the new password and
      its confirmation also differ; and a mismatch is a 400 only once the
      old password was right. */
  lemma PasswordChangeOrder(
    boards: map<BoardId, Board>, id: BoardId, check: TokenCheck, req: PasswordRequest,
    verify: (string, string) -> bool, hash: string -> string)
    ensures !check.Granted? ==> PasswordChange(boards, id, check, req, verify, hash).0 == Authorize(check).value
    ensures check.Granted? && id !in boards ==>
      PasswordChange(boards, id, check, req, verify, hash).0 == NotFound("Board does not exist")
    ensures (check.Granted? && id in boards && req.oldPassword.Some?
             && !verify(req.oldPassword.value, boards[id].passwordhash)) ==>
      PasswordChange(boards, id, check, req, verify, hash).0 == Unauthorized("Wrong old password")
    ensures PasswordChange(boards, id, check, req, verify, hash).0 == BadRequest("Passwords do not match") <==>
      && check.Granted? && id in boards
      && req.oldPassword.Some? && verify(req.oldPassword.value, boards[id].passwordhash)
      && req.newPassword.Some? && req.confirmPassword.Some? && req.newPassword != req.confirmPassword
  {
  }

  /** When hashing and verifying agree (`verify(p, hash(p))` for every p),
      a successful change lets the board be opened with the new password,
      and a refused one leaves the answer to every password check as it
      was: after a 401 or a 400, the old password still opens the board. */
  lemma ChangeThenLogin(
    boards: map<BoardId, Board>, id: BoardId, check: TokenCheck, req: PasswordRequest,
    verify: (string, string) -> bool, hash: string -> string, encode: BoardId -> string, p: Option<string>)
    requires forall q :: verify(q, hash(q))
    ensures var (status, boards') := PasswordChange(boards, id, check, req, verify, hash);
      status.Ok? ==> Login(boards', id, req.newPassword, verify, encode) == Answered(true, Some(encode(id)))
    ensures var (status, boards') := PasswordChange(boards, id, check, req, verify, hash);
      !status.Ok? ==> Login(boards', id, p, verify, encode) == Login(boards, id, p, verify, encode)
  {
  }

  /** The board table and the handlers that write it. */
  class BoardTable {
    var boards: map<BoardId, Board>

    constructor ()
      ensures boards == map[]
    {
      boards := map[];
    }

    /** Board POST: stores a board whose hash is `hash(password)`, never the
        password itself, with an empty description and salt; the other
        fields take the model's defaults. `id` is the key the database
        assigns; a missing title or password, or a key already taken, ends
        in a 500. */
    method Create(id: BoardId, title: Option<string>, password: Option<string>, hash: string -> string, defaults: Board)
      returns (status: Status)
      modifies this
      ensures status.Ok? <==> title.Some? && password.Some? && id !in old(boards)
      ensures !status.Ok? ==> status.ServerError? && boards == old(boards)
      ensures status.Ok? ==> boards == old(boards)[id :=
        defaults.(title := title.value, description := "", passwordhash := hash(password.value), salt := "")]
    {
      if title.None? || password.None? || id in boards {
        return ServerError(InternalError);
      }
      var passwordhash := hash(password.value);
      boards := boards[id := defaults.(title := title.value, description := "", passwordhash := passwordhash, salt := "")];
      return Ok;
    }

    /** The password check of the board POST, reading the table. */
    function CheckPassword(id: BoardId, password: Option<string>, verify: (string, string) -> bool, encode: BoardId -> string)
      : (r: LoginReply)
      reads this
      ensures r.Answered? <==> password.Some? && id in boards
      ensures r.Answered? ==> (r.success <==> verify(password.value, boards[id].passwordhash))
      ensures r.Answered? ==> (r.token.Some? <==> r.success)
    {
      Login(boards, id, password, verify, encode)
    }

    /** Board GET: the token check, then the board or a 404. The token
        check accepts every GET request, so in the running system `check`
        is always `Granted` here and a missing board is the only failure. */
    function Fetch(id: BoardId, check: TokenCheck): (r: (Status, Option<Board>))
      reads this
      ensures r.1.Some? <==> r.0.Ok?
      ensures r.0.Ok? <==> check.Granted? && id in boards
      ensures r.0.Ok? ==> r.1.value == boards[id]
      ensures !check.Granted? ==> Some(r.0) == Authorize(check)
    {
      if Authorize(check).Some? then (Authorize(check).value, None)
      else if id !in boards then (NotFound("Board does not exist"), None)
      else (Ok, Some(boards[id]))
    }

    /** Board PUT: sets the background colour when the request has one. */
    method UpdateBackground(id: BoardId, check: TokenCheck, color: Option<string>) returns (status: Status)
      modifies this
      ensures status == if !check.Granted? then Authorize(check).value
        else if id !in old(boards) then NotFound("Board does not exist") else Ok
      ensures boards == if status.Ok?
        then old(boards)[id := old(boards)[id].(backgroundColor := color.GetOr(old(boards)[id].backgroundColor))]
        else old(boards)
    {
      var denied := Authorize(check);
      if denied.Some? {
        return denied.value;
      }
      if id !in boards {
        return NotFound("Board does not exist");
      }
      boards := boards[id := boards[id].(backgroundColor := color.GetOr(boards[id].backgroundColor))];
      return Ok;
    }

    /** Title PUT: sets the title when the request has one. */
    method UpdateTitle(id: BoardId, check: TokenCheck, title: Option<string>) returns (status: Status)
      modifies this
      ensures status == if !check.Granted? then Authorize(check).value
        else if id !in old(boards) then NotFound("Board does not exist") else Ok
      ensures boards == if status.Ok?
        then old(boards)[id := old(boards)[id].(title := title.GetOr(old(boards)[id].title))]
        else old(boards)
    {
      var denied := Authorize(check);
      if denied.Some? {
        return denied.value;
      }
      if id !in boards {
        return NotFound("Board does not exist");
      }
      boards := boards[id := boards[id].(title := title.GetOr(boards[id].title))];
      return Ok;
    }

    /** Password PUT. */
    method ChangePassword(id: BoardId, check: TokenCheck, req: PasswordRequest,
                          verify: (string, string) -> bool, hash: string -> string)
      returns (status: Status)
      modifies this
      ensures (status, boards) == PasswordChange(old(boards), id, check, req, verify, hash)
    {
      var denied := Authorize(check);
      if denied.Some? {
        return denied.value;
      }
      if id !in boards {
        return NotFound("Board does not exist");
      }
      if req.oldPassword.None? {
        return ServerError(Unexpected);
      }
      if !verify(req.oldPassword.value, boards[id].passwordhash) {
        return Unauthorized("Wrong old password");
      }
      if req.newPassword.None? || req.confirmPassword.None? {
        return ServerError(Unexpected);
      }
      if req.newPassword.value != req.confirmPassword.value {
        return BadRequest("Passwords do not match");
      }
      boards := boards[id := boards[id].(passwordhash := hash(req.newPassword.value))];
      return Ok;
    }

    /** Ticket-template PUT: a partial update of the board's ticket
        defaults; no other board field changes. */
    method UpdateTemplate(id: BoardId, check: TokenCheck, p: TicketPatch) returns (status: Status)
      modifies this
      ensures status == if !check.Granted? then Authorize(check).value
        else if id !in old(boards) then NotFound("Board does not exist") else Ok
      ensures boards == if status.Ok?
        then old(boards)[id := old(boards)[id].(template := TemplatePatched(old(boards)[id].template, p))]
        else old(boards)
    {
      var denied := Authorize(check);
      if denied.Some? {
        return denied.value;
      }
      if id !in boards {
        return NotFound("Board does not exist");
      }
      boards := boards[id := boards[id].(template := TemplatePatched(boards[id].template, p))];
      return Ok;
    }
  }

  /** A board created with password p opens with p, and the answer carries
      a token for it, whenever hashing and verifying agree. */
  lemma CreateThenLogin(
    boards: map<BoardId, Board>, id: BoardId, title: string, p: string, defaults: Board,
    verify: (string, string) -> bool, hash: string -> string, encode: BoardId -> string)
    requires forall q :: verify(q, hash(q))
    ensures var b := defaults.(title := title, description := "", passwordhash := hash(p), salt := "");
      Login(boards[id := b], id, Some(p), verify, encode) == Answered(true, Some(encode(id)))
  {
  }
}
