/** The access decorators of backend/src/decorators/board.py as functions: each
    either refuses with a status or calls the wrapped handler. */
module BoardAccess {
  import opened Wrappers
  import opened Models

  /** A route's keyword arguments, such as `board_id=7` or `card_id=3`. */
  type Kwargs = map<string, int>

  /** What a decorated route returns: a refusal, or the wrapped handler's response. */
  datatype Guarded<R> = Refused(status: int) | Called(response: R)

  /** `kwargs.get("board_id") or kwargs.get("id")`, where a missing key and 0 are
      both falsy; `None` stands for the falsy outcome. */
  function BoardIdOf(kwargs: Kwargs): (r: Option<int>)
    ensures r.None? <==> ("board_id" !in kwargs || kwargs["board_id"] == 0) && ("id" !in kwargs || kwargs["id"] == 0)
    ensures r.Some? && "board_id" in kwargs && kwargs["board_id"] != 0 ==> r.value == kwargs["board_id"]
    ensures r.Some? && ("board_id" !in kwargs || kwargs["board_id"] == 0) ==> r.value == kwargs["id"]
  {
    if "board_id" in kwargs && kwargs["board_id"] != 0 then Some(kwargs["board_id"])
    else if "id" in kwargs && kwargs["id"] != 0 then Some(kwargs["id"])
    else None
  }

  /** Some membership row links the user to the board. */
  predicate IsMember(members: seq<Membership>, boardId: int, userId: int)
  {
    exists i :: 0 <= i < |members| && members[i] == Membership(boardId, userId)
  }

  /** `require_board_access`: 400 without a board id, 404 for an unknown board,
      403 unless the user owns the board or is a member of it; otherwise the
      handler runs on the original arguments. */
  function RequireBoardAccess<R>(handler: Kwargs -> R, kwargs: Kwargs, user: int,
                                 boards: map<int, Board>, members: seq<Membership>): (r: Guarded<R>)
    ensures BoardIdOf(kwargs).None? ==> r == Refused(BAD_REQUEST)
    ensures BoardIdOf(kwargs).Some? && BoardIdOf(kwargs).value !in boards ==> r == Refused(NOT_FOUND)
    ensures r.Called? <==>
      var b := BoardIdOf(kwargs);
      b.Some? && b.value in boards && (boards[b.value].ownerId == user || IsMember(members, b.value, user))
    ensures var b := BoardIdOf(kwargs);
      b.Some? && b.value in boards && !(boards[b.value].ownerId == user || IsMember(members, b.value, user)) ==>
        r == Refused(FORBIDDEN)
    ensures r.Called? ==> r.response == handler(kwargs)
    ensures r.Refused? ==> r.status in {BAD_REQUEST, NOT_FOUND, FORBIDDEN}
  {
    var boardId := BoardIdOf(kwargs);
    if boardId.None? then Refused(BAD_REQUEST)
    else if boardId.value !in boards then Refused(NOT_FOUND)
    else
      var isOwner := boards[boardId.value].ownerId == user;
      var isMember := IsMember(members, boardId.value, user);
      if !(isOwner || isMember) then Refused(FORBIDDEN)
      else Called(handler(kwargs))
  }

  /** `require_board_owner`: as `require_board_access`, but only the owner gets
      through. */
  function RequireBoardOwner<R>(handler: Kwargs -> R, kwargs: Kwargs, user: int,
                                boards: map<int, Board>): (r: Guarded<R>)
    ensures BoardIdOf(kwargs).None? ==> r == Refused(BAD_REQUEST)
    ensures BoardIdOf(kwargs).Some? && BoardIdOf(kwargs).value !in boards ==> r == Refused(NOT_FOUND)
    ensures r.Called? <==>
      var b := BoardIdOf(kwargs);
      b.Some? && b.value in boards && boards[b.value].ownerId == user
    ensures var b := BoardIdOf(kwargs);
      b.Some? && b.value in boards && boards[b.value].ownerId != user ==> r == Refused(FORBIDDEN)
    ensures r.Called? ==> r.response == handler(kwargs)
    ensures r.Refused? ==> r.status in {BAD_REQUEST, NOT_FOUND, FORBIDDEN}
  {
    var boardId := BoardIdOf(kwargs);
    if boardId.None? then Refused(BAD_REQUEST)
    else if boardId.value !in boards then Refused(NOT_FOUND)
    else
      var isOwner := boards[boardId.value].ownerId == user;
      if !isOwner then Refused(FORBIDDEN)
      else Called(handler(kwargs))
  }

  /** Every route guarded by the owner check is open to the same requests under
      the access check; both checks refuse a missing board id and an unknown
      board identically; and a member who is not the owner is refused with 403
      by the owner check alone. */
  lemma OwnerImpliesAccess<R>(handler: Kwargs -> R, kwargs: Kwargs, user: int,
                              boards: map<int, Board>, members: seq<Membership>)
    ensures RequireBoardOwner(handler, kwargs, user, boards).Called? ==>
      RequireBoardAccess(handler, kwargs, user, boards, members).Called?
    ensures var b := BoardIdOf(kwargs);
      b.None? || b.value !in boards ==>
        RequireBoardOwner(handler, kwargs, user, boards) == RequireBoardAccess(handler, kwargs, user, boards, members)
    ensures var b := BoardIdOf(kwargs);
      b.Some? && b.value in boards && boards[b.value].ownerId != user && IsMember(members, b.value, user) ==>
        && RequireBoardAccess(handler, kwargs, user, boards, members).Called?
        && RequireBoardOwner(handler, kwargs, user, boards) == Refused(FORBIDDEN)
  {
  }

  /** The card and list routes receive only `card_id` or `list_id` (or nothing),
      so the access check never finds a board id and refuses them all with 400. */
  lemma CardAndListRoutesRefused<R>(handler: Kwargs -> R, kwargs: Kwargs, user: int,
                                    boards: map<int, Board>, members: seq<Membership>)
    requires forall k :: k in kwargs ==> k == "card_id" || k == "list_id"
    ensures RequireBoardAccess(handler, kwargs, user, boards, members) == Refused(BAD_REQUEST)
  {
    assert "board_id" !in kwargs && "id" !in kwargs;
  }
}
