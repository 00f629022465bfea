/** The stored records the handlers read and write (backend/src/models/), reduced
    to the columns the modelled logic uses, and the HTTP status codes they return. */
module Models {
  import opened Wrappers
  import opened PositionHelpers

  const OK: int := 200
  const CREATED: int := 201
  const BAD_REQUEST: int := 400
  const UNAUTHORIZED: int := 401
  const FORBIDDEN: int := 403
  const NOT_FOUND: int := 404
  const CONFLICT: int := 409

  /** The `Card` columns besides `list_id` and `position`. */
  datatype CardInfo = CardInfo(title: string, description: Option<string>, dueDate: Option<string>, archived: bool)

  /** The `List` columns besides `board_id` and `position`. */
  datatype ListInfo = ListInfo(title: string)

  /** A `Board` row. */
  datatype Board = Board(title: string, description: Option<string>, ownerId: int)

  /** A `BoardMember` row. */
  datatype Membership = Membership(boardId: int, userId: int)

  /** The database the handlers share: cards keyed by id with `list_id` as parent,
      lists keyed by id with `board_id` as parent, boards keyed by id, and the
      membership rows in storage order. */
  class Db {
    const cards: Table<CardInfo>
    const lists: Table<ListInfo>
    var boards: map<int, Board>
    var members: seq<Membership>

    constructor ()
      ensures fresh(cards) && fresh(lists)
      ensures cards.rows == map[] && lists.rows == map[]
      ensures boards == map[] && members == []
      ensures Valid()
    {
      cards := new Table();
      lists := new Table();
      boards := map[];
      members := [];
    }

    /** Referential integrity (every card's list, every list's board and every
        membership's board exists), and in both tables no negative position and
        no two siblings at the same position. */
    ghost predicate Valid()
      reads this, cards, lists
    {
      && WellPlaced(cards.rows)
      && WellPlaced(lists.rows)
      && (forall id :: id in cards.rows ==> cards.rows[id].parent in lists.rows)
      && (forall id :: id in lists.rows ==> lists.rows[id].parent in boards)
      && (forall i :: 0 <= i < |members| ==> members[i].boardId in boards)
    }
  }
}
