/** The list handlers of backend/src/routes/lists.py, reduced to their guards and
    their effect on the list and card tables. */
module ListRoutes {
  import opened Wrappers
  import opened PositionHelpers
  import opened Models
  import opened Density

  /** The JSON body of `PUT /lists/<id>`. */
  datatype ListUpdate = ListUpdate(title: Option<string>, boardId: Field<int>, position: Option<int>)

  /** `create_list`: 400 without a truthy title or a board id, 404 for an unknown
      board; otherwise the board's lists are shifted once at the validated position
      and the new list is stored there. */
  method CreateList(db: Db, title: Option<string>, boardId: Option<int>, position: Option<int>)
    returns (status: int, listId: int)
    requires db.Valid()
    modifies db.lists
    ensures db.Valid()
    ensures status == BAD_REQUEST <==> !Truthy(title) || boardId.None?
    ensures status == NOT_FOUND <==> Truthy(title) && boardId.Some? && boardId.value !in db.boards
    ensures status == BAD_REQUEST || status == NOT_FOUND || status == CREATED
    ensures status != CREATED ==> db.lists.rows == old(db.lists.rows)
    ensures status == CREATED ==>
      var p := ValidatePosition(old(db.lists.rows), boardId.value, position);
      && listId !in old(db.lists.rows)
      && db.lists.rows == Inserted(old(db.lists.rows), boardId.value, p)[listId := Row(boardId.value, p, ListInfo(title.value))]
  {
    listId := 0;
    if !Truthy(title) || boardId.None? {
      return BAD_REQUEST, listId;
    }
    if boardId.value !in db.boards {
      return NOT_FOUND, listId;
    }
    var p := ValidatePosition(db.lists.rows, boardId.value, position);
    ghost var before := db.lists.rows;
    ValidatedNonNegative(before, boardId.value, position);
    db.lists.AdjustPositionsOnInsert(boardId.value, p);
    listId := db.lists.Add(Row(boardId.value, p, ListInfo(title.value)));
    InsertKeepsWellPlaced(before, boardId.value, p, listId, ListInfo(title.value));
    status := CREATED;
  }

  /** `update_list`: 404 for an unknown list or an unknown (or null) new board, in
      which case nothing is committed. Otherwise a present title is assigned, and
      the list moves only when its board changes or a position other than its
      current one is supplied; a board change without a position appends. */
  method UpdateList(db: Db, listId: int, req: ListUpdate) returns (status: int)
    requires db.Valid()
    modifies db.lists
    ensures db.Valid()
    ensures status == OK || status == NOT_FOUND
    ensures status == NOT_FOUND <==>
      listId !in old(db.lists.rows) || (req.boardId.Present() && (req.boardId.Null? || req.boardId.value !in db.boards))
    ensures status == NOT_FOUND ==> db.lists.rows == old(db.lists.rows)
    ensures status == OK ==>
      var list := old(db.lists.rows)[listId];
      var target := if req.boardId.Given? then req.boardId.value else list.parent;
      var moves := target != list.parent || (req.position.Some? && req.position.value != list.position);
      var p := ValidatePosition(old(db.lists.rows), target, req.position);
      var r := if moves then Relocated(old(db.lists.rows), listId, target, p) else old(db.lists.rows);
      db.lists.rows == r[listId := r[listId].(data := ListInfo(req.title.GetOr(list.data.title)))]
  {
    if listId !in db.lists.rows {
      return NOT_FOUND;
    }
    var list := db.lists.rows[listId];
    var oldBoard, oldPosition := list.parent, list.position;
    var info := ListInfo(req.title.GetOr(list.data.title));
    var newBoard := if req.boardId.Given? then req.boardId.value else oldBoard;
    if req.boardId.Present() && (req.boardId.Null? || req.boardId.value !in db.boards) {
      return NOT_FOUND;
    }
    if newBoard != oldBoard || (req.position.Some? && req.position.value != oldPosition) {
      var newPosition := ValidatePosition(db.lists.rows, newBoard, req.position);
      ValidatedNonNegative(db.lists.rows, newBoard, req.position);
      RelocateKeepsWellPlaced(db.lists.rows, listId, newBoard, newPosition);
      RelocateKeepsParentsIn(db.lists.rows, listId, newBoard, newPosition, db.boards.Keys);
      db.lists.Relocate(listId, newBoard, newPosition);
    }
    RetaggedKeepsWellPlaced(db.lists.rows, listId, info);
    db.lists.rows := db.lists.rows[listId := db.lists.rows[listId].(data := info)];
    status := OK;
  }

  /** `delete_list`: 404 for an unknown list; otherwise the list and, by the
      cascade, all its cards are removed, and the board's remaining lists are
      compacted behind the list's former position. */
  method DeleteList(db: Db, listId: int) returns (status: int)
    requires db.Valid()
    modifies db.lists, db.cards
    ensures db.Valid()
    ensures status == (if listId in old(db.lists.rows) then OK else NOT_FOUND)
    ensures status == NOT_FOUND ==> db.lists.rows == old(db.lists.rows) && db.cards.rows == old(db.cards.rows)
    ensures status == OK ==>
      var list := old(db.lists.rows)[listId];
      && db.lists.rows == Compacted(old(db.lists.rows) - {listId}, list.parent, list.position)
      && db.cards.rows.Keys == old(db.cards.rows).Keys - Siblings(old(db.cards.rows), listId)
      && forall id :: id in db.cards.rows ==> db.cards.rows[id] == old(db.cards.rows)[id]
  {
    if listId !in db.lists.rows {
      return NOT_FOUND;
    }
    var boardId := db.lists.rows[listId].parent;
    var position := db.lists.rows[listId].position;
    db.cards.DeleteChildren(listId);
    db.lists.Delete(listId);
    db.lists.CompactPositionsOnDelete(boardId, position);
    status := OK;
  }

  /** `add_card_to_list` (`POST /lists/<id>/cards`): 404 for an unknown list, then
      400 without a truthy title; otherwise the list's cards are shifted once at
      the validated position and the new card is stored there. */
  method AddCardToList(db: Db, listId: int, title: Option<string>, description: Option<string>,
                       position: Option<int>, dueDate: Option<string>)
    returns (status: int, cardId: int)
    requires db.Valid()
    modifies db.cards
    ensures db.Valid()
    ensures status == NOT_FOUND <==> listId !in db.lists.rows
    ensures status == BAD_REQUEST <==> listId in db.lists.rows && !Truthy(title)
    ensures status == BAD_REQUEST || status == NOT_FOUND || status == CREATED
    ensures status != CREATED ==> db.cards.rows == old(db.cards.rows)
    ensures status == CREATED ==>
      var p := ValidatePosition(old(db.cards.rows), listId, position);
      && cardId !in old(db.cards.rows)
      && db.cards.rows == Inserted(old(db.cards.rows), listId, p)
                            [cardId := Row(listId, p, CardInfo(title.value, description, dueDate, false))]
  {
    cardId := 0;
    if listId !in db.lists.rows {
      return NOT_FOUND, cardId;
    }
    if !Truthy(title) {
      return BAD_REQUEST, cardId;
    }
    var p := ValidatePosition(db.cards.rows, listId, position);
    ghost var before := db.cards.rows;
    ValidatedNonNegative(before, listId, position);
    db.cards.AdjustPositionsOnInsert(listId, p);
    cardId := db.cards.Add(Row(listId, p, CardInfo(title.value, description, dueDate, false)));
    InsertKeepsWellPlaced(before, listId, p, cardId, CardInfo(title.value, description, dueDate, false));
    status := CREATED;
  }

  /** `move_list`: 404 for an unknown list, 400 when neither a board nor a
      position is given, 404 for an unknown target board. A missing board means
      the current one; the list moves only when (board, position) differs from
      where it is. Its cards stay attached to it. */
  method MoveList(db: Db, listId: int, boardId: Option<int>, position: Option<int>) returns (status: int)
    requires db.Valid()
    modifies db.lists
    ensures db.Valid()
    ensures status == OK || status == BAD_REQUEST || status == NOT_FOUND
    ensures status == NOT_FOUND <==>
      listId !in old(db.lists.rows) || (boardId.Some? && boardId.value !in db.boards)
    ensures status == BAD_REQUEST <==> listId in old(db.lists.rows) && boardId.None? && position.None?
    ensures status != OK ==> db.lists.rows == old(db.lists.rows)
    ensures status == OK ==>
      var list := old(db.lists.rows)[listId];
      var target := boardId.GetOr(list.parent);
      var p := ValidatePosition(old(db.lists.rows), target, position);
      db.lists.rows == if target != list.parent || p != list.position
                       then Relocated(old(db.lists.rows), listId, target, p)
                       else old(db.lists.rows)
  {
    if listId !in db.lists.rows {
      return NOT_FOUND;
    }
    if boardId.None? && position.None? {
      return BAD_REQUEST;
    }
    var oldBoard, oldPosition := db.lists.rows[listId].parent, db.lists.rows[listId].position;
    var newBoard;
    if boardId.None? {
      newBoard := oldBoard;
    } else {
      if boardId.value !in db.boards {
        return NOT_FOUND;
      }
      newBoard := boardId.value;
    }
    var newPosition := ValidatePosition(db.lists.rows, newBoard, position);
    if newBoard != oldBoard || newPosition != oldPosition {
      ValidatedNonNegative(db.lists.rows, newBoard, position);
      RelocateKeepsWellPlaced(db.lists.rows, listId, newBoard, newPosition);
      RelocateKeepsParentsIn(db.lists.rows, listId, newBoard, newPosition, db.boards.Keys);
      db.lists.Relocate(listId, newBoard, newPosition);
    }
    status := OK;
  }
}
