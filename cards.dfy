/** The card handlers of backend/src/routes/cards.py, reduced to their guards and
    their effect on the card table. The request body arrives as parameters; the
    returned integer is the HTTP status. */
module CardRoutes {
  import opened Wrappers
  import opened PositionHelpers
  import opened Models
  import opened Density

  /** The JSON body of `PUT /cards/<id>`: `title` and `archived` are present or
      not, `description`, `due_date` and `list_id` may also be `null`, and
      `position` is read with `data.get`. */
  datatype CardUpdate = CardUpdate(
    title: Option<string>,
    description: Field<string>,
    dueDate: Field<string>,
    archived: Option<bool>,
    listId: Field<int>,
    position: Option<int>)

  /** The card's own columns after `update_card` assigns each key that is present. */
  function UpdatedInfo(info: CardInfo, req: CardUpdate): (r: CardInfo)
    ensures req.title.None? ==> r.title == info.title
    ensures req.description.Absent? ==> r.description == info.description
    ensures req.dueDate.Absent? ==> r.dueDate == info.dueDate
    ensures req.archived.None? ==> r.archived == info.archived
    ensures req.title.Some? ==> r.title == req.title.value
    ensures req.description.Given? ==> r.description == Some(req.description.value)
    ensures req.description.Null? ==> r.description == None
    ensures req.dueDate.Given? ==> r.dueDate == Some(req.dueDate.value)
    ensures req.dueDate.Null? ==> r.dueDate == None
    ensures req.archived.Some? ==> r.archived == req.archived.value
  {
    CardInfo(
      req.title.GetOr(info.title),
      if req.description.Present() then req.description.Get() else info.description,
      if req.dueDate.Present() then req.dueDate.Get() else info.dueDate,
      req.archived.GetOr(info.archived))
  }

  /** `create_card`: 400 without a truthy title or a list id, 404 for an unknown
      list; otherwise the position is validated, the list's cards are shifted
      once at it, and the new card is stored there. */
  method CreateCard(db: Db, title: Option<string>, description: Option<string>, listId: Option<int>,
                    position: Option<int>, dueDate: Option<string>)
    returns (status: int, cardId: int)
    requires db.Valid()
    modifies db.cards
    ensures db.Valid()
    ensures status == BAD_REQUEST <==> !Truthy(title) || listId.None?
    ensures status == NOT_FOUND <==> Truthy(title) && listId.Some? && listId.value !in db.lists.rows
    ensures status == BAD_REQUEST || status == NOT_FOUND || status == CREATED
    ensures status != CREATED ==> db.cards.rows == old(db.cards.rows)
    ensures status == CREATED ==>
      var p := ValidatePosition(old(db.cards.rows), listId.value, position);
      && cardId !in old(db.cards.rows)
      && db.cards.rows == Inserted(old(db.cards.rows), listId.value, p)
                            [cardId := Row(listId.value, p, CardInfo(title.value, description, dueDate, false))]
  {
    cardId := 0;
    if !Truthy(title) || listId.None? {
      return BAD_REQUEST, cardId;
    }
    if listId.value !in db.lists.rows {
      return NOT_FOUND, cardId;
    }
    var p := ValidatePosition(db.cards.rows, listId.value, position);
    ghost var before := db.cards.rows;
    ValidatedNonNegative(before, listId.value, position);
    db.cards.AdjustPositionsOnInsert(listId.value, p);
    cardId := db.cards.Add(Row(listId.value, p, CardInfo(title.value, description, dueDate, false)));
    InsertKeepsWellPlaced(before, listId.value, p, cardId, CardInfo(title.value, description, dueDate, false));
    status := CREATED;
  }

  /** `update_card`: 404 for an unknown card or an unknown (or null) new list, in
      which case nothing is committed. Otherwise the present keys are assigned, and
      the card is moved only when its list changes or a position other than its
      current one is supplied; a list change without a position appends. */
  method UpdateCard(db: Db, cardId: int, req: CardUpdate) returns (status: int)
    requires db.Valid()
    modifies db.cards
    ensures db.Valid()
    ensures status == OK || status == NOT_FOUND
    ensures status == NOT_FOUND <==>
      cardId !in old(db.cards.rows) || (req.listId.Present() && (req.listId.Null? || req.listId.value !in db.lists.rows))
    ensures status == NOT_FOUND ==> db.cards.rows == old(db.cards.rows)
    ensures status == OK ==>
      var card := old(db.cards.rows)[cardId];
      var target := if req.listId.Given? then req.listId.value else card.parent;
      var moves := target != card.parent || (req.position.Some? && req.position.value != card.position);
      var p := ValidatePosition(old(db.cards.rows), target, req.position);
      var r := if moves then Relocated(old(db.cards.rows), cardId, target, p) else old(db.cards.rows);
      db.cards.rows == r[cardId := r[cardId].(data := UpdatedInfo(card.data, req))]
  {
    if cardId !in db.cards.rows {
      return NOT_FOUND;
    }
    var card := db.cards.rows[cardId];
    var oldList, oldPosition := card.parent, card.position;
    var info := UpdatedInfo(card.data, req);
    var newList := if req.listId.Given? then req.listId.value else oldList;
    if req.listId.Present() && (req.listId.Null? || req.listId.value !in db.lists.rows) {
      return NOT_FOUND;
    }
    if newList != oldList || (req.position.Some? && req.position.value != oldPosition) {
      // Both branches of the source call validate_position with the supplied value.
      var newPosition := ValidatePosition(db.cards.rows, newList, req.position);
      ValidatedNonNegative(db.cards.rows, newList, req.position);
      RelocateKeepsWellPlaced(db.cards.rows, cardId, newList, newPosition);
      RelocateKeepsParentsIn(db.cards.rows, cardId, newList, newPosition, db.lists.rows.Keys);
      db.cards.Relocate(cardId, newList, newPosition);
    }
    RetaggedKeepsWellPlaced(db.cards.rows, cardId, info);
    db.cards.rows := db.cards.rows[cardId := db.cards.rows[cardId].(data := info)];
    status := OK;
  }

  /** `delete_card`: 404 for an unknown card; otherwise the card is removed and
      its former list is compacted behind its former position. */
  method DeleteCard(db: Db, cardId: int) returns (status: int)
    requires db.Valid()
    modifies db.cards
    ensures db.Valid()
    ensures status == (if cardId in old(db.cards.rows) then OK else NOT_FOUND)
    ensures status == NOT_FOUND ==> db.cards.rows == old(db.cards.rows)
    ensures status == OK ==>
      var card := old(db.cards.rows)[cardId];
      db.cards.rows == Compacted(old(db.cards.rows) - {cardId}, card.parent, card.position)
  {
    if cardId !in db.cards.rows {
      return NOT_FOUND;
    }
    var listId := db.cards.rows[cardId].parent;
    var position := db.cards.rows[cardId].position;
    db.cards.Delete(cardId);
    db.cards.CompactPositionsOnDelete(listId, position);
    status := OK;
  }

  /** `archive_card`: only the `archived` flag changes; the card keeps its list
      and its slot. */
  method ArchiveCard(db: Db, cardId: int) returns (status: int)
    requires db.Valid()
    modifies db.cards
    ensures db.Valid()
    ensures status == (if cardId in old(db.cards.rows) then OK else NOT_FOUND)
    ensures status == NOT_FOUND ==> db.cards.rows == old(db.cards.rows)
    ensures status == OK ==>
      var card := old(db.cards.rows)[cardId];
      db.cards.rows == old(db.cards.rows)[cardId := card.(data := card.data.(archived := true))]
  {
    if cardId !in db.cards.rows {
      return NOT_FOUND;
    }
    var card := db.cards.rows[cardId];
    db.cards.rows := db.cards.rows[cardId := card.(data := card.data.(archived := true))];
    status := OK;
  }

  /** `unarchive_card`: only the `archived` flag changes. */
  method UnarchiveCard(db: Db, cardId: int) returns (status: int)
    requires db.Valid()
    modifies db.cards
    ensures db.Valid()
    ensures status == (if cardId in old(db.cards.rows) then OK else NOT_FOUND)
    ensures status == NOT_FOUND ==> db.cards.rows == old(db.cards.rows)
    ensures status == OK ==>
      var card := old(db.cards.rows)[cardId];
      db.cards.rows == old(db.cards.rows)[cardId := card.(data := card.data.(archived := false))]
  {
    if cardId !in db.cards.rows {
      return NOT_FOUND;
    }
    var card := db.cards.rows[cardId];
    db.cards.rows := db.cards.rows[cardId := card.(data := card.data.(archived := false))];
    status := OK;
  }

  /** `move_card`: 404 for an unknown card, 400 when neither a list nor a position
      is given, 404 for an unknown target list. A missing list means the current
      one; the position is validated against the target list, and the card moves
      only when (list, position) differs from where it is. */
  method MoveCard(db: Db, cardId: int, listId: Option<int>, position: Option<int>) returns (status: int)
    requires db.Valid()
    modifies db.cards
    ensures db.Valid()
    ensures status == OK || status == BAD_REQUEST || status == NOT_FOUND
    ensures status == NOT_FOUND <==>
      cardId !in old(db.cards.rows) || (listId.Some? && listId.value !in db.lists.rows)
    ensures status == BAD_REQUEST <==> cardId in old(db.cards.rows) && listId.None? && position.None?
    ensures status != OK ==> db.cards.rows == old(db.cards.rows)
    ensures status == OK ==>
      var card := old(db.cards.rows)[cardId];
      var target := listId.GetOr(card.parent);
      var p := ValidatePosition(old(db.cards.rows), target, position);
      db.cards.rows == if target != card.parent || p != card.position
                       then Relocated(old(db.cards.rows), cardId, target, p)
                       else old(db.cards.rows)
  {
    if cardId !in db.cards.rows {
      return NOT_FOUND;
    }
    if listId.None? && position.None? {
      return BAD_REQUEST;
    }
    var oldList, oldPosition := db.cards.rows[cardId].parent, db.cards.rows[cardId].position;
    var newList;
    if listId.None? {
      newList := oldList;
    } else {
      if listId.value !in db.lists.rows {
        return NOT_FOUND;
      }
      newList := listId.value;
    }
    var newPosition := ValidatePosition(db.cards.rows, newList, position);
    if newList != oldList || newPosition != oldPosition {
      ValidatedNonNegative(db.cards.rows, newList, position);
      RelocateKeepsWellPlaced(db.cards.rows, cardId, newList, newPosition);
      RelocateKeepsParentsIn(db.cards.rows, cardId, newList, newPosition, db.lists.rows.Keys);
      db.cards.Relocate(cardId, newList, newPosition);
    }
    status := OK;
  }
}
