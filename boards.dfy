/** The board handlers of backend/src/routes/boards.py: the listing merge, the
    field rules of create and update, and membership maintenance. */
module BoardRoutes {
  import opened Wrappers
  import opened PositionHelpers
  import opened Models
  import opened BoardAccess

  predicate Distinct(xs: seq<int>)
  {
    forall i, j :: 0 <= i < j < |xs| ==> xs[i] != xs[j]
  }

  /** `[x for x in xs if keep(x)]`. */
  function Filter(xs: seq<int>, keep: int -> bool): (r: seq<int>)
    ensures forall x :: x in r <==> x in xs && keep(x)
    ensures Distinct(xs) ==> Distinct(r)
    ensures |r| <= |xs|
  {
    if xs == [] then []
    else
      var rest := Filter(xs[1..], keep);
      assert forall x :: x in xs <==> x == xs[0] || x in xs[1..];
      if keep(xs[0]) then [xs[0]] + rest else rest
  }

  /** `Board.query.filter_by(owner_id=user)`, in the store's row order `order`. */
  function OwnedBoards(boards: map<int, Board>, order: seq<int>, user: int): seq<int>
  {
    Filter(order, b => b in boards && boards[b].ownerId == user)
  }

  /** `[m.board for m in BoardMember.query.filter_by(user_id=user)]`. */
  function MemberBoards(members: seq<Membership>, user: int): (r: seq<int>)
    ensures forall b :: b in r <==> IsMember(members, b, user)
  {
    if members == [] then []
    else
      var rest := MemberBoards(members[1..], user);
      assert forall b :: IsMember(members, b, user) <==> members[0] == Membership(b, user) || IsMember(members[1..], b, user) by {
        forall b ensures IsMember(members, b, user) <==> members[0] == Membership(b, user) || IsMember(members[1..], b, user) {
          if IsMember(members, b, user) {
            var i :| 0 <= i < |members| && members[i] == Membership(b, user);
            if i > 0 {
              assert members[1..][i - 1] == Membership(b, user);
            }
          }
          if IsMember(members[1..], b, user) {
            var i :| 0 <= i < |members[1..]| && members[1..][i] == Membership(b, user);
            assert members[i + 1] == Membership(b, user);
          }
        }
      }
      if members[0].userId == user then [members[0].boardId] + rest else rest
  }

  /** `get_all_boards`: the owned boards, then the member boards that are not owned.
      `order` lists the board table's rows once each, in the order the store
      returns them. */
  function GetAllBoards(boards: map<int, Board>, order: seq<int>, members: seq<Membership>, user: int): (r: seq<int>)
    requires Distinct(order)
    requires forall b :: b in order <==> b in boards
    ensures var owned := OwnedBoards(boards, order, user);
      |owned| <= |r| && r[..|owned|] == owned
    ensures forall b :: b in r <==> (b in boards && boards[b].ownerId == user) || IsMember(members, b, user)
    ensures forall i, j :: 0 <= i < j < |r| && r[i] in boards && boards[r[i]].ownerId == user ==> r[i] != r[j]
  {
    var owned := OwnedBoards(boards, order, user);
    var rest := Filter(MemberBoards(members, user), b => b !in owned);
    var r := owned + rest;
    assert r[..|owned|] == owned;
    forall k | |owned| <= k < |r| ensures r[k] !in owned {
      assert r[k] == rest[k - |owned|];
      assert r[k] in rest;
    }
    r
  }

  /** `create_board`: 400 without a truthy title; otherwise a board owned by the
      user, whose description defaults to `""` when the key is missing. */
  method CreateBoard(db: Db, user: int, title: Option<string>, description: Field<string>)
    returns (status: int, boardId: int)
    requires db.Valid()
    modifies db
    ensures db.Valid()
    ensures status == (if Truthy(title) then CREATED else BAD_REQUEST)
    ensures db.members == old(db.members)
    ensures status == BAD_REQUEST ==> db.boards == old(db.boards)
    ensures status == CREATED ==>
      var desc := if description.Absent? then Some("") else description.Get();
      && boardId !in old(db.boards)
      && db.boards == old(db.boards)[boardId := Board(title.value, desc, user)]
  {
    boardId := 0;
    var desc := if description.Absent? then Some("") else description.Get();
    if !Truthy(title) {
      return BAD_REQUEST, boardId;
    }
    boardId := FreshId(db.boards.Keys);
    db.boards := db.boards[boardId := Board(title.value, desc, user)];
    status := CREATED;
  }

  /** `update_board`: 404 for an unknown board; a title or description replaces the
      stored one only when it is truthy, so an empty string changes nothing. */
  method UpdateBoard(db: Db, boardId: int, title: Option<string>, description: Option<string>)
    returns (status: int)
    requires db.Valid()
    modifies db
    ensures db.Valid()
    ensures status == (if boardId in old(db.boards) then OK else NOT_FOUND)
    ensures db.members == old(db.members) && db.boards.Keys == old(db.boards).Keys
    ensures status == NOT_FOUND ==> db.boards == old(db.boards)
    ensures status == OK ==>
      var b := old(db.boards)[boardId];
      && db.boards[boardId].title == (if Truthy(title) then title.value else b.title)
      && db.boards[boardId].description == (if Truthy(description) then description else b.description)
      && db.boards[boardId].ownerId == b.ownerId
      && forall id :: id in db.boards && id != boardId ==> db.boards[id] == old(db.boards)[id]
  {
    if boardId !in db.boards {
      return NOT_FOUND;
    }
    var board := db.boards[boardId];
    if Truthy(title) {
      board := board.(title := title.value);
    }
    if Truthy(description) {
      board := board.(description := description);
    }
    db.boards := db.boards[boardId := board];
    status := OK;
  }

  /** `get_member_boards`: 403 unless users ask for their own boards; otherwise the
      boards the user is a member of. */
  function GetMemberBoards(members: seq<Membership>, user: int, memberId: int): (r: (int, set<int>))
    ensures r.0 == (if user == memberId then OK else FORBIDDEN)
    ensures r.0 == OK ==> forall b :: b in r.1 <==> IsMember(members, b, memberId)
    ensures r.0 == FORBIDDEN ==> r.1 == {}
  {
    if user != memberId then (FORBIDDEN, {})
    else (OK, set i | 0 <= i < |members| && members[i].userId == memberId :: members[i].boardId)
  }

  // ---------------------------------------------------------------------------
  // add_members and remove_member
  // ---------------------------------------------------------------------------

  /** The membership rows after the loop of `add_members`: each user in turn gets a
      row unless one already links them to the board (rows added earlier in the
      same loop included, since the query flushes them first). */
  function AddAll(members: seq<Membership>, boardId: int, userIds: seq<int>): seq<Membership>
    decreases |userIds|
  {
    if userIds == [] then members
    else
      var next := if IsMember(members, boardId, userIds[0]) then members
                  else members + [Membership(boardId, userIds[0])];
      AddAll(next, boardId, userIds[1..])
  }

  /** After the loop every requested user is a member, nothing was removed, and no
      membership row was duplicated. */
  lemma {:induction false} AddAllFacts(members: seq<Membership>, boardId: int, userIds: seq<int>)
    ensures var r := AddAll(members, boardId, userIds);
      && |members| <= |r| && r[..|members|] == members
      && (forall u :: u in userIds ==> IsMember(r, boardId, u))
      && (forall i :: |members| <= i < |r| ==> r[i].boardId == boardId && r[i].userId in userIds)
      && (forall i :: |members| <= i < |r| ==> !IsMember(r[..i], boardId, r[i].userId))
    decreases |userIds|
  {
    if userIds != [] {
      var u := userIds[0];
      var next := if IsMember(members, boardId, u) then members else members + [Membership(boardId, u)];
      AddAllFacts(next, boardId, userIds[1..]);
      var r := AddAll(next, boardId, userIds[1..]);
      assert r[..|next|] == next;
      assert r[..|members|] == members by {
        assert next[..|members|] == members;
      }
      // Membership in a prefix carries over to the whole sequence.
      assert IsMember(next, boardId, u) by {
        if !IsMember(members, boardId, u) {
          assert next[|members|] == Membership(boardId, u);
        }
      }
      var i :| 0 <= i < |next| && next[i] == Membership(boardId, u);
      assert r[i] == Membership(boardId, u);
      forall v | v in userIds ensures IsMember(r, boardId, v) {
        if v != u {
          assert v in userIds[1..];
        }
      }
      forall k | |members| <= k < |r| ensures !IsMember(r[..k], boardId, r[k].userId) {
        if k == |members| && next != members {
          assert r[..k] == members;
        }
      }
    }
  }

  /** Repeating an `add_members` call adds nothing. */
  lemma {:induction false} AddAllIdempotent(members: seq<Membership>, boardId: int, userIds: seq<int>)
    ensures AddAll(AddAll(members, boardId, userIds), boardId, userIds) == AddAll(members, boardId, userIds)
  {
    AddAllFacts(members, boardId, userIds);
    AddAllOfMembers(AddAll(members, boardId, userIds), boardId, userIds);
  }

  /** Adding users who are all members already changes nothing. */
  lemma {:induction false} AddAllOfMembers(members: seq<Membership>, boardId: int, userIds: seq<int>)
    requires forall u :: u in userIds ==> IsMember(members, boardId, u)
    ensures AddAll(members, boardId, userIds) == members
    decreases |userIds|
  {
    if userIds != [] {
      assert userIds[0] in userIds;
      forall u | u in userIds[1..] ensures IsMember(members, boardId, u) {
        assert u in userIds;
      }
      AddAllOfMembers(members, boardId, userIds[1..]);
    }
  }

  /** `add_members`: 400 for an empty `user_ids`, 404 for an unknown board;
      otherwise a membership row for each listed user who has none yet. */
  method AddMembers(db: Db, boardId: int, userIds: seq<int>) returns (status: int)
    requires db.Valid()
    modifies db
    ensures db.Valid()
    ensures db.boards == old(db.boards)
    ensures status == (if userIds == [] then BAD_REQUEST else if boardId !in db.boards then NOT_FOUND else CREATED)
    ensures status != CREATED ==> db.members == old(db.members)
    ensures status == CREATED ==> db.members == AddAll(old(db.members), boardId, userIds)
  {
    if userIds == [] {
      return BAD_REQUEST;
    }
    if boardId !in db.boards {
      return NOT_FOUND;
    }
    var i := 0;
    while i < |userIds|
      invariant 0 <= i <= |userIds|
      invariant db.boards == old(db.boards)
      invariant db.Valid()
      invariant AddAll(db.members, boardId, userIds[i..]) == AddAll(old(db.members), boardId, userIds)
    {
      var userId := userIds[i];
      assert userIds[i..][1..] == userIds[i + 1..];
      if !IsMember(db.members, boardId, userId) {
        db.members := db.members + [Membership(boardId, userId)];
      }
      i := i + 1;
    }
    status := CREATED;
  }

  /** The index of the first row equal to `m` (`.first()`), if there is one. */
  function FirstIndex(rows: seq<Membership>, m: Membership): (r: Option<nat>)
    ensures r.None? <==> m !in rows
    ensures r.Some? ==> r.value < |rows| && rows[r.value] == m && m !in rows[..r.value]
  {
    if rows == [] then None
    else if rows[0] == m then Some(0)
    else
      var rest := FirstIndex(rows[1..], m);
      if rest.None? then None
      else
        assert rows[..rest.value + 1] == [rows[0]] + rows[1..][..rest.value];
        Some(rest.value + 1)
  }

  /** `remove_member`: 404 when no row links the user to the board; otherwise the
      first such row, and only it, is deleted. */
  method RemoveMember(db: Db, boardId: int, userId: int) returns (status: int)
    requires db.Valid()
    modifies db
    ensures db.Valid()
    ensures db.boards == old(db.boards)
    ensures status == (if Membership(boardId, userId) in old(db.members) then OK else NOT_FOUND)
    ensures status == NOT_FOUND ==> db.members == old(db.members)
    ensures status == OK ==>
      && |db.members| == |old(db.members)| - 1
      && multiset(db.members) + multiset{Membership(boardId, userId)} == multiset(old(db.members))
  {
    var m := Membership(boardId, userId);
    var i := FirstIndex(db.members, m);
    if i.None? {
      return NOT_FOUND;
    }
    var k := i.value;
    assert db.members == db.members[..k] + [m] + db.members[k + 1..];
    db.members := db.members[..k] + db.members[k + 1..];
    status := OK;
  }
}
