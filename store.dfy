/**
 * The room store as values: the room table, its iteration order, and the
 * specification functions the server's handlers are proved against (the room
 * listing, the join outcome, and the cleanup when a connection closes).
 */
module Store {
  import opened Wrappers
  import opened Game
  import opened Protocol

  /** No code occurs twice. */
  predicate Distinct(s: seq<string>)
  {
    forall i, j | 0 <= i < j < |s| :: s[i] != s[j]
  }

  /**
   * The consistency of the store: `order` lists every room code exactly once,
   * in insertion order; each room knows its own code; each board is 8x8.
   */
  ghost predicate StoreInv(order: seq<string>, rooms: map<string, Room>)
  {
    && Distinct(order)
    && (forall k :: k in order <==> k in rooms)
    && (forall k | k in rooms :: rooms[k].code == k && WellFormed(rooms[k].game.board))
  }

  /** Replacing a stored room by one with the same code and an 8x8 board keeps the store consistent. */
  lemma ReplaceKeepsInv(order: seq<string>, rooms: map<string, Room>, code: string, room: Room)
    requires StoreInv(order, rooms) && code in rooms
    requires room.code == code && WellFormed(room.game.board)
    ensures StoreInv(order, rooms[code := room])
  {
    assert forall k :: k in rooms[code := room] <==> k in rooms;
  }

  /** The rooms in iteration order. */
  function RoomsInOrder(order: seq<string>, rooms: map<string, Room>): (rs: seq<Room>)
    requires forall k | k in order :: k in rooms
    ensures |rs| == |order|
    ensures forall i | 0 <= i < |order| :: rs[i] == rooms[order[i]]
  {
    if order == [] then [] else [rooms[order[0]]] + RoomsInOrder(order[1..], rooms)
  }

  /** A room shows up in listings: it is public and nobody holds its black slot. */
  predicate Joinable(room: Room)
    ensures Joinable(room) ==> Summary(room) == RoomSummary(room.code, 1, false)
  {
    !room.isPrivate && room.black == None
  }

  /** The listing entry of a room; the player count is computed from the black slot. */
  function Summary(room: Room): (r: RoomSummary)
    ensures r.code == room.code && r.isPrivate == room.isPrivate
    ensures r.players == 1 <==> room.black == None
    ensures r.players == 2 <==> room.black.Some?
  {
    RoomSummary(room.code, if room.black.Some? then 2 else 1, room.isPrivate)
  }

  /**
   * The rooms a listing reports, in the order given: the joinable ones, each
   * as its summary. Every entry reports one player and a public room.
   */
  function Listing(rs: seq<Room>): (r: seq<RoomSummary>)
    ensures |r| <= |rs|
    ensures forall e | e in r :: e.players == 1 && !e.isPrivate
  {
    if rs == [] then []
    else (if Joinable(rs[0]) then [Summary(rs[0])] else []) + Listing(rs[1..])
  }

  /** Whether some listing entry carries `code`. */
  predicate Listed(listing: seq<RoomSummary>, code: string)
  {
    exists e | e in listing :: e.code == code
  }

  /** A code is listed exactly when some joinable room in the sequence carries it. */
  lemma {:induction false} ListingCodes(rs: seq<Room>, code: string)
    ensures Listed(Listing(rs), code) <==> exists room | room in rs :: Joinable(room) && room.code == code
  {
    if rs != [] {
      var head, tail := rs[0], rs[1..];
      ListingCodes(tail, code);
      var first := if Joinable(head) then [Summary(head)] else [];
      assert Listing(rs) == first + Listing(tail);
      assert Listed(Listing(rs), code) <==> Listed(first, code) || Listed(Listing(tail), code) by {
        assert forall e :: e in Listing(rs) <==> e in first || e in Listing(tail);
      }
      assert rs == [head] + tail;
      assert forall room :: room in rs <==> room == head || room in tail;
      if Listed(first, code) {
        assert Joinable(head) && head.code == code;
      }
    }
  }

  /** A stored room is listed exactly when it is joinable; nothing outside the store is listed. */
  lemma ListedIff(order: seq<string>, rooms: map<string, Room>, code: string)
    requires forall k :: k in order <==> k in rooms
    requires forall k | k in rooms :: rooms[k].code == k
    ensures Listed(Listing(RoomsInOrder(order, rooms)), code) <==> code in rooms && Joinable(rooms[code])
  {
    var rs := RoomsInOrder(order, rooms);
    ListingCodes(rs, code);
    if Listed(Listing(rs), code) {
      var room :| room in rs && Joinable(room) && room.code == code;
      var i :| 0 <= i < |rs| && rs[i] == room;
      assert room == rooms[order[i]] && rooms[order[i]].code == order[i];
    }
    if code in rooms && Joinable(rooms[code]) {
      var i :| 0 <= i < |order| && order[i] == code;
      assert rs[i] == rooms[code] && rs[i] in rs;
    }
  }

  /**
   * The refusal a join request meets, if any: "Room not found" for an unknown
   * code, "Room is full" when the black slot is taken, none otherwise.
   */
  function JoinRefusal(rooms: map<string, Room>, code: string): (r: Option<string>)
    ensures r == Some("Room not found") <==> code !in rooms
    ensures r == Some("Room is full") <==> code in rooms && rooms[code].black.Some?
    ensures r == None <==> code in rooms && rooms[code].black == None
  {
    if code !in rooms || rooms[code].black.Some? then
      Some(if code in rooms then "Room is full" else "Room not found")
    else None
  }

  /**
   * Seating a joiner takes the room out of the listing, whatever it was
   * before, and leaves every other room's listing status as it was.
   */
  lemma JoinedRoomNotListed(order: seq<string>, rooms: map<string, Room>, code: string, joiner: ConnId, other: string)
    requires forall k :: k in order <==> k in rooms
    requires forall k | k in rooms :: rooms[k].code == k
    requires code in rooms && other != code
    ensures !Listed(Listing(RoomsInOrder(order, rooms[code := rooms[code].(black := Some(joiner))])), code)
    ensures Listed(Listing(RoomsInOrder(order, rooms[code := rooms[code].(black := Some(joiner))])), other) <==>
            Listed(Listing(RoomsInOrder(order, rooms)), other)
  {
    var rooms' := rooms[code := rooms[code].(black := Some(joiner))];
    assert forall k :: k in rooms' <==> k in rooms;
    assert forall k | k in rooms' :: rooms'[k].code == k;
    ListedIff(order, rooms', code);
    ListedIff(order, rooms', other);
    ListedIff(order, rooms, other);
  }

  /** A public room just created is listed. */
  lemma CreatedPublicRoomListed(order: seq<string>, rooms: map<string, Room>, code: string, creator: ConnId)
    requires forall k :: k in order <==> k in rooms
    requires forall k | k in rooms :: rooms[k].code == k
    requires code !in rooms
    ensures Listed(Listing(RoomsInOrder(order + [code], rooms[code := NewRoom(code, creator, None)])), code)
  {
    var order', rooms' := order + [code], rooms[code := NewRoom(code, creator, None)];
    assert forall k :: k in order' <==> k in order || k == code;
    assert forall k | k in rooms' :: rooms'[k].code == k;
    ListedIff(order', rooms', code);
  }

  /** Whether a room has `c` in either slot. */
  predicate References(room: Room, c: ConnId)
  {
    room.white == c || room.black == Some(c)
  }

  /**
   * The slot told about `c` closing: when `c` is white, the black slot (which
   * may be empty); otherwise, when `c` is black, the white slot.
   */
  function Partner(room: Room, c: ConnId): (p: Option<ConnId>)
    ensures p.Some? ==> References(room, c)
    ensures !References(room, c) ==> p == None
  {
    if room.white == c then room.black
    else if room.black == Some(c) then Some(room.white)
    else None
  }

  /** Whether the room stored under `k` references `c`. */
  predicate ReferencedAt(rooms: map<string, Room>, k: string, c: ConnId)
  {
    k in rooms && References(rooms[k], c)
  }

  /** The slot of the room under `k` that is told about `c` closing, if any. */
  function PartnerAt(rooms: map<string, Room>, k: string, c: ConnId): Option<ConnId>
  {
    if k in rooms then Partner(rooms[k], c) else None
  }

  /** The codes, in order, of the rooms that survive `c` closing. */
  function Survivors(codes: seq<string>, rooms: map<string, Room>, c: ConnId): (r: seq<string>)
    ensures |r| <= |codes|
    decreases |codes|
  {
    if codes == [] then []
    else
      var prefix, last := codes[..|codes| - 1], codes[|codes| - 1];
      Survivors(prefix, rooms, c) + (if ReferencedAt(rooms, last, c) then [] else [last])
  }

  /** The survivors are exactly the scanned codes whose rooms do not reference `c`, each once. */
  lemma {:induction false} SurvivorsSpec(codes: seq<string>, rooms: map<string, Room>, c: ConnId)
    ensures forall k :: k in Survivors(codes, rooms, c) <==> k in codes && !ReferencedAt(rooms, k, c)
    ensures Distinct(codes) ==> Distinct(Survivors(codes, rooms, c))
    decreases |codes|
  {
    if codes != [] {
      var prefix, last := codes[..|codes| - 1], codes[|codes| - 1];
      SurvivorsSpec(prefix, rooms, c);
      assert codes == prefix + [last];
      assert forall k :: k in codes <==> k in prefix || k == last;
      if Distinct(codes) {
        assert last !in prefix && Distinct(prefix);
      }
    }
  }

  /** The room table after `c` closes: the rooms that do not reference `c`, unchanged. */
  function Unreferencing(rooms: map<string, Room>, c: ConnId): (r: map<string, Room>)
    ensures forall k :: k in r <==> k in rooms && !References(rooms[k], c)
    ensures forall k | k in r :: r[k] == rooms[k]
  {
    map k | k in rooms && !References(rooms[k], c) :: rooms[k]
  }

  /** Cleanup keeps the store consistent. */
  lemma DisconnectKeepsInv(order: seq<string>, rooms: map<string, Room>, c: ConnId)
    requires StoreInv(order, rooms)
    ensures StoreInv(Survivors(order, rooms, c), Unreferencing(rooms, c))
  {
    SurvivorsSpec(order, rooms, c);
  }

  /** The notices `c` closing sends, room by room in iteration order. */
  function DisconnectNotices(codes: seq<string>, rooms: map<string, Room>, c: ConnId, open: set<ConnId>): (r: seq<Envelope>)
    ensures |r| <= |codes|
    decreases |codes|
  {
    if codes == [] then []
    else
      var prefix, last := codes[..|codes| - 1], codes[|codes| - 1];
      DisconnectNotices(prefix, rooms, c, open) + Notice(PartnerAt(rooms, last, c), open, OpponentDisconnected)
  }

  /** At most one notice per room, each an opponent_disconnected to an open connection. */
  lemma {:induction false} NoticesSpec(codes: seq<string>, rooms: map<string, Room>, c: ConnId, open: set<ConnId>)
    ensures |DisconnectNotices(codes, rooms, c, open)| <= |codes|
    ensures forall e | e in DisconnectNotices(codes, rooms, c, open) ::
              e.message == OpponentDisconnected && e.recipient in open
    decreases |codes|
  {
    if codes != [] {
      NoticesSpec(codes[..|codes| - 1], rooms, c, open);
    }
  }

  /** The codes among `codes` whose rooms reference `c`. */
  function Evictions(codes: seq<string>, rooms: map<string, Room>, c: ConnId): set<string>
  {
    set k | k in codes && ReferencedAt(rooms, k, c)
  }

  lemma RemoveOneMore(m: map<string, Room>, s: set<string>, k: string)
    ensures (m - s) - {k} == m - (s + {k})
  {
  }

  /**
   * One step of the cleanup scan, which walks a snapshot of the codes while
   * deleting from the live order: the live order is the survivors of the
   * scanned prefix followed by the unscanned rest, and the current code sits
   * at position `kept`; deleting it there, or keeping it, restores that shape
   * one code further on.
   */
  lemma ScanOrderStep(codes: seq<string>, rooms: map<string, Room>, c: ConnId,
                      order: seq<string>, i: nat, kept: nat)
    requires i < |codes|
    requires order == Survivors(codes[..i], rooms, c) + codes[i..]
    requires kept == |Survivors(codes[..i], rooms, c)|
    ensures kept < |order| && order[kept] == codes[i]
    ensures ReferencedAt(rooms, codes[i], c) ==>
              && order[..kept] + order[kept + 1..] == Survivors(codes[..i + 1], rooms, c) + codes[i + 1..]
              && kept == |Survivors(codes[..i + 1], rooms, c)|
    ensures !ReferencedAt(rooms, codes[i], c) ==>
              && order == Survivors(codes[..i + 1], rooms, c) + codes[i + 1..]
              && kept + 1 == |Survivors(codes[..i + 1], rooms, c)|
  {
    var code, prefix := codes[i], codes[..i];
    assert codes[..i + 1][..i] == prefix && codes[..i + 1][i] == code;
    assert codes[i..] == [code] + codes[i + 1..];
    assert Survivors(codes[..i + 1], rooms, c)
        == Survivors(prefix, rooms, c) + (if ReferencedAt(rooms, code, c) then [] else [code]);
    if ReferencedAt(rooms, code, c) {
      assert order[..kept] == Survivors(prefix, rooms, c);
      assert order[kept + 1..] == codes[i + 1..];
    }
  }

  /** One step of the cleanup scan adds the current code to the evictions exactly when its room references `c`. */
  lemma ScanEvictionStep(codes: seq<string>, rooms: map<string, Room>, c: ConnId, i: nat)
    requires i < |codes|
    ensures Evictions(codes[..i + 1], rooms, c) ==
            Evictions(codes[..i], rooms, c) + (if ReferencedAt(rooms, codes[i], c) then {codes[i]} else {})
  {
    assert forall k :: k in codes[..i + 1] <==> k in codes[..i] || k == codes[i];
  }

  /** One step of the cleanup scan adds the current room's notice, if any, to the notices. */
  lemma ScanNoticeStep(codes: seq<string>, rooms: map<string, Room>, c: ConnId, open: set<ConnId>, i: nat)
    requires i < |codes|
    ensures DisconnectNotices(codes[..i + 1], rooms, c, open) ==
            DisconnectNotices(codes[..i], rooms, c, open) + Notice(PartnerAt(rooms, codes[i], c), open, OpponentDisconnected)
  {
    assert codes[..i + 1][..i] == codes[..i];
  }

  /**
   * One whole step of the cleanup scan, for a code whose room is stored: the
   * live order, the evictions and the notices each advance by the current room.
   */
  lemma ScanStep(codes: seq<string>, rooms: map<string, Room>, c: ConnId, open: set<ConnId>,
                 order: seq<string>, i: nat, kept: nat)
    requires i < |codes| && codes[i] in rooms
    requires order == Survivors(codes[..i], rooms, c) + codes[i..]
    requires kept == |Survivors(codes[..i], rooms, c)|
    ensures kept < |order| && order[kept] == codes[i]
    ensures References(rooms[codes[i]], c) ==>
              && order[..kept] + order[kept + 1..] == Survivors(codes[..i + 1], rooms, c) + codes[i + 1..]
              && kept == |Survivors(codes[..i + 1], rooms, c)|
              && Evictions(codes[..i + 1], rooms, c) == Evictions(codes[..i], rooms, c) + {codes[i]}
    ensures !References(rooms[codes[i]], c) ==>
              && order == Survivors(codes[..i + 1], rooms, c) + codes[i + 1..]
              && kept + 1 == |Survivors(codes[..i + 1], rooms, c)|
              && Evictions(codes[..i + 1], rooms, c) == Evictions(codes[..i], rooms, c)
    ensures DisconnectNotices(codes[..i + 1], rooms, c, open) ==
            DisconnectNotices(codes[..i], rooms, c, open) + Notice(Partner(rooms[codes[i]], c), open, OpponentDisconnected)
  {
    ScanOrderStep(codes, rooms, c, order, i, kept);
    ScanEvictionStep(codes, rooms, c, i);
    ScanNoticeStep(codes, rooms, c, open, i);
  }

  /** Once every code has been scanned, the evictions are exactly the rooms that reference `c`. */
  lemma ScanComplete(codes: seq<string>, rooms: map<string, Room>, c: ConnId)
    requires forall k :: k in codes <==> k in rooms
    ensures rooms - Evictions(codes, rooms, c) == Unreferencing(rooms, c)
  {
  }

  /**
   * The scan a closing connection triggers, over the table's entries in
   * iteration order: each entry holding `c` in either slot is deleted and the
   * other slot told, white checked first. Every entry is visited as it stood
   * when the scan began, since only the visited entry is ever deleted.
   */
  method EvictConnection(order0: seq<string>, rooms0: map<string, Room>, c: ConnId, open: set<ConnId>)
    returns (order: seq<string>, rooms: map<string, Room>, sent: seq<Envelope>)
    requires forall k :: k in order0 <==> k in rooms0
    ensures order == Survivors(order0, rooms0, c)
    ensures rooms == Unreferencing(rooms0, c)
    ensures sent == DisconnectNotices(order0, rooms0, c, open)
  {
    var codes := order0;
    order, rooms, sent := order0, rooms0, [];
    ghost var gone: set<string> := {};
    var i, kept := 0, 0;
    while i < |codes|
      invariant 0 <= i <= |codes|
      invariant kept == |Survivors(codes[..i], rooms0, c)|
      invariant order == Survivors(codes[..i], rooms0, c) + codes[i..]
      invariant gone == Evictions(codes[..i], rooms0, c)
      invariant rooms == rooms0 - gone
      invariant sent == DisconnectNotices(codes[..i], rooms0, c, open)
    {
      var code := codes[i];
      assert code in rooms0;
      ScanStep(codes, rooms0, c, open, order, i, kept);
      var room := rooms0[code];
      if room.white == c {
        sent := sent + Notice(room.black, open, OpponentDisconnected);
        RemoveOneMore(rooms0, gone, code);
        rooms, gone := rooms - {code}, gone + {code};
        order := order[..kept] + order[kept + 1..];
      } else if room.black == Some(c) {
        sent := sent + Notice(Some(room.white), open, OpponentDisconnected);
        RemoveOneMore(rooms0, gone, code);
        rooms, gone := rooms - {code}, gone + {code};
        order := order[..kept] + order[kept + 1..];
      } else {
        kept := kept + 1;
      }
      i := i + 1;
    }
    assert codes[..i] == codes;
    ScanComplete(codes, rooms0, c);
  }

  /** Every notice goes to the partner of `c` in some room that references `c`. */
  lemma {:induction false} NoticesGoToPartners(codes: seq<string>, rooms: map<string, Room>, c: ConnId, open: set<ConnId>, e: Envelope)
    requires forall k | k in codes :: k in rooms
    requires e in DisconnectNotices(codes, rooms, c, open)
    ensures exists k | k in codes :: References(rooms[k], c) && Partner(rooms[k], c) == Some(e.recipient)
    decreases |codes|
  {
    var prefix, last := codes[..|codes| - 1], codes[|codes| - 1];
    assert forall k | k in prefix :: k in codes;
    if e in DisconnectNotices(prefix, rooms, c, open) {
      NoticesGoToPartners(prefix, rooms, c, open, e);
    } else {
      assert e in Notice(Partner(rooms[last], c), open, OpponentDisconnected);
    }
  }

  /** When no room references `c`, closing it sends nothing. */
  lemma {:induction false} NoReferenceNoNotice(codes: seq<string>, rooms: map<string, Room>, c: ConnId, open: set<ConnId>)
    requires forall k | k in codes :: k in rooms && !References(rooms[k], c)
    ensures DisconnectNotices(codes, rooms, c, open) == []
    decreases |codes|
  {
    if codes != [] {
      var prefix := codes[..|codes| - 1];
      assert forall k | k in prefix :: k in codes;
      NoReferenceNoNotice(prefix, rooms, c, open);
    }
  }

  /**
   * When exactly one room references `c`, closing `c` sends that room's
   * partner exactly one notice if it is present and open, and nothing else.
   */
  lemma {:induction false} NoticesOfOneRoom(codes: seq<string>, rooms: map<string, Room>, c: ConnId, open: set<ConnId>, code: string)
    requires forall k | k in codes :: k in rooms
    requires Distinct(codes) && code in codes
    requires forall k | k in codes && k != code :: !References(rooms[k], c)
    ensures DisconnectNotices(codes, rooms, c, open) == Notice(Partner(rooms[code], c), open, OpponentDisconnected)
    decreases |codes|
  {
    var prefix, last := codes[..|codes| - 1], codes[|codes| - 1];
    assert forall k :: k in codes <==> k in prefix || k == last;
    assert Distinct(prefix);
    if last == code {
      assert code !in prefix;
      NoReferenceNoNotice(prefix, rooms, c, open);
    } else {
      NoticesOfOneRoom(prefix, rooms, c, open, code);
      assert Partner(rooms[last], c) == None;
    }
  }
}
