/** The relay's rooms and peers (relay-server/main.go createRoom to cleanupExpiredRooms). What a call does to
    the rooms it does under one hold of the hub's mutex. Creating and joining hold it once more before that,
    for the limiter; here the two are one step with one clock reading. Rooms and peers are objects: a room
    that lost its registration lives on in its peers. */
module RelayHub {
  import opened RateLimiter

  const MAX_CODE_ATTEMPTS: nat := 100
  const ROOM_CODE_ALPHABET: string := "23456789ABCDEFGHJKLMNPQRSTUVWXYZ"

  datatype ServerMessage =
    | RoomCreated(room: string, peer: string)
    | JoinOk(room: string, peer: string)
    | JoinFail(room: string, reason: string)
    | PeerJoined(room: string, peer: string)
    | PeerLeft(room: string, peer: string)
    | Relayed(room: string, from: string, payload: string)
    | RoomExpired(room: string)
    | ErrorReply(reason: string)

  class Peer {
    const ip: string
    var id: string
    var room: Room?
    var outbox: seq<ServerMessage>

    constructor (ip: string)
      ensures this.ip == ip && id == "" && room == null && outbox == []
    {
      this.ip, id, room, outbox := ip, "", null, [];
    }

    method Send(m: ServerMessage)
      modifies this`outbox
      ensures outbox == old(outbox) + [m]
    {
      outbox := outbox + [m];
    }
  }

  class Room {
    const code: string
    var peers: map<string, Peer>
    var updated: int

    constructor (code: string, now: int)
      ensures this.code == code && peers == map[] && updated == now
    {
      this.code, peers, updated := code, map[], now;
    }

    function Population(): nat
      reads this`peers
    {
      |peers|
    }

    predicate Occupied()
      reads this`peers
    {
      "A" in peers || "B" in peers
    }
  }

  predicate IsPeerId(id: string) { id == "A" || id == "B" }

  function NextPeerId(ids: set<string>): string {
    if "A" !in ids then "A" else "B"
  }

  predicate IsValidRoomCode(code: string) {
    6 <= |code| <= 32 && forall i :: 0 <= i < |code| ==> code[i] in ROOM_CODE_ALPHABET
  }

  lemma OneMoreRoom(rooms: map<string, Room>, code: string, r: Room)
    requires code !in rooms
    ensures |rooms[code := r]| == |rooms| + 1
  {
    assert rooms[code := r].Keys == rooms.Keys + {code};
  }

  class Hub {
    const limiter: Limiter
    const roomTTL: int
    const maxRooms: nat
    var rooms: map<string, Room>
    ghost var allPeers: set<Peer>
    ghost var allRooms: set<Room>

    /** Peers and rooms point at each other consistently, whether the room is registered or not. */
    ghost predicate PeersOk()
      reads this`allPeers, this`allRooms, allPeers`id, allPeers`room, allRooms`peers
    {
      && (forall p :: p in allPeers && p.room != null ==>
            p.room in allRooms && p.id in p.room.peers && p.room.peers[p.id] == p)
      && (forall r, id {:trigger r in allRooms, id in r.peers} :: r in allRooms && id in r.peers ==>
            IsPeerId(id) && r.peers[id] in allPeers && r.peers[id].room == r && r.peers[id].id == id)
    }

    /** Registered rooms are filed under their own codes and are not empty. */
    ghost predicate RegistryOk()
      reads this`rooms, this`allRooms, allRooms`peers
    {
      forall code :: code in rooms ==>
        rooms[code] in allRooms && rooms[code].code == code && rooms[code].Occupied()
    }

    predicate WithinLimit()
      reads this`rooms
    {
      |rooms| <= maxRooms
    }

    ghost predicate Valid()
      reads this`rooms, this`allPeers, this`allRooms, allPeers`id, allPeers`room, allRooms`peers
    {
      PeersOk() && RegistryOk() && WithinLimit()
    }

    constructor (rateLimit: int, roomTTL: int, maxRooms: nat)
      ensures Valid() && rooms == map[] && allPeers == {} && allRooms == {}
      ensures this.roomTTL == roomTTL && this.maxRooms == maxRooms && fresh(limiter) && limiter.rateLimit == rateLimit && limiter.rateLimits == map[]
    {
      limiter := new Limiter(rateLimit);
      this.roomTTL, this.maxRooms := roomTTL, maxRooms;
      rooms, allPeers, allRooms := map[], {}, {};
    }

    method Connect(ip: string) returns (p: Peer)
      requires Valid()
      modifies this`allPeers
      ensures Valid() && fresh(p) && p.room == null && p.id == "" && p.ip == ip && p.outbox == []
      ensures allPeers == old(allPeers) + {p}
    {
      p := new Peer(ip);
      allPeers := allPeers + {p};
    }

    /** The first of at most a hundred drawn codes that is not registered. */
    method GenerateRoomCode(draws: seq<string>) returns (found: bool, code: string)
      ensures found ==> code in draws && code !in rooms
      ensures !found <==> forall i :: 0 <= i < |draws| && i < MAX_CODE_ATTEMPTS ==> draws[i] in rooms
    {
      var attempt := 0;
      while attempt < MAX_CODE_ATTEMPTS && attempt < |draws|
        invariant 0 <= attempt <= |draws|
        invariant forall i :: 0 <= i < attempt ==> draws[i] in rooms
      {
        if draws[attempt] !in rooms {
          return true, draws[attempt];
        }
        attempt := attempt + 1;
      }
      return false, "";
    }

    /** Links a free peer and a room under an id the room does not use. */
    method Seat(p: Peer, r: Room, id: string)
      requires PeersOk() && p in allPeers && p.room == null && r in allRooms && IsPeerId(id) && id !in r.peers
      modifies p`id, p`room, r`peers
      ensures PeersOk() && p.room == r && p.id == id && r.peers == old(r.peers)[id := p]
    {
      p.id := id;
      p.room := r;
      r.peers := r.peers[id := p];
    }

    /** A message to every peer of a room but one. */
    method NotifyRoom(r: Room, except: Peer?, m: ServerMessage)
      requires PeersOk() && r in allRooms
      modifies allPeers`outbox
      ensures forall q :: q in allPeers ==>
              q.outbox == old(q.outbox) + (if q.room == r && q != except then [m] else [])
    {
      var pending := r.peers.Keys;
      while pending != {}
        invariant pending <= r.peers.Keys
        invariant PeersOk()
        invariant forall q :: q in allPeers ==>
                  q.outbox == old(q.outbox) + (if q.room == r && q != except && q.id !in pending then [m] else [])
        decreases pending
      {
        var id :| id in pending;
        var other := r.peers[id];
        if other != except {
          other.Send(m);
        }
        pending := pending - {id};
      }
    }

    /** Opens a room under a code that is not registered, with `p` as its first peer. */
    method OpenRoom(p: Peer, code: string, now: int) returns (r: Room)
      requires Valid() && p in allPeers && p.room == null && code !in rooms && |rooms| < maxRooms
      modifies this`rooms, this`allRooms, p`id, p`room
      ensures Valid()
      ensures p.room == r && fresh(r) && p.id == "A" && r.peers == map["A" := p]
      ensures r.code == code && r.updated == now
      ensures rooms == old(rooms)[code := r] && allRooms == old(allRooms) + {r}
    {
      r := new Room(code, now);
      allRooms := allRooms + {r};
      Seat(p, r, "A");
      rooms := rooms[code := r];
      OneMoreRoom(old(rooms), code, r);
    }

    /** Why a room is not created, in the order of the checks; empty when it is. */
    function CreateRefusal(allowed: bool, p: Peer, draws: seq<string>): string
      reads this`rooms, p`room
    {
      if !allowed then "rate_limited"
      else if p.room != null then "already_joined"
      else if |rooms| >= maxRooms then "server_busy"
      else if forall i :: 0 <= i < |draws| && i < MAX_CODE_ATTEMPTS ==> draws[i] in rooms then "room_code_failed"
      else ""
    }

    method CreateRoom(p: Peer, draws: seq<string>, now: int) returns (refusal: string)
      requires Valid() && p in allPeers
      modifies this`rooms, this`allRooms, p`id, p`room, p`outbox, limiter
      ensures Valid()
      ensures refusal == old(CreateRefusal(Allow(limiter.rateLimits, limiter.rateLimit, p.ip, now).allowed, p, draws))
      ensures limiter.rateLimits == Allow(old(limiter.rateLimits), limiter.rateLimit, p.ip, now).windows
      ensures refusal == "" ==>
              && p.room != null && fresh(p.room) && p.id == "A" && p.room.peers == map["A" := p]
              && p.room.code !in old(rooms) && p.room.code in draws && p.room.updated == now
              && rooms == old(rooms)[p.room.code := p.room] && allRooms == old(allRooms) + {p.room}
              && p.outbox == old(p.outbox) + [RoomCreated(p.room.code, "A")]
      ensures refusal != "" ==>
              && rooms == old(rooms) && allRooms == old(allRooms) && p.room == old(p.room) && p.id == old(p.id)
              && p.outbox == old(p.outbox) + [ErrorReply(refusal)]
    {
      hide PeersOk, RegistryOk, WithinLimit;
      var allowed := limiter.AllowRateLimitedAction(p.ip, now);
      if !allowed {
        p.Send(ErrorReply("rate_limited"));
        return "rate_limited";
      }
      if p.room != null {
        p.Send(ErrorReply("already_joined"));
        return "already_joined";
      }
      if |rooms| >= maxRooms {
        p.Send(ErrorReply("server_busy"));
        return "server_busy";
      }
      var found, code := GenerateRoomCode(draws);
      if !found {
        p.Send(ErrorReply("room_code_failed"));
        return "room_code_failed";
      }
      var r := OpenRoom(p, code, now);
      p.Send(RoomCreated(code, "A"));
      return "";
    }

    method Expire(code: string)
      requires Valid()
      modifies this`rooms
      ensures Valid() && rooms == old(rooms) - {code}
    {
      hide PeersOk, WithinLimit;
      Unregister(code);
    }

    /** Why a join is refused, in the order of the checks; empty when it is not. `code` is the asked code
        trimmed and in upper case. */
    function JoinRefusal(allowed: bool, p: Peer, code: string, now: int): string
      reads this, p, rooms.Values
    {
      if !allowed then "rate_limited"
      else if !IsValidRoomCode(code) then "invalid_code"
      else if p.room != null then "already_joined"
      else if code !in rooms then "invalid_code"
      else if now - rooms[code].updated > roomTTL then "expired_code"
      else if rooms[code].Population() >= 2 then "room_full"
      else ""
    }

    /** Seats a peer under the next id of a room that is not full. */
    method Admit(p: Peer, r: Room)
      requires Valid() && p in allPeers && p.room == null && r in allRooms && r.Population() < 2
      modifies p`id, p`room, r`peers
      ensures Valid() && p.room == r
      ensures p.id == NextPeerId(old(r.peers.Keys)) && p.id !in old(r.peers) && r.peers == old(r.peers)[p.id := p]
    {
      FreeSeat(r);
      hide WithinLimit, Room.Population;
      Seat(p, r, NextPeerId(r.peers.Keys));
    }

    /** The last part of a join: there is a free seat, and everybody in the room is told. */
    method TakeSeat(p: Peer, r: Room, code: string, now: int)
      requires Valid() && p in allPeers && p.room == null && r in allRooms && r.Population() < 2
      modifies p`id, p`room, allPeers`outbox, r`peers, r`updated
      ensures Valid() && p.room == r
      ensures p.id == NextPeerId(old(r.peers.Keys)) && p.id !in old(r.peers) && r.peers == old(r.peers)[p.id := p]
      ensures r.updated == now
      ensures p.outbox == old(p.outbox) + [JoinOk(code, p.id)]
      ensures forall q :: q in allPeers && q != p ==>
              q.outbox == old(q.outbox) + (if q.room == r then [PeerJoined(code, p.id)] else [])
    {
      hide RegistryOk, PeersOk, WithinLimit;
      Admit(p, r);
      r.updated := now;
      p.Send(JoinOk(code, p.id));
      NotifyRoom(r, p, PeerJoined(code, p.id));
    }

    /** The checks of a join in their order; an expired room loses its registration. */
    method RefuseJoin(p: Peer, asked: string, code: string, now: int) returns (refusal: string)
      requires Valid() && p in allPeers
      modifies this`rooms, p`outbox, limiter
      ensures Valid()
      ensures refusal == old(JoinRefusal(Allow(limiter.rateLimits, limiter.rateLimit, p.ip, now).allowed, p, code, now))
      ensures limiter.rateLimits == Allow(old(limiter.rateLimits), limiter.rateLimit, p.ip, now).windows
      ensures rooms == (if refusal == "expired_code" then old(rooms) - {code} else old(rooms))
      ensures p.outbox == old(p.outbox) + (if refusal == "" then []
                                           else [JoinFail(if refusal == "rate_limited" then asked else code, refusal)])
    {
      hide PeersOk, RegistryOk, WithinLimit, Room.Population, IsValidRoomCode;
      var allowed := limiter.AllowRateLimitedAction(p.ip, now);
      if !allowed {
        p.Send(JoinFail(asked, "rate_limited"));
        return "rate_limited";
      }
      if !IsValidRoomCode(code) {
        p.Send(JoinFail(code, "invalid_code"));
        return "invalid_code";
      }
      if p.room != null {
        p.Send(JoinFail(code, "already_joined"));
        return "already_joined";
      }
      if code !in rooms {
        p.Send(JoinFail(code, "invalid_code"));
        return "invalid_code";
      }
      if now - rooms[code].updated > roomTTL {
        Expire(code);
        p.Send(JoinFail(code, "expired_code"));
        return "expired_code";
      }
      if rooms[code].Population() >= 2 {
        p.Send(JoinFail(code, "room_full"));
        return "room_full";
      }
      return "";
    }

    method JoinRoom(p: Peer, asked: string, code: string, now: int) returns (refusal: string)
      requires Valid() && p in allPeers
      modifies this`rooms, p`id, p`room, allPeers`outbox, allRooms`peers, allRooms`updated, limiter
      ensures Valid()
      ensures refusal == old(JoinRefusal(Allow(limiter.rateLimits, limiter.rateLimit, p.ip, now).allowed, p, code, now))
      ensures limiter.rateLimits == Allow(old(limiter.rateLimits), limiter.rateLimit, p.ip, now).windows
      ensures refusal == "" ==>
              && rooms == old(rooms) && p.room == rooms[code] && old(rooms[code].Occupied())
              && p.id == NextPeerId(old(rooms[code].peers.Keys))
              && p.id !in old(rooms[code].peers) && rooms[code].peers == old(rooms[code].peers)[p.id := p]
              && rooms[code].updated == now
      ensures refusal != "" ==>
              && p.room == old(p.room) && p.id == old(p.id)
              && rooms == (if refusal == "expired_code" then old(rooms) - {code} else old(rooms))
      ensures forall r :: r in allRooms && (refusal != "" || r != p.room) ==>
              r.peers == old(r.peers) && r.updated == old(r.updated)
      ensures forall q :: q in allPeers && q != p ==> q.room == old(q.room) && q.id == old(q.id)
      ensures p.outbox == old(p.outbox) + [if refusal == "" then JoinOk(code, p.id)
                                           else JoinFail(if refusal == "rate_limited" then asked else code, refusal)]
      ensures forall q :: q in allPeers && q != p ==>
              q.outbox == old(q.outbox) + (if refusal == "" && q.room == p.room then [PeerJoined(code, p.id)] else [])
    {
      hide Valid, PeersOk, RegistryOk;
      refusal := RefuseJoin(p, asked, code, now);
      if refusal == "" {
        Registered(code);
        TakeSeat(p, rooms[code], code, now);
      }
    }

    method Unregister(code: string)
      requires WithinLimit()
      modifies this`rooms
      ensures WithinLimit() && rooms == old(rooms) - {code}
    {
      rooms := rooms - {code};
      assert rooms.Keys == old(rooms).Keys - {code};
    }

    /** `error` is the verdict on the payload ("empty_payload" and so on, empty when it is in order). */
    method RelayPayload(p: Peer, payload: string, error: string, now: int)
      requires Valid() && p in allPeers
      modifies allPeers`outbox, allRooms`updated
      ensures Valid()
      ensures p.outbox == old(p.outbox) + (if error != "" then [ErrorReply(error)]
                                           else if p.room == null then [ErrorReply("not_joined")] else [])
      ensures forall q :: q in allPeers && q != p ==>
              q.outbox == old(q.outbox) + (if error == "" && p.room != null && q.room == p.room
                                           then [Relayed(p.room.code, p.id, payload)] else [])
      ensures forall r :: r in allRooms ==>
              r.updated == (if error == "" && r == p.room then now else old(r.updated))
    {
      if error != "" {
        p.Send(ErrorReply(error));
        return;
      }
      if p.room == null {
        p.Send(ErrorReply("not_joined"));
        return;
      }
      p.room.updated := now;
      NotifyRoom(p.room, p, Relayed(p.room.code, p.id, payload));
    }

    lemma Registered(code: string)
      requires Valid() && code in rooms
      ensures rooms[code] in allRooms && rooms[code].code == code && rooms[code].Occupied()
    {
    }

    lemma Seated(p: Peer)
      requires Valid() && p in allPeers && p.room != null
      ensures p.room in allRooms && p.id in p.room.peers
    {
    }

    /** Takes a peer out of its room. */
    method Unseat(p: Peer, r: Room)
      requires PeersOk() && p in allPeers && p.room == r
      modifies p`room, r`peers
      ensures PeersOk() && p.room == null
      ensures r.peers == old(r.peers) - {p.id} && r in allRooms
    {
      r.peers := r.peers - {p.id};
      p.room := null;
    }

    /** Registered rooms are in order, except that `r` may be empty. */
    ghost predicate RegistryOkBut(r: Room)
      reads this`rooms, this`allRooms, allRooms`peers
    {
      forall code :: code in rooms ==>
        rooms[code] in allRooms && rooms[code].code == code && (rooms[code] == r || rooms[code].Occupied())
    }

    method DropCode(r: Room)
      requires WithinLimit() && RegistryOkBut(r)
      modifies this`rooms
      ensures WithinLimit() && RegistryOk()
      ensures rooms == old(rooms) - {r.code}
    {
      hide WithinLimit, Room.Occupied;
      Unregister(r.code);
    }

    /** Takes the code of an empty room out of the registry. */
    method DropIfEmpty(r: Room)
      requires PeersOk() && WithinLimit() && r in allRooms && RegistryOkBut(r)
      modifies this`rooms
      ensures Valid()
      ensures rooms == (if r.Occupied() then old(rooms) else old(rooms) - {r.code})
    {
      EmptyIff(r);
      hide PeersOk, WithinLimit, Room.Population, Room.Occupied;
      if r.Population() == 0 {
        DropCode(r);
      }
    }

    /** Takes a peer out of its room, and the code of an empty room out of the registry. */
    method Vacate(p: Peer, r: Room)
      requires Valid() && p in allPeers && p.room == r
      modifies this`rooms, p`room, r`peers
      ensures Valid() && p.room == null
      ensures r.peers == old(r.peers) - {p.id} && r in allRooms
      ensures rooms == (if r.Occupied() then old(rooms) else old(rooms) - {r.code})
    {
      hide PeersOk, WithinLimit, Room.Population, Room.Occupied;
      Unseat(p, r);
      DropIfEmpty(r);
    }

    /** The peer is the last of a room that is not registered, and its code is registered to another. */
    predicate TakesAnother(p: Peer)
      requires p.room != null
      reads this, p, p.room
    {
      p.room.peers.Keys == {p.id} && p.room.code in rooms && rooms[p.room.code] != p.room
    }

    /** Every other room stays registered, except that the registration goes by code: the last peer of
        a room that lost its registration takes away that of the room its code was reissued to. */
    method RemovePeer(p: Peer, now: int)
      requires Valid() && p in allPeers
      modifies this`rooms, p`room, allPeers`outbox, allRooms`peers, allRooms`updated
      ensures Valid() && p.room == null
      ensures forall r :: r in allRooms && r != old(p.room) ==> r.peers == old(r.peers) && r.updated == old(r.updated)
      ensures (forall code :: code in old(rooms) && old(rooms)[code] != old(p.room) ==> code in rooms)
              <==> (old(p.room) == null || !old(TakesAnother(p)))
      ensures old(p.room) == null ==> rooms == old(rooms)
      ensures old(p.room) != null ==> (old(p.room).Occupied() <==> old(p.room.peers.Keys) != {p.id})
      ensures old(p.room) != null ==>
              && old(p.room).peers == old(p.room.peers) - {p.id}
              && old(p.room).updated == (if old(p.room).Occupied() then now else old(p.room.updated))
              && rooms == (if old(p.room).Occupied() then old(rooms) else old(rooms) - {old(p.room).code})
      ensures forall q :: q in allPeers ==>
              q.outbox == old(q.outbox) + (if q != p && old(p.room) != null && q.room == old(p.room)
                                           then [PeerLeft(old(p.room).code, p.id)] else [])
    {
      hide PeersOk, RegistryOk, WithinLimit, Room.Population;
      if p.room == null {
        return;
      }
      var r := p.room;
      Seated(p);
      Vacate(p, r);
      EmptyIff(r);
      assert r.peers.Keys == old(p.room.peers.Keys) - {p.id};
      if r.Population() == 0 {
        NoKeys(r);
        assert old(p.room.peers.Keys) == {p.id};
        return;
      }
      assert old(p.room.peers.Keys) != {p.id};
      r.updated := now;
      NotifyRoom(r, p, PeerLeft(r.code, p.id));
    }

    lemma NoKeys(r: Room)
      requires PeersOk() && r in allRooms && !r.Occupied()
      ensures r.peers.Keys == {}
    {
      assert forall id :: id in r.peers ==> IsPeerId(id);
    }

    lemma EmptyIff(r: Room)
      requires PeersOk() && r in allRooms
      ensures r.Population() == 0 <==> !r.Occupied()
      ensures !r.Occupied() ==> forall q :: q in allPeers ==> q.room != r
    {
      if r.peers != map[] {
        var id :| id in r.peers;
        assert IsPeerId(id);
      }
    }

    /** The room is registered and unused for too long. */
    predicate Due(r: Room, now: int)
      reads this`rooms, r`updated
    {
      r.code in rooms && rooms[r.code] == r && now - r.updated > roomTTL
    }

    method ExpireRoom(code: string, now: int)
      requires Valid() && code in rooms
      modifies this`rooms, allPeers`outbox
      ensures Valid()
      ensures rooms == (if old(Due(rooms[code], now)) then old(rooms) - {code} else old(rooms))
      ensures forall q :: q in allPeers ==>
              q.outbox == old(q.outbox) + (if q.room == old(rooms[code]) && old(Due(rooms[code], now))
                                           then [RoomExpired(code)] else [])
    {
      hide PeersOk, RegistryOk, WithinLimit;
      var r := rooms[code];
      Registered(code);
      if now - r.updated > roomTTL {
        NotifyRoom(r, null, RoomExpired(code));
        Expire(code);
      }
    }

    method CleanupExpiredRooms(now: int)
      requires Valid()
      modifies this`rooms, allPeers`outbox, limiter
      ensures Valid()
      ensures limiter.rateLimits == Cleanup(old(limiter.rateLimits), now)
      ensures forall code :: code in rooms <==> code in old(rooms) && !old(Due(rooms[code], now))
      ensures forall code :: code in rooms ==> rooms[code] == old(rooms)[code]
      ensures forall q :: q in allPeers ==>
              q.outbox == old(q.outbox) + (if q.room != null && old(Due(q.room, now)) then [RoomExpired(q.room.code)] else [])
    {
      hide Valid, PeersOk, RegistryOk, WithinLimit, Cleanup, Room.Occupied;
      limiter.CleanupRateLimits(now);
      var pending := rooms.Keys;
      while pending != {}
        invariant Valid() && pending <= rooms.Keys <= old(rooms).Keys
        invariant limiter.rateLimits == Cleanup(old(limiter.rateLimits), now)
        invariant forall code :: code in old(rooms) ==>
                  (code in rooms <==> code in pending || !old(Due(rooms[code], now)))
        invariant forall code :: code in rooms ==> rooms[code] == old(rooms)[code]
        invariant forall q :: q in allPeers ==>
                  q.outbox == old(q.outbox) + (if q.room != null && old(Due(q.room, now)) && q.room.code !in pending
                                               then [RoomExpired(q.room.code)] else [])
        decreases pending
      {
        var code :| code in pending;
        Registered(code);
        ExpireRoom(code, now);
        pending := pending - {code};
      }
    }

    /** A room that is not full has room for the next id. */
    lemma FreeSeat(r: Room)
      requires PeersOk() && r in allRooms && r.Population() < 2
      ensures NextPeerId(r.peers.Keys) !in r.peers
    {
      if "A" in r.peers && "B" in r.peers {
        TwoKeys(r.peers, "A", "B");
      }
    }
  }

  /** In every reachable state a room, registered or not, has at most two peers, with different ids. */
  lemma TwoPeersAtMost(h: Hub, r: Room)
    requires h.Valid() && r in h.allRooms
    ensures |r.peers| <= 2 && r.peers.Keys <= {"A", "B"}
    ensures forall p, q :: p in r.peers.Values && q in r.peers.Values && p != q ==> p.id != q.id
  {
    assert forall id :: id in r.peers ==> IsPeerId(id);
    assert r.peers.Keys <= {"A", "B"};
    SubsetSize(r.peers.Keys, {"A", "B"});
  }

  /** In every reachable state being in a room and being one of its peers are the same, so a message
      to the others of a room reaches at most one peer, and never a peer outside it. */
  lemma InRoomIff(h: Hub, p: Peer, r: Room)
    requires h.Valid() && p in h.allPeers && r in h.allRooms
    ensures p.room == r <==> p.id in r.peers && r.peers[p.id] == p
    ensures p.room == r <==> p in r.peers.Values
  {
  }

  lemma SubsetSize(small: set<string>, large: set<string>)
    requires small <= large
    ensures |small| <= |large|
  {
    assert |large - small| == |large| - |small|;
  }

  lemma TwoKeys(peers: map<string, Peer>, a: string, b: string)
    requires a in peers && b in peers && a != b
    ensures |peers| >= 2
  {
    assert |peers.Keys - {a} - {b}| == |peers| - 2;
  }
}
