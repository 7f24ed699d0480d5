/** Runs of the relay hub: any calls at any times. Each call changes the recorded state as RelayTrace says, so
    what is proved there of traces holds of the hub. Two runs end with a room in use out of the registry. */
module RelayRuns {
  import opened RateLimiter
  import opened RelayHub
  import opened RelayTrace

  function Conf(h: Hub): Config {
    Config(h.limiter.rateLimit, h.roomTTL, h.maxRooms)
  }

  /** The state of the hub as it is recorded. */
  ghost function Snap(h: Hub, connected: seq<Peer>): Snapshot
    reads h, h.allPeers, h.allRooms, h.limiter
  {
    Snapshot(h.rooms, map r | r in h.allRooms :: r.updated, map r | r in h.allRooms :: r.peers,
             map p | p in h.allPeers :: p.room, map p | p in h.allPeers :: p.id, h.limiter.rateLimits, connected)
  }

  ghost predicate AllKnown(h: Hub, connected: seq<Peer>)
    reads h
  {
    forall p :: p in connected ==> p in h.allPeers
  }

  lemma SnapIsConsistent(h: Hub, connected: seq<Peer>)
    requires h.Valid() && AllKnown(h, connected)
    ensures Consistent(Snap(h, connected))
  {
  }

  /** What the hub answers is what the recorded state says. */
  lemma RefusalOf(h: Hub, connected: seq<Peer>, p: Peer, code: string, now: int)
    requires h.Valid() && AllKnown(h, connected) && p in h.allPeers
    ensures var c, a := Conf(h), Snap(h, connected);
            var refusal := h.JoinRefusal(Allow(a.windows, c.rateLimit, p.ip, now).allowed, p, code, now);
            && Consistent(a)
            && (refusal == "expired_code" <==> FindsExpired(c, a, p, code, now))
            && (refusal == "" <==> FindsRoom(c, a, p, code, now) && !FindsExpired(c, a, p, code, now) && |a.seats[a.rooms[code]]| < 2)
  {
    SnapIsConsistent(h, connected);
    hide Hub.PeersOk, Hub.WithinLimit, IsValidRoomCode, Allow, Consistent;
    if code in h.rooms {
      h.Registered(code);
    }
  }

  /** The hub is as recorded, but for the registry, the limiter, and the given peers and rooms, which may
      be new. */
  ghost predicate SameBut(h: Hub, a: Snapshot, peers: set<Peer>, rooms: set<Room>)
    reads h, h.allPeers, h.allRooms
  {
    SameKeys(h, a, peers, rooms) && SameRoomValues(h, a, rooms) && SamePeerValues(h, a, peers)
  }

  ghost predicate SameKeys(h: Hub, a: Snapshot, peers: set<Peer>, rooms: set<Room>)
    reads h`allPeers, h`allRooms
  {
    && a.updated.Keys == a.seats.Keys && a.seats.Keys <= h.allRooms && rooms <= h.allRooms
    && (forall o :: o in h.allRooms ==> o in a.seats || o in rooms)
    && a.idOf.Keys == a.roomOf.Keys && a.roomOf.Keys <= h.allPeers && peers <= h.allPeers
    && (forall q :: q in h.allPeers ==> q in a.roomOf || q in peers)
  }

  ghost predicate SameRoomValues(h: Hub, a: Snapshot, rooms: set<Room>)
    reads h`allRooms, h.allRooms`peers, h.allRooms`updated
  {
    forall o :: o in h.allRooms && o !in rooms ==>
      o in a.seats && o in a.updated && o.peers == a.seats[o] && o.updated == a.updated[o]
  }

  ghost predicate SamePeerValues(h: Hub, a: Snapshot, peers: set<Peer>)
    reads h`allPeers, h.allPeers`room, h.allPeers`id
  {
    forall q :: q in h.allPeers && q !in peers ==> q in a.roomOf && q in a.idOf && q.room == a.roomOf[q] && q.id == a.idOf[q]
  }

  lemma Recorded(h: Hub, connected: seq<Peer>)
    ensures var a := Snap(h, connected);
            SameBut(h, a, {}, {}) && a.rooms == h.rooms && a.windows == h.limiter.rateLimits && a.connected == connected
  {
  }

  lemma OnlyAt<K, V>(a: map<K, V>, b: map<K, V>, key: K)
    requires a.Keys + {key} == b.Keys && forall k :: k in b && k != key ==> a[k] == b[k]
    ensures b == a[key := b[key]]
  {
  }

  lemma SameEntry<K, V>(m: map<K, V>, key: K)
    requires key in m
    ensures m[key := m[key]] == m
  {
  }

  lemma SameRooms(h: Hub, connected: seq<Peer>, a: Snapshot)
    requires SameBut(h, a, {}, {})
    ensures Snap(h, connected) == a.(rooms := h.rooms, windows := h.limiter.rateLimits, connected := connected)
  {
    var b := Snap(h, connected);
    assert b.updated == a.updated && b.seats == a.seats && b.roomOf == a.roomOf && b.idOf == a.idOf;
  }

  lemma OneSeat(h: Hub, connected: seq<Peer>, p: Peer, r: Room, a: Snapshot)
    requires SameBut(h, a, {p}, {r})
    ensures p in h.allPeers && r in h.allRooms
    ensures Snap(h, connected)
         == a.(rooms := h.rooms, windows := h.limiter.rateLimits, connected := connected, updated := a.updated[r := r.updated],
               seats := a.seats[r := r.peers], roomOf := a.roomOf[p := p.room], idOf := a.idOf[p := p.id])
  {
    var b := Snap(h, connected);
    OnlyAt(a.updated, b.updated, r);
    OnlyAt(a.seats, b.seats, r);
    OnlyAt(a.roomOf, b.roomOf, p);
    OnlyAt(a.idOf, b.idOf, p);
  }

  lemma OnePeer(h: Hub, connected: seq<Peer>, p: Peer, a: Snapshot)
    requires SameBut(h, a, {p}, {})
    ensures p in h.allPeers
    ensures Snap(h, connected)
         == a.(rooms := h.rooms, windows := h.limiter.rateLimits, connected := connected, roomOf := a.roomOf[p := p.room],
               idOf := a.idOf[p := p.id])
  {
    var b := Snap(h, connected);
    assert b.updated == a.updated && b.seats == a.seats;
    OnlyAt(a.roomOf, b.roomOf, p);
    OnlyAt(a.idOf, b.idOf, p);
  }

  lemma OneRoom(h: Hub, connected: seq<Peer>, r: Room, a: Snapshot)
    requires SameBut(h, a, {}, {r})
    ensures r in h.allRooms
    ensures Snap(h, connected)
         == a.(rooms := h.rooms, windows := h.limiter.rateLimits, connected := connected, updated := a.updated[r := r.updated],
               seats := a.seats[r := r.peers])
  {
    var b := Snap(h, connected);
    assert b.roomOf == a.roomOf && b.idOf == a.idOf;
    OnlyAt(a.updated, b.updated, r);
    OnlyAt(a.seats, b.seats, r);
  }

  /** A join, without what it sends. */
  method Join(h: Hub, p: Peer, asked: string, code: string, now: int) returns (refusal: string)
    requires h.Valid() && p in h.allPeers
    modifies h`rooms, p`id, p`room, h.allPeers`outbox, h.allRooms`peers, h.allRooms`updated, h.limiter
    ensures h.Valid()
    ensures refusal == old(h.JoinRefusal(Allow(h.limiter.rateLimits, h.limiter.rateLimit, p.ip, now).allowed, p, code, now))
    ensures h.limiter.rateLimits == Allow(old(h.limiter.rateLimits), h.limiter.rateLimit, p.ip, now).windows
    ensures h.rooms == if refusal == "expired_code" then old(h.rooms) - {code} else old(h.rooms)
    ensures refusal != "" ==> p.room == old(p.room) && p.id == old(p.id)
    ensures refusal == "" ==>
            && code in old(h.rooms) && p.room == h.rooms[code] && p.room in h.allRooms
            && p.id == NextPeerId(old(h.rooms[code].peers.Keys))
            && h.rooms[code].peers == old(h.rooms[code].peers)[p.id := p] && h.rooms[code].updated == now
    ensures forall o :: o in h.allRooms && (refusal != "" || o != p.room) ==> o.peers == old(o.peers) && o.updated == old(o.updated)
  {
    if code in h.rooms {
      h.Registered(code);
    }
    hide Hub.Valid, IsValidRoomCode, Allow, Room.Occupied, NextPeerId;
    ghost var reason := h.JoinRefusal(Allow(h.limiter.rateLimits, h.limiter.rateLimit, p.ip, now).allowed, p, code, now);
    assert reason == "" ==> code in h.rooms;
    hide Hub.JoinRefusal;
    refusal := h.JoinRoom(p, asked, code, now);
  }

  /** A join, and what it leaves alone. */
  method JoinAlone(h: Hub, p: Peer, asked: string, code: string, now: int, ghost a: Snapshot) returns (refusal: string)
    requires h.Valid() && p in h.allPeers && SameBut(h, a, {}, {}) && a.rooms == h.rooms
    modifies h`rooms, p`id, p`room, h.allPeers`outbox, h.allRooms`peers, h.allRooms`updated, h.limiter
    ensures h.Valid() && h.allPeers == old(h.allPeers) && h.allRooms == old(h.allRooms)
    ensures refusal == old(h.JoinRefusal(Allow(h.limiter.rateLimits, h.limiter.rateLimit, p.ip, now).allowed, p, code, now))
    ensures h.limiter.rateLimits == Allow(old(h.limiter.rateLimits), h.limiter.rateLimit, p.ip, now).windows
    ensures h.rooms == if refusal == "expired_code" then a.rooms - {code} else a.rooms
    ensures refusal != "" ==> SameBut(h, a, {}, {})
    ensures refusal == "" ==>
            && h.rooms == a.rooms && p.room == h.rooms[code] && SameBut(h, a, {p}, {p.room})
            && p.id == NextPeerId(old(h.rooms[code].peers.Keys))
            && h.rooms[code].peers == old(h.rooms[code].peers)[p.id := p] && h.rooms[code].updated == now
  {
    hide Hub.Valid, Allow, NextPeerId, Hub.JoinRefusal;
    refusal := Join(h, p, asked, code, now);
    if refusal != "" {
      assert SamePeerValues(h, a, {});
      hide SamePeerValues;
      assert SameKeys(h, a, {}, {});
      hide SameKeys;
      assert SameRoomValues(h, a, {});
      hide SameRoomValues;
    } else {
      assert SamePeerValues(h, a, {p});
      hide SamePeerValues;
      assert SameKeys(h, a, {p}, {p.room});
      hide SameKeys;
      assert SameRoomValues(h, a, {p.room});
      hide SameRoomValues;
    }
  }

  method TryJoin(h: Hub, p: Peer, asked: string, code: string, now: int, ghost a: Snapshot) returns (refusal: string)
    requires h.Valid() && p in h.allPeers && SameBut(h, a, {}, {}) && a.rooms == h.rooms && a.windows == h.limiter.rateLimits
    modifies h, h.limiter, h.allPeers, h.allRooms
    ensures h.Valid() && h.allPeers == old(h.allPeers) && h.allRooms == old(h.allRooms)
    ensures refusal == old(h.JoinRefusal(Allow(h.limiter.rateLimits, h.limiter.rateLimit, p.ip, now).allowed, p, code, now))
    ensures h.limiter.rateLimits == Allow(a.windows, h.limiter.rateLimit, p.ip, now).windows
    ensures h.rooms == if refusal == "expired_code" then a.rooms - {code} else a.rooms
    ensures refusal != "" ==> SameBut(h, a, {}, {})
    ensures refusal == "" ==>
            && code in a.rooms && a.rooms[code] in a.seats && SameBut(h, a, {p}, {a.rooms[code]}) && p.room == a.rooms[code]
            && p.id == NextPeerId(a.seats[a.rooms[code]].Keys)
            && a.rooms[code].peers == a.seats[a.rooms[code]][p.id := p] && a.rooms[code].updated == now
  {
    if code in h.rooms {
      h.Registered(code);
    }
    hide Hub.Valid, IsValidRoomCode, Allow, Room.Occupied, NextPeerId;
    ghost var reason := h.JoinRefusal(Allow(h.limiter.rateLimits, h.limiter.rateLimit, p.ip, now).allowed, p, code, now);
    assert reason == "" ==> code in h.rooms && h.rooms[code].peers == a.seats[a.rooms[code]];
    hide Hub.JoinRefusal, SameBut;
    refusal := JoinAlone(h, p, asked, code, now, a);
  }

  method JoinStep(h: Hub, connected: seq<Peer>, p: Peer, asked: string, code: string, now: int)
    requires h.Valid() && AllKnown(h, connected) && p in h.allPeers
    modifies h, h.limiter, h.allPeers, h.allRooms
    ensures h.Valid() && h.allPeers == old(h.allPeers) && h.allRooms == old(h.allRooms)
    ensures Consistent(old(Snap(h, connected)))
    ensures Snap(h, connected) == Joined(Conf(h), old(Snap(h, connected)), p, code, now)
  {
    ghost var a := Snap(h, connected);
    Recorded(h, connected);
    RefusalOf(h, connected, p, code, now);
    hide Hub.Valid, Hub.JoinRefusal, Consistent, FindsRoom, FindsExpired, Allow, Joined, Snap, SameBut;
    var refusal := TryJoin(h, p, asked, code, now, a);
    if refusal != "" {
      JoinIsRefused(Conf(h), a, p, code, now);
      SameRooms(h, connected, a);
    } else {
      JoinIsSeated(Conf(h), a, p, code, now);
      OneSeat(h, connected, p, a.rooms[code], a);
    }
  }

  lemma JoinIsRefused(c: Config, a: Snapshot, p: Peer, code: string, now: int)
    requires Consistent(a) && p in a.roomOf
    requires !(FindsRoom(c, a, p, code, now) && !FindsExpired(c, a, p, code, now) && |a.seats[a.rooms[code]]| < 2)
    ensures Joined(c, a, p, code, now)
         == a.(windows := Allow(a.windows, c.rateLimit, p.ip, now).windows,
               rooms := if FindsExpired(c, a, p, code, now) then a.rooms - {code} else a.rooms)
  {
    hide Allow, IsValidRoomCode, Consistent;
  }

  lemma JoinIsSeated(c: Config, a: Snapshot, p: Peer, code: string, now: int)
    requires Consistent(a) && p in a.roomOf
    requires FindsRoom(c, a, p, code, now) && !FindsExpired(c, a, p, code, now) && |a.seats[a.rooms[code]]| < 2
    ensures var r, id := a.rooms[code], NextPeerId(a.seats[a.rooms[code]].Keys);
            Joined(c, a, p, code, now)
            == a.(windows := Allow(a.windows, c.rateLimit, p.ip, now).windows, updated := a.updated[r := now],
                  seats := a.seats[r := a.seats[r][id := p]], roomOf := a.roomOf[p := r], idOf := a.idOf[p := id])
  {
    hide Allow, IsValidRoomCode, Consistent;
  }

  method ConnectAlone(h: Hub, ip: string, ghost a: Snapshot) returns (p: Peer)
    requires h.Valid() && SameBut(h, a, {}, {}) && a.rooms == h.rooms && a.windows == h.limiter.rateLimits
    modifies h`allPeers
    ensures h.Valid() && fresh(p) && h.allPeers == old(h.allPeers) + {p} && p.ip == ip && p.room == null && p.id == ""
    ensures p !in a.roomOf && SameBut(h, a, {p}, {})
  {
    hide Hub.PeersOk, Hub.RegistryOk, Hub.WithinLimit;
    p := h.Connect(ip);
    assert SameKeys(h, a, {p}, {});
    assert SameRoomValues(h, a, {});
    assert SamePeerValues(h, a, {p});
  }

  method ConnectStep(h: Hub, connected: seq<Peer>, ip: string) returns (p: Peer)
    requires h.Valid() && AllKnown(h, connected)
    modifies h
    ensures h.Valid() && fresh(p) && h.allPeers == old(h.allPeers) + {p} && h.allRooms == old(h.allRooms)
    ensures Consistent(old(Snap(h, connected)))
    ensures Becomes(Conf(h), old(Snap(h, connected)), Connects(ip), 0, Snap(h, connected + [p]))
  {
    ghost var a := Snap(h, connected);
    Recorded(h, connected);
    SnapIsConsistent(h, connected);
    hide Hub.Valid, Consistent, Snap, SameBut;
    p := ConnectAlone(h, ip, a);
    OnePeer(h, connected + [p], p, a);
  }

  lemma CreationIs(h: Hub, connected: seq<Peer>, p: Peer, draws: seq<string>, now: int)
    requires h.Valid() && AllKnown(h, connected) && p in h.allPeers
    ensures var c, a := Conf(h), Snap(h, connected);
            && Consistent(a)
            && (h.CreateRefusal(Allow(a.windows, c.rateLimit, p.ip, now).allowed, p, draws) == "" <==> CreateAllowed(c, a, p, draws, now))
  {
    SnapIsConsistent(h, connected);
    hide Hub.PeersOk, Hub.RegistryOk, Hub.WithinLimit, Allow, Consistent;
  }

  method CreateAlone(h: Hub, p: Peer, draws: seq<string>, now: int, ghost a: Snapshot) returns (refusal: string)
    requires h.Valid() && p in h.allPeers && SameBut(h, a, {}, {}) && a.rooms == h.rooms && a.windows == h.limiter.rateLimits
    modifies h`rooms, h`allRooms, p`id, p`room, p`outbox, h.limiter
    ensures h.Valid() && h.allPeers == old(h.allPeers) && fresh(h.allRooms - old(h.allRooms)) && old(h.allRooms) <= h.allRooms
    ensures refusal == old(h.CreateRefusal(Allow(h.limiter.rateLimits, h.limiter.rateLimit, p.ip, now).allowed, p, draws))
    ensures h.limiter.rateLimits == Allow(a.windows, h.limiter.rateLimit, p.ip, now).windows
    ensures refusal != "" ==> h.rooms == a.rooms && SameBut(h, a, {}, {})
    ensures refusal == "" ==>
            && p.room != null && SameBut(h, a, {p}, {p.room}) && p.room !in a.seats
            && p.id == "A" && p.room.peers == map["A" := p] && p.room.updated == now
            && p.room.code in draws && p.room.code !in a.rooms && h.rooms == a.rooms[p.room.code := p.room]
  {
    hide Hub.Valid, Hub.PeersOk, Hub.RegistryOk, Hub.WithinLimit, Allow, Hub.CreateRefusal;
    refusal := h.CreateRoom(p, draws, now);
    if refusal != "" {
      assert SameKeys(h, a, {}, {});
      assert SameRoomValues(h, a, {});
      assert SamePeerValues(h, a, {});
      hide SameKeys, SameRoomValues, SamePeerValues;
    } else {
      assert p.room !in a.seats;
      assert SameKeys(h, a, {p}, {p.room});
      assert SameRoomValues(h, a, {p.room});
      assert SamePeerValues(h, a, {p});
      hide SameKeys, SameRoomValues, SamePeerValues;
    }
  }

  method CreateStep(h: Hub, connected: seq<Peer>, p: Peer, draws: seq<string>, now: int)
    requires h.Valid() && AllKnown(h, connected) && p in h.allPeers
    modifies h, h.limiter, h.allPeers, h.allRooms
    ensures h.Valid() && h.allPeers == old(h.allPeers) && fresh(h.allRooms - old(h.allRooms)) && old(h.allRooms) <= h.allRooms
    ensures Consistent(old(Snap(h, connected)))
    ensures Creation(Conf(h), old(Snap(h, connected)), p, draws, now, Snap(h, connected))
  {
    ghost var a := Snap(h, connected);
    Recorded(h, connected);
    CreationIs(h, connected, p, draws, now);
    hide Hub.Valid, Consistent, Snap, Allow, CreateAllowed, Hub.CreateRefusal, SameBut;
    var refusal := CreateAlone(h, p, draws, now, a);
    if refusal != "" {
      SameRooms(h, connected, a);
    } else {
      OneSeat(h, connected, p, p.room, a);
    }
  }

  /** A payload to the room, without what is sent. */
  method Use(h: Hub, p: Peer, r: Room, payload: string, now: int)
    requires h.Valid() && p in h.allPeers && p.room == r
    modifies h.allPeers`outbox, h.allRooms`updated
    ensures h.Valid() && r in h.allRooms && r.updated == now
    ensures forall o :: o in h.allRooms && o != r ==> o.updated == old(o.updated)
  {
    h.Seated(p);
    hide Hub.Valid;
    h.RelayPayload(p, payload, "", now);
  }

  method RelayIn(h: Hub, p: Peer, r: Room, payload: string, now: int, ghost a: Snapshot)
    requires h.Valid() && p in h.allPeers && p.room == r && SameBut(h, a, {}, {})
    modifies h.allPeers`outbox, h.allRooms`updated
    ensures h.Valid() && r in h.allRooms && SameBut(h, a, {}, {r}) && r.updated == now
  {
    hide Hub.Valid, SamePeerValues;
    Use(h, p, r, payload, now);
    assert SameKeys(h, a, {}, {r});
    hide SameKeys;
    assert SameRoomValues(h, a, {r});
    hide SameRoomValues;
  }

  method RelayNothing(h: Hub, p: Peer, payload: string, error: string, now: int, ghost a: Snapshot)
    requires h.Valid() && p in h.allPeers && (p.room == null || error != "") && SameBut(h, a, {}, {})
    modifies h.allPeers`outbox, h.allRooms`updated
    ensures h.Valid() && SameBut(h, a, {}, {})
  {
    hide Hub.Valid, Hub.PeersOk, Hub.RegistryOk, Hub.WithinLimit, SamePeerValues, SameKeys;
    h.RelayPayload(p, payload, error, now);
    assert SameRoomValues(h, a, {});
  }

  method RelayStep(h: Hub, connected: seq<Peer>, p: Peer, payload: string, error: string, now: int)
    requires h.Valid() && AllKnown(h, connected) && p in h.allPeers
    modifies h, h.limiter, h.allPeers, h.allRooms
    ensures h.Valid() && h.allPeers == old(h.allPeers) && h.allRooms == old(h.allRooms)
    ensures Consistent(old(Snap(h, connected)))
    ensures Snap(h, connected) == if error == "" then Refreshed(old(Snap(h, connected)), p, now) else old(Snap(h, connected))
  {
    ghost var a := Snap(h, connected);
    Recorded(h, connected);
    SnapIsConsistent(h, connected);
    Entries(h, connected, p);
    hide Hub.Valid, Consistent, Snap, SameBut, SameKeys, SameRoomValues, SamePeerValues;
    var r := p.room;
    if error != "" || r == null {
      RelayNothing(h, p, payload, error, now, a);
      SameRooms(h, connected, a);
    } else {
      RelayIn(h, p, r, payload, now, a);
      OneRoom(h, connected, r, a);
      SameEntry(a.seats, r);
    }
  }

  lemma SitsMeansOccupied(r: Room)
    ensures Sits(r.peers) <==> r.Occupied()
  {
  }

  method Leave(h: Hub, p: Peer, r: Room, now: int)
    requires h.Valid() && p in h.allPeers && p.room == r
    modifies h`rooms, p`room, h.allPeers`outbox, h.allRooms`peers, h.allRooms`updated
    ensures h.Valid() && p.room == null && r in h.allRooms
    ensures forall o :: o in h.allRooms && o != r ==> o.peers == old(o.peers) && o.updated == old(o.updated)
    ensures r.peers == old(r.peers) - {p.id}
    ensures r.updated == (if Sits(r.peers) then now else old(r.updated))
    ensures h.rooms == (if Sits(r.peers) then old(h.rooms) else old(h.rooms) - {r.code})
  {
    h.Seated(p);
    hide Hub.Valid, Hub.TakesAnother, Room.Occupied, Sits;
    h.RemovePeer(p, now);
    SitsMeansOccupied(r);
  }

  method LeaveRoom(h: Hub, p: Peer, r: Room, now: int, ghost a: Snapshot)
    requires h.Valid() && p in h.allPeers && p.room == r && SameBut(h, a, {}, {}) && a.rooms == h.rooms
    modifies h`rooms, p`room, h.allPeers`outbox, h.allRooms`peers, h.allRooms`updated
    ensures h.Valid() && h.allPeers == old(h.allPeers) && h.allRooms == old(h.allRooms)
    ensures p.room == null && r in h.allRooms && SameBut(h, a, {p}, {r})
    ensures r.peers == old(r.peers) - {p.id}
    ensures r.updated == (if Sits(r.peers) then now else old(r.updated))
    ensures h.rooms == (if Sits(r.peers) then a.rooms else a.rooms - {r.code})
  {
    hide Hub.Valid, Sits;
    Leave(h, p, r, now);
    assert SamePeerValues(h, a, {p});
    hide SamePeerValues;
    assert SameKeys(h, a, {p}, {r});
    hide SameKeys;
    assert SameRoomValues(h, a, {r});
    hide SameRoomValues;
  }

  method LeaveNothing(h: Hub, p: Peer, now: int, ghost a: Snapshot)
    requires h.Valid() && p in h.allPeers && p.room == null && SameBut(h, a, {}, {}) && a.rooms == h.rooms
    modifies h`rooms, p`room, h.allPeers`outbox, h.allRooms`peers, h.allRooms`updated
    ensures h.Valid() && h.allPeers == old(h.allPeers) && h.allRooms == old(h.allRooms)
    ensures h.rooms == a.rooms && SameBut(h, a, {}, {})
  {
    hide Hub.Valid, Hub.PeersOk, Hub.RegistryOk, Hub.WithinLimit;
    h.RemovePeer(p, now);
    assert SameKeys(h, a, {}, {});
    assert SameRoomValues(h, a, {});
    assert SamePeerValues(h, a, {});
    hide SameKeys, SameRoomValues, SamePeerValues;
  }

  method LeaveStep(h: Hub, connected: seq<Peer>, p: Peer, now: int)
    requires h.Valid() && AllKnown(h, connected) && p in h.allPeers
    modifies h, h.limiter, h.allPeers, h.allRooms
    ensures h.Valid() && h.allPeers == old(h.allPeers) && h.allRooms == old(h.allRooms)
    ensures Consistent(old(Snap(h, connected)))
    ensures Snap(h, connected) == Left(old(Snap(h, connected)), p, now)
  {
    ghost var a := Snap(h, connected);
    Recorded(h, connected);
    SnapIsConsistent(h, connected);
    Entries(h, connected, p);
    hide Hub.Valid, Consistent, Snap, SameBut, Sits;
    var r := p.room;
    if r == null {
      LeaveNothing(h, p, now, a);
      SameRooms(h, connected, a);
    } else {
      LeaveRoom(h, p, r, now, a);
      OneSeat(h, connected, p, r, a);
      SameEntry(a.idOf, p);
      LeftIs(a, p, r, now);
    }
  }

  lemma Entries(h: Hub, connected: seq<Peer>, p: Peer)
    requires h.Valid() && p in h.allPeers
    ensures var a := Snap(h, connected);
            && p in a.roomOf && p.room == a.roomOf[p] && p in a.idOf && p.id == a.idOf[p]
            && (p.room != null ==>
                  p.room in a.seats && p.room.peers == a.seats[p.room] && p.room in a.updated && p.room.updated == a.updated[p.room])
  {
  }

  lemma LeftIs(a: Snapshot, p: Peer, r: Room, now: int)
    requires Consistent(a) && p in a.roomOf && a.roomOf[p] == r
    ensures var seats := a.seats[r] - {a.idOf[p]};
            Left(a, p, now)
            == a.(seats := a.seats[r := seats], roomOf := a.roomOf[p := null],
                  updated := a.updated[r := if Sits(seats) then now else a.updated[r]],
                  rooms := if Sits(seats) then a.rooms else a.rooms - {r.code})
  {
    hide Sits;
    SameEntry(a.updated, r);
  }

  method CleanAlone(h: Hub, now: int, ghost a: Snapshot)
    requires h.Valid() && SameBut(h, a, {}, {}) && a.rooms == h.rooms && a.windows == h.limiter.rateLimits && Consistent(a)
    modifies h`rooms, h.allPeers`outbox, h.limiter
    ensures h.Valid() && h.allPeers == old(h.allPeers) && h.allRooms == old(h.allRooms)
    ensures h.limiter.rateLimits == Cleanup(a.windows, now) && SameBut(h, a, {}, {})
    ensures forall code :: code in h.rooms <==> code in a.rooms && !(now - a.updated[a.rooms[code]] > h.roomTTL)
    ensures forall code :: code in h.rooms ==> h.rooms[code] == a.rooms[code]
  {
    hide Hub.Valid, Hub.PeersOk, Hub.RegistryOk, Hub.WithinLimit, Cleanup;
    assert forall code :: code in a.rooms ==> (h.Due(a.rooms[code], now) <==> now - a.updated[a.rooms[code]] > h.roomTTL);
    hide Consistent;
    h.CleanupExpiredRooms(now);
    assert SameKeys(h, a, {}, {});
    assert SameRoomValues(h, a, {});
    assert SamePeerValues(h, a, {});
    hide SameKeys, SameRoomValues, SamePeerValues;
  }

  lemma CleanedIs(c: Config, a: Snapshot, now: int, rooms: map<string, Room>)
    requires Consistent(a)
    requires forall code :: code in rooms <==> code in a.rooms && !(now - a.updated[a.rooms[code]] > c.roomTTL)
    requires forall code :: code in rooms ==> rooms[code] == a.rooms[code]
    ensures Cleaned(c, a, now) == a.(rooms := rooms, windows := Cleanup(a.windows, now))
  {
    hide Cleanup;
    assert Cleaned(c, a, now).rooms == rooms;
  }

  method CleanStep(h: Hub, connected: seq<Peer>, now: int)
    requires h.Valid() && AllKnown(h, connected)
    modifies h, h.limiter, h.allPeers, h.allRooms
    ensures h.Valid() && h.allPeers == old(h.allPeers) && h.allRooms == old(h.allRooms)
    ensures Consistent(old(Snap(h, connected)))
    ensures Snap(h, connected) == Cleaned(Conf(h), old(Snap(h, connected)), now)
  {
    ghost var a := Snap(h, connected);
    Recorded(h, connected);
    SnapIsConsistent(h, connected);
    hide Hub.Valid, Snap, Cleanup, Cleaned, Consistent, SameBut;
    CleanAlone(h, now, a);
    SameRooms(h, connected, a);
    CleanedIs(Conf(h), a, now, h.rooms);
  }

  // ---- Runs ----

  predicate IsRegistered(h: Hub, r: Room)
    reads h
  {
    r.code in h.rooms && h.rooms[r.code] == r
  }

  /** One call changes the recorded state as `Becomes` says. */
  method Step(h: Hub, connected: seq<Peer>, action: Action, now: int) returns (after: seq<Peer>)
    requires h.Valid() && AllKnown(h, connected)
    modifies h, h.limiter, h.allPeers, h.allRooms
    ensures h.Valid() && AllKnown(h, after) && Consistent(old(Snap(h, connected)))
    ensures fresh(h.allPeers - old(h.allPeers)) && fresh(h.allRooms - old(h.allRooms)) && old(h.allRooms) <= h.allRooms
    ensures Becomes(Conf(h), old(Snap(h, connected)), action, now, Snap(h, after))
  {
    SnapIsConsistent(h, connected);
    hide Hub.Valid, Snap, Consistent, Creation, Joined, Refreshed, Left, Cleaned;
    after := connected;
    match action
    case Connects(ip) =>
      var p := ConnectStep(h, connected, ip);
      after := connected + [p];
    case Creates(who, draws) =>
      if who < |connected| {
        CreateStep(h, connected, connected[who], draws, now);
      }
    case Joins(who, asked, code) =>
      if who < |connected| {
        JoinStep(h, connected, connected[who], asked, code, now);
      }
    case Relays(who, payload, error) =>
      if who < |connected| {
        RelayStep(h, connected, connected[who], payload, error, now);
      }
    case Leaves(who) =>
      if who < |connected| {
        LeaveStep(h, connected, connected[who], now);
      }
    case Cleans =>
      CleanStep(h, connected, now);
  }

  lemma SnapShows(h: Hub, connected: seq<Peer>)
    ensures var a := Snap(h, connected);
            && a.seats.Keys == h.allRooms
            && forall r :: r in h.allRooms ==>
                 (Registered(a, r) <==> IsRegistered(h, r)) && (Occupied(a, r) <==> r.Occupied())
  {
  }

  lemma TraceGrows(c: Config, states: seq<Snapshot>, actions: seq<(Action, int)>, k: nat, b: Snapshot)
    requires k < |actions| && IsTrace(c, states, actions[..k])
    requires Consistent(b) && Becomes(c, states[k], actions[k].0, actions[k].1, b)
    ensures IsTrace(c, states + [b], actions[..k + 1])
  {
    hide Consistent, Becomes;
  }

  /** Any sequence of calls at any times: the recorded states are a trace. So a room is registered in the end
      exactly when it was in the beginning, has a peer in the end, and no call condemned it while
      it was registered. */
  method Watch(h: Hub, start: seq<Peer>, actions: seq<(Action, int)>) returns (connected: seq<Peer>, ghost states: seq<Snapshot>)
    requires h.Valid() && AllKnown(h, start)
    modifies h, h.limiter, h.allPeers, h.allRooms
    ensures h.Valid() && AllKnown(h, connected)
    ensures fresh(h.allPeers - old(h.allPeers)) && fresh(h.allRooms - old(h.allRooms))
    ensures IsTrace(Conf(h), states, actions) && states[0] == old(Snap(h, start)) && states[|actions|] == Snap(h, connected)
    ensures forall r :: r in old(h.allRooms) ==>
            (IsRegistered(h, r) <==> old(IsRegistered(h, r)) && r.Occupied() && NeverLost(Conf(h), states, actions, r))
  {
    SnapIsConsistent(h, start);
    SnapShows(h, start);
    hide Hub.Valid, Consistent, Becomes, Snap, IsRegistered, Registered, Occupied, Room.Occupied, NeverLost;
    connected, states := start, [Snap(h, start)];
    for k := 0 to |actions|
      invariant h.Valid() && AllKnown(h, connected)
      invariant fresh(h.allPeers - old(h.allPeers)) && fresh(h.allRooms - old(h.allRooms)) && old(h.allRooms) <= h.allRooms
      invariant IsTrace(Conf(h), states, actions[..k]) && states[0] == old(Snap(h, start)) && states[k] == Snap(h, connected)
    {
      connected := Step(h, connected, actions[k].0, actions[k].1);
      SnapIsConsistent(h, connected);
      TraceGrows(Conf(h), states, actions, k, Snap(h, connected));
      states := states + [Snap(h, connected)];
    }
    assert actions[..|actions|] == actions;
    SnapShows(h, connected);
    forall r | r in states[0].seats
      ensures Registered(states[|actions|], r)
              <==> Registered(states[0], r) && Occupied(states[|actions|], r) && NeverLost(Conf(h), states, actions, r)
    {
      RegisteredInTheEndIff(Conf(h), states, actions, r);
    }
  }

  /** Any sequence of calls at any times, from an empty hub: a room is registered in the end exactly when it has
      a peer and no call condemned it while it was registered. */
  method Run(rateLimit: int, roomTTL: int, maxRooms: nat, actions: seq<(Action, int)>)
    returns (h: Hub, connected: seq<Peer>, ghost states: seq<Snapshot>)
    ensures h.Valid() && AllKnown(h, connected) && Conf(h) == Config(rateLimit, roomTTL, maxRooms)
    ensures IsTrace(Conf(h), states, actions) && states[|actions|] == Snap(h, connected)
    ensures states[0] == Snapshot(map[], map[], map[], map[], map[], map[], [])
    ensures forall r :: r in h.allRooms ==> (IsRegistered(h, r) <==> r.Occupied() && NeverLost(Conf(h), states, actions, r))
  {
    h := new Hub(rateLimit, roomTTL, maxRooms);
    assert Snap(h, []) == Snapshot(map[], map[], map[], map[], map[], map[], []);
    hide Hub.Valid, IsTrace, Snap, IsRegistered, Registered, Occupied, Room.Occupied, NeverLost;
    connected, states := Watch(h, [], actions);
    SnapShows(h, connected);
    forall r | r in h.allRooms
      ensures Registered(states[|actions|], r) <==> Occupied(states[|actions|], r) && NeverLost(Conf(h), states, actions, r)
    {
      FromEmptyIff(Conf(h), states, actions, r);
    }
  }

  // ---- Two ways for a room in use to be out of the registry ----

  /** A hub in which a room has expired under its only peer. */
  method ExpiredRoom(code: string) returns (h: Hub, first: Peer)
    ensures fresh(h) && fresh(h.limiter) && fresh(h.allPeers) && fresh(h.allRooms)
    ensures h.Valid() && h.rooms == map[] && h.maxRooms == 2 && h.roomTTL == 30 && h.limiter.rateLimit == 0
    ensures first in h.allPeers && first.room != null
    ensures first.room.code == code && first.room.peers == map[first.id := first]
  {
    hide Hub.PeersOk, Hub.RegistryOk, Hub.WithinLimit;
    h := new Hub(0, 30, 2);
    first := h.Connect("");
    var draws := [code];
    assert draws[0] !in h.rooms;
    var _ := h.CreateRoom(first, draws, 0);
    assert first.room.code == code;
    h.CleanupExpiredRooms(31);
    assert forall other :: other in h.rooms ==> other == code;
    assert h.rooms == map[];
  }

  /** Its code is drawn again for another peer. */
  method ReissuedRoom(code: string) returns (h: Hub, first: Peer, p: Peer)
    ensures fresh(h) && fresh(h.allPeers) && fresh(h.allRooms)
    ensures h.Valid() && h.roomTTL == 30
    ensures p in h.allPeers && p.room != null && h.rooms == map[code := p.room] && p.room.updated == 31
    ensures first in h.allPeers && first.room != null && first.room != p.room
    ensures first.room.code == code && p.room.code == code && first.room.peers == map[first.id := first]
  {
    hide Hub.PeersOk, Hub.RegistryOk, Hub.WithinLimit;
    h, first := ExpiredRoom(code);
    p := h.Connect("");
    var draws := [code];
    assert draws[0] !in h.rooms;
    var _ := h.CreateRoom(p, draws, 31);
  }

  /** For every code: a run after which a peer sits in a room that was just used and that nobody can join. Here
      the code was reissued while its expired room still had a peer, and that peer left. */
  method ReissuedCode(code: string) returns (h: Hub, p: Peer)
    ensures h.Valid() && p in h.allPeers && p.room != null && p.room.updated == 31 && h.roomTTL == 30
    ensures p.room.code == code && code !in h.rooms
  {
    hide Hub.PeersOk, Hub.RegistryOk, Hub.WithinLimit;
    var first: Peer;
    h, first, p := ReissuedRoom(code);
    h.RemovePeer(first, 31);
    assert code !in h.rooms;
  }

  /** For every code: a run without a reissued code that ends the same way. A join finds the room expired and
      takes out its registration without a word to the peer in it, who goes on using the room. */
  method ExpiredByJoin(code: string) returns (h: Hub, p: Peer, refusal: string)
    requires IsValidRoomCode(code)
    ensures h.Valid() && p in h.allPeers && p.room != null && p.room.updated == 31 && h.roomTTL == 30
    ensures p.room.code == code && code !in h.rooms && refusal == "expired_code"
    ensures p.outbox == [RoomCreated(code, "A")]
  {
    hide Hub.PeersOk, Hub.RegistryOk, Hub.WithinLimit, IsValidRoomCode;
    var other: Peer;
    h, p, other := LongUnused(code);
    refusal := h.JoinRoom(other, code, code, 31);
    h.RelayPayload(p, "text", "", 31);
  }

  /** A room whose only peer has not used it for too long, and a second connection. */
  method LongUnused(code: string) returns (h: Hub, p: Peer, other: Peer)
    ensures fresh(h) && fresh(h.limiter) && fresh(h.allPeers) && fresh(h.allRooms)
    ensures h.Valid() && h.roomTTL == 30 && h.limiter.rateLimit == 0
    ensures p in h.allPeers && other in h.allPeers && other != p && other.room == null
    ensures p.room != null && p.room in h.allRooms && h.rooms == map[code := p.room]
    ensures p.room.code == code && p.room.updated == 0 && p.room.peers == map["A" := p]
    ensures p.outbox == [RoomCreated(code, "A")]
  {
    hide Hub.PeersOk, Hub.RegistryOk, Hub.WithinLimit;
    h := new Hub(0, 30, 2);
    p := h.Connect("");
    var draws := [code];
    assert draws[0] !in h.rooms;
    var _ := h.CreateRoom(p, draws, 0);
    other := h.Connect("");
  }
}
