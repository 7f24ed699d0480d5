/** What the relay answers to a request for a room, condition by condition, and that a created room can be joined
    by the code it was created under. */
module RelayVerdicts {
  import opened RateLimiter
  import opened RelayHub
  import opened RelayTrace

  /** Digits from 2 and capital letters but I and O. */
  predicate IsCodeChar(c: char) {
    '2' <= c <= '9' || ('A' <= c <= 'Z' && c != 'I' && c != 'O')
  }

  predicate IsCode(code: string) {
    6 <= |code| <= 32 && forall i :: 0 <= i < |code| ==> IsCodeChar(code[i])
  }

  lemma AlphabetHas(c: char)
    requires IsCodeChar(c)
    ensures c in ROOM_CODE_ALPHABET
  {
    var i := if c <= '9' then (c - '2') as int else if c < 'I' then (c - 'A') as int + 8
             else if c < 'O' then (c - 'A') as int + 7 else (c - 'A') as int + 6;
    assert ROOM_CODE_ALPHABET[i] == c;
  }

  lemma AlphabetHasOnly(c: char)
    requires c in ROOM_CODE_ALPHABET
    ensures IsCodeChar(c)
  {
  }

  lemma AlphabetIs(c: char)
    ensures c in ROOM_CODE_ALPHABET <==> IsCodeChar(c)
  {
    hide IsCodeChar;
    if IsCodeChar(c) {
      AlphabetHas(c);
    }
    if c in ROOM_CODE_ALPHABET {
      AlphabetHasOnly(c);
    }
  }

  /** The codes a join may name. */
  lemma ValidCodeIff(code: string)
    ensures IsValidRoomCode(code) <==> IsCode(code)
  {
    hide IsCodeChar;
    forall i | 0 <= i < |code|
      ensures code[i] in ROOM_CODE_ALPHABET <==> IsCodeChar(code[i])
    {
      AlphabetIs(code[i]);
    }
  }

  /** Every answer to a join, in every state of the hub: when it is given, and that it is one of these. */
  lemma JoinVerdict(h: Hub, allowed: bool, p: Peer, code: string, now: int)
    requires h.Valid() && p in h.allPeers
    ensures var verdict := h.JoinRefusal(allowed, p, code, now);
            var asks := allowed && IsCode(code) && p.room == null && code in h.rooms;
            && (verdict == "rate_limited" <==> !allowed)
            && (verdict == "already_joined" <==> allowed && IsCode(code) && p.room != null)
            && (verdict == "invalid_code" <==> allowed && (!IsCode(code) || (p.room == null && code !in h.rooms)))
            && (verdict == "expired_code" <==> asks && h.rooms[code].updated + h.roomTTL < now)
            && (verdict == "room_full" <==> asks && now <= h.rooms[code].updated + h.roomTTL && |h.rooms[code].peers| == 2)
            && (verdict == "" <==> asks && now <= h.rooms[code].updated + h.roomTTL && |h.rooms[code].peers| == 1)
  {
    ValidCodeIff(code);
    if code in h.rooms {
      h.Registered(code);
      TwoPeersAtMost(h, h.rooms[code]);
    }
    hide Hub.Valid, IsValidRoomCode, IsCode;
  }

  /** Every answer to the wish for a new room. */
  lemma CreateVerdict(h: Hub, allowed: bool, p: Peer, draws: seq<string>)
    requires h.Valid() && p in h.allPeers && |draws| == 100
    ensures var verdict := h.CreateRefusal(allowed, p, draws);
            var room := allowed && p.room == null && |h.rooms| < h.maxRooms;
            && (verdict == "rate_limited" <==> !allowed)
            && (verdict == "already_joined" <==> allowed && p.room != null)
            && (verdict == "server_busy" <==> allowed && p.room == null && |h.rooms| == h.maxRooms)
            && (verdict == "room_code_failed" <==> room && forall code :: code in draws ==> code in h.rooms)
            && (verdict == "" <==> room && exists code :: code in draws && code !in h.rooms)
  {
    hide Hub.PeersOk, Hub.RegistryOk;
    forall code | code in draws && forall i :: 0 <= i < |draws| && i < MAX_CODE_ATTEMPTS ==> draws[i] in h.rooms
      ensures code in h.rooms
    {
      var i :| 0 <= i < |draws| && draws[i] == code;
    }
  }

  /** A room created under a drawn code: until it expires, any other connection that is in no room and not
      refused by the limiter joins it by that code, as its second peer. */
  lemma CreatedCanBeJoined(c: Config, a: Snapshot, p: Peer, draws: seq<string>, now: int, b: Snapshot, q: Peer, later: int)
    requires Consistent(a) && Consistent(b) && p in a.roomOf && Creation(c, a, p, draws, now, b) && CreateAllowed(c, a, p, draws, now)
    requires forall code :: code in draws ==> IsCode(code)
    requires q in b.roomOf && b.roomOf[q] == null && later <= now + c.roomTTL
    requires Allow(b.windows, c.rateLimit, q.ip, later).allowed
    ensures b.roomOf[p] != null
    ensures var r: Room := b.roomOf[p];
            var d := Joined(c, b, q, r.code, later);
            && Registered(d, r) && d.roomOf[q] == r && d.idOf[q] == "B" && d.idOf[p] == "A"
            && d.seats[r] == map["A" := p, "B" := q] && d.updated[r] == later
  {
    hide Allow, IsValidRoomCode, IsCode, CreateAllowed;
    var r: Room := b.roomOf[p];
    ValidCodeIff(r.code);
    OnePeerIn(p);
  }

  lemma OnePeerIn(p: Peer)
    ensures var seats := map["A" := p]; |seats| == 1 && NextPeerId(seats.Keys) == "B"
  {
  }

  /** What a cleanup leaves: the registered rooms used within the limit, and the limiter windows less than two
      minutes old, all as they were. */
  lemma CleanupLeaves(c: Config, a: Snapshot, now: int)
    requires Consistent(a)
    ensures var b := Cleaned(c, a, now);
            && b == a.(rooms := b.rooms, windows := b.windows)
            && (forall code :: code in b.rooms <==> code in a.rooms && now <= a.updated[a.rooms[code]] + c.roomTTL)
            && (forall code :: code in b.rooms ==> b.rooms[code] == a.rooms[code])
            && (forall ip :: ip in b.windows <==> ip in a.windows && now < a.windows[ip].start + 120_000_000_000)
            && (forall ip :: ip in b.windows ==> b.windows[ip] == a.windows[ip])
  {
  }
}
