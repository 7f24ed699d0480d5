/** What the relay hub's calls do to its registry, on recorded states: one state before the first call and one
    after each. A call determines the next state, but for the identity of a new connection and of a new
    room and the code drawn for it. */
module RelayTrace {
  import opened RateLimiter
  import opened RelayHub

  /** One call of the hub. Connections are named by the order in which they were accepted. */
  datatype Action =
    | Connects(ip: string)
    | Creates(who: nat, draws: seq<string>)
    | Joins(who: nat, asked: string, code: string)
    | Relays(who: nat, payload: string, error: string)
    | Leaves(who: nat)
    | Cleans

  datatype Config = Config(rateLimit: int, roomTTL: int, maxRooms: nat)

  /** A state of the hub, its rooms and its connections, without what has been sent. */
  datatype Snapshot = Snapshot(rooms: map<string, Room>, updated: map<Room, int>, seats: map<Room, map<string, Peer>>,
                               roomOf: map<Peer, Room?>, idOf: map<Peer, string>, windows: Windows, connected: seq<Peer>)

  predicate Sits(seats: map<string, Peer>) {
    "A" in seats || "B" in seats
  }

  predicate Registered(a: Snapshot, r: Room) {
    r.code in a.rooms && a.rooms[r.code] == r
  }

  predicate Occupied(a: Snapshot, r: Room) {
    r in a.seats && Sits(a.seats[r])
  }

  /** What holds in every state of the hub: peers and rooms point at each other, registered rooms are filed
      under their own codes and have a peer. */
  ghost predicate Consistent(a: Snapshot) {
    && a.updated.Keys == a.seats.Keys && a.idOf.Keys == a.roomOf.Keys
    && (forall p :: p in a.connected ==> p in a.roomOf)
    && (forall code :: code in a.rooms ==> a.rooms[code] in a.seats && a.rooms[code].code == code && Sits(a.seats[a.rooms[code]]))
    && (forall p :: p in a.roomOf && a.roomOf[p] != null ==>
          a.roomOf[p] in a.seats && a.idOf[p] in a.seats[a.roomOf[p]] && a.seats[a.roomOf[p]][a.idOf[p]] == p)
    && (forall r, id {:trigger r in a.seats, id in a.seats[r]} :: r in a.seats && id in a.seats[r] ==> IsPeerId(id))
  }

  /** The seats of a room without one of its peers. */
  function SeatsLeft(a: Snapshot, p: Peer): map<string, Peer>
    requires Consistent(a) && p in a.roomOf && a.roomOf[p] != null
  {
    a.seats[a.roomOf[p]] - {a.idOf[p]}
  }

  predicate CreateAllowed(c: Config, a: Snapshot, p: Peer, draws: seq<string>, now: int)
    requires p in a.roomOf
  {
    && Allow(a.windows, c.rateLimit, p.ip, now).allowed
    && a.roomOf[p] == null && |a.rooms| < c.maxRooms
    && exists i :: 0 <= i < |draws| && i < MAX_CODE_ATTEMPTS && draws[i] !in a.rooms
  }

  /** The join gets as far as a registered room. */
  predicate FindsRoom(c: Config, a: Snapshot, p: Peer, code: string, now: int)
    requires p in a.roomOf
  {
    Allow(a.windows, c.rateLimit, p.ip, now).allowed && IsValidRoomCode(code) && a.roomOf[p] == null && code in a.rooms
  }

  predicate FindsExpired(c: Config, a: Snapshot, p: Peer, code: string, now: int)
    requires Consistent(a) && p in a.roomOf
  {
    FindsRoom(c, a, p, code, now) && now - a.updated[a.rooms[code]] > c.roomTTL
  }

  ghost predicate Becomes(c: Config, a: Snapshot, action: Action, now: int, b: Snapshot)
    requires Consistent(a)
  {
    match action
    case Connects(ip) =>
      && |b.connected| == |a.connected| + 1
      && var p := b.connected[|a.connected|];
         && p !in a.roomOf && p.ip == ip
         && b == a.(roomOf := a.roomOf[p := null], idOf := a.idOf[p := ""], connected := a.connected + [p])
    case Creates(who, draws) => if who < |a.connected| then Creation(c, a, a.connected[who], draws, now, b) else b == a
    case Joins(who, _, code) => b == if who < |a.connected| then Joined(c, a, a.connected[who], code, now) else a
    case Relays(who, _, error) => b == if who < |a.connected| && error == "" then Refreshed(a, a.connected[who], now) else a
    case Leaves(who) => b == if who < |a.connected| then Left(a, a.connected[who], now) else a
    case Cleans => b == Cleaned(c, a, now)
  }

  ghost predicate Creation(c: Config, a: Snapshot, p: Peer, draws: seq<string>, now: int, b: Snapshot)
    requires Consistent(a) && p in a.roomOf
  {
    var windows := Allow(a.windows, c.rateLimit, p.ip, now).windows;
    if CreateAllowed(c, a, p, draws, now) then
      && p in b.roomOf && b.roomOf[p] != null
      && var r: Room := b.roomOf[p];
         && r !in a.seats && r.code in draws && r.code !in a.rooms
         && b == a.(rooms := a.rooms[r.code := r], updated := a.updated[r := now], seats := a.seats[r := map["A" := p]],
                    roomOf := a.roomOf[p := r], idOf := a.idOf[p := "A"], windows := windows)
    else
      b == a.(windows := windows)
  }

  function Joined(c: Config, a: Snapshot, p: Peer, code: string, now: int): Snapshot
    requires Consistent(a) && p in a.roomOf
  {
    var counted := a.(windows := Allow(a.windows, c.rateLimit, p.ip, now).windows);
    if !FindsRoom(c, a, p, code, now) then counted
    else
      var r := a.rooms[code];
      if now - a.updated[r] > c.roomTTL then counted.(rooms := a.rooms - {code})
      else if |a.seats[r]| >= 2 then counted
      else
        var id := NextPeerId(a.seats[r].Keys);
        counted.(updated := a.updated[r := now], seats := a.seats[r := a.seats[r][id := p]],
                 roomOf := a.roomOf[p := r], idOf := a.idOf[p := id])
  }

  function Refreshed(a: Snapshot, p: Peer, now: int): Snapshot
    requires p in a.roomOf
  {
    if a.roomOf[p] == null then a else a.(updated := a.updated[a.roomOf[p] := now])
  }

  function Left(a: Snapshot, p: Peer, now: int): Snapshot
    requires Consistent(a) && p in a.roomOf
  {
    if a.roomOf[p] == null then a
    else
      var r: Room := a.roomOf[p];
      var left := a.(seats := a.seats[r := SeatsLeft(a, p)], roomOf := a.roomOf[p := null]);
      if Sits(SeatsLeft(a, p)) then left.(updated := a.updated[r := now]) else left.(rooms := a.rooms - {r.code})
  }

  function Cleaned(c: Config, a: Snapshot, now: int): Snapshot
    requires Consistent(a)
  {
    a.(rooms := map code | code in a.rooms && now - a.updated[a.rooms[code]] <= c.roomTTL :: a.rooms[code],
       windows := Cleanup(a.windows, now))
  }

  // ---- What ends a registration ----

  /** The call ends the registration of a registered room: a join with its code after it expired, a cleanup
      for which it is due, or the end of the last connection of another room with its code. */
  ghost predicate Condemned(c: Config, a: Snapshot, action: Action, now: int, r: Room)
    requires Consistent(a)
  {
    match action
    case Joins(who, _, code) => who < |a.connected| && code == r.code && FindsExpired(c, a, a.connected[who], code, now)
    case Cleans => Registered(a, r) && now - a.updated[r] > c.roomTTL
    case Leaves(who) => who < |a.connected| && TakesAlong(a, a.connected[who], r)
    case _ => false
  }

  predicate TakesAlong(a: Snapshot, p: Peer, r: Room)
    requires p in a.roomOf && p in a.idOf
  {
    && a.roomOf[p] != null && a.roomOf[p] != r && a.roomOf[p].code == r.code
    && a.roomOf[p] in a.seats && a.seats[a.roomOf[p]].Keys == {a.idOf[p]}
  }

  lemma SitsIff(a: Snapshot, p: Peer)
    requires Consistent(a) && p in a.roomOf && a.roomOf[p] != null
    ensures Sits(SeatsLeft(a, p)) <==> a.seats[a.roomOf[p]].Keys != {a.idOf[p]}
  {
    var seats, id := a.seats[a.roomOf[p]], a.idOf[p];
    assert forall other :: other in seats ==> IsPeerId(other);
    if !Sits(SeatsLeft(a, p)) {
      assert seats.Keys == {id};
    }
  }

  lemma CreationKeeps(c: Config, a: Snapshot, p: Peer, draws: seq<string>, now: int, b: Snapshot, r: Room)
    requires Consistent(a) && p in a.roomOf && Creation(c, a, p, draws, now, b) && r in a.seats
    ensures r in b.seats && (Registered(b, r) <==> Registered(a, r)) && (Occupied(b, r) ==> Occupied(a, r))
  {
    hide CreateAllowed, Allow;
  }

  lemma JoinedKeeps(c: Config, a: Snapshot, p: Peer, code: string, now: int, r: Room)
    requires Consistent(a) && p in a.roomOf && r in a.seats
    ensures var b := Joined(c, a, p, code, now);
            && r in b.seats && (Occupied(b, r) ==> Occupied(a, r))
            && (Registered(b, r) <==> Registered(a, r) && !(code == r.code && FindsExpired(c, a, p, code, now)))
  {
    hide Allow, IsValidRoomCode;
  }

  lemma LeftKeeps(a: Snapshot, p: Peer, now: int, r: Room)
    requires Consistent(a) && p in a.roomOf && r in a.seats
    ensures var b := Left(a, p, now);
            && r in b.seats && (Occupied(b, r) ==> Occupied(a, r)) && (Registered(b, r) ==> Registered(a, r))
            && (Registered(a, r) && Occupied(b, r) ==> (!Registered(b, r) <==> TakesAlong(a, p, r)))
  {
    if a.roomOf[p] != null {
      SitsIff(a, p);
    }
  }

  lemma CleanedKeeps(c: Config, a: Snapshot, now: int, r: Room)
    requires Consistent(a) && r in a.seats
    ensures var b := Cleaned(c, a, now);
            && r in b.seats && (Occupied(b, r) ==> Occupied(a, r))
            && (Registered(b, r) <==> Registered(a, r) && !(now - a.updated[r] > c.roomTTL))
  {
    hide Cleanup;
  }

  lemma Known(a: Snapshot, who: nat)
    requires Consistent(a)
    ensures who < |a.connected| ==> a.connected[who] in a.roomOf
  {
  }

  /** One call: a room is registered after it exactly when it was before, still has a peer, and the call does
      not condemn it. An empty room gets no peer. */
  lemma RegisteredIff(c: Config, a: Snapshot, action: Action, now: int, b: Snapshot, r: Room)
    requires Consistent(a) && Consistent(b) && Becomes(c, a, action, now, b) && r in a.seats
    ensures r in b.seats
    ensures Registered(b, r) <==> Registered(a, r) && Occupied(b, r) && !Condemned(c, a, action, now, r)
    ensures Occupied(b, r) ==> Occupied(a, r)
  {
    assert Registered(b, r) ==> Occupied(b, r);
    match action {
      case Connects(ip) =>
      case Creates(who, draws) =>
        Known(a, who);
        if who < |a.connected| {
          hide Consistent, Creation;
          CreationKeeps(c, a, a.connected[who], draws, now, b, r);
        }
      case Joins(who, _, code) =>
        Known(a, who);
        if who < |a.connected| {
          hide Consistent, Joined;
          JoinedKeeps(c, a, a.connected[who], code, now, r);
        }
      case Relays(who, _, _) => hide Consistent;
      case Leaves(who) =>
        Known(a, who);
        if who < |a.connected| {
          hide Consistent, Left;
          LeftKeeps(a, a.connected[who], now, r);
        }
      case Cleans =>
        hide Consistent, Cleaned;
        CleanedKeeps(c, a, now, r);
    }
  }

  // ---- Runs ----

  /** The states of a run, one more than its calls. */
  ghost predicate IsTrace(c: Config, states: seq<Snapshot>, actions: seq<(Action, int)>) {
    && |states| == |actions| + 1
    && (forall k :: 0 <= k < |states| ==> Consistent(states[k]))
    && (forall k :: 0 <= k < |actions| ==> Becomes(c, states[k], actions[k].0, actions[k].1, states[k + 1]))
  }

  /** Call `k` of the run ends the registration of the room. */
  ghost predicate LosesAt(c: Config, states: seq<Snapshot>, actions: seq<(Action, int)>, r: Room, k: nat)
    requires IsTrace(c, states, actions)
  {
    k < |actions| && Registered(states[k], r) && Condemned(c, states[k], actions[k].0, actions[k].1, r)
  }

  lemma TracePrefix(c: Config, states: seq<Snapshot>, actions: seq<(Action, int)>)
    requires IsTrace(c, states, actions) && actions != []
    ensures IsTrace(c, states[..|actions|], actions[..|actions| - 1])
  {
    hide Consistent, Becomes;
  }

  lemma {:induction false} KnownThroughout(c: Config, states: seq<Snapshot>, actions: seq<(Action, int)>, r: Room)
    requires IsTrace(c, states, actions) && r in states[0].seats
    ensures forall k :: 0 <= k < |states| ==> r in states[k].seats
    decreases |actions|
  {
    hide Consistent, Becomes;
    if actions != [] {
      var n := |actions|;
      TracePrefix(c, states, actions);
      KnownThroughout(c, states[..n], actions[..n - 1], r);
      assert states[..n][n - 1] == states[n - 1];
      RegisteredIff(c, states[n - 1], actions[n - 1].0, actions[n - 1].1, states[n], r);
      forall k | 0 <= k < |states|
        ensures r in states[k].seats
      {
        if k < n {
          assert states[..n][k] == states[k];
        }
      }
    }
  }

  ghost predicate NeverLost(c: Config, states: seq<Snapshot>, actions: seq<(Action, int)>, r: Room)
    requires IsTrace(c, states, actions)
  {
    forall k: nat :: k < |actions| ==> !LosesAt(c, states, actions, r, k)
  }

  lemma SameLoss(c: Config, states: seq<Snapshot>, actions: seq<(Action, int)>, r: Room, k: nat)
    requires IsTrace(c, states, actions) && actions != [] && k < |actions| - 1
    requires IsTrace(c, states[..|actions|], actions[..|actions| - 1])
    ensures LosesAt(c, states[..|actions|], actions[..|actions| - 1], r, k) <==> LosesAt(c, states, actions, r, k)
  {
    hide Consistent, Becomes, Condemned, Registered;
    assert states[..|actions|][k] == states[k] && actions[..|actions| - 1][k] == actions[k];
    assert Consistent(states[k]);
  }

  lemma NeverLostStep(c: Config, states: seq<Snapshot>, actions: seq<(Action, int)>, r: Room)
    requires IsTrace(c, states, actions) && actions != []
    requires IsTrace(c, states[..|actions|], actions[..|actions| - 1])
    ensures NeverLost(c, states, actions, r)
            <==> NeverLost(c, states[..|actions|], actions[..|actions| - 1], r) && !LosesAt(c, states, actions, r, |actions| - 1)
  {
    assert |states| == |actions| + 1;
    hide IsTrace, LosesAt;
    var earlier, done := states[..|actions|], actions[..|actions| - 1];
    forall k: nat | k < |done|
      ensures LosesAt(c, earlier, done, r, k) <==> LosesAt(c, states, actions, r, k)
    {
      SameLoss(c, states, actions, r, k);
    }
    if NeverLost(c, earlier, done, r) && !LosesAt(c, states, actions, r, |actions| - 1) {
      forall k: nat | k < |actions|
        ensures !LosesAt(c, states, actions, r, k)
      {
        if k < |done| {
          assert !LosesAt(c, earlier, done, r, k);
        }
      }
    }
    if NeverLost(c, states, actions, r) {
      forall k: nat | k < |done|
        ensures !LosesAt(c, earlier, done, r, k)
      {
        assert !LosesAt(c, states, actions, r, k);
      }
    }
  }

  lemma LastCall(c: Config, states: seq<Snapshot>, actions: seq<(Action, int)>, r: Room)
    requires IsTrace(c, states, actions) && actions != [] && r in states[|actions| - 1].seats
    ensures var n := |actions| - 1;
            && (Registered(states[n + 1], r) <==>
                  Registered(states[n], r) && Occupied(states[n + 1], r) && !LosesAt(c, states, actions, r, n))
            && (Occupied(states[n + 1], r) ==> Occupied(states[n], r))
  {
    hide Consistent, Becomes, Condemned, Registered, Occupied;
    var n := |actions| - 1;
    assert Consistent(states[n]) && Consistent(states[n + 1]);
    RegisteredIff(c, states[n], actions[n].0, actions[n].1, states[n + 1], r);
  }

  lemma RegisteredIsOccupied(a: Snapshot, r: Room)
    requires Consistent(a) && Registered(a, r)
    ensures Occupied(a, r)
  {
  }

  /** Over every run, a room is registered in the end exactly when it was in the beginning, has a peer in the
      end, and no call condemned it while it was registered. A lost registration is never regained. */
  lemma {:induction false} RegisteredInTheEndIff(c: Config, states: seq<Snapshot>, actions: seq<(Action, int)>, r: Room)
    requires IsTrace(c, states, actions) && r in states[0].seats
    ensures var last := states[|actions|];
            Registered(last, r) <==> Registered(states[0], r) && Occupied(last, r) && NeverLost(c, states, actions, r)
    decreases |actions|
  {
    if actions == [] {
      assert Consistent(states[0]);
      if Registered(states[0], r) {
        RegisteredIsOccupied(states[0], r);
      }
    } else {
      var n := |actions| - 1;
      TracePrefix(c, states, actions);
      assert r in states[n].seats by {
        KnownThroughout(c, states, actions, r);
      }
      hide Consistent, Becomes, Condemned, Registered, Occupied, NeverLost, LosesAt;
      RegisteredInTheEndIff(c, states[..n + 1], actions[..n], r);
      assert states[..n + 1][n] == states[n];
      LastCall(c, states, actions, r);
      NeverLostStep(c, states, actions, r);
    }
  }

  /** A room that is new after a call is registered. */
  lemma NewRoomIsRegistered(c: Config, a: Snapshot, action: Action, now: int, b: Snapshot, r: Room)
    requires Consistent(a) && Becomes(c, a, action, now, b) && r !in a.seats && r in b.seats
    ensures Registered(b, r)
  {
    hide Allow, Cleanup, IsValidRoomCode, CreateAllowed;
  }

  /** In every run from an empty hub, a room is registered in the end exactly when it has a peer and no call
      condemned it while it was registered. */
  lemma {:induction false} FromEmptyIff(c: Config, states: seq<Snapshot>, actions: seq<(Action, int)>, r: Room)
    requires IsTrace(c, states, actions) && states[0].seats == map[]
    ensures var last := states[|actions|];
            if r in last.seats then Registered(last, r) <==> Occupied(last, r) && NeverLost(c, states, actions, r)
            else NeverLost(c, states, actions, r)
    decreases |actions|
  {
    if actions != [] {
      var n := |actions| - 1;
      TracePrefix(c, states, actions);
      assert Registered(states[n], r) ==> r in states[n].seats;
      assert Registered(states[n + 1], r) ==> Occupied(states[n + 1], r);
      hide Consistent, Becomes, Condemned, NeverLost;
      FromEmptyIff(c, states[..n + 1], actions[..n], r);
      assert states[..n + 1][n] == states[n];
      if r in states[n].seats {
        LastCall(c, states, actions, r);
        RegisteredIff(c, states[n], actions[n].0, actions[n].1, states[n + 1], r);
      } else if r in states[n + 1].seats {
        NewRoomIsRegistered(c, states[n], actions[n].0, actions[n].1, states[n + 1], r);
      }
      NeverLostStep(c, states, actions, r);
    }
  }
}
