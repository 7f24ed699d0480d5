/** Who may join the host's room (client/sync_server.cpp HandleClient, RegisterJoinFailure and
    IsJoinBlocked). Every connection has its own handler thread; each step below is one hold of the
    server's mutex or one local step of a handler, and the steps interleave freely. */
module Admission {
  import opened WideText

  const MAX_FAILED_JOIN_ATTEMPTS: nat := 5

  type Socket = nat

  datatype Gate = Gate(peerJoined: bool, peerSocket: Option<Socket>, failedJoinCount: nat)

  /** The fields of the server that handlers share, changed under its mutex. */
  class JoinGate {
    var peerJoined: bool
    var peerSocket: Option<Socket>
    var failedJoinCount: nat

    ghost function State(): Gate
      reads this
    {
      Gate(peerJoined, peerSocket, failedJoinCount)
    }

    constructor ()
      ensures State() == Gate(false, None, 0)
    {
      peerJoined, peerSocket, failedJoinCount := false, None, 0;
    }

    method RegisterJoinFailure() returns (blocked: bool)
      modifies this
      ensures State() == Failed(old(State())) && blocked == Blocked(State())
    {
      failedJoinCount := failedJoinCount + 1;
      return failedJoinCount >= MAX_FAILED_JOIN_ATTEMPTS;
    }

    method IsJoinBlocked() returns (blocked: bool)
      ensures blocked == Blocked(State())
    {
      return failedJoinCount >= MAX_FAILED_JOIN_ATTEMPTS;
    }

    method Admit(socket: Socket) returns (joined: bool)
      modifies this
      ensures joined == !old(peerJoined)
      ensures State() == Admitted(old(State()), socket)
    {
      if peerJoined {
        return false;
      }
      peerJoined := true;
      peerSocket := Some(socket);
      return true;
    }

    /** The confirmation could not be sent: the joined socket is closed and forgotten. */
    method Abandon()
      modifies this
      ensures State() == Abandoned(old(State()))
    {
      peerSocket := None;
      peerJoined := false;
    }

    method Release(socket: Socket) returns (shouldClose: bool)
      modifies this
      ensures shouldClose == (old(peerSocket) == Some(socket))
      ensures State() == Released(old(State()), socket)
    {
      shouldClose := true;
      if peerSocket == Some(socket) {
        peerSocket := None;
        peerJoined := false;
      } else {
        shouldClose := false;
      }
    }
  }

  predicate Blocked(gate: Gate) {
    gate.failedJoinCount >= MAX_FAILED_JOIN_ATTEMPTS
  }

  function Failed(gate: Gate): Gate {
    gate.(failedJoinCount := gate.failedJoinCount + 1)
  }

  function Admitted(gate: Gate, socket: Socket): Gate {
    if gate.peerJoined then gate else gate.(peerJoined := true, peerSocket := Some(socket))
  }

  function Abandoned(gate: Gate): Gate {
    gate.(peerJoined := false, peerSocket := None)
  }

  function Released(gate: Gate, socket: Socket): Gate {
    if gate.peerSocket == Some(socket) then Abandoned(gate) else gate
  }

  /** Where a handler stands. A finished handler is gone, and its socket number may be used again. */
  datatype Phase =
    | AwaitsHello
    | AwaitsJoin
    | AwaitsBlockCheck(code: Text)
    | AwaitsCodeCheck(code: Text)
    | AwaitsAdmission(code: Text)
    | Confirming(code: Text)
    | Serving(code: Text)

  datatype Room = Room(sessionCode: Text, gate: Gate, handlers: map<Socket, Phase>)

  datatype Step =
    | Accepts(socket: Socket)
    | HandshakeFails(socket: Socket)      // no HELLO, or no JOIN, in time
    | HelloArrives(socket: Socket)
    | JoinArrives(socket: Socket, code: Text)
    | ChecksBlock(socket: Socket)
    | ChecksCode(socket: Socket)
    | TakesPlace(socket: Socket)
    | ConfirmationSent(socket: Socket)
    | ConfirmationFails(socket: Socket)
    | Leaves(socket: Socket)

  function Finish(s: Room, socket: Socket): Room {
    s.(handlers := s.handlers - {socket})
  }

  function Move(s: Room, socket: Socket, phase: Phase): Room {
    s.(handlers := s.handlers[socket := phase])
  }

  predicate Enabled(s: Room, step: Step) {
    var socket := step.socket;
    if step.Accepts? then socket !in s.handlers
    else
      && socket in s.handlers
      && match step
         case HandshakeFails(_) => s.handlers[socket].AwaitsHello? || s.handlers[socket].AwaitsJoin?
         case HelloArrives(_) => s.handlers[socket].AwaitsHello?
         case JoinArrives(_, _) => s.handlers[socket].AwaitsJoin?
         case ChecksBlock(_) => s.handlers[socket].AwaitsBlockCheck?
         case ChecksCode(_) => s.handlers[socket].AwaitsCodeCheck?
         case TakesPlace(_) => s.handlers[socket].AwaitsAdmission?
         case ConfirmationSent(_) => s.handlers[socket].Confirming?
         case ConfirmationFails(_) => s.handlers[socket].Confirming?
         case Leaves(_) => s.handlers[socket].Serving?
         case Accepts(_) => true
  }

  function Next(s: Room, step: Step): Room
    requires Enabled(s, step)
  {
    match step
    case Accepts(socket) => Move(s, socket, AwaitsHello)
    case HandshakeFails(socket) => Finish(s.(gate := Failed(s.gate)), socket)
    case HelloArrives(socket) => Move(s, socket, AwaitsJoin)
    case JoinArrives(socket, code) => Move(s, socket, AwaitsBlockCheck(code))
    case ChecksBlock(socket) =>
      if Blocked(s.gate) then Finish(s, socket) else Move(s, socket, AwaitsCodeCheck(s.handlers[socket].code))
    case ChecksCode(socket) =>
      if s.handlers[socket].code != s.sessionCode then Finish(s.(gate := Failed(s.gate)), socket)
      else Move(s, socket, AwaitsAdmission(s.handlers[socket].code))
    case TakesPlace(socket) =>
      var t := s.(gate := Admitted(s.gate, socket));
      if s.gate.peerJoined then Finish(t, socket) else Move(t, socket, Confirming(s.handlers[socket].code))
    case ConfirmationSent(socket) => Move(s, socket, Serving(s.handlers[socket].code))
    case ConfirmationFails(socket) => Finish(s.(gate := Abandoned(s.gate)), socket)
    case Leaves(socket) => Finish(s.(gate := Released(s.gate, socket)), socket)
  }

  /** Between admission and release. */
  predicate InRoom(s: Room, socket: Socket) {
    socket in s.handlers && (s.handlers[socket].Confirming? || s.handlers[socket].Serving?)
  }

  predicate PastBlockCheck(s: Room, socket: Socket) {
    socket in s.handlers && (s.handlers[socket].AwaitsCodeCheck? || s.handlers[socket].AwaitsAdmission? || InRoom(s, socket))
  }

  predicate Init(s: Room) {
    s.handlers == map[] && s.gate == Gate(false, None, 0)
  }

  ghost predicate Inv(s: Room) {
    && (s.gate.peerJoined <==> s.gate.peerSocket.Some?)
    && (forall socket: Socket :: InRoom(s, socket) <==> s.gate.peerSocket == Some(socket))
    && (forall socket: Socket :: socket in s.handlers && (s.handlers[socket].AwaitsAdmission? || InRoom(s, socket)) ==>
          s.handlers[socket].code == s.sessionCode)
  }

  lemma NextKeepsInv(s: Room, step: Step)
    requires Inv(s) && Enabled(s, step)
    ensures Inv(Next(s, step))
  {
    var t := Next(s, step);
    assert InRoom(s, step.socket) <==> s.gate.peerSocket == Some(step.socket);
    forall socket: Socket ensures InRoom(t, socket) <==> t.gate.peerSocket == Some(socket) {
      assert InRoom(s, socket) <==> s.gate.peerSocket == Some(socket);
    }
  }

  predicate RunEnabled(s: Room, steps: seq<Step>)
    decreases |steps|
  {
    steps == [] || (Enabled(s, steps[0]) && RunEnabled(Next(s, steps[0]), steps[1..]))
  }

  function Run(s: Room, steps: seq<Step>): Room
    requires RunEnabled(s, steps)
    decreases |steps|
  {
    if steps == [] then s else Run(Next(s, steps[0]), steps[1..])
  }

  lemma {:induction false} RunKeepsInv(s: Room, steps: seq<Step>)
    requires Inv(s) && RunEnabled(s, steps)
    ensures Inv(Run(s, steps))
    decreases |steps|
  {
    if steps != [] {
      NextKeepsInv(s, steps[0]);
      RunKeepsInv(Next(s, steps[0]), steps[1..]);
    }
  }

  /** In every interleaving a peer is marked as joined exactly when a handler is between admission and
      release; the marked socket is that handler's, there is never a second one, and it gave the code. */
  lemma OnePeerAtMost(s: Room, steps: seq<Step>)
    requires Init(s) && RunEnabled(s, steps)
    ensures var t := Run(s, steps);
            && (t.gate.peerJoined <==> exists socket: Socket :: InRoom(t, socket))
            && (forall socket: Socket :: InRoom(t, socket) ==>
                  t.gate.peerSocket == Some(socket) && t.handlers[socket].code == s.sessionCode)
            && (forall a: Socket, b: Socket :: InRoom(t, a) && InRoom(t, b) ==> a == b)
  {
    RunKeepsInv(s, steps);
    RunKeepsCode(s, steps);
    var t := Run(s, steps);
    if t.gate.peerJoined {
      assert InRoom(t, t.gate.peerSocket.value);
    }
  }

  lemma {:induction false} RunKeepsCode(s: Room, steps: seq<Step>)
    requires RunEnabled(s, steps)
    ensures Run(s, steps).sessionCode == s.sessionCode
    decreases |steps|
  {
    if steps != [] {
      RunKeepsCode(Next(s, steps[0]), steps[1..]);
    }
  }

  /** Once five failures are counted the count stays there, every later block check refuses, and no
      handler gets past it that was not past it already. */
  lemma {:induction false} BlockedForGood(s: Room, steps: seq<Step>)
    requires Blocked(s.gate) && RunEnabled(s, steps)
    ensures var t := Run(s, steps);
            && Blocked(t.gate)
            && (forall socket: Socket :: PastBlockCheck(t, socket) ==> PastBlockCheck(s, socket))
            && (forall socket: Socket :: Enabled(t, ChecksBlock(socket)) ==>
                  socket !in Next(t, ChecksBlock(socket)).handlers)
    decreases |steps|
  {
    if steps != [] {
      var t := Next(s, steps[0]);
      BlockedForGood(t, steps[1..]);
      forall socket: Socket | PastBlockCheck(t, socket) ensures PastBlockCheck(s, socket) {
      }
    }
  }

  /** A handshake that came to nothing, or a wrong code. */
  predicate IsFailure(s: Room, step: Step) {
    || step.HandshakeFails?
    || (step.ChecksCode? && step.socket in s.handlers && s.handlers[step.socket].AwaitsCodeCheck?
        && s.handlers[step.socket].code != s.sessionCode)
  }

  function Failures(s: Room, steps: seq<Step>): nat
    requires RunEnabled(s, steps)
    decreases |steps|
  {
    if steps == [] then 0
    else (if IsFailure(s, steps[0]) then 1 else 0) + Failures(Next(s, steps[0]), steps[1..])
  }

  /** In every interleaving the count is that of the failed handshakes and wrong codes, of all connections
      together; nothing else adds to it and nothing takes from it. */
  lemma {:induction false} FailuresAreCounted(s: Room, steps: seq<Step>)
    requires RunEnabled(s, steps)
    ensures Run(s, steps).gate.failedJoinCount == s.gate.failedJoinCount + Failures(s, steps)
    decreases |steps|
  {
    if steps != [] {
      FailuresAreCounted(Next(s, steps[0]), steps[1..]);
    }
  }

  /** So the next block check passes exactly when there were fewer than five failures so far. */
  lemma CheckPassesIff(s: Room, steps: seq<Step>, socket: Socket)
    requires Init(s) && RunEnabled(s, steps) && Enabled(Run(s, steps), ChecksBlock(socket))
    ensures socket in Next(Run(s, steps), ChecksBlock(socket)).handlers <==> Failures(s, steps) < 5
  {
    FailuresAreCounted(s, steps);
  }

  /** In every interleaving a handler with the right code is let in exactly when nobody is in the room, and
      whoever is in the room is out of it when its handler ends, however that comes. */
  lemma PlaceIsGivenIff(s: Room, steps: seq<Step>, socket: Socket)
    requires Init(s) && RunEnabled(s, steps)
    ensures var t := Run(s, steps);
            && (Enabled(t, TakesPlace(socket)) ==>
                  (InRoom(Next(t, TakesPlace(socket)), socket) <==> forall other: Socket :: !InRoom(t, other)))
            && (Enabled(t, Leaves(socket)) ==> forall other: Socket :: !InRoom(Next(t, Leaves(socket)), other))
            && (Enabled(t, ConfirmationFails(socket)) ==>
                  forall other: Socket :: !InRoom(Next(t, ConfirmationFails(socket)), other))
  {
    RunKeepsInv(s, steps);
    OnePeerAtMost(s, steps);
  }

  lemma RunFirst(s: Room, step: Step, rest: seq<Step>)
    requires Enabled(s, step) && RunEnabled(Next(s, step), rest)
    ensures RunEnabled(s, [step] + rest) && Run(s, [step] + rest) == Run(Next(s, step), rest)
  {
    assert ([step] + rest)[1..] == rest;
  }

  lemma RunNothing(s: Room)
    ensures RunEnabled(s, []) && Run(s, []) == s
  {
  }

  /** What an honest connection does once its JOIN is there. */
  function Entering(socket: Socket): seq<Step> {
    [ChecksBlock(socket)] + ([ChecksCode(socket)] + ([TakesPlace(socket)] + ([ConfirmationSent(socket)] + [])))
  }

  lemma EnteringRuns(s: Room, socket: Socket)
    requires !Blocked(s.gate) && !s.gate.peerJoined && socket in s.handlers
    requires s.handlers[socket] == AwaitsBlockCheck(s.sessionCode)
    ensures RunEnabled(s, Entering(socket))
    ensures var t := Run(s, Entering(socket));
            t.gate.peerSocket == Some(socket) && t.handlers == s.handlers[socket := Serving(s.sessionCode)]
  {
    hide Run, RunEnabled;
    var t1 := Next(s, ChecksBlock(socket));
    var t2 := Next(t1, ChecksCode(socket));
    var t3 := Next(t2, TakesPlace(socket));
    var t4 := Next(t3, ConfirmationSent(socket));
    RunNothing(t4);
    RunFirst(t3, ConfirmationSent(socket), []);
    RunFirst(t2, TakesPlace(socket), [ConfirmationSent(socket)] + []);
    RunFirst(t1, ChecksCode(socket), [TakesPlace(socket)] + ([ConfirmationSent(socket)] + []));
    RunFirst(s, ChecksBlock(socket), [ChecksCode(socket)] + ([TakesPlace(socket)] + ([ConfirmationSent(socket)] + [])));
  }

  /** What it does before that. */
  function Calling(socket: Socket, code: Text): seq<Step> {
    [Accepts(socket)] + ([HelloArrives(socket)] + ([JoinArrives(socket, code)] + Entering(socket)))
  }

  lemma CallingRuns(s: Room, socket: Socket)
    requires !Blocked(s.gate) && !s.gate.peerJoined && socket !in s.handlers
    ensures RunEnabled(s, Calling(socket, s.sessionCode))
    ensures var t := Run(s, Calling(socket, s.sessionCode));
            t.gate.peerSocket == Some(socket) && t.handlers == s.handlers[socket := Serving(s.sessionCode)]
  {
    hide Run, RunEnabled, Entering;
    var t1 := Next(s, Accepts(socket));
    var t2 := Next(t1, HelloArrives(socket));
    var t3 := Next(t2, JoinArrives(socket, s.sessionCode));
    EnteringRuns(t3, socket);
    RunFirst(t2, JoinArrives(socket, s.sessionCode), Entering(socket));
    RunFirst(t1, HelloArrives(socket), [JoinArrives(socket, s.sessionCode)] + Entering(socket));
    RunFirst(s, Accepts(socket), [HelloArrives(socket)] + ([JoinArrives(socket, s.sessionCode)] + Entering(socket)));
  }

  /** After any run with fewer than five failures, an undisturbed connection with the right code is served
      whenever nobody is in the room, and no other handler is touched. */
  lemma RightCodeGetsIn(s: Room, steps: seq<Step>, socket: Socket)
    requires Init(s) && RunEnabled(s, steps) && Failures(s, steps) < 5
    requires socket !in Run(s, steps).handlers && forall other: Socket :: !InRoom(Run(s, steps), other)
    ensures var t, call := Run(s, steps), Calling(socket, s.sessionCode);
            && RunEnabled(t, call)
            && Run(t, call).handlers == t.handlers[socket := Serving(s.sessionCode)]
            && Run(t, call).gate.peerSocket == Some(socket)
  {
    hide Run, RunEnabled, Calling, Failures;
    FailuresAreCounted(s, steps);
    RunKeepsCode(s, steps);
    OnePeerAtMost(s, steps);
    CallingRuns(Run(s, steps), socket);
  }
}
