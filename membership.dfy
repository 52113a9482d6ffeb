/** Who is in a room: `create_room` (server/index.js:66-113), `join_room`
    (115-166) and what `disconnect` (717-746) does to the room it finds the
    socket in. */
module Membership {
  import opened Basics
  import opened Text
  import opened Rooms
  import opened Events

  /** A fresh roster entry: not buzzed, no score. */
  function NewMember(sid: string, name: string, isHost: bool, role: Option<string>): Participant {
    Participant(sid, name, isHost, false, None, 0, role, false, None)
  }

  /** The impostor fields of a new room, with the `IMPOSTOR_CONFIG` limits. */
  function FreshRound(): Round {
    Round([], [], map[], {}, MaxVideos, VideoDuration, MaxVideos)
  }

  /** The room `create_room` stores under `code`. */
  function NewRoom(code: string, sid: string, name: string, roomType: Option<string>): Room {
    var mode := ModeOf(roomType);
    Room(code, mode, sid, [NewMember(sid, name, true, None)], Waiting, [], None, [], None, -1, [],
         if mode == Impostor then Some(FreshRound()) else None)
  }

  function CreateSpec(code: string, sid: string, name: string, roomType: Option<string>): Reply {
    var room := NewRoom(code, sid, name, roomType);
    Reply(room, [Emit(Sender, RoomCreated(code, room.players[0], Waiting, room.mode))])
  }

  /** A new room is valid, waiting, and holds only its creator, as host with
      no role; only an `impostor` type gives it the impostor fields. */
  lemma CreateMakesValidRoom(code: string, sid: string, name: string, roomType: Option<string>)
    ensures var r := CreateSpec(code, sid, name, roomType).room;
      && RoomValid(r)
      && r.code == code && r.state == Waiting && r.hostId == sid
      && |r.players| == 1 && r.players[0].id == sid && r.players[0].name == name
      && r.players[0].isHost && r.players[0].role == None && r.players[0].score == 0
      && (r.round.Some? <==> roomType == Some("impostor"))
      && r.buzzOrder == [] && r.questions == [] && r.currentQuestion == None && r.currentQuestionIndex == -1
  {
    var r := CreateSpec(code, sid, name, roomType).room;
    assert Senders([]) == {};
    assert CountRole(r.players, PlayerRole) == 0 by {
      assert r.players[..0] == [];
    }
  }

  const NameTaken := "Name already taken in this room"

  function PlayersFull(maxPlayers: nat): string {
    "Maximum " + NatToString(maxPlayers) + " Players allowed. Join as Voter instead."
  }

  /** `room.type === 'impostor' ? (role || 'Voter') : undefined` */
  function AssignedRole(mode: Mode, role: Option<string>): Option<string> {
    if mode != Impostor then None
    else if role == None || role == Some("") then Some(VoterRole)
    else role
  }

  /** An impostor room refuses a further Player once `maxPlayers` are in. */
  predicate SeatsFull(r: Room, role: Option<string>) {
    r.mode == Impostor && r.round.Some? && role == Some(PlayerRole)
    && CountRole(r.players, PlayerRole) >= r.round.value.maxPlayers
  }

  /** `join_room` for a room that exists. */
  function JoinSpec(r: Room, sid: string, name: string, role: Option<string>): Reply {
    if HasName(r.players, name) then Reply(r, [Emit(Sender, RoomError(NameTaken))])
    else if SeatsFull(r, role) then Reply(r, [Emit(Sender, RoomError(PlayersFull(r.round.value.maxPlayers)))])
    else
      var p := NewMember(sid, name, false, AssignedRole(r.mode, role));
      var ps := r.players + [p];
      Reply(r.(players := ps), [Emit(Sender, RoomJoined(r.code, p, ps, r.state, r.mode)), Emit(Others(r.code), PlayerJoined(p))])
  }

  /** A taken name, or a sixth Player in an impostor room, is refused with an
      error to the sender and nothing else; otherwise the sender is appended
      as a non-host with no score, a Voter in an impostor room unless they
      asked for a role, and without a role elsewhere. */
  lemma JoinOutcome(r: Room, sid: string, name: string, role: Option<string>)
    ensures var out := JoinSpec(r, sid, name, role);
      && (HasName(r.players, name) ==> out == Reply(r, [Emit(Sender, RoomError(NameTaken))]))
      && (!HasName(r.players, name) && SeatsFull(r, role) ==>
            out == Reply(r, [Emit(Sender, RoomError(PlayersFull(r.round.value.maxPlayers)))]))
      && (!HasName(r.players, name) && !SeatsFull(r, role) ==>
            && |out.room.players| == |r.players| + 1
            && out.room.players[..|r.players|] == r.players
            && out.room.players[|r.players|] == NewMember(sid, name, false, AssignedRole(r.mode, role))
            && out.room == r.(players := out.room.players))
    ensures AssignedRole(r.mode, role).Some? <==> r.mode == Impostor
    ensures r.mode == Impostor && (role == None || role == Some("")) ==> AssignedRole(r.mode, role) == Some(VoterRole)
  {
    var out := JoinSpec(r, sid, name, role);
    if !HasName(r.players, name) && !SeatsFull(r, role) {
      assert out.room.players[..|r.players|] == r.players;
    }
  }

  /** With the configured limit the refusal reads "Maximum 5 Players
      allowed. Join as Voter instead." */
  lemma PlayersFullMessage()
    ensures PlayersFull(MaxVideos) == "Maximum " + "5" + " Players allowed. Join as Voter instead."
  {
    assert NatToString(5) == [DigitChar(5)];
  }

  lemma JoinPreservesValid(r: Room, sid: string, name: string, role: Option<string>)
    requires RoomValid(r)
    ensures RoomValid(JoinSpec(r, sid, name, role).room)
  {
    if !HasName(r.players, name) && !SeatsFull(r, role) {
      var p := NewMember(sid, name, false, AssignedRole(r.mode, role));
      CountRoleAppend(r.players, p, PlayerRole);
      var ps := r.players + [p];
      assert forall i :: 0 <= i < |r.players| ==> ps[i] == r.players[i] && ps[i].name != name;
    }
  }

  /** What leaving does to the room the socket was found in. */
  datatype Departure =
    | Absent            // the socket is not in this room
    | Emptied           // it was the last one: the room is deleted
    | Left(reply: Reply)

  /** The roster without entry `i`. */
  function Without(ps: seq<Participant>, i: nat): (r: seq<Participant>)
    requires i < |ps|
    ensures |r| == |ps| - 1
    ensures forall j :: 0 <= j < |r| ==> r[j] == ps[if j < i then j else j + 1]
  {
    ps[..i] + ps[i + 1..]
  }

  /** `disconnect` in a room: drop the first entry with the socket's id; if
      that was the host, the next entry in join order becomes host. */
  function LeaveSpec(r: Room, sid: string): Departure {
    match FindById(r.players, sid)
    case None => Absent
    case Some(i) =>
      var ps := Without(r.players, i);
      if ps == [] then Emptied
      else if r.players[i].isHost then
        var ps' := ps[0 := ps[0].(isHost := true)];
        Left(Reply(r.(players := ps', hostId := ps[0].id), [Emit(Everyone(r.code), PlayerLeft(sid, ps'))]))
      else Left(Reply(r.(players := ps), [Emit(Everyone(r.code), PlayerLeft(sid, ps))]))
  }

  /** The socket's first entry leaves and every other entry stays, in order;
      a room is deleted exactly when that entry was its last; when the host
      leaves, the earliest remaining member takes over, flag and `room.host`
      both, and nothing else about anyone changes. */
  lemma LeaveEffect(r: Room, sid: string)
    requires RoomValid(r)
    ensures LeaveSpec(r, sid) == Absent <==> FindById(r.players, sid) == None
    ensures LeaveSpec(r, sid) == Emptied <==> FindById(r.players, sid).Some? && |r.players| == 1
    ensures LeaveSpec(r, sid).Left? ==>
      var i, out := FindById(r.players, sid).value, LeaveSpec(r, sid).reply.room;
      && |out.players| == |r.players| - 1
      && (forall j :: 1 <= j < |out.players| ==> out.players[j] == Without(r.players, i)[j])
      && out.players[0] == Without(r.players, i)[0].(isHost := true)
      && (i == 0 <==> sid == r.hostId)
      && (i == 0 ==> out.hostId == r.players[1].id && out.players[0] == r.players[1].(isHost := true))
      && (i != 0 ==> out == r.(players := Without(r.players, i)))
      && out.code == r.code && out.buzzOrder == r.buzzOrder && out.round == r.round && out.state == r.state
  {
    SentByHostIff(r.players, r.hostId, sid);
  }

  lemma NamesDistinctWithout(ps: seq<Participant>, i: nat)
    requires i < |ps| && NamesDistinct(ps)
    ensures NamesDistinct(Without(ps, i))
  {
    var w := Without(ps, i);
    forall a, b | 0 <= a < b < |w| ensures w[a].name != w[b].name {
      assert w[a] == ps[if a < i then a else a + 1];
      assert w[b] == ps[if b < i then b else b + 1];
    }
  }

  /** Dropping an entry keeps the names distinct, every entry's role and
      the Player cap. */
  lemma WithoutKeepsRoles(r: Room, i: nat)
    requires RoomValid(r) && i < |r.players|
    ensures NamesDistinct(Without(r.players, i))
    ensures RolesValid(r.mode, Without(r.players, i), r.round)
  {
    NamesDistinctWithout(r.players, i);
    CountRoleRemove(r.players, i, PlayerRole);
  }

  /** Promoting entry 0 of a roster with no other host makes a valid one. */
  lemma PromoteFirst(ps: seq<Participant>)
    requires |ps| >= 1 && NamesDistinct(ps)
    requires forall j :: 1 <= j < |ps| ==> !ps[j].isHost
    ensures RosterValid(ps[0 := ps[0].(isHost := true)], ps[0].id)
  {
    var qs := ps[0 := ps[0].(isHost := true)];
    assert forall j :: 0 <= j < |ps| ==> qs[j].name == ps[j].name;
  }

  lemma LeavePreservesValid(r: Room, sid: string)
    requires RoomValid(r)
    ensures LeaveSpec(r, sid).Left? ==> RoomValid(LeaveSpec(r, sid).reply.room)
  {
    if LeaveSpec(r, sid).Left? {
      var i := FindById(r.players, sid).value;
      var ps := Without(r.players, i);
      var out := LeaveSpec(r, sid).reply.room;
      WithoutKeepsRoles(r, i);
      if r.players[i].isHost {
        PromoteFirst(ps);
        var qs := ps[0 := ps[0].(isHost := true)];
        assert out.players == qs;
        CountRoleSameRoles(ps, qs, PlayerRole);
        assert forall j :: 0 <= j < |ps| ==> qs[j].role == ps[j].role;
      } else {
        assert i != 0;
        assert out == r.(players := ps);
      }
    }
  }

  /** `join_room` on the room it looked up, step by step. */
  method Join(r: Room, sid: string, name: string, role: Option<string>) returns (out: Reply)
    requires r.mode == Impostor ==> r.round.Some?
    ensures out == JoinSpec(r, sid, name, role)
  {
    if HasName(r.players, name) {
      return Reply(r, [Emit(Sender, RoomError(NameTaken))]);
    }
    if r.mode == Impostor && role == Some(PlayerRole) {
      var currentPlayerCount := CountRole(r.players, PlayerRole);
      if currentPlayerCount >= r.round.value.maxPlayers {
        return Reply(r, [Emit(Sender, RoomError(PlayersFull(r.round.value.maxPlayers)))]);
      }
    }
    var newPlayer := NewMember(sid, name, false, AssignedRole(r.mode, role));
    var ps := r.players + [newPlayer];
    return Reply(r.(players := ps), [Emit(Sender, RoomJoined(r.code, newPlayer, ps, r.state, r.mode)),
                                     Emit(Others(r.code), PlayerJoined(newPlayer))]);
  }

  /** What `disconnect` does to the room it is looking at, step by step:
      `findIndex`, `splice`, and the promotion of the new first entry. */
  method Leave(r: Room, sid: string) returns (d: Departure)
    ensures d == LeaveSpec(r, sid)
  {
    var playerIndex := FindById(r.players, sid);
    if playerIndex.None? {
      return Absent;
    }
    var player := r.players[playerIndex.value];
    var players := Without(r.players, playerIndex.value);
    if |players| == 0 {
      return Emptied;
    }
    var room := r;
    if player.isHost {
      players := players[0 := players[0].(isHost := true)];
      room := room.(hostId := players[0].id);
    }
    room := room.(players := players);
    return Left(Reply(room, [Emit(Everyone(r.code), PlayerLeft(sid, players))]));
  }
}
