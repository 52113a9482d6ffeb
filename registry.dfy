/** The coordinator's process-wide state, `rooms` and `questionIdCounter`
    (server/index.js:34-35), and one method per `socket.on(...)` handler
    (66-746). Each handler looks the room up, checks the sender, changes the
    room in place and returns what it emits; a handler that returns early
    changes nothing and emits nothing. The socket id, `Date.now()` and the
    generated room code are parameters. */
module Coordinator {
  import opened Basics
  import opened Text
  import opened Sorting
  import opened Rooms
  import opened Events
  import Membership
  import Buzzer
  import TypeAnswer
  import Lifecycle
  import Impostor

  const RoomNotFound := "Room not found"

  predicate Distinct(order: seq<string>) {
    forall i, j :: 0 <= i < j < |order| ==> order[i] != order[j]
  }

  /** `rooms` as a JavaScript `Map`: `order` lists its keys in insertion
      order, once each; every room is stored under its own code and is
      valid. */
  ghost predicate RegistryValid(rooms: map<string, Room>, order: seq<string>) {
    && Distinct(order)
    && (forall i :: 0 <= i < |order| ==> order[i] in rooms)
    && (forall c :: c in rooms ==> c in order)
    && (forall c :: c in rooms ==> rooms[c].code == c && RoomValid(rooms[c]))
  }

  /** The registry after a handler, and what the handler emitted. */
  datatype Outcome = Outcome(rooms: map<string, Room>, order: seq<string>, events: seq<Emit>)

  /** `rooms.set(code, room)` for the room `create_room` builds: a new code
      goes last, a code already in use keeps its place and its room is
      replaced. */
  function CreateInRegistry(rooms: map<string, Room>, order: seq<string>,
                            code: string, sid: string, name: string, roomType: Option<string>): Outcome {
    var reply := Membership.CreateSpec(code, sid, name, roomType);
    Outcome(rooms[code := reply.room], if code in rooms then order else order + [code], reply.events)
  }

  /** Creating a room keeps the registry valid and touches no other code;
      the new room replaces whatever was stored under its code. */
  lemma CreateEffect(rooms: map<string, Room>, order: seq<string>,
                     code: string, sid: string, name: string, roomType: Option<string>)
    requires RegistryValid(rooms, order)
    ensures var out := CreateInRegistry(rooms, order, code, sid, name, roomType);
      && RegistryValid(out.rooms, out.order)
      && out.rooms.Keys == rooms.Keys + {code}
      && out.rooms[code] == Membership.NewRoom(code, sid, name, roomType)
      && (forall c :: c in rooms && c != code ==> out.rooms[c] == rooms[c])
      && (code in rooms ==> out.order == order)
      && (code !in rooms ==> out.order == order + [code])
  {
    Membership.CreateMakesValidRoom(code, sid, name, roomType);
    var out := CreateInRegistry(rooms, order, code, sid, name, roomType);
    if code !in rooms {
      assert forall i :: 0 <= i < |order| ==> order[i] != code;
      assert forall i :: 0 <= i < |order| ==> out.order[i] == order[i];
    }
  }

  /** The first position, from `i` on, of a room whose roster holds `sid`:
      the `for ... of rooms.entries()` scan of `disconnect`. */
  function FirstRoomFrom(rooms: map<string, Room>, order: seq<string>, sid: string, i: nat): (k: Option<nat>)
    requires i <= |order|
    ensures k.Some? ==> i <= k.value < |order| && order[k.value] in rooms
                        && FindById(rooms[order[k.value]].players, sid).Some?
    ensures forall j :: i <= j < |order| && (k.None? || j < k.value) && order[j] in rooms ==>
              FindById(rooms[order[j]].players, sid).None?
    decreases |order| - i
  {
    if i == |order| then None
    else if order[i] in rooms && FindById(rooms[order[i]].players, sid).Some? then Some(i)
    else FirstRoomFrom(rooms, order, sid, i + 1)
  }

  /** `disconnect`: the socket leaves the first room, in insertion order,
      that holds it; a room left empty is deleted from the registry. */
  function DisconnectSpec(rooms: map<string, Room>, order: seq<string>, sid: string): Outcome {
    match FirstRoomFrom(rooms, order, sid, 0)
    case None => Outcome(rooms, order, [])
    case Some(k) =>
      var code := order[k];
      match Membership.LeaveSpec(rooms[code], sid)
      case Absent => Outcome(rooms, order, [])
      case Emptied => Outcome(rooms - {code}, order[..k] + order[k + 1..], [])
      case Left(reply) => Outcome(rooms[code := reply.room], order, reply.events)
  }

  /** A socket in no room changes nothing. Otherwise exactly one room, the
      first that holds it, is affected: it is deleted when the socket was its
      only member and otherwise keeps its code with the socket's entry
      removed; every other room stays as it was, and the registry stays
      valid. */
  lemma DisconnectEffect(rooms: map<string, Room>, order: seq<string>, sid: string)
    requires RegistryValid(rooms, order)
    ensures var out := DisconnectSpec(rooms, order, sid);
      && RegistryValid(out.rooms, out.order)
      && (FirstRoomFrom(rooms, order, sid, 0).None? ==> out == Outcome(rooms, order, []))
      && (FirstRoomFrom(rooms, order, sid, 0).Some? ==>
            var code := order[FirstRoomFrom(rooms, order, sid, 0).value];
            && (forall c :: c in rooms && c != code ==> c in out.rooms && out.rooms[c] == rooms[c])
            && (|rooms[code].players| == 1 <==> code !in out.rooms)
            && (code in out.rooms ==>
                  |out.rooms[code].players| == |rooms[code].players| - 1
                  && out.rooms[code].players[0].isHost))
  {
    match FirstRoomFrom(rooms, order, sid, 0) {
    case None =>
    case Some(k) =>
      LeaveFirstRoom(rooms, order, sid, k);
      Membership.LeaveEffect(rooms[order[k]], sid);
    }
  }

  /** `rooms.set(code, room)` for a code already present. */
  lemma ReplaceKeepsRegistry(rooms: map<string, Room>, order: seq<string>, code: string, room: Room)
    requires RegistryValid(rooms, order) && code in rooms
    requires room.code == code && RoomValid(room)
    ensures RegistryValid(rooms[code := room], order)
  {
  }

  /** Leaving the first room that holds the socket is the whole of
      `disconnect`: the room is deleted or replaced, and the registry stays
      valid. */
  lemma LeaveFirstRoom(rooms: map<string, Room>, order: seq<string>, sid: string, k: nat)
    requires RegistryValid(rooms, order)
    requires FirstRoomFrom(rooms, order, sid, 0) == Some(k)
    ensures var d, out := Membership.LeaveSpec(rooms[order[k]], sid), DisconnectSpec(rooms, order, sid);
      && d != Membership.Absent
      && (d == Membership.Emptied ==> out == Outcome(rooms - {order[k]}, order[..k] + order[k + 1..], []))
      && (d.Left? ==> out == Outcome(rooms[order[k] := d.reply.room], order, d.reply.events))
      && RegistryValid(out.rooms, out.order)
  {
    var r := rooms[order[k]];
    Membership.LeaveEffect(r, sid);
    match Membership.LeaveSpec(r, sid) {
    case Absent =>
    case Emptied =>
      DeleteKeepsRegistry(rooms, order, k);
    case Left(reply) =>
      Membership.LeavePreservesValid(r, sid);
      ReplaceKeepsRegistry(rooms, order, order[k], reply.room);
    }
  }

  /** `rooms.delete(code)` for the code at position `k`. */
  lemma DeleteKeepsRegistry(rooms: map<string, Room>, order: seq<string>, k: nat)
    requires RegistryValid(rooms, order) && k < |order|
    ensures RegistryValid(rooms - {order[k]}, order[..k] + order[k + 1..])
  {
    RemoveAt(order, k);
  }

  /** Removing position `k` from a list of distinct codes leaves every
      other code, once each, and not the removed one. */
  lemma RemoveAt(order: seq<string>, k: nat)
    requires Distinct(order) && k < |order|
    ensures var o := order[..k] + order[k + 1..];
      && Distinct(o)
      && (forall i :: 0 <= i < |o| ==> o[i] in order && o[i] != order[k])
      && (forall j :: 0 <= j < |order| && j != k ==> order[j] in o)
  {
    var o := order[..k] + order[k + 1..];
    assert forall i :: 0 <= i < |o| ==> o[i] == order[if i < k then i else i + 1];
    forall j | 0 <= j < |order| && j != k ensures order[j] in o {
      assert o[if j < k then j else j - 1] == order[j];
    }
  }

  class Registry {
    /** `rooms`, keyed by room code. */
    var rooms: map<string, Room>
    /** The keys of `rooms` in the order a `Map` iterates them. */
    var order: seq<string>
    /** `questionIdCounter` */
    var questionIdCounter: int

    ghost predicate Valid()
      reads this
    {
      RegistryValid(rooms, order)
    }

    constructor ()
      ensures Valid() && rooms == map[] && order == [] && questionIdCounter == 0
    {
      rooms, order, questionIdCounter := map[], [], 0;
    }

    /** Stores a handler's new version of an existing room. */
    method Put(code: string, room: Room)
      requires Valid() && code in rooms && room.code == code && RoomValid(room)
      modifies this
      ensures Valid()
      ensures rooms == old(rooms)[code := room] && order == old(order)
      ensures questionIdCounter == old(questionIdCounter)
    {
      ReplaceKeepsRegistry(rooms, order, code, room);
      rooms := rooms[code := room];
    }

    /** `create_room` under the generated code `code`. */
    method CreateRoom(sid: string, playerName: string, roomType: Option<string>, code: string)
      returns (events: seq<Emit>)
      requires Valid()
      modifies this
      ensures Valid() && questionIdCounter == old(questionIdCounter)
      ensures var out := CreateInRegistry(old(rooms), old(order), code, sid, playerName, roomType);
        rooms == out.rooms && order == out.order && events == out.events
    {
      var mode := ModeOf(roomType);
      var host := Membership.NewMember(sid, playerName, true, None);
      var room := Room(code, mode, sid, [host], Waiting, [], None, [], None, -1, [], None);
      if roomType == Some("impostor") {
        room := room.(round := Some(Membership.FreshRound()));
      }
      CreateEffect(rooms, order, code, sid, playerName, roomType);
      if code !in rooms {
        order := order + [code];
      }
      rooms := rooms[code := room];
      events := [Emit(Sender, RoomCreated(code, host, Waiting, mode))];
    }

    /** `join_room`: an unknown code is reported to the sender; a known one is
      handled by `Membership.JoinSpec`. */
    method JoinRoom(sid: string, code: string, playerName: string, role: Option<string>)
      returns (events: seq<Emit>)
      requires Valid()
      modifies this
      ensures Valid() && order == old(order) && questionIdCounter == old(questionIdCounter)
      ensures code !in old(rooms) ==>
        rooms == old(rooms) && events == [Emit(Sender, RoomError(RoomNotFound))]
      ensures code in old(rooms) ==>
        var reply := Membership.JoinSpec(old(rooms)[code], sid, playerName, role);
        rooms == old(rooms)[code := reply.room] && events == reply.events
    {
      if code !in rooms {
        events := [Emit(Sender, RoomError(RoomNotFound))];
        return;
      }
      Membership.JoinPreservesValid(rooms[code], sid, playerName, role);
      var reply := Membership.Join(rooms[code], sid, playerName, role);
      Put(code, reply.room);
      events := reply.events;
    }

    /** `buzz` at clock reading `now`. */
    method Buzz(sid: string, code: string, now: int) returns (events: seq<Emit>)
      requires Valid()
      modifies this
      ensures Valid() && order == old(order) && questionIdCounter == old(questionIdCounter)
      ensures code !in old(rooms) ==> rooms == old(rooms) && events == []
      ensures code in old(rooms) ==>
        var reply := Buzzer.BuzzSpec(old(rooms)[code], sid, now);
        rooms == old(rooms)[code := reply.room] && events == reply.events
    {
      if code !in rooms {
        return [];
      }
      Buzzer.BuzzPreservesValid(rooms[code], sid, now);
      var reply := Buzzer.Buzz(rooms[code], sid, now);
      Put(code, reply.room);
      events := reply.events;
    }

    /** `reset_buzzers` */
    method ResetBuzzers(sid: string, code: string) returns (events: seq<Emit>)
      requires Valid()
      modifies this
      ensures Valid() && order == old(order) && questionIdCounter == old(questionIdCounter)
      ensures code !in old(rooms) ==> rooms == old(rooms) && events == []
      ensures code in old(rooms) ==>
        var reply := Buzzer.ResetSpec(old(rooms)[code], sid);
        rooms == old(rooms)[code := reply.room] && events == reply.events
    {
      if code !in rooms {
        return [];
      }
      Buzzer.ResetPreservesValid(rooms[code], sid);
      var reply := Buzzer.Reset(rooms[code], sid);
      Put(code, reply.room);
      events := reply.events;
    }

    /** `add_question` at clock reading `now`: the id is `now` plus the
      counter after its increment, and the counter moves only when a
      question is added. */
    method AddQuestion(sid: string, code: string, question: string, answer: string,
                       answerType: Option<string>, now: int) returns (events: seq<Emit>)
      requires Valid()
      modifies this
      ensures Valid() && order == old(order)
      ensures code in old(rooms) && TypeAnswer.MayManage(old(rooms)[code], sid) ==>
        && questionIdCounter == old(questionIdCounter) + 1
        && var q := TypeAnswer.MakeQuestion(now + old(questionIdCounter) + 1, question, answer, answerType);
           var reply := TypeAnswer.AddSpec(old(rooms)[code], sid, q);
           rooms == old(rooms)[code := reply.room] && events == reply.events
      ensures !(code in old(rooms) && TypeAnswer.MayManage(old(rooms)[code], sid)) ==>
        rooms == old(rooms) && questionIdCounter == old(questionIdCounter) && events == []
    {
      if code !in rooms || !TypeAnswer.MayManage(rooms[code], sid) {
        return [];
      }
      var room := rooms[code];
      var q := TypeAnswer.MakeQuestion(now + questionIdCounter + 1, question, answer, answerType);
      TypeAnswer.AddPreservesValid(room, sid, q);
      var reply := TypeAnswer.Add(room, sid, q);
      Put(code, reply.room);
      questionIdCounter := questionIdCounter + 1;
      events := reply.events;
    }

    /** `update_question` */
    method UpdateQuestion(sid: string, code: string, questionId: int, question: string, answer: string,
                          answerType: Option<string>) returns (events: seq<Emit>)
      requires Valid()
      modifies this
      ensures Valid() && order == old(order) && questionIdCounter == old(questionIdCounter)
      ensures code !in old(rooms) ==> rooms == old(rooms) && events == []
      ensures code in old(rooms) ==>
        var reply := TypeAnswer.UpdateSpec(old(rooms)[code], sid, questionId, question, answer, answerType);
        rooms == old(rooms)[code := reply.room] && events == reply.events
    {
      if code !in rooms {
        return [];
      }
      TypeAnswer.UpdatePreservesValid(rooms[code], sid, questionId, question, answer, answerType);
      var reply := TypeAnswer.Update(rooms[code], sid, questionId, question, answer, answerType);
      Put(code, reply.room);
      events := reply.events;
    }

    /** `delete_question` */
    method DeleteQuestion(sid: string, code: string, questionId: int) returns (events: seq<Emit>)
      requires Valid()
      modifies this
      ensures Valid() && order == old(order) && questionIdCounter == old(questionIdCounter)
      ensures code !in old(rooms) ==> rooms == old(rooms) && events == []
      ensures code in old(rooms) ==>
        var reply := TypeAnswer.DeleteSpec(old(rooms)[code], sid, questionId);
        rooms == old(rooms)[code := reply.room] && events == reply.events
    {
      if code !in rooms {
        return [];
      }
      TypeAnswer.DeletePreservesValid(rooms[code], sid, questionId);
      var reply := TypeAnswer.Delete(rooms[code], sid, questionId);
      Put(code, reply.room);
      events := reply.events;
    }

    /** `clear_questions` */
    method ClearQuestions(sid: string, code: string) returns (events: seq<Emit>)
      requires Valid()
      modifies this
      ensures Valid() && order == old(order) && questionIdCounter == old(questionIdCounter)
      ensures code !in old(rooms) ==> rooms == old(rooms) && events == []
      ensures code in old(rooms) ==>
        var reply := TypeAnswer.ClearSpec(old(rooms)[code], sid);
        rooms == old(rooms)[code := reply.room] && events == reply.events
    {
      if code !in rooms {
        return [];
      }
      TypeAnswer.ClearPreservesValid(rooms[code], sid);
      var reply := TypeAnswer.Clear(rooms[code], sid);
      Put(code, reply.room);
      events := reply.events;
    }

    /** `start_question` */
    method StartQuestion(sid: string, code: string, questionIndex: int) returns (events: seq<Emit>)
      requires Valid()
      modifies this
      ensures Valid() && order == old(order) && questionIdCounter == old(questionIdCounter)
      ensures code !in old(rooms) ==> rooms == old(rooms) && events == []
      ensures code in old(rooms) ==>
        var reply := TypeAnswer.StartQuestionSpec(old(rooms)[code], sid, questionIndex);
        rooms == old(rooms)[code := reply.room] && events == reply.events
    {
      if code !in rooms {
        return [];
      }
      TypeAnswer.StartQuestionPreservesValid(rooms[code], sid, questionIndex);
      var reply := TypeAnswer.StartQuestion(rooms[code], sid, questionIndex);
      Put(code, reply.room);
      events := reply.events;
    }

    /** `submit_answer` at clock reading `now`. */
    method SubmitAnswer(sid: string, code: string, answer: string, now: int) returns (events: seq<Emit>)
      requires Valid()
      modifies this
      ensures Valid() && order == old(order) && questionIdCounter == old(questionIdCounter)
      ensures code !in old(rooms) ==> rooms == old(rooms) && events == []
      ensures code in old(rooms) ==>
        var reply := TypeAnswer.SubmitSpec(old(rooms)[code], sid, answer, now);
        rooms == old(rooms)[code := reply.room] && events == reply.events
    {
      if code !in rooms {
        return [];
      }
      TypeAnswer.SubmitPreservesValid(rooms[code], sid, answer, now);
      var reply := TypeAnswer.Submit(rooms[code], sid, answer, now);
      Put(code, reply.room);
      events := reply.events;
    }

    /** `mark_answer` */
    method MarkAnswer(sid: string, code: string, playerId: string, correct: bool) returns (events: seq<Emit>)
      requires Valid()
      modifies this
      ensures Valid() && order == old(order) && questionIdCounter == old(questionIdCounter)
      ensures code !in old(rooms) ==> rooms == old(rooms) && events == []
      ensures code in old(rooms) ==>
        var reply := Buzzer.MarkSpec(old(rooms)[code], sid, playerId, correct);
        rooms == old(rooms)[code := reply.room] && events == reply.events
    {
      if code !in rooms {
        return [];
      }
      Buzzer.MarkPreservesValid(rooms[code], sid, playerId, correct);
      var reply := Buzzer.Mark(rooms[code], sid, playerId, correct);
      Put(code, reply.room);
      events := reply.events;
    }

    /** `start_game` */
    method StartGame(sid: string, code: string) returns (events: seq<Emit>)
      requires Valid()
      modifies this
      ensures Valid() && order == old(order) && questionIdCounter == old(questionIdCounter)
      ensures code !in old(rooms) ==> rooms == old(rooms) && events == []
      ensures code in old(rooms) ==>
        var reply := Lifecycle.StartGameSpec(old(rooms)[code], sid);
        rooms == old(rooms)[code := reply.room] && events == reply.events
    {
      if code !in rooms {
        return [];
      }
      Lifecycle.StartGamePreservesValid(rooms[code], sid);
      var reply := Lifecycle.StartGame(rooms[code], sid);
      Put(code, reply.room);
      events := reply.events;
    }

    /** `end_game` */
    method EndGame(sid: string, code: string) returns (events: seq<Emit>)
      requires Valid()
      modifies this
      ensures Valid() && order == old(order) && questionIdCounter == old(questionIdCounter)
      ensures code !in old(rooms) ==> rooms == old(rooms) && events == []
      ensures code in old(rooms) ==>
        var reply := Lifecycle.EndGameSpec(old(rooms)[code], sid);
        rooms == old(rooms)[code := reply.room] && events == reply.events
    {
      if code !in rooms {
        return [];
      }
      Lifecycle.EndGameEffect(rooms[code], sid);
      var reply := Lifecycle.EndGame(rooms[code], sid);
      Put(code, reply.room);
      events := reply.events;
    }

    /** `start_recording` */
    method StartRecording(sid: string, code: string) returns (events: seq<Emit>)
      requires Valid()
      modifies this
      ensures Valid() && order == old(order) && questionIdCounter == old(questionIdCounter)
      ensures code !in old(rooms) ==> rooms == old(rooms) && events == []
      ensures code in old(rooms) ==>
        var reply := Impostor.StartRecordingSpec(old(rooms)[code], sid);
        rooms == old(rooms)[code := reply.room] && events == reply.events
    {
      if code !in rooms {
        return [];
      }
      Impostor.RoundControlsPreserveValid(rooms[code], sid);
      var reply := Impostor.StartRecording(rooms[code], sid);
      Put(code, reply.room);
      events := reply.events;
    }

    /** `submit_video`; the id reads the clock as `idClock`, the timestamp as
      `now`. */
    method SubmitVideo(sid: string, code: string, videoData: string, mimeType: string, duration: int,
                       idClock: nat, now: nat) returns (events: seq<Emit>)
      requires Valid()
      modifies this
      ensures Valid() && order == old(order) && questionIdCounter == old(questionIdCounter)
      ensures code !in old(rooms) ==> rooms == old(rooms) && events == []
      ensures code in old(rooms) ==>
        var reply := Impostor.SubmitVideoSpec(old(rooms)[code], sid, videoData, mimeType, duration, idClock, now);
        rooms == old(rooms)[code := reply.room] && events == reply.events
    {
      if code !in rooms {
        return [];
      }
      Impostor.SubmitVideoPreservesValid(rooms[code], sid, videoData, mimeType, duration, idClock, now);
      var reply := Impostor.SubmitVideo(rooms[code], sid, videoData, mimeType, duration, idClock, now);
      Put(code, reply.room);
      events := reply.events;
    }

    /** `submit_vote` */
    method SubmitVote(sid: string, code: string, videoId: string) returns (events: seq<Emit>)
      requires Valid()
      modifies this
      ensures Valid() && order == old(order) && questionIdCounter == old(questionIdCounter)
      ensures code !in old(rooms) ==> rooms == old(rooms) && events == []
      ensures code in old(rooms) ==>
        var reply := Impostor.SubmitVoteSpec(old(rooms)[code], sid, videoId);
        rooms == old(rooms)[code := reply.room] && events == reply.events
    {
      if code !in rooms {
        return [];
      }
      Impostor.SubmitVotePreservesValid(rooms[code], sid, videoId);
      var reply := Impostor.SubmitVote(rooms[code], sid, videoId);
      Put(code, reply.room);
      events := reply.events;
    }

    /** `show_results` */
    method ShowResults(sid: string, code: string) returns (events: seq<Emit>)
      requires Valid()
      modifies this
      ensures Valid() && order == old(order) && questionIdCounter == old(questionIdCounter)
      ensures code !in old(rooms) ==> rooms == old(rooms) && events == []
      ensures code in old(rooms) ==>
        var reply := Impostor.ShowResultsSpec(old(rooms)[code], sid);
        rooms == old(rooms)[code := reply.room] && events == reply.events
    {
      if code !in rooms {
        return [];
      }
      Impostor.RoundControlsPreserveValid(rooms[code], sid);
      var reply := Impostor.ShowResults(rooms[code], sid);
      Put(code, reply.room);
      events := reply.events;
    }

    /** `new_round` */
    method NewRound(sid: string, code: string) returns (events: seq<Emit>)
      requires Valid()
      modifies this
      ensures Valid() && order == old(order) && questionIdCounter == old(questionIdCounter)
      ensures code !in old(rooms) ==> rooms == old(rooms) && events == []
      ensures code in old(rooms) ==>
        var reply := Impostor.NewRoundSpec(old(rooms)[code], sid);
        rooms == old(rooms)[code := reply.room] && events == reply.events
    {
      if code !in rooms {
        return [];
      }
      Impostor.RoundControlsPreserveValid(rooms[code], sid);
      var reply := Impostor.NewRound(rooms[code], sid);
      Put(code, reply.room);
      events := reply.events;
    }

    /** The `for ... of rooms.entries()` scan of `disconnect`: the position
        of the first room, in insertion order, whose roster holds `sid`. */
    method FindRoomOf(sid: string) returns (k: Option<nat>)
      requires Valid()
      ensures k == FirstRoomFrom(rooms, order, sid, 0)
    {
      var i := 0;
      while i < |order|
        invariant 0 <= i <= |order|
        invariant FirstRoomFrom(rooms, order, sid, i) == FirstRoomFrom(rooms, order, sid, 0)
        decreases |order| - i
      {
        if FindById(rooms[order[i]].players, sid).Some? {
          return Some(i);
        }
        i := i + 1;
      }
      return None;
    }

    /** `disconnect`: the socket leaves the first room that holds it; a room
        left empty is deleted. */
    method Disconnect(sid: string) returns (events: seq<Emit>)
      requires Valid()
      modifies this
      ensures Valid() && questionIdCounter == old(questionIdCounter)
      ensures var out := DisconnectSpec(old(rooms), old(order), sid);
        rooms == out.rooms && order == out.order && events == out.events
    {
      var k := FindRoomOf(sid);
      if k.None? {
        return [];
      }
      var i := k.value;
      var code := order[i];
      LeaveFirstRoom(rooms, order, sid, i);
      var departure := Membership.Leave(rooms[code], sid);
      match departure {
      case Absent =>
        assert false;
      case Emptied =>
        rooms := rooms - {code};
        order := order[..i] + order[i + 1..];
        events := [];
      case Left(reply) =>
        rooms := rooms[code := reply.room];
        events := reply.events;
      }
    }
  }
}
