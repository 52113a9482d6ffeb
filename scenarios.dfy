/** A whole buzzer game played through the handlers' specifications, one
    step after another, with concrete sockets, names and clock readings:
    Alice creates the room, Bob and Carol join, Alice starts the game, Bob
    buzzes at 100 and Carol at 140. */
module Scenarios {
  import opened Basics
  import opened Sorting
  import opened Rooms
  import opened Events
  import Membership
  import Buzzer
  import Lifecycle

  const Code := "123456"
  const Alice := Membership.NewMember("a", "Alice", true, None)
  const Bob := Membership.NewMember("b", "Bob", false, None)
  const Carol := Membership.NewMember("c", "Carol", false, None)

  function Lobby(): Room {
    var r0 := Membership.CreateSpec(Code, "a", "Alice", Some("buzzer")).room;
    var r1 := Membership.JoinSpec(r0, "b", "Bob", None).room;
    Membership.JoinSpec(r1, "c", "Carol", None).room
  }

  function Started(): Room {
    Lifecycle.StartGameSpec(Lobby(), "a").room
  }

  function AfterBob(): Room {
    Buzzer.BuzzSpec(Started(), "b", 100).room
  }

  function AfterCarol(): Room {
    Buzzer.BuzzSpec(AfterBob(), "c", 140).room
  }

  /** Both joins succeed and append in join order. */
  lemma LobbyRoster()
    ensures Lobby().players == [Alice, Bob, Carol]
    ensures Lobby().mode == Buzzer && Lobby().buzzOrder == [] && Lobby().firstBuzzTime == None
  {
    var r0 := Membership.CreateSpec(Code, "a", "Alice", Some("buzzer")).room;
    assert r0.players == [Alice];
    assert !HasName(r0.players, "Bob");
    var r1 := Membership.JoinSpec(r0, "b", "Bob", None).room;
    assert r1.players == [Alice, Bob];
    assert !HasName(r1.players, "Carol");
  }

  /** Starting leaves a buzzer lobby's roster as it was: nobody had buzzed. */
  lemma StartedRoom()
    ensures Started().players == [Alice, Bob, Carol] && Started().state == Active
    ensures Started().buzzOrder == [] && Started().firstBuzzTime == None && Started().code == Code
  {
    LobbyRoster();
    assert FindById(Lobby().players, "a") == Some(0);
    assert Buzzer.ClearedBuzzers([Alice, Bob, Carol]) == [Alice, Bob, Carol];
  }

  lemma BobBuzzes()
    ensures AfterBob().players == [Alice, Buzzer.Buzzed(Bob, 100), Carol]
    ensures AfterBob().buzzOrder == [Buzzer.EntryFor(Bob, None, 100)]
    ensures AfterBob().firstBuzzTime == Some(100)
  {
    StartedRoom();
    assert FindById(Started().players, "b") == Some(1);
  }

  /** A second buzz, later than the first, lands behind it. */
  lemma SecondBuzz(r: Room, x: Participant, y: Participant, z: Participant, e: BuzzEntry, now: int)
    requires r.players == [x, y, z] && x.id != z.id && y.id != z.id && !z.buzzed && !z.isHost
    requires r.buzzOrder == [e] && r.firstBuzzTime.Some? && e.buzzTime <= now
    ensures Buzzer.BuzzSpec(r, z.id, now).room.players == [x, y, Buzzer.Buzzed(z, now)]
    ensures Buzzer.BuzzSpec(r, z.id, now).room.buzzOrder == [e, Buzzer.EntryFor(z, r.firstBuzzTime, now)]
  {
    assert FindById(r.players, z.id) == Some(2);
    var e2 := Buzzer.EntryFor(z, r.firstBuzzTime, now);
    assert SortedBy([e], BuzzTimeOf);
    SortAppended([e], e2, BuzzTimeOf);
    assert [e] + [e2] == [e, e2];
  }

  lemma CarolBuzzes()
    ensures AfterCarol().players == [Alice, Buzzer.Buzzed(Bob, 100), Buzzer.Buzzed(Carol, 140)]
    ensures AfterCarol().buzzOrder == [Buzzer.EntryFor(Bob, None, 100), Buzzer.EntryFor(Carol, Some(100), 140)]
    ensures AfterCarol().state == Active
  {
    BobBuzzes();
    StartedRoom();
    SecondBuzz(AfterBob(), Alice, Buzzer.Buzzed(Bob, 100), Carol, Buzzer.EntryFor(Bob, None, 100), 140);
  }

  lemma RankedPair(e1: BuzzEntry, e2: BuzzEntry)
    ensures Buzzer.Ranked([e1, e2]) == [RankedBuzz(e1, 1), RankedBuzz(e2, 2)]
  {
  }

  /** The host of a three-member active room marks the member at `i`. */
  lemma MarkMember(r: Room, x: Participant, y: Participant, z: Participant, i: nat)
    requires r.players == [x, y, z] && x.isHost && r.state == Active
    requires x.id != y.id && x.id != z.id && y.id != z.id && 1 <= i <= 2
    ensures Buzzer.MarkSpec(r, x.id, r.players[i].id, true).room.players[i].score == r.players[i].score + 1
  {
    assert FindById(r.players, x.id) == Some(0);
    assert FindById(r.players, r.players[i].id) == Some(i);
    Buzzer.MarkScores(r, x.id, r.players[i].id, true);
  }

  /** The broadcast order is Bob first with offset 0, then Carol 40 ms
      later. */
  lemma BuzzerRound()
    ensures var ranked := Buzzer.Ranked(AfterCarol().buzzOrder);
      && |ranked| == 2
      && ranked[0].entry.who.name == "Bob" && ranked[0].position == 1 && ranked[0].entry.timeDiff == 0
      && ranked[1].entry.who.name == "Carol" && ranked[1].position == 2 && ranked[1].entry.timeDiff == 40
  {
    CarolBuzzes();
    RankedPair(Buzzer.EntryFor(Bob, None, 100), Buzzer.EntryFor(Carol, Some(100), 140));
  }

  /** In an active game with the roster the round leaves (`CarolBuzzes`),
      marking Bob correct gives him his first point, and so does marking
      Carol before him: the handler does not enforce buzz order. */
  lemma MarksAfterRound(r: Room)
    requires r.players == [Alice, Buzzer.Buzzed(Bob, 100), Buzzer.Buzzed(Carol, 140)] && r.state == Active
    ensures Buzzer.MarkSpec(r, "a", "b", true).room.players[1].score == 1
    ensures Buzzer.MarkSpec(r, "a", "c", true).room.players[2].score == 1
  {
    MarkMember(r, Alice, Buzzer.Buzzed(Bob, 100), Buzzer.Buzzed(Carol, 140), 1);
    MarkMember(r, Alice, Buzzer.Buzzed(Bob, 100), Buzzer.Buzzed(Carol, 140), 2);
  }
}
