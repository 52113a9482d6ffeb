/** The buzzer game: `buzz` (server/index.js:168-207), `reset_buzzers`
    (209-228) and `mark_answer` (448-481). */
module Buzzer {
  import opened Basics
  import opened Sorting
  import opened Rooms
  import opened Events

  /** A participant after `p.buzzed = false; p.buzzTime = null`. */
  function Unbuzzed(p: Participant): Participant {
    p.(buzzed := false, buzzTime := None)
  }

  /** The roster after the reset loop: nobody has buzzed and nothing else
      about anyone has changed. */
  function ClearedBuzzers(ps: seq<Participant>): (r: seq<Participant>)
    ensures |r| == |ps|
    ensures forall i :: 0 <= i < |r| ==> !r[i].buzzed && r[i].buzzTime == None
    ensures forall i :: 0 <= i < |r| ==> r[i].(buzzed := ps[i].buzzed, buzzTime := ps[i].buzzTime) == ps[i]
  {
    seq(|ps|, i requires 0 <= i < |ps| => Unbuzzed(ps[i]))
  }

  /** `room.players.forEach(p => { p.buzzed = false; p.buzzTime = null; })` */
  method ClearBuzzers(ps: seq<Participant>) returns (r: seq<Participant>)
    ensures r == ClearedBuzzers(ps)
  {
    r := ps;
    var i := 0;
    while i < |r|
      invariant 0 <= i <= |r| == |ps|
      invariant forall j :: 0 <= j < i ==> r[j] == Unbuzzed(ps[j])
      invariant forall j :: i <= j < |r| ==> r[j] == ps[j]
    {
      r := r[i := Unbuzzed(r[i])];
      i := i + 1;
    }
    assert r == ClearedBuzzers(ps);
  }

  /** Resetting the buzzers keeps the roster's host, names, ids and roles. */
  lemma ClearedBuzzersKeepRoster(r: Room)
    requires RoomValid(r)
    ensures RosterValid(ClearedBuzzers(r.players), r.hostId)
    ensures RolesValid(r.mode, ClearedBuzzers(r.players), r.round)
  {
    var ps, cs := r.players, ClearedBuzzers(r.players);
    assert forall i :: 0 <= i < |cs| ==>
      cs[i].isHost == ps[i].isHost && cs[i].name == ps[i].name && cs[i].id == ps[i].id && cs[i].role == ps[i].role;
    CountRoleSameRoles(ps, cs, PlayerRole);
  }

  /** The order as broadcast: each entry with its 1-based position. */
  function Ranked(order: seq<BuzzEntry>): (r: seq<RankedBuzz>)
    ensures |r| == |order|
    ensures forall i :: 0 <= i < |r| ==> r[i].entry == order[i]
  {
    seq(|order|, i requires 0 <= i < |order| => RankedBuzz(order[i], i + 1))
  }

  /** In a sorted order the broadcast positions run 1..N and follow buzz time. */
  lemma RankedPositions(order: seq<BuzzEntry>)
    requires SortedBy(order, BuzzTimeOf)
    ensures forall i :: 0 <= i < |order| ==> 1 <= Ranked(order)[i].position <= |order|
    ensures forall i, j :: 0 <= i < j < |order| ==>
      Ranked(order)[i].position < Ranked(order)[j].position
      && Ranked(order)[i].entry.buzzTime <= Ranked(order)[j].entry.buzzTime
  {
  }

  /** `player && !player.buzzed && !player.isHost`. */
  predicate MayBuzz(r: Room, sid: string) {
    match FindById(r.players, sid)
    case None => false
    case Some(i) => !r.players[i].buzzed && !r.players[i].isHost
  }

  /** `room.firstBuzzTime` once a buzz at `now` has been seen. */
  function Anchor(first: Option<int>, now: int): int {
    match first
    case None => now
    case Some(t) => t
  }

  function Buzzed(p: Participant, now: int): Participant {
    p.(buzzed := true, buzzTime := Some(now))
  }

  /** `{ ...player, buzzTime, timeDiff }` */
  function EntryFor(p: Participant, first: Option<int>, now: int): BuzzEntry {
    BuzzEntry(Buzzed(p, now), now, now - Anchor(first, now))
  }

  /** `buzz` at clock reading `now`: mark the sender, anchor the round,
      append the entry and sort the order by time. */
  function BuzzSpec(r: Room, sid: string, now: int): Reply {
    if !MayBuzz(r, sid) then Unchanged(r)
    else
      var i := FindById(r.players, sid).value;
      var p := Buzzed(r.players[i], now);
      var order := SortBy(r.buzzOrder + [EntryFor(r.players[i], r.firstBuzzTime, now)], BuzzTimeOf);
      var room := r.(players := r.players[i := p], buzzOrder := order,
                     firstBuzzTime := Some(Anchor(r.firstBuzzTime, now)));
      Reply(room, [Emit(Everyone(r.code), PlayerBuzzed(p, Ranked(order)))])
  }

  /** A buzz is heard exactly when the sender is a non-host member who has not
      buzzed yet; otherwise nothing changes. */
  lemma BuzzHeardIff(r: Room, sid: string, now: int)
    ensures BuzzSpec(r, sid, now).events != [] <==> MayBuzz(r, sid)
    ensures !MayBuzz(r, sid) ==> BuzzSpec(r, sid, now).room == r
    ensures MayBuzz(r, sid) ==> !MayBuzz(BuzzSpec(r, sid, now).room, sid)
  {
    if MayBuzz(r, sid) {
      var i := FindById(r.players, sid).value;
      var ps := BuzzSpec(r, sid, now).room.players;
      assert ps[i].id == sid && ps[i].buzzed;
      assert forall j :: 0 <= j < i ==> ps[j].id == r.players[j].id;
    }
  }

  /** A heard buzz lands in the sorted order after every earlier-or-equal
      time and before every later one; the first buzz since a reset has
      offset 0 and starts the order. */
  lemma BuzzOrder(r: Room, sid: string, now: int)
    requires RoomValid(r) && MayBuzz(r, sid)
    ensures var i := FindById(r.players, sid).value;
      var e := EntryFor(r.players[i], r.firstBuzzTime, now);
      var k := InsertionPoint(r.buzzOrder, e, BuzzTimeOf);
      var order := BuzzSpec(r, sid, now).room.buzzOrder;
      && order == r.buzzOrder[..k] + [e] + r.buzzOrder[k..]
      && SortedBy(order, BuzzTimeOf)
      && multiset(order) == multiset(r.buzzOrder) + multiset{e}
      && e.buzzTime == now
      && (r.firstBuzzTime == None ==> e.timeDiff == 0 && order == [e])
  {
    var i := FindById(r.players, sid).value;
    var e := EntryFor(r.players[i], r.firstBuzzTime, now);
    SortAppended(r.buzzOrder, e, BuzzTimeOf);
    InsertAt(r.buzzOrder, e, BuzzTimeOf);
    InsertSorted(r.buzzOrder, e, BuzzTimeOf);
    InsertPermutes(r.buzzOrder, e, BuzzTimeOf);
  }

  lemma BuzzPreservesValid(r: Room, sid: string, now: int)
    requires RoomValid(r)
    ensures RoomValid(BuzzSpec(r, sid, now).room)
  {
    if MayBuzz(r, sid) {
      var i := FindById(r.players, sid).value;
      BuzzOrder(r, sid, now);
      UpdateParticipant(r, i, Buzzed(r.players[i], now));
    }
  }

  /** `reset_buzzers`, from the host only. */
  function ResetSpec(r: Room, sid: string): Reply {
    if !SentByHost(r.players, sid) then Unchanged(r)
    else Reply(r.(players := ClearedBuzzers(r.players), buzzOrder := [], firstBuzzTime := None),
               [Emit(Everyone(r.code), BuzzersReset)])
  }

  /** After a reset the order is empty, no anchor is set, and every non-host
      member may buzz again. */
  lemma ResetReopens(r: Room, sid: string, who: string)
    requires SentByHost(r.players, sid)
    requires FindById(r.players, who).Some? && !r.players[FindById(r.players, who).value].isHost
    ensures ResetSpec(r, sid).room.buzzOrder == [] && ResetSpec(r, sid).room.firstBuzzTime == None
    ensures MayBuzz(ResetSpec(r, sid).room, who)
  {
    var ps := ResetSpec(r, sid).room.players;
    assert forall j :: 0 <= j < |ps| ==> ps[j].id == r.players[j].id && ps[j].isHost == r.players[j].isHost;
    var i := FindById(r.players, who).value;
    assert FindById(ps, who) == Some(i) by {
      FindByIdSameIds(r.players, ps, who);
    }
  }

  lemma ResetPreservesValid(r: Room, sid: string)
    requires RoomValid(r)
    ensures RoomValid(ResetSpec(r, sid).room)
  {
    if SentByHost(r.players, sid) {
      ClearedBuzzersKeepRoster(r);
    }
  }

  /** `buzzOrder.map(...)`: the entries of `id` take the new score; times and
      everyone else's entries stay. */
  function WithScore(order: seq<BuzzEntry>, id: string, score: nat): (res: seq<BuzzEntry>)
    ensures |res| == |order|
    ensures forall i :: 0 <= i < |res| ==>
      && res[i].buzzTime == order[i].buzzTime && res[i].timeDiff == order[i].timeDiff
      && res[i].who == (if order[i].who.id == id then order[i].who.(score := score) else order[i].who)
  {
    seq(|order|, i requires 0 <= i < |order| =>
      if order[i].who.id == id then order[i].(who := order[i].who.(score := score)) else order[i])
  }

  /** `mark_answer`, from the host, for any member: there is no check of
      the room type or of the buzz order. */
  function MarkSpec(r: Room, sid: string, playerId: string, correct: bool): Reply {
    if !SentByHost(r.players, sid) then Unchanged(r)
    else match FindById(r.players, playerId)
      case None => Unchanged(r)
      case Some(i) =>
        var p := r.players[i].(score := r.players[i].score + Award(correct, r.state));
        var ps := r.players[i := p];
        var order := WithScore(r.buzzOrder, playerId, p.score);
        Reply(r.(players := ps, buzzOrder := order),
              [Emit(Everyone(r.code), AnswerMarked(playerId, correct, p, ps, order))])
  }

  /** Marking changes only the marked participant's score, by one point for a
      correct answer in an active game and by nothing otherwise; the buzz
      order shows the new score and keeps its times. */
  lemma MarkScores(r: Room, sid: string, playerId: string, correct: bool)
    requires SentByHost(r.players, sid) && FindById(r.players, playerId).Some?
    ensures var i := FindById(r.players, playerId).value;
      var out := MarkSpec(r, sid, playerId, correct).room;
      && |out.players| == |r.players|
      && out.players[i].score == r.players[i].score + (if correct && r.state == Active then 1 else 0)
      && out.players[i] == r.players[i].(score := out.players[i].score)
      && (forall j :: 0 <= j < |r.players| && j != i ==> out.players[j] == r.players[j])
      && (forall j :: 0 <= j < |out.buzzOrder| ==>
            out.buzzOrder[j].buzzTime == r.buzzOrder[j].buzzTime
            && (out.buzzOrder[j].who.id == playerId ==> out.buzzOrder[j].who.score == out.players[i].score))
  {
  }

  lemma MarkPreservesValid(r: Room, sid: string, playerId: string, correct: bool)
    requires RoomValid(r)
    ensures RoomValid(MarkSpec(r, sid, playerId, correct).room)
  {
    if SentByHost(r.players, sid) && FindById(r.players, playerId).Some? {
      var i := FindById(r.players, playerId).value;
      var out := MarkSpec(r, sid, playerId, correct).room;
      UpdateParticipant(r, i, out.players[i]);
      assert SortedBy(out.buzzOrder, BuzzTimeOf) by {
        assert forall j :: 0 <= j < |out.buzzOrder| ==> BuzzTimeOf(out.buzzOrder[j]) == BuzzTimeOf(r.buzzOrder[j]);
      }
    }
  }

  // The handlers, on the room they looked up.

  /** `buzz`, step by step. */
  method Buzz(r: Room, sid: string, now: int) returns (out: Reply)
    ensures out == BuzzSpec(r, sid, now)
  {
    var found := FindById(r.players, sid);
    if found.None? || r.players[found.value].buzzed || r.players[found.value].isHost {
      return Unchanged(r);
    }
    var i := found.value;
    var player := r.players[i];
    var buzzTime := now;
    var first := r.firstBuzzTime;
    if first == None {
      first := Some(buzzTime);
    }
    var timeDiff := buzzTime - first.value;
    player := player.(buzzed := true, buzzTime := Some(buzzTime));
    var entry := BuzzEntry(player, buzzTime, timeDiff);
    var sorted := SortBy(r.buzzOrder + [entry], BuzzTimeOf);
    var room := r.(players := r.players[i := player], buzzOrder := sorted, firstBuzzTime := first);
    return Reply(room, [Emit(Everyone(r.code), PlayerBuzzed(player, Ranked(sorted)))]);
  }

  /** `reset_buzzers`, step by step. */
  method Reset(r: Room, sid: string) returns (out: Reply)
    ensures out == ResetSpec(r, sid)
  {
    var host := FindById(r.players, sid);
    if host.None? || !r.players[host.value].isHost {
      return Unchanged(r);
    }
    var ps := ClearBuzzers(r.players);
    return Reply(r.(players := ps, buzzOrder := [], firstBuzzTime := None), [Emit(Everyone(r.code), BuzzersReset)]);
  }

  /** `mark_answer`, step by step. */
  method Mark(r: Room, sid: string, playerId: string, correct: bool) returns (out: Reply)
    ensures out == MarkSpec(r, sid, playerId, correct)
  {
    var host := FindById(r.players, sid);
    if host.None? || !r.players[host.value].isHost {
      return Unchanged(r);
    }
    var found := FindById(r.players, playerId);
    if found.None? {
      return Unchanged(r);
    }
    var j := found.value;
    var player := r.players[j];
    if correct && r.state == Active {
      player := player.(score := player.score + 1);
    }
    var updated := WithScore(r.buzzOrder, playerId, player.score);
    var ps := r.players[j := player];
    return Reply(r.(players := ps, buzzOrder := updated),
                 [Emit(Everyone(r.code), AnswerMarked(playerId, correct, player, ps, updated))]);
  }
}
