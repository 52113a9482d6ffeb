/** Starting and ending a game: `start_game` (server/index.js:483-509) and
    `end_game` (511-535). */
module Lifecycle {
  import opened Basics
  import opened Sorting
  import opened Rooms
  import opened Events
  import Buzzer

  /** `start_game`, from the host; a buzzer room also has its buzzers reset. */
  function StartGameSpec(r: Room, sid: string): Reply {
    if !SentByHost(r.players, sid) then Unchanged(r)
    else if r.mode == Buzzer then
      Reply(r.(state := Active, players := Buzzer.ClearedBuzzers(r.players), buzzOrder := [], firstBuzzTime := None),
            [Emit(Everyone(r.code), BuzzersReset), Emit(Everyone(r.code), GameStarted(Active))])
    else Reply(r.(state := Active), [Emit(Everyone(r.code), GameStarted(Active))])
  }

  /** Only the host starts a game. It becomes active whatever state it was
      in; in a buzzer room nobody has buzzed afterwards and the reset is
      announced before the start, and in other rooms nothing else changes. */
  lemma StartGameEffect(r: Room, sid: string)
    ensures var out := StartGameSpec(r, sid);
      && (!SentByHost(r.players, sid) ==> out == Unchanged(r))
      && (SentByHost(r.players, sid) ==> out.room.state == Active && out.events[|out.events| - 1].payload == GameStarted(Active))
      && (SentByHost(r.players, sid) && r.mode == Buzzer ==>
            && out.room.buzzOrder == [] && out.room.firstBuzzTime == None
            && (forall i :: 0 <= i < |out.room.players| ==> !out.room.players[i].buzzed)
            && out.events[0].payload == BuzzersReset)
      && (SentByHost(r.players, sid) && r.mode != Buzzer ==> out.room == r.(state := Active) && |out.events| == 1)
  {
  }

  lemma StartGamePreservesValid(r: Room, sid: string)
    requires RoomValid(r)
    ensures RoomValid(StartGameSpec(r, sid).room)
  {
    if SentByHost(r.players, sid) && r.mode == Buzzer {
      Buzzer.ClearedBuzzersKeepRoster(r);
    }
  }

  /** `room.players.filter(p => !p.isHost)` */
  function NonHosts(ps: seq<Participant>): (r: seq<Participant>)
    ensures |r| <= |ps|
  {
    if ps == [] then [] else (if ps[0].isHost then [] else [ps[0]]) + NonHosts(ps[1..])
  }

  lemma NonHostsAll(ps: seq<Participant>)
    requires forall i :: 0 <= i < |ps| ==> !ps[i].isHost
    ensures NonHosts(ps) == ps
  {
  }

  /** In a valid roster the non-hosts are everyone after the host. */
  lemma NonHostsOfRoster(ps: seq<Participant>, hostId: string)
    requires RosterValid(ps, hostId)
    ensures NonHosts(ps) == ps[1..]
  {
    NonHostsAll(ps[1..]);
  }

  /** The comparator `(a, b) => b.score - a.score` as an ascending key. */
  function NegScore(p: Participant): int {
    -(p.score as int)
  }

  /** `topPlayers`: the non-hosts by descending score, ties in roster order,
      cut to three. */
  function Podium(ps: seq<Participant>): seq<Participant> {
    Top(NonHosts(ps))
  }

  lemma WithKeyPrefix<T>(s: seq<T>, m: nat, key: T -> int, k: int)
    requires m <= |s|
    ensures WithKey(s[..m], key, k) <= WithKey(s, key, k)
  {
    assert s == s[..m] + s[m..];
    WithKeyConcat(s[..m], s[m..], key, k);
  }

  /** The first three of the ranking of `field`. */
  function Top(field: seq<Participant>): seq<Participant> {
    var ranked := SortBy(field, NegScore);
    ranked[..Min(3, |ranked|)]
  }

  lemma TopMembers(field: seq<Participant>)
    ensures |Top(field)| == Min(3, |field|)
    ensures multiset(Top(field)) <= multiset(field)
    ensures forall i :: 0 <= i < |Top(field)| ==> Top(field)[i] in field
  {
    var ranked := SortBy(field, NegScore);
    var m := Min(3, |ranked|);
    SortByPermutes(field, NegScore);
    assert ranked == Top(field) + ranked[m..];
    forall i | 0 <= i < m ensures Top(field)[i] in field {
      assert Top(field)[i] in multiset(ranked);
    }
  }

  lemma TopOrdered(field: seq<Participant>)
    ensures forall i, j :: 0 <= i < j < |Top(field)| ==> Top(field)[i].score >= Top(field)[j].score
    ensures forall q :: q in field && q !in Top(field) ==> 0 < |Top(field)| && q.score <= Top(field)[|Top(field)| - 1].score
  {
    var ranked := SortBy(field, NegScore);
    var m := Min(3, |ranked|);
    var top := Top(field);
    SortBySorted(field, NegScore);
    SortByPermutes(field, NegScore);
    assert forall i, j :: 0 <= i < j < m ==> NegScore(top[i]) <= NegScore(top[j]);
    forall q | q in field && q !in top ensures 0 < |top| && q.score <= top[|top| - 1].score {
      assert q in multiset(ranked);
      var j :| 0 <= j < |ranked| && ranked[j] == q;
      assert j >= m;
      assert NegScore(ranked[m - 1]) <= NegScore(ranked[j]);
    }
  }

  lemma TopStable(field: seq<Participant>, k: int)
    ensures WithKey(Top(field), NegScore, k) <= WithKey(field, NegScore, k)
  {
    var ranked := SortBy(field, NegScore);
    WithKeyPrefix(ranked, Min(3, |ranked|), NegScore, k);
    SortByStable(field, NegScore, k);
  }

  /** The podium holds the three best non-hosts (all of them if fewer), none
      of them the host, best first; nobody left off it scored more than its
      last place, and players with equal scores appear in the order they
      joined. */
  lemma PodiumRanks(ps: seq<Participant>, hostId: string)
    requires RosterValid(ps, hostId)
    ensures var top, field := Podium(ps), ps[1..];
      && |top| == Min(3, |field|)
      && multiset(top) <= multiset(field)
      && (forall i :: 0 <= i < |top| ==> !top[i].isHost)
      && (forall i, j :: 0 <= i < j < |top| ==> top[i].score >= top[j].score)
      && (forall q :: q in field && q !in top ==> 0 < |top| && q.score <= top[|top| - 1].score)
      && (forall k :: WithKey(top, NegScore, k) <= WithKey(field, NegScore, k))
  {
    var field := ps[1..];
    NonHostsOfRoster(ps, hostId);
    assert Podium(ps) == Top(field);
    TopMembers(field);
    TopOrdered(field);
    forall k ensures WithKey(Top(field), NegScore, k) <= WithKey(field, NegScore, k) {
      TopStable(field, k);
    }
    forall i | 0 <= i < |Top(field)| ensures !Top(field)[i].isHost {
      var j :| 0 <= j < |field| && field[j] == Top(field)[i];
      assert field[j] == ps[j + 1];
    }
  }

  /** `end_game`, from the host: the game ends and the podium is announced. */
  function EndGameSpec(r: Room, sid: string): Reply {
    if !SentByHost(r.players, sid) then Unchanged(r)
    else Reply(r.(state := Ended), [Emit(Everyone(r.code), GameEnded(Ended, Podium(r.players)))])
  }

  /** Ending changes only the state, and the announcement carries the podium
      of the roster as it stands. */
  lemma EndGameEffect(r: Room, sid: string)
    requires RoomValid(r)
    ensures SentByHost(r.players, sid) ==>
      && EndGameSpec(r, sid).room == r.(state := Ended)
      && EndGameSpec(r, sid).events == [Emit(Everyone(r.code), GameEnded(Ended, Podium(r.players)))]
    ensures !SentByHost(r.players, sid) ==> EndGameSpec(r, sid) == Unchanged(r)
    ensures RoomValid(EndGameSpec(r, sid).room)
  {
  }

  // The handlers, on the room they looked up.

  /** `start_game`, step by step. */
  method StartGame(r: Room, sid: string) returns (out: Reply)
    ensures out == StartGameSpec(r, sid)
  {
    var host := FindById(r.players, sid);
    if host.None? || !r.players[host.value].isHost {
      return Unchanged(r);
    }
    var room := r.(state := Active);
    var events := [];
    if r.mode == Buzzer {
      var ps := Buzzer.ClearBuzzers(r.players);
      room := room.(players := ps, buzzOrder := [], firstBuzzTime := None);
      events := [Emit(Everyone(r.code), BuzzersReset)];
    }
    return Reply(room, events + [Emit(Everyone(r.code), GameStarted(Active))]);
  }

  /** `end_game`, step by step. */
  method EndGame(r: Room, sid: string) returns (out: Reply)
    ensures out == EndGameSpec(r, sid)
  {
    var host := FindById(r.players, sid);
    if host.None? || !r.players[host.value].isHost {
      return Unchanged(r);
    }
    var topPlayers := Podium(r.players);
    return Reply(r.(state := Ended), [Emit(Everyone(r.code), GameEnded(Ended, topPlayers))]);
  }
}
