/** The records the coordinator keeps for each room (server/index.js:66-100,
    142-150, 186-190, 240-245, 395-402, 597-605) and the invariants every
    handler preserves. */
module Rooms {
  import opened Basics
  import opened Text
  import opened Sorting

  /** `IMPOSTOR_CONFIG`: at most five videos (and so five Players) per round,
      each at most 3000 ms long. */
  const MaxVideos: nat := 5
  const VideoDuration: int := 3000

  const PlayerRole := "Player"
  const VoterRole := "Voter"

  /** `room.type`. The client may send any string; the handlers single out
      these three. */
  datatype Mode = Buzzer | TypeQuiz | Impostor | OtherMode(name: string)

  /** `roomType || 'buzzer'`: a missing or empty type makes a buzzer room. */
  function ModeOf(roomType: Option<string>): (m: Mode)
    ensures roomType == None || roomType == Some("") || roomType == Some("buzzer") <==> m == Buzzer
    ensures m == Impostor <==> roomType == Some("impostor")
    ensures m == TypeQuiz <==> roomType == Some("type")
  {
    match roomType
    case None => Buzzer
    case Some(t) =>
      if t == "" || t == "buzzer" then Buzzer
      else if t == "type" then TypeQuiz
      else if t == "impostor" then Impostor
      else OtherMode(t)
  }

  datatype GameState = Waiting | Active | Ended | Recording | Voting | Results

  /** One entry of `room.players`. `answered` and `answerTime` are absent
      until the first question starts; absent is `false` and `None` here. */
  datatype Participant = Participant(
    id: string,
    name: string,
    isHost: bool,
    buzzed: bool,
    buzzTime: Option<int>,
    score: nat,
    role: Option<string>,
    answered: bool,
    answerTime: Option<int>)

  /** A copy of the buzzing participant with its buzz time and its offset
      from the round's first buzz. */
  datatype BuzzEntry = BuzzEntry(who: Participant, buzzTime: int, timeDiff: int)

  function BuzzTimeOf(e: BuzzEntry): int {
    e.buzzTime
  }

  /** A buzz entry as broadcast, with its 1-based position. */
  datatype RankedBuzz = RankedBuzz(entry: BuzzEntry, position: nat)

  datatype Question = Question(id: int, text: string, answer: string, answerType: string)

  datatype LogEntry = LogEntry(
    id: int,
    playerName: string,
    playerId: string,
    answer: string,
    isCorrect: bool,
    timestamp: int)

  /** A recorded clip; `data` and `mimeType` are opaque. */
  datatype Video = Video(
    id: string,
    playerId: string,
    playerName: string,
    data: string,
    mimeType: string,
    duration: int,
    timestamp: nat)

  /** The stored vote of one voter (`room.votes[voterId] = videoId`). */
  datatype Vote = Vote(voter: string, videoId: string)

  datatype Tally = Tally(count: nat, percentage: nat, voters: seq<Option<string>>)

  /** The fields only impostor rooms have (`videos`, `votes`, `voteResults`,
      `recordingComplete` and the three limits). */
  datatype Round = Round(
    videos: seq<Video>,
    votes: seq<Vote>,
    voteResults: map<string, Tally>,
    recordingComplete: set<string>,
    maxVideos: nat,
    maxDuration: int,
    maxPlayers: nat)

  datatype Room = Room(
    code: string,
    mode: Mode,
    hostId: string,
    players: seq<Participant>,
    state: GameState,
    buzzOrder: seq<BuzzEntry>,
    firstBuzzTime: Option<int>,
    questions: seq<Question>,
    currentQuestion: Option<Question>,
    currentQuestionIndex: int,
    answerLog: seq<LogEntry>,
    round: Option<Round>)

  /** A correct answer earns one point, and only while the game is active. */
  function Award(correct: bool, state: GameState): nat {
    if correct && state == Active then 1 else 0
  }

  /** `` `video_${now}_${socketId}` `` */
  function VideoId(now: nat, sid: string): string {
    "video_" + NatToString(now) + "_" + sid
  }

  /** The sender a video id names: the text after `video_`, the clock
      digits and the `_` that follows them. */
  function VideoSender(id: string): Option<string> {
    if |id| >= 6 && id[..6] == "video_" then
      var rest := id[6..];
      var n := LeadingDigits(rest);
      if 0 < n < |rest| && rest[n] == '_' then Some(rest[n + 1..]) else None
    else None
  }

  /** A video id can be read back to its sender, whatever the clock said. */
  lemma VideoSenderOf(now: nat, sid: string)
    ensures VideoSender(VideoId(now, sid)) == Some(sid)
  {
    var a := NatToString(now);
    var id := VideoId(now, sid);
    assert id == "video_" + (a + ("_" + sid));
    assert id[..6] == "video_";
    var rest := id[6..];
    assert rest == a + ("_" + sid);
    LeadingDigitsPrefix(a, "_" + sid);
    assert rest[|a|] == '_';
    assert rest[|a| + 1..] == sid;
  }

  /** `players.find(p => p.id === id)`, as the index it finds. */
  function FindById(ps: seq<Participant>, id: string): (r: Option<nat>)
    ensures r.Some? ==> r.value < |ps| && ps[r.value].id == id
    ensures r.Some? ==> forall j :: 0 <= j < r.value ==> ps[j].id != id
    ensures r.None? ==> forall j :: 0 <= j < |ps| ==> ps[j].id != id
  {
    if ps == [] then None
    else if ps[0].id == id then Some(0)
    else match FindById(ps[1..], id)
      case None => None
      case Some(k) => Some(k + 1)
  }

  /** `find` by id looks only at ids. */
  lemma {:induction false} FindByIdSameIds(ps: seq<Participant>, qs: seq<Participant>, id: string)
    requires |ps| == |qs| && forall i :: 0 <= i < |ps| ==> ps[i].id == qs[i].id
    ensures FindById(ps, id) == FindById(qs, id)
  {
    if ps != [] {
      FindByIdSameIds(ps[1..], qs[1..], id);
    }
  }

  /** `host && host.isHost` for `host = players.find(p => p.id === sid)`. */
  predicate SentByHost(ps: seq<Participant>, sid: string) {
    match FindById(ps, sid)
    case None => false
    case Some(i) => ps[i].isHost
  }

  /** `players.find(p => p.name === name)` finds someone. */
  predicate HasName(ps: seq<Participant>, name: string) {
    exists i :: 0 <= i < |ps| && ps[i].name == name
  }

  /** `players.filter(p => p.role === role).length` */
  function CountRole(ps: seq<Participant>, role: string): (n: nat)
    ensures n <= |ps|
  {
    if ps == [] then 0
    else CountRole(ps[..|ps| - 1], role) + (if ps[|ps| - 1].role == Some(role) then 1 else 0)
  }

  lemma CountRoleAppend(ps: seq<Participant>, p: Participant, role: string)
    ensures CountRole(ps + [p], role) == CountRole(ps, role) + (if p.role == Some(role) then 1 else 0)
  {
    assert (ps + [p])[..|ps|] == ps;
  }

  lemma {:induction false} CountRoleConcat(a: seq<Participant>, b: seq<Participant>, role: string)
    ensures CountRole(a + b, role) == CountRole(a, role) + CountRole(b, role)
    decreases |b|
  {
    if b == [] {
      assert a + b == a;
    } else {
      var init := b[..|b| - 1];
      assert a + b == (a + init) + [b[|b| - 1]];
      assert b == init + [b[|b| - 1]];
      CountRoleAppend(a + init, b[|b| - 1], role);
      CountRoleAppend(init, b[|b| - 1], role);
      CountRoleConcat(a, init, role);
    }
  }

  /** Counting by role looks only at roles. */
  lemma {:induction false} CountRoleSameRoles(ps: seq<Participant>, qs: seq<Participant>, role: string)
    requires |ps| == |qs| && forall i :: 0 <= i < |ps| ==> ps[i].role == qs[i].role
    ensures CountRole(ps, role) == CountRole(qs, role)
  {
    if ps != [] {
      CountRoleSameRoles(ps[..|ps| - 1], qs[..|qs| - 1], role);
    }
  }

  /** Removing one participant never raises a role count. */
  lemma CountRoleRemove(ps: seq<Participant>, i: nat, role: string)
    requires i < |ps|
    ensures CountRole(ps[..i] + ps[i + 1..], role) <= CountRole(ps, role)
  {
    assert ps == ps[..i] + ([ps[i]] + ps[i + 1..]);
    CountRoleConcat(ps[..i], [ps[i]] + ps[i + 1..], role);
    CountRoleConcat([ps[i]], ps[i + 1..], role);
    CountRoleConcat(ps[..i], ps[i + 1..], role);
  }

  predicate NamesDistinct(ps: seq<Participant>) {
    forall i, j :: 0 <= i < j < |ps| ==> ps[i].name != ps[j].name
  }

  /** The roster is never empty, its first participant is the host and the
      only one, `room.host` names that participant, and names are unique. */
  predicate RosterValid(ps: seq<Participant>, hostId: string) {
    && |ps| >= 1
    && ps[0].isHost && ps[0].id == hostId
    && (forall i :: 1 <= i < |ps| ==> !ps[i].isHost)
    && NamesDistinct(ps)
  }

  /** In a valid roster the host check admits exactly the socket `room.host`
      names, even when that socket has joined a second time under another
      name. */
  lemma SentByHostIff(ps: seq<Participant>, hostId: string, sid: string)
    requires RosterValid(ps, hostId)
    ensures SentByHost(ps, sid) <==> sid == hostId
  {
  }

  /** Roles exist only in impostor rooms, and those never hold more Players
      than `maxPlayers`. */
  predicate RolesValid(mode: Mode, ps: seq<Participant>, round: Option<Round>) {
    && (mode != Impostor ==> forall i :: 0 <= i < |ps| ==> ps[i].role == None)
    && (round.Some? ==> CountRole(ps, PlayerRole) <= round.value.maxPlayers)
  }

  /** The buzz order is sorted by buzz time and is empty exactly when no
      first buzz is anchored. */
  ghost predicate BuzzValid(order: seq<BuzzEntry>, firstBuzzTime: Option<int>) {
    && SortedBy(order, BuzzTimeOf)
    && (firstBuzzTime == None <==> order == [])
  }

  function Senders(videos: seq<Video>): set<string> {
    set i | 0 <= i < |videos| :: videos[i].playerId
  }

  /** At most `maxVideos` clips, one per sender, each id naming its sender,
      and `recordingComplete` is the set of senders. */
  predicate VideosValid(videos: seq<Video>, done: set<string>, maxVideos: nat) {
    && |videos| <= maxVideos
    && done == Senders(videos)
    && (forall i, j :: 0 <= i < j < |videos| ==> videos[i].playerId != videos[j].playerId)
    && (forall i :: 0 <= i < |videos| ==> VideoSender(videos[i].id) == Some(videos[i].playerId))
  }

  /** One stored vote per voter. */
  predicate VotesValid(votes: seq<Vote>) {
    forall i, j :: 0 <= i < j < |votes| ==> votes[i].voter != votes[j].voter
  }

  predicate RoundValid(g: Round) {
    && g.maxVideos == MaxVideos && g.maxDuration == VideoDuration && g.maxPlayers == MaxVideos
    && VideosValid(g.videos, g.recordingComplete, g.maxVideos)
    && VotesValid(g.votes)
  }

  ghost predicate RoomValid(r: Room) {
    && RosterValid(r.players, r.hostId)
    && (r.mode == Impostor <==> r.round.Some?)
    && RolesValid(r.mode, r.players, r.round)
    && BuzzValid(r.buzzOrder, r.firstBuzzTime)
    && (r.round.Some? ==> RoundValid(r.round.value))
  }

  /** Changing a participant's buzz, score or answer fields keeps the room
      valid. */
  lemma UpdateParticipant(r: Room, i: nat, p: Participant)
    requires RoomValid(r) && i < |r.players|
    requires p.id == r.players[i].id && p.name == r.players[i].name
    requires p.isHost == r.players[i].isHost && p.role == r.players[i].role
    ensures RoomValid(r.(players := r.players[i := p]))
  {
    var ps := r.players[i := p];
    CountRoleSameRoles(r.players, ps, PlayerRole);
    assert RosterValid(ps, r.hostId);
  }

  /** Within one round no two clips share an id. */
  lemma VideoIdsDistinct(videos: seq<Video>, done: set<string>, maxVideos: nat)
    requires VideosValid(videos, done, maxVideos)
    ensures forall i, j :: 0 <= i < j < |videos| ==> videos[i].id != videos[j].id
  {
  }
}
