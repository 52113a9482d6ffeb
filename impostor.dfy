/** The impostor game: `start_recording` (server/index.js:538-555),
    `submit_video` (557-636), `submit_vote` (638-677), `show_results`
    (679-694) and `new_round` (696-715). */
module Impostor {
  import opened Basics
  import opened Text
  import opened Rooms
  import opened Events

  // Stored votes: `room.votes`, an object keyed by voter id.

  /** Where the voter's entry is. */
  function FindVoter(votes: seq<Vote>, voter: string): (r: Option<nat>)
    ensures r.Some? ==> r.value < |votes| && votes[r.value].voter == voter
    ensures r.Some? ==> forall j :: 0 <= j < r.value ==> votes[j].voter != voter
    ensures r.None? ==> forall j :: 0 <= j < |votes| ==> votes[j].voter != voter
  {
    if votes == [] then None
    else if votes[0].voter == voter then Some(0)
    else match FindVoter(votes[1..], voter)
      case None => None
      case Some(k) => Some(k + 1)
  }

  /** `room.votes[voter]` */
  function VoteOf(votes: seq<Vote>, voter: string): Option<string> {
    match FindVoter(votes, voter)
    case None => None
    case Some(i) => Some(votes[i].videoId)
  }

  /** `room.votes[voter] = videoId`: an existing key keeps its place and takes
      the new value, a new key goes last. */
  function SetVote(votes: seq<Vote>, voter: string, videoId: string): seq<Vote> {
    match FindVoter(votes, voter)
    case None => votes + [Vote(voter, videoId)]
    case Some(i) => votes[i := Vote(voter, videoId)]
  }

  lemma VoteOfAt(votes: seq<Vote>, j: nat)
    requires VotesValid(votes) && j < |votes|
    ensures VoteOf(votes, votes[j].voter) == Some(votes[j].videoId)
  {
  }

  /** A vote is stored under its voter, replacing that voter's earlier vote
      and leaving everyone else's as it was; voters stay unique, and the
      number of votes grows only for a first-time voter. */
  lemma SetVoteEffect(votes: seq<Vote>, voter: string, videoId: string, other: string)
    requires VotesValid(votes)
    ensures VotesValid(SetVote(votes, voter, videoId))
    ensures VoteOf(SetVote(votes, voter, videoId), voter) == Some(videoId)
    ensures other != voter ==> VoteOf(SetVote(votes, voter, videoId), other) == VoteOf(votes, other)
    ensures |SetVote(votes, voter, videoId)| == |votes| + (if VoteOf(votes, voter).None? then 1 else 0)
  {
    var w := SetVote(votes, voter, videoId);
    assert forall j :: 0 <= j < |votes| ==> w[j].voter == votes[j].voter;
    var k := |w| - 1;
    if FindVoter(votes, voter).Some? {
      VoteOfAt(w, FindVoter(votes, voter).value);
    } else {
      VoteOfAt(w, k);
    }
    if other != voter {
      match FindVoter(votes, other)
      case None =>
        assert forall j :: 0 <= j < |w| ==> w[j].voter != other;
      case Some(j) =>
        assert w[j] == votes[j];
        VoteOfAt(w, j);
    }
  }

  // The tally.

  /** The voters whose stored vote is `videoId`, in vote order
      (`Object.entries(room.votes).filter(...)`). */
  function Ballots(votes: seq<Vote>, videoId: string): (r: seq<string>)
    ensures |r| <= |votes|
  {
    if votes == [] then []
    else
      var init, last := votes[..|votes| - 1], votes[|votes| - 1];
      Ballots(init, videoId) + (if last.videoId == videoId then [last.voter] else [])
  }

  lemma {:induction false} BallotsExactly(votes: seq<Vote>, videoId: string)
    ensures forall v :: v in Ballots(votes, videoId) <==> Vote(v, videoId) in votes
  {
    if votes != [] {
      var init, last := votes[..|votes| - 1], votes[|votes| - 1];
      BallotsExactly(init, videoId);
      assert votes == init + [last];
    }
  }

  /** `room.players.find(p => p.id === voterId)?.name`; `None` once that
      voter has left. */
  function NameOf(ps: seq<Participant>, id: string): Option<string> {
    match FindById(ps, id)
    case None => None
    case Some(i) => Some(ps[i].name)
  }

  function Names(ps: seq<Participant>, ids: seq<string>): (r: seq<Option<string>>)
    ensures |r| == |ids|
    ensures forall k :: 0 <= k < |r| ==> r[k] == NameOf(ps, ids[k])
  {
    seq(|ids|, k requires 0 <= k < |ids| => NameOf(ps, ids[k]))
  }

  /** `Math.round((count / total) * 100)` taken on the exact share, or 0
      without votes; on non-negative values `Math.round` is `floor(x + 1/2)`.
      The code divides and multiplies in doubles, which can land just below
      a half and so one lower: 23 of 40 votes gives 57 there, 58 here. */
  function Percentage(count: nat, total: nat): nat {
    if total > 0 then (200 * count + total) / (2 * total) else 0
  }

  /** The percentage is the nearest integer to `100 * count / total`, halves
      rounding up, so it is 0 for no votes, 100 for all of them and never
      more. */
  lemma PercentageRounds(count: nat, total: nat)
    requires total > 0
    ensures var p := Percentage(count, total);
      2 * total * p <= 200 * count + total < 2 * total * (p + 1)
    ensures count <= total ==> Percentage(count, total) <= 100
    ensures Percentage(0, total) == 0 && Percentage(total, total) == 100
  {
    var n, d := 200 * count + total, 2 * total;
    var p := n / d;
    DivBounds(n, d);
    MultiplySucc(d, p);
    if count <= total {
      LessFromProducts(d, p, 101);
    }
    DivUnique(total, d, 0);
    DivUnique(200 * total + total, d, 100);
  }

  lemma DivBounds(n: nat, d: nat)
    requires d > 0
    ensures d * (n / d) <= n < d * (n / d) + d
  {
    assert n == d * (n / d) + n % d;
  }

  lemma DivUnique(n: nat, d: nat, q: nat)
    requires d > 0 && d * q <= n < d * q + d
    ensures n / d == q
  {
    var p := n / d;
    DivBounds(n, d);
    MultiplySucc(d, p);
    MultiplySucc(d, q);
    LessFromProducts(d, q, p + 1);
    LessFromProducts(d, p, q + 1);
  }

  lemma MultiplySucc(d: nat, a: nat)
    ensures d * (a + 1) == d * a + d
  {
  }

  lemma MultiplyMonotone(d: nat, a: nat, b: nat)
    requires a <= b
    ensures d * a <= d * b
  {
  }

  lemma LessFromProducts(d: nat, a: nat, b: nat)
    requires d * a < d * b
    ensures a < b
  {
    if a >= b {
      MultiplyMonotone(d, b, a);
    }
  }

  /** One entry of `voteResults`. */
  function ResultFor(votes: seq<Vote>, ps: seq<Participant>, videoId: string): (t: Tally)
    ensures t.count == |t.voters| <= |votes|
    ensures |votes| > 0 ==> 2 * |votes| * t.percentage <= 200 * t.count + |votes| < 2 * |votes| * (t.percentage + 1)
    ensures t.percentage <= 100
  {
    var b := Ballots(votes, videoId);
    var t := Tally(|b|, Percentage(|b|, |votes|), Names(ps, b));
    if |votes| > 0 then PercentageRounds(|b|, |votes|); t else t
  }

  function Ids(videos: seq<Video>): (r: seq<string>)
    ensures |r| == |videos| && forall i :: 0 <= i < |r| ==> r[i] == videos[i].id
  {
    seq(|videos|, i requires 0 <= i < |videos| => videos[i].id)
  }

  /** `voteResults` after the loop over `room.videos`: one entry per video id,
      each the tally of that id. */
  function Tallies(videos: seq<Video>, votes: seq<Vote>, ps: seq<Participant>): (m: map<string, Tally>)
    ensures m.Keys == set i | 0 <= i < |videos| :: videos[i].id
    ensures forall id :: id in m ==> m[id] == ResultFor(votes, ps, id)
  {
    if videos == [] then map[]
    else
      var id := videos[|videos| - 1].id;
      var m := Tallies(videos[..|videos| - 1], votes, ps);
      assert forall i :: 0 <= i < |videos| - 1 ==> videos[..|videos| - 1][i] == videos[i];
      m[id := ResultFor(votes, ps, id)]
  }

  /** `room.videos.forEach(video => { ...; room.voteResults[video.id] = {...} })` */
  method TallyVotes(videos: seq<Video>, votes: seq<Vote>, ps: seq<Participant>) returns (m: map<string, Tally>)
    ensures m == Tallies(videos, votes, ps)
  {
    m := map[];
    var i := 0;
    while i < |videos|
      invariant 0 <= i <= |videos|
      invariant m == Tallies(videos[..i], votes, ps)
    {
      var video := videos[i];
      var voters := Ballots(votes, video.id);
      m := m[video.id := Tally(|voters|, Percentage(|voters|, |votes|), Names(ps, voters))];
      assert videos[..i + 1][..i] == videos[..i];
      i := i + 1;
    }
    assert videos[..|videos|] == videos;
  }

  /** The sum of the counts over a list of ids. */
  function SumCounts(votes: seq<Vote>, ids: seq<string>): nat {
    if ids == [] then 0 else SumCounts(votes, ids[..|ids| - 1]) + |Ballots(votes, ids[|ids| - 1])|
  }

  /** How many stored votes name one of `ids`. */
  function CountNaming(votes: seq<Vote>, ids: seq<string>): (n: nat)
    ensures n <= |votes|
  {
    if votes == [] then 0
    else CountNaming(votes[..|votes| - 1], ids) + (if votes[|votes| - 1].videoId in ids then 1 else 0)
  }

  lemma AppendVoteBallots(votes: seq<Vote>, v: Vote, id: string)
    ensures Ballots(votes + [v], id) == Ballots(votes, id) + (if v.videoId == id then [v.voter] else [])
  {
    assert (votes + [v])[..|votes|] == votes;
  }

  lemma {:induction false} AppendVoteSum(votes: seq<Vote>, v: Vote, ids: seq<string>)
    requires forall i, j :: 0 <= i < j < |ids| ==> ids[i] != ids[j]
    ensures SumCounts(votes + [v], ids) == SumCounts(votes, ids) + (if v.videoId in ids then 1 else 0)
  {
    if ids != [] {
      var init, last := ids[..|ids| - 1], ids[|ids| - 1];
      AppendVoteSum(votes, v, init);
      AppendVoteBallots(votes, v, last);
      assert ids == init + [last];
      assert v.videoId == last ==> v.videoId !in init;
    }
  }

  lemma {:induction false} SumIsNaming(votes: seq<Vote>, ids: seq<string>)
    requires forall i, j :: 0 <= i < j < |ids| ==> ids[i] != ids[j]
    ensures SumCounts(votes, ids) == CountNaming(votes, ids)
  {
    if votes == [] {
      SumOverNoVotes(ids);
    } else {
      var init, last := votes[..|votes| - 1], votes[|votes| - 1];
      SumIsNaming(init, ids);
      assert votes == init + [last];
      AppendVoteSum(init, last, ids);
    }
  }

  lemma {:induction false} SumOverNoVotes(ids: seq<string>)
    ensures SumCounts([], ids) == 0
  {
    if ids != [] {
      SumOverNoVotes(ids[..|ids| - 1]);
    }
  }

  lemma {:induction false} NamingAll(votes: seq<Vote>, ids: seq<string>)
    ensures CountNaming(votes, ids) == |votes| <==> forall j :: 0 <= j < |votes| ==> votes[j].videoId in ids
  {
    if votes != [] {
      var init := votes[..|votes| - 1];
      NamingAll(init, ids);
      assert forall j :: 0 <= j < |init| ==> init[j] == votes[j];
    }
  }

  /** Over a round's videos (whose ids are distinct) the counts add up to the
      number of votes that name one of them: never more than the total, and
      less as soon as someone votes for an id that is not a video. */
  lemma CountsSumToNamedVotes(g: Round)
    requires VideosValid(g.videos, g.recordingComplete, g.maxVideos)
    ensures SumCounts(g.votes, Ids(g.videos)) <= |g.votes|
    ensures SumCounts(g.votes, Ids(g.videos)) == |g.votes|
            <==> forall j :: 0 <= j < |g.votes| ==> g.votes[j].videoId in Ids(g.videos)
  {
    var ids := Ids(g.videos);
    VideoIdsDistinct(g.videos, g.recordingComplete, g.maxVideos);
    SumIsNaming(g.votes, ids);
    NamingAll(g.votes, ids);
  }

  // The handlers.

  /** `room.type === 'impostor'`, with its round fields present. */
  predicate IsImpostorRoom(r: Room) {
    r.mode == Impostor && r.round.Some?
  }

  function StartRecordingSpec(r: Room, sid: string): Reply {
    if !IsImpostorRoom(r) || !SentByHost(r.players, sid) then Unchanged(r)
    else
      var g := r.round.value.(videos := [], recordingComplete := {});
      Reply(r.(state := Recording, round := Some(g)),
            [Emit(Everyone(r.code), RecordingStarted(Recording, g.maxDuration))])
  }

  /** Every guard of `submit_video`. */
  predicate MaySubmitVideo(r: Room, sid: string, duration: int) {
    && IsImpostorRoom(r) && r.state == Recording
    && FindById(r.players, sid).Some?
    && sid !in r.round.value.recordingComplete
    && r.players[FindById(r.players, sid).value].role == Some(PlayerRole)
    && duration <= r.round.value.maxDuration
    && |r.round.value.videos| < r.round.value.maxVideos
  }

  /** What `voting_started` shows of each clip, in clip order: its id,
      sender name, data and type, but not the sender's socket, duration or
      timestamp. */
  function Views(videos: seq<Video>): (r: seq<VideoView>)
    ensures |r| == |videos|
    ensures forall i :: 0 <= i < |videos| ==>
      r[i].id == videos[i].id && r[i].playerName == videos[i].playerName
      && r[i].data == videos[i].data && r[i].mimeType == videos[i].mimeType
  {
    seq(|videos|, i requires 0 <= i < |videos| =>
      VideoView(videos[i].id, videos[i].playerName, videos[i].data, videos[i].mimeType))
  }

  /** `submit_video`; the id and the timestamp read the clock separately
      (`idClock`, `now`). */
  function SubmitVideoSpec(r: Room, sid: string, data: string, mimeType: string, duration: int,
                           idClock: nat, now: nat): Reply {
    if !MaySubmitVideo(r, sid, duration) then Unchanged(r)
    else
      var g := r.round.value;
      var p := r.players[FindById(r.players, sid).value];
      var v := Video(VideoId(idClock, sid), sid, p.name, data, mimeType, duration, now);
      var g' := g.(videos := g.videos + [v], recordingComplete := g.recordingComplete + {sid});
      var total := CountRole(r.players, PlayerRole);
      var submitted := Emit(Everyone(r.code), VideoSubmitted(p.name, |g'.videos|, total));
      if |g'.videos| >= total then
        Reply(r.(round := Some(g'), state := Voting),
              [submitted, Emit(Everyone(r.code), VotingStarted(Voting, Views(g'.videos)))])
      else Reply(r.(round := Some(g')), [submitted])
  }

  /** An accepted clip adds exactly one video and one sender; voting opens
      exactly when the clips reach the number of Players. A refused one
      changes nothing, and a sender is refused a second clip in a round. */
  lemma SubmitVideoEffect(r: Room, sid: string, data: string, mimeType: string, duration: int,
                          idClock: nat, now: nat)
    ensures var out := SubmitVideoSpec(r, sid, data, mimeType, duration, idClock, now);
      out.events != [] <==> MaySubmitVideo(r, sid, duration)
    ensures var out := SubmitVideoSpec(r, sid, data, mimeType, duration, idClock, now).room;
      MaySubmitVideo(r, sid, duration) ==>
        && out.round.Some?
        && |out.round.value.videos| == |r.round.value.videos| + 1
        && out.round.value.videos[..|r.round.value.videos|] == r.round.value.videos
        && out.round.value.videos[|r.round.value.videos|].playerId == sid
        && out.round.value.recordingComplete == r.round.value.recordingComplete + {sid}
        && (out.state == Voting <==> |out.round.value.videos| >= CountRole(r.players, PlayerRole))
        && (out.state != Voting ==> out.state == Recording)
        && !MaySubmitVideo(out, sid, duration)
    ensures !MaySubmitVideo(r, sid, duration) ==>
      SubmitVideoSpec(r, sid, data, mimeType, duration, idClock, now).room == r
  {
    if MaySubmitVideo(r, sid, duration) {
      var out := SubmitVideoSpec(r, sid, data, mimeType, duration, idClock, now).room;
      assert out.round.value.videos[..|r.round.value.videos|] == r.round.value.videos;
    }
  }

  /** Adding one clip's sender to the sender set. */
  lemma SendersAppend(videos: seq<Video>, v: Video)
    ensures Senders(videos + [v]) == Senders(videos) + {v.playerId}
  {
    var w := videos + [v];
    assert forall i :: 0 <= i < |videos| ==> w[i] == videos[i];
    assert w[|videos|] == v;
  }

  /** A clip from a sender who has none yet, whose id names that sender,
      keeps the round's clips valid while there is room for it. */
  lemma AppendVideoValid(videos: seq<Video>, done: set<string>, maxVideos: nat, v: Video)
    requires VideosValid(videos, done, maxVideos)
    requires |videos| < maxVideos && v.playerId !in done
    requires VideoSender(v.id) == Some(v.playerId)
    ensures VideosValid(videos + [v], done + {v.playerId}, maxVideos)
  {
    SendersAppend(videos, v);
    var w := videos + [v];
    assert forall i :: 0 <= i < |videos| ==> w[i] == videos[i] && videos[i].playerId in Senders(videos);
  }

  lemma SubmitVideoPreservesValid(r: Room, sid: string, data: string, mimeType: string, duration: int,
                                  idClock: nat, now: nat)
    requires RoomValid(r)
    ensures RoomValid(SubmitVideoSpec(r, sid, data, mimeType, duration, idClock, now).room)
  {
    if MaySubmitVideo(r, sid, duration) {
      var g := r.round.value;
      var p := r.players[FindById(r.players, sid).value];
      var v := Video(VideoId(idClock, sid), sid, p.name, data, mimeType, duration, now);
      VideoSenderOf(idClock, sid);
      AppendVideoValid(g.videos, g.recordingComplete, g.maxVideos, v);
      var g' := g.(videos := g.videos + [v], recordingComplete := g.recordingComplete + {sid});
      assert RoundValid(g');
      var out := SubmitVideoSpec(r, sid, data, mimeType, duration, idClock, now).room;
      assert out.round == Some(g') && out.players == r.players;
    }
  }

  /** Every guard of `submit_vote`. */
  predicate MayVote(r: Room, sid: string) {
    && IsImpostorRoom(r) && r.state == Voting
    && FindById(r.players, sid).Some?
    && r.players[FindById(r.players, sid).value].role == Some(VoterRole)
    && !r.players[FindById(r.players, sid).value].isHost
  }

  function SubmitVoteSpec(r: Room, sid: string, videoId: string): Reply {
    if !MayVote(r, sid) then Unchanged(r)
    else
      var g := r.round.value;
      var p := r.players[FindById(r.players, sid).value];
      var votes := SetVote(g.votes, sid, videoId);
      var results := Tallies(g.videos, votes, r.players);
      Reply(r.(round := Some(g.(votes := votes, voteResults := results))),
            [Emit(Everyone(r.code), VoteUpdate(videoId, p.name, results))])
  }

  /** An accepted vote is stored under the sender, overwriting their earlier
      one and nobody else's, and the results are recomputed from scratch: one
      entry per video, counting the stored votes for its id out of all
      stored votes. The id voted for is not checked against the videos. */
  lemma SubmitVoteEffect(r: Room, sid: string, videoId: string, other: string)
    requires RoomValid(r) && MayVote(r, sid)
    ensures var g := SubmitVoteSpec(r, sid, videoId).room.round.value;
      && VoteOf(g.votes, sid) == Some(videoId)
      && (other != sid ==> VoteOf(g.votes, other) == VoteOf(r.round.value.votes, other))
      && g.videos == r.round.value.videos
      && g.voteResults.Keys == (set i | 0 <= i < |g.videos| :: g.videos[i].id)
      && forall i :: 0 <= i < |g.videos| ==>
           g.voteResults[g.videos[i].id] == ResultFor(g.votes, r.players, g.videos[i].id)
  {
    SetVoteEffect(r.round.value.votes, sid, videoId, other);
  }

  lemma SubmitVotePreservesValid(r: Room, sid: string, videoId: string)
    requires RoomValid(r)
    ensures RoomValid(SubmitVoteSpec(r, sid, videoId).room)
  {
    if MayVote(r, sid) {
      SetVoteEffect(r.round.value.votes, sid, videoId, sid);
    }
  }

  function ShowResultsSpec(r: Room, sid: string): Reply {
    if !IsImpostorRoom(r) || !SentByHost(r.players, sid) then Unchanged(r)
    else Reply(r.(state := Results),
               [Emit(Everyone(r.code), ResultsReady(Results, r.round.value.voteResults))])
  }

  function NewRoundSpec(r: Room, sid: string): Reply {
    if !IsImpostorRoom(r) || !SentByHost(r.players, sid) then Unchanged(r)
    else
      var g := r.round.value.(videos := [], votes := [], voteResults := map[], recordingComplete := {});
      Reply(r.(state := Waiting, round := Some(g)), [Emit(Everyone(r.code), RoundReset(Waiting))])
  }

  /** From the host of an impostor room, `start_recording` empties the clips
      but keeps the votes, and `new_round` empties clips, votes and results;
      `show_results` changes only the state. Anyone else is ignored. */
  lemma RoundControls(r: Room, sid: string)
    ensures IsImpostorRoom(r) && SentByHost(r.players, sid) ==>
      && StartRecordingSpec(r, sid).room.state == Recording
      && StartRecordingSpec(r, sid).room.round.value.videos == []
      && StartRecordingSpec(r, sid).room.round.value.recordingComplete == {}
      && StartRecordingSpec(r, sid).room.round.value.votes == r.round.value.votes
      && NewRoundSpec(r, sid).room.state == Waiting
      && NewRoundSpec(r, sid).room.round.value.videos == []
      && NewRoundSpec(r, sid).room.round.value.votes == []
      && NewRoundSpec(r, sid).room.round.value.voteResults == map[]
      && ShowResultsSpec(r, sid).room == r.(state := Results)
    ensures !(IsImpostorRoom(r) && SentByHost(r.players, sid)) ==>
      && StartRecordingSpec(r, sid) == Unchanged(r)
      && NewRoundSpec(r, sid) == Unchanged(r)
      && ShowResultsSpec(r, sid) == Unchanged(r)
  {
  }

  lemma RoundControlsPreserveValid(r: Room, sid: string)
    requires RoomValid(r)
    ensures RoomValid(StartRecordingSpec(r, sid).room)
    ensures RoomValid(NewRoundSpec(r, sid).room)
    ensures RoomValid(ShowResultsSpec(r, sid).room)
  {
    assert Senders([]) == {};
  }

  // The handlers, on the room they looked up. An impostor room always has
  // its round fields (`create_room` adds them exactly for that type).

  /** `start_recording`, step by step. */
  method StartRecording(r: Room, sid: string) returns (out: Reply)
    requires r.mode == Impostor ==> r.round.Some?
    ensures out == StartRecordingSpec(r, sid)
  {
    var host := FindById(r.players, sid);
    if r.mode != Impostor || host.None? || !r.players[host.value].isHost {
      return Unchanged(r);
    }
    var g := r.round.value.(videos := [], recordingComplete := {});
    return Reply(r.(state := Recording, round := Some(g)),
                 [Emit(Everyone(r.code), RecordingStarted(Recording, g.maxDuration))]);
  }

  /** `submit_video`, step by step, its guards in the order the handler
      checks them. */
  method SubmitVideo(r: Room, sid: string, data: string, mimeType: string, duration: int,
                     idClock: nat, now: nat) returns (out: Reply)
    requires r.mode == Impostor ==> r.round.Some?
    ensures out == SubmitVideoSpec(r, sid, data, mimeType, duration, idClock, now)
  {
    if r.mode != Impostor || r.state != Recording {
      return Unchanged(r);
    }
    var found := FindById(r.players, sid);
    if found.None? {
      return Unchanged(r);
    }
    var player := r.players[found.value];
    var g := r.round.value;
    if sid in g.recordingComplete || player.role != Some(PlayerRole)
       || duration > g.maxDuration || |g.videos| >= g.maxVideos {
      return Unchanged(r);
    }
    var video := Video(VideoId(idClock, sid), sid, player.name, data, mimeType, duration, now);
    g := g.(videos := g.videos + [video], recordingComplete := g.recordingComplete + {sid});
    var room := r.(round := Some(g));
    var totalPlayersCount := CountRole(r.players, PlayerRole);
    var events := [Emit(Everyone(r.code), VideoSubmitted(player.name, |g.videos|, totalPlayersCount))];
    if |g.videos| >= totalPlayersCount {
      room := room.(state := Voting);
      events := events + [Emit(Everyone(r.code), VotingStarted(Voting, Views(g.videos)))];
    }
    return Reply(room, events);
  }

  /** `submit_vote`, step by step: store the vote, then rebuild the results
      with the tally loop. */
  method SubmitVote(r: Room, sid: string, videoId: string) returns (out: Reply)
    requires r.mode == Impostor ==> r.round.Some?
    ensures out == SubmitVoteSpec(r, sid, videoId)
  {
    if r.mode != Impostor || r.state != Voting {
      return Unchanged(r);
    }
    var found := FindById(r.players, sid);
    if found.None? || r.players[found.value].role != Some(VoterRole) || r.players[found.value].isHost {
      return Unchanged(r);
    }
    var player := r.players[found.value];
    var g := r.round.value;
    var votes := SetVote(g.votes, sid, videoId);
    var results := TallyVotes(g.videos, votes, r.players);
    return Reply(r.(round := Some(g.(votes := votes, voteResults := results))),
                 [Emit(Everyone(r.code), VoteUpdate(videoId, player.name, results))]);
  }

  /** `show_results`, step by step. */
  method ShowResults(r: Room, sid: string) returns (out: Reply)
    requires r.mode == Impostor ==> r.round.Some?
    ensures out == ShowResultsSpec(r, sid)
  {
    var host := FindById(r.players, sid);
    if r.mode != Impostor || host.None? || !r.players[host.value].isHost {
      return Unchanged(r);
    }
    return Reply(r.(state := Results), [Emit(Everyone(r.code), ResultsReady(Results, r.round.value.voteResults))]);
  }

  /** `new_round`, step by step. */
  method NewRound(r: Room, sid: string) returns (out: Reply)
    requires r.mode == Impostor ==> r.round.Some?
    ensures out == NewRoundSpec(r, sid)
  {
    var host := FindById(r.players, sid);
    if r.mode != Impostor || host.None? || !r.players[host.value].isHost {
      return Unchanged(r);
    }
    var g := r.round.value.(videos := [], votes := [], voteResults := map[], recordingComplete := {});
    return Reply(r.(state := Waiting, round := Some(g)), [Emit(Everyone(r.code), RoundReset(Waiting))]);
  }
}
