/** What the handlers emit, as tagged values: the payload of each
    `socket.emit`, `socket.to(code).emit` and `io.to(code).emit`, together with
    who receives it. */
module Events {
  import opened Basics
  import opened Rooms

  datatype Audience =
    | Sender                      // `socket.emit`
    | Everyone(code: string)      // `io.to(code).emit`
    | Others(code: string)        // `socket.to(code).emit`

  datatype BankChange = Added | Updated | Deleted | Cleared

  /** A clip as `voting_started` shows it: without sender id, length or time. */
  datatype VideoView = VideoView(id: string, playerName: string, data: string, mimeType: string)

  datatype Payload =
    | RoomCreated(roomCode: string, player: Participant, state: GameState, mode: Mode)
    | RoomError(message: string)
    | RoomJoined(roomCode: string, player: Participant, players: seq<Participant>, state: GameState, mode: Mode)
    | PlayerJoined(player: Participant)
    | PlayerBuzzed(player: Participant, ranked: seq<RankedBuzz>)
    | BuzzersReset
    | QuestionBank(change: BankChange, questions: seq<Question>)
    | QuestionStarted(text: string, index: int, log: seq<LogEntry>, answerType: string)
    | AnswerAttempt(entry: LogEntry, log: seq<LogEntry>)
    | CorrectAnswer(player: Participant, answer: string, correctAnswer: string, players: seq<Participant>, log: seq<LogEntry>)
    | IncorrectAnswer(answer: string, correctAnswer: string)
    | AnswerMarked(playerId: string, correct: bool, player: Participant, players: seq<Participant>, buzzOrder: seq<BuzzEntry>)
    | GameStarted(state: GameState)
    | GameEnded(state: GameState, topPlayers: seq<Participant>)
    | RecordingStarted(state: GameState, maxDuration: int)
    | VideoSubmitted(playerName: string, videoCount: nat, totalPlayers: nat)
    | VotingStarted(state: GameState, videos: seq<VideoView>)
    | VoteUpdate(videoId: string, voterName: string, results: map<string, Tally>)
    | ResultsReady(state: GameState, results: map<string, Tally>)
    | RoundReset(state: GameState)
    | PlayerLeft(playerId: string, players: seq<Participant>)

  datatype Emit = Emit(to: Audience, payload: Payload)

  /** A handler's effect on one room: the room afterwards and what it sent.
      A handler that returns early leaves the room as it was and sends
      nothing. */
  datatype Reply = Reply(room: Room, events: seq<Emit>)

  function Unchanged(r: Room): Reply
  {
    Reply(r, [])
  }
}
