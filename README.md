# Party-game room coordinator, in Dafny

This project models the server of a party-game app (`server/index.js`). The
server keeps a registry of rooms keyed by a six-digit code, plus a global
counter for question ids. It answers socket events from the players'
browsers. A room runs one of three games:

- **buzzer**: players race to buzz in and the host marks answers;
- **type**: the host keeps a question bank, and players type answers that are
  judged automatically;
- **impostor**: Players record short clips, then Voters vote on them.

Every handler follows the same steps:

1. look the room up;
2. check the sender (member, host or role) and the game state;
3. change the room in place;
4. emit events to the sender, to the room or to the rest of the room.

A handler that fails a check returns without changing anything.

The model has the same layers as the server:

- `Coordinator.Registry` is a class with the server's two pieces of state as
  fields:
  - `rooms`, a `map` from code to room;
  - `order`, the codes in the insertion order a JavaScript `Map` iterates;
  - `questionIdCounter`.

  It has one method per `socket.on` handler. The handler's events are the
  method's result, as a list of `Emit(audience, payload)` values.
- A room is a datatype value (`Rooms.Room`). Each handler's effect on the
  room it found is a pure specification function, such as `Buzzer.BuzzSpec`
  or `Impostor.SubmitVoteSpec`.
- A step-by-step method follows the JavaScript statements (`Buzzer.Buzz`,
  `Impostor.SubmitVote`) and is proved equal to that function.
- The `forEach` loops are loop methods proved against functions:
  - clearing buzzers;
  - clearing answered flags;
  - recomputing the vote tally.

  The `disconnect` scan over the rooms is a loop in
  `Coordinator.Registry.FindRoomOf`.
- Lemmas state what each handler promises. Every handler also preserves a
  room invariant, `Rooms.RoomValid`:
  - the host is the first participant, and is the only host;
  - names are unique;
  - only impostor rooms have roles and round fields;
  - the buzz order is sorted by time and is empty exactly when no first buzz
    is set;
  - each sender has at most one clip per round, and there are at most five
    clips;
  - each voter has one vote.

  The registry keeps `Coordinator.RegistryValid`: every room is valid and
  stored under its own code, and `order` lists each code exactly once.

Socket ids, `Date.now()` readings and the generated room code are
parameters. `submit_video` reads the clock twice, so it takes two readings.

Behaviour of `server/index.js` worth knowing, which the model follows:

- `mark_answer` enforces no buzz order, and does not check the room type.
- `add_question` is allowed while a game is active. Update, delete and clear
  are not.
- There is no `new_game` handler.
- A room code that is already in use is not regenerated. The new room
  replaces the old one under that code, and the code keeps its place in
  iteration order.
- `disconnect` broadcasts `player_left` only when the room still has members.

## Model

| member | source | states |
|---|---|---|
| Coordinator.Registry.constructor | server/index.js:34-35 | the server starts with no rooms, the question counter at 0, and a valid registry |
| Coordinator.Registry.CreateRoom | server/index.js:66-113 | `create_room` stores the new room under the given code, following `rooms.set`, and sends `room_created` to the sender; the registry stays valid |
| Coordinator.CreateEffect | server/index.js:66-102 | creating a room keeps the registry valid; the key set gains exactly the code; the stored room is the new room; every other room is untouched; an unused code goes last in iteration order, and a colliding code keeps its place and loses its old room |
| Coordinator.Registry.JoinRoom | server/index.js:115-166 | an unknown code sends "Room not found" to the sender and changes nothing; otherwise the room becomes the outcome of `join_room` on it |
| Coordinator.Registry.Buzz | server/index.js:168-207 | an unknown code changes nothing and emits nothing; otherwise the room becomes the outcome of `buzz`; the registry stays valid |
| Coordinator.Registry.ResetBuzzers | server/index.js:209-228 | the same for `reset_buzzers` |
| Coordinator.Registry.AddQuestion | server/index.js:231-254 | when the host of a type room adds a question, the counter goes up by one and the new question's id is the clock plus the incremented counter; any other call changes nothing, counter included |
| Coordinator.Registry.UpdateQuestion | server/index.js:256-281 | the room becomes the outcome of `update_question`; the counter does not move |
| Coordinator.Registry.DeleteQuestion | server/index.js:283-300 | the room becomes the outcome of `delete_question` |
| Coordinator.Registry.ClearQuestions | server/index.js:302-319 | the room becomes the outcome of `clear_questions` |
| Coordinator.Registry.StartQuestion | server/index.js:321-355 | the room becomes the outcome of `start_question` |
| Coordinator.Registry.SubmitAnswer | server/index.js:357-446 | the room becomes the outcome of `submit_answer` at the given clock reading |
| Coordinator.Registry.MarkAnswer | server/index.js:448-481 | the room becomes the outcome of `mark_answer` |
| Coordinator.Registry.StartGame | server/index.js:483-509 | the room becomes the outcome of `start_game` |
| Coordinator.Registry.EndGame | server/index.js:511-535 | the room becomes the outcome of `end_game` |
| Coordinator.Registry.StartRecording | server/index.js:538-555 | the room becomes the outcome of `start_recording` |
| Coordinator.Registry.SubmitVideo | server/index.js:557-636 | the room becomes the outcome of `submit_video` for the two clock readings |
| Coordinator.Registry.SubmitVote | server/index.js:638-677 | the room becomes the outcome of `submit_vote` |
| Coordinator.Registry.ShowResults | server/index.js:679-694 | the room becomes the outcome of `show_results` |
| Coordinator.Registry.NewRound | server/index.js:696-715 | the room becomes the outcome of `new_round` |
| Coordinator.Registry.FindRoomOf | server/index.js:720-723 | the scan over the rooms in insertion order returns the position of the first room whose roster holds the socket, or none |
| Coordinator.Registry.Disconnect | server/index.js:717-746 | leaving the room the scan found leaves the registry and the events exactly as `DisconnectSpec` describes; the registry stays valid and the counter does not move |
| Coordinator.LeaveFirstRoom | server/index.js:724-739 | the socket is really in the room found; that room is deleted from both the map and the iteration order when it empties, and replaced in place otherwise; the registry stays valid |
| Coordinator.FirstRoomFrom | server/index.js:720-723 | the position found holds a room whose roster has the socket, and no earlier position from the start point does |
| Coordinator.DisconnectEffect | server/index.js:717-746 | a socket in no room changes nothing; otherwise only the first room that holds it is affected; that room is deleted exactly when the socket was its only member, and otherwise has one member fewer and a host in front; every other room is unchanged and the registry stays valid |
| Coordinator.DeleteKeepsRegistry | server/index.js:728 | deleting a code from the map and from the iteration order keeps the registry valid |
| Membership.CreateMakesValidRoom | server/index.js:66-100 | a new room is valid and waiting, and holds only its creator, as host with no role and score 0; it has impostor fields exactly when the type is `impostor` |
| Membership.JoinOutcome | server/index.js:125-152 | a taken name is refused with "Name already taken in this room"; a Player joining an impostor room that already has `maxPlayers` Players is refused with "Maximum N Players allowed. Join as Voter instead."; in both cases nothing else happens; otherwise exactly one non-host with score 0 is appended, with role Voter by default in an impostor room and no role elsewhere |
| Membership.PlayersFullMessage | server/index.js:133-134 | with the configured cap the refusal reads "Maximum 5 Players allowed. Join as Voter instead." |
| Membership.JoinPreservesValid | server/index.js:118-152 | joining keeps a room valid: names stay unique, and Players stay within the cap |
| Membership.Join | server/index.js:118-163 | the handler's steps compute exactly `JoinSpec` |
| Membership.Without | server/index.js:725 | `splice(i, 1)` removes entry `i` and keeps the others in order |
| Membership.LeaveEffect | server/index.js:721-739 | the socket's first entry leaves and the others stay in order; the room is emptied exactly when that entry was the last one; when the host leaves, the earliest remaining member becomes host, both the flag and `room.host`, and nothing else about anyone changes |
| Membership.LeavePreservesValid | server/index.js:721-734 | a room that survives a departure is still valid |
| Membership.Leave | server/index.js:721-739 | the handler's `findIndex`, `splice` and promotion compute exactly `LeaveSpec` |
| Rooms.ModeOf | server/index.js:70 | a missing or empty type, or `buzzer`, gives a buzzer room; `type` gives a type room, and only `type` does; `impostor` gives an impostor room, and only `impostor` does |
| Rooms.FindById | server/index.js:172 | `find` by id returns the first entry with that id, and returns none when no entry has it |
| Rooms.SentByHostIff | server/index.js:213-214 | in a valid roster, the host check admits exactly the socket that `room.host` names |
| Rooms.VideoSenderOf | server/index.js:598 | a video id can be read back to the socket that sent the clip, whatever the clock said |
| Rooms.VideoIdsDistinct | server/index.js:597-608 | within one round no two clips share an id |
| Sorting.SortBySorted | server/index.js:194-195 | the buzz-order sort leaves the entries ascending by buzz time |
| Sorting.SortByPermutes | server/index.js:194-195 | the sort keeps exactly the same entries |
| Sorting.SortByStable | server/index.js:524-526 | the sort is stable: entries with equal keys keep their relative order |
| Sorting.SortAppended | server/index.js:192-195 | pushing one entry onto a sorted order and sorting is the same as inserting that entry into the order |
| Sorting.InsertAt | server/index.js:192-195 | the inserted entry lands after every entry whose key is at most its own and before every entry with a greater key; the entries around it keep their order |
| Sorting.SortBySortedInput | server/index.js:194-195 | an order that is already sorted is left as it is |
| Text.Trim | server/index.js:242 | `trim` leaves no white space at either end |
| Text.TrimPadded | server/index.js:242 | `trim` removes exactly the white-space padding around text that has none of its own |
| Text.TrimUnpadded | server/index.js:242 | text with no white space at either end is left as it is |
| Text.TrimIdempotent | server/index.js:242 | trimming twice is trimming once |
| Text.Lower | server/index.js:243 | `toLowerCase` lowers each letter and keeps the length |
| Text.LowerIdempotent | server/index.js:243 | lower-casing twice is lower-casing once |
| Text.LowerTrimCommute | server/index.js:367 | lower-casing commutes with trimming |
| Text.IndexOf | server/index.js:373 | `includes` finds the first occurrence, or reports that there is none |
| Text.Split | server/index.js:374 | `split` yields pieces that do not contain the separator, and more than one piece exactly when the separator occurs |
| Text.JoinSplit | server/index.js:374-376 | joining the pieces of a split with the separator gives back the string |
| Text.SplitJoin | server/index.js:374 | splitting pieces joined by a one-character separator that none of them contains gives back the pieces |
| Text.NatToString | server/index.js:598 | a clock reading renders as digits with no leading zero |
| Text.NatToStringRoundTrip | server/index.js:598 | the rendered digits read back as the number |
| Amount.ParseNatToString | server/index.js:383-385 | `parseFloat` of an integer written in decimal is that integer |
| Amount.ParsePlainDecimal | server/index.js:383-385 | `parseFloat` of `digits.digits` is the digits without the point, scaled down by the fraction's length |
| Amount.FractionTrailingZero | server/index.js:381-387 | `a.b` and `a.b0` compare equal as amounts for any digit strings `a` (non-empty) and `b`, so "34.5" and "34.50" do |
| Buzzer.ClearedBuzzers | server/index.js:219-222 | after the reset loop nobody has buzzed, and nothing else about anyone has changed |
| Buzzer.ClearBuzzers | server/index.js:219-222 | the `forEach` loop computes exactly `ClearedBuzzers` |
| Buzzer.ClearedBuzzersKeepRoster | server/index.js:219-222 | clearing the buzzers of a valid room leaves a valid roster (host first and only, unique names) and valid roles |
| Buzzer.Ranked | server/index.js:196-199 | the broadcast order holds the sorted entries in order |
| Buzzer.RankedPositions | server/index.js:194-199 | the positions run through 1..N, increasing, and follow ascending buzz time |
| Buzzer.BuzzHeardIff | server/index.js:172-184 | a buzz is heard exactly when the sender is a member, is not the host and has not buzzed yet; otherwise the room does not change; after a heard buzz that member cannot buzz again |
| Buzzer.BuzzOrder | server/index.js:177-195 | a heard buzz's entry carries the buzz time and is inserted at its place in the order, behind every earlier or equal time (`InsertAt`); the order stays sorted and gains exactly this entry; the first buzz since a reset has offset 0 and is the whole order |
| Buzzer.BuzzPreservesValid | server/index.js:168-199 | buzzing keeps a room valid |
| Buzzer.Buzz | server/index.js:168-204 | the handler's steps compute exactly `BuzzSpec` |
| Buzzer.ResetReopens | server/index.js:213-224 | after the host's reset the order is empty, no first buzz is set, and every non-host member may buzz again |
| Buzzer.ResetPreservesValid | server/index.js:209-224 | resetting keeps a room valid |
| Buzzer.Reset | server/index.js:209-226 | the handler's steps compute exactly `ResetSpec` |
| Buzzer.WithScore | server/index.js:464-469 | the buzz order's entries for the marked player take the new score; times, offsets and other entries stay |
| Buzzer.MarkScores | server/index.js:452-470 | marking changes only the marked participant's score: by 1 for a correct answer in an active game, by 0 otherwise; the buzz order shows the new score and keeps its times |
| Buzzer.MarkPreservesValid | server/index.js:448-470 | marking keeps a room valid |
| Buzzer.Mark | server/index.js:448-478 | the handler's steps compute exactly `MarkSpec` |
| Lifecycle.StartGameEffect | server/index.js:483-506 | only the host starts a game, which becomes active from any state; in a buzzer room nobody has buzzed afterwards and the reset is announced before the start; in other rooms nothing else changes |
| Lifecycle.StartGamePreservesValid | server/index.js:490-499 | starting keeps a room valid |
| Lifecycle.StartGame | server/index.js:483-506 | the handler's steps compute exactly `StartGameSpec` |
| Lifecycle.NonHostsOfRoster | server/index.js:525 | in a valid roster the non-hosts are everyone after the host |
| Lifecycle.TopMembers | server/index.js:526-527 | the podium holds three entries, or all of them if fewer, each taken from the field |
| Lifecycle.TopOrdered | server/index.js:526-527 | the podium runs by descending score, and nobody left off it scored more than its last place |
| Lifecycle.TopStable | server/index.js:526-527 | on the podium, players with equal scores keep their roster order |
| Lifecycle.PodiumRanks | server/index.js:521-527 | the podium is the three best non-hosts (all of them if fewer); none is the host; best come first; nobody left off scored more than its last place; ties are in join order |
| Lifecycle.EndGameEffect | server/index.js:511-532 | ending changes only the state to `ended`, the announcement carries the podium of the current roster, and anyone but the host is ignored |
| Lifecycle.EndGame | server/index.js:511-532 | the handler's steps compute exactly `EndGameSpec` |
| TypeAnswer.NormalizeIdempotent | server/index.js:367 | normalising twice, by trimming and lower-casing, is normalising once |
| TypeAnswer.TrimAll | server/index.js:374 | each variant is trimmed and none is dropped |
| TypeAnswer.VariantsOfSlashList | server/index.js:372-374 | an answer of two or more alternatives joined by `/` has exactly those alternatives, each trimmed and in order, as its variants |
| TypeAnswer.VariantsOfOrPair | server/index.js:372-376 | an answer `a or b` with no `/`, no space in `a` and no further ` or ` in `b` has exactly `a` and `b`, each trimmed, as its variants |
| TypeAnswer.VariantsOfPlainAnswer | server/index.js:372-377 | an answer with no `/` and no space is its own only variant |
| TypeAnswer.JudgedByNormalForm | server/index.js:367-391 | the verdict depends on the submission only through its trimmed, lower-cased form |
| TypeAnswer.CorrectIgnoresCaseAndPadding | server/index.js:367-391 | judging ignores letter case and white space around the submission |
| TypeAnswer.SlashListJudged | server/index.js:372-390 | for a question that is not an amount, with answer `p1/p2/...`, a submission is right exactly when its normal form is one of the alternatives, trimmed |
| TypeAnswer.OrPairJudged | server/index.js:372-390 | for a question that is not an amount, with answer `a or b`, a submission is right exactly when its normal form is `a` or `b`, trimmed |
| TypeAnswer.AmountAcceptsTrailingZero | server/index.js:381-387 | an amount question answered `a.b` accepts `a.b0` |
| TypeAnswer.AmountAcceptsWithoutTrailingZero | server/index.js:381-387 | an amount question answered `a.b0` accepts `a.b` |
| TypeAnswer.DefaultType | server/index.js:244 | the stored answer type is never empty |
| TypeAnswer.MakeQuestionStores | server/index.js:240-245 | the bank stores the id it is given, the question text trimmed, the answer normalised, and the client's answer type when it is non-empty, `text` otherwise |
| TypeAnswer.StoredAnswerAccepted | server/index.js:240-245 | for a question that is not an amount, whose answer has no `/` or space, any submission with the same normal form as the answer the host typed is judged correct |
| TypeAnswer.FindQuestion | server/index.js:266 | `findIndex` by id returns the first entry with that id, and returns none when no entry has it |
| TypeAnswer.WithoutId | server/index.js:293 | the filter keeps exactly the questions whose id differs, and never lengthens the bank |
| TypeAnswer.WithoutIdSnoc | server/index.js:293 | filtering a bank with one more question at the end keeps the earlier result and then that question exactly when its id differs |
| TypeAnswer.WithoutIdConcat | server/index.js:293 | filtering two banks laid end to end is filtering each and laying the results end to end, so the kept questions stay in their order |
| TypeAnswer.WithoutAbsentId | server/index.js:293 | deleting an id that no question has leaves the bank unchanged |
| TypeAnswer.BankGuards | server/index.js:231-319 | the bank operations touch only the bank, and only for the host of a type room; update, delete and clear also require the game not to be active, add does not; add appends, clear empties |
| TypeAnswer.UpdateReplaces | server/index.js:266-274 | an update rewrites the first entry with the id, keeping its id and position, and no other entry; an unknown id changes nothing |
| TypeAnswer.DeleteRemoves | server/index.js:293 | a delete leaves the bank filtered by id, in order: every entry with that id goes and no other |
| TypeAnswer.AddPreservesValid | server/index.js:231-250 | adding a question keeps a room valid and under its code |
| TypeAnswer.UpdatePreservesValid | server/index.js:256-278 | updating a question keeps a room valid and under its code |
| TypeAnswer.DeletePreservesValid | server/index.js:283-297 | deleting a question keeps a room valid and under its code |
| TypeAnswer.ClearPreservesValid | server/index.js:302-316 | clearing the bank keeps a room valid and under its code |
| TypeAnswer.Add | server/index.js:232-250 | the handler's steps compute exactly `AddSpec` |
| TypeAnswer.Update | server/index.js:257-278 | the handler's steps compute exactly `UpdateSpec` |
| TypeAnswer.Delete | server/index.js:284-297 | the handler's steps compute exactly `DeleteSpec` |
| TypeAnswer.Clear | server/index.js:303-316 | the handler's steps compute exactly `ClearSpec` |
| TypeAnswer.ClearedAnswers | server/index.js:339-342 | after the loop nobody has answered, and nothing else about anyone has changed |
| TypeAnswer.ClearAnswered | server/index.js:339-342 | the `forEach` loop computes exactly `ClearedAnswers` |
| TypeAnswer.StartQuestionEffect | server/index.js:328-345 | an index inside the bank makes that question live at that index, with an empty log and nobody answered; an index outside the bank is ignored |
| TypeAnswer.StartQuestionPreservesValid | server/index.js:335-345 | starting a question keeps a room valid |
| TypeAnswer.StartQuestion | server/index.js:321-352 | the handler's steps compute exactly `StartQuestionSpec` |
| TypeAnswer.Judge | server/index.js:367-391 | the handler's judging steps compute exactly `IsCorrect`, the predicate the judging lemmas above are about |
| TypeAnswer.SubmitOutcome | server/index.js:357-445 | every attempt on a live question appends one log entry recording the sender and the verdict; a right answer scores 1 only in an active game, marks the sender answered, ends the round and keeps the index; a wrong answer changes no score and leaves the question live |
| TypeAnswer.FirstRightAnswerEndsRound | server/index.js:359-423 | after a right answer every later submission is ignored until the next question starts |
| TypeAnswer.SubmitPreservesValid | server/index.js:357-445 | submitting keeps a room valid |
| TypeAnswer.Submit | server/index.js:357-442 | the handler's steps compute exactly `SubmitSpec` |
| Impostor.SetVoteEffect | server/index.js:651 | a vote is stored under its voter and replaces only that voter's earlier vote; voters stay unique; the number of votes grows only for a first-time voter |
| Impostor.BallotsExactly | server/index.js:658-659 | the voters counted for a video are exactly those whose stored vote is its id |
| Impostor.Names | server/index.js:660 | each counted voter is shown by current name, or as missing once they have left |
| Impostor.PercentageRounds | server/index.js:664 | on the exact share, the percentage is `100*count/total` rounded to nearest with halves up; it is 0 for no votes, 100 for all votes, and never more than 100 (the double arithmetic of the code can give one less, see "## Left out") |
| Impostor.ResultFor | server/index.js:658-666 | a video's count is the number of its voters, and its percentage is its exact share of all stored votes rounded half-up, at most 100 (the double arithmetic of the code can give one less, see "## Left out") |
| Impostor.Tallies | server/index.js:654-667 | the results have one entry per video id, each the tally of that id |
| Impostor.TallyVotes | server/index.js:654-667 | the `forEach` loop computes exactly `Tallies` |
| Impostor.CountsSumToNamedVotes | server/index.js:655-667 | the counts over a round's videos never add up to more than the number of stored votes, and equal it exactly when every vote names one of the videos |
| Impostor.RoundControls | server/index.js:538-715 | from the host of an impostor room, `start_recording` empties the clips but keeps the votes, `new_round` empties clips, votes and results, and `show_results` changes only the state; anyone else is ignored |
| Impostor.RoundControlsPreserveValid | server/index.js:538-715 | the three host controls keep a room valid |
| Impostor.StartRecording | server/index.js:538-552 | the handler's steps compute exactly `StartRecordingSpec` |
| Impostor.Views | server/index.js:626-631 | `voting_started` lists one view per clip, in clip order, each carrying that clip's id, sender name, data and type, and not its sender's socket, duration or timestamp |
| Impostor.SubmitVideoEffect | server/index.js:565-635 | a clip is accepted exactly when every guard holds, and then the round gains exactly one video and one sender; voting opens exactly when the clips reach the Player count; the same sender is refused a second clip; a refused clip changes nothing |
| Impostor.AppendVideoValid | server/index.js:597-608 | a clip from a sender with none yet, while there is room, keeps the round's clips valid: at most five, one per sender, each id naming its sender |
| Impostor.SubmitVideoPreservesValid | server/index.js:557-635 | submitting a clip keeps a room valid |
| Impostor.SubmitVideo | server/index.js:557-632 | the handler's guards, in the code's order, and its steps compute exactly `SubmitVideoSpec` |
| Impostor.SubmitVoteEffect | server/index.js:641-667 | an accepted vote, for any id, is stored under the sender and overwrites only their own earlier vote; the videos stay; the results are rebuilt, one entry per video, each the tally of the new votes |
| Impostor.SubmitVotePreservesValid | server/index.js:638-667 | voting keeps a room valid |
| Impostor.SubmitVote | server/index.js:638-674 | storing the vote, then running the tally loop, computes exactly `SubmitVoteSpec` |
| Impostor.ShowResults | server/index.js:679-691 | the handler's steps compute exactly `ShowResultsSpec` |
| Impostor.NewRound | server/index.js:696-712 | the handler's steps compute exactly `NewRoundSpec` |
| Scenarios.LobbyRoster | server/index.js:66-152 | after Alice creates a buzzer room and Bob and Carol join, the roster is Alice, Bob, Carol, in that order |
| Scenarios.StartedRoom | server/index.js:483-506 | starting that game makes it active with the same roster and an empty buzz order |
| Scenarios.BobBuzzes | server/index.js:168-199 | Bob's buzz at 100 sets the first buzz time to 100 and is the whole order |
| Scenarios.SecondBuzz | server/index.js:168-199 | a later second buzz lands behind the first |
| Scenarios.CarolBuzzes | server/index.js:168-199 | Carol's buzz at 140 follows Bob's |
| Scenarios.BuzzerRound | server/index.js:194-199 | the broadcast order is Bob at position 1 with offset 0, then Carol at position 2 with offset 40 |
| Scenarios.MarksAfterRound | server/index.js:448-461 | marking Bob correct gives him 1 point, and marking Carol first does the same for her |

## Left out

- The Express, socket.io and CORS setup, room membership for broadcasts, and `server.listen` (`server/index.js:1-32`, `749-752`) are transport. Events are returned as a list of `Emit(audience, payload)` values instead.
- `logScoreTally` and every `console.log` are not modelled, because they only log.
- `generateRoomCode` uses `Math.random`. The code is a parameter of `CreateRoom`, and nothing is assumed about its shape.
- `Date.now()` is a parameter wherever it is read.
- Concurrency is not modelled. Node runs each handler to completion, so each handler is one atomic method.
- Amount.ParseAmount: `parseFloat` is modelled on exact decimals (`mantissa * 10^exponent`), not IEEE doubles. The model misses three cases:
  - two numerals that differ only beyond double precision compare unequal in the model, but equal in JavaScript;
  - an exponent too large for a double does not overflow to `Infinity`;
  - the text `Infinity` is not read as a number. A quiz never reaches this case, because both sides are lower-cased first.
- Impostor.PercentageRounds, Impostor.ResultFor: the model rounds the exact share `100*count/total` half-up. The code computes `(count / total) * 100` in doubles, and when the exact value ends in a half the double result can fall just below it, so `Math.round` gives one less. The first case is 23 of 40 votes: 57 in the code, 58 in the model. With at most 200 votes the other cases are 46 of 80, 69 of 120, 92 of 160, and 29, 57, 113 and 115 of 200. No total below 40 votes differs.
- Text.Lower: `toLowerCase` is modelled on ASCII letters only. Other letters are left as they are.
- Malformed payloads are not modelled. For example, a missing `answer` makes `.trim()` throw, and a non-numeric `duration` makes `duration > maxDuration` false. Every parameter has a type.
- Video data and `mimeType` are opaque strings.
- Integers are unbounded. JavaScript numbers are doubles, and scores, counters and clock readings never come near their integer limit.
- Coordinator.Registry handler methods require `Valid()`, the registry invariant. Every handler preserves it, starting from the constructor.
- Impostor.StartRecording, Impostor.SubmitVideo, Impostor.SubmitVote, Impostor.ShowResults, Impostor.NewRound, Membership.Join: each requires that an impostor room has its round fields. `create_room` always adds them for that type, and `RoomValid` records this.
- The client files are not part of this model.
