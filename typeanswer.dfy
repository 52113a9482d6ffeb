/** The type-answer game: the question bank (server/index.js:231-319),
    `start_question` (321-355) and `submit_answer` (357-446). */
module TypeAnswer {
  import opened Basics
  import opened Text
  import opened Amount
  import opened Rooms
  import opened Events

  /** `s.trim().toLowerCase()` */
  function Normalize(s: string): string {
    Lower(Trim(s))
  }

  lemma NormalizeIdempotent(s: string)
    ensures Normalize(Normalize(s)) == Normalize(s)
  {
    var t := Trim(s);
    LowerTrimCommute(t);
    TrimIdempotent(s);
    LowerIdempotent(t);
  }

  lemma NormalizeIgnoresCase(s: string)
    ensures Normalize(Lower(s)) == Normalize(s)
  {
    LowerTrimCommute(s);
    LowerIdempotent(Trim(s));
  }

  /** `parts.map(a => a.trim())` */
  function TrimAll(parts: seq<string>): (r: seq<string>)
    ensures |r| == |parts|
    ensures forall k :: 0 <= k < |r| ==> r[k] == Trim(parts[k])
  {
    seq(|parts|, k requires 0 <= k < |parts| => Trim(parts[k]))
  }

  /** The accepted variants of a stored answer: split on `/` when it has one,
      otherwise on ` or ` when it has that, each piece trimmed; an answer
      with neither is its own only variant. */
  function Variants(answer: string): (r: seq<string>)
    ensures |r| >= 1
  {
    if Contains(answer, "/") then TrimAll(Split(answer, "/"))
    else if Contains(answer, " or ") then TrimAll(Split(answer, " or "))
    else [answer]
  }

  /** A host who lists two or more alternatives separated by `/` gets back
      exactly those alternatives, each trimmed, as the accepted variants. */
  lemma VariantsOfSlashList(parts: seq<string>)
    requires |parts| >= 2
    requires forall k :: 0 <= k < |parts| ==> '/' !in parts[k]
    ensures Variants(Join(parts, "/")) == TrimAll(parts)
  {
    SplitJoin(parts, '/');
    assert Contains(Join(parts, "/"), "/");
  }

  /** With no `/`, two alternatives separated by ` or ` are the accepted
      variants, each trimmed. The left one has no space, so the first ` or `
      is the one between them; the right one has no further ` or `. */
  lemma VariantsOfOrPair(a: string, b: string)
    requires '/' !in a && '/' !in b && ' ' !in a && !Contains(b, " or ")
    ensures Variants(a + " or " + b) == [Trim(a), Trim(b)]
  {
    var s := a + " or " + b;
    assert '/' !in " or ";
    FirstCharAbsent(s, "/");
    SplitAtFirst(a, " or ", b);
    assert Variants(s) == TrimAll([a, b]);
  }

  /** An answer with no `/` and no ` or ` is its own only variant. */
  lemma VariantsOfPlainAnswer(answer: string)
    requires '/' !in answer && ' ' !in answer
    ensures Variants(answer) == [answer]
  {
    FirstCharAbsent(answer, "/");
    FirstCharAbsent(answer, " or ");
  }

  /** `answerType || 'text'` */
  function AnswerType(q: Question): string {
    if q.answerType == "" then "text" else q.answerType
  }

  /** The text branch: the normalised submission is one of the variants. */
  predicate TextCorrect(answer: string, submission: string) {
    Normalize(submission) in Variants(answer)
  }

  /** The amount branch: the normalised submission and some variant both
      parse to the same number. */
  predicate AmountCorrect(answer: string, submission: string) {
    var v := Variants(answer);
    exists k :: 0 <= k < |v| && SameAmount(Normalize(submission), v[k])
  }

  predicate IsCorrect(q: Question, submission: string) {
    if AnswerType(q) == "amount" then AmountCorrect(q.answer, submission)
    else TextCorrect(q.answer, submission)
  }

  lemma NormalizeIgnoresCaseAndPadding(a: string, s: string, b: string)
    requires AllSpace(a) && AllSpace(b) && Unpadded(s)
    ensures Normalize(a + Lower(s) + b) == Normalize(s)
  {
    LowerCharsKeepPadding(s);
    TrimPadded(a, Lower(s), b);
    LowerIdempotent(s);
    TrimUnpadded(s);
  }

  /** A verdict depends on the submission only through its normal form. */
  lemma JudgedByNormalForm(q: Question, x: string, y: string)
    requires Normalize(x) == Normalize(y)
    ensures IsCorrect(q, x) == IsCorrect(q, y)
  {
  }

  /** Judging ignores letter case and white space around the answer. */
  lemma CorrectIgnoresCaseAndPadding(q: Question, a: string, s: string, b: string)
    requires AllSpace(a) && AllSpace(b) && Unpadded(s)
    ensures IsCorrect(q, a + Lower(s) + b) == IsCorrect(q, s)
  {
    NormalizeIgnoresCaseAndPadding(a, s, b);
    JudgedByNormalForm(q, a + Lower(s) + b, s);
  }

  lemma LowerCharsKeepPadding(s: string)
    requires Unpadded(s)
    ensures Unpadded(Lower(s))
  {
    if s != [] {
      LowerCharKeepsSpace(s[0]);
      LowerCharKeepsSpace(s[|s| - 1]);
    }
  }

  /** With alternatives `p1/p2/...`, a text answer is right exactly when its
      normalised form is one of them, trimmed. */
  lemma SlashListJudged(q: Question, parts: seq<string>, s: string)
    requires |parts| >= 2
    requires AnswerType(q) != "amount" && q.answer == Join(parts, "/")
    requires forall k :: 0 <= k < |parts| ==> '/' !in parts[k]
    ensures IsCorrect(q, s) <==> Normalize(s) in TrimAll(parts)
  {
    VariantsOfSlashList(parts);
  }

  /** With alternatives `a or b`, a text answer is right exactly when its
      normalised form is one of them, trimmed. */
  lemma OrPairJudged(q: Question, a: string, b: string, s: string)
    requires AnswerType(q) != "amount" && q.answer == a + " or " + b
    requires '/' !in a && '/' !in b && ' ' !in a && !Contains(b, " or ")
    ensures IsCorrect(q, s) <==> Normalize(s) == Trim(a) || Normalize(s) == Trim(b)
  {
    VariantsOfOrPair(a, b);
  }

  /** Digits with at most a decimal point. */
  predicate Numeral(s: string) {
    forall i :: 0 <= i < |s| ==> IsDigit(s[i]) || s[i] == '.'
  }

  lemma NumeralNormal(s: string)
    requires Numeral(s)
    ensures Normalize(s) == s
  {
    if s != [] {
      assert IsDigit(s[0]) || s[0] == '.';
      assert IsDigit(s[|s| - 1]) || s[|s| - 1] == '.';
    }
    TrimUnpadded(s);
    LowerKeepsNumeral(s);
  }

  lemma LowerKeepsNumeral(s: string)
    requires Numeral(s)
    ensures Lower(s) == s
  {
    forall i | 0 <= i < |s| ensures Lower(s)[i] == s[i] {
      assert IsDigit(s[i]) || s[i] == '.';
    }
  }

  lemma PlainDecimalNumerals(a: string, b: string)
    requires |a| > 0 && AllDigits(a) && AllDigits(b)
    ensures Numeral(a + "." + b) && Numeral(a + "." + b + "0")
  {
    assert forall i :: 0 <= i < |a + "." + b| ==>
      (a + "." + b)[i] == if i < |a| then a[i] else if i == |a| then '.' else b[i - |a| - 1];
    assert forall i :: 0 <= i < |a + "." + b + "0"| ==>
      (a + "." + b + "0")[i] == if i < |a + "." + b| then (a + "." + b)[i] else '0';
  }

  /** An amount question whose answer is `a.b` accepts `a.b0`: "34.50" for
      "34.5". */
  lemma AmountAcceptsTrailingZero(q: Question, a: string, b: string)
    requires AnswerType(q) == "amount" && q.answer == a + "." + b
    requires |a| > 0 && AllDigits(a) && AllDigits(b)
    ensures IsCorrect(q, a + "." + b + "0")
  {
    var x, y := a + "." + b, a + "." + b + "0";
    PlainDecimalNumerals(a, b);
    assert '/' !in x && ' ' !in x by {
      assert forall i :: 0 <= i < |x| ==> x[i] != '/' && x[i] != ' ';
    }
    VariantsOfPlainAnswer(x);
    assert y[|y| - 1] == '0';
    NumeralNormal(y);
    FractionTrailingZero(a, b);
    SameAmountSymmetric(x, y);
    assert SameAmount(Normalize(y), Variants(x)[0]);
  }

  /** And the other way round: an amount question whose answer is `a.b0`
      accepts `a.b`, "34.5" for "34.50". */
  lemma AmountAcceptsWithoutTrailingZero(q: Question, a: string, b: string)
    requires AnswerType(q) == "amount" && q.answer == a + "." + b + "0"
    requires |a| > 0 && AllDigits(a) && AllDigits(b)
    ensures IsCorrect(q, a + "." + b)
  {
    var x, y := a + "." + b, a + "." + b + "0";
    PlainDecimalNumerals(a, b);
    assert '/' !in y && ' ' !in y by {
      assert forall i :: 0 <= i < |y| ==> y[i] != '/' && y[i] != ' ';
    }
    VariantsOfPlainAnswer(y);
    NumeralNormal(x);
    FractionTrailingZero(a, b);
    assert SameAmount(Normalize(x), Variants(y)[0]);
  }

  // The question bank.

  /** `answerType || 'text'` on what the client sent. */
  function DefaultType(t: Option<string>): (r: string)
    ensures r != ""
  {
    match t
    case None => "text"
    case Some(s) => if s == "" then "text" else s
  }

  /** A bank entry as `add_question` and `update_question` store it. */
  function MakeQuestion(id: int, text: string, answer: string, t: Option<string>): Question {
    Question(id, Trim(text), Normalize(answer), DefaultType(t))
  }

  /** The bank stores the question text without padding, the answer in
      normal form, and a type that is `text` unless the client named
      another. */
  lemma MakeQuestionStores(id: int, text: string, answer: string, t: Option<string>)
    ensures var q := MakeQuestion(id, text, answer, t);
      && q.id == id
      && Trim(q.text) == q.text && Unpadded(q.text)
      && Normalize(q.answer) == q.answer
      && (t == None || t == Some("") <==> q.answerType == "text" && t != Some("text"))
      && (forall s :: t == Some(s) && s != "" ==> q.answerType == s)
  {
    TrimIdempotent(text);
    NormalizeIdempotent(answer);
  }

  /** A stored answer is already normalised and its type already defaulted,
      so a plain text answer typed back in any case and padding is accepted. */
  lemma StoredAnswerAccepted(id: int, text: string, answer: string, t: Option<string>, s: string)
    requires DefaultType(t) != "amount"
    requires '/' !in Normalize(answer) && ' ' !in Normalize(answer)
    requires Normalize(s) == Normalize(answer)
    ensures var q := MakeQuestion(id, text, answer, t);
      AnswerType(q) == DefaultType(t) && Normalize(q.answer) == q.answer && IsCorrect(q, s)
  {
    NormalizeIdempotent(answer);
    VariantsOfPlainAnswer(Normalize(answer));
  }

  /** `questions.findIndex(q => q.id === id)` */
  function FindQuestion(qs: seq<Question>, id: int): (r: Option<nat>)
    ensures r.Some? ==> r.value < |qs| && qs[r.value].id == id
    ensures r.Some? ==> forall j :: 0 <= j < r.value ==> qs[j].id != id
    ensures r.None? ==> forall j :: 0 <= j < |qs| ==> qs[j].id != id
  {
    if qs == [] then None
    else if qs[0].id == id then Some(0)
    else match FindQuestion(qs[1..], id)
      case None => None
      case Some(k) => Some(k + 1)
  }

  /** `questions.filter(q => q.id !== id)` */
  function WithoutId(qs: seq<Question>, id: int): (r: seq<Question>)
    ensures |r| <= |qs|
    ensures forall q :: q in r <==> q in qs && q.id != id
  {
    if qs == [] then []
    else
      var init, last := qs[..|qs| - 1], qs[|qs| - 1];
      assert qs == init + [last];
      WithoutId(init, id) + (if last.id != id then [last] else [])
  }

  /** Deleting an id no question has leaves the bank as it was. */
  lemma {:induction false} WithoutAbsentId(qs: seq<Question>, id: int)
    requires forall j :: 0 <= j < |qs| ==> qs[j].id != id
    ensures WithoutId(qs, id) == qs
  {
    if qs != [] {
      var init, last := qs[..|qs| - 1], qs[|qs| - 1];
      assert qs == init + [last];
      assert forall j :: 0 <= j < |init| ==> init[j] == qs[j];
      WithoutAbsentId(init, id);
      WithoutIdSnoc(init, last, id);
    }
  }

  lemma WithoutIdSnoc(init: seq<Question>, last: Question, id: int)
    ensures WithoutId(init + [last], id) == WithoutId(init, id) + (if last.id != id then [last] else [])
  {
    assert (init + [last])[..|init|] == init;
  }

  /** Deleting from a concatenation deletes from each part, in order. */
  lemma {:induction false} WithoutIdConcat(a: seq<Question>, b: seq<Question>, id: int)
    ensures WithoutId(a + b, id) == WithoutId(a, id) + WithoutId(b, id)
    decreases |b|
  {
    if b == [] {
      assert a + b == a;
    } else {
      var init, last := b[..|b| - 1], b[|b| - 1];
      var kept := if last.id != id then [last] else [];
      assert b == init + [last];
      assert a + b == (a + init) + [last];
      calc {
        WithoutId(a + b, id);
        { WithoutIdSnoc(a + init, last, id); }
        WithoutId(a + init, id) + kept;
        { WithoutIdConcat(a, init, id); }
        (WithoutId(a, id) + WithoutId(init, id)) + kept;
        WithoutId(a, id) + (WithoutId(init, id) + kept);
        { WithoutIdSnoc(init, last, id); }
        WithoutId(a, id) + WithoutId(b, id);
      }
    }
  }

  /** Host of a type room. */
  predicate MayManage(r: Room, sid: string) {
    r.mode == TypeQuiz && SentByHost(r.players, sid)
  }

  /** Editing the bank is further barred while the game is active. */
  predicate MayEdit(r: Room, sid: string) {
    MayManage(r, sid) && r.state != Active
  }

  function AddSpec(r: Room, sid: string, q: Question): Reply {
    if !MayManage(r, sid) then Unchanged(r)
    else
      var qs := r.questions + [q];
      Reply(r.(questions := qs), [Emit(Sender, QuestionBank(Added, qs))])
  }

  function UpdateSpec(r: Room, sid: string, id: int, text: string, answer: string, t: Option<string>): Reply {
    if !MayEdit(r, sid) then Unchanged(r)
    else match FindQuestion(r.questions, id)
      case None => Unchanged(r)
      case Some(k) =>
        var qs := r.questions[k := MakeQuestion(r.questions[k].id, text, answer, t)];
        Reply(r.(questions := qs), [Emit(Sender, QuestionBank(Updated, qs))])
  }

  function DeleteSpec(r: Room, sid: string, id: int): Reply {
    if !MayEdit(r, sid) then Unchanged(r)
    else
      var qs := WithoutId(r.questions, id);
      Reply(r.(questions := qs), [Emit(Sender, QuestionBank(Deleted, qs))])
  }

  function ClearSpec(r: Room, sid: string): Reply {
    if !MayEdit(r, sid) then Unchanged(r)
    else Reply(r.(questions := []), [Emit(Sender, QuestionBank(Cleared, []))])
  }

  /** The bank operations touch only the bank, and only for the host of a
      type room; `update`, `delete` and `clear` also wait for the game not
      to be active, `add` does not. */
  lemma BankGuards(r: Room, sid: string, q: Question, id: int, text: string, answer: string, t: Option<string>)
    ensures AddSpec(r, sid, q).room == r.(questions := AddSpec(r, sid, q).room.questions)
    ensures UpdateSpec(r, sid, id, text, answer, t).room == r.(questions := UpdateSpec(r, sid, id, text, answer, t).room.questions)
    ensures DeleteSpec(r, sid, id).room == r.(questions := DeleteSpec(r, sid, id).room.questions)
    ensures ClearSpec(r, sid).room == r.(questions := ClearSpec(r, sid).room.questions)
    ensures AddSpec(r, sid, q).room.questions == (if MayManage(r, sid) then r.questions + [q] else r.questions)
    ensures !MayEdit(r, sid) ==>
      UpdateSpec(r, sid, id, text, answer, t) == Unchanged(r) && DeleteSpec(r, sid, id) == Unchanged(r)
      && ClearSpec(r, sid) == Unchanged(r)
    ensures MayEdit(r, sid) ==> ClearSpec(r, sid).room.questions == []
  {
  }

  /** `update_question` replaces the fields of the first entry with that id
      and keeps its id and position; no other entry changes. */
  lemma UpdateReplaces(r: Room, sid: string, id: int, text: string, answer: string, t: Option<string>)
    requires MayEdit(r, sid)
    ensures var qs := UpdateSpec(r, sid, id, text, answer, t).room.questions;
      && |qs| == |r.questions|
      && match FindQuestion(r.questions, id)
         case None => qs == r.questions
         case Some(k) =>
           && qs[k] == MakeQuestion(id, text, answer, t)
           && forall j :: 0 <= j < |qs| && j != k ==> qs[j] == r.questions[j]
  {
  }

  /** `delete_question` removes every entry with that id and no other. */
  lemma DeleteRemoves(r: Room, sid: string, id: int)
    requires MayEdit(r, sid)
    ensures forall q :: q in DeleteSpec(r, sid, id).room.questions <==> q in r.questions && q.id != id
    ensures DeleteSpec(r, sid, id).room.questions == WithoutId(r.questions, id)
  {
  }

  // Starting a question.

  function ResetAnswer(p: Participant): Participant {
    p.(answered := false, answerTime := None)
  }

  /** The roster after the `start_question` loop: nobody has answered and
      nothing else about anyone has changed. */
  function ClearedAnswers(ps: seq<Participant>): (r: seq<Participant>)
    ensures |r| == |ps|
    ensures forall i :: 0 <= i < |r| ==> !r[i].answered && r[i].answerTime == None
    ensures forall i :: 0 <= i < |r| ==> r[i].(answered := ps[i].answered, answerTime := ps[i].answerTime) == ps[i]
  {
    seq(|ps|, i requires 0 <= i < |ps| => ResetAnswer(ps[i]))
  }

  /** `room.players.forEach(p => { p.answered = false; p.answerTime = null; })` */
  method ClearAnswered(ps: seq<Participant>) returns (r: seq<Participant>)
    ensures r == ClearedAnswers(ps)
  {
    r := ps;
    var i := 0;
    while i < |r|
      invariant 0 <= i <= |r| == |ps|
      invariant forall j :: 0 <= j < i ==> r[j] == ResetAnswer(ps[j])
      invariant forall j :: i <= j < |r| ==> r[j] == ps[j]
    {
      r := r[i := ResetAnswer(r[i])];
      i := i + 1;
    }
    assert r == ClearedAnswers(ps);
  }

  function StartQuestionSpec(r: Room, sid: string, index: int): Reply {
    if !MayManage(r, sid) || index < 0 || index >= |r.questions| then Unchanged(r)
    else
      var q := r.questions[index];
      Reply(r.(currentQuestion := Some(q), currentQuestionIndex := index,
               players := ClearedAnswers(r.players), answerLog := []),
            [Emit(Everyone(r.code), QuestionStarted(q.text, index, [], AnswerType(q)))])
  }

  /** An index inside the bank makes that question live with an empty log
      and nobody answered; one outside it is ignored. */
  lemma StartQuestionEffect(r: Room, sid: string, index: int)
    requires MayManage(r, sid)
    ensures var out := StartQuestionSpec(r, sid, index).room;
      if 0 <= index < |r.questions| then
        && out.currentQuestion == Some(r.questions[index]) && out.currentQuestionIndex == index
        && out.answerLog == [] && |out.players| == |r.players|
        && (forall i :: 0 <= i < |out.players| ==> !out.players[i].answered)
      else out == r
  {
  }

  lemma StartQuestionPreservesValid(r: Room, sid: string, index: int)
    requires RoomValid(r)
    ensures RoomValid(StartQuestionSpec(r, sid, index).room)
  {
    var ps, cs := r.players, ClearedAnswers(r.players);
    assert forall i :: 0 <= i < |cs| ==>
      cs[i].isHost == ps[i].isHost && cs[i].name == ps[i].name && cs[i].role == ps[i].role;
    CountRoleSameRoles(ps, cs, PlayerRole);
  }

  // Submitting an answer.

  /** `submit_answer` at clock reading `now`. */
  function SubmitSpec(r: Room, sid: string, answer: string, now: int): Reply {
    if r.mode != TypeQuiz || r.currentQuestion.None? then Unchanged(r)
    else match FindById(r.players, sid)
      case None => Unchanged(r)
      case Some(i) =>
        var q := r.currentQuestion.value;
        var ok := IsCorrect(q, answer);
        var p := r.players[i];
        var entry := LogEntry(now, p.name, p.id, Trim(answer), ok, now);
        var log := r.answerLog + [entry];
        var attempt := Emit(Everyone(r.code), AnswerAttempt(entry, log));
        if ok then
          var winner := p.(score := p.score + Award(true, r.state), answered := true, answerTime := Some(now));
          var ps := r.players[i := winner];
          Reply(r.(players := ps, answerLog := log, currentQuestion := None),
                [attempt, Emit(Everyone(r.code), CorrectAnswer(winner, Normalize(answer), q.answer, ps, log))])
        else
          Reply(r.(answerLog := log), [attempt, Emit(Sender, IncorrectAnswer(Normalize(answer), q.answer))])
  }

  /** Every attempt on a live question appends one log entry recording the
      verdict. A right answer scores a point when the game is active, marks
      the sender answered and ends the round but keeps the index; a wrong one
      changes no score and leaves the question live. */
  lemma SubmitOutcome(r: Room, sid: string, answer: string, now: int)
    requires r.mode == TypeQuiz && r.currentQuestion.Some? && FindById(r.players, sid).Some?
    ensures var i := FindById(r.players, sid).value;
      var q := r.currentQuestion.value;
      var out := SubmitSpec(r, sid, answer, now).room;
      && |out.answerLog| == |r.answerLog| + 1
      && out.answerLog[..|r.answerLog|] == r.answerLog
      && out.answerLog[|r.answerLog|].playerId == sid
      && out.answerLog[|r.answerLog|].isCorrect == IsCorrect(q, answer)
      && out.currentQuestionIndex == r.currentQuestionIndex
      && |out.players| == |r.players|
      && (IsCorrect(q, answer) ==>
            && out.currentQuestion == None
            && out.players[i].score == r.players[i].score + (if r.state == Active then 1 else 0)
            && out.players[i].answered
            && forall j :: 0 <= j < |r.players| && j != i ==> out.players[j] == r.players[j])
      && (!IsCorrect(q, answer) ==> out.currentQuestion == r.currentQuestion && out.players == r.players)
  {
    var out := SubmitSpec(r, sid, answer, now).room;
    assert out.answerLog[..|r.answerLog|] == r.answerLog;
  }

  /** Without a live question every submission is ignored, so once someone
      is right nobody else can answer until the next `start_question`. */
  lemma FirstRightAnswerEndsRound(r: Room, sid: string, answer: string, now: int, other: string, later: string, t: int)
    requires r.mode == TypeQuiz && r.currentQuestion.Some? && FindById(r.players, sid).Some?
    ensures IsCorrect(r.currentQuestion.value, answer) ==>
      var out := SubmitSpec(r, sid, answer, now).room;
      SubmitSpec(out, other, later, t) == Unchanged(out)
  {
  }

  lemma SubmitPreservesValid(r: Room, sid: string, answer: string, now: int)
    requires RoomValid(r)
    ensures RoomValid(SubmitSpec(r, sid, answer, now).room)
  {
    if r.mode == TypeQuiz && r.currentQuestion.Some? && FindById(r.players, sid).Some? {
      if IsCorrect(r.currentQuestion.value, answer) {
        var i := FindById(r.players, sid).value;
        var p := r.players[i];
        UpdateParticipant(r, i, p.(score := p.score + Award(true, r.state), answered := true, answerTime := Some(now)));
      }
    }
  }

  /** The bank edits change only the bank, so they keep a room valid. */
  lemma AddPreservesValid(r: Room, sid: string, q: Question)
    requires RoomValid(r)
    ensures RoomValid(AddSpec(r, sid, q).room) && AddSpec(r, sid, q).room.code == r.code
  {
  }

  lemma UpdatePreservesValid(r: Room, sid: string, id: int, text: string, answer: string, t: Option<string>)
    requires RoomValid(r)
    ensures RoomValid(UpdateSpec(r, sid, id, text, answer, t).room)
    ensures UpdateSpec(r, sid, id, text, answer, t).room.code == r.code
  {
  }

  lemma DeletePreservesValid(r: Room, sid: string, id: int)
    requires RoomValid(r)
    ensures RoomValid(DeleteSpec(r, sid, id).room) && DeleteSpec(r, sid, id).room.code == r.code
  {
  }

  lemma ClearPreservesValid(r: Room, sid: string)
    requires RoomValid(r)
    ensures RoomValid(ClearSpec(r, sid).room) && ClearSpec(r, sid).room.code == r.code
  {
  }

  // The handlers, on the room they looked up.

  /** `add_question` with the entry already built, step by step. */
  method Add(r: Room, sid: string, q: Question) returns (out: Reply)
    ensures out == AddSpec(r, sid, q)
  {
    var host := FindById(r.players, sid);
    if r.mode != TypeQuiz || host.None? || !r.players[host.value].isHost {
      return Unchanged(r);
    }
    var qs := r.questions + [q];
    return Reply(r.(questions := qs), [Emit(Sender, QuestionBank(Added, qs))]);
  }

  /** `update_question`, step by step. */
  method Update(r: Room, sid: string, id: int, text: string, answer: string, t: Option<string>)
    returns (out: Reply)
    ensures out == UpdateSpec(r, sid, id, text, answer, t)
  {
    var host := FindById(r.players, sid);
    if r.mode != TypeQuiz || host.None? || !r.players[host.value].isHost || r.state == Active {
      return Unchanged(r);
    }
    var k := FindQuestion(r.questions, id);
    if k.None? {
      return Unchanged(r);
    }
    var qs := r.questions[k.value := MakeQuestion(r.questions[k.value].id, text, answer, t)];
    return Reply(r.(questions := qs), [Emit(Sender, QuestionBank(Updated, qs))]);
  }

  /** `delete_question`, step by step. */
  method Delete(r: Room, sid: string, id: int) returns (out: Reply)
    ensures out == DeleteSpec(r, sid, id)
  {
    var host := FindById(r.players, sid);
    if r.mode != TypeQuiz || host.None? || !r.players[host.value].isHost || r.state == Active {
      return Unchanged(r);
    }
    var qs := WithoutId(r.questions, id);
    return Reply(r.(questions := qs), [Emit(Sender, QuestionBank(Deleted, qs))]);
  }

  /** `clear_questions`, step by step. */
  method Clear(r: Room, sid: string) returns (out: Reply)
    ensures out == ClearSpec(r, sid)
  {
    var host := FindById(r.players, sid);
    if r.mode != TypeQuiz || host.None? || !r.players[host.value].isHost || r.state == Active {
      return Unchanged(r);
    }
    return Reply(r.(questions := []), [Emit(Sender, QuestionBank(Cleared, []))]);
  }

  /** `start_question`, step by step. */
  method StartQuestion(r: Room, sid: string, index: int) returns (out: Reply)
    ensures out == StartQuestionSpec(r, sid, index)
  {
    var host := FindById(r.players, sid);
    if r.mode != TypeQuiz || host.None? || !r.players[host.value].isHost {
      return Unchanged(r);
    }
    if index < 0 || index >= |r.questions| {
      return Unchanged(r);
    }
    var q := r.questions[index];
    var ps := ClearAnswered(r.players);
    var room := r.(currentQuestion := Some(q), currentQuestionIndex := index, players := ps, answerLog := []);
    return Reply(room, [Emit(Everyone(r.code), QuestionStarted(q.text, index, [], AnswerType(q)))]);
  }

  /** The verdict on a submission, step by step: the accepted variants, then
      a numeric comparison for an `amount` question and membership for any
      other. */
  method Judge(q: Question, answer: string) returns (isCorrect: bool)
    ensures isCorrect == IsCorrect(q, answer)
  {
    var submittedAnswer := Normalize(answer);
    var validAnswers := Variants(q.answer);
    if AnswerType(q) == "amount" {
      isCorrect := exists k :: 0 <= k < |validAnswers| && SameAmount(submittedAnswer, validAnswers[k]);
    } else {
      isCorrect := submittedAnswer in validAnswers;
    }
  }

  /** `submit_answer` at clock reading `now`, step by step. */
  method Submit(r: Room, sid: string, answer: string, now: int) returns (out: Reply)
    ensures out == SubmitSpec(r, sid, answer, now)
  {
    if r.mode != TypeQuiz || r.currentQuestion.None? {
      return Unchanged(r);
    }
    var found := FindById(r.players, sid);
    if found.None? {
      return Unchanged(r);
    }
    var i := found.value;
    var player := r.players[i];
    var q := r.currentQuestion.value;
    var submitted := Normalize(answer);
    var isCorrect := Judge(q, answer);
    var entry := LogEntry(now, player.name, player.id, Trim(answer), isCorrect, now);
    var log := r.answerLog + [entry];
    var room := r.(answerLog := log);
    var events := [Emit(Everyone(r.code), AnswerAttempt(entry, log))];
    if isCorrect {
      if r.state == Active {
        player := player.(score := player.score + 1);
      }
      player := player.(answered := true, answerTime := Some(now));
      room := room.(players := r.players[i := player], currentQuestion := None);
      events := events + [Emit(Everyone(r.code), CorrectAnswer(player, submitted, q.answer, room.players, log))];
    } else {
      events := events + [Emit(Sender, IncorrectAnswer(submitted, q.answer))];
    }
    return Reply(room, events);
  }
}
