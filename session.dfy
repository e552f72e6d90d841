/** The per-session state of the random and quiz modes (flower_app.py:180-209):
    the flower drawn at random, the current quiz flower and whether its answer
    is shown. The random choice is an oracle: the index `random.choice` picks. */
module Session {
  import opened Common
  import opened Frames

  class QuizSession {
    /** `flower_data`: the loaded rows. */
    const flowers: seq<Row>
    /** `st.session_state.random_flower` */
    var randomFlower: Option<Row>
    /** `st.session_state.quiz_flower` */
    var quizFlower: Option<Row>
    /** `st.session_state.show_answer` */
    var showAnswer: bool

    /** Every flower held by the session is one of the loaded rows. */
    ghost predicate Valid()
      reads this
    {
      && (randomFlower.Some? ==> randomFlower.value in flowers)
      && (quizFlower.Some? ==> quizFlower.value in flowers)
    }

    /** The state first set up (flower_app.py:180-181, 199-202): nothing drawn, answer hidden. */
    constructor (flowers: seq<Row>)
      ensures Valid()
      ensures this.flowers == flowers
      ensures randomFlower == None && quizFlower == None && !showAnswer
    {
      this.flowers := flowers;
      randomFlower := None;
      quizFlower := None;
      showAnswer := false;
    }

    /** The "花を引く" button (flower_app.py:182-183). `random.choice` raises
        IndexError on an empty list: then `ok` is false and nothing changes. */
    method DrawRandom(choice: nat) returns (ok: bool)
      requires Valid()
      requires flowers == [] || choice < |flowers|
      modifies this
      ensures Valid()
      ensures ok <==> flowers != []
      ensures ok ==> randomFlower == Some(flowers[choice])
      ensures !ok ==> randomFlower == old(randomFlower)
      ensures quizFlower == old(quizFlower) && showAnswer == old(showAnswer)
    {
      if |flowers| == 0 {
        return false;
      }
      randomFlower := Some(flowers[choice]);
      ok := true;
    }

    /** `next_question` (flower_app.py:203-205): a new quiz flower, answer hidden. */
    method NextQuestion(choice: nat) returns (ok: bool)
      requires Valid()
      requires flowers == [] || choice < |flowers|
      modifies this
      ensures Valid()
      ensures ok <==> flowers != []
      ensures ok ==> quizFlower == Some(flowers[choice]) && !showAnswer
      ensures !ok ==> quizFlower == old(quizFlower) && showAnswer == old(showAnswer)
      ensures randomFlower == old(randomFlower)
    {
      if |flowers| == 0 {
        return false;
      }
      quizFlower := Some(flowers[choice]);
      showAnswer := false;
      ok := true;
    }

    /** `open_answer` (flower_app.py:206-207): reveal the answer. */
    method OpenAnswer()
      requires Valid()
      modifies this
      ensures Valid()
      ensures showAnswer
      ensures quizFlower == old(quizFlower) && randomFlower == old(randomFlower)
    {
      showAnswer := true;
    }

    /** Each run of the quiz page first draws a question if there is none
        (flower_app.py:208-209); afterwards there is a question unless there
        are no flowers. */
    method EnsureQuestion(choice: nat) returns (ok: bool)
      requires Valid()
      requires flowers == [] || choice < |flowers|
      modifies this
      ensures Valid()
      ensures ok <==> quizFlower.Some?
      ensures ok <==> old(quizFlower).Some? || flowers != []
      ensures old(quizFlower).Some? ==> quizFlower == old(quizFlower) && showAnswer == old(showAnswer)
      ensures old(quizFlower).None? && flowers != [] ==> quizFlower == Some(flowers[choice]) && !showAnswer
      // with no question and no flowers nothing changes
      ensures !ok ==> quizFlower == old(quizFlower) && showAnswer == old(showAnswer)
      ensures randomFlower == old(randomFlower)
    {
      if quizFlower.None? {
        ok := NextQuestion(choice);
      } else {
        ok := true;
      }
    }
  }
}
