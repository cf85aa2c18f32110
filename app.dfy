/** The game session: the screen the player is on, the current story step, the answer and its
    feedback, the statistics and the achievement list, updated by the event handlers of the app. */
module App {
  import opened Types
  import opened Achievements

  /** The screen the app shows. */
  datatype GameState = Start | Playing | Loading | GameOver | Error

  /** How a request to the story service ends: a step, or a thrown value, carrying its message
      when it is an `Error` and nothing otherwise. */
  datatype StepOutcome = Step(step: GameStep) | Failure(message: Option<string>)

  /** The arguments of a request to the story service: the player's choice (none for the opening
      scene) and the difficulty tier. */
  datatype StepRequest = StepRequest(choice: Option<string>, difficulty: Difficulty)

  const UNKNOWN_ERROR := "An unknown error occurred."
  const CORRECT_FEEDBACK := "Correct! The path is clear."
  const INCORRECT_FEEDBACK := "Not quite! Try another calculation."

  /** The message shown for a failed request. */
  function ErrorMessage(message: Option<string>): string {
    match message
    case Some(m) => m
    case None => UNKNOWN_ERROR
  }

  /** The achievement list after a qualifying event: the engine's result merged by id, or the list
      unchanged when the engine returns nothing. */
  function EventAchievements(newStats: Stats, list: seq<Achievement>): (after: seq<Achievement>)
    requires CatalogShaped(list)
    ensures CatalogShaped(after) && AtMostOneNewUnlock(list, after)
    ensures CheckAchievements(newStats, list).Some? ==> UnlockedCount(after) == UnlockedCount(list) + 1
    ensures CheckAchievements(newStats, list).None? ==> after == list
  {
    EvaluateAndMerge(newStats, list);
    match CheckAchievements(newStats, list)
    case None => list
    case Some(a) => Merge(list, a.id)
  }

  /** The notification after a qualifying event: the engine's result when there is one, the
      previous notification otherwise. */
  function EventNotification(newStats: Stats, list: seq<Achievement>, shown: Option<Achievement>): (r: Option<Achievement>)
    ensures CheckAchievements(newStats, list).Some? ==> r == CheckAchievements(newStats, list)
    ensures CheckAchievements(newStats, list).None? ==> r == shown
    ensures (shown.Some? ==> shown.value.unlocked) ==> (r.Some? ==> r.value.unlocked)
  {
    match CheckAchievements(newStats, list)
    case None => shown
    case Some(a) => Some(a)
  }

  class Game {
    var gameState: GameState
    var currentStep: Option<GameStep>
    var error: Option<string>
    /** The typed answer as the integer reading of the text field gives it; nothing when the text
        (the empty text included) does not read as an integer. */
    var userAnswer: Option<int>
    var feedback: string
    var isProblemSolved: bool
    var isChoicesLoading: bool
    var difficulty: Difficulty
    var achievements: seq<Achievement>
    /** The achievement the unlock notification shows, if any. */
    var unlockedAchievement: Option<Achievement>
    var stats: Stats

    /** The achievement list is always the catalog with some entries unlocked, and the notification
        shows an unlocked entry of that list. */
    predicate Valid()
      reads this
    {
      && CatalogShaped(achievements)
      && (unlockedAchievement.Some? ==> unlockedAchievement.value.unlocked && unlockedAchievement.value in achievements)
    }

    /** The initial state: start screen, medium difficulty, empty counters and the locked catalog. */
    constructor ()
      ensures Valid()
      ensures gameState == Start && currentStep == None && error == None
      ensures userAnswer == None && feedback == "" && !isProblemSolved && !isChoicesLoading
      ensures difficulty == Medium
      ensures achievements == AllAchievements() && unlockedAchievement == None
      ensures stats == Stats(0, 0)
    {
      gameState := Start;
      currentStep := None;
      error := None;
      userAnswer := None;
      feedback := "";
      isProblemSolved := false;
      isChoicesLoading := false;
      difficulty := Medium;
      achievements := AllAchievements();
      unlockedAchievement := None;
      stats := Stats(0, 0);
    }

    /** Records new statistics, evaluates the rule engine on them and the current list, and merges
        its result by id, showing the notification for it. */
    method Award(newStats: Stats)
      requires Valid()
      modifies this`stats, this`achievements, this`unlockedAchievement
      ensures Valid()
      ensures stats == newStats
      ensures achievements == EventAchievements(newStats, old(achievements))
      ensures unlockedAchievement == EventNotification(newStats, old(achievements), old(unlockedAchievement))
    {
      stats := newStats;
      var newlyUnlocked := CheckAchievements(newStats, achievements);
      if newlyUnlocked.Some? {
        EvaluateAndMerge(newStats, achievements);
        unlockedAchievement := newlyUnlocked;
        achievements := Merge(achievements, newlyUnlocked.value.id);
      }
    }

    /** The start button: show the loading screen, clear the error, remember the difficulty, and
        ask the story service for the opening scene. */
    method HandleStart(selectedDifficulty: Difficulty) returns (request: StepRequest)
      requires Valid()
      modifies this`gameState, this`error, this`difficulty
      ensures Valid()
      ensures gameState == Loading && error == None && difficulty == selectedDifficulty
      ensures request == StepRequest(None, selectedDifficulty)
    {
      gameState := Loading;
      error := None;
      difficulty := selectedDifficulty;
      request := StepRequest(None, selectedDifficulty);
    }

    /** The opening scene arrives: a step is shown on the playing screen, a failure on the error
        screen with its message. */
    method StartResolved(outcome: StepOutcome)
      requires Valid()
      modifies this`currentStep, this`gameState, this`error
      ensures Valid()
      ensures outcome.Step? ==> currentStep == Some(outcome.step) && gameState == Playing && error == old(error)
      ensures outcome.Failure? ==> && currentStep == old(currentStep) && gameState == Error
                                   && error == Some(ErrorMessage(outcome.message))
    {
      match outcome {
        case Step(step) =>
          currentStep := Some(step);
          gameState := Playing;
        case Failure(message) =>
          error := Some(ErrorMessage(message));
          gameState := Error;
      }
    }

    /** The restart button after a finished quest: back to the start screen with everything of the
        quest cleared, one more quest counted, and the rule engine evaluated. */
    method HandleRestart()
      requires Valid()
      modifies this`currentStep, this`userAnswer, this`feedback, this`isProblemSolved, this`error,
               this`gameState, this`stats, this`achievements, this`unlockedAchievement
      ensures Valid()
      ensures currentStep == None && userAnswer == None && feedback == "" && !isProblemSolved
      ensures error == None && gameState == Start
      ensures stats == Stats(old(stats).problemsSolved, old(stats).questsCompleted + 1)
      ensures achievements == EventAchievements(stats, old(achievements))
      ensures unlockedAchievement == EventNotification(stats, old(achievements), old(unlockedAchievement))
    {
      currentStep := None;
      userAnswer := None;
      feedback := "";
      isProblemSolved := false;
      error := None;
      gameState := Start;
      Award(Stats(stats.problemsSolved, stats.questsCompleted + 1));
    }

    /** There is a current step and the typed answer reads as its correct answer. */
    predicate AnswerIsCorrect()
      reads this
    {
      currentStep.Some? && userAnswer == Some(currentStep.value.correctAnswer)
    }

    /** Typing in the answer field. */
    method SetUserAnswer(answer: Option<int>)
      requires Valid()
      modifies this`userAnswer
      ensures Valid() && userAnswer == answer
    {
      userAnswer := answer;
    }

    /** Submitting an answer: nothing without a current step; a correct answer marks the puzzle
        solved, counts it and evaluates the rule engine; a wrong one only changes the feedback. */
    method HandleAnswerSubmit()
      requires Valid()
      modifies this`feedback, this`isProblemSolved, this`stats, this`achievements, this`unlockedAchievement
      ensures Valid()
      ensures currentStep.None? ==> && feedback == old(feedback) && isProblemSolved == old(isProblemSolved)
                                    && stats == old(stats) && achievements == old(achievements)
                                    && unlockedAchievement == old(unlockedAchievement)
      ensures AnswerIsCorrect() ==> && feedback == CORRECT_FEEDBACK && isProblemSolved
                                    && stats == Stats(old(stats).problemsSolved + 1, old(stats).questsCompleted)
                                    && achievements == EventAchievements(stats, old(achievements))
                                    && unlockedAchievement == EventNotification(stats, old(achievements), old(unlockedAchievement))
      ensures currentStep.Some? && !AnswerIsCorrect() ==>
                && feedback == INCORRECT_FEEDBACK && isProblemSolved == old(isProblemSolved)
                && stats == old(stats) && achievements == old(achievements)
                && unlockedAchievement == old(unlockedAchievement)
    {
      if currentStep.None? {
        return;
      }
      if AnswerIsCorrect() {
        feedback := CORRECT_FEEDBACK;
        isProblemSolved := true;
        Award(Stats(stats.problemsSolved + 1, stats.questsCompleted));
      } else {
        feedback := INCORRECT_FEEDBACK;
      }
    }

    /** Picking a choice: clear the answer and feedback, show the choices as loading, and ask the
        story service for the next step with the remembered difficulty. */
    method HandleChoiceSelect(choice: string) returns (request: StepRequest)
      requires Valid()
      modifies this`isChoicesLoading, this`userAnswer, this`feedback, this`isProblemSolved
      ensures Valid()
      ensures isChoicesLoading && userAnswer == None && feedback == "" && !isProblemSolved
      ensures request == StepRequest(Some(choice), difficulty)
    {
      isChoicesLoading := true;
      userAnswer := None;
      feedback := "";
      isProblemSolved := false;
      request := StepRequest(Some(choice), difficulty);
    }

    /** The next step arrives: a step without choices ends the quest, any other step is played, a
        failure goes to the error screen; in every case the choices stop loading. */
    method ChoiceResolved(outcome: StepOutcome)
      requires Valid()
      modifies this`currentStep, this`gameState, this`error, this`isChoicesLoading
      ensures Valid()
      ensures !isChoicesLoading
      ensures outcome.Step? ==> && currentStep == Some(outcome.step) && error == old(error)
                                && gameState == (if outcome.step.choices == [] then GameOver else Playing)
      ensures outcome.Failure? ==> && currentStep == old(currentStep) && gameState == Error
                                   && error == Some(ErrorMessage(outcome.message))
    {
      match outcome {
        case Step(step) =>
          currentStep := Some(step);
          if |step.choices| == 0 {
            gameState := GameOver;
          } else {
            gameState := Playing;
          }
        case Failure(message) =>
          error := Some(ErrorMessage(message));
          gameState := Error;
      }
      isChoicesLoading := false;
    }

    /** The timer callback that hides the unlock notification. */
    method DismissNotification()
      requires Valid()
      modifies this`unlockedAchievement
      ensures Valid() && unlockedAchievement == None
    {
      unlockedAchievement := None;
    }
  }

  /** A session from the start screen to the first correct answer: the notification shows
      `first_step`, the first catalog entry, and one puzzle is counted. */
  method FirstPuzzleScenario(step: GameStep) returns (shown: Option<Achievement>, solved: nat, state: GameState)
    ensures shown == Some(AllAchievements()[0].(unlocked := true))
    ensures solved == 1 && state == Playing
  {
    var game := new Game();
    var request := game.HandleStart(Hard);
    assert request == StepRequest(None, Hard);
    game.StartResolved(Step(step));
    game.SetUserAnswer(Some(step.correctAnswer));
    assert game.achievements == AllAchievements() && game.stats == Stats(0, 0) && game.currentStep == Some(step);
    assert game.AnswerIsCorrect();
    ghost var before := game.achievements;
    game.HandleAnswerSubmit();
    assert game.AnswerIsCorrect();
    SolvedOnCatalog(game.stats);
    assert game.unlockedAchievement == CheckAchievements(game.stats, before);
    shown, solved, state := game.unlockedAchievement, game.stats.problemsSolved, game.gameState;
  }
}
