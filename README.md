# Aethelgard's Echoes: achievement engine and game session

This project models the logic of a browser adventure game. The game interleaves a branching story
with multiplication puzzles. The model has two parts:

- **The achievement rule engine** (`services/achievements.ts`), in module `Achievements`. A fixed
  catalog of five achievements, all locked, is walked through a priority table of five threshold
  rules. The rules are: `first_step` at 1 solved puzzle, `arithmancer_apprentice` at 5,
  `master_multiplier` at 15, `quest_complete` at 1 completed quest and `seasoned_explorer` at 3.
  For each rule in order, the engine looks up the first entry of the current list with the rule's
  id. It returns an unlocked copy of the first entry that is present, locked and whose threshold is
  met. Otherwise it returns nothing. The engine is a recursive function over the rule table.
  Lemmas state its priority order, completeness, idempotence, first-occurrence lookup and the
  concrete scenarios.
- **The game session** (`App.tsx`), in module `App`. Class `Game` has the state fields of the
  app's component. It has one method per event handler: start, restart, answer submission and
  choice selection, plus typing the answer and hiding the notification. The story service is
  asynchronous, so each handler that waits on it is split into two methods. `HandleStart` and
  `HandleChoiceSelect` make the state changes up to the request and return the `StepRequest`
  that would be sent. `StartResolved` and `ChoiceResolved` receive the outcome, a step or a failure,
  and make the state changes after it. After restart or a correct answer, the engine runs and
  its result is merged into the list by id. `EventAchievements` and `EventNotification` describe
  that effect. The class invariant `Valid` keeps the list equal to the catalog with only unlocked
  flags changed. Every handler's contract says that the list keeps its length, order and metadata,
  that no entry is locked again, and that at most one entry is unlocked per event.

Module `Types` holds the data shapes of `types.ts`.

Modelling choices:

- Each rule is the pair of a counter and a threshold (`Rule`). `Holds` evaluates it against the
  statistics. The source builds the table for each call with the conditions already evaluated.
  The two are equivalent.
- The typed answer is an `Option<int>`: the integer reading of the text field, or nothing when
  the text does not read as one. Nothing never equals the correct answer, and neither does the
  reading of an empty field in the source.
- The thrown value of a failed request is `Failure(Some(message))` for an `Error` and
  `Failure(None)` otherwise. `None` is shown as "An unknown error occurred."
- Datatype values are immutable, so the engine cannot modify its input list. Its
  result is a new value.
- The first step of a session goes to `playing` even when it has no choices. Only a step that
  follows a choice can end the game (`App.tsx:39-40` against `App.tsx:98-103`). The model keeps
  this.
- With no puzzle solved, the locked catalog gives `quest_complete` as soon as one quest has been
  completed (services/achievements.ts:52), and nothing at zero quests. `ZeroSolvedOnCatalog`
  states both cases.

## Model

| member | source | states |
|---|---|---|
| `Achievements.AllAchievements` | services/achievements.ts:4-40 | the catalog has five entries with pairwise distinct ids, all locked |
| `Achievements.CheckList` | services/achievements.ts:48-54 | the priority table has five rules and every threshold needs at least one event |
| `Achievements.Holds` | services/achievements.ts:49-53 | a rule's condition: the counter it names has reached its threshold |
| `Achievements.HoldsMonotone` | services/achievements.ts:49-53 | a condition that holds keeps holding as the counters grow |
| `Achievements.CheckListShape` | services/achievements.ts:48-54 | one rule per catalog entry, in catalog order; thresholds on the same counter rise with table position; every threshold is at least 1 |
| `Achievements.RuleConditions` | services/achievements.ts:48-54 | the five conditions in priority order are solved >= 1, 5 and 15, then quests >= 1 and 3 |
| `Achievements.RuleIdsDistinct` | services/achievements.ts:48-54 | the rule ids of the table are pairwise distinct |
| `Achievements.FirstIndexOf` | services/achievements.ts:57 | the index returned holds the id and no earlier entry does; no index only when no entry has the id |
| `Achievements.Find` | services/achievements.ts:57 | a found entry has the id and belongs to the list; nothing is found exactly when no entry has the id |
| `Achievements.FindFirst` | services/achievements.ts:57 | the lookup returns the first entry with the id, whatever follows it |
| `Achievements.FindInDistinct` | services/achievements.ts:57 | in a list with distinct ids, looking up an entry's id returns that entry |
| `Achievements.Fires` | services/achievements.ts:57-58 | a rule is eligible when the first entry with its id is present and locked and its condition holds |
| `Achievements.FiresMeans` | services/achievements.ts:57-58 | an eligible rule has its condition true and a locked entry with its id; a rule whose condition holds, whose id occurs, and all of whose entries are locked is eligible |
| `Achievements.CheckFrom` | services/achievements.ts:56-63 | over any suffix of the table: nothing exactly when no rule is eligible; a result comes from an eligible rule with its id, is unlocked, and equals the first entry with its id with only `unlocked` changed from false |
| `Achievements.CheckAchievements` | services/achievements.ts:47-64 | a result is unlocked, equals the first list entry with its id except that this entry was locked, and has a rule whose threshold is met; nothing exactly when no rule has a present, locked entry with its condition true |
| `Achievements.FirstFiring` | services/achievements.ts:56-61 | when some rule is eligible there is a first eligible one |
| `Achievements.Priority` | services/achievements.ts:56-60 | when the result has the id of rule k, rule k is eligible and no earlier rule is |
| `Achievements.FirstEligibleWinsFrom` | services/achievements.ts:56-60 | the search over any suffix of the table returns the unlocked copy for its first eligible rule |
| `Achievements.FirstEligibleWins` | services/achievements.ts:56-60 | when rule k is the first eligible one, the engine returns the unlocked copy of its entry |
| `Achievements.UnlockedNeverReturned` | services/achievements.ts:58 | an id whose first entry is already unlocked is never returned |
| `Achievements.LaterDuplicatesIgnored` | services/achievements.ts:57 | appending entries whose ids already occur does not change the result |
| `Achievements.FirstIndexOfAppend` | services/achievements.ts:57 | appending to a list that already holds the id does not move its first index |
| `Achievements.FindAppend` | services/achievements.ts:57 | appending entries whose ids already occur does not change any lookup |
| `Achievements.CheckFromDependsOnFind` | services/achievements.ts:56-61 | two lists with the same lookups for every rule id give the same result |
| `Achievements.SolvedOnCatalog` | services/achievements.ts:49 | any positive number of solved puzzles against the locked catalog unlocks `first_step` |
| `Achievements.FifteenSolvedUnlocksFirstStep` | services/achievements.ts:56-60 | fifteen solved puzzles against the locked catalog unlock `first_step`, not `master_multiplier` |
| `Achievements.ThreeQuestsUnlocksQuestComplete` | services/achievements.ts:56-60 | three quests and no puzzles against the locked catalog unlock `quest_complete`, not `seasoned_explorer` |
| `Achievements.FiveSolvedAfterFirstStep` | services/achievements.ts:49-50 | with `first_step` unlocked, five solved puzzles unlock `arithmancer_apprentice` |
| `Achievements.NothingAtZero` | services/achievements.ts:56-63 | both counters at zero unlock nothing, for any list |
| `Achievements.ZeroSolvedOnCatalog` | services/achievements.ts:52 | with no puzzle solved, the catalog gives nothing at zero quests and `quest_complete` from one quest on |
| `Achievements.FirstStepWhenLocked` | services/achievements.ts:49 | with at least one puzzle solved and `first_step` present and locked, `first_step` is returned, however large the counters |
| `Achievements.NothingWhenAllUnlocked` | services/achievements.ts:58 | a list with every entry unlocked gives nothing |
| `Achievements.NothingWhenIdsUnknown` | services/achievements.ts:57-58 | a list whose ids match no rule gives nothing |
| `Achievements.EarlierThresholdsDone` | services/achievements.ts:48-60 | a rule's achievement is returned only once every earlier rule on the same counter has its entry absent or unlocked |
| `Achievements.Merge` | App.tsx:59 | same length and order; entries with the id become unlocked copies, every other entry is kept |
| `Achievements.UnlockedCountUpdate` | App.tsx:59 | replacing one entry changes the unlocked count by the difference of the two flags |
| `Achievements.MergeUnlocksAtMostOne` | App.tsx:79 | over distinct ids the merge locks nothing and unlocks at most one entry, exactly one when the entry was locked |
| `Achievements.NeverSameIdTwice` | services/achievements.ts:56-59 | after merging a result, the same statistics never return that id again |
| `Achievements.CatalogShapedDistinct` | services/achievements.ts:4-40 | a list with the catalog's shape has distinct ids |
| `Achievements.MergeKeepsCatalogShape` | App.tsx:59 | merging keeps the catalog shape |
| `Achievements.EvaluateAndMerge` | App.tsx:56-59 | for a list with the catalog shape, a result merged back keeps the shape, locks nothing, adds exactly one unlock, and the result is an entry of the merged list |
| `App.EventAchievements` | App.tsx:76-79 | after a qualifying event the list keeps the catalog shape and gains at most one unlock, exactly one when the engine returns an achievement; it is unchanged when the engine returns nothing |
| `App.EventNotification` | App.tsx:57-58 | the notification after an event is the engine's result when there is one and the previous notification otherwise; it shows an unlocked entry whenever the previous one did |
| `App.ErrorMessage` | App.tsx:42 | the message shown for a failure: the thrown error's message, or "An unknown error occurred." when the thrown value is not an error; the choice handler (App.tsx:105) uses the same mapping |
| `App.Game.AnswerIsCorrect` | App.tsx:66-68 | there is a current step and the typed answer reads as its correct answer |
| `App.Game.constructor` | App.tsx:17-30 | the start screen, no step or error, empty answer and feedback, medium difficulty, the locked catalog, no notification, both counters zero |
| `App.Game.Award` | App.tsx:56-61 | records the statistics, merges the engine's result by id and shows it; list and notification unchanged when there is none |
| `App.Game.HandleStart` | App.tsx:32-38 | goes to `loading`, clears the error, stores the difficulty and asks for the opening scene with no choice |
| `App.Game.StartResolved` | App.tsx:38-44 | a step goes to `playing` with the step stored; a failure goes to `error` with its message and keeps the step |
| `App.Game.HandleRestart` | App.tsx:47-62 | `start` screen, no step, empty answer and feedback, puzzle unsolved, no error; one more quest, the same puzzles; the list and notification as the event functions give them |
| `App.Game.SetUserAnswer` | App.tsx:20 | stores the typed answer |
| `App.Game.HandleAnswerSubmit` | App.tsx:64-87 | no step: nothing changes. Correct answer: success feedback, puzzle solved, one more puzzle with quests the same, the engine's result merged. Wrong answer: failure feedback only |
| `App.Game.HandleChoiceSelect` | App.tsx:89-96 | choices loading, answer, feedback and solved flag cleared; sends the choice with the stored difficulty |
| `App.Game.ChoiceResolved` | App.tsx:96-109 | a step with no choices goes to `gameover`, any other step to `playing`; a failure goes to `error` with its message; choices stop loading in every case |
| `App.Game.DismissNotification` | App.tsx:60 | the notification is hidden |
| `App.FirstPuzzleScenario` | App.tsx:32-81 | from a new session, start, the opening scene and a correct answer leave the `playing` screen, one solved puzzle and `first_step` shown unlocked |

## Left out

- The story service (services/geminiService.ts) is a network call to a hosted language model. It
  is asynchronous, uses a foreign client library and prompt text. It is replaced by the
  `StepOutcome` parameter of `StartResolved` and `ChoiceResolved`. Validating the reply's
  shape is part of it.
- The text reading of the answer (`parseInt`) is not modelled. The answer arrives already read as
  an optional integer. Non-integer correct answers are not modelled either.
- Audio cues (`audioService`) are side effects of code that is not part of this model.
- The four-second timer that hides the notification is not modelled.
  `DismissNotification` is what its callback does.
- Rendering is not modelled: the JSX, the components and the achievements-modal open flag, which
  only the JSX sets. So is the retry button of the error screen, which calls `HandleStart` again
  with the stored difficulty.
- Interleaving is not modelled. A resolution method can run in any state, as the continuation in
  the source can. The model says nothing about a second request while one is in flight.
- Each handler sees the state left by the previous method. The stale component closure that the
  source's handlers read is not modelled.
