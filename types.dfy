/** Data shapes shared by the game: the story step, the achievement record and the difficulty tier. */
module Types {

  /** Stands for a value that may be absent (`null` or `undefined` in the game's code). */
  datatype Option<T> = None | Some(value: T)

  /** The difficulty tier the player picks on the start screen. */
  datatype Difficulty = Easy | Medium | Hard

  /** One step of the story as the story service returns it; no choices means the story has ended.
      The correct answer is an integer here: non-integer answers are not part of this model. */
  datatype GameStep = GameStep(story: string, problem: string, correctAnswer: int, choices: seq<string>)

  /** A milestone with display metadata and its locked/unlocked flag. */
  datatype Achievement = Achievement(id: string, name: string, description: string, unlocked: bool, icon: string)
}
