/** The game's exceptions, and the Option/Result wrappers every operation returns. */
module Outcomes {

  /** What a validation error points at (the text of the exception's message). */
  datatype DataIssue =
    | MissingField(field: string)
    | NotInteger(field: string)
    | NotList(field: string)
    | MalformedLine
    | UnknownItemType
    | EmptyContent

  /** One constructor per exception class the core raises. ValueError, TypeError and
      EndOfInput stand for Python's built-in ValueError, TypeError and EOFError. */
  datatype GameError =
    | InvalidTarget
    | CombatNotActive
    | CharacterDead
    | InvalidCharacterClass
    | InvalidSaveData(issue: DataIssue)
    | InvalidDataFormat(issue: DataIssue)
    | QuestNotFound
    | QuestRequirementsNotMet
    | QuestAlreadyCompleted
    | QuestNotActive
    | InsufficientLevel
    | InventoryFull
    | ItemNotFound
    | InsufficientResources
    | InvalidItemType
    | ValueError
    | TypeError
    | EndOfInput

  datatype Option<+T> = None | Some(value: T)

  datatype Result<+T> = Ok(value: T) | Err(error: GameError)
}
