/** Values the repository's layers hand to each other: an optional value and
    the three-state `Resource` every flow of the application emits. */
module Resources {

  datatype Option<+T> = None | Some(value: T)

  /** The tagged result a flow emits: `Loading` before the work, then one
      terminal `Success` carrying data or `Error` carrying a message. */
  datatype Resource<+T> = Loading | Success(data: T) | Error(message: string)
  {
    predicate IsTerminal() { !Loading? }
  }
}
