/**
  The error values of the solver. The Rust source returns `Err(String)` with a
  formatted message; each message becomes one constructor carrying the values
  the message interpolates.
*/
module Errors {

  datatype Error =
    // src/board/board.rs
    | InvalidMoveString(text: string)
    | InvalidDieValue(value: int)
    | InvalidDieCharacter(c: char)
    | BinaryLength(length: nat)
    | InvalidBinaryCharacter(c: char)
    | IllegalPlacement(row: nat, col: nat)
    // src/tree/tree.rs
    | LegalMovesOfRollNode
    | MoveOnRollNode
    | RollsOnMoveNode
    // src/solver/solver.rs
    | OutcomeInProgress
    | NoMoveToChoose
}
