/** Game pieces, kept abstract: the engine only ever reads a piece's block
    pattern, a small grid of ints where 0 is an empty cell and a positive
    value is the piece's colour index. The catalogue of shapes and the
    rotation maths live in GamePiece, which is not part of this model. */
module Pieces {

  /** The engine holds no piece before the game starts (a null reference in
      the source). */
  datatype Option<T> = None | Some(value: T)

  /** `blocks[px][py]` is the pattern cell in column px, row py. */
  datatype Piece = Piece(blocks: seq<seq<int>>)

  /** The pattern has at least one non-empty cell. */
  predicate HasBlock(p: Piece) {
    exists px, py :: 0 <= px < |p.blocks| && 0 <= py < |p.blocks[px]| && p.blocks[px][py] != 0
  }
}
