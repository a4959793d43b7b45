/** Alias text: lower-case labels, each followed by a value. */
module Alias {
  datatype Piece = Piece(tag: string, value: string)

  function Print(pieces: seq<Piece>): string {
    if pieces == [] then "" else pieces[0].tag + pieces[0].value + Print(pieces[1..])
  }
}
