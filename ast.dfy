/** The shift expression language (fluvio-jolt/src/dsl/ast.rs): left-hand
    sides that match input keys and right-hand sides that name output
    locations. `Rhs` nests inside the contextual `At` variants. Indices and
    levels are `usize` in the source and `nat` here. */
module Ast {

  datatype Lhs =
    | DollarSign(level: nat, index: nat)
    | Amp(level: nat, index: nat)
    | At(level: nat, rhs: Rhs)
    | Square(text: string)
      /** Alternation of globs, `a|b*c`. */
    | Pipes(branches: seq<Stars>)
    | Literal(text: string)

  /** A glob: the literal fragments between its stars; `*` is `["", ""]`. */
  datatype Stars = Stars(fragments: seq<string>)

  /** An output path: the steps taken from the root of the output. */
  datatype Rhs = Rhs(parts: seq<RhsPart>)

  datatype RhsPart =
    | Index(op: IndexOp)
      /** Entries concatenated into one object key, `a-&-b`. */
    | CompositeKey(entries: seq<RhsEntry>)
    | Key(entry: RhsEntry)

  datatype RhsEntry =
    | Amp(level: nat, index: nat)
    | At(level: nat, rhs: Rhs)
    | Key(text: string)

  datatype IndexOp =
    | Amp(level: nat, index: nat)
    | Literal(n: nat)
    | At(level: nat, rhs: Rhs)
      /** `[]`: a new slot at the end of the array. */
    | Empty
}
