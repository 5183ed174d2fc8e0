/** Values that every module of the model shares. */
module Common {

  /** An opaque identifier. Only equality and a total order are used. */
  type Id = nat

  datatype Option<+T> = None | Some(value: T)

  /** What kind of block a part of a document is. */
  datatype BlockType =
    | Heading | Paragraph | List | ListItem | Code | Table | TableHead | TableRow | TableCell | BlockQuote
    | FootnoteDefinition | ThematicBreak | Html | Metadata | DefinitionList | DefinitionTerm
    | DefinitionDescription | ReferenceDefinition | Raw

  /** Why an operation refused; the wording of the messages is not modelled. */
  datatype Error =
    | Structure            // a chunk's context or structure cannot be represented
    | Oversized(unit: nat) // a unit does not fit the maximum with its context
    | InvalidChunks        // coverage or preparation does not replay
    | InvalidMapping       // a unit does not map back to its source
    | InlineBlock          // a block inside an inline container
    | Ineligible           // an input the grouping refuses
    | Collision            // equal hashes over different bytes
    | Counter(code: nat)   // the token counter failed

  datatype Result<+T> = Ok(value: T) | Err(error: Error) {
    predicate IsFailure() {
      Err?
    }

    function PropagateFailure<U>(): Result<U>
      requires Err?
    {
      Err(error)
    }

    function Extract(): T
      requires Ok?
    {
      value
    }
  }

  function Max(a: nat, b: nat): nat {
    if a < b then b else a
  }

  function Min(a: nat, b: nat): nat {
    if a < b then a else b
  }

  /** Where what has no position in the source sorts: after everything. */
  const LastStart: nat := 0xFFFF_FFFF_FFFF_FFFF

  /** `dedup`: the first n elements without any that repeats the one before it. */
  function Dedup<T(==)>(xs: seq<T>, n: nat): seq<T>
    requires n <= |xs|
  {
    if n == 0 then []
    else Dedup(xs, n - 1) + if n > 1 && xs[n - 1] == xs[n - 2] then [] else [xs[n - 1]]
  }

  /** The White_Space property of the Unicode character database. */
  predicate IsWhitespace(c: char) {
    var n := c as int;
    || 0x9 <= n <= 0xD || n == 0x20 || n == 0x85 || n == 0xA0 || n == 0x1680
    || 0x2000 <= n <= 0x200A || n == 0x2028 || n == 0x2029 || n == 0x202F || n == 0x205F || n == 0x3000
  }

  /** Whether nothing is left of a text once trimmed. */
  predicate IsBlank(text: string) {
    forall i :: 0 <= i < |text| ==> IsWhitespace(text[i])
  }
}
