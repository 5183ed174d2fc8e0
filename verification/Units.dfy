/** Source units: derived text, where each run of it comes from, and its inline wrappers. */
module Units {
  import opened Common
  import opened Ranges

  /** A half-open range of the original Markdown. */
  datatype Span = Span(start: nat, end: nat) {
    predicate Valid(markdown: string) {
      start <= end <= |markdown|
    }
  }

  datatype OriginMode = ExactCopy | CanonicalTransformation | Formatting

  datatype Origin = Origin(block: Id, span: Span)

  datatype MappingRun = MappingRun(range: TextRange, mode: OriginMode, origins: seq<Origin>)

  datatype UnitField = InlineField(childPath: seq<nat>) | CodeInfo | ListMarker | QuoteAlert | FootnoteLabel

  datatype SourceUnit = SourceUnit(
    block: Id, field: UnitField, primary: bool, text: string,
    mappings: seq<MappingRun>, envelopes: seq<Envelope>)

  /** A part of one unit's text. */
  datatype Contribution = Contribution(unit: nat, range: TextRange)

  predicate InBounds(range: TextRange, text: string) {
    range.start <= range.end <= |text|
  }

  function Slice(text: string, range: TextRange): string
    requires InBounds(range, text)
  {
    text[range.start..range.end]
  }
}
