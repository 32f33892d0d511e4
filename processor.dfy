/**
 * The two processor-side types a converter touches: the per-column holder of
 * the converter's configuration, and the caller-owned parse-error record.
 */
module Processor {

  /**
   * Per-column information, reduced to what a converter reads from it: the
   * configuration object its converter built once for this column.
   */
  datatype ColumnInfo<C> = ColumnInfo(configInfo: C)

  /** The kinds of parse error a conversion can record. */
  datatype ErrorType = NoError | InvalidFormat | RequiredField

  /**
   * The mutable error record a caller passes into a conversion; a conversion
   * records a problem by setting its fields.
   */
  class ParseError {
    var errorType: ErrorType
    var linePos: int

    /** setErrorType: changes the error kind and nothing else. */
    method SetErrorType(t: ErrorType)
      modifies this
      ensures errorType == t
      ensures linePos == old(linePos)
    {
      errorType := t;
    }

    /** setLinePos: changes the recorded character position and nothing else. */
    method SetLinePos(pos: int)
      modifies this
      ensures linePos == pos
      ensures errorType == old(errorType)
    {
      linePos := pos;
    }
  }
}
