/** Failure-compatible result type and the error taxonomy of the statement
    engine. Every operation that throws in JSFreeDB returns `Err` here. */
module Wrappers {

  datatype Option<+T> = None | Some(value: T)

  /** The errors the engine can raise, one constructor per distinct throw site. */
  datatype Error =
    // configuration errors (row.ts validate, stmt.ts update)
    | NoColumns
    | TooManyColumns(max: nat)
    | EmptyColToValue
    | UnknownColumn(col: string)
    // binding errors (query.ts)
    | ArityMismatch(placeholders: nat, provided: nat)
    | UnsupportedArgType
    // numeric-safety and escaping errors (values.ts, stmt.ts)
    | UnsafeInteger
    | FormulaNotString(col: string)
    // Insert row shape errors (stmt.ts)
    | RowIsNull
    | RowNotObject
    | RowReflection
    // protocol-shape errors (stmt.ts)
    | RowIndexShape
    | RowIndexType
    | CountShape
    | CountType
    // result decoding errors (wrapper.ts)
    | UnsupportedCellType(colType: string)
    | MissingColumnMetadata
    | NoOpeningBrace
    | NoClosingBrace
    // codec errors (basic.ts)
    | EmptyData
    | MalformedData
    | NotAString
    // domain error (kv.ts)
    | KeyNotFound
    // a failure reported by the transport collaborator, propagated unchanged
    | Transport(message: string)

  datatype Result<+T> = Ok(value: T) | Err(error: Error) {

    predicate IsFailure() {
      Err?
    }

    function PropagateFailure<U>(): Result<U>
      requires Err?
    {
      Err(error)
    }

    function Extract(): T
      requires Ok?
    {
      value
    }
  }
}
