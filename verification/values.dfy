/** Cell values and key-value records shared by every part of the model. */
module Values {

  /** The conventional optional value. */
  datatype Option<+T> = None | Some(value: T)

  /** Why an operation of the model gave up instead of returning a value. */
  datatype Error =
    | TypeError      // an arithmetic operator was applied to a non-number
    | NoHeaders      // a spreadsheet without a single non-empty header cell

  /** A value or the error that stopped the computation; usable with `:-`. */
  datatype Result<+T> = Ok(value: T) | Err(error: Error) {

    predicate IsFailure() {
      Err?
    }

    function PropagateFailure<U>(): Result<U>
      requires Err?
    {
      Err(error)
    }

    function Extract(): T
      requires Ok?
    {
      value
    }
  }

  /** A cell of a line item. Python's `int` and `float` both become `Num`;
      JSON `null` becomes `Null`. */
  datatype Value = Num(x: real) | Text(s: string) | Null

  /** One line item: a mapping from field name to value. */
  type Record = map<string, Value>

  /** Python truthiness of a cell value. */
  predicate Truthy(v: Value)
  {
    match v
    case Num(x) => x != 0.0
    case Text(s) => s != ""
    case Null => false
  }

  /** What field `f` of `row` adds to a sum: its value when it is a number,
      0 when it is missing or not a number. */
  function Contribution(row: Record, f: string): real
  {
    if f in row && row[f].Num? then row[f].x else 0.0
  }
}
