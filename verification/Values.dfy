/** The values a record can hold, and the two conversions of the host language they go through. */
module Values {
  import opened Numbers

  datatype Option<+T> = None | Some(value: T)

  /** A stored JSON value. `undefined` is a key that is absent from its record. */
  datatype Val =
    | Null
    | Flag(b: bool)
    | Number(n: Num)
    | Text(s: string)
    | List(items: seq<Val>)
    | Obj(fields: Record)

  type Record = map<string, Val>

  /**
   How the host turns a text, a list or an object into a number, and any value into a text.
   Every definition takes them as a parameter, so all results hold for whatever they compute.
   */
  datatype Host = Host(number: Val -> Num, text: Val -> string)

  /** `Number(v)`. */
  function ToNum(h: Host, v: Val): Num {
    match v
    case Null => ZERO
    case Flag(b) => if b then ONE else ZERO
    case Number(n) => n
    case _ => h.number(v)
  }

  function Lookup(vals: Record, code: string): Option<Val> {
    if code in vals then Some(vals[code]) else None
  }

  /** `null`, `undefined` and the empty string. */
  predicate IsBlank(v: Option<Val>) {
    v.None? || v.value == Null || v.value == Text("")
  }

  const EMPTY := Text("")
}
