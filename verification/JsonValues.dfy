/** Parsed JSON, as Python's json module hands it out. */
module JsonValues {
  import opened Wrappers

  /** mantissa * 2^exponent. */
  datatype Dyadic = Dyadic(mantissa: int, exponent: int)

  function Pow2(n: nat): nat {
    if n == 0 then 1 else 2 * Pow2(n - 1)
  }

  /** A finite IEEE 754 double in lowest terms, so that 1.0 is Dyadic(1, 0) and every double is written in
      one way: an odd mantissa of at most 53 bits, an exponent from -1074 on, a value below 2^1024. */
  predicate IsDouble(d: Dyadic) {
    var size: nat := if d.mantissa < 0 then -d.mantissa else d.mantissa;
    || d == Dyadic(0, 0)
    || (size % 2 == 1 && size < 0x20_0000_0000_0000 && -1074 <= d.exponent <= 1023
        && (d.exponent > 971 ==> size < Pow2(1024 - d.exponent)))
  }

  type Double = d: Dyadic | IsDouble(d) witness Dyadic(0, 0)

  /** A parsed JSON value. */
  datatype Json =
    | Null
    | Bool(b: bool)
    | Int(n: int)
    | Float(d: Double)
    | Str(s: string)
    | Arr(items: seq<Json>)
    | Obj(fields: map<string, Json>)

  function Field(j: Json, name: string): Json
    requires j.Obj?
  {
    if name in j.fields then j.fields[name] else Null
  }

  /** dict.get on a payload field that must be a string. */
  function StringField(j: Json, name: string): Option<string>
    requires j.Obj?
  {
    var v := Field(j, name);
    if v.Str? then Some(v.s) else None
  }
}
