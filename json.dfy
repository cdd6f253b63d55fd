/** The JSON values (`serde_json::Value`) that arguments, retrieved values
    and browser results are made of. Numbers are integers in this model;
    objects are maps from keys to values, as `serde_json::Map` compares them. */
module JsonValues {
  import opened Text

  datatype Json =
    | Null
    | Bool(b: bool)
    | Number(n: int)
    | Str(s: string)
    | Array(items: seq<Json>)
    | Object(fields: map<string, Json>)

  /** `bool::to_string`. */
  function BoolText(b: bool): string
  {
    if b then "true" else "false"
  }

  /** `Number::to_string` for the integer numbers of the model. */
  function NumberText(n: int): string
  {
    IntToString(n)
  }
}
