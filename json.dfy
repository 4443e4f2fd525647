/**
 * The in-memory JSON values that `json.load` produces and `json.dump`
 * consumes in the `.nerf` codec. Floating-point numbers are not modelled.
 */
module Json {

  datatype Json =
    | JNull
    | JBool(b: bool)
    | JInt(i: int)
    | JStr(s: string)
    | JArr(items: seq<Json>)
    | JObj(fields: map<string, Json>)
}
