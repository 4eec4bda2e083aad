/**
 * The application payload: the value tree that encoding/json builds when a queue
 * message body is decoded into a Go `any`. The consumer never looks inside it; it
 * only passes it on, unchanged, to the integrity function and to the chosen worker.
 */
module Payload {

  datatype Json =
    | Null
    | Bool(b: bool)
    | Number(n: real)
    | String(s: string)
    | Array(elems: seq<Json>)
    | Object(members: map<string, Json>)
}
