/** Recorded and replayed requests, as far as replay and comparison look at them. */
module Records {
  import opened SideEffectDiff

  type Headers = map<string, seq<string>>

  datatype Response = Response(status: int, headers: Headers, body: string)

  /** error is empty unless a replay failed. */
  datatype Record = Record(
    id: string, sequence: int, error: string, response: Response, sideEffects: seq<SideEffect>)

  const NO_RESPONSE: Response := Response(0, map[], "")
}
