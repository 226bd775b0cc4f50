/**
  The JSON values that travel between the agent and the server, and the server's
  decoding of an ingest body into an `AgentSnapshot`: an object whose six fields have
  the right shapes, `top_extensions` being an array of `[extension, size, count]`
  triples. Fields the snapshot does not name are ignored.
 */
module Wire {
  import opened Options
  import opened Server

  datatype Json =
    | JNull
    | JBool(b: bool)
    | JNum(n: int)
    | JStr(s: string)
    | JArr(items: seq<Json>)
    | JObj(fields: map<string, Json>)

  /** `Value::get` with a string key: the field of an object, and nothing for any other value. */
  function Get(v: Json, key: string): (r: Option<Json>)
    ensures r.Some? <==> v.JObj? && key in v.fields
  {
    if v.JObj? && key in v.fields then Some(v.fields[key]) else None
  }

  /** `Value::as_str`. */
  function AsStr(v: Json): (r: Option<string>)
    ensures r.Some? <==> v.JStr?
  {
    if v.JStr? then Some(v.s) else None
  }

  /** An unsigned integer (`u64`). */
  function DecodeNat(v: Json): (r: Option<nat>)
    ensures r.Some? <==> v.JNum? && v.n >= 0
  {
    if v.JNum? && v.n >= 0 then Some(v.n) else None
  }

  /** A `(String, u64, u64)` tuple: an array of exactly three elements of those shapes. */
  function DecodeTriple(v: Json): (r: Option<ExtensionTotal>)
    ensures r.Some? ==> v.JArr? && |v.items| == 3
  {
    if v.JArr? && |v.items| == 3 && v.items[0].JStr? then
      match (DecodeNat(v.items[1]), DecodeNat(v.items[2]))
      case (Some(size), Some(count)) => Some(ExtensionTotal(v.items[0].s, size, count))
      case _ => None
    else None
  }

  /** A `Vec` of triples: every element must decode. */
  function DecodeTriples(vs: seq<Json>): (r: Option<seq<ExtensionTotal>>)
    ensures r.Some? <==> forall i :: 0 <= i < |vs| ==> DecodeTriple(vs[i]).Some?
    ensures r.Some? ==> |r.value| == |vs| && forall i :: 0 <= i < |vs| ==> r.value[i] == DecodeTriple(vs[i]).value
  {
    if vs == [] then Some([])
    else
      match (DecodeTriples(vs[..|vs| - 1]), DecodeTriple(vs[|vs| - 1]))
      case (Some(init), Some(t)) => Some(init + [t])
      case _ => None
  }

  /** The deserialised ingest body; `None` is the request the extractor refuses. */
  function DecodeSnapshot(v: Json): (r: Option<AgentSnapshot>)
    ensures !v.JObj? ==> r.None?
    ensures r.Some? ==>
      && Get(v, "agent_id") == Some(JStr(r.value.agentId))
      && Get(v, "timestamp") == Some(JNum(r.value.timestamp))
      && Get(v, "hostname") == Some(JStr(r.value.hostname))
      && v.JObj? && "total_size_bytes" in v.fields && "file_count" in v.fields
      && "top_extensions" in v.fields && v.fields["top_extensions"].JArr?
      && DecodeNat(v.fields["total_size_bytes"]) == Some(r.value.totalSizeBytes)
      && DecodeNat(v.fields["file_count"]) == Some(r.value.fileCount)
      && DecodeTriples(v.fields["top_extensions"].items) == Some(r.value.topExtensions)
  {
    match (Get(v, "agent_id"), Get(v, "timestamp"), Get(v, "hostname"),
           Get(v, "total_size_bytes"), Get(v, "file_count"), Get(v, "top_extensions"))
    case (Some(JStr(agent)), Some(JNum(ts)), Some(JStr(host)), Some(size), Some(files), Some(JArr(exts))) =>
      (match (DecodeNat(size), DecodeNat(files), DecodeTriples(exts))
       case (Some(s), Some(f), Some(es)) => Some(AgentSnapshot(agent, ts, host, s, f, es))
       case _ => None)
    case _ => None
  }
}
