/**
 * The per-URL snapshot as it sits in the state mapping: `parse_snapshot` decides
 * whether a stored entry is usable, and the watch loop writes entries of the
 * shape built by `Entry`.  The state file itself (JSON text on disk) is not
 * modelled; the mapping is the decoded document.
 */
module Store {
  import opened Wrappers

  /** A decoded JSON value. */
  datatype Json =
    | JNull
    | JBool(b: bool)
    | JInt(i: int)
    | JFloat(f: real)
    | JString(s: string)
    | JArray(items: seq<Json>)
    | JObject(fields: map<string, Json>)

  /** The last observation of one URL. */
  datatype Snapshot = Snapshot(url: string, hash: string, text: string, updated: int)

  /** `d.get(key, default)`. */
  function Get(d: map<string, Json>, key: string, default: Json): Json
  {
    if key in d then d[key] else default
  }

  /** The integer a value counts as under `isinstance(u, int)`, or 0: Python's
      booleans are integers, so `true` counts as 1 and `false` as 0. */
  function AsInt(u: Json): int
  {
    match u
    case JInt(i) => i
    case JBool(b) => if b then 1 else 0
    case _ => 0
  }

  /** `parse_snapshot(raw, url)`. */
  function ParseSnapshot(raw: map<string, Json>, url: string): (r: Option<Snapshot>)
    ensures r.None? <==>
      url !in raw || !raw[url].JObject? || "hash" !in raw[url].fields || !raw[url].fields["hash"].JString?
    ensures r.Some? ==> r.value.url == url && r.value.hash == raw[url].fields["hash"].s
    ensures r.Some? ==> (r.value.text ==
      if "text" in raw[url].fields && raw[url].fields["text"].JString? then raw[url].fields["text"].s else "")
    ensures r.Some? ==> (r.value.updated ==
      if "updated" in raw[url].fields && raw[url].fields["updated"].JInt? then raw[url].fields["updated"].i
      else if "updated" in raw[url].fields && raw[url].fields["updated"] == JBool(true) then 1
      else 0)
  {
    var snap := Get(raw, url, JNull);
    if !snap.JObject? then None
    else
      var h := Get(snap.fields, "hash", JNull);
      var t := Get(snap.fields, "text", JString(""));
      var u := Get(snap.fields, "updated", JInt(0));
      if !h.JString? then None
      else Some(Snapshot(url, h.s, if t.JString? then t.s else "", AsInt(u)))
  }

  /** The entry the watch loop stores for a URL: `{"hash": h, "text": text, "updated": now}`. */
  function Entry(h: string, text: string, now: int): Json
  {
    JObject(map["hash" := JString(h), "text" := JString(text), "updated" := JInt(now)])
  }

  /** An entry written by the watch loop reads back as the snapshot it records. */
  lemma EntryRoundTrip(raw: map<string, Json>, url: string, h: string, text: string, now: int)
    ensures ParseSnapshot(raw[url := Entry(h, text, now)], url) == Some(Snapshot(url, h, text, now))
  {
  }

  /** Entries stored under other URLs do not affect the snapshot of `url`. */
  lemma OtherEntriesIrrelevant(raw: map<string, Json>, url: string, other: string, v: Json)
    requires other != url
    ensures ParseSnapshot(raw[other := v], url) == ParseSnapshot(raw, url)
  {
  }
}
