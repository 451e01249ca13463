/** The records shared by the caches, and the flat JSON form in which a cache entry is persisted. */
module AgentTypes {
  import opened Wrappers

  datatype CacheLayer = L1 | L2 | L3

  datatype CacheStatus = FRESH | STALE | INVALIDATED

  datatype CacheEntry = CacheEntry(
    key: string,
    agentId: string,
    capability: string,
    inputHash: string,
    inputSummary: string,
    output: string,
    outputSummary: string,
    fullRef: string,
    confidence: real,
    confidenceDecay: real,
    createdAtMs: int,
    baseTtlSeconds: int,
    status: CacheStatus,
    dependsOn: seq<string>,
    sourceUrls: seq<string>,
    accessCount: int,
    priority: real)

  /** The entry's time to live has run out; at the exact millisecond it has not yet. */
  predicate Expired(e: CacheEntry, now: int) {
    now > e.createdAtMs + e.baseTtlSeconds * 1000
  }

  datatype SessionTurn = SessionTurn(
    callId: string,
    agentId: string,
    capability: string,
    inputSummary: string,
    outputSummary: string,
    cacheKey: string,
    timestampMs: int,
    confidence: real)

  // ---- persisted form ----

  datatype JsonValue = JString(s: string) | JReal(r: real) | JInt(i: int) | JStrings(ss: seq<string>)

  /** The member names of a persisted entry. */
  datatype EntryField =
    | KeyField
    | AgentIdField
    | CapabilityField
    | InputHashField
    | InputSummaryField
    | OutputField
    | OutputSummaryField
    | FullRefField
    | ConfidenceField
    | ConfidenceDecayField
    | CreatedAtMsField
    | BaseTtlSecondsField
    | StatusField
    | DependsOnField
    | SourceUrlsField
    | AccessCountField
    | PriorityField

  type JsonObject = map<EntryField, JsonValue>

  function StatusCode(s: CacheStatus): int {
    match s case FRESH => 0 case STALE => 1 case INVALIDATED => 2
  }

  function StatusOf(code: int): CacheStatus {
    if code == 1 then STALE else if code == 2 then INVALIDATED else FRESH
  }

  function ToJson(e: CacheEntry): JsonObject {
    map[KeyField := JString(e.key),
        AgentIdField := JString(e.agentId),
        CapabilityField := JString(e.capability),
        InputHashField := JString(e.inputHash),
        InputSummaryField := JString(e.inputSummary),
        OutputField := JString(e.output),
        OutputSummaryField := JString(e.outputSummary),
        FullRefField := JString(e.fullRef),
        ConfidenceField := JReal(e.confidence),
        ConfidenceDecayField := JReal(e.confidenceDecay),
        CreatedAtMsField := JInt(e.createdAtMs),
        BaseTtlSecondsField := JInt(e.baseTtlSeconds),
        StatusField := JInt(StatusCode(e.status)),
        DependsOnField := JStrings(e.dependsOn),
        SourceUrlsField := JStrings(e.sourceUrls),
        AccessCountField := JInt(e.accessCount),
        PriorityField := JReal(e.priority)]
  }

  /** Reading a field of the wrong type throws; numbers convert either way, reals by truncation. */
  function StringField(j: JsonObject, name: EntryField): Option<string> {
    if name !in j then Some("") else if j[name].JString? then Some(j[name].s) else None
  }

  function RealField(j: JsonObject, name: EntryField, default: real): Option<real> {
    if name !in j then Some(default)
    else match j[name]
      case JReal(r) => Some(r)
      case JInt(i) => Some(i as real)
      case _ => None
  }

  function IntField(j: JsonObject, name: EntryField, default: int): Option<int> {
    if name !in j then Some(default)
    else match j[name]
      case JInt(i) => Some(i)
      case JReal(r) => Some(if r >= 0.0 then r.Floor else -((-r).Floor))
      case _ => None
  }

  function StringsField(j: JsonObject, name: EntryField): Option<seq<string>> {
    if name !in j then Some([]) else if j[name].JStrings? then Some(j[name].ss) else None
  }

  function FromJson(j: JsonObject): Option<CacheEntry> {
    var key, agentId, capability := StringField(j, KeyField), StringField(j, AgentIdField), StringField(j, CapabilityField);
    var inputHash, inputSummary := StringField(j, InputHashField), StringField(j, InputSummaryField);
    var output, outputSummary := StringField(j, OutputField), StringField(j, OutputSummaryField);
    var fullRef := StringField(j, FullRefField);
    var confidence, decay := RealField(j, ConfidenceField, 0.0), RealField(j, ConfidenceDecayField, 0.02);
    var created, ttl := IntField(j, CreatedAtMsField, 0), IntField(j, BaseTtlSecondsField, 300);
    var status := IntField(j, StatusField, 0);
    var deps, urls := StringsField(j, DependsOnField), StringsField(j, SourceUrlsField);
    var accesses, priority := IntField(j, AccessCountField, 0), RealField(j, PriorityField, 1.0);
    if key.None? || agentId.None? || capability.None? || inputHash.None? || inputSummary.None?
       || output.None? || outputSummary.None? || fullRef.None? || confidence.None? || decay.None?
       || created.None? || ttl.None? || status.None? || deps.None? || urls.None?
       || accesses.None? || priority.None? then None
    else
      Some(CacheEntry(key.value, agentId.value, capability.value, inputHash.value, inputSummary.value,
                      output.value, outputSummary.value, fullRef.value, confidence.value, decay.value,
                      created.value, ttl.value, StatusOf(status.value), deps.value, urls.value,
                      accesses.value, priority.value))
  }

  /** An object without any members reads as the entry with every default. */
  lemma DefaultsOfEmptyObject()
    ensures FromJson(map[]) ==
            Some(CacheEntry("", "", "", "", "", "", "", "", 0.0, 0.02, 0, 300, FRESH, [], [], 0, 1.0))
  {
  }

  /** A persisted entry reads back as itself. */
  lemma JsonRoundTrip(e: CacheEntry)
    ensures FromJson(ToJson(e)) == Some(e)
  {
  }
}
