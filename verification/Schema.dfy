/** The records that travel from the agent to the hub (internal/schema). */
module Schema {
  import opened Calendar

  datatype Metric = Metric(name: string, hostId: string, labels: map<string, string>, value: real, ts: int)

  /** `body` stands for the attributes, subject and log references, which no
      operation modelled here looks into. */
  datatype Event = Event(
    id: string, ts: Time, hostId: string, source: string, kind: string,
    severity: string, title: string, schemaVersion: int, body: int)

  datatype LogLine = LogLine(
    ts: int, hostId: string, source: string, unit: string, level: string, message: string)

  predicate ValidSeverity(s: string) {
    s in {"debug", "info", "notice", "warn", "error", "critical"}
  }

  /** `Event.Validate` accepts the event. */
  predicate ValidEvent(e: Event) {
    && e.id != ""
    && e.hostId != ""
    && e.ts != ZERO_TIME
    && e.source != ""
    && '.' in e.kind
    && ValidSeverity(e.severity)
    && e.title != ""
    && e.schemaVersion >= 1
  }
}
