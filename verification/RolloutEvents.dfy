// Rollout events and the pure functions that attribute them to turns.
module RolloutEvents {
  import opened Common
  import opened Numerals

  /** The string fields of an event payload; an absent field is the empty string. */
  datatype Payload = Payload(kind: string, turnId: string, metadataTurnId: string, callId: string, id: string,
                             role: string, text: string)
  datatype Event = Event(outer: string, payload: Option<Payload>)

  function CustomTurn(p: Payload, active: string): string {
    Or(Strip(p.metadataTurnId), active)
  }

  predicate IsCall(e: Event) {
    e.payload.Some? && e.outer == "response_item" && e.payload.value.kind == "custom_tool_call"
  }

  predicate IsCallOutput(e: Event) {
    e.payload.Some? && e.outer == "response_item" && e.payload.value.kind == "custom_tool_call_output"
  }

  predicate IsPatch(e: Event) {
    e.payload.Some? && e.outer == "event_msg" && e.payload.value.kind == "patch_apply_end"
  }

  predicate IsWebSearch(e: Event) {
    e.payload.Some? && e.outer == "event_msg" && e.payload.value.kind == "web_search_end"
  }

  predicate IsUserMessage(e: Event) {
    && e.payload.Some? && e.outer == "response_item"
    && e.payload.value.kind == "message" && e.payload.value.role == "user"
  }

  function ActivityTurn(e: Event, active: string): string {
    if IsCall(e) then CustomTurn(e.payload.value, active)
    else if IsPatch(e) || IsWebSearch(e) then Strip(Or(e.payload.value.turnId, active))
    else ""
  }

  function NextActiveTurn(e: Event, active: string): string {
    if e.payload.None? || e.outer != "event_msg" then active
    else
      var kind, turn := e.payload.value.kind, Strip(e.payload.value.turnId);
      if kind == "task_started" && turn != "" then turn
      else if kind in {"task_complete", "turn_aborted"} && (turn == "" || turn == active) then ""
      else active
  }

  function CallId(p: Payload): string {
    Strip(Or(p.callId, p.id))
  }

  function CallItem(p: Payload): string {
    Strip(Or(p.id, p.callId))
  }

  /** The turn the durable projection derives again when it reads a record back. */
  function ProjectedTurn(e: Event, expected: string): Option<string> {
    if IsCall(e) then Some(CustomTurn(e.payload.value, expected))
    else if IsPatch(e) then Some(Strip(Or(e.payload.value.turnId, expected)))
    else if IsWebSearch(e) then Some(expected)
    else None
  }

  lemma TurnsAreTrimmed(e: Event, active: string)
    requires Trimmed(active)
    ensures Trimmed(NextActiveTurn(e, active)) && Trimmed(ActivityTurn(e, active))
  {
    if e.payload.Some? {
      StripTrims(e.payload.value.turnId);
      StripTrims(e.payload.value.metadataTurnId);
      StripTrims(active);
    }
  }

  /** Deriving the turn again with the filed turn as context gives the filed turn. */
  lemma ProjectionKeepsTurn(e: Event, active: string)
    requires Trimmed(active) && ActivityTurn(e, active) != ""
    ensures ProjectedTurn(e, ActivityTurn(e, active)) == Some(ActivityTurn(e, active))
  {
    TurnsAreTrimmed(e, active);
    StripTrims(ActivityTurn(e, active));
  }
}
