/** The race and the rewrite together: which directory is put in front of an agent's command. */
module AgentDelivery {
  import opened Text
  import opened HookRace
  import Compose
  import Delivery

  /** The directory named in front of an agent's command is one that the race recorded: it was the
      recorded directory, it was there, and no hook had begun to remove it, right after the step in which
      this call's process read or recorded it. `path` names the directories. */
  lemma DeliveredWasRecorded(events: seq<(nat, Event)>, p: nat, path: Dir -> string,
                             payload: Compose.Payload, command: string, d: Compose.Surroundings) returns (n: nat, dir: Dir)
    requires Run(events).Some? && p in Run(events).value.procs && payload.agentId != ""
    requires d.agent.Ok? ==> Run(events).value.procs[p].Returned? && Run(events).value.procs[p].dir.Some?
                             && d.agent.value.dir == path(Run(events).value.procs[p].dir.value)
    requires Compose.Delivers(payload, command, d)
    ensures Compose.Delivered(payload, command, d) == Delivery.EXPORT_PREFIX + path(dir) + "; " + command
    ensures 0 < n <= |events| && events[n - 1].0 == p && Run(events[..n]).Some?
    ensures var s := Run(events[..n]).value; s.record == Some(dir) && dir in s.live && dir !in s.removed
  {
    hide Run, Delivery.Deliverable;
    n := ReturnedWasRecorded(events, p);
    dir := Run(events).value.procs[p].dir.value;
  }
}
