/** Delivery into a Bash call, alone and composed with another hook that ran first: what is added to
    a command, when, and that everything else of the other hook's reply is kept. */
module Compose {
  import opened Text
  import opened Json
  import opened Delivery
  import Paths
  import ReadOnly
  import Stdin
  import Store

  const MAX_PAYLOAD_BYTES := Stdin.MAX_PAYLOAD_BYTES

  // -------------------------------------------------------------- the upstream's outcome

  /** How waiting for the upstream ended: it exited with a code, negative for a signal; it exited and a
      descendant kept its pipes; or something else failed. */
  datatype RunError = NoError | PipesHeld | Exited(code: int) | OtherError

  datatype Upstream = Upstream(stdout: string, stderr: string, exitCode: int)

  function UpstreamOutcome(res: Upstream, err: RunError, expired: bool): Option<Upstream> {
    match err
    case NoError => Some(res)
    case PipesHeld => Some(res)
    case Exited(code) =>
      if code >= 0 then Some(res.(exitCode := code))
      else if expired then None
      else Some(res.(exitCode := 1))
    case OtherError => None
  }

  function ClassifyUpstream(res: Upstream, err: RunError, expired: bool, killed: bool): Option<Upstream> {
    if killed then None else UpstreamOutcome(res, err, expired)
  }

  /** A hook that was not killed and exited on its own has given its verdict whether or not the
      deadline has passed, output and all; a signal is a failure that does not block. */
  lemma VerdictExactly(res: Upstream, err: RunError, expired: bool, killed: bool)
    requires res.exitCode == 0
    ensures var r := ClassifyUpstream(res, err, expired, killed);
            && (r.Some? <==> !killed && (err.NoError? || err.PipesHeld? || (err.Exited? && (err.code >= 0 || !expired))))
            && (r.Some? ==> r.value == res.(exitCode := r.value.exitCode))
            && (r.Some? && r.value.exitCode == 2 ==> err == Exited(2))
            && (r.Some? ==> r.value.exitCode == if err.Exited? then (if err.code >= 0 then err.code else 1) else 0)
            && (err.Exited? && err.code >= 0 && !killed ==> r == ClassifyUpstream(res, err, !expired, killed) && r.value.exitCode == err.code)
  {
  }

  // -------------------------------------------------------------- payloads and replies

  datatype Payload = Payload(sessionId: string, agentId: string, agentType: string, toolName: string, toolInput: Object)

  /** The string at a key: a member that is absent, null or of another type reads as empty. */
  function StringMember(m: Object, key: string): string {
    if key in m && m[key].Str? then m[key].s else ""
  }

  /** One JSON object, or null, as a payload; `parse` reads one JSON text. */
  function ParsePayload(parse: string -> Option<Json>, raw: string): Option<Payload> {
    if |raw| > MAX_PAYLOAD_BYTES then None
    else match parse(raw)
      case Some(Null) => Some(Payload("", "", "", "", map[]))
      case Some(Obj(m)) =>
        Some(Payload(StringMember(m, "session_id"), StringMember(m, "agent_id"), StringMember(m, "agent_type"), StringMember(m, "tool_name"),
                     if "tool_input" in m && m["tool_input"].Obj? then m["tool_input"].members else map[]))
      case _ => None
  }

  /** What is parsed as the payload is the whole stdin, whichever way its readers interleave: if not, a
      read failed before the end, and that is reported. Nothing parses where nothing was handed on. */
  lemma PayloadIsTheWholeStdin(src: nat -> Stdin.Read, events: seq<Stdin.Event>, parse: string -> Option<Json>) returns (e: nat, f: nat)
    requires Stdin.EofIsFinal(src) && Stdin.Run(src, events).Some? && Stdin.Run(src, events).value.answer.Some? && parse("").None?
    requires ParsePayload(parse, RawOf(Stdin.Run(src, events).value.answer.value)).Some?
    ensures if Stdin.FirstEnd(src, e) && src(e).end.Eof?
            then ParsePayload(parse, RawOf(Stdin.Run(src, events).value.answer.value)) == ParsePayload(parse, Stdin.Data(src, e + 1))
            else Stdin.FailsThenEnds(src, f, e) && Stdin.Run(src, events).value.answer.value.failed
  {
    hide Stdin.Run, Stdin.Data;
    e, f := Stdin.HandedOnIsWhole(src, events);
  }

  /** The captured stdin as it is handled: empty when none is handed on. */
  function RawOf(a: Stdin.Answer): string {
    if a.raw.Some? then a.raw.value else ""
  }

  /** What a hook writes: bytes as they are, or a reply it encodes. */
  datatype Output = Bytes(text: string) | Encoded(reply: Object)

  datatype HookResult = HookResult(stdout: Output, stderr: string, exitCode: int)

  const NOTHING := HookResult(Bytes(""), "", 0)

  function PassThrough(up: Upstream): HookResult {
    HookResult(Bytes(up.stdout), up.stderr, up.exitCode)
  }

  // -------------------------------------------------------------- what a delivery takes

  /** The records and the clock a call meets: the agent's record or the word that says why it cannot be
      had, the session's, whether the recorded directory still holds an assertion, and the mode. */
  datatype Surroundings = Surroundings(agent: Result<Store.Record, string>, session: Option<Store.Record>, now: int, usable: bool, enforce: bool)

  function RecordFor(p: Payload, d: Surroundings): Option<Store.Record> {
    if p.agentId != "" then (if d.agent.Ok? then Some(d.agent.value) else None)
    else if d.session.Some? && (p.agentType == "" || p.agentType == d.session.value.startAgentType) then d.session
    else None
  }

  ghost predicate Delivers(p: Payload, command: string, d: Surroundings) {
    && !AlreadyDelivers(command) && !ReadOnly.NeedsNoIdentity(command)
    && RecordFor(p, d).Some? && RecordFor(p, d).value.expiresAt > d.now
    && d.usable && Deliverable(RecordFor(p, d).value.dir) && d.enforce
  }

  ghost function Delivered(p: Payload, command: string, d: Surroundings): string
    requires Delivers(p, command, d)
  {
    ExportStatement(RecordFor(p, d).value.dir).value + command
  }

  const NO_RECORD := Store.Record("", 0, "", "", "")

  /** The record at hand, whatever its type says. */
  function RecordIn(p: Payload, d: Surroundings): Store.Record {
    if p.agentId != "" then (if d.agent.Ok? then d.agent.value else NO_RECORD)
    else if d.session.Some? then d.session.value else NO_RECORD
  }

  const PREFIX_STEPS := 9

  /** Whether step `k` towards a delivery succeeds. */
  ghost predicate PrefixStep(p: Payload, command: string, d: Surroundings, k: int) {
    match k
    case 0 => !AlreadyDelivers(command)
    case 1 => !ReadOnly.NeedsNoIdentity(command)
    case 2 => p.agentId != "" ==> d.agent.Ok?
    case 3 => p.agentId == "" ==> d.session.Some?
    case 4 => p.agentId == "" && p.agentType != "" ==> p.agentType == RecordIn(p, d).startAgentType
    case 5 => RecordIn(p, d).expiresAt > d.now
    case 6 => d.usable
    case 7 => Deliverable(RecordIn(p, d).dir)
    case 8 => d.enforce
    case _ => true
  }

  /** The word for a delivery that stops at step `k`. */
  function PrefixWord(d: Surroundings, k: int): string {
    match k
    case 0 => "already-delivered"
    case 1 => "identity-not-needed"
    case 2 => if d.agent.Err? then d.agent.error else ""
    case 3 => "no-session"
    case 4 => "agentless-type-mismatch"
    case 5 => "expired"
    case 6 => "dir-unusable"
    case 7 => "undeliverable"
    case 8 => "would-deliver"
    case _ => "delivered"
  }

  /** The steps before `n` succeed and step `n`, if there is one, does not. */
  ghost predicate StopsAt(p: Payload, command: string, d: Surroundings, n: int) {
    && 0 <= n <= PREFIX_STEPS && (n < PREFIX_STEPS ==> !PrefixStep(p, command, d, n))
    && forall k :: 0 <= k < n ==> PrefixStep(p, command, d, k)
  }

  /** A delivery takes every step. */
  lemma DeliversWhenNothingStops(p: Payload, command: string, d: Surroundings, n: int)
    requires StopsAt(p, command, d, n)
    ensures Delivers(p, command, d) <==> n == PREFIX_STEPS
  {
    hide AlreadyDelivers, ReadOnly.NeedsNoIdentity, Deliverable;
    assert n < PREFIX_STEPS ==> !PrefixStep(p, command, d, n);
    if n == PREFIX_STEPS {
      assert forall k :: 0 <= k < 9 ==> PrefixStep(p, command, d, k);
      assert PrefixStep(p, command, d, 0) && PrefixStep(p, command, d, 1) && PrefixStep(p, command, d, 2) && PrefixStep(p, command, d, 3);
      assert PrefixStep(p, command, d, 4) && PrefixStep(p, command, d, 5) && PrefixStep(p, command, d, 6) && PrefixStep(p, command, d, 7);
      assert PrefixStep(p, command, d, 8);
    }
  }

  /** The command with the statement in front, or nothing when no rewrite applies, and the word for the
      first step that stopped it. */
  method Prefix(p: Payload, command: string, d: Surroundings) returns (rewritten: string, decision: string, ghost stop: int)
    ensures StopsAt(p, command, d, stop) && decision == PrefixWord(d, stop)
    ensures rewritten == if Delivers(p, command, d) then Delivered(p, command, d) else ""
    ensures rewritten == "" <==> !Delivers(p, command, d)
  {
    rewritten, decision, stop := PrefixSteps(p, command, d);
    DeliversWhenNothingStops(p, command, d, stop);
  }

  method PrefixSteps(p: Payload, command: string, d: Surroundings) returns (rewritten: string, decision: string, ghost stop: int)
    ensures StopsAt(p, command, d, stop) && decision == PrefixWord(d, stop)
    ensures rewritten == if stop == PREFIX_STEPS && Deliverable(RecordIn(p, d).dir) then ExportStatement(RecordIn(p, d).dir).value + command else ""
  {
    hide AlreadyDelivers, ReadOnly.NeedsNoIdentity, Paths.Clean;
    if AlreadyDelivers(command) { return "", "already-delivered", 0; }
    var skip := ReadOnly.CannotUseIdentity(command);
    if skip { return "", "identity-not-needed", 1; }
    var rec;
    if p.agentId != "" {
      if d.agent.Err? { return "", d.agent.error, 2; }
      rec := d.agent.value;
    } else {
      if d.session.None? { return "", "no-session", 3; }
      if p.agentType != "" && p.agentType != d.session.value.startAgentType { return "", "agentless-type-mismatch", 4; }
      rec := d.session.value;
    }
    assert rec == RecordIn(p, d);
    if rec.expiresAt <= d.now { return "", "expired", 5; }
    if !d.usable { return "", "dir-unusable", 6; }
    var stmt := ExportStatement(rec.dir);
    if stmt.None? { return "", "undeliverable", 7; }
    if !d.enforce { return "", "would-deliver", 8; }
    return stmt.value + command, "delivered", 9;
  }

  /** A command that carries the statement never gets another, whatever the second call meets. */
  lemma NeverTwice(p: Payload, command: string, d: Surroundings, p': Payload, d': Surroundings)
    requires Delivers(p, command, d)
    ensures !Delivers(p', Delivered(p, command, d), d')
  {
    hide Deliverable, AlreadyDelivers, ReadOnly.NeedsNoIdentity;
    DeliveredIsRecognised(RecordFor(p, d).value.dir, command);
  }

  // -------------------------------------------------------------- the rewritten reply

  function Specific(reply: Object): Object {
    if "hookSpecificOutput" in reply && reply["hookSpecificOutput"].Obj? then reply["hookSpecificOutput"].members else map[]
  }

  /** The input the runtime runs the tool with, given a reply: the reply's own or the call's. */
  function EffectiveInput(reply: Object, toolInput: Object): Object {
    var specific := Specific(reply);
    if "updatedInput" in specific && specific["updatedInput"].Obj? then specific["updatedInput"].members else toolInput
  }

  /** What a reply is apart from the input it puts in place of the call's. */
  function WithoutInput(reply: Object): Object {
    reply["hookSpecificOutput" := Obj(Named(Specific(reply)) - {"updatedInput"})]
  }

  /** The event's name is filled in where it is missing. */
  function Named(specific: Object): Object {
    if "hookEventName" in specific then specific else specific["hookEventName" := Str("PreToolUse")]
  }

  /** Copies the members of an object one by one. */
  method CopyMembers(base: Object) returns (updated: Object)
    ensures updated == base
  {
    updated := map[];
    var keys := base.Keys;
    while keys != {}
      invariant keys <= base.Keys && updated.Keys == base.Keys - keys
      invariant forall k :: k in updated ==> updated[k] == base[k]
      decreases |keys|
    {
      var k :| k in keys;
      keys := keys - {k};
      updated := updated[k := base[k]];
    }
  }

  method MergeRewrite(reply: Object, specific: Object, base: Object, command: string) returns (out: Object)
    ensures out == reply["hookSpecificOutput" := Obj(Named(specific)["updatedInput" := Obj(base["command" := Str(command)])])]
  {
    var updated := CopyMembers(base);
    updated := updated["command" := Str(command)];
    var named := specific["updatedInput" := Obj(updated)];
    NamesDiffer();
    if "hookEventName" !in named { named := named["hookEventName" := Str("PreToolUse")]; }
    assert named == Named(specific)["updatedInput" := Obj(updated)];
    out := reply["hookSpecificOutput" := Obj(named)];
  }

  lemma NamesDiffer()
    ensures "hookEventName" != "updatedInput"
  {
    assert |"hookEventName"| == 13 && |"updatedInput"| == 12;
  }

  /** The rewritten reply runs the tool with the same input but for the command, and says nothing else
      that the reply it started from did not say. */
  lemma MergedMeans(reply: Object, base: Object, command: string, toolInput: Object)
    requires base == EffectiveInput(reply, toolInput)
    ensures var out := reply["hookSpecificOutput" := Obj(Named(Specific(reply))["updatedInput" := Obj(base["command" := Str(command)])])];
            && EffectiveInput(out, toolInput) == base["command" := Str(command)]
            && WithoutInput(out) == WithoutInput(reply) && "hookEventName" in Specific(out)
            && Decisions(out) == Decisions(reply)
  {
    NamesDiffer();
    DecisionsDiffer();
    var specific := Named(Specific(reply))["updatedInput" := Obj(base["command" := Str(command)])];
    var out := reply["hookSpecificOutput" := Obj(specific)];
    assert Specific(out) == specific && Named(specific) == specific;
    assert specific - {"updatedInput"} == Named(Specific(reply)) - {"updatedInput"};
    assert WithoutInput(out) == WithoutInput(reply);
  }

  /** Everything in a reply that decides a call: the permission decision, the legacy decision and
      whether the run goes on. */
  function Decisions(reply: Object): (Option<Json>, Option<Json>, Option<Json>) {
    (Member(Specific(reply), "permissionDecision"), Member(reply, "decision"), Member(reply, "continue"))
  }

  function Member(m: Object, key: string): Option<Json> {
    if key in m then Some(m[key]) else None
  }

  lemma DecisionsDiffer()
    ensures "permissionDecision" != "hookEventName" && "permissionDecision" != "updatedInput"
    ensures "decision" != "hookSpecificOutput" && "continue" != "hookSpecificOutput"
    ensures "hookSpecificOutput"[0] != "permissionDecision"[0]
  {
    assert |"permissionDecision"| == 18 && |"hookEventName"| == 13 && |"updatedInput"| == 12;
    assert |"decision"| == 8 && |"continue"| == 8 && |"hookSpecificOutput"| == 18;
  }

  // -------------------------------------------------------------- the composed hook

  predicate StopsOrDecides(reply: Object) {
    || StringMember(reply, "decision") != ""
    || ("continue" in reply && (reply["continue"] == Bool(false) || reply["continue"].Null?))
  }

  /** The upstream's reply as an object: empty output is an empty reply. */
  function ReplyOf(parse: string -> Option<Json>, up: Upstream): Option<Object> {
    var body := TrimSpace(up.stdout);
    if body == "" then Some(map[])
    else match parse(body)
      case Some(Obj(m)) => Some(m)
      case _ => None
  }

  predicate MayDecide(specific: Object) {
    "permissionDecision" in specific ==>
      || specific["permissionDecision"].Null?
      || (specific["permissionDecision"].Str? && (specific["permissionDecision"].s == "" || specific["permissionDecision"].s == "allow"))
  }

  /** A reply the statement may be added to: it neither stops nor decides anything but allow, and what
      it says of the tool's input can be read. */
  predicate Open(reply: Object) {
    && !StopsOrDecides(reply)
    && ("hookSpecificOutput" in reply ==> reply["hookSpecificOutput"].Obj?)
    && MayDecide(Specific(reply))
    && ("updatedInput" in Specific(reply) ==> Specific(reply)["updatedInput"].Obj?)
  }

  /** The command the upstream leaves the call with. */
  function CommandAfter(reply: Object, p: Payload): string {
    StringMember(EffectiveInput(reply, p.toolInput), "command")
  }

  ghost predicate Rewrites(parse: string -> Option<Json>, p: Payload, up: Upstream, d: Surroundings) {
    && up.exitCode == 0
    && ReplyOf(parse, up).Some? && Open(ReplyOf(parse, up).value)
    && CommandAfter(ReplyOf(parse, up).value, p) != ""
    && Delivers(p, CommandAfter(ReplyOf(parse, up).value, p), d)
  }

  /** `r` is the upstream's result with its one addition: the tool runs with the same input but for
      the statement in front of the command, and every decision and other member is kept. */
  ghost predicate OneAddition(parse: string -> Option<Json>, p: Payload, up: Upstream, d: Surroundings, r: HookResult)
    requires Rewrites(parse, p, up, d)
  {
    var reply := ReplyOf(parse, up).value;
    var command := CommandAfter(reply, p);
    && r.stdout.Encoded? && r.stderr == up.stderr && r.exitCode == up.exitCode
    && EffectiveInput(r.stdout.reply, p.toolInput) == EffectiveInput(reply, p.toolInput)["command" := Str(Delivered(p, command, d))]
    && WithoutInput(r.stdout.reply) == WithoutInput(reply) && "hookEventName" in Specific(r.stdout.reply)
    && Decisions(r.stdout.reply) == Decisions(reply)
    && r.stdout.reply == reply["hookSpecificOutput" := Obj(Named(Specific(reply))["updatedInput" :=
                                 Obj(EffectiveInput(reply, p.toolInput)["command" := Str(Delivered(p, command, d))])])]
  }

  /** The upstream's reply, its hook-specific part and the tool's input it leaves, when the statement
      may be added to it. */
  method ReadReply(parse: string -> Option<Json>, p: Payload, up: Upstream) returns (r: Option<(Object, Object, Object)>)
    ensures r.Some? <==> up.exitCode == 0 && ReplyOf(parse, up).Some? && Open(ReplyOf(parse, up).value)
    ensures r.Some? ==> var reply := ReplyOf(parse, up).value; r.value == (reply, Specific(reply), EffectiveInput(reply, p.toolInput))
  {
    hide TrimSpace;
    if up.exitCode != 0 { return None; }
    var reply: Object := map[];
    var body := TrimSpace(up.stdout);
    if |body| != 0 {
      match parse(body) {
        case Some(Obj(m)) => reply := m;
        case _ => return None;
      }
    }
    if StopsOrDecides(reply) { return None; }
    var specific: Object := map[];
    if "hookSpecificOutput" in reply {
      if !reply["hookSpecificOutput"].Obj? { return None; }
      specific := reply["hookSpecificOutput"].members;
    }
    if "permissionDecision" in specific {
      match specific["permissionDecision"] {
        case Null =>
        case Str(s) => if s != "" && s != "allow" { return None; }
        case _ => return None;
      }
    }
    var base := p.toolInput;
    if "updatedInput" in specific {
      if !specific["updatedInput"].Obj? { return None; }
      base := specific["updatedInput"].members;
    }
    return Some((reply, specific, base));
  }

  method ComposedPreToolUse(parse: string -> Option<Json>, p: Payload, up: Upstream, d: Surroundings) returns (r: HookResult)
    ensures if Rewrites(parse, p, up, d) then OneAddition(parse, p, up, d, r) else r == PassThrough(up)
  {
    hide Delivers, Delivered, ReplyOf, Open, Specific, EffectiveInput, WithoutInput, Named, Decisions;
    var read := ReadReply(parse, p, up);
    if read.None? { return PassThrough(up); }
    var (reply, specific, base) := read.value;
    var command := StringMember(base, "command");
    if command == "" { return PassThrough(up); }
    var rewritten, _, _ := Prefix(p, command, d);
    if rewritten == "" { return PassThrough(up); }
    var out := MergeRewrite(reply, specific, base, rewritten);
    MergedMeans(reply, base, rewritten, p.toolInput);
    r := HookResult(Encoded(out), up.stderr, 0);
  }

  /** The result of a composed hook, given what was captured of the stdin and the upstream's verdict, if
      it has one: the upstream's own, byte for byte, or that with its one addition. An upstream without
      a verdict yields nothing at all. */
  method HandleComposed(parse: string -> Option<Json>, raw: string, verdict: Option<Upstream>, d: Surroundings) returns (r: HookResult)
    ensures var p := ParsePayload(parse, raw);
            if verdict.None? then r == NOTHING
            else if p.Some? && p.value.toolName == "Bash" && Rewrites(parse, p.value, verdict.value, d)
            then OneAddition(parse, p.value, verdict.value, d, r)
            else r == PassThrough(verdict.value)
  {
    hide Rewrites, OneAddition;
    var fallback := if verdict.Some? then PassThrough(verdict.value) else NOTHING;
    if |raw| > MAX_PAYLOAD_BYTES { return fallback; }
    var p := ParsePayload(parse, raw);
    if p.None? { return fallback; }
    if p.value.toolName != "Bash" { return fallback; }
    if verdict.None? { return fallback; }
    r := ComposedPreToolUse(parse, p.value, verdict.value, d);
  }

  /** A denial, a question, a stop, a failing exit or unreadable output always passes through. */
  lemma RefusalsPassThrough(parse: string -> Option<Json>, p: Payload, up: Upstream, d: Surroundings)
    requires || up.exitCode != 0
             || ReplyOf(parse, up).None?
             || StopsOrDecides(ReplyOf(parse, up).value)
             || (Member(Specific(ReplyOf(parse, up).value), "permissionDecision").Some?
                 && Member(Specific(ReplyOf(parse, up).value), "permissionDecision").value !in {Null, Str(""), Str("allow")})
    ensures !Rewrites(parse, p, up, d)
  {
    hide Delivers;
  }

  // -------------------------------------------------------------- the hook alone

  /** A single call without an upstream: a rewrite carries the new input and no decision, and everything
      else is empty output. */
  method Standalone(p: Payload, d: Surroundings) returns (r: HookResult)
    ensures var command := StringMember(p.toolInput, "command");
            if command != "" && Delivers(p, command, d)
            then && r.stdout.Encoded? && r.stderr == "" && r.exitCode == 0
                 && r.stdout.reply.Keys == {"hookSpecificOutput"} && Decisions(r.stdout.reply) == (None, None, None)
                 && Specific(r.stdout.reply).Keys == {"hookEventName", "updatedInput"}
                 && EffectiveInput(r.stdout.reply, p.toolInput) == p.toolInput["command" := Str(Delivered(p, command, d))]
                 && r.stdout.reply == map["hookSpecificOutput" := Obj(map["hookEventName" := Str("PreToolUse"),
                                            "updatedInput" := Obj(p.toolInput["command" := Str(Delivered(p, command, d))])])]
            else r == NOTHING
  {
    hide Delivers, Delivered;
    var command := StringMember(p.toolInput, "command");
    if command == "" { return NOTHING; }
    var rewritten, _, _ := Prefix(p, command, d);
    if rewritten == "" { return NOTHING; }
    var out := MergeRewrite(map[], map[], p.toolInput, rewritten);
    NamesDiffer();
    DecisionsDiffer();
    MergedMeans(map[], p.toolInput, rewritten, p.toolInput);
    r := HookResult(Encoded(out), "", 0);
  }
}
