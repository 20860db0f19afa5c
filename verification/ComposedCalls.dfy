/** A composed call told of the texts and members that cross its borders: the event the runtime writes,
    the reply of the upstream hook, the records at hand, and the reply that goes back. */
module ComposedCalls {
  import opened Text
  import opened Json
  import opened Compose
  import Delivery
  import ReadOnly
  import Store

  // -------------------------------------------------------------- the event

  /** The member `name` as text: empty when it is missing or no string. */
  ghost predicate TextAt(m: Object, name: string, s: string) {
    if name in m && m[name].Str? then m[name] == Str(s) else s == ""
  }

  ghost predicate ObjectAt(m: Object, name: string, o: Object) {
    if name in m && m[name].Obj? then m[name] == Obj(o) else o == map[]
  }

  /** The event `m`, whatever other members it has, tells of this call. */
  ghost predicate TellsOf(m: Object, p: Payload) {
    && TextAt(m, "session_id", p.sessionId) && TextAt(m, "agent_id", p.agentId) && TextAt(m, "agent_type", p.agentType)
    && TextAt(m, "tool_name", p.toolName) && ObjectAt(m, "tool_input", p.toolInput)
  }

  /** The event a runtime writes for a call, among any other members. */
  function Event(p: Payload, others: Object): Object {
    others["session_id" := Str(p.sessionId)]["agent_id" := Str(p.agentId)]["agent_type" := Str(p.agentType)]
          ["tool_name" := Str(p.toolName)]["tool_input" := Obj(p.toolInput)]
  }

  lemma EventNamesDiffer()
    ensures "session_id" != "agent_id" && "session_id" != "agent_type" && "session_id" != "tool_name" && "session_id" != "tool_input"
    ensures "agent_id" != "agent_type" && "agent_id" != "tool_name" && "agent_id" != "tool_input"
    ensures "agent_type" != "tool_name" && "agent_type" != "tool_input" && "tool_name" != "tool_input"
  {
    assert |"agent_id"| == 8 && |"tool_name"| == 9 && |"session_id"| == 10 && "session_id"[0] != "agent_type"[0];
    assert "session_id"[0] != "tool_input"[0] && "agent_type"[0] != "tool_input"[0];
  }

  lemma EventTells(p: Payload, others: Object)
    ensures TellsOf(Event(p, others), p)
  {
    EventNamesDiffer();
  }

  /** Every event within the cap parses to just the call it tells of, and nothing larger parses. */
  lemma PayloadReadsBack(parse: string -> Option<Json>, raw: string, m: Object, p: Payload)
    requires parse(raw) == Some(Obj(m)) && TellsOf(m, p)
    ensures ParsePayload(parse, raw) == if |raw| <= 4194304 then Some(p) else None
  {
  }

  /** What a runtime writes for a call is read as that call. */
  lemma WrittenReadsBack(parse: string -> Option<Json>, raw: string, p: Payload, others: Object)
    requires parse(raw) == Some(Obj(Event(p, others))) && |raw| <= 4194304
    ensures ParsePayload(parse, raw) == Some(p)
  {
    EventTells(p, others);
    PayloadReadsBack(parse, raw, Event(p, others), p);
  }

  // -------------------------------------------------------------- the upstream's reply

  /** What the upstream printed, as a reply: one object, or nothing but white space. */
  ghost predicate Replied(parse: string -> Option<Json>, up: Upstream, reply: Object) {
    if TrimSpace(up.stdout) == "" then reply == map[] else parse(TrimSpace(up.stdout)) == Some(Obj(reply))
  }

  /** The reply neither stops the run nor decides anything but allow; `specific` is what it says for this
      event and `base` the tool's input it leaves. */
  ghost predicate LeavesOpen(reply: Object, specific: Object, base: Object, toolInput: Object) {
    && ("continue" in reply ==> reply["continue"] != Bool(false) && reply["continue"] != Null)
    && ("decision" in reply && reply["decision"].Str? ==> reply["decision"] == Str(""))
    && (if "hookSpecificOutput" in reply then reply["hookSpecificOutput"] == Obj(specific) else specific == map[])
    && ("permissionDecision" in specific ==> specific["permissionDecision"] in {Null, Str(""), Str("allow")})
    && (if "updatedInput" in specific then specific["updatedInput"] == Obj(base) else base == toolInput)
  }

  /** The same reply with this command in place of the one it leaves. */
  function WithCommand(reply: Object, specific: Object, base: Object, command: string): Object {
    var named := if "hookEventName" in specific then specific else specific["hookEventName" := Str("PreToolUse")];
    reply["hookSpecificOutput" := Obj(named["updatedInput" := Obj(base["command" := Str(command)])])]
  }

  // -------------------------------------------------------------- the delivery

  /** After its leading blanks and tabs the command opens with the statement. */
  ghost predicate OpensWithStatement(command: string) {
    exists blanks, rest :: Opening(command, blanks, rest)
  }

  predicate Opening(command: string, blanks: string, rest: string) {
    (forall i :: 0 <= i < |blanks| ==> blanks[i] == ' ' || blanks[i] == '\t') && command == blanks + "export CLAGENTIC_IDENTITY_DIR=" + rest
  }

  lemma {:induction false} TrimmedBlanks(command: string) returns (blanks: string)
    ensures command == blanks + Delivery.TrimBlanks(command) && forall i :: 0 <= i < |blanks| ==> blanks[i] == ' ' || blanks[i] == '\t'
  {
    if command != "" && (command[0] == ' ' || command[0] == '\t') {
      var more := TrimmedBlanks(command[1..]);
      blanks := [command[0]] + more;
    } else {
      blanks := "";
    }
  }

  lemma {:induction false} BlanksAreTrimmed(blanks: string, text: string)
    requires (forall i :: 0 <= i < |blanks| ==> blanks[i] == ' ' || blanks[i] == '\t') && text != "" && text[0] != ' ' && text[0] != '\t'
    ensures Delivery.TrimBlanks(blanks + text) == text
    decreases |blanks|
  {
    if blanks == "" {
      assert blanks + text == text;
    } else {
      assert (blanks + text)[1..] == blanks[1..] + text;
      BlanksAreTrimmed(blanks[1..], text);
    }
  }

  /** Exactly such a command counts as delivered already. */
  lemma DeliversAlreadyExactly(command: string)
    ensures Delivery.AlreadyDelivers(command) <==> OpensWithStatement(command)
  {
    var statement := "export CLAGENTIC_IDENTITY_DIR=";
    assert statement == Delivery.EXPORT_PREFIX && statement[0] == 'e';
    hide Delivery.EXPORT_PREFIX;
    var text := Delivery.TrimBlanks(command);
    if HasPrefix(text, statement) {
      var blanks := TrimmedBlanks(command);
      assert text == statement + text[|statement|..];
      assert Opening(command, blanks, text[|statement|..]);
    }
    if OpensWithStatement(command) {
      var blanks, rest :| Opening(command, blanks, rest);
      assert blanks + statement + rest == blanks + (statement + rest);
      BlanksAreTrimmed(blanks, statement + rest);
      assert (statement + rest)[..|statement|] == statement;
    }
  }

  /** The record a call is served from: its agent's when it names one, and otherwise its session's, which
      must have been started as the type the call claims. */
  ghost predicate Serves(rec: Store.Record, p: Payload, d: Surroundings) {
    if p.agentId != "" then d.agent == Ok(rec)
    else d.session == Some(rec) && (p.agentType == "" || p.agentType == rec.startAgentType)
  }

  /** Everything a delivery takes. */
  ghost predicate MayDeliver(command: string, rec: Store.Record, p: Payload, d: Surroundings) {
    && command != "" && !OpensWithStatement(command) && !ReadOnly.NeedsNoIdentity(command)
    && Serves(rec, p, d) && d.now < rec.expiresAt && d.usable && Delivery.Deliverable(rec.dir) && d.enforce
  }

  lemma DeliversWhat(command: string, p: Payload, d: Surroundings)
    ensures command != "" && Delivers(p, command, d) <==> exists rec :: MayDeliver(command, rec, p, d)
    ensures forall rec :: MayDeliver(command, rec, p, d) ==> Delivered(p, command, d) == "export CLAGENTIC_IDENTITY_DIR=" + rec.dir + "; " + command
  {
    hide ReadOnly.NeedsNoIdentity, Delivery.AlreadyDelivers, OpensWithStatement;
    DeliversAlreadyExactly(command);
    if command != "" && Delivers(p, command, d) { assert MayDeliver(command, RecordFor(p, d).value, p, d); }
  }

  // -------------------------------------------------------------- the whole call

  /** A Bash call that gets the statement: all that must come together, told of the event `m`. */
  ghost predicate Served(parse: string -> Option<Json>, m: Object, p: Payload, up: Upstream, d: Surroundings,
                         reply: Object, specific: Object, base: Object, command: string, rec: Store.Record) {
    && TellsOf(m, p) && p.toolName == "Bash" && up.exitCode == 0
    && Replied(parse, up, reply) && LeavesOpen(reply, specific, base, p.toolInput)
    && "command" in base && base["command"] == Str(command) && MayDeliver(command, rec, p, d)
  }

  lemma OpenExactly(reply: Object, specific: Object, base: Object, toolInput: Object)
    ensures LeavesOpen(reply, specific, base, toolInput) <==> Open(reply) && specific == Specific(reply) && base == EffectiveInput(reply, toolInput)
  {
  }

  lemma RewritesWhat(parse: string -> Option<Json>, m: Object, p: Payload, up: Upstream, d: Surroundings)
    requires TellsOf(m, p)
    ensures p.toolName == "Bash" && Rewrites(parse, p, up, d)
       <==> exists reply, specific, base, command, rec :: Served(parse, m, p, up, d, reply, specific, base, command, rec)
  {
    hide TrimSpace, Open, LeavesOpen, Specific, EffectiveInput, Delivers, MayDeliver;
    if p.toolName == "Bash" && Rewrites(parse, p, up, d) {
      var reply := ReplyOf(parse, up).value;
      var command := CommandAfter(reply, p);
      OpenExactly(reply, Specific(reply), EffectiveInput(reply, p.toolInput), p.toolInput);
      DeliversWhat(command, p, d);
      var rec :| MayDeliver(command, rec, p, d);
      assert Served(parse, m, p, up, d, reply, Specific(reply), EffectiveInput(reply, p.toolInput), command, rec);
    }
    if reply, specific, base, command, rec :| Served(parse, m, p, up, d, reply, specific, base, command, rec) {
      OpenExactly(reply, specific, base, p.toolInput);
      DeliversWhat(command, p, d);
      NeverEmpty(command, rec, p, d);
    }
  }

  lemma NeverEmpty(command: string, rec: Store.Record, p: Payload, d: Surroundings)
    ensures MayDeliver(command, rec, p, d) ==> command != ""
  {
    hide ReadOnly.NeedsNoIdentity, Delivery.Deliverable;
  }

  lemma RewritesTo(parse: string -> Option<Json>, m: Object, p: Payload, up: Upstream, d: Surroundings, r: HookResult,
                   reply: Object, specific: Object, base: Object, command: string, rec: Store.Record)
    requires Served(parse, m, p, up, d, reply, specific, base, command, rec) && Rewrites(parse, p, up, d) && OneAddition(parse, p, up, d, r)
    ensures r == HookResult(Encoded(WithCommand(reply, specific, base, "export CLAGENTIC_IDENTITY_DIR=" + rec.dir + "; " + command)), up.stderr, 0)
  {
    hide TrimSpace, Open, LeavesOpen, Specific, EffectiveInput, Delivers, Delivered, MayDeliver, WithoutInput, Decisions;
    OpenExactly(reply, specific, base, p.toolInput);
    DeliversWhat(command, p, d);
  }

  /** The result of a composed call, told of the event: for a Bash call whose upstream leaves it open and
      that may be delivered to, the upstream's reply with the statement in front of the command and the
      event's name filled in; for every other call with a verdict the upstream's own bytes. */
  method HandleEvent(parse: string -> Option<Json>, raw: string, m: Object, p: Payload, up: Upstream, d: Surroundings) returns (r: HookResult)
    requires parse(raw) == Some(Obj(m)) && |raw| <= 4194304 && TellsOf(m, p)
    ensures forall reply, specific, base, command, rec :: Served(parse, m, p, up, d, reply, specific, base, command, rec) ==>
              r == HookResult(Encoded(WithCommand(reply, specific, base, "export CLAGENTIC_IDENTITY_DIR=" + rec.dir + "; " + command)), up.stderr, 0)
    ensures (forall reply, specific, base, command, rec :: !Served(parse, m, p, up, d, reply, specific, base, command, rec)) ==>
              r == HookResult(Bytes(up.stdout), up.stderr, up.exitCode)
  {
    hide ParsePayload, Served, Rewrites, OneAddition;
    PayloadReadsBack(parse, raw, m, p);
    RewritesWhat(parse, m, p, up, d);
    r := HandleComposed(parse, raw, Some(up), d);
    forall reply, specific, base, command, rec | Served(parse, m, p, up, d, reply, specific, base, command, rec)
      ensures r == HookResult(Encoded(WithCommand(reply, specific, base, "export CLAGENTIC_IDENTITY_DIR=" + rec.dir + "; " + command)), up.stderr, 0)
    {
      RewritesTo(parse, m, p, up, d, r, reply, specific, base, command, rec);
    }
  }

  /** The same call without an upstream: a reply that carries the new input and nothing else, or nothing. */
  method HandleAlone(parse: string -> Option<Json>, raw: string, m: Object, p: Payload, d: Surroundings) returns (r: HookResult)
    requires parse(raw) == Some(Obj(m)) && |raw| <= 4194304 && TellsOf(m, p)
    ensures var command := Compose.StringMember(p.toolInput, "command");
            && (forall rec :: p.toolName == "Bash" && MayDeliver(command, rec, p, d) ==>
                  r == HookResult(Encoded(map["hookSpecificOutput" := Obj(map["hookEventName" := Str("PreToolUse"),
                         "updatedInput" := Obj(p.toolInput["command" := Str("export CLAGENTIC_IDENTITY_DIR=" + rec.dir + "; " + command)])])]), "", 0))
            && ((forall rec :: !(p.toolName == "Bash" && MayDeliver(command, rec, p, d))) ==> r == HookResult(Bytes(""), "", 0))
    ensures Compose.StringMember(p.toolInput, "command") == "" ==> r == HookResult(Bytes(""), "", 0)
  {
    hide ParsePayload, MayDeliver, Delivers, Delivered;
    PayloadReadsBack(parse, raw, m, p);
    DeliversWhat(Compose.StringMember(p.toolInput, "command"), p, d);
    NoCommand(p, d);
    var parsed := ParsePayload(parse, raw);
    if parsed.None? || parsed.value.toolName != "Bash" { return NOTHING; }
    r := Standalone(parsed.value, d);
  }

  lemma NoCommand(p: Payload, d: Surroundings)
    ensures forall rec :: !MayDeliver("", rec, p, d)
  {
    hide ReadOnly.NeedsNoIdentity, Delivery.Deliverable;
  }

  /** What the word for a delivery that did not take place says. */
  lemma WordsMean(p: Payload, command: string, d: Surroundings, n: int)
    requires StopsAt(p, command, d, n)
    ensures match n
      case 0 => PrefixWord(d, n) == "already-delivered" && OpensWithStatement(command)
      case 1 => PrefixWord(d, n) == "identity-not-needed" && ReadOnly.NeedsNoIdentity(command)
      case 2 => p.agentId != "" && d.agent == Err(PrefixWord(d, n))
      case 3 => PrefixWord(d, n) == "no-session" && p.agentId == "" && d.session.None?
      case 4 => PrefixWord(d, n) == "agentless-type-mismatch" && p.agentId == "" && d.session.Some? && p.agentType !in {"", d.session.value.startAgentType}
      case 5 => PrefixWord(d, n) == "expired" && exists rec :: Serves(rec, p, d) && rec.expiresAt <= d.now
      case 6 => PrefixWord(d, n) == "dir-unusable" && !d.usable
      case 7 => PrefixWord(d, n) == "undeliverable" && exists rec :: Serves(rec, p, d) && !Delivery.Deliverable(rec.dir)
      case 8 => PrefixWord(d, n) == "would-deliver" && !d.enforce
      case _ => PrefixWord(d, n) == "delivered" && Delivers(p, command, d)
  {
    hide Delivery.AlreadyDelivers, OpensWithStatement, ReadOnly.NeedsNoIdentity, Delivery.Deliverable;
    DeliversAlreadyExactly(command);
    DeliversWhenNothingStops(p, command, d, n);
    assert n < PREFIX_STEPS ==> !PrefixStep(p, command, d, n);
    assert n > 2 ==> PrefixStep(p, command, d, 2);
    assert n > 3 ==> PrefixStep(p, command, d, 3);
    assert n > 4 ==> PrefixStep(p, command, d, 4) && Serves(RecordIn(p, d), p, d);
  }
}
