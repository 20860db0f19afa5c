/** The claims of an assertion, what is signed for them, and what the signature stands for. */
module Claims {
  import opened Text
  import opened Decimal
  import opened Json

  const CONTRACT_VERSION := 1
  const CONTRACT_VERSION_DRIVEN := 2
  const ORIGIN_DRIVEN := "driven"
  const MAX_LIFETIME_SECONDS := 43200

  /** One level of an act chain. */
  datatype Actor = Actor(sub: string, act: Option<Actor>)

  datatype Runtime = Runtime(id: string, version: string)

  datatype Claims = Claims(iss: string, sub: string, act: Option<Actor>, roles: seq<string>, grade: string, rt: Runtime,
                           sid: string, spawn: string, orig: string, dir: string, iat: int, exp: int, jti: string, cia: int)

  /** The lowest contract major that can express an origin. */
  function ContractFor(origin: string): int {
    if origin == ORIGIN_DRIVEN then CONTRACT_VERSION_DRIVEN else CONTRACT_VERSION
  }

  function ActorJson(a: Actor): Json {
    match a.act
    case None => Obj(map["sub" := Str(a.sub)])
    case Some(inner) => Obj(map["sub" := Str(a.sub), "act" := ActorJson(inner)])
  }

  function RolesJson(roles: seq<string>): Json {
    Arr(seq(|roles|, i requires 0 <= i < |roles| => Str(roles[i])))
  }

  /** The payload: an absent actor chain and an empty spawn are left out. */
  function Payload(c: Claims): Object {
    var fixed: Object := map[
      "iss" := Str(c.iss), "sub" := Str(c.sub), "roles" := RolesJson(c.roles), "grade" := Str(c.grade),
      "rt" := Obj(map["id" := Str(c.rt.id), "version" := Str(c.rt.version)]), "sid" := Str(c.sid),
      "origin" := Str(c.orig), "dir" := Str(c.dir), "iat" := Num(Itoa(c.iat)), "exp" := Num(Itoa(c.exp)),
      "jti" := Str(c.jti), "cia" := Num(Itoa(c.cia))];
    var acting := if c.act.Some? then fixed["act" := ActorJson(c.act.value)] else fixed;
    if c.spawn != "" then acting["spawn" := Str(c.spawn)] else acting
  }

  // -------------------------------------------------------------- reading back

  function StringAt(m: Object, key: string): string {
    if key in m && m[key].Str? then m[key].s else ""
  }

  function IntAt(m: Object, key: string): int {
    if key in m && m[key].Num? && ParseInt64(m[key].text).Some? then ParseInt64(m[key].text).value else 0
  }

  function ActorOfJson(j: Json): Actor
    decreases j
  {
    if !j.Obj? then Actor("", None)
    else Actor(StringAt(j.members, "sub"),
               if "act" in j.members && j.members["act"].Obj? then Some(ActorOfJson(j.members["act"])) else None)
  }

  function StringsOf(items: seq<Json>): seq<string> {
    seq(|items|, i requires 0 <= i < |items| => if items[i].Str? then items[i].s else "")
  }

  /** What decoding a payload into the claims structure gives. */
  function ClaimsOf(m: Object): Claims {
    Claims(StringAt(m, "iss"), StringAt(m, "sub"),
           if "act" in m && m["act"].Obj? then Some(ActorOfJson(m["act"])) else None,
           if "roles" in m && m["roles"].Arr? then StringsOf(m["roles"].items) else [],
           StringAt(m, "grade"),
           if "rt" in m && m["rt"].Obj? then Runtime(StringAt(m["rt"].members, "id"), StringAt(m["rt"].members, "version")) else Runtime("", ""),
           StringAt(m, "sid"), StringAt(m, "spawn"), StringAt(m, "origin"), StringAt(m, "dir"),
           IntAt(m, "iat"), IntAt(m, "exp"), StringAt(m, "jti"), IntAt(m, "cia"))
  }

  predicate Int64(n: int) {
    -MAX_INT64 - 1 <= n <= MAX_INT64
  }

  lemma {:induction false} ActorReadsBack(a: Actor)
    ensures ActorJson(a).Obj? && ActorOfJson(ActorJson(a)) == a
    decreases a
  {
    if a.act.Some? { ActorReadsBack(a.act.value); }
  }

  /** What each text member of a payload is. */
  lemma PayloadTexts(c: Claims)
    ensures var m := Payload(c);
            && "iss" in m && m["iss"] == Str(c.iss) && "sub" in m && m["sub"] == Str(c.sub)
            && "grade" in m && m["grade"] == Str(c.grade) && "sid" in m && m["sid"] == Str(c.sid)
            && "origin" in m && m["origin"] == Str(c.orig) && "dir" in m && m["dir"] == Str(c.dir)
            && "jti" in m && m["jti"] == Str(c.jti)
            && ("spawn" in m <==> c.spawn != "") && (c.spawn != "" ==> m["spawn"] == Str(c.spawn))
  {
    hide Itoa, ActorJson, RolesJson;
    KeysDiffer();
  }

  /** What each other member of a payload is. */
  lemma PayloadOthers(c: Claims)
    ensures var m := Payload(c);
            && "roles" in m && m["roles"] == RolesJson(c.roles)
            && "rt" in m && m["rt"] == Obj(map["id" := Str(c.rt.id), "version" := Str(c.rt.version)])
            && "iat" in m && m["iat"] == Num(Itoa(c.iat)) && "exp" in m && m["exp"] == Num(Itoa(c.exp))
            && "cia" in m && m["cia"] == Num(Itoa(c.cia))
            && ("act" in m <==> c.act.Some?) && (c.act.Some? ==> m["act"] == ActorJson(c.act.value))
            && "nbf" !in m && "aud" !in m
  {
    hide Itoa, ActorJson, RolesJson;
    KeysDiffer();
  }

  /** Keys of one length that could be confused differ in their first characters. */
  lemma KeysDiffer()
    ensures "iss"[0] != "sub"[0] && "sid"[1] != "sub"[1] && "act"[0] != "sub"[0]
    ensures "roles"[0] != "grade"[0] && "spawn"[0] != "roles"[0] && "spawn"[0] != "grade"[0]
  {
  }

  /** The payload signed for any claims decodes to the same claims. */
  lemma ClaimsReadBack(c: Claims)
    requires Int64(c.iat) && Int64(c.exp) && Int64(c.cia)
    ensures ClaimsOf(Payload(c)) == c
  {
    hide Itoa, ParseInt64, Payload, ActorJson, ActorOfJson;
    PayloadTexts(c);
    PayloadOthers(c);
    ItoaReads(c.iat);
    ItoaReads(c.exp);
    ItoaReads(c.cia);
    if c.act.Some? { ActorReadsBack(c.act.value); }
    assert StringsOf(RolesJson(c.roles).items) == c.roles;
  }
}
