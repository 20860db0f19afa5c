/** Starting an issuer: which settings are accepted, and the configuration they give. */
module Setup {
  import opened Text
  import opened Decimal
  import opened Names
  import opened Paths
  import opened Delegation
  import C = Claims

  /** `ttl` is in nanoseconds, and zero when none is set. */
  datatype Settings = Settings(iss: string, socketPath: string, keyPath: string, runtimeRoles: seq<string>,
                               delegable: Option<seq<string>>, spawnRoot: string, ttl: int)

  datatype Refusal = NoKeyPath | SocketNotAbsolute | TtlOutOfRange | BadRole | RootNotAbsolute | NotTrusted

  /** A path up to its last slash. */
  function UpToSlash(path: string): (r: string)
    ensures Absolute(path) ==> Absolute(r)
  {
    if path == "" || path[|path| - 1] == '/' then path else UpToSlash(path[..|path| - 1])
  }

  /** filepath.Dir */
  function Dir(path: string): string { Clean(UpToSlash(path)) }

  function EffectiveTtl(s: Settings): int {
    if s.ttl == 0 then C.MAX_LIFETIME_SECONDS * SECOND else s.ttl
  }

  function EffectiveRoot(s: Settings): string {
    if s.spawnRoot == "" then Clean(Dir(s.socketPath) + "/spawn") else s.spawnRoot
  }

  function EffectiveIssuer(s: Settings): string {
    if s.iss == "" then "unix://" + s.socketPath else s.iss
  }

  /** Every role of every list is a role name. */
  method RolesValid(lists: seq<seq<string>>) returns (ok: bool)
    ensures ok <==> forall i :: 0 <= i < |lists| ==> AllRoleNames(lists[i])
  {
    hide RoleName;
    for i := 0 to |lists|
      invariant forall k :: 0 <= k < i ==> AllRoleNames(lists[k])
    {
      for j := 0 to |lists[i]|
        invariant forall k :: 0 <= k < j ==> RoleName(lists[i][k])
      {
        if !RoleName(lists[i][j]) { return false; }
      }
    }
    return true;
  }

  /** Whether check `k` of the start passes. `trusted` says whether the keys and directories load. */
  predicate StartPasses(s: Settings, trusted: bool, k: int) {
    match k
    case 0 => s.keyPath != ""
    case 1 => Absolute(s.socketPath)
    case 2 => 60 * SECOND <= EffectiveTtl(s) <= C.MAX_LIFETIME_SECONDS * SECOND
    case 3 => AllRoleNames(s.runtimeRoles) && (s.delegable.Some? ==> AllRoleNames(s.delegable.value))
    case 4 => Absolute(EffectiveRoot(s))
    case 5 => trusted
    case _ => true
  }

  function StartRefusal(k: int): Refusal {
    match k
    case 0 => NoKeyPath
    case 1 => SocketNotAbsolute
    case 2 => TtlOutOfRange
    case 3 => BadRole
    case 4 => RootNotAbsolute
    case _ => NotTrusted
  }

  /** Starts exactly on settings that pass every check, refuses with the first that fails, and gives a
      configuration the issuer can run on. */
  method NewIssuer(s: Settings, uid: nat, trusted: bool) returns (r: Result<Config, Refusal>, ghost failed: int)
    ensures r.Err? ==> 0 <= failed < 6 && !StartPasses(s, trusted, failed) && r.error == StartRefusal(failed)
                       && forall k :: 0 <= k < failed ==> StartPasses(s, trusted, k)
    ensures r.Ok? ==> forall k :: 0 <= k < 6 ==> StartPasses(s, trusted, k)
    ensures r.Ok? ==> ValidConfig(r.value) && r.value.iss != "" && r.value == Config(EffectiveIssuer(s), s.runtimeRoles, s.delegable, EffectiveTtl(s), uid, Clean(EffectiveRoot(s)))
    ensures s.spawnRoot == "" && r.Err? ==> r.error != RootNotAbsolute
    ensures r.Ok? ==>
              && r.value.ttl == (if s.ttl == 0 then 43_200_000_000_000 else s.ttl) && 60_000_000_000 <= r.value.ttl <= 43_200_000_000_000
              && r.value.iss == (if s.iss == "" then "unix://" + s.socketPath else s.iss)
              && r.value.runtimeRoles == s.runtimeRoles && r.value.delegable == s.delegable && r.value.uid == uid
              && (s.spawnRoot != "" ==> r.value.root == Clean(s.spawnRoot))
    ensures r.Err? ==> match r.error
              case NoKeyPath => s.keyPath == ""
              case SocketNotAbsolute => s.keyPath != "" && !(s.socketPath != "" && s.socketPath[0] == '/')
              case TtlOutOfRange => s.ttl != 0 && !(60_000_000_000 <= s.ttl <= 43_200_000_000_000)
              case BadRole => !AllRoleNames(s.runtimeRoles) || (s.delegable.Some? && !AllRoleNames(s.delegable.value))
              case RootNotAbsolute => s.spawnRoot != "" && s.spawnRoot[0] != '/'
              case NotTrusted => !trusted
  {
    hide AllRoleNames, Clean;
    failed := -1;
    if s.keyPath == "" { return Err(NoKeyPath), 0; }
    if !Absolute(s.socketPath) { return Err(SocketNotAbsolute), 1; }
    var ttl := s.ttl;
    if ttl == 0 { ttl := C.MAX_LIFETIME_SECONDS * SECOND; }
    if ttl < 60 * SECOND || ttl > C.MAX_LIFETIME_SECONDS * SECOND { return Err(TtlOutOfRange), 2; }
    var lists := [s.runtimeRoles, if s.delegable.Some? then s.delegable.value else []];
    var roles := RolesValid(lists);
    NoRoles();
    assert lists[0] == s.runtimeRoles && AllRoleNames(lists[1]) == (s.delegable.Some? ==> AllRoleNames(s.delegable.value));
    if !roles { return Err(BadRole), 3; }
    var root := s.spawnRoot;
    if root == "" { root := Clean(Dir(s.socketPath) + "/spawn"); }
    DefaultRootIsAbsolute(s.socketPath);
    if !Absolute(root) { return Err(RootNotAbsolute), 4; }
    if !trusted { return Err(NotTrusted), 5; }
    CleanIsAbsolute(root);
    CleanTwice(root);
    var iss := s.iss;
    if iss == "" { iss := "unix://" + s.socketPath; }
    r := Ok(Config(iss, s.runtimeRoles, s.delegable, ttl, uid, Clean(root)));
  }

  lemma NoRoles()
    ensures AllRoleNames([])
  {
  }

  lemma CleanIsAbsolute(path: string)
    requires Absolute(path)
    ensures Absolute(Clean(path))
  {
  }

  /** Without a root of its own the issuer uses the directory spawn beside its socket. */
  lemma DefaultRootIs(s: Settings, dir: string, file: string)
    requires s.spawnRoot == "" && Absolute(dir) && Clean(dir) == dir && PlainElement(file)
    requires s.socketPath == (if dir == "/" then "" else dir) + "/" + file
    ensures Clean(EffectiveRoot(s)) == (if dir == "/" then "" else dir) + "/spawn"
  {
    hide Clean;
    var up := (if dir == "/" then "" else dir) + "/";
    UpToLastSlash(up, file);
    var before := ExtendsInPlace(dir, "spawn");
    if dir == "/" { assert up == "/"; } else { CleanWithSlash(dir); }
    assert EffectiveRoot(s) == Clean(Dir(s.socketPath) + "/spawn") && Dir(s.socketPath) == dir;
    assert dir + "/spawn" == dir + "/" + "spawn";
    CleanTwice(dir + "/spawn");
  }

  lemma {:induction false} UpToLastSlash(up: string, file: string)
    requires up != "" && up[|up| - 1] == '/' && '/' !in file
    ensures UpToSlash(up + file) == up
    decreases |file|
  {
    if file == "" {
      assert up + file == up;
    } else {
      assert (up + file)[..|up + file| - 1] == up + file[..|file| - 1] && (up + file)[|up + file| - 1] == file[|file| - 1];
      UpToLastSlash(up, file[..|file| - 1]);
    }
  }

  /** A trailing slash makes no difference to a clean path. */
  lemma CleanWithSlash(dir: string)
    requires Absolute(dir) && Clean(dir) == dir
    ensures Clean(dir + "/") == dir
  {
    hide Split;
    SplitSnoc(dir, "");
    assert dir + "/" + "" == dir + "/";
    ResolveNext(Split(dir, '/'), true, [], "");
    assert (dir + "/")[0] == dir[0];
  }

  /** The default root lies beside the socket. */
  lemma DefaultRootIsAbsolute(socket: string)
    requires Absolute(socket)
    ensures Absolute(Clean(Dir(socket) + "/spawn"))
  {
    hide Clean;
    CleanIsAbsolute(UpToSlash(socket));
    CleanIsAbsolute(Dir(socket) + "/spawn");
  }
}
