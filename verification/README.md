# A verified model of clagentic-gatekeeper's identity core

This project models, in Dafny, the parts of clagentic-gatekeeper that decide who an agent is and how its
identity reaches the commands it runs, and proves what they promise for every input, every run and every
interleaving. Each module is one file.

**Runtime binding** (`Kernel`, `Binding`, `Wrappers`). The kernel's process table is a step relation: processes fork,
exec, exit, linger as zombies, are reparented, and pids are reused, between any two reads. A (pid, start time)
pair never recurs; a process changes its parent only when the parent exits, and is then adopted by init or by
a proper ancestor of the parent. Against any such table `BindRuntime` reads a process through `/proc` step by
step, climbs to the runtime, and re-reads the whole chain. When it succeeds there is one instant, between the
two passes, at which every member of the chain was running and was the child of the next. `Wrappers` tells the
climb from the process table alone: which file names and command lines make a shell a wrapper, and to which
process a helper under any such shells is bound.

**The issuer** (`Setup`, `Names`, `RuntimeNames`, `Paths`, `Claims`, `Tokens`, `Narrowing`, `Registry`,
`SpawnDirs`, `Delegation`, `Issuer`, `Requests`, `Custody`) and **the verifier** (`Verifier`, `Contract`), with
`Acceptance` between them. The issuer is a class whose ghost log holds every assertion it returned. `Valid()` says that each log
entry obeys the rule of sessions or of children against the entries before it, that signatures are distinct,
and that the pruning registry still has every live assertion. `Requests` lets requests overlap, with the clock
sample, the registry lookup and the registry put of each as separate steps. `Custody` joins the issuer with
runtime binding: all assertions of a tree are held by one process instance, running from one binding to the
other. `Delegation` derives what follows for whole trees of any depth. What a request is answered with, and what each
refusal means, is told of the request itself. The verifier is specified as fifteen contract steps, each stated
on its own; `Contract` has the identity contract's document once more, from the token's text and members, and
shows that the verifier accepts exactly what meets it and what every failure code says. `Acceptance` shows
exactly which issued tokens it accepts, with the key as the issuer publishes it.

**Hook delivery** (`HookRace`, `HookCalls`, `HookOrphans`, `Store`, `Delivery`, `Stdin`, `StdinDrain`, `Compose`,
`ComposedCalls`, `AgentDelivery`). Any number of hook processes race for one agent; link(2) is the only atomic
step that creates a record. `HookCalls` says what each process returns, told from its own calls and the records
they met, and which calls succeed. The record store writes whole files and moves or links them into place. The stdin of a composed hook is read by two
goroutines. A composed reply is the upstream's, byte for byte, or the upstream's with one addition;
`ComposedCalls` tells it of the event the runtime writes and the reply that goes back, member by member.

**Parsers and rewriters** (`Lexer`, `ReadOnly`, `Commands`, `Registration`, `FlagScan`, `FlagLines`, `Decimal`,
`Json`, `Settings`, `SettingsLaws`, `SettingsRemoval`, `SettingsEdit`, `SettingsText`, `MarkerSafety`,
`Removability`). The shell lexer, the shell quoter and the words a shell makes of it, the flag scan against Go's
flag parser, and the settings edit and its removal. `Commands`, `FlagLines` and `SettingsText` tell them of the
commands, command lines and settings as they are written.

**Texts** (`Text`, `Patterns`, `Utf8`). The string functions of Go's library, the regular expressions of the
code against the predicates that stand for them, and UTF-8.

**Publishing** (`Publish`). A directory with entries on disk and operations a crash may lose, each
independently, and files whose unflushed content may come back as anything.

## Where a promise holds only on a condition

- `Apply` is idempotent exactly when the path of the binary is marker-safe: the first occurrence of an event's
  marker text in it, if any, is followed by a blank. `MarkerSafety.UnsafePath` gives a path that is not, and
  `SettingsLaws.UnrecognisedGrows` says what happens then: every run adds an entry.
- `Remove` after `Apply` restores settings without a trace of the adapter exactly when every registered
  command is taken for some event's: its own, which a marker-safe path of the binary ensures, or another's,
  because the first argument that mentions that event's marker lets a blank follow it
  (`Removability.RemoveUndoesApplyExactly`). `Removability.RegistrationThatStays` gives a valid installation
  whose entry stays.
- The verifier accepts a session that names no definition only if the configured runtime roles are free of
  duplicates, which `setup.go` does not enforce. `Acceptance.DuplicateRuntimeRoles` gives one that is refused.
  Children and sessions with a definition are not affected.
- A strict prefix of the stdin can be handed on in one case: a read fails and the next read that ends the
  stream reports end of input. `Stdin.FailureCanBeHandedOn` builds the interleaving for every such source, and
  `Stdin.HandedOnIsWhole` shows that there is no other case. The failure is then reported beside it.
- Once nothing is in flight and no removal failed, exactly the recorded directory of an agent is left if and
  only if some hook removed every directory whose record an overtaken stop deleted
  (`HookOrphans.ExactlyTheRecordRemains`). A stop is overtaken when its deletion finds a record after another
  process deleted one between that stop's read and its deletion; a directory is orphaned exactly then
  (`HookOrphans.OrphanedExactly`). If no two stops are ever between their read and their deletion at once,
  nothing is orphaned (`HookOrphans.ApartStopsOrphanNothing`). `HookRace.StopsCanOrphan` gives a run of two
  overlapping stops and a new start that leaves a delivered directory behind. No record ever names a removed
  directory all the same.
- The header comment of `readonly.go` rules out newlines and control characters in words. The code accepts
  them inside quotes, and the model follows the code.
- The guard in `finish` against driven assertions that name a human, and the one against an empty lifetime,
  never refuse a request (`Issuer.SessionsNeverHitTheGuards`, `Issuer.ChildrenNeverHitTheGuards`).
- Without the range check on `iat` and `exp` the 64-bit lifetime subtraction would wrap and pass
  (`Verifier.UnboundedDatesWouldPass`). With it the wrapped and the mathematical difference agree.

## How things outside the code appear

A byte is the character with its code, and a Go string is a sequence of such characters. JSON text and base64
are functions that can be undone (`Tokens.Faithful`); numbers keep their text. A signature verifies only over
a text that was signed (`Tokens.Unforgeable`), and random ids are fresh. The clock, the outcome of each system
call, the parsed definition files, the trusted key sets, the curve operations and the upstream's exit come in
as parameters that may take any value. `Decimal.ParseDuration` takes the result for texts with a decimal
point, which the library computes in floating point, as a parameter. Go's flag parser and `time.ParseDuration`
are modelled from the documented behaviour of the standard library; shell words follow sections 2.2.1 and
2.2.2 of the POSIX Shell Command Language.

## Model

| member | source | states |
|---|---|---|
| Kernel.PresentBetween | internal/identity/binding.go:103-129 | an instance (pid, start time) seen at two instants was in the table at every instant between them |
| Kernel.RunningBefore | internal/identity/binding.go:103-129 | an instance seen at one instant and running, not a zombie, at a later one was running at every instant between them |
| Kernel.AncestorsOnlyShrink | internal/identity/binding.go:103-129 | no kernel step gives an existing process a new ancestor other than init |
| Kernel.AncestorWasAncestor | internal/identity/binding.go:103-129 | an ancestor of a process at a later instant was present and already its ancestor at every earlier one |
| Kernel.ParentBetween | internal/identity/binding.go:93-129 | a process that shows the same instance and the same parent pid, above init, at two instants had that very parent instance, running, at every instant between them |
| Binding.IsCommandWrapper | internal/identity/binding.go:21-46 | true exactly for a shell whose leading options contain a command-string option |
| Binding.WrapperIgnoresLaterArguments | internal/identity/binding.go:26-46 | the answer does not depend on any argument after the first command-string option or first non-option |
| Binding.ProcFs.ReadProc | internal/identity/peer.go:120-171 | the fields returned all belong to one instance of the pid, in the table over the whole read and running as its executable was read; on a quiet table it returns just that process |
| Binding.ProcFs.Confirm | internal/identity/binding.go:79-101 | success means the same instance with the same parent pid is there now and ran the same executable file during the call; a process that has not changed is always confirmed |
| Binding.ProcFs.ReadParent | internal/identity/binding.go:130-165 | a link climbed to was read at an instant within the call, runs as the peer's user, and started no later than its child |
| Binding.ProcFs.Climb | internal/identity/binding.go:130-170 | the chain read obeys the rule of wrappers, hop bound, start order and user, each link at its own instant; it fails on a quiet table exactly when the table has no such chain |
| Binding.ProcFs.FirstPass | internal/identity/binding.go:130-170 | the peer alone, or the climb from a helper, as a chain read link by link; on a quiet table it fails exactly when no runtime exists |
| Binding.ProcFs.ConfirmAll | internal/identity/binding.go:171-182 | success means every link was seen again, unchanged and running the same file, within the second pass |
| Binding.ProcFs.DoubleCollect | internal/identity/binding.go:93-182 | a chain read and then confirmed was real as a whole, every member running, at every instant between the passes |
| Binding.ProcFs.BindRuntime | internal/identity/binding.go:130-182 | on success the chain obeys the rule, is a snapshot of the kernel at one instant between the passes, and each member ran the recorded file after it; on a quiet table it succeeds exactly when the recursive specification names a runtime, and returns that one |
| Binding.ChainOnTable | internal/identity/binding.go:15-46 | a chain read on an unchanging table is the recursive specification's chain |
| Binding.NoRuntime | internal/identity/binding.go:130-170 | when the climb must stop early, no number of hops reaches a runtime |
| Wrappers.ClusterExactly | internal/identity/binding.go:23-25 | any letters around a c, behind one dash, make a command-string option, and every such option is of that form |
| Wrappers.ArgsReadBack | internal/identity/peer.go:166-170 | the arguments up to any that is not empty are read from the kernel's command line as they were given |
| Wrappers.ShellIsWrapper | internal/identity/binding.go:19-46 | a shell under any of the eight names, its file removed or not, started with any options and then such a cluster, is climbed through |
| Wrappers.OthersAreNot | internal/identity/binding.go:30-34 | a process that runs another file is not, whatever its arguments say |
| Wrappers.ScriptIsNot | internal/identity/binding.go:34-46 | nor is a shell whose first argument that is no option comes before any such cluster |
| Wrappers.LadderLeads | internal/identity/binding.go:130-182 | up to three such shells lead from a helper to the process above them; more of them refuse |
| Wrappers.BindThroughShells | internal/identity/binding.go:130-182 | on an unchanging table a helper under such shells is bound to the first process above them that is none, with the start time, file and user the table has |
| Names.RuntimeId | internal/identity/peer.go:222-251 | the id comes from the executable, or for an interpreter from the first argument that is neither empty nor an option, made safe, cut to 128 and refused without a letter or digit |
| Names.DefinitionRoles | internal/identity/definitions.go:145-156 | refused when one role is not a role name; otherwise the listed roles, each where it first stands |
| Names.FirstOfIsDistinct | internal/identity/definitions.go:145-156 | the roles kept are distinct and are exactly those listed |
| RuntimeNames.InterpreterIs | internal/identity/peer.go:221-222 | an interpreter is one of the fourteen names, or python with digits and dots |
| RuntimeNames.ProgramNamed | internal/identity/peer.go:229-251 | a program that is no interpreter is named by its file, whatever its arguments |
| RuntimeNames.ScriptNamed | internal/identity/peer.go:229-251 | an interpreter is named by its script, the first argument that is neither empty nor an option, without directory and extension |
| RuntimeNames.LongNamesAreCut | internal/identity/peer.go:244-246 | a longer name is cut to its first 128 characters |
| RuntimeNames.OthersBecomeDashes | internal/identity/peer.go:243-243 | an ASCII character that no name has becomes a dash |
| RuntimeNames.NothingToName | internal/identity/peer.go:247-249 | without a letter or a digit there is no id |
| RuntimeNames.FirstPlaces | internal/identity/definitions.go:145-156 | a role listed more than once keeps its first place |
| Patterns.NameIs | internal/identity/definitions.go:19-19 | a name is what its regular expression matches |
| Patterns.RoleNameIs | internal/identity/definitions.go:20-20 | so is a role name |
| Patterns.VersionIs | internal/identity/issuer.go:18-18 | so is a version |
| Patterns.ActorSubIs | internal/attestation/assertion_verify.go:126-128 | so is the subject of an actor |
| Patterns.SafeNameIs | internal/hook/payload.go:20-23 | so is an id that may be a file name |
| Patterns.SpawnNameIs | internal/identity/spawndir.go:26-30 | so is the name of a delivery directory |
| Patterns.DeliverableIs | internal/hook/delivery.go:21-24 | so are the characters of a directory that can be delivered |
| Patterns.PlainArgIs | internal/hook/install.go:68-68 | so is an argument that needs no quotes |
| Paths.CleanTwice | internal/identity/issuer.go:244-248 | lexical path cleaning is idempotent, so the directory claim equals its own cleaning |
| Paths.ResolveNext | internal/identity/issuer.go:244-248 | one element more is dropped, added, or takes the one before it away |
| Claims.ActorReadsBack | internal/identity/jws.go:37-40 | an act chain of any depth decodes from its JSON as it was |
| Claims.ClaimsReadBack | internal/identity/jws.go:49-64 | the payload signed for any claims decodes to the same claims |
| Tokens.ParsedWasSigned | internal/identity/jws.go:93-118 | a token ParseOwn accepts was signed by this key, with exactly the claims returned |
| Tokens.TokenReadsBack | internal/identity/jws.go:67-118 | signing claims and parsing the token gives back the claims |
| Narrowing.Intersect | internal/identity/issuer.go:276-295 | splits the roles wanted into those the policy allows and those it does not, each in order; no policy keeps all |
| Narrowing.ChosenSplits | internal/identity/issuer.go:276-295 | each role wanted is kept or dropped, as often as it was wanted |
| Narrowing.ChosenExactly | internal/identity/issuer.go:276-295 | a role is kept exactly when the policy allows it |
| Narrowing.KeptKeepsOrder | internal/identity/issuer.go:192-203 | the kept roles stand in the definition's order |
| Narrowing.Add | internal/identity/issuer.go:55-70 | a step that drops nothing leaves the report, or its absence, alone; any other is added at the end |
| Narrowing.Narrow | internal/identity/issuer.go:188-203 | applies the policies in turn and reports each that dropped something |
| Narrowing.KeptExactly | internal/identity/issuer.go:184-203 | a role survives exactly when it is wanted and every policy allows it |
| Narrowing.NothingLost | internal/identity/issuer.go:55-70 | wanted roles are the kept and the reported ones together, the steps make up all that was dropped, and there is no report exactly when nothing was dropped |
| Registry.Table.Put | internal/identity/registry.go:38-47 | afterwards the table holds the unexpired entries, unchanged, and the new one |
| SpawnDirs.NameReadsBack | internal/identity/spawndir.go:26-30 | a created name carries the pattern exactly for times its ten hexadecimal digits can hold, and then reads back as its time |
| SpawnDirs.HexLength | internal/identity/spawndir.go:82-93 | a number has at most d hexadecimal digits exactly when it is below 16 to the d |
| SpawnDirs.StaleExactly | internal/identity/spawndir.go:140-172 | a created directory is swept exactly when its name can carry its time and it is older than twice the maximum lifetime |
| SpawnDirs.SweptAfterADay | internal/identity/spawndir.go:140-172 | in plain numbers: more than twice twelve hours after the second in its name |
| SpawnDirs.RemovedHasExpired | internal/identity/server.go:330-336 | what the sweep removes holds an assertion that expired at least a maximum lifetime before |
| SpawnDirs.Root.Create | internal/identity/spawndir.go:82-93 | makes a directory under a name that was free, named from the clock sample, or changes nothing |
| SpawnDirs.Root.Reap | internal/identity/spawndir.go:140-172 | removes only listed names of ours whose own time is too old; foreign names stay, vanished ones are not counted, failures are reported in order |
| SpawnDirs.MetExactly | internal/identity/spawndir.go:140-172 | the entries reported under an outcome are exactly the stale listed ones that met it |
| Delegation.ChildRolesExactly | internal/identity/issuer.go:184-203 | a child holds exactly the roles of its definition that its parent holds and that may be delegated |
| Delegation.RolesBelowAncestors | internal/identity/issuer.go:184-203 | no role of an assertion is missing from any assertion it descends from, up to the root session |
| Delegation.ReportIsComplete | internal/identity/issuer.go:184-213 | a child's report and roles together are its definition's roles; no report exactly when nothing was dropped |
| Delegation.ReportBlames | internal/identity/issuer.go:49-70 | a report names, for each role withheld, the deployment's policy, or the parent's for those that may be delegated, with both steps in order |
| Delegation.Lifetimes | internal/identity/issuer.go:209-221 | iat < exp <= iat + 43200, and no assertion outlives one it descends from |
| Delegation.SweptHadExpired | internal/identity/issuer.go:242-248 | a directory carries its assertion's own iat in its name, so a directory the sweep removes held an assertion that had expired |
| Delegation.OneProcessPerTree | internal/identity/issuer.go:158-208 | an assertion and its ancestors are held by one process, by user, pid, start time and executable, and share subject, session and runtime |
| Delegation.TreeSharesAll | internal/identity/issuer.go:158-208 | so do any two assertions under one root |
| Delegation.ActorChainNamesHuman | internal/identity/issuer.go:266-274 | true exactly when some level of the chain is a human |
| Delegation.ChainNamesTheDelegation | internal/identity/issuer.go:121-135 | an act chain names exactly the agents of the delegation from the entry up to its session, and no human |
| Delegation.MajorTwoIsDriven | internal/identity/jws.go:19-31 | contract major 2 is claimed exactly by driven sessions, never by a child, and no origin is human |
| Issuer.Load | internal/identity/definitions.go:114-157 | loads a definition under a valid name from a file declaring that name, with valid distinct roles, and otherwise refuses |
| Issuer.DraftSession | internal/identity/issuer.go:82-135 | refuses with the code of the first failing check, and passes only when all hold |
| Issuer.DraftChild | internal/identity/issuer.go:141-212 | refuses with the code of the first failing check, and passes only when all hold, with the roles narrowed and the end capped by the parent's |
| Setup.RolesValid | internal/identity/setup.go:47-53 | true exactly when every role of every list is a role name |
| Setup.NewIssuer | internal/identity/setup.go:30-99 | starts exactly on settings that pass every check, refuses with the first that fails, and gives a configuration the issuer can run on, with a non-empty issuer and a clean absolute root |
| Setup.DefaultRootIs | internal/identity/setup.go:54-57 | without a root of its own the issuer uses the directory spawn beside its socket |
| Issuer.Service.constructor | internal/identity/setup.go:92-97 | any configuration that a start gives and an empty registry make a valid service, whatever its key signed before |
| Issuer.Service.Prepare | internal/identity/issuer.go:219-248 | refuses with the first failing step and leaves no directory; otherwise fills in the claims and makes the directory they name |
| Issuer.Service.Finish | internal/identity/issuer.go:216-264 | keeps the issuer valid; a refusal leaves registry and log alone, success logs one entry, records its holder and returns its token |
| Issuer.Service.IssueSession | internal/identity/issuer.go:82-138 | keeps the issuer valid; refuses with the first failing check, told of the request, else logs one session as requested and answers with it |
| Issuer.Service.IssueChild | internal/identity/issuer.go:141-214 | keeps the issuer valid; refuses with the first failing check, told of the request, else logs one child as requested of the very entry the parent token stands for |
| Issuer.ParentEntry | internal/identity/issuer.go:151-161 | a token that reads back as ours and is in the registry is a log entry, with that entry's claims and holder |
| Issuer.ChildObeys | internal/identity/issuer.go:184-213 | a child request that passes its checks yields an entry that obeys the rule of children, whatever its parent |
| Issuer.SessionObeys | internal/identity/issuer.go:108-137 | a session request that passes its checks yields an entry that obeys the rule of sessions |
| Issuer.LiveStayFound | internal/identity/registry.go:38-47 | despite pruning, every assertion alive by all clock samples so far is still recorded with its original holder |
| Issuer.LiveTokenDelegates | internal/identity/issuer.go:151-182 | a live token still stands for its assertion, and a request by the process it went to passes every check |
| Issuer.SessionsNeverHitTheGuards | internal/identity/issuer.go:219-241 | a session's lifetime is never empty and the driven guard never refuses one |
| Issuer.ChildrenNeverHitTheGuards | internal/identity/issuer.go:219-241 | the same for children |
| Issuer.SessionAnswered | internal/identity/issuer.go:82-138 | a logged session has the origin the request names, or trigger, contract major 2 exactly when it asked for driven, the version it declares, or unknown, and the definition it names with that one's roles and actor |
| Issuer.SessionRefused | internal/identity/issuer.go:82-138 | what each refusal of a session request says of the request |
| Issuer.ChildAnswered | internal/identity/issuer.go:141-214 | a logged child is the agent and the spawn the request names, with the roles its definition, its parent and the deployment all have, the parent's subject, session and runtime, and the earlier end |
| Issuer.ChildRefused | internal/identity/issuer.go:141-214 | what each refusal of a child request says of the request and the parent token |
| Requests.RunKeepsInv | internal/identity/registry.go:38-54 | what every step of overlapping requests keeps, in every interleaving and with clock samples in any order |
| Requests.LiveDespiteOverlap | internal/identity/registry.go:38-54 | however requests overlap, every assertion alive by all samples so far is found with its original holder, and the log obeys the rules of sessions and children |
| Requests.ChildMayPut | internal/identity/issuer.go:147-257 | a child request that passes its checks on what it found may put its entry, whatever others have put since |
| Requests.SessionMayPut | internal/identity/issuer.go:82-138 | so may a session request |
| Custody.OpenSession | internal/identity/issuer.go:82-138 | a session bound against a changing process table is recorded for a process running at an instant within the call |
| Custody.OpenChild | internal/identity/issuer.go:141-214 | so is a child, under the log entry of its parent |
| Custody.OneLivingHolder | internal/identity/issuer.go:158-178 | any two assertions of one tree are held by one process instance, running at every instant between their bindings |
| Verifier.SigningKeys | internal/attestation/assertion_verify.go:199-216 | the keys, in the order published and as often, that match the kid, are for signatures and declare no other algorithm, and none for an empty kid |
| Verifier.SigningExactly | internal/attestation/assertion_verify.go:199-216 | a key is selected exactly when it is published and may sign for that kid and algorithm |
| Verifier.EveryLevelIsAnActor | internal/attestation/assertion_verify.go:218-230 | a chain is valid exactly when every level of it is an agent or a runtime |
| Verifier.RolesShapeValid | internal/attestation/assertion_verify.go:246-257 | true exactly for a list of distinct role names |
| Verifier.ClaimsShapeValid | internal/attestation/assertion_verify.go:232-306 | true exactly when the claims meet section 3.1 of the identity contract, stated as a conjunction |
| Verifier.VerifyAssertion | internal/attestation/assertion_verify.go:308-419 | accepts exactly the tokens for which every contract step holds, else reports the earliest that fails; returns the actor, roles and grade the claims say |
| Verifier.VerifyClaims | internal/attestation/assertion_verify.go:353-391 | the date and shape steps in order, with the subtraction in 64-bit arithmetic equal to the mathematical one |
| Verifier.VerifyBinding | internal/attestation/assertion_verify.go:392-418 | the audience and directory steps in order; no member is read at a type it need not have |
| Verifier.Shaped | internal/attestation/assertion_verify.go:392-418 | a valid shape gives every member the code reads without asking the type it is read at |
| Verifier.UnboundedDatesWouldPass | internal/attestation/assertion_verify.go:375-379 | two 64-bit dates whose wrapped difference passes the lifetime cap though the real one does not |
| Contract.ShapeIsTheContracts | docs/identity-contract.md:102-147 | the shape asked for is sections 3.1 and 3.3 of the contract, with names and roles as their patterns have them |
| Contract.MeetsExactly | docs/identity-contract.md:158-193 | a token is accepted exactly when it meets the steps of section 4, told of its text, its header and its claims |
| Contract.RefusalsMean | docs/identity-contract.md:201-221 | a refusal says what section 4.1 says its code is raised for |
| Contract.UnusableKeysRefuse | internal/attestation/assertion_verify.go:193-216 | no token is accepted when every key under its kid is for another use or another alg |
| Contract.AcceptedSays | internal/attestation/assertion_verify.go:406-418 | what is returned is the issuer, the outermost actor, the roles in order and the grade |
| Acceptance.ActorsAreActors | internal/identity/issuer.go:121-135 | every level of an issued act chain is an agent or a runtime |
| Acceptance.RolesAreDistinct | internal/identity/issuer.go:124-135 | issued roles are distinct exactly when a definition was loaded or the runtime roles are distinct |
| Acceptance.ShapeHolds | internal/attestation/assertion_verify.go:232-306 | an issued payload has the contract's shape exactly when its roles are distinct |
| Acceptance.IssuedTokensAreAccepted | internal/attestation/assertion_verify.go:308-419 | the verifier accepts an issued token exactly from iat up to but excluding exp, given distinct runtime roles where no definition is named, and reads the same actor, grade and roles |
| Acceptance.DuplicateRuntimeRoles | internal/identity/setup.go:47-53 | a configuration the start accepts under which a session's claims do not have the contract's shape |
| HookRace.RunKeepsInv | internal/hook/claude.go:266-339 | what every step of every process keeps, in every interleaving |
| HookRace.RecordNeverNamesRemoved | internal/hook/claude.go:319-339 | no stored record ever names a directory some hook has begun to remove |
| HookRace.SuccessfulCallsAgree | internal/hook/claude.go:260-317 | calls that succeed with no record deleted between them return the same directory |
| HookCalls.CallsAsWritten | internal/hook/claude.go:266-339 | a process can make a call exactly where the program makes it |
| HookCalls.StandsByItsCalls | internal/hook/claude.go:266-339 | in every interleaving a process stands, and returns, as its own calls and the records they met say, one line for each way through |
| HookCalls.EveryoneGetsTheRecord | internal/hook/claude.go:300-317 | without a stop and without a failure every process that has returned holds the recorded directory |
| HookCalls.FindersReturnIt | internal/hook/claude.go:273-277 | a first look that finds a record returns its directory and the process issues nothing |
| HookCalls.LosersReturnTheWinners | internal/hook/claude.go:307-315 | a process that loses and rereads before any deletion returns the directory recorded when it lost |
| HookCalls.StopsTakeItAway | internal/hook/claude.go:319-339 | a stop that ran to its end has left neither the directory it read nor a record of it |
| HookRace.ReturnedWasRecorded | internal/hook/claude.go:260-317 | the directory a call returned was the recorded one, there and not begun to be removed, right after its process read or recorded it |
| HookRace.WhatRemains | internal/hook/claude.go:300-317 | with nothing in flight and no failure the directories left are the recorded one and the orphans no hook has removed |
| HookRace.OneDirectoryRemains | internal/hook/claude.go:300-317 | without a stop exactly the recorded directory is left, and it is the one every successful call returned |
| HookRace.StopsCanOrphan | internal/hook/claude.go:319-339 | a run of two stops and a new start after which a delivered directory has no record |
| HookOrphans.OrphanedExactly | internal/hook/claude.go:319-339 | a directory is orphaned exactly when some stop's deletion found its record after another process's deletion fell between that stop's read and it |
| HookOrphans.RemovedExactly | internal/hook/claude.go:300-339 | a directory counts as removed exactly when some process at its removing step named it |
| HookOrphans.ExactlyTheRecordRemains | internal/hook/claude.go:260-339 | with nothing in flight and no failure exactly the recorded directory is left if and only if every directory an overtaken stop orphaned was removed |
| HookOrphans.ApartStopsOrphanNothing | internal/hook/claude.go:319-339 | when no two stops are ever between read and deletion at once nothing is orphaned, and exactly the recorded directory is left |
| Store.PathsAreDistinct | internal/hook/state.go:87-106 | records of different sessions or agents never share a file |
| Store.RecordFiles | internal/hook/state.go:87-106 | a session's record and its agents' are files of their own in the session's directory |
| Store.TempsAreNotRecords | internal/hook/state.go:179-193 | a temporary file is never the file of a record |
| Store.PathElements | internal/hook/state.go:73-106 | a record lies in its session's directory under the root, whatever the names |
| Store.RecordStore.Get | internal/hook/state.go:108-126 | refuses bad names and roots, says none for a missing file, and otherwise returns the record stored |
| Store.RecordStore.Put | internal/hook/state.go:128-143 | replaces the record, or leaves it; at no moment does a reader find anything but the old or the new one |
| Store.RecordStore.PutNew | internal/hook/state.go:145-165 | stores the record exactly when there was none and says so, and removes its temporary file either way |
| Store.RecordStore.Delete | internal/hook/state.go:167-177 | removes just that record; a missing one is no error |
| Delivery.DeliveredIsRecognised | internal/hook/delivery.go:38-50 | a command with the statement in front is recognised as delivered |
| Delivery.StatementReads | internal/hook/delivery.go:21-45 | a shell reads the statement as export and one assignment naming the directory as it is |
| Delivery.Tree.RemoveDelivery | internal/hook/delivery.go:72-100 | touches at most the one directory named, and only a plain path with an issuer's name that is our directory with an assertion; a failure may leave it with or without the assertion |
| Delivery.IssuedDirsAreRemovable | internal/hook/delivery.go:24-36 | every directory created under a plain root can be delivered, and can be removed exactly when its name can carry its time |
| Stdin.Copy.Record | internal/hook/upstream.go:151-171 | keeps what fits of one read, notes how it ended, and shows the reader a failure as the end |
| Stdin.RunKeepsInv | internal/hook/upstream.go:137-199 | in every interleaving reads are recorded in the order they were made, and each that ended the stream ended its reader |
| Stdin.KeptIsThePrefix | internal/hook/upstream.go:151-171 | the copy is the first bytes read, up to the limit, in order |
| Stdin.HandedOnIsWhole | internal/hook/upstream.go:206-224 | bytes handed on are the whole stdin when it fits the cap and otherwise longer than the cap, unless a reported failure came before the end |
| Stdin.FailureCanBeHandedOn | internal/hook/upstream.go:173-224 | for every source with a failed read and then the end of input, an interleaving that hands bytes on |
| StdinDrain.DrainedIsHandedOn | internal/hook/upstream.go:173-206 | once the drain has ended a stdin that ends within the cap is handed on whole, in every interleaving with the upstream's own reads |
| StdinDrain.HandedOnUnread | internal/hook/upstream.go:173-206 | a run of the drain hands it on whole even when the upstream reads nothing |
| Compose.VerdictExactly | internal/hook/upstream.go:125-133 | a hook that exited by itself has a verdict whether or not the deadline passed; a killed one has none |
| Compose.PayloadIsTheWholeStdin | internal/hook/upstream.go:249-267 | what is parsed as the payload is the whole stdin, or a read failed before the end and that is reported |
| ComposedCalls.PayloadReadsBack | internal/hook/payload.go:38-76 | an event within the cap is read as the session, agent, type, tool and input its members name, one that is missing or of another type as empty; a larger one is not read |
| ComposedCalls.WrittenReadsBack | internal/hook/payload.go:38-76 | what a runtime writes for a call, among any other members, is read as that call |
| ComposedCalls.DeliversAlreadyExactly | internal/hook/delivery.go:46-50 | a command counts as delivered exactly when it opens with the statement behind blanks and tabs |
| Compose.Prefix | internal/hook/claude.go:351-400 | the statement is put in front of a command exactly when the command, the record, its expiry, its directory and the mode call for it, and otherwise the word returned is that of the first step that does not |
| Compose.DeliversWhenNothingStops | internal/hook/claude.go:351-400 | a delivery takes place exactly when no step stops it |
| ComposedCalls.DeliversWhat | internal/hook/claude.go:351-400 | a delivery takes the agent's record, or the session's for its own type, unexpired, a usable directory and the mode, and puts the export of that directory in front |
| ComposedCalls.WordsMean | internal/hook/claude.go:351-400 | what the word for a delivery that did not take place says |
| AgentDelivery.DeliveredWasRecorded | internal/hook/claude.go:351-400 | the directory put in front of an agent's command is one the race recorded, and no hook had begun to remove it when it was read or recorded |
| Compose.NeverTwice | internal/hook/claude.go:353-356 | a command that carries the statement never gets another |
| Compose.MergeRewrite | internal/hook/claude.go:402-441 | the reply with the new command in place of the old and the event name filled in, every other member kept |
| Compose.MergedMeans | internal/hook/claude.go:402-441 | the runtime runs the tool with the same input but for the command, and every decision and other member is kept |
| Compose.ReadReply | internal/hook/upstream.go:312-345 | a reply is taken up exactly when it is readable and neither stops nor decides anything but allow, with its specific part and the input it leaves |
| Compose.ComposedPreToolUse | internal/hook/upstream.go:282-359 | the upstream's result byte for byte, or its reply with that one addition, and exactly when |
| Compose.HandleComposed | internal/hook/upstream.go:249-280 | the same from the captured stdin; an upstream without a verdict yields nothing |
| Compose.RefusalsPassThrough | internal/hook/upstream.go:311-375 | a failing exit, unreadable output, a stop or a decision other than allow is never rewritten |
| Compose.Standalone | internal/hook/upstream.go:377-392 | alone, the reply carries the new input and no decision, or there is no output |
| ComposedCalls.HandleEvent | internal/hook/upstream.go:249-375 | told of the event: a Bash call left open gets the upstream's reply with the statement in front of the command and the event's name, every other the upstream's own bytes |
| ComposedCalls.HandleAlone | internal/hook/claude.go:344-349 | alone it gets a reply with the new input and nothing else, or nothing |
| Lexer.ReadQuote | internal/hook/readonly.go:153-173 | reads the quoted text that opens the rest, and fails when it is not closed or a double-quoted one could expand |
| Lexer.StepDiscard | internal/hook/readonly.go:211-224 | each discard redirection before a blank, an operator or the end is skipped as a whole word |
| Lexer.LexLine | internal/hook/readonly.go:115-209 | the scanner reads back every line of the grammar as its simple commands |
| Lexer.Sound | internal/hook/readonly.go:115-209 | whatever the scanner accepts is written by the grammar |
| Lexer.AcceptedExactly | internal/hook/readonly.go:115-209 | the scanner accepts exactly the lines of the grammar, with the segments of the line |
| Lexer.SplitSimpleCommands | internal/hook/readonly.go:115-209 | succeeds exactly on the lines of the grammar, and every line that writes the command has these segments |
| Commands.Joined | internal/hook/readonly.go:115-209 | two accepted commands are accepted with any of the four operators between them |
| Commands.NotJoined | internal/hook/readonly.go:176-196 | a background operator, a pipe of both streams and an operator at the end are refused |
| Commands.FirstWord | internal/hook/readonly.go:197-209 | one word of bare text is a command exactly when nothing in it is active |
| Commands.NextWord | internal/hook/readonly.go:115-224 | bare text behind a command is one of the two discards, a word when nothing in it is active, or refuses the whole |
| Commands.JoiningStreams | internal/hook/readonly.go:51-54 | joining standard error to standard output adds nothing |
| Commands.NextQuoted | internal/hook/readonly.go:153-173 | quoted text behind a command is a word as it stands, unless double-quoted text could expand |
| ReadOnly.DateArgs | internal/hook/readonly.go:72-80 | true exactly when every operand is a display format or option |
| ReadOnly.IsHarmless | internal/hook/readonly.go:90-104 | true exactly for an unquoted utility of the closed set whose words name no environment and which its own rule admits |
| ReadOnly.CannotUseIdentity | internal/hook/readonly.go:82-106 | true exactly for the lines of the grammar all of whose simple commands are harmless |
| Commands.DecidedOnWords | internal/hook/readonly.go:82-106 | the decision is made on the words as read |
| Commands.HarmlessExactly | internal/hook/readonly.go:38-80 | harmless is one of nine utilities, unquoted, no later word naming the environment, and date only asked to display |
| Commands.EnvironmentNamed | internal/hook/readonly.go:108-113 | a word names the environment when it mentions /proc or environ in whatever case, and an ASCII word only then |
| Utf8.LowersCharacters | internal/hook/readonly.go:108-113 | lower case of any character, as far as it is an ASCII letter |
| Utf8.TrimsSpaces | internal/hook/upstream.go:317-319 | white space of Unicode is taken off both ends of a text |
| Utf8.OnlySpacesLead | internal/hook/upstream.go:317-319 | nothing else is |
| Utf8.RuneIsEncoded | internal/identity/peer.go:243-243 | a character at the front of a text is as long as its encoding |
| Utf8.LongRunesAreEncoded | internal/identity/peer.go:243-243 | more than one byte is taken for a character only where one stands encoded |
| ReadOnly.PrintedCommandsReadBack | internal/hook/readonly.go:115-209 | any non-empty word lists without quotes, printed quoted and joined by semicolons, are read back |
| ReadOnly.NothingActiveOutsideQuotes | internal/hook/readonly.go:12-29 | outside quotes an accepted command has nothing a shell expands, no control character, and no redirection but the discards |
| Decimal.ItoaReads | internal/attestation/assertion_verify.go:155-162 | a 64-bit integer reads back from its decimal text |
| Decimal.SecondsReadBack | cmd/gatekeeper/hook_cmd.go:128-137 | a whole number of seconds reads back as that duration, up to the range of a duration |
| Decimal.UnitsReadBack | cmd/gatekeeper/hook_cmd.go:128-137 | so does a whole number of any unit |
| Registration.QuoteRoundTrip | internal/hook/install.go:66-75 | quoting any string and reading it as a shell does is the identity |
| Registration.JoinRoundTrip | internal/hook/install.go:100-122 | a command line of quoted arguments is read back as the arguments |
| Registration.CommandReadsAsArgv | internal/hook/install.go:100-122 | a shell given the registered command runs the binary with exactly the intended arguments |
| Registration.CommandRunsWords | internal/hook/install.go:100-122 | a shell given an event's command runs just these words |
| Registration.ComposeSurvivesTheShell | cmd/gatekeeper/hook_cmd.go:139-154 | in a composed registration the hook finds exactly the composed path and its seconds |
| Registration.NoComposeNothingFound | cmd/gatekeeper/hook_cmd.go:139-154 | in every other registration it finds none |
| Registration.FixedComposeExactly | cmd/gatekeeper/hook_cmd.go:139-154 | what is found at the fixed position of any argument list, and with which budget |
| FlagScan.ScanFollowsParse | cmd/gatekeeper/hook_cmd.go:189-242 | wherever a parse ends, the scan passes the same place with the same values |
| FlagScan.FindCompose | cmd/gatekeeper/hook_cmd.go:189-242 | on every command line the flag library accepts the result is the parse's own values |
| FlagLines.ScansLine | cmd/gatekeeper/hook_cmd.go:172-242 | every line of options, among tokens that are none, is scanned to the values last given |
| FlagLines.ParsesLine | cmd/gatekeeper/hook_cmd.go:157-187 | the library accepts every line of known options up to where they end, with the values last given |
| FlagLines.FindOnLine | cmd/gatekeeper/hook_cmd.go:172-242 | on such a line the composed hook last named is found, with the budget last given or five seconds |
| SettingsLaws.EditEntriesLaws | internal/hook/install.go:217-242 | one group keeps every foreign entry in order and at most one of ours |
| SettingsLaws.EditGroupsLaws | internal/hook/install.go:213-249 | so does one event, over all its groups |
| SettingsLaws.EventLaws | internal/hook/install.go:207-262 | an event ends with exactly one entry of ours, everything foreign as it was, and a second edit changes nothing |
| SettingsLaws.UnrecognisedGrows | internal/hook/install.go:124-142 | a command not recognised as ours is registered again every time |
| SettingsLaws.RegisterTwice | internal/hook/install.go:198-262 | a second registration changes nothing exactly when every registered command is recognised |
| SettingsLaws.AddRuleTwice | internal/hook/permission_rule.go:45-72 | adding the rule a second time changes nothing |
| SettingsLaws.ApplyTwice | internal/hook/install.go:194-268 | Apply is idempotent exactly when every command it registers is recognised as its own |
| SettingsLaws.ApplyKeepsTheRest | internal/hook/install.go:194-268 | after Apply each event has one entry of ours and every foreign group, entry and member stands in order |
| SettingsText.OursExactly | internal/hook/install.go:124-133 | an entry is an event's exactly when the first mention of the event behind the adapter's name ends the command or is followed by a blank |
| SettingsText.RegisteredAs | internal/hook/install.go:194-262 | what is written for each event: a new group at the end where there was none, and every entry of ours with the command and the time, eight seconds longer for a composed one |
| SettingsText.RuleAdded | internal/hook/permission_rule.go:45-72 | the rule is added behind the others, once |
| SettingsText.ValidMeans | internal/hook/install.go:77-98 | an installation that can be registered |
| SettingsRemoval.HooksRestored | internal/hook/install.go:270-320 | removing after registering gives back the hooks object |
| SettingsRemoval.RuleRestored | internal/hook/permission_rule.go:74-106 | removing the rule after adding it gives back the permissions |
| SettingsRemoval.RemoveUndoesApply | internal/hook/install.go:194-320 | Remove after Apply restores any settings without a trace of ours exactly when every registered command is recognised by some event |
| SettingsRemoval.RecognisedIsRemovable | internal/hook/install.go:124-142 | commands recognised as their own event's are removed |
| SettingsText.AnyOursExactly | internal/hook/install.go:134-142 | a command is ours exactly when it is one of the five events' |
| SettingsText.StripsEachEntry | internal/hook/install.go:287-297 | a removal takes each entry on its own: one of ours goes, any other stays where it stands |
| SettingsText.StripsEachGroup | internal/hook/install.go:287-305 | so does it each group: one that this empties goes |
| SettingsText.SucceedsExactly | internal/hook/install.go:146-183 | a registration and a removal succeed exactly on settings that have an object or an array, or nothing, wherever they look for one |
| SettingsText.RemovedFrom | internal/hook/install.go:270-320 | in any settings an event has the groups that are left of it, or is gone when none is |
| SettingsText.RemovalKeeps | internal/hook/install.go:270-320 | every other hook and setting is left alone |
| SettingsText.RuleRemoved | internal/hook/permission_rule.go:74-106 | every copy of the rule goes, every other rule stays where it stands, and what that empties goes too |
| Removability.TakenFor | internal/hook/install.go:124-142 | a registered command is taken for its own event's exactly when the path of the binary is harmless, and for another's exactly when the first argument to mention that marker does so harmlessly |
| Removability.RemovableIffSafe | internal/hook/install.go:134-142 | every command is removed exactly when each is taken for some event's, told from the arguments |
| Removability.RemoveUndoesApplyExactly | internal/hook/install.go:194-320 | Remove after Apply restores settings without a trace of ours exactly under that condition |
| Removability.RemoveUndoesApplyWhenSafe | internal/hook/install.go:194-320 | it does whenever the path of the binary is marker-safe |
| Removability.RegistrationThatStays | internal/hook/install.go:124-142 | a valid installation whose session-start entry a removal leaves |
| SettingsRemoval.AppliesExactly | internal/hook/install.go:146-183 | Apply succeeds exactly on a valid installation and settings that have an object or array, or nothing, wherever it edits |
| MarkerSafety.RecognisedIffMarkerSafe | internal/hook/install.go:124-142 | the registered commands are recognised exactly when the path of the binary is marker-safe |
| MarkerSafety.ApplyIdempotentIffMarkerSafe | internal/hook/install.go:194-268 | Apply is idempotent exactly when the path of the binary is marker-safe |
| MarkerSafety.UnsafePath | internal/hook/install.go:124-142 | a path that is not marker-safe |
| SettingsEdit.IsAnyOurs | internal/hook/install.go:134-142 | true exactly when the command is some event's entry of ours |
| SettingsEdit.EditEntryList | internal/hook/install.go:217-242 | the loop over entries makes the edit of one group and reports a change exactly when it made one |
| SettingsEdit.EditGroupList | internal/hook/install.go:213-250 | the loop over groups makes the edit of one event |
| SettingsEdit.StripEntryList | internal/hook/install.go:289-297 | the loop over entries drops exactly our entries |
| SettingsEdit.StripGroupList | internal/hook/install.go:287-305 | the loop over groups drops them and the groups they emptied |
| SettingsEdit.SettingsFile.AddAllowRule | internal/hook/permission_rule.go:45-72 | the in-place edit of permissions is the specified one |
| SettingsEdit.SettingsFile.RemoveAllowRule | internal/hook/permission_rule.go:74-106 | the in-place removal of the rule is the specified one |
| SettingsEdit.SettingsFile.Apply | internal/hook/install.go:194-268 | the in-place edit leaves the specified settings and reports a change exactly when there is one |
| SettingsEdit.SettingsFile.Remove | internal/hook/install.go:270-320 | the in-place removal leaves the specified settings and reports a change exactly when there is one |
| Publish.SettledHasOneOutcome | internal/identity/publish_linux.go:12-21 | in a flushed directory a crash finds exactly what a program sees |
| Publish.ChangingElsewhere | internal/identity/publish_linux.go:41-52 | writing a file no crash can leave at the name changes nothing there |
| Publish.PlacingFlushed | internal/identity/publish_linux.go:53-63 | moving or linking a flushed file to the name adds at most its complete content to what a crash can leave |
| Publish.FlushingDirectory | internal/identity/publish_linux.go:64-66 | flushing the directory leaves only what a crash could already leave |
| Publish.Directory.WriteTemp | internal/identity/publish_linux.go:23-52 | in every state while the temporary file is made the name is untouched, and at the end the file is complete and flushed |
| Publish.Directory.Place | internal/identity/publish_linux.go:53-66 | in every state while the file gets its name a crash leaves the old state or the complete content |
| Publish.Directory.PublishFile | internal/identity/publish_linux.go:12-67 | in every state of a publication a crash leaves at the name what it could before or the complete content; success leaves only that; without replace an existing name is never altered; the temporary name is removed |

## Left out

- Kernel.ParentBetween: threads, ptrace and pid namespaces are not part of the process table; a process whose parent exits is adopted by init or by a proper ancestor of that parent.
- Binding.ProcFs.BindRuntime: how the helper executable is resolved is an input, and the parsing of `/proc` text is not modelled, only which fields are read in which order.
- Tokens.ParsedWasSigned: what ParseOwn makes of a signed payload with members of the wrong type is not modelled, since nothing but claims is signed.
- Issuer.Service.IssueChild: the method runs alone; overlapping requests are the steps of Requests, where signing and publishing lie between lookup and put without steps of their own.
- Setup.NewIssuer: loading keys and verifying directories is one outcome.
- Issuer.Service.Finish: what a failed removal leaves of a directory is not described beyond its name.
- Acceptance.IssuedTokensAreAccepted: the size cap of the delivery file is not modelled, and the clock is taken to lie between 1970 and 9999.
- Removability.RemoveUndoesApplyExactly: the printed refresh duration is taken to be plain text, as in Registration.CommandReadsAsArgv.
- SpawnDirs.Root.Reap: a removal that fails part of the way counts as a failure that leaves the entry.
- Decimal.SecondsReadBack: durations with a decimal point go through floating point and are a parameter.
- FlagScan.FindCompose: the flags are those of this flag set; none is boolean, so the branch for boolean flags is not modelled.
- SettingsEdit.SettingsFile.Apply: after a refusal the settings may be partly edited in memory; the specification says exactly how, and the file is not written then.
- Store.RecordStore.Put: JSON text, file modes and ownership checks enter as outcomes; pruning of old session directories is not modelled.
- HookRace.RunKeepsInv: `ensureAgent` and `subagentStop` are steps of one state machine, not methods, because their interleavings are the point; reading the parent's token and asking the issuer are one step that yields a fresh directory or fails.
- Session start and the refresh on a user prompt: each is one issue and one replacing put.
- Stdin.HandedOnIsWhole: after an end of input the source is taken to give nothing more, as a pipe or a file does.
- Compose.Prefix: why an agent's record cannot be had is a word that comes in with it; how it is obtained is `HookRace`.
- Compose.ComposedPreToolUse: an encoded reply is a JSON value, so white space and escapes of the reply's text are not compared; starting, timing and killing the upstream process are inputs.
- The bounded run of the gatekeeper part of a composed hook (`runBounded`), logging and shape capture: timers and printing.
- Key loading, signature algorithms, base64 and JSON text: ideal, as said above.
- Network clients, the HTTP server, key set fetching and the broker, app and agent-to-agent tokens: plumbing around single checks.
- Descriptor-level file opening, trusted-directory checks and platform variants: decided by system calls the model takes as outcomes.
- Configuration and YAML parsing, definition rendering and command-line output: parsing libraries and printing.
