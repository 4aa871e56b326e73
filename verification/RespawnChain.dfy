/**
 * How a launch of the CLI re-executes itself: buildOpenClawCompileCacheRespawnPlan of
 * src/entry.compile-cache.ts and buildCliRespawnPlan of src/entry.respawn.ts, in the order in which
 * src/entry.ts asks them.
 */
module RespawnChain {
  import opened Prelude

  const EXPERIMENTAL_WARNING_FLAG := "--disable-warning=ExperimentalWarning"

  /** Environment variables: those the decisions name, and all others. */
  datatype Variable =
    | OPENCLAW_NODE_OPTIONS_READY
    | OPENCLAW_NODE_EXTRA_CA_CERTS_READY
    | OPENCLAW_SOURCE_COMPILE_CACHE_RESPAWNED
    | OPENCLAW_NO_RESPAWN
    | NODE_EXTRA_CA_CERTS
    | NODE_OPTIONS
    | NODE_COMPILE_CACHE
    | NODE_DISABLE_COMPILE_CACHE
    | Other(name: string)

  type Env = map<Variable, string>

  /** A node process: `argv` is the executable, the script, then the user's arguments. */
  datatype Process = Process(execPath: string, execArgv: seq<string>, argv: seq<string>, env: Env, windows: bool)

  /** What a process finds when it starts. */
  datatype Surroundings = Surroundings(
    sourceCheckout: bool,
    compileCacheDir: string,   // "" when node's compile cache is off
    currentFile: string,
    autoNodeExtraCaCerts: string, // the TLS resolver's answer, "" for none
    edits: Env)                // variables that entry.ts sets between the two decisions

  /** The decisions that depend on the user's arguments alone. */
  datatype Policy = Policy(skipStartup: seq<string> -> bool, skipWarning: seq<string> -> bool)

  /** The command line of the child: options for node, then the script and its arguments. */
  datatype Plan = Plan(command: string, nodeOptions: seq<string>, scriptAndArgs: seq<string>, env: Env)

  function Get(env: Env, name: Variable): string {
    if name in env then env[name] else ""
  }

  /** isTruthyEnvValue */
  predicate IsTruthy(value: string) {
    var normal := Lower(Trim(value));
    normal == "1" || normal == "on" || normal == "true" || normal == "yes"
  }

  /** The four words count, in capital or small letters and with any white space around them, and nothing else does. */
  lemma TruthyMeans(value: string)
    ensures IsTruthy(value) <==> exists before, word, after ::
              && value == before + word + after && Blank(before) && Blank(after)
              && Lower(word) in {"1", "on", "true", "yes"}
  {
    if IsTruthy(value) {
      var before, after := TrimMeans(value);
      assert value == before + Trim(value) + after;
    }
    forall before, word, after | value == before + word + after && Blank(before) && Blank(after)
                                 && Lower(word) in {"1", "on", "true", "yes"}
      ensures IsTruthy(value)
    {
      assert Lower(word)[0] == LowerChar(word[0]) && Lower(word)[|word| - 1] == LowerChar(word[|word| - 1]);
      TrimOf(before, word, after);
    }
  }

  // ---------------------------------------------------------------- the compile cache decision

  predicate CompileCacheRequested(env: Env) {
    NODE_COMPILE_CACHE in env && NODE_DISABLE_COMPILE_CACHE !in env
  }

  function CompileCachePlan(p: Process, s: Surroundings): Option<Plan>
    requires |p.argv| >= 2
  {
    if !s.sourceCheckout then None
    else if Get(p.env, OPENCLAW_SOURCE_COMPILE_CACHE_RESPAWNED) == "1" then None
    else if s.compileCacheDir == "" && !CompileCacheRequested(p.env) then None
    else
      var env := p.env[NODE_DISABLE_COMPILE_CACHE := "1"][OPENCLAW_SOURCE_COMPILE_CACHE_RESPAWNED := "1"] - {NODE_COMPILE_CACHE};
      Some(Plan(p.execPath, p.execArgv, [s.currentFile] + p.argv[2..], env))
  }

  method BuildOpenClawCompileCacheRespawnPlan(p: Process, s: Surroundings) returns (plan: Option<Plan>)
    requires |p.argv| >= 2
    ensures plan == CompileCachePlan(p, s)
  {
    if !s.sourceCheckout {
      return None;
    }
    if Get(p.env, OPENCLAW_SOURCE_COMPILE_CACHE_RESPAWNED) == "1" {
      return None;
    }
    if s.compileCacheDir == "" && !CompileCacheRequested(p.env) {
      return None;
    }
    var nextEnv := p.env;
    nextEnv := nextEnv[NODE_DISABLE_COMPILE_CACHE := "1"];
    nextEnv := nextEnv[OPENCLAW_SOURCE_COMPILE_CACHE_RESPAWNED := "1"];
    nextEnv := nextEnv - {NODE_COMPILE_CACHE};
    plan := Some(Plan(p.execPath, p.execArgv, [s.currentFile] + p.argv[2..], nextEnv));
  }

  // ---------------------------------------------------------------- the CLI decision

  function LastComponent(path: string): string {
    if path == "" || path[|path| - 1] == '/' then "" else LastComponent(path[..|path| - 1]) + [path[|path| - 1]]
  }

  /** The last component of a POSIX path. */
  function Basename(path: string): string {
    if path == "" then ""
    else if path[|path| - 1] == '/' then (if |path| == 1 then "" else Basename(path[..|path| - 1]))
    else LastComponent(path)
  }

  /** resolveCliRespawnCommand; the plan is only built off Windows. */
  function RespawnCommand(execPath: string): string {
    var basename := Lower(Basename(execPath));
    if basename == "volta-shim" || basename == "volta-shim.exe" then "node" else execPath
  }

  predicate WarningSuppressed(env: Env, execArgv: seq<string>) {
    || Contains(Get(env, NODE_OPTIONS), EXPERIMENTAL_WARNING_FLAG)
    || Contains(Get(env, NODE_OPTIONS), "--no-warnings")
    || EXPERIMENTAL_WARNING_FLAG in execArgv
    || "--no-warnings" in execArgv
  }

  predicate NeedsCaCerts(env: Env, autoNodeExtraCaCerts: string) {
    autoNodeExtraCaCerts != "" && !IsTruthy(Get(env, OPENCLAW_NODE_EXTRA_CA_CERTS_READY)) && Get(env, NODE_EXTRA_CA_CERTS) == ""
  }

  predicate NeedsWarningFlag(env: Env, execArgv: seq<string>, skipWarning: bool) {
    !skipWarning && !IsTruthy(Get(env, OPENCLAW_NODE_OPTIONS_READY)) && !WarningSuppressed(env, execArgv)
  }

  function CliPlan(p: Process, auto: string, policy: Policy): Option<Plan>
    requires |p.argv| >= 2
  {
    var args := p.argv[2..];
    if policy.skipStartup(args) || IsTruthy(Get(p.env, OPENCLAW_NO_RESPAWN)) then None
    else if p.windows then None
    else
      var ca, flag := NeedsCaCerts(p.env, auto), NeedsWarningFlag(p.env, p.execArgv, policy.skipWarning(args));
      if !ca && !flag then None
      else
        var env1 := if ca then p.env[NODE_EXTRA_CA_CERTS := auto][OPENCLAW_NODE_EXTRA_CA_CERTS_READY := "1"] else p.env;
        var env2 := if flag then env1[OPENCLAW_NODE_OPTIONS_READY := "1"] else env1;
        Some(Plan(RespawnCommand(p.execPath), (if flag then [EXPERIMENTAL_WARNING_FLAG] else []) + p.execArgv, p.argv[1..], env2))
  }

  method BuildCliRespawnPlan(p: Process, autoNodeExtraCaCerts: string, policy: Policy) returns (plan: Option<Plan>)
    requires |p.argv| >= 2
    ensures plan == CliPlan(p, autoNodeExtraCaCerts, policy)
  {
    var args := p.argv[2..];
    if policy.skipStartup(args) || IsTruthy(Get(p.env, OPENCLAW_NO_RESPAWN)) {
      return None;
    }
    if p.windows {
      return None;
    }
    var childEnv := p.env;
    var childExecArgv := p.execArgv;
    var needsRespawn := false;
    if autoNodeExtraCaCerts != "" && !IsTruthy(Get(p.env, OPENCLAW_NODE_EXTRA_CA_CERTS_READY)) && Get(p.env, NODE_EXTRA_CA_CERTS) == "" {
      childEnv := childEnv[NODE_EXTRA_CA_CERTS := autoNodeExtraCaCerts];
      childEnv := childEnv[OPENCLAW_NODE_EXTRA_CA_CERTS_READY := "1"];
      needsRespawn := true;
    }
    if !policy.skipWarning(args) && !IsTruthy(Get(p.env, OPENCLAW_NODE_OPTIONS_READY)) && !WarningSuppressed(p.env, p.execArgv) {
      childEnv := childEnv[OPENCLAW_NODE_OPTIONS_READY := "1"];
      childExecArgv := [EXPERIMENTAL_WARNING_FLAG] + childExecArgv;
      needsRespawn := true;
    }
    if !needsRespawn {
      return None;
    }
    assert [] + p.execArgv == p.execArgv;
    plan := Some(Plan(RespawnCommand(p.execPath), childExecArgv, p.argv[1..], childEnv));
  }

  // ---------------------------------------------------------------- the chain

  /** The process that a plan starts. */
  function Spawned(plan: Plan, parent: Process): Process {
    Process(plan.command, plan.nodeOptions, [plan.command] + plan.scriptAndArgs, plan.env, parent.windows)
  }

  /** entry.ts never edits the variables that the decisions are about. */
  ghost predicate HarmlessEdits(edits: Env) {
    forall variable | variable in edits :: variable.Other?
  }

  /** The child a process starts instead of running the CLI, if any: the compile cache is asked first. */
  function Next(p: Process, s: Surroundings, policy: Policy): Option<Process>
    requires |p.argv| >= 2
  {
    var first := CompileCachePlan(p, s);
    if first.Some? then Some(Spawned(first.value, p))
    else
      var edited := p.(env := p.env + s.edits);
      var second := CliPlan(edited, s.autoNodeExtraCaCerts, policy);
      if second.Some? then Some(Spawned(second.value, edited)) else None
  }

  /** A launch: each process starts the next one. */
  ghost predicate IsLaunch(chain: seq<Process>, around: seq<Surroundings>, policy: Policy) {
    && |chain| > 0 && |around| == |chain|
    && (forall i | 0 <= i < |chain| :: |chain[i].argv| >= 2)
    && (forall i | 0 <= i < |around| :: HarmlessEdits(around[i].edits))
    && (forall i | 0 <= i < |chain| - 1 :: Next(chain[i], around[i], policy) == Some(chain[i + 1]))
  }

  datatype Ready = CompileCache | CaCerts | NodeOptions

  predicate IsReady(env: Env, ready: Ready) {
    match ready
    case CompileCache => Get(env, OPENCLAW_SOURCE_COMPILE_CACHE_RESPAWNED) == "1"
    case CaCerts => IsTruthy(Get(env, OPENCLAW_NODE_EXTRA_CA_CERTS_READY))
    case NodeOptions => IsTruthy(Get(env, OPENCLAW_NODE_OPTIONS_READY))
  }

  ghost function Missing(env: Env): nat {
    (if IsReady(env, CompileCache) then 0 else 1)
    + (if IsReady(env, CaCerts) then 0 else 1)
    + (if IsReady(env, NodeOptions) then 0 else 1)
  }

  lemma OneIsTruthy()
    ensures IsTruthy("1")
  {
    assert TrimStart("1") == "1" && TrimEnd("1") == "1";
    assert Lower("1") == "1";
  }

  ghost predicate MoreReady(parent: Env, child: Env) {
    && (forall ready :: IsReady(parent, ready) ==> IsReady(child, ready))
    && (exists ready :: !IsReady(parent, ready) && IsReady(child, ready))
    && Missing(child) < Missing(parent)
  }

  lemma CompileCacheMakesReady(p: Process, s: Surroundings)
    requires |p.argv| >= 2 && CompileCachePlan(p, s).Some?
    ensures MoreReady(p.env, CompileCachePlan(p, s).value.env)
  {
    var env := CompileCachePlan(p, s).value.env;
    assert !IsReady(p.env, CompileCache) && IsReady(env, CompileCache);
  }

  lemma CliMakesReady(p: Process, auto: string, policy: Policy)
    requires |p.argv| >= 2 && CliPlan(p, auto, policy).Some?
    ensures MoreReady(p.env, CliPlan(p, auto, policy).value.env)
  {
    OneIsTruthy();
    var env := CliPlan(p, auto, policy).value.env;
    if NeedsCaCerts(p.env, auto) {
      assert !IsReady(p.env, CaCerts) && IsReady(env, CaCerts);
    } else {
      assert !IsReady(p.env, NodeOptions) && IsReady(env, NodeOptions);
    }
  }

  lemma EditsAreHarmless(env: Env, edits: Env)
    requires HarmlessEdits(edits)
    ensures forall variable: Variable | !variable.Other? :: Get(env + edits, variable) == Get(env, variable)
    ensures forall ready :: IsReady(env + edits, ready) <==> IsReady(env, ready)
    ensures Missing(env + edits) == Missing(env)
  {
  }

  lemma SameReady(env: Env, edited: Env, child: Env)
    requires forall ready :: IsReady(edited, ready) <==> IsReady(env, ready)
    requires MoreReady(edited, child)
    ensures MoreReady(env, child)
  {
  }

  /** Each respawn sets a ready flag that its parent lacked, keeps the others, and passes the user's arguments on. */
  lemma RespawnMakesReady(p: Process, s: Surroundings, policy: Policy)
    requires |p.argv| >= 2 && HarmlessEdits(s.edits)
    requires Next(p, s, policy).Some?
    ensures var child := Next(p, s, policy).value;
            && MoreReady(p.env, child.env)
            && |child.argv| >= 2
            && child.argv[2..] == p.argv[2..]
            && child.windows == p.windows
  {
    if CompileCachePlan(p, s).Some? {
      CompileCacheMakesReady(p, s);
    } else {
      EditsAreHarmless(p.env, s.edits);
      CliMakesReady(p.(env := p.env + s.edits), s.autoNodeExtraCaCerts, policy);
      SameReady(p.env, p.env + s.edits, Next(p, s, policy).value.env);
    }
  }

  /** Neither node's options nor the environment turn warnings off. */
  ghost predicate WarningsAreOn(p: Process) {
    var options := Get(p.env, NODE_OPTIONS);
    && "--disable-warning=ExperimentalWarning" !in p.execArgv && "--no-warnings" !in p.execArgv
    && (forall i | 0 <= i <= |options| :: !("--disable-warning=ExperimentalWarning" <= options[i..]) && !("--no-warnings" <= options[i..]))
  }

  lemma UnsuppressedIsOn(p: Process)
    ensures WarningSuppressed(p.env, p.execArgv) <==> !WarningsAreOn(p)
  {
    ContainsMeans(Get(p.env, NODE_OPTIONS), EXPERIMENTAL_WARNING_FLAG);
    ContainsMeans(Get(p.env, NODE_OPTIONS), "--no-warnings");
  }

  /**
   * The options for node are those of the first process, with the warning flag in front exactly when the
   * mark for it was set during the launch, and then once.
   */
  ghost predicate FlagOnce(first: Process, p: Process) {
    || (p.execArgv == first.execArgv && (IsReady(p.env, NodeOptions) ==> IsReady(first.env, NodeOptions)))
    || (&& p.execArgv == [EXPERIMENTAL_WARNING_FLAG] + first.execArgv
        && IsReady(p.env, NodeOptions) && !IsReady(first.env, NodeOptions)
        && WarningsAreOn(first))
  }

  /** What holds of the i-th process of a launch. */
  ghost predicate Inherits(first: Process, p: Process, i: nat) {
    && |first.argv| >= 2 && |p.argv| >= 2
    && i + Missing(p.env) <= Missing(first.env)
    && p.argv[2..] == first.argv[2..]
    && (IsReady(first.env, NodeOptions) ==> IsReady(p.env, NodeOptions))
    && Get(p.env, NODE_OPTIONS) == Get(first.env, NODE_OPTIONS)
    && FlagOnce(first, p)
  }

  lemma CliKeepsFlagOnce(first: Process, p: Process, auto: string, policy: Policy)
    requires |p.argv| >= 2 && FlagOnce(first, p) && CliPlan(p, auto, policy).Some?
    requires IsReady(first.env, NodeOptions) ==> IsReady(p.env, NodeOptions)
    requires Get(p.env, NODE_OPTIONS) == Get(first.env, NODE_OPTIONS)
    ensures FlagOnce(first, Spawned(CliPlan(p, auto, policy).value, p))
  {
    OneIsTruthy();
    UnsuppressedIsOn(p);
    assert [] + p.execArgv == p.execArgv;
  }

  lemma ChildKeepsOptions(first: Process, p: Process, s: Surroundings, policy: Policy, child: Process)
    requires |p.argv| >= 2 && HarmlessEdits(s.edits) && Next(p, s, policy) == Some(child)
    requires IsReady(first.env, NodeOptions) ==> IsReady(p.env, NodeOptions)
    requires Get(p.env, NODE_OPTIONS) == Get(first.env, NODE_OPTIONS) && FlagOnce(first, p)
    ensures Get(child.env, NODE_OPTIONS) == Get(first.env, NODE_OPTIONS) && FlagOnce(first, child)
  {
    if CompileCachePlan(p, s).Some? {
      assert child.execArgv == p.execArgv;
      assert IsReady(child.env, NodeOptions) == IsReady(p.env, NodeOptions);
    } else {
      EditsAreHarmless(p.env, s.edits);
      CliKeepsFlagOnce(first, p.(env := p.env + s.edits), s.autoNodeExtraCaCerts, policy);
    }
  }

  lemma ChildInherits(first: Process, p: Process, s: Surroundings, policy: Policy, child: Process, i: nat)
    requires Inherits(first, p, i) && HarmlessEdits(s.edits)
    requires Next(p, s, policy) == Some(child)
    ensures Inherits(first, child, i + 1)
  {
    RespawnMakesReady(p, s, policy);
    ChildKeepsOptions(first, p, s, policy, child);
  }

  /** Whatever `p` has inherited from the first process, its child inherits. */
  ghost predicate HandsDown(first: Process, p: Process, child: Process) {
    forall i: nat | Inherits(first, p, i) :: Inherits(first, child, i + 1)
  }

  lemma RespawnHandsDown(first: Process, p: Process, s: Surroundings, policy: Policy, child: Process)
    requires |p.argv| >= 2 && HarmlessEdits(s.edits) && Next(p, s, policy) == Some(child)
    ensures HandsDown(first, p, child)
  {
    forall i: nat | Inherits(first, p, i) ensures Inherits(first, child, i + 1) {
      ChildInherits(first, p, s, policy, child, i);
    }
  }

  lemma {:induction false} HandedDownThroughout(chain: seq<Process>, i: nat)
    requires i < |chain| && Inherits(chain[0], chain[0], 0)
    requires forall k | 0 <= k < i :: HandsDown(chain[0], chain[k], chain[k + 1])
    ensures Inherits(chain[0], chain[i], i)
  {
    if i == 0 {
    } else {
      HandedDownThroughout(chain, i - 1);
      assert HandsDown(chain[0], chain[i - 1], chain[i - 1 + 1]);
    }
  }

  lemma LaunchInvariant(chain: seq<Process>, around: seq<Surroundings>, policy: Policy, i: nat)
    requires IsLaunch(chain, around, policy) && i < |chain|
    ensures Inherits(chain[0], chain[i], i)
  {
    forall k | 0 <= k < i ensures HandsDown(chain[0], chain[k], chain[k + 1]) {
      assert Next(chain[k], around[k], policy) == Some(chain[k + 1]);
      RespawnHandsDown(chain[0], chain[k], around[k], policy, chain[k + 1]);
    }
    HandedDownThroughout(chain, i);
  }

  /**
   * Whatever the TLS resolver answers and whatever each process finds, a launch re-executes at most
   * three times; every process gets the user's arguments; and the warning flag is added at most
   * once, never to options that already have it.
   */
  lemma LaunchTerminates(chain: seq<Process>, around: seq<Surroundings>, policy: Policy)
    requires IsLaunch(chain, around, policy)
    ensures |chain| - 1 <= Missing(chain[0].env) <= 3
    ensures forall i | 0 <= i < |chain| :: chain[i].argv[2..] == chain[0].argv[2..]
    ensures forall i | 0 <= i < |chain| :: FlagOnce(chain[0], chain[i])
  {
    LaunchInvariant(chain, around, policy, |chain| - 1);
    forall i | 0 <= i < |chain|
      ensures chain[i].argv[2..] == chain[0].argv[2..] && FlagOnce(chain[0], chain[i])
    {
      LaunchInvariant(chain, around, policy, i);
    }
  }

  // ---------------------------------------------------------------- what the chain is for

  /** What the CLI is to run with; a process that must not be respawned is taken as it is. */
  ghost predicate Prepared(p: Process, s: Surroundings, policy: Policy)
    requires |p.argv| >= 2
  {
    && (s.sourceCheckout && Get(p.env, OPENCLAW_SOURCE_COMPILE_CACHE_RESPAWNED) != "1" ==>
          s.compileCacheDir == "" && (NODE_COMPILE_CACHE !in p.env || NODE_DISABLE_COMPILE_CACHE in p.env))
    && (p.windows || policy.skipStartup(p.argv[2..]) || IsTruthy(Get(p.env, OPENCLAW_NO_RESPAWN))
        || (&& (s.autoNodeExtraCaCerts != "" ==> Get(p.env, NODE_EXTRA_CA_CERTS) != "" || IsReady(p.env, CaCerts))
            && (WarningSuppressed(p.env, p.execArgv) || IsReady(p.env, NodeOptions) || policy.skipWarning(p.argv[2..]))))
  }

  /** A process runs the CLI itself exactly when it is prepared for it. */
  lemma OnlyPreparedProcessesRun(p: Process, s: Surroundings, policy: Policy)
    requires |p.argv| >= 2 && HarmlessEdits(s.edits)
    ensures Next(p, s, policy).None? <==> Prepared(p, s, policy)
  {
    EditsAreHarmless(p.env, s.edits);
    var edited := p.(env := p.env + s.edits);
    assert NeedsCaCerts(edited.env, s.autoNodeExtraCaCerts) == NeedsCaCerts(p.env, s.autoNodeExtraCaCerts);
    assert WarningSuppressed(edited.env, p.execArgv) == WarningSuppressed(p.env, p.execArgv);
  }

  /** The variables that a respawn may set or remove. */
  predicate Managed(variable: Variable) {
    !variable.Other? && variable != OPENCLAW_NO_RESPAWN && variable != NODE_OPTIONS
  }

  /** Certificates that the user configured stay, and others are the resolver's, marked by the ready flag. */
  ghost predicate CertsAreAccountedFor(parent: Env, child: Env, auto: string) {
    || Get(child, NODE_EXTRA_CA_CERTS) == Get(parent, NODE_EXTRA_CA_CERTS)
    || (Get(parent, NODE_EXTRA_CA_CERTS) == "" && Get(child, NODE_EXTRA_CA_CERTS) == auto != "" && IsReady(child, CaCerts))
  }

  lemma CliChildEnvironment(p: Process, auto: string, policy: Policy)
    requires |p.argv| >= 2 && CliPlan(p, auto, policy).Some?
    ensures var env := CliPlan(p, auto, policy).value.env;
            && (forall variable | !Managed(variable) :: Get(env, variable) == Get(p.env, variable))
            && CertsAreAccountedFor(p.env, env, auto)
  {
    OneIsTruthy();
  }

  /**
   * A child gets the environment of its parent: apart from what entry.ts sets itself, only managed
   * variables differ, configured certificates are never replaced, and a child that was started to get
   * rid of the compile cache does not request it.
   */
  lemma ChildEnvironment(p: Process, s: Surroundings, policy: Policy)
    requires |p.argv| >= 2 && HarmlessEdits(s.edits) && Next(p, s, policy).Some?
    ensures var child := Next(p, s, policy).value;
            && (forall variable | !Managed(variable) && variable !in s.edits :: Get(child.env, variable) == Get(p.env, variable))
            && CertsAreAccountedFor(p.env, child.env, s.autoNodeExtraCaCerts)
            && (CompileCachePlan(p, s).Some? ==> !CompileCacheRequested(child.env) && NODE_DISABLE_COMPILE_CACHE in child.env)
  {
    if CompileCachePlan(p, s).None? {
      var edited := p.(env := p.env + s.edits);
      EditsAreHarmless(p.env, s.edits);
      CliChildEnvironment(edited, s.autoNodeExtraCaCerts, policy);
      forall variable | variable !in s.edits ensures Get(edited.env, variable) == Get(p.env, variable) {
      }
    }
  }

  /** No variable that entry.ts sets between the decisions of these processes. */
  ghost predicate Unedited(around: seq<Surroundings>, variable: Variable) {
    forall i | 0 <= i < |around| :: variable !in around[i].edits
  }

  /**
   * The certificates of a process: those of the first process, or, when it had none, what the resolver
   * told one of the processes before, with the ready flag set for good.
   */
  ghost predicate CertsComeFrom(first: Env, env: Env, around: seq<Surroundings>, n: nat)
    requires n <= |around|
  {
    || Get(env, NODE_EXTRA_CA_CERTS) == Get(first, NODE_EXTRA_CA_CERTS)
    || (&& Get(first, NODE_EXTRA_CA_CERTS) == "" && IsReady(env, CaCerts)
        && exists j | 0 <= j < n :: Get(env, NODE_EXTRA_CA_CERTS) == around[j].autoNodeExtraCaCerts != "")
  }

  /** What one respawn does to the environment, besides the edits of entry.ts. */
  ghost predicate PassesOn(parent: Env, child: Env, s: Surroundings) {
    && (forall variable | !Managed(variable) && variable !in s.edits :: Get(child, variable) == Get(parent, variable))
    && CertsAreAccountedFor(parent, child, s.autoNodeExtraCaCerts)
    && (IsReady(parent, CaCerts) ==> IsReady(child, CaCerts))
  }

  lemma RespawnPassesOn(p: Process, s: Surroundings, policy: Policy)
    requires |p.argv| >= 2 && HarmlessEdits(s.edits) && Next(p, s, policy).Some?
    ensures PassesOn(p.env, Next(p, s, policy).value.env, s)
  {
    ChildEnvironment(p, s, policy);
    RespawnMakesReady(p, s, policy);
  }

  lemma CertsComeFromLonger(first: Env, parent: Env, child: Env, around: seq<Surroundings>, n: nat)
    requires n < |around|
    requires CertsComeFrom(first, parent, around, n) && PassesOn(parent, child, around[n])
    ensures CertsComeFrom(first, child, around, n + 1)
  {
    if Get(child, NODE_EXTRA_CA_CERTS) != Get(parent, NODE_EXTRA_CA_CERTS) {
      assert Get(child, NODE_EXTRA_CA_CERTS) == around[n].autoNodeExtraCaCerts != "";
    } else if Get(parent, NODE_EXTRA_CA_CERTS) != Get(first, NODE_EXTRA_CA_CERTS) {
      var j :| 0 <= j < n && Get(parent, NODE_EXTRA_CA_CERTS) == around[j].autoNodeExtraCaCerts != "";
      assert Get(child, NODE_EXTRA_CA_CERTS) == around[j].autoNodeExtraCaCerts != "";
    }
  }

  /** What is passed on at every step is passed on from the first environment to the last. */
  lemma {:induction false} PassedOnThroughout(envs: seq<Env>, around: seq<Surroundings>, i: nat)
    requires i < |envs| <= |around| && forall k | 0 <= k < i :: PassesOn(envs[k], envs[k + 1], around[k])
    ensures forall variable | !Managed(variable) && Unedited(around, variable) :: Get(envs[i], variable) == Get(envs[0], variable)
    ensures CertsComeFrom(envs[0], envs[i], around, i)
  {
    if i == 0 {
    } else {
      PassedOnThroughout(envs, around, i - 1);
      assert PassesOn(envs[i - 1], envs[i - 1 + 1], around[i - 1]);
      CertsComeFromLonger(envs[0], envs[i - 1], envs[i], around, i - 1);
    }
  }

  /** Every process of a launch has the variables of the first one that no decision manages, and its certificates. */
  lemma LaunchKeepsEnvironment(chain: seq<Process>, around: seq<Surroundings>, policy: Policy, i: nat)
    requires IsLaunch(chain, around, policy) && i < |chain|
    ensures forall variable | !Managed(variable) && Unedited(around, variable) :: Get(chain[i].env, variable) == Get(chain[0].env, variable)
    ensures CertsComeFrom(chain[0].env, chain[i].env, around, i)
  {
    var envs := seq(|chain|, k requires 0 <= k < |chain| => chain[k].env);
    forall k | 0 <= k < i ensures PassesOn(envs[k], envs[k + 1], around[k]) {
      assert Next(chain[k], around[k], policy) == Some(chain[k + 1]);
      RespawnPassesOn(chain[k], around[k], policy);
    }
    PassedOnThroughout(envs, around, i);
  }

  // ---------------------------------------------------------------- a flag stands for what it says

  /** Node's compile cache is off for good. */
  ghost predicate CacheIsDisabled(env: Env) {
    Get(env, NODE_DISABLE_COMPILE_CACHE) == "1" && NODE_COMPILE_CACHE !in env
  }

  /**
   * A child that is marked ready where its parent was not has got what the mark stands for, and what its
   * parent had got it has too.
   */
  ghost predicate MarksTruly(p: Process, child: Process, auto: string) {
    && (IsReady(child.env, CaCerts) && !IsReady(p.env, CaCerts) ==>
          Get(p.env, NODE_EXTRA_CA_CERTS) == "" && Get(child.env, NODE_EXTRA_CA_CERTS) == auto != "")
    && (IsReady(child.env, NodeOptions) && !IsReady(p.env, NodeOptions) ==> EXPERIMENTAL_WARNING_FLAG in child.execArgv)
    && (IsReady(child.env, CompileCache) && !IsReady(p.env, CompileCache) ==> CacheIsDisabled(child.env))
    && (Get(p.env, NODE_EXTRA_CA_CERTS) != "" ==> Get(child.env, NODE_EXTRA_CA_CERTS) == Get(p.env, NODE_EXTRA_CA_CERTS))
    && (EXPERIMENTAL_WARNING_FLAG in p.execArgv ==> EXPERIMENTAL_WARNING_FLAG in child.execArgv)
    && (CacheIsDisabled(p.env) ==> CacheIsDisabled(child.env))
  }

  lemma CliMarksCerts(p: Process, auto: string, policy: Policy)
    requires |p.argv| >= 2 && CliPlan(p, auto, policy).Some?
    ensures var env := CliPlan(p, auto, policy).value.env;
            && (IsReady(env, CaCerts) && !IsReady(p.env, CaCerts) ==>
                  Get(p.env, NODE_EXTRA_CA_CERTS) == "" && Get(env, NODE_EXTRA_CA_CERTS) == auto != "")
            && (Get(p.env, NODE_EXTRA_CA_CERTS) != "" ==> Get(env, NODE_EXTRA_CA_CERTS) == Get(p.env, NODE_EXTRA_CA_CERTS))
  {
    var env := CliPlan(p, auto, policy).value.env;
    if !NeedsCaCerts(p.env, auto) {
      assert Get(env, OPENCLAW_NODE_EXTRA_CA_CERTS_READY) == Get(p.env, OPENCLAW_NODE_EXTRA_CA_CERTS_READY);
    }
  }

  lemma CliMarksFlag(p: Process, auto: string, policy: Policy)
    requires |p.argv| >= 2 && CliPlan(p, auto, policy).Some?
    ensures var plan := CliPlan(p, auto, policy).value;
            && (IsReady(plan.env, NodeOptions) && !IsReady(p.env, NodeOptions) ==> EXPERIMENTAL_WARNING_FLAG in plan.nodeOptions)
            && (EXPERIMENTAL_WARNING_FLAG in p.execArgv ==> EXPERIMENTAL_WARNING_FLAG in plan.nodeOptions)
  {
    var plan := CliPlan(p, auto, policy).value;
    if NeedsWarningFlag(p.env, p.execArgv, policy.skipWarning(p.argv[2..])) {
      assert plan.nodeOptions[0] == EXPERIMENTAL_WARNING_FLAG;
    } else {
      assert plan.nodeOptions == p.execArgv;
      assert Get(plan.env, OPENCLAW_NODE_OPTIONS_READY) == Get(p.env, OPENCLAW_NODE_OPTIONS_READY);
    }
  }

  lemma CliKeepsCache(p: Process, auto: string, policy: Policy)
    requires |p.argv| >= 2 && CliPlan(p, auto, policy).Some?
    ensures var env := CliPlan(p, auto, policy).value.env;
            && (IsReady(env, CompileCache) <==> IsReady(p.env, CompileCache))
            && (CacheIsDisabled(env) <==> CacheIsDisabled(p.env))
  {
  }

  lemma CliMarksTruly(p: Process, auto: string, policy: Policy)
    requires |p.argv| >= 2 && CliPlan(p, auto, policy).Some?
    ensures MarksTruly(p, Spawned(CliPlan(p, auto, policy).value, p), auto)
  {
    CliMarksCerts(p, auto, policy);
    CliMarksFlag(p, auto, policy);
    CliKeepsCache(p, auto, policy);
  }

  /** Every respawn marks truly. */
  lemma RespawnMarksTruly(p: Process, s: Surroundings, policy: Policy)
    requires |p.argv| >= 2 && HarmlessEdits(s.edits) && Next(p, s, policy).Some?
    ensures MarksTruly(p, Next(p, s, policy).value, s.autoNodeExtraCaCerts)
  {
    if CompileCachePlan(p, s).None? {
      EditsAreHarmless(p.env, s.edits);
      CliMarksTruly(p.(env := p.env + s.edits), s.autoNodeExtraCaCerts, policy);
    }
  }

  /**
   * What a process has got during the launch: if it is marked for certificates and the first process was
   * not, it has those that the resolver told one of the processes before; if it is marked for the
   * warning flag and the first was not, node has the flag; if it is marked for the compile cache and the
   * first was not, the cache is off.
   */
  ghost predicate GotWhatItIsMarkedFor(first: Process, p: Process, around: seq<Surroundings>, n: nat)
    requires n <= |around|
  {
    && (IsReady(p.env, CaCerts) && !IsReady(first.env, CaCerts) ==>
          exists j | 0 <= j < n :: Get(p.env, NODE_EXTRA_CA_CERTS) == around[j].autoNodeExtraCaCerts != "")
    && (IsReady(p.env, NodeOptions) && !IsReady(first.env, NodeOptions) ==> EXPERIMENTAL_WARNING_FLAG in p.execArgv)
    && (IsReady(p.env, CompileCache) && !IsReady(first.env, CompileCache) ==> CacheIsDisabled(p.env))
  }

  lemma GotMore(first: Process, p: Process, child: Process, around: seq<Surroundings>, n: nat)
    requires n < |around| && GotWhatItIsMarkedFor(first, p, around, n) && MarksTruly(p, child, around[n].autoNodeExtraCaCerts)
    ensures GotWhatItIsMarkedFor(first, child, around, n + 1)
  {
    if IsReady(child.env, CaCerts) && !IsReady(first.env, CaCerts) {
      if IsReady(p.env, CaCerts) {
        var j :| 0 <= j < n && Get(p.env, NODE_EXTRA_CA_CERTS) == around[j].autoNodeExtraCaCerts != "";
        assert Get(child.env, NODE_EXTRA_CA_CERTS) == around[j].autoNodeExtraCaCerts != "";
      } else {
        assert Get(child.env, NODE_EXTRA_CA_CERTS) == around[n].autoNodeExtraCaCerts != "";
      }
    }
  }

  lemma {:induction false} GotThroughout(chain: seq<Process>, around: seq<Surroundings>, i: nat)
    requires i < |chain| == |around|
    requires forall k | 0 <= k < i :: MarksTruly(chain[k], chain[k + 1], around[k].autoNodeExtraCaCerts)
    ensures GotWhatItIsMarkedFor(chain[0], chain[i], around, i)
  {
    if i == 0 {
    } else {
      GotThroughout(chain, around, i - 1);
      assert MarksTruly(chain[i - 1], chain[i - 1 + 1], around[i - 1].autoNodeExtraCaCerts);
      GotMore(chain[0], chain[i - 1], chain[i], around, i - 1);
    }
  }

  /** In a launch no mark is empty: every process has got what it has been marked for. */
  lemma MarksAreTrue(chain: seq<Process>, around: seq<Surroundings>, policy: Policy, i: nat)
    requires IsLaunch(chain, around, policy) && i < |chain|
    ensures GotWhatItIsMarkedFor(chain[0], chain[i], around, i)
  {
    forall k | 0 <= k < i ensures MarksTruly(chain[k], chain[k + 1], around[k].autoNodeExtraCaCerts) {
      assert Next(chain[k], around[k], policy) == Some(chain[k + 1]);
      RespawnMarksTruly(chain[k], around[k], policy);
    }
    GotThroughout(chain, around, i);
  }

  /**
   * What a finished launch has arrived at, unless the first process came with the mark: the compile cache
   * is off, the certificates that the resolver knows of, or others, are in place, and warnings are off. A
   * process that is not to be respawned by the CLI decision goes without the last two.
   */
  ghost predicate Equipped(first: Process, p: Process, s: Surroundings, policy: Policy)
    requires |p.argv| >= 2
  {
    && (s.sourceCheckout && !IsReady(first.env, CompileCache) ==>
          CacheIsDisabled(p.env)
          || (s.compileCacheDir == "" && (NODE_COMPILE_CACHE !in p.env || NODE_DISABLE_COMPILE_CACHE in p.env)))
    && (p.windows || policy.skipStartup(p.argv[2..]) || IsTruthy(Get(p.env, OPENCLAW_NO_RESPAWN))
        || (&& (s.autoNodeExtraCaCerts != "" ==> Get(p.env, NODE_EXTRA_CA_CERTS) != "" || IsReady(first.env, CaCerts))
            && (policy.skipWarning(p.argv[2..]) || WarningSuppressed(p.env, p.execArgv) || IsReady(first.env, NodeOptions))))
  }

  lemma PreparedIsEquipped(first: Process, p: Process, around: seq<Surroundings>, n: nat, policy: Policy)
    requires |p.argv| >= 2 && n < |around| && Prepared(p, around[n], policy) && GotWhatItIsMarkedFor(first, p, around, n)
    ensures Equipped(first, p, around[n], policy)
  {
  }

  // ---------------------------------------------------------------- which program is run

  /** `name` is the last component of the path: behind the last slash that is not at the end. */
  ghost predicate IsComponent(path: string, front: string, name: string, slashes: string) {
    && path == front + name + slashes
    && (front == "" || front[|front| - 1] == '/')
    && '/' !in name && (name == "" ==> front == "")
    && forall i | 0 <= i < |slashes| :: slashes[i] == '/'
  }

  lemma {:induction false} LastComponentIsLast(path: string) returns (front: string)
    ensures path == front + LastComponent(path)
    ensures (front == "" || front[|front| - 1] == '/') && '/' !in LastComponent(path)
  {
    if path == "" || path[|path| - 1] == '/' {
      front := path;
    } else {
      front := LastComponentIsLast(path[..|path| - 1]);
      assert path == path[..|path| - 1] + [path[|path| - 1]];
    }
  }

  lemma {:induction false} BasenameIsLast(path: string) returns (front: string, slashes: string)
    ensures IsComponent(path, front, Basename(path), slashes)
  {
    if path == "" {
      front, slashes := "", "";
    } else if path == "/" {
      front, slashes := "", "/";
    } else if path[|path| - 1] == '/' {
      var shorter := path[..|path| - 1];
      front, slashes := BasenameIsLast(shorter);
      slashes := slashes + "/";
      assert path == shorter + "/";
    } else {
      front := LastComponentIsLast(path);
      slashes := "";
      assert LastComponent(path) == LastComponent(path[..|path| - 1]) + [path[|path| - 1]];
      assert path == front + LastComponent(path) + slashes;
    }
  }

  lemma {:induction false} LastComponentOf(front: string, name: string)
    requires (front == "" || front[|front| - 1] == '/') && '/' !in name
    ensures LastComponent(front + name) == name
    decreases |name|
  {
    var path := front + name;
    if name == "" {
      assert path == front;
    } else {
      assert path[..|path| - 1] == front + name[..|name| - 1];
      LastComponentOf(front, name[..|name| - 1]);
    }
  }

  /** There is only one last component. */
  lemma {:induction false} BasenameIs(path: string, front: string, name: string, slashes: string)
    requires IsComponent(path, front, name, slashes)
    ensures Basename(path) == name
    decreases |slashes|
  {
    if path == "" {
    } else if slashes == "" {
      assert path == front + name && path[|path| - 1] == name[|name| - 1] != '/';
      LastComponentOf(front, name);
    } else if |path| == 1 {
      assert path[0] == slashes[|slashes| - 1] && name == "";
    } else {
      assert path[|path| - 1] == slashes[|slashes| - 1] == '/';
      assert path[..|path| - 1] == front + name + slashes[..|slashes| - 1];
      BasenameIs(path[..|path| - 1], front, name, slashes[..|slashes| - 1]);
    }
  }

  /** The path of a Volta shim, which stands for whatever `node` is. */
  ghost predicate IsVoltaShim(execPath: string) {
    exists front, name, slashes ::
      IsComponent(execPath, front, name, slashes) && (Lower(name) == "volta-shim" || Lower(name) == "volta-shim.exe")
  }

  /** The program of a process: that of the first one, or `node` when that was a shim. */
  ghost predicate SameProgram(first: Process, p: Process) {
    p.execPath == first.execPath || (p.execPath == "node" && IsVoltaShim(first.execPath))
  }

  lemma RespawnCommandIs(execPath: string)
    ensures RespawnCommand(execPath) == if IsVoltaShim(execPath) then "node" else execPath
    ensures !IsVoltaShim("node")
  {
    var front, slashes := BasenameIsLast(execPath);
    forall front, name, slashes | IsComponent(execPath, front, name, slashes) ensures name == Basename(execPath) {
      BasenameIs(execPath, front, name, slashes);
    }
    forall front, name, slashes | IsComponent("node", front, name, slashes) ensures |Lower(name)| <= 4 {
    }
  }

  /** The program and the script of a process come from its parent. */
  ghost predicate RunsTheSame(p: Process, child: Process, s: Surroundings) {
    && |p.argv| >= 2 && |child.argv| >= 2
    && SameProgram(p, child) && (p.execPath == "node" ==> child.execPath == "node")
    && child.argv[0] == child.execPath
    && (IsReady(child.env, CaCerts) && !IsReady(p.env, CaCerts) ==> !IsVoltaShim(child.execPath))
    && (IsReady(child.env, NodeOptions) && !IsReady(p.env, NodeOptions) ==> !IsVoltaShim(child.execPath))
    && (!IsVoltaShim(p.execPath) ==> !IsVoltaShim(child.execPath))
    && (IsReady(p.env, CompileCache) ==> IsReady(child.env, CompileCache))
    && child.argv[1] == (if IsReady(child.env, CompileCache) && !IsReady(p.env, CompileCache) then s.currentFile else p.argv[1])
  }

  lemma RespawnRunsTheSame(p: Process, s: Surroundings, policy: Policy)
    requires |p.argv| >= 2 && Next(p, s, policy).Some? && HarmlessEdits(s.edits)
    ensures RunsTheSame(p, Next(p, s, policy).value, s)
  {
    RespawnCommandIs(p.execPath);
    if CompileCachePlan(p, s).None? {
      EditsAreHarmless(p.env, s.edits);
    }
  }

  /** The script of a process is that of the first one, unless the compile cache decision has put an entry file in its place. */
  ghost predicate SameScript(first: Process, p: Process, around: seq<Surroundings>, n: nat)
    requires |first.argv| >= 2 && |p.argv| >= 2 && n <= |around|
  {
    && (IsReady(first.env, CompileCache) ==> IsReady(p.env, CompileCache))
    && if IsReady(p.env, CompileCache) && !IsReady(first.env, CompileCache)
       then exists j | 0 <= j < n :: p.argv[1] == around[j].currentFile
       else p.argv[1] == first.argv[1]
  }

  /** The CLI decision never starts a shim: a process that it has marked during the launch runs `node` itself. */
  ghost predicate ShimIsLeft(first: Process, p: Process) {
    || !IsVoltaShim(p.execPath)
    || ((IsReady(p.env, CaCerts) ==> IsReady(first.env, CaCerts)) && (IsReady(p.env, NodeOptions) ==> IsReady(first.env, NodeOptions)))
  }

  lemma {:induction false} SameThroughout(chain: seq<Process>, around: seq<Surroundings>, i: nat)
    requires i < |chain| == |around| && |chain[0].argv| >= 2
    requires forall k | 0 <= k < i :: RunsTheSame(chain[k], chain[k + 1], around[k])
    ensures |chain[i].argv| >= 2 && SameProgram(chain[0], chain[i]) && SameScript(chain[0], chain[i], around, i)
    ensures ShimIsLeft(chain[0], chain[i])
  {
    if i == 0 {
    } else {
      SameThroughout(chain, around, i - 1);
      assert RunsTheSame(chain[i - 1], chain[i - 1 + 1], around[i - 1]);
    }
  }

  /** Every process of a launch runs the program and the script of the first one. */
  lemma LaunchRunsTheSame(chain: seq<Process>, around: seq<Surroundings>, policy: Policy, i: nat)
    requires IsLaunch(chain, around, policy) && i < |chain|
    ensures SameProgram(chain[0], chain[i]) && SameScript(chain[0], chain[i], around, i) && ShimIsLeft(chain[0], chain[i])
  {
    forall k | 0 <= k < i ensures RunsTheSame(chain[k], chain[k + 1], around[k]) {
      assert Next(chain[k], around[k], policy) == Some(chain[k + 1]);
      RespawnRunsTheSame(chain[k], around[k], policy);
    }
    SameThroughout(chain, around, i);
  }

  // ---------------------------------------------------------------- finished launches

  /** A launch that goes no further has come to a process that is to run the CLI. */
  ghost predicate IsFinished(chain: seq<Process>, around: seq<Surroundings>, policy: Policy) {
    IsLaunch(chain, around, policy) && Next(chain[|chain| - 1], around[|chain| - 1], policy).None?
  }

  /**
   * A finished launch ends, after at most three re-executions, in a process that is equipped for the
   * CLI, with the user's arguments and environment; it is the first that was prepared.
   */
  lemma FinishedLaunchIsPrepared(chain: seq<Process>, around: seq<Surroundings>, policy: Policy)
    requires IsFinished(chain, around, policy)
    ensures var n := |chain| - 1;
            && n <= 3 && Prepared(chain[n], around[n], policy) && Equipped(chain[0], chain[n], around[n], policy)
            && (forall i | 0 <= i < n :: !Prepared(chain[i], around[i], policy))
            && chain[n].argv[2..] == chain[0].argv[2..]
            && (forall variable | !Managed(variable) && Unedited(around, variable) ::
                  Get(chain[n].env, variable) == Get(chain[0].env, variable))
            && CertsComeFrom(chain[0].env, chain[n].env, around, n)
  {
    var n := |chain| - 1;
    LaunchTerminates(chain, around, policy);
    LaunchKeepsEnvironment(chain, around, policy, n);
    OnlyPreparedProcessesRun(chain[n], around[n], policy);
    MarksAreTrue(chain, around, policy, n);
    PreparedIsEquipped(chain[0], chain[n], around, n, policy);
    forall i | 0 <= i < n ensures !Prepared(chain[i], around[i], policy) {
      assert Next(chain[i], around[i], policy) == Some(chain[i + 1]);
      OnlyPreparedProcessesRun(chain[i], around[i], policy);
    }
  }

  /** Every launch that is not finished can go on, so that a finished one extends it. */
  lemma LaunchGoesOn(chain: seq<Process>, around: seq<Surroundings>, policy: Policy, s: Surroundings) returns (child: Process)
    requires IsLaunch(chain, around, policy) && !IsFinished(chain, around, policy) && HarmlessEdits(s.edits)
    ensures IsLaunch(chain + [child], around + [s], policy)
  {
    var n := |chain| - 1;
    child := Next(chain[n], around[n], policy).value;
    RespawnMakesReady(chain[n], around[n], policy);
    var longer, wider := chain + [child], around + [s];
    forall i | 0 <= i < |longer| - 1 ensures Next(longer[i], wider[i], policy) == Some(longer[i + 1]) {
      if i < n {
        assert Next(chain[i], around[i], policy) == Some(chain[i + 1]);
      }
    }
  }

  // ---------------------------------------------------------------- with steady answers

  /** The resolver gives the same answer to every process of the launch. */
  ghost predicate Steady(around: seq<Surroundings>) {
    forall i, j | 0 <= i < |around| && 0 <= j < |around| :: around[i].autoNodeExtraCaCerts == around[j].autoNodeExtraCaCerts
  }

  /** The CLI decision would not respawn this process. */
  ghost predicate CliDone(p: Process, auto: string, policy: Policy) {
    |p.argv| >= 2 && CliPlan(p, auto, policy).None?
  }

  lemma CliRespawnsOnce(p: Process, auto: string, policy: Policy)
    requires |p.argv| >= 2 && CliPlan(p, auto, policy).Some?
    ensures CliDone(Spawned(CliPlan(p, auto, policy).value, p), auto, policy)
  {
    OneIsTruthy();
    var child := Spawned(CliPlan(p, auto, policy).value, p);
    assert child.argv[2..] == p.argv[2..];
    assert [] + p.execArgv == p.execArgv;
  }

  /** The CLI decision reads nothing but these. */
  lemma SameDecision(p: Process, q: Process, auto: string, policy: Policy)
    requires |p.argv| >= 2 && |q.argv| >= 2
    requires p.argv[2..] == q.argv[2..] && p.execArgv == q.execArgv && p.windows == q.windows
    requires Get(p.env, OPENCLAW_NO_RESPAWN) == Get(q.env, OPENCLAW_NO_RESPAWN)
    requires Get(p.env, OPENCLAW_NODE_EXTRA_CA_CERTS_READY) == Get(q.env, OPENCLAW_NODE_EXTRA_CA_CERTS_READY)
    requires Get(p.env, NODE_EXTRA_CA_CERTS) == Get(q.env, NODE_EXTRA_CA_CERTS)
    requires Get(p.env, OPENCLAW_NODE_OPTIONS_READY) == Get(q.env, OPENCLAW_NODE_OPTIONS_READY)
    requires Get(p.env, NODE_OPTIONS) == Get(q.env, NODE_OPTIONS)
    ensures CliPlan(p, auto, policy).None? <==> CliPlan(q, auto, policy).None?
  {
    assert NeedsCaCerts(p.env, auto) == NeedsCaCerts(q.env, auto);
    assert WarningSuppressed(p.env, p.execArgv) == WarningSuppressed(q.env, q.execArgv);
  }

  lemma CacheChildStaysDone(p: Process, s: Surroundings, policy: Policy)
    requires CliDone(p, s.autoNodeExtraCaCerts, policy) && CompileCachePlan(p, s).Some?
    ensures CliDone(Spawned(CompileCachePlan(p, s).value, p), s.autoNodeExtraCaCerts, policy)
  {
    SameDecision(p, Spawned(CompileCachePlan(p, s).value, p), s.autoNodeExtraCaCerts, policy);
  }

  lemma EditedStaysDone(p: Process, s: Surroundings, policy: Policy)
    requires CliDone(p, s.autoNodeExtraCaCerts, policy) && HarmlessEdits(s.edits)
    ensures CliDone(p.(env := p.env + s.edits), s.autoNodeExtraCaCerts, policy)
  {
    EditsAreHarmless(p.env, s.edits);
    SameDecision(p, p.(env := p.env + s.edits), s.autoNodeExtraCaCerts, policy);
  }

  lemma CliDoneIsKept(p: Process, s: Surroundings, policy: Policy)
    requires CliDone(p, s.autoNodeExtraCaCerts, policy) && HarmlessEdits(s.edits)
    ensures match Next(p, s, policy)
            case Some(child) => CompileCachePlan(p, s).Some? && CliDone(child, s.autoNodeExtraCaCerts, policy)
            case None => CompileCachePlan(p, s).None?
  {
    EditedStaysDone(p, s, policy);
    if CompileCachePlan(p, s).Some? {
      CacheChildStaysDone(p, s, policy);
    }
  }

  /** A process for which both decisions are used up runs the CLI. */
  lemma BothDone(p: Process, s: Surroundings, policy: Policy)
    requires CliDone(p, s.autoNodeExtraCaCerts, policy) && IsReady(p.env, CompileCache) && HarmlessEdits(s.edits)
    ensures Next(p, s, policy).None?
  {
    CliDoneIsKept(p, s, policy);
  }

  lemma CacheThenCli(p0: Process, s0: Surroundings, p1: Process, s1: Surroundings, p2: Process, policy: Policy)
    requires |p0.argv| >= 2 && |p1.argv| >= 2 && HarmlessEdits(s1.edits)
    requires CompileCachePlan(p0, s0).Some? && Next(p0, s0, policy) == Some(p1) && Next(p1, s1, policy) == Some(p2)
    ensures CliDone(p2, s1.autoNodeExtraCaCerts, policy) && IsReady(p2.env, CompileCache)
  {
    assert IsReady(p1.env, CompileCache) && CompileCachePlan(p1, s1).None?;
    RespawnMakesReady(p1, s1, policy);
    CliRespawnsOnce(p1.(env := p1.env + s1.edits), s1.autoNodeExtraCaCerts, policy);
  }

  lemma CliThenCache(p0: Process, s0: Surroundings, p1: Process, s1: Surroundings, p2: Process, policy: Policy)
    requires |p0.argv| >= 2 && |p1.argv| >= 2 && HarmlessEdits(s0.edits) && HarmlessEdits(s1.edits)
    requires s0.autoNodeExtraCaCerts == s1.autoNodeExtraCaCerts
    requires CompileCachePlan(p0, s0).None? && Next(p0, s0, policy) == Some(p1) && Next(p1, s1, policy) == Some(p2)
    ensures CliDone(p2, s1.autoNodeExtraCaCerts, policy) && IsReady(p2.env, CompileCache)
  {
    CliRespawnsOnce(p0.(env := p0.env + s0.edits), s0.autoNodeExtraCaCerts, policy);
    CliDoneIsKept(p1, s1, policy);
  }

  /** Two respawns with the same answer use up both decisions. */
  lemma SecondStep(p0: Process, s0: Surroundings, p1: Process, s1: Surroundings, p2: Process, policy: Policy)
    requires |p0.argv| >= 2 && |p1.argv| >= 2
    requires HarmlessEdits(s0.edits) && HarmlessEdits(s1.edits)
    requires s0.autoNodeExtraCaCerts == s1.autoNodeExtraCaCerts
    requires Next(p0, s0, policy) == Some(p1) && Next(p1, s1, policy) == Some(p2)
    ensures CliDone(p2, s1.autoNodeExtraCaCerts, policy)
    ensures IsReady(p2.env, CompileCache)
  {
    if CompileCachePlan(p0, s0).Some? {
      CacheThenCli(p0, s0, p1, s1, p2, policy);
    } else {
      CliThenCache(p0, s0, p1, s1, p2, policy);
    }
  }

  /** When the resolver's answer is steady, a launch respawns at most once for each of the two decisions. */
  lemma SteadyLaunchIsShort(chain: seq<Process>, around: seq<Surroundings>, policy: Policy)
    requires IsLaunch(chain, around, policy) && Steady(around)
    ensures |chain| - 1 <= 2
  {
    if |chain| > 3 {
      var auto := around[0].autoNodeExtraCaCerts;
      assert Next(chain[2], around[2], policy) == Some(chain[2 + 1]);
      assert forall i | 0 <= i < 3 :: Next(chain[i], around[i], policy) == Some(chain[i + 1]) && around[i].autoNodeExtraCaCerts == auto;
      SecondStep(chain[0], around[0], chain[1], around[1], chain[2], policy);
      BothDone(chain[2], around[2], policy);
      assert false;
    }
  }

  /** A process in front of the launch that it starts. */
  lemma LaunchGrows(p: Process, s: Surroundings, chain: seq<Process>, around: seq<Surroundings>, policy: Policy)
    requires IsLaunch(chain, around, policy)
    requires |p.argv| >= 2 && HarmlessEdits(s.edits) && Next(p, s, policy) == Some(chain[0])
    ensures IsLaunch([p] + chain, [s] + around, policy)
  {
    var longer, wider := [p] + chain, [s] + around;
    forall i | 0 <= i < |longer| - 1 ensures Next(longer[i], wider[i], policy) == Some(longer[i + 1]) {
      if i > 0 {
        assert longer[i] == chain[i - 1] && wider[i] == around[i - 1] && longer[i + 1] == chain[i - 1 + 1];
      }
    }
  }

  lemma FourProcesses(p0: Process, s0: Surroundings, p1: Process, s1: Surroundings, p2: Process, s2: Surroundings,
                      p3: Process, policy: Policy)
    returns (chain: seq<Process>, around: seq<Surroundings>)
    requires |p0.argv| >= 2 && |p1.argv| >= 2 && |p2.argv| >= 2 && |p3.argv| >= 2
    requires HarmlessEdits(s0.edits) && HarmlessEdits(s1.edits) && HarmlessEdits(s2.edits)
    requires Next(p0, s0, policy) == Some(p1) && Next(p1, s1, policy) == Some(p2) && Next(p2, s2, policy) == Some(p3)
    ensures IsLaunch(chain, around, policy) && |chain| == 4
  {
    LaunchGrows(p2, s2, [p3], [s2], policy);
    LaunchGrows(p1, s1, [p2] + [p3], [s2] + [s2], policy);
    LaunchGrows(p0, s0, [p1] + ([p2] + [p3]), [s1] + ([s2] + [s2]), policy);
    chain, around := [p0] + ([p1] + ([p2] + [p3])), [s0] + ([s1] + ([s2] + [s2]));
  }

  /** A launch from a source checkout with node's compile cache on. */
  lemma CacheIsOff(p: Process, s: Surroundings, policy: Policy) returns (child: Process)
    requires |p.argv| >= 2 && !p.windows && p.execArgv == [] && p.argv[2..] == [] && p.env == map[]
    requires s.sourceCheckout && s.compileCacheDir != ""
    ensures Next(p, s, policy) == Some(child)
    ensures |child.argv| >= 2 && !child.windows && child.execArgv == [] && child.argv[2..] == []
    ensures IsReady(child.env, CompileCache)
    ensures child.env.Keys == {NODE_DISABLE_COMPILE_CACHE, OPENCLAW_SOURCE_COMPILE_CACHE_RESPAWNED}
  {
    child := Next(p, s, policy).value;
  }

  lemma NotTruthyEmpty()
    ensures !IsTruthy("")
  {
    assert Trim("") == "" && Lower("") == "";
  }

  lemma FlagIsNeeded(p: Process, s: Surroundings, policy: Policy) returns (child: Process)
    requires |p.argv| >= 2 && !p.windows && p.execArgv == [] && p.argv[2..] == []
    requires !policy.skipStartup([]) && !policy.skipWarning([])
    requires s.edits == map[] && s.autoNodeExtraCaCerts == "" && IsReady(p.env, CompileCache)
    requires p.env.Keys == {NODE_DISABLE_COMPILE_CACHE, OPENCLAW_SOURCE_COMPILE_CACHE_RESPAWNED}
    ensures Next(p, s, policy) == Some(child)
    ensures |child.argv| >= 2 && !child.windows && child.argv[2..] == []
    ensures IsReady(child.env, CompileCache)
    ensures child.env.Keys == p.env.Keys + {OPENCLAW_NODE_OPTIONS_READY}
  {
    NotTruthyEmpty();
    assert p.env + s.edits == p.env;
    assert !Contains("", EXPERIMENTAL_WARNING_FLAG) && !Contains("", "--no-warnings");
    assert NeedsWarningFlag(p.env, p.execArgv, false);
    child := Next(p, s, policy).value;
  }

  lemma CertsAreNeeded(p: Process, s: Surroundings, policy: Policy) returns (child: Process)
    requires |p.argv| >= 2 && !p.windows && p.argv[2..] == [] && !policy.skipStartup([])
    requires s.edits == map[] && s.autoNodeExtraCaCerts != "" && IsReady(p.env, CompileCache)
    requires p.env.Keys == {NODE_DISABLE_COMPILE_CACHE, OPENCLAW_SOURCE_COMPILE_CACHE_RESPAWNED, OPENCLAW_NODE_OPTIONS_READY}
    ensures Next(p, s, policy) == Some(child) && |child.argv| >= 2
  {
    NotTruthyEmpty();
    assert p.env + s.edits == p.env;
    assert NeedsCaCerts(p.env, s.autoNodeExtraCaCerts);
    child := Next(p, s, policy).value;
  }

  /**
   * The bound of three is reached when the resolver finds certificates only after the warning flag
   * has been added: compile cache, warning flag, certificates.
   */
  lemma ThreeRespawnsHappen()
    ensures exists chain, around, policy :: IsLaunch(chain, around, policy) && |chain| == 4
  {
    var policy := Policy((args: seq<string>) => false, (args: seq<string>) => false);
    var s := Surroundings(true, "cache", "entry.ts", "", map[]);
    var p0 := Process("node", [], ["node", "entry.ts"], map[], false);
    var p1 := CacheIsOff(p0, s, policy);
    var p2 := FlagIsNeeded(p1, s, policy);
    var p3 := CertsAreNeeded(p2, s.(autoNodeExtraCaCerts := "ca.pem"), policy);
    var chain, around := FourProcesses(p0, s, p1, s, p2, s.(autoNodeExtraCaCerts := "ca.pem"), p3, policy);
  }
}
