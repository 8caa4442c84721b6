/**
 * Reading the command line and the environment into the agent's
 * configuration. Parsing is a pure function of the argument list and the
 * environment (a map from variable names to values); its outcome is either
 * a request to show help or the version (the program prints and exits), or
 * the configuration together with the environment as the program leaves it.
 */
module ParseArgs {
  import opened Wrappers
  import opened Strings
  import Flags
  import Cli
  import GetModel

  type Env = map<string, string>

  /** The three settings that take a value. */
  datatype Key = ModelKey | CompactionModelKey | SessionKey

  /** The parsed part of the program's tracked state; an empty string or no value counts as unset. */
  datatype Config = Config(
    model: string,
    compactionModel: string,
    sessionPath: Option<string>,
    useFlexTier: bool,
    disableSpinner: bool,
    enableInterruptions: bool)

  /** The tracked state before parsing. */
  const Initial: Config := Config("", "", None, false, false, true)

  // ---------------------------------------------------------------------
  // Arguments
  // ---------------------------------------------------------------------

  predicate IsQuote(c: char) {
    c == '"' || c == '\''
  }

  /**
   * `stripQuotes`: a string that starts and ends with the same quote
   * character loses both ends (a lone quote character becomes empty).
   */
  function StripQuotes(s: string): (r: string)
    ensures r == s || (|s| >= 2 && r == s[1..|s| - 1]) || (|s| == 1 && r == "")
    ensures r != s ==> IsQuote(s[0]) && s[|s| - 1] == s[0]
  {
    if |s| > 0 && IsQuote(s[0]) && s[|s| - 1] == s[0] then
      if |s| >= 2 then s[1..|s| - 1] else ""
    else s
  }

  /** One surrounding pair of matching quotes is removed, whatever is inside. */
  lemma {:induction false} StripQuotesPair(q: char, w: string)
    requires IsQuote(q)
    ensures StripQuotes([q] + w + [q]) == w
  {
    var s := [q] + w + [q];
    assert s[1..|s| - 1] == w;
  }

  /** A string not wrapped in one kind of quote is kept as it is. */
  lemma {:induction false} StripQuotesOther(s: string)
    requires |s| == 0 || !IsQuote(s[0]) || s[|s| - 1] != s[0]
    ensures StripQuotes(s) == s
  {
  }

  /** The value flags, in the order they are tried, with every spelling of each. */
  const FlagTable: seq<(Key, string)> := [
    (ModelKey, "--model"), (ModelKey, "-m"), (ModelKey, "model"),
    (CompactionModelKey, "--compaction-model"), (CompactionModelKey, "-c"), (CompactionModelKey, "compaction-model"),
    (SessionKey, "--session"), (SessionKey, "-s"), (SessionKey, "session")]

  const InterruptionAliases: set<string> := {
    "--no-interrupt", "--no-interrupts", "--no-interruptions",
    "--disable-interrupt", "--disable-interrupts", "--disable-interruptions"}

  /** An argument names a value flag by its spelling alone or as `spelling=value`. */
  predicate FlagMatch(arg: string, spelling: string) {
    arg == spelling || StartsWith(arg, spelling + "=")
  }

  /** The first table entry, from `from` on, that the argument names. */
  function FindFlag(arg: string, from: nat): (r: Option<nat>)
    requires from <= |FlagTable|
    ensures r.Some? ==> from <= r.value < |FlagTable| && FlagMatch(arg, FlagTable[r.value].1)
    ensures r.Some? ==> forall j :: from <= j < r.value ==> !FlagMatch(arg, FlagTable[j].1)
    ensures r.None? ==> forall j :: from <= j < |FlagTable| ==> !FlagMatch(arg, FlagTable[j].1)
    decreases |FlagTable| - from
  {
    if from == |FlagTable| then None
    else if FlagMatch(arg, FlagTable[from].1) then Some(from)
    else FindFlag(arg, from + 1)
  }

  function SetKey(c: Config, k: Key, v: string): Config {
    match k
    case ModelKey => c.(model := v)
    case CompactionModelKey => c.(compactionModel := v)
    case SessionKey => c.(sessionPath := Some(v))
  }

  /** The boolean flags; any other argument leaves the configuration alone. */
  function ApplyBoolean(arg: string, c: Config): (r: Config)
    ensures r.model == c.model && r.compactionModel == c.compactionModel && r.sessionPath == c.sessionPath
    ensures r.useFlexTier <==> c.useFlexTier || arg == "--flex-tier"
    ensures r.disableSpinner <==> c.disableSpinner || arg == "--no-spinner" || arg == "--disable-spinner"
    ensures r.enableInterruptions <==> c.enableInterruptions && arg !in InterruptionAliases
  {
    if arg == "--flex-tier" then c.(useFlexTier := true)
    else if arg == "--no-spinner" || arg == "--disable-spinner" then c.(disableSpinner := true)
    else if arg in InterruptionAliases then c.(enableInterruptions := false)
    else c
  }

  /**
   * A value flag given alone takes the next argument when there is a
   * non-empty one (and skips it); `spelling=value` takes the text after
   * `=`; both lose one pair of surrounding quotes. The switches stay as
   * they are.
   */
  function ValueStep(args: seq<string>, c: Config, j: nat): (r: (nat, Config))
    requires |args| > 0 && j < |FlagTable| && FlagMatch(args[0], FlagTable[j].1)
    ensures 1 <= r.0 <= |args| && r.0 <= 2
    ensures r.1.useFlexTier == c.useFlexTier && r.1.disableSpinner == c.disableSpinner
    ensures r.1.enableInterruptions == c.enableInterruptions
    ensures c.sessionPath.Some? ==> r.1.sessionPath.Some?
  {
    var arg := args[0];
    var key := FlagTable[j].0;
    var spelling := FlagTable[j].1;
    if arg == spelling then
      if |args| > 1 && args[1] != "" then (2, SetKey(c, key, StripQuotes(args[1])))
      else (1, c)
    else (1, SetKey(c, key, StripQuotes(arg[|spelling| + 1..])))
  }

  /** One turn of the argument loop: how many arguments the head argument uses up, and the configuration after it. */
  function Step(args: seq<string>, c: Config): (r: (nat, Config))
    requires |args| > 0
    ensures 1 <= r.0 <= |args| && r.0 <= 2
    ensures c.useFlexTier ==> r.1.useFlexTier
    ensures r.1.useFlexTier ==> c.useFlexTier || args[0] == "--flex-tier"
    ensures c.disableSpinner ==> r.1.disableSpinner
    ensures !c.enableInterruptions ==> !r.1.enableInterruptions
    ensures c.sessionPath.Some? ==> r.1.sessionPath.Some?
  {
    match FindFlag(args[0], 0)
    case Some(j) => ValueStep(args, c, j)
    case None => (1, ApplyBoolean(args[0], c))
  }

  /**
   * The argument loop. Switches once on stay on, and the flex tier is
   * switched on only by a `--flex-tier` argument.
   */
  function ApplyArgs(args: seq<string>, c: Config): (r: Config)
    ensures c.useFlexTier ==> r.useFlexTier
    ensures c.disableSpinner ==> r.disableSpinner
    ensures !c.enableInterruptions ==> !r.enableInterruptions
    ensures c.sessionPath.Some? ==> r.sessionPath.Some?
    ensures r.useFlexTier ==> c.useFlexTier || "--flex-tier" in args
    decreases |args|
  {
    if |args| == 0 then c
    else
      var step := Step(args, c);
      assert forall x :: x in args[step.0..] ==> x in args;
      ApplyArgs(args[step.0..], step.1)
  }

  // ---------------------------------------------------------------------
  // Which argument is which flag
  // ---------------------------------------------------------------------

  /** No spelling holds `=`, and no two entries share a spelling. */
  lemma SpellingsDistinct()
    ensures forall j :: 0 <= j < |FlagTable| ==> '=' !in FlagTable[j].1 && |FlagTable[j].1| > 0
    ensures forall i, j :: 0 <= i < j < |FlagTable| ==> FlagTable[i].1 != FlagTable[j].1
  {
    forall i, j | 0 <= i < j < |FlagTable| ensures FlagTable[i].1 != FlagTable[j].1 {
      var a := FlagTable[i].1;
      var b := FlagTable[j].1;
      assert |a| != |b| || a[0] != b[0] || a[1] != b[1];
    }
  }

  /** Without `=` in either spelling, `q=v` or `q` names the spelling `p` only when `p` is `q`. */
  lemma {:induction false} MatchIsSpelling(p: string, q: string, v: string)
    requires '=' !in p && '=' !in q
    ensures FlagMatch(q + "=" + v, p) ==> p == q
    ensures FlagMatch(q, p) ==> p == q
  {
    var arg := q + "=" + v;
    var pe := p + "=";
    assert pe[|p|] == '=' && pe[..|p|] == p;
    if |p| < |q| {
      assert arg[..|p| + 1][|p|] == q[|p|] != '=';
      assert q[..|p| + 1][|p|] != '=';
    } else if |p| > |q| {
      assert arg[|q|] == '=' && p[|q|] != '=';
      assert |p| + 1 <= |arg| ==> arg[..|p| + 1][|q|] != pe[|q|];
      assert |arg| == |p| ==> arg[|q|] != p[|q|];
    } else {
      assert arg[..|p| + 1][..|p|] == q;
    }
  }

  /** The entry an argument names is found, whether the value comes after `=` or not. */
  lemma {:induction false} FindsSpelling(j: nat, v: string)
    requires j < |FlagTable|
    ensures FindFlag(FlagTable[j].1, 0) == Some(j)
    ensures FindFlag(FlagTable[j].1 + "=" + v, 0) == Some(j)
  {
    SpellingsDistinct();
    var q := FlagTable[j].1;
    var eq := q + "=" + v;
    assert StartsWith(eq, q + "=") by {
      assert eq[..|q| + 1] == q + "=";
    }
    forall i | 0 <= i < |FlagTable| ensures FlagMatch(q, FlagTable[i].1) ==> i == j
      ensures FlagMatch(eq, FlagTable[i].1) ==> i == j
    {
      MatchIsSpelling(FlagTable[i].1, q, v);
    }
  }

  /** An argument without `=` that is no spelling names no value flag. */
  lemma {:induction false} NotAFlag(arg: string)
    requires '=' !in arg
    requires forall j :: 0 <= j < |FlagTable| ==> arg != FlagTable[j].1
    ensures FindFlag(arg, 0).None?
  {
    forall j | 0 <= j < |FlagTable| ensures !FlagMatch(arg, FlagTable[j].1) {
      var p := FlagTable[j].1;
      assert (p + "=")[|p|] == '=';
      assert |p| + 1 <= |arg| ==> arg[..|p| + 1][|p|] == arg[|p|] != '=';
    }
  }

  // ---------------------------------------------------------------------
  // The argument loop, flag by flag
  // ---------------------------------------------------------------------

  /** `spelling value` with a non-empty value sets the key and consumes the value. */
  lemma {:induction false} ValueFlagTakesNext(j: nat, v: string, rest: seq<string>, c: Config)
    requires j < |FlagTable| && v != ""
    ensures ApplyArgs([FlagTable[j].1, v] + rest, c) == ApplyArgs(rest, SetKey(c, FlagTable[j].0, StripQuotes(v)))
  {
    FindsSpelling(j, "");
    var args := [FlagTable[j].1, v] + rest;
    assert args[0] == FlagTable[j].1 && args[1] == v && args[2..] == rest;
  }

  /** A value flag at the end of the line leaves its key as it was. */
  lemma {:induction false} ValueFlagAtEnd(j: nat, c: Config)
    requires j < |FlagTable|
    ensures ApplyArgs([FlagTable[j].1], c) == c
  {
    FindsSpelling(j, "");
    assert [FlagTable[j].1][1..] == [];
  }

  /** `spelling=value` sets the key to the text after `=`, empty or not. */
  lemma {:induction false} ValueFlagEquals(j: nat, v: string, rest: seq<string>, c: Config)
    requires j < |FlagTable|
    ensures ApplyArgs([FlagTable[j].1 + "=" + v] + rest, c) == ApplyArgs(rest, SetKey(c, FlagTable[j].0, StripQuotes(v)))
  {
    FindsSpelling(j, v);
    SpellingsDistinct();
    var q := FlagTable[j].1;
    var arg := q + "=" + v;
    assert arg != q;
    assert arg[|q| + 1..] == v;
    assert ([arg] + rest)[0] == arg && ([arg] + rest)[1..] == rest;
  }

  const BooleanFlags: set<string> := {"--flex-tier", "--no-spinner", "--disable-spinner"} + InterruptionAliases

  /** A boolean flag is never taken for a value flag: it sets its switch and nothing else. */
  lemma {:induction false} BooleanFlagArgument(arg: string, rest: seq<string>, c: Config)
    requires arg in BooleanFlags
    ensures ApplyArgs([arg] + rest, c) == ApplyArgs(rest, ApplyBoolean(arg, c))
  {
    assert '=' !in arg;
    assert forall j :: 0 <= j < |FlagTable| && |FlagTable[j].1| == |arg| ==> j == 3;
    assert FlagTable[3].1[2] == 'c' && (|arg| == 18 ==> arg[2] == 'n');
    NotAFlag(arg);
    assert ([arg] + rest)[0] == arg && ([arg] + rest)[1..] == rest;
  }

  // ---------------------------------------------------------------------
  // Environment and defaults
  // ---------------------------------------------------------------------

  function Lookup(env: Env, name: string): Option<string> {
    if name in env then Some(env[name]) else None
  }

  /** A variable that is set to a non-empty value. */
  predicate Truthy(env: Env, name: string) {
    name in env && env[name] != ""
  }

  const TracingVar: string := "OPENAI_AGENTS_DISABLE_TRACING"

  /** `HAIRPER_FLEX_TIER` switches the flex tier on. */
  predicate FlexTierFromEnv(env: Env) {
    Flags.IsTrue(Lookup(env, "HAIRPER_FLEX_TIER"))
  }

  /** Either spinner variable switches the spinner off. */
  predicate NoSpinnerFromEnv(env: Env) {
    Flags.IsTrue(Lookup(env, "HAIRPER_NO_SPINNER")) || Flags.IsTrue(Lookup(env, "HAIRPER_DISABLE_SPINNER"))
  }

  /** A true disabling variable or a false enabling variable switches interruptions off. */
  predicate NoInterruptionsFromEnv(env: Env) {
    || Flags.IsTrue(Lookup(env, "HAIRPER_DISABLE_INTERRUPTION"))
    || Flags.IsTrue(Lookup(env, "HAIRPER_DISABLE_INTERRUPTIONS"))
    || Flags.IsFalse(Lookup(env, "HAIRPER_ENABLE_INTERRUPTION"))
    || Flags.IsFalse(Lookup(env, "HAIRPER_ENABLE_INTERRUPTIONS"))
  }

  /** A value setting the command line left empty is taken from a non-empty variable. */
  function FillFromEnv(current: string, env: Env, name: string): (r: string)
    ensures current != "" ==> r == current
    ensures current == "" && Truthy(env, name) ==> r == env[name]
    ensures r == "" ==> current == "" && !Truthy(env, name)
  {
    if current == "" && Truthy(env, name) then env[name] else current
  }

  /**
   * The environment's contribution: the three value settings only when the
   * command line left them unset, and switches that can only turn the flex
   * tier on, the spinner off and interruptions off.
   */
  function ApplyEnv(c: Config, env: Env): (r: Config)
    ensures r.model == FillFromEnv(c.model, env, "HAIRPER_MODEL")
    ensures r.compactionModel == FillFromEnv(c.compactionModel, env, "HAIRPER_COMPACTION_MODEL")
    ensures c.sessionPath.Some? && c.sessionPath.value != "" ==> r.sessionPath == c.sessionPath
    ensures (c.sessionPath.None? || c.sessionPath == Some("")) && Truthy(env, "HAIRPER_SESSION") ==>
              r.sessionPath == Some(env["HAIRPER_SESSION"])
    ensures r.useFlexTier <==> c.useFlexTier || FlexTierFromEnv(env)
    ensures r.disableSpinner <==> c.disableSpinner || NoSpinnerFromEnv(env)
    ensures r.enableInterruptions <==> c.enableInterruptions && !NoInterruptionsFromEnv(env)
  {
    var session :=
      if (c.sessionPath.None? || c.sessionPath.value == "") && Truthy(env, "HAIRPER_SESSION") then Some(env["HAIRPER_SESSION"])
      else c.sessionPath;
    Config(
      FillFromEnv(c.model, env, "HAIRPER_MODEL"),
      FillFromEnv(c.compactionModel, env, "HAIRPER_COMPACTION_MODEL"),
      session,
      c.useFlexTier || FlexTierFromEnv(env),
      c.disableSpinner || NoSpinnerFromEnv(env),
      c.enableInterruptions && !NoInterruptionsFromEnv(env))
  }

  /** The model chosen when none was given: the first provider with a key, in a fixed order. */
  function DefaultModel(env: Env): (r: string)
    ensures r != ""
    ensures Truthy(env, "ANTHROPIC_API_KEY") ==> r == "claude-3-7-sonnet-latest"
    ensures (!Truthy(env, "ANTHROPIC_API_KEY") && Truthy(env, "GOOGLE_GENERATIVE_AI_API_KEY")) ==> r == "gemini-2.0-flash"
    ensures (!Truthy(env, "ANTHROPIC_API_KEY") && !Truthy(env, "GOOGLE_GENERATIVE_AI_API_KEY") && !Truthy(env, "OPENAI_API_KEY")
             && Truthy(env, "OLLAMA_BASE_URL")) ==> r == "ollama-qwen3-coder:30b"
    ensures (!Truthy(env, "ANTHROPIC_API_KEY") && !Truthy(env, "GOOGLE_GENERATIVE_AI_API_KEY")
             && (Truthy(env, "OPENAI_API_KEY") || !Truthy(env, "OLLAMA_BASE_URL"))) ==> r == GetModel.DefaultModelName
  {
    if Truthy(env, "ANTHROPIC_API_KEY") then "claude-3-7-sonnet-latest"
    else if Truthy(env, "GOOGLE_GENERATIVE_AI_API_KEY") then "gemini-2.0-flash"
    else if Truthy(env, "OPENAI_API_KEY") then "gpt-5.2"
    else if Truthy(env, "OLLAMA_BASE_URL") then "ollama-qwen3-coder:30b"
    else "gpt-5.2"
  }

  /** The compaction model that matches the chosen model's provider. */
  function DefaultCompactionModel(model: string): (r: string)
    ensures r != ""
    ensures StartsWith(model, GetModel.ClaudePrefix) ==> r == "claude-3-5-haiku-latest"
    ensures (!StartsWith(model, GetModel.ClaudePrefix) && StartsWith(model, GetModel.GeminiPrefix)) ==> r == "gemini-1.5-flash"
    ensures (!StartsWith(model, GetModel.ClaudePrefix) && !StartsWith(model, GetModel.GeminiPrefix)
             && StartsWith(model, GetModel.OllamaPrefix)) ==> r == "ollama-qwen2.5-coder"
    ensures !GetModel.OtherProviderName(model) ==> r == "gpt-4o-mini"
  {
    if StartsWith(model, "claude-") then "claude-3-5-haiku-latest"
    else if StartsWith(model, "gemini-") then "gemini-1.5-flash"
    else if StartsWith(model, "ollama-") then "ollama-qwen2.5-coder"
    else "gpt-4o-mini"
  }

  /** Tracing is switched off for models of other providers, unless the variable already has a value. */
  function TracingEnv(model: string, env: Env): (r: Env)
    ensures forall k :: k != TracingVar ==> (k in r <==> k in env) && (k in env ==> r[k] == env[k])
    ensures Truthy(env, TracingVar) ==> r == env
    ensures GetModel.IsOpenAIModel(Some(model)) ==> r == env
    ensures !GetModel.IsOpenAIModel(Some(model)) && !Truthy(env, TracingVar) ==> TracingVar in r && r[TracingVar] == "1"
  {
    if GetModel.IsOpenAIModel(Some(model)) then env
    else env[TracingVar := if Truthy(env, TracingVar) then env[TracingVar] else "1"]
  }

  datatype Outcome = ShowHelp | ShowVersion | Configured(config: Config, env: Env)

  /** The defaults for the model and the compaction model, applied to what is still unset. */
  function WithDefaults(given: Config, env: Env): (r: Config)
    ensures r.model != "" && r.compactionModel != ""
    ensures given.model != "" ==> r.model == given.model
    ensures given.compactionModel != "" ==> r.compactionModel == given.compactionModel
    ensures r.sessionPath == given.sessionPath && r.useFlexTier == given.useFlexTier
    ensures r.disableSpinner == given.disableSpinner && r.enableInterruptions == given.enableInterruptions
  {
    var model := if given.model == "" then DefaultModel(env) else given.model;
    var compaction := if given.compactionModel == "" then DefaultCompactionModel(model) else given.compactionModel;
    given.(model := model, compactionModel := compaction)
  }

  /** `parseArgs`: help first, then version, then arguments, environment and defaults. */
  function ParseArgs(args: seq<string>, env: Env): (r: Outcome)
    ensures r == ShowHelp <==> Cli.IsHelpRequest(args)
    ensures r == ShowVersion <==> !Cli.IsHelpRequest(args) && Cli.IsVersionRequest(args)
    ensures r.Configured? ==> r.config.model != "" && r.config.compactionModel != ""
  {
    if Cli.IsHelpRequest(args) then ShowHelp
    else if Cli.IsVersionRequest(args) then ShowVersion
    else
      var config := WithDefaults(ApplyEnv(ApplyArgs(args, Initial), env), env);
      Configured(config, TracingEnv(config.model, env))
  }

  // ---------------------------------------------------------------------
  // Properties of the whole parse
  // ---------------------------------------------------------------------

  /** A model given on the command line wins over the environment and the defaults. */
  lemma CommandLineModelWins(args: seq<string>, env: Env)
    requires !Cli.IsHelpRequest(args) && !Cli.IsVersionRequest(args)
    requires ApplyArgs(args, Initial).model != ""
    ensures ParseArgs(args, env).config.model == ApplyArgs(args, Initial).model
  {
  }

  /** With no model from the command line or `HAIRPER_MODEL`, the provider keys decide. */
  lemma DefaultModelApplies(args: seq<string>, env: Env)
    requires !Cli.IsHelpRequest(args) && !Cli.IsVersionRequest(args)
    requires ApplyArgs(args, Initial).model == "" && !Truthy(env, "HAIRPER_MODEL")
    ensures ParseArgs(args, env).config.model == DefaultModel(env)
  {
  }

  /** `HAIRPER_MODEL` fills a model the command line left unset, ahead of the provider defaults. */
  lemma EnvModelBeatsDefaults(args: seq<string>, env: Env)
    requires !Cli.IsHelpRequest(args) && !Cli.IsVersionRequest(args)
    requires ApplyArgs(args, Initial).model == "" && Truthy(env, "HAIRPER_MODEL")
    ensures ParseArgs(args, env).config.model == env["HAIRPER_MODEL"]
  {
  }
}
