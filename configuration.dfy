/**
 * The options hash of `Sidekiq::CLI` and what each command-line handler
 * does to it. `OptionParser` itself is not modelled: the input is the
 * sequence of recognised flags, with their arguments, in the order the
 * parser hands them to the handler blocks.
 */
module Configuration {
  import opened Wrappers
  import opened RubyCore

  /** The queue-store locator used when the environment supplies none. */
  const DEFAULT_SERVER := "redis://localhost:6379/0"
  /** The environment variable that supplies the default locator. */
  const SERVER_VARIABLE := "REDISTOGO_URL"

  /**
   * One entry of the queue list: a queue name, or `None` for Ruby's `nil`,
   * which `-q` appends when its argument is empty or only commas (`split`
   * then yields no fields).
   */
  type QueueName = Option<string>

  /** The `@options` hash, one field per key. */
  datatype Options = Options(
    verbose: bool,
    queues: seq<QueueName>,
    processorCount: int,
    server: string,
    rails: string,
    environment: string)

  /** A recognised flag with its argument, as the handler block receives it. */
  datatype Flag =
    | Queue(arg: string)        // -q, --queue QUEUE,WEIGHT
    | Verbose                   // -v, --verbose
    | Server(arg: string)       // -s, --server LOCATION
    | Environment(arg: string)  // -e, --environment ENV
    | Rails(arg: string)        // -r, --rails PATH
    | Concurrency(arg: string)  // -c, --concurrency INT
    | Help                      // -h, --help

  /** After a handler: go on with these options, or the process exits. */
  datatype Step = Proceed(options: Options) | Exit(status: int)

  /** The seeded hash: `server` comes from `ENV['REDISTOGO_URL']` when it is set. */
  function Defaults(env: map<string, string>): Options {
    Options(
      verbose := false,
      queues := [Some("default")],
      processorCount := 25,
      server := if SERVER_VARIABLE in env then env[SERVER_VARIABLE] else DEFAULT_SERVER,
      rails := ".",
      environment := "production")
  }

  /** `(q, weight) = arg.split(",")`: missing fields are `nil`, extra fields are ignored. */
  function QueueArg(arg: string): (QueueName, Option<string>) {
    var parts := Split(arg, ',');
    (if |parts| > 0 then Some(parts[0]) else None,
     if |parts| > 1 then Some(parts[1]) else None)
  }

  /**
   * How many times `-q` appends its queue: once without a weight, else the
   * weight's `to_i` (as `Integer#times`, none for a count below one). This is
   * the evident intent; `QueueHandlerAsWritten` shows what the code does.
   */
  function Copies(weight: Option<string>): nat {
    match weight
    case None => 1
    case Some(w) => var n := ToI(w); if n > 0 then n else 0
  }

  function Repeat<T>(x: T, n: nat): (r: seq<T>)
    ensures |r| == n
    ensures forall i :: 0 <= i < n ==> r[i] == x
  {
    if n == 0 then [] else Repeat(x, n - 1) + [x]
  }

  /** The entries one `-q arg` appends to the queue list. */
  function Expand(arg: string): seq<QueueName> {
    var (q, weight) := QueueArg(arg);
    Repeat(q, Copies(weight))
  }

  /** One handler block applied to the hash. */
  function ApplyFlag(o: Options, f: Flag): Step {
    match f
    case Queue(arg) => Proceed(o.(queues := o.queues + Expand(arg)))
    case Verbose => Proceed(o.(verbose := true))
    case Server(arg) => Proceed(o.(server := arg))
    case Environment(arg) => Proceed(o.(environment := arg))
    case Rails(arg) => Proceed(o.(rails := arg))
    case Concurrency(arg) => Proceed(o.(processorCount := ToI(arg)))
    case Help => Exit(1)
  }

  /** The handlers applied in order; the first exit ends parsing. */
  function Parse(o: Options, argv: seq<Flag>): Step
    decreases |argv|
  {
    if argv == [] then Proceed(o)
    else
      match ApplyFlag(o, argv[0])
      case Exit(status) => Exit(status)
      case Proceed(o') => Parse(o', argv[1..])
  }

  /** A single flag is parsed by its own handler. */
  lemma ParseOne(o: Options, f: Flag)
    ensures Parse(o, [f]) == ApplyFlag(o, f)
  {
    assert [f][1..] == [];
  }

  /** Two flags are parsed by their handlers in turn. */
  lemma ParseTwo(o: Options, first: Flag, second: Flag)
    ensures Parse(o, [first, second]) ==
      match ApplyFlag(o, first)
      case Exit(status) => Exit(status)
      case Proceed(o') => ApplyFlag(o', second)
  {
    assert [first, second][1..] == [second];
    if ApplyFlag(o, first).Proceed? {
      ParseOne(ApplyFlag(o, first).options, second);
    }
  }

  /** `parse_options`: the seeded hash, then every handler. */
  function ParsedOptions(env: map<string, string>, argv: seq<Flag>): Step {
    Parse(Defaults(env), argv)
  }

  // ----- Reference definitions: each field from its own flags only -----

  /** The options that a flag argument replaces outright. */
  datatype Setting = ServerSetting | EnvironmentSetting | RailsSetting | ConcurrencySetting

  predicate Sets(f: Flag, k: Setting)
    ensures Sets(f, k) ==> !f.Verbose? && !f.Help?
  {
    match k
    case ServerSetting => f.Server?
    case EnvironmentSetting => f.Environment?
    case RailsSetting => f.Rails?
    case ConcurrencySetting => f.Concurrency?
  }

  /** The argument of the last flag in `argv` that sets `k`, if any. */
  function LastArg(argv: seq<Flag>, k: Setting): Option<string> {
    if argv == [] then None
    else if Sets(argv[|argv| - 1], k) then Some(argv[|argv| - 1].arg)
    else LastArg(argv[..|argv| - 1], k)
  }

  function LastOr(argv: seq<Flag>, k: Setting, current: string): string {
    match LastArg(argv, k)
    case None => current
    case Some(a) => a
  }

  /** Every entry the `-q` flags of `argv` append, in order of appearance. */
  function Expansion(argv: seq<Flag>): seq<QueueName> {
    if argv == [] then []
    else (if argv[0].Queue? then Expand(argv[0].arg) else []) + Expansion(argv[1..])
  }

  /** The sum of the weights of the `-q` flags of `argv`. */
  function TotalWeight(argv: seq<Flag>): nat {
    if argv == [] then 0
    else (if argv[0].Queue? then Copies(QueueArg(argv[0].arg).1) else 0) + TotalWeight(argv[1..])
  }

  lemma {:induction false} ExpansionLength(argv: seq<Flag>)
    ensures |Expansion(argv)| == TotalWeight(argv)
  {
    if argv != [] {
      ExpansionLength(argv[1..]);
    }
  }

  // ----- Properties of parsing -----

  /** Parsing ends in an exit exactly when `-h` is among the flags, and that exit has status 1. */
  lemma {:induction false} ExitIffHelp(o: Options, argv: seq<Flag>)
    ensures Parse(o, argv).Exit? <==> Help in argv
    ensures Parse(o, argv).Exit? ==> Parse(o, argv).status == 1
    decreases |argv|
  {
    if argv != [] {
      assert argv == [argv[0]] + argv[1..];
      if argv[0] != Help {
        ExitIffHelp(ApplyFlag(o, argv[0]).options, argv[1..]);
      }
    }
  }

  lemma {:induction false} LastArgCons(f: Flag, rest: seq<Flag>, k: Setting)
    ensures LastArg([f] + rest, k) ==
      if LastArg(rest, k).Some? then LastArg(rest, k)
      else if Sets(f, k) then Some(f.arg) else None
  {
    var s := [f] + rest;
    if rest == [] {
      assert s[..|s| - 1] == [];
    } else {
      assert s[|s| - 1] == rest[|rest| - 1];
      assert s[..|s| - 1] == [f] + rest[..|rest| - 1];
      LastArgCons(f, rest[..|rest| - 1], k);
    }
  }

  /** Without `-h`, `verbose` ends true exactly when it started true or some `-v` is present. */
  lemma {:induction false} ParseVerbose(o: Options, argv: seq<Flag>)
    requires Help !in argv
    ensures Parse(o, argv).Proceed?
    ensures Parse(o, argv).options.verbose == (o.verbose || Verbose in argv)
    decreases |argv|
  {
    if argv != [] {
      assert argv == [argv[0]] + argv[1..];
      ParseVerbose(ApplyFlag(o, argv[0]).options, argv[1..]);
    }
  }

  /** Only `-q` touches the queue list, and it only appends. */
  lemma ApplyFlagQueues(o: Options, f: Flag)
    requires f != Help
    ensures ApplyFlag(o, f).Proceed?
    ensures ApplyFlag(o, f).options.queues == o.queues + if f.Queue? then Expand(f.arg) else []
  {
  }

  /** Without `-h`, the queue list is the initial list followed by every `-q` expansion in order. */
  lemma {:induction false} ParseQueues(o: Options, argv: seq<Flag>)
    requires Help !in argv
    ensures Parse(o, argv).Proceed?
    ensures Parse(o, argv).options.queues == o.queues + Expansion(argv)
    decreases |argv|
  {
    if argv != [] {
      assert argv == [argv[0]] + argv[1..];
      ApplyFlagQueues(o, argv[0]);
      ParseQueues(ApplyFlag(o, argv[0]).options, argv[1..]);
    }
  }






  /**
   * Without `-h`, an option that a flag replaces holds the argument of the
   * last such flag (its `to_i` for `-c`), or keeps its initial value.
   */
  lemma {:induction false} ParseSetting(o: Options, argv: seq<Flag>, k: Setting)
    requires Help !in argv
    ensures Parse(o, argv).Proceed?
    ensures var r := Parse(o, argv).options;
      match k
      case ServerSetting => r.server == LastOr(argv, k, o.server)
      case EnvironmentSetting => r.environment == LastOr(argv, k, o.environment)
      case RailsSetting => r.rails == LastOr(argv, k, o.rails)
      case ConcurrencySetting =>
        r.processorCount == match LastArg(argv, k) case None => o.processorCount case Some(a) => ToI(a)
    decreases |argv|
  {
    if argv != [] {
      var f, rest := argv[0], argv[1..];
      assert argv == [f] + rest;
      ParseSetting(ApplyFlag(o, f).options, rest, k);
      LastArgCons(f, rest, k);
    }
  }

  /**
   * Without `-h`, parsing succeeds, and each field depends on its own flags
   * only: `verbose` is set by any `-v`; the queue list is the initial list
   * followed by every `-q` expansion in order; a replaced field holds the
   * argument of its last flag (`to_i` of it for `-c`), or keeps its value.
   */
  lemma ParseCharacterization(o: Options, argv: seq<Flag>)
    requires Help !in argv
    ensures Parse(o, argv) == Proceed(Options(
      verbose := o.verbose || Verbose in argv,
      queues := o.queues + Expansion(argv),
      processorCount := match LastArg(argv, ConcurrencySetting)
                        case None => o.processorCount
                        case Some(a) => ToI(a),
      server := LastOr(argv, ServerSetting, o.server),
      rails := LastOr(argv, RailsSetting, o.rails),
      environment := LastOr(argv, EnvironmentSetting, o.environment)))
  {
    ParseVerbose(o, argv);
    ParseQueues(o, argv);
    ParseSetting(o, argv, ServerSetting);
    ParseSetting(o, argv, EnvironmentSetting);
    ParseSetting(o, argv, RailsSetting);
    ParseSetting(o, argv, ConcurrencySetting);
  }

  /** With no flags, the options are the documented defaults. */
  lemma NoFlagsGiveDefaults(env: map<string, string>)
    ensures ParsedOptions(env, []) == Proceed(Options(
      false, [Some("default")], 25,
      if "REDISTOGO_URL" in env then env["REDISTOGO_URL"] else "redis://localhost:6379/0",
      ".", "production"))
  {
  }

  /** A flag that sets an option overrides every earlier one of its kind. */
  lemma {:induction false} LastOccurrenceWins(pre: seq<Flag>, f: Flag, post: seq<Flag>, k: Setting)
    requires Sets(f, k)
    requires forall i :: 0 <= i < |post| ==> !Sets(post[i], k)
    ensures LastArg(pre + [f] + post, k) == Some(f.arg)
  {
    var s := pre + [f] + post;
    if post != [] {
      assert s[|s| - 1] == post[|post| - 1];
      assert s[..|s| - 1] == pre + [f] + post[..|post| - 1];
      LastOccurrenceWins(pre, f, post[..|post| - 1], k);
    } else {
      assert s[|s| - 1] == f;
    }
  }

  /** `-c ARG` stores `ARG.to_i` as the processor count; nothing checks it is positive. */
  lemma ConcurrencyIsToI(env: map<string, string>, pre: seq<Flag>, arg: string, post: seq<Flag>)
    requires Help !in pre + [Concurrency(arg)] + post
    requires forall i :: 0 <= i < |post| ==> !post[i].Concurrency?
    ensures ParsedOptions(env, pre + [Concurrency(arg)] + post).Proceed?
    ensures ParsedOptions(env, pre + [Concurrency(arg)] + post).options.processorCount == ToI(arg)
  {
    ParseSetting(Defaults(env), pre + [Concurrency(arg)] + post, ConcurrencySetting);
    LastOccurrenceWins(pre, Concurrency(arg), post, ConcurrencySetting);
  }

  /** Non-numeric, zero and negative counts pass through unchanged. */
  lemma ConcurrencyNotChecked(env: map<string, string>, word: string, n: int)
    requires !HasNumeral(word)
    ensures ParsedOptions(env, [Concurrency(word)]) == Proceed(Defaults(env).(processorCount := 0))
    ensures ParsedOptions(env, [Concurrency(Show(n))]) == Proceed(Defaults(env).(processorCount := n))
  {
    ParseOne(Defaults(env), Concurrency(word));
    ParseOne(Defaults(env), Concurrency(Show(n)));
    NoNumeralIsZero(word);
    ToIShowRoundTrip(n, []);
    assert Show(n) + [] == Show(n);
  }

  /** `-q NAME` appends exactly one NAME after all earlier entries. */
  lemma UnweightedQueueAppendsOnce(o: Options, name: string)
    requires name != [] && ',' !in name
    ensures ApplyFlag(o, Queue(name)) == Proceed(o.(queues := o.queues + [Some(name)]))
  {
    SplitOne(name, ',');
  }

  /** `-q NAME,N` appends NAME exactly N times after all earlier entries. */
  lemma WeightedQueueAppends(o: Options, name: string, n: nat)
    requires ',' !in name
    ensures ApplyFlag(o, Queue(name + "," + Show(n))) ==
            Proceed(o.(queues := o.queues + Repeat(Some(name), n)))
  {
    var w := Show(n);
    assert ',' !in w by {
      assert AllDigits(w);
    }
    SplitTwo(name, w, ',');
    assert name + "," + w == name + [','] + w;
    ToIShowRoundTrip(n, []);
    assert w + [] == w;
  }

  /**
   * The queue list after parsing is the `"default"` seed followed by every
   * `-q` expansion in order, and it has one entry plus the sum of the weights.
   */
  lemma QueueList(env: map<string, string>, argv: seq<Flag>)
    requires Help !in argv
    ensures ParsedOptions(env, argv).Proceed?
    ensures ParsedOptions(env, argv).options.queues == [Some("default")] + Expansion(argv)
    ensures |ParsedOptions(env, argv).options.queues| == 1 + TotalWeight(argv)
  {
    ParseQueues(Defaults(env), argv);
    ExpansionLength(argv);
  }

  /** The worked example `-q critical,3 -q low`, for any two comma-free names. */
  lemma WeightedExample(o: Options, a: string, b: string)
    requires ',' !in a && ',' !in b && b != []
    ensures Parse(o, [Queue(a + "," + Show(3)), Queue(b)]) ==
            Proceed(o.(queues := o.queues + [Some(a), Some(a), Some(a), Some(b)]))
  {
    var first, second := Queue(a + "," + Show(3)), Queue(b);
    WeightedQueueAppends(o, a, 3);
    var o' := o.(queues := o.queues + Repeat(Some(a), 3));
    UnweightedQueueAppendsOnce(o', b);
    ParseTwo(o, first, second);
    assert Repeat(Some(a), 3) == [Some(a), Some(a), Some(a)];
    assert o'.queues + [Some(b)] == o.queues + [Some(a), Some(a), Some(a), Some(b)];
  }

  // ----- The weight handler as written -----

  /** What the `-q` handler raises. */
  datatype HandlerError = NoMethodError  // `times` called on a String

  /**
   * The `-q` handler as written: `split` yields the weight as a String, and
   * `(weight || 1).times` only works when the weight is `nil`. So it raises
   * exactly when a comma in the argument is followed, somewhere later, by
   * another character, and otherwise appends one entry and changes nothing else.
   */
  function QueueHandlerAsWritten(o: Options, arg: string): (r: Result<Options, HandlerError>)
    ensures r.Failure? <==> exists i, j :: 0 <= i < j < |arg| && arg[i] == ',' && arg[j] != ','
    ensures r.Success? ==>
      && r.value == o.(queues := r.value.queues)
      && |r.value.queues| == |o.queues| + 1
      && r.value.queues[..|o.queues|] == o.queues
  {
    SplitHasSecondField(arg, ',');
    var (q, weight) := QueueArg(arg);
    if weight.Some? then Failure(NoMethodError) else Success(o.(queues := o.queues + [q]))
  }

  /** An explicit weight raises as written, while the intended handler appends the queue that many times. */
  lemma ExplicitWeightRaisesAsWritten(o: Options, name: string, n: nat)
    requires ',' !in name
    ensures QueueHandlerAsWritten(o, name + "," + Show(n)) == Failure(NoMethodError)
    ensures ApplyFlag(o, Queue(name + "," + Show(n))).options.queues == o.queues + Repeat(Some(name), n)
  {
    var w := Show(n);
    assert ',' !in w by {
      assert AllDigits(w);
    }
    SplitTwo(name, w, ',');
    assert name + "," + w == name + [','] + w;
    WeightedQueueAppends(o, name, n);
  }

  /** Without a weight the code as written and the intended handler agree. */
  lemma AsWrittenAgreesWithoutWeight(o: Options, arg: string)
    requires QueueArg(arg).1 == None
    ensures QueueHandlerAsWritten(o, arg) == Success(ApplyFlag(o, Queue(arg)).options)
  {
    assert Expand(arg) == [QueueArg(arg).0];
  }
}
