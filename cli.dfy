/**
 * `Sidekiq::CLI`: building the options hash, the boot-file gate, booting
 * the Rails application, and supervising the manager until an interrupt.
 * Process-wide state (`ENV`, `$DEBUG`, the exit status) lives in a `Host`;
 * calls into collaborators (Rails, the Redis pool, the manager) are recorded
 * as events in the order they happen.
 */
module SidekiqCli {
  import opened Wrappers
  import opened RubyCore
  import opened Configuration

  /** The number of seconds `run` sleeps while the manager works. */
  const FOREVER := 2_000_000_000
  /** The environment variable `boot_rails` sets. */
  const RAILS_ENV := "RAILS_ENV"

  /** The shutdown-wait kind passed to `Manager#wait`. */
  datatype WaitKind = Shutdown

  /** A call into a collaborator, or the process exiting. */
  datatype Event =
    | Required(path: string, railsEnv: Option<string>)  // require of the Rails environment file, with `ENV['RAILS_ENV']` at that moment
    | EagerLoaded                                       // Rails.application.eager_load!
    | ClientPoolSet(url: string)                        // Sidekiq::Client.redis = ConnectionPool.new { ... }
    | ManagerCreated(server: string, options: Options)  // Sidekiq::Manager.new(server, options)
    | Started                                           // manager.start!
    | Slept(seconds: nat)                               // sleep FOREVER
    | Stopped                                           // manager.stop!
    | Waited(kind: WaitKind)                            // manager.wait(:shutdown)
    | Exited(status: int)                               // exit(status)

  /**
   * When the operator interrupts: during the sleep, and once more while
   * `wait(:shutdown)` blocks (a second Ctrl-C).
   */
  datatype Interrupts = Interrupts(duringSleep: bool, duringShutdown: bool)

  /** How `run` ends: it returns, or an `Interrupt` escapes it. */
  datatype RunOutcome = Returned | RaisedInterrupt

  /** The process-wide state the CLI reads and writes. */
  datatype Process = Process(
    env: map<string, string>,
    debug: bool,
    events: seq<Event>,
    exitStatus: Option<int>)

  /** The file whose presence marks a Rails application root. */
  function BootFile(rails: string): string {
    rails + "/config/boot.rb"
  }

  /** The file `boot_rails` requires. */
  function EnvironmentFile(rails: string): string {
    rails + "/config/environment.rb"
  }

  /** `boot_rails`: sets `RAILS_ENV`, then loads and eagerly loads the application. */
  function Booted(p: Process, o: Options): Process {
    p.(env := p.env[RAILS_ENV := o.environment],
       events := p.events + [Required(EnvironmentFile(o.rails), Some(o.environment)), EagerLoaded])
  }

  /** `initialize`: parse, validate, boot; an exit along the way ends it. */
  function Initialized(p: Process, files: set<string>, argv: seq<Flag>): Process {
    match ParsedOptions(p.env, argv)
    case Exit(status) => p.(events := p.events + [Exited(status)], exitStatus := Some(status))
    case Proceed(o) =>
      if BootFile(o.rails) in files then Booted(p.(debug := o.verbose), o)
      else p.(debug := o.verbose, events := p.events + [Exited(1)], exitStatus := Some(1))
  }

  /** The calls `run` makes: set up the pool, create and start the manager, sleep, and on interrupt stop and wait. */
  function RunEvents(o: Options, interrupts: Interrupts): seq<Event> {
    [ClientPoolSet(o.server), ManagerCreated(o.server, o), Started, Slept(FOREVER)]
    + (if interrupts.duringSleep then [Stopped, Waited(Shutdown)] else [])
  }

  /** Only the first interrupt is rescued; one during the shutdown wait escapes `run`. */
  function RunResult(interrupts: Interrupts): RunOutcome {
    if interrupts.duringSleep && interrupts.duringShutdown then RaisedInterrupt else Returned
  }

  /** The process after `CLI.new.run`, where `run` is reached only if `initialize` did not exit. */
  function Launch(p: Process, files: set<string>, argv: seq<Flag>, interrupts: Interrupts): Process {
    var q := Initialized(p, files, argv);
    match ParsedOptions(p.env, argv)
    case Proceed(o) => if BootFile(o.rails) in files then q.(events := q.events + RunEvents(o, interrupts)) else q
    case Exit(_) => q
  }

  /** The options parse without `-h` and name an application root that has its boot file. */
  predicate Bootable(env: map<string, string>, files: set<string>, argv: seq<Flag>) {
    ParsedOptions(env, argv).Proceed? && BootFile(ParsedOptions(env, argv).options.rails) in files
  }

  /** How many times `e` occurs in `s`. */
  function Count(s: seq<Event>, e: Event): nat {
    multiset(s)[e]
  }

  /** Some occurrence of `a` in `s` comes before some occurrence of `b`. */
  predicate Before(s: seq<Event>, a: Event, b: Event) {
    exists j, k :: 0 <= j < k < |s| && s[j] == a && s[k] == b
  }

  // ----- Properties of the lifecycle -----

  /** `-h` exits with status 1 before validation: no debug flag, no boot, no manager. */
  lemma HelpExitsBeforeValidation(p: Process, files: set<string>, argv: seq<Flag>, interrupts: Interrupts)
    requires p.exitStatus == None
    requires Help in argv
    ensures Launch(p, files, argv, interrupts) ==
            p.(events := p.events + [Exited(1)], exitStatus := Some(1))
  {
    ExitIffHelp(Defaults(p.env), argv);
  }

  /**
   * Without `-h`, `validate!` sets the debug flag to `verbose`; a missing
   * `<rails>/config/boot.rb` then exits with status 1, and nothing is booted
   * or run.
   */
  lemma MissingBootFileExits(p: Process, files: set<string>, argv: seq<Flag>, interrupts: Interrupts)
    requires p.exitStatus == None
    requires Help !in argv
    ensures ParsedOptions(p.env, argv).Proceed?
    ensures var o := ParsedOptions(p.env, argv).options;
      BootFile(o.rails) !in files ==>
        Launch(p, files, argv, interrupts) ==
        p.(debug := o.verbose, events := p.events + [Exited(1)], exitStatus := Some(1))
  {
    ExitIffHelp(Defaults(p.env), argv);
  }

  /** The process exits during `initialize` exactly when it is not bootable, and then with status 1. */
  lemma ExitIffNotBootable(p: Process, files: set<string>, argv: seq<Flag>, interrupts: Interrupts)
    requires p.exitStatus == None
    ensures Launch(p, files, argv, interrupts).exitStatus ==
            if Bootable(p.env, files, argv) then None else Some(1)
  {
    ExitIffHelp(Defaults(p.env), argv);
  }

  /**
   * A bootable launch sets `$DEBUG` to `verbose` and `RAILS_ENV` to the
   * environment name, requires `<rails>/config/environment.rb`, and only then
   * runs the manager.
   */
  lemma BootThenRun(p: Process, files: set<string>, argv: seq<Flag>, interrupts: Interrupts)
    requires p.exitStatus == None
    requires Bootable(p.env, files, argv)
    ensures var o := ParsedOptions(p.env, argv).options;
      var q := Launch(p, files, argv, interrupts);
      && q.debug == o.verbose
      && q.env == p.env[RAILS_ENV := o.environment]
      && q.exitStatus == None
      && q.events == p.events + [Required(o.rails + "/config/environment.rb", Some(o.environment)), EagerLoaded]
                     + RunEvents(o, interrupts)
  {
  }

  /**
   * `run` starts the manager once and before it sleeps; on an interrupt it
   * calls `stop!` and then `wait(:shutdown)`, each exactly once, and without
   * one it calls neither. (The model has at most one further interrupt, during
   * the wait; it matters only after one during the sleep.)
   */
  lemma SupervisionOrder(o: Options, interrupts: Interrupts)
    ensures var s := RunEvents(o, interrupts);
      && Count(s, Started) == 1
      && Before(s, Started, Slept(FOREVER))
      && Count(s, Stopped) == (if interrupts.duringSleep then 1 else 0)
      && Count(s, Waited(Shutdown)) == (if interrupts.duringSleep then 1 else 0)
      && (interrupts.duringSleep ==> Before(s, Slept(FOREVER), Stopped) && Before(s, Stopped, Waited(Shutdown)))
  {
    var s := RunEvents(o, interrupts);
    assert s[2] == Started && s[3] == Slept(FOREVER);
    if interrupts.duringSleep {
      assert s[4] == Stopped && s[5] == Waited(Shutdown);
    }
    var head := [ClientPoolSet(o.server), ManagerCreated(o.server, o), Started, Slept(FOREVER)];
    var tail := if interrupts.duringSleep then [Stopped, Waited(Shutdown)] else [];
    assert s == head + tail;
  }

  /** The events of a launch: boot and run when bootable, otherwise only an exit with status 1. */
  lemma LaunchEvents(p: Process, files: set<string>, argv: seq<Flag>, interrupts: Interrupts)
    requires p.exitStatus == None
    ensures Launch(p, files, argv, interrupts).events == p.events +
      if Bootable(p.env, files, argv) then
        var o := ParsedOptions(p.env, argv).options;
        [Required(EnvironmentFile(o.rails), Some(o.environment)), EagerLoaded] + RunEvents(o, interrupts)
      else [Exited(1)]
  {
    ExitIffHelp(Defaults(p.env), argv);
  }

  /**
   * Over a whole launch, the manager is started once if the process is
   * bootable and never otherwise, and stopped and waited for once exactly
   * when it is bootable and interrupted.
   */
  lemma LaunchCounts(p: Process, files: set<string>, argv: seq<Flag>, interrupts: Interrupts)
    requires p.exitStatus == None
    ensures var s := Launch(p, files, argv, interrupts).events;
      && Count(s, Started) == Count(p.events, Started) + (if Bootable(p.env, files, argv) then 1 else 0)
      && Count(s, Stopped) == Count(p.events, Stopped) +
           (if Bootable(p.env, files, argv) && interrupts.duringSleep then 1 else 0)
      && Count(s, Waited(Shutdown)) == Count(p.events, Waited(Shutdown)) +
           (if Bootable(p.env, files, argv) && interrupts.duringSleep then 1 else 0)
  {
    LaunchEvents(p, files, argv, interrupts);
    var s := Launch(p, files, argv, interrupts).events;
    if Bootable(p.env, files, argv) {
      var o := ParsedOptions(p.env, argv).options;
      var boot := [Required(EnvironmentFile(o.rails), Some(o.environment)), EagerLoaded];
      var run := RunEvents(o, interrupts);
      assert multiset(s) == multiset(p.events) + multiset(boot) + multiset(run);
      SupervisionOrder(o, interrupts);
    } else {
      assert multiset(s) == multiset(p.events) + multiset{Exited(1)};
    }
  }

  /**
   * After an interrupt during the sleep, `stop!` and `wait(:shutdown)` are
   * each called once and the wait is the last call of the launch; a second
   * interrupt during that wait is not rescued, so it escapes `run` from
   * inside the wait, without a second `stop!`.
   */
  lemma SecondInterruptEscapes(p: Process, files: set<string>, argv: seq<Flag>, interrupts: Interrupts)
    requires p.exitStatus == None
    requires Bootable(p.env, files, argv)
    requires interrupts.duringSleep
    ensures var s := Launch(p, files, argv, interrupts).events;
      && |s| > 0 && s[|s| - 1] == Waited(Shutdown)
      && Count(s, Stopped) == Count(p.events, Stopped) + 1
      && Count(s, Waited(Shutdown)) == Count(p.events, Waited(Shutdown)) + 1
      && (RunResult(interrupts) == RaisedInterrupt <==> interrupts.duringShutdown)
  {
    LaunchEvents(p, files, argv, interrupts);
    LaunchCounts(p, files, argv, interrupts);
  }

  // ----- The imperative model -----

  /** The process: its environment, `$DEBUG`, the files on disk, and what has happened. */
  class Host {
    var env: map<string, string>
    var debug: bool
    var events: seq<Event>
    var exitStatus: Option<int>
    /** The paths that exist on disk. */
    const files: set<string>

    constructor(env: map<string, string>, debug: bool, files: set<string>)
      ensures State() == Process(env, debug, [], None) && this.files == files
    {
      this.env, this.debug, this.events, this.exitStatus := env, debug, [], None;
      this.files := files;
    }

    function State(): Process
      reads this
    {
      Process(env, debug, events, exitStatus)
    }

    /** A call into a collaborator. */
    method Record(e: Event)
      modifies this
      ensures State() == old(State()).(events := old(events) + [e])
    {
      events := events + [e];
    }

    /** `exit(status)`. */
    method Exit(status: int)
      requires exitStatus == None
      modifies this
      ensures State() == old(State()).(events := old(events) + [Exited(status)], exitStatus := Some(status))
    {
      events := events + [Exited(status)];
      exitStatus := Some(status);
    }
  }

  class CLI {
    /** The `@options` hash. */
    var options: Options

    /** `initialize`: `parse_options`, `validate!`, `boot_rails`; an exit stops the sequence. */
    constructor(host: Host, argv: seq<Flag>)
      requires host.exitStatus == None
      modifies host
      ensures host.State() == Initialized(old(host.State()), host.files, argv)
      ensures host.exitStatus == None ==> ParsedOptions(old(host.env), argv).Proceed?
      ensures host.exitStatus == None ==> options == ParsedOptions(old(host.env), argv).options
    {
      options := Defaults(host.env);
      new;
      ParseOptions(host, argv);
      if host.exitStatus == None {
        Validate(host);
        if host.exitStatus == None {
          BootRails(host);
        }
      }
    }

    /** `parse_options`: seed the hash, then run each flag's handler in order. */
    method ParseOptions(host: Host, argv: seq<Flag>)
      requires host.exitStatus == None
      modifies this, host
      ensures host.env == old(host.env) && host.debug == old(host.debug)
      ensures match ParsedOptions(old(host.env), argv)
        case Proceed(o) => options == o && host.events == old(host.events) && host.exitStatus == None
        case Exit(status) =>
          host.events == old(host.events) + [Exited(status)] && host.exitStatus == Some(status)
    {
      options := Defaults(host.env);
      var i := 0;
      while i < |argv|
        invariant 0 <= i <= |argv|
        decreases |argv| - i
        invariant host.State() == old(host.State())
        invariant Parse(options, argv[i..]) == ParsedOptions(host.env, argv)
      {
        var f := argv[i];
        assert argv[i..][0] == f && argv[i..][1..] == argv[i + 1..];
        match f {
          case Queue(arg) => AddQueue(arg);
          case Verbose => options := options.(verbose := true);
          case Server(arg) => options := options.(server := arg);
          case Environment(arg) => options := options.(environment := arg);
          case Rails(arg) => options := options.(rails := arg);
          case Concurrency(arg) => options := options.(processorCount := ToI(arg));
          case Help =>
            host.Exit(1);
            return;
        }
        i := i + 1;
      }
    }

    /** The `-q` handler: split the argument and append the name `weight` times. */
    method AddQueue(arg: string)
      modifies this
      ensures options == old(options).(queues := old(options).queues + Expand(arg))
    {
      var (q, weight) := QueueArg(arg);
      var count: int := match weight case None => 1 case Some(w) => ToI(w);
      ghost var copies := Copies(weight);
      assert copies == if count > 0 then count else 0;
      assert Expand(arg) == Repeat(q, copies);
      ghost var start := options;
      var k := 0;
      while k < count
        invariant 0 <= k <= copies
        invariant options.queues == start.queues + Repeat(q, k)
        invariant options == start.(queues := options.queues)
      {
        options := options.(queues := options.queues + [q]);
        k := k + 1;
      }
    }

    /** `validate!`: `$DEBUG := verbose`, then exit with status 1 if the boot file is missing. */
    method Validate(host: Host)
      requires host.exitStatus == None
      modifies host
      ensures host.env == old(host.env) && host.debug == options.verbose
      ensures if BootFile(options.rails) in host.files
        then host.events == old(host.events) && host.exitStatus == None
        else host.events == old(host.events) + [Exited(1)] && host.exitStatus == Some(1)
    {
      host.debug := options.verbose;
      if BootFile(options.rails) !in host.files {
        host.Exit(1);
      }
    }

    /** `boot_rails`: set `RAILS_ENV`, require the environment file, eager-load. */
    method BootRails(host: Host)
      modifies host
      ensures host.State() == Booted(old(host.State()), options)
    {
      host.env := host.env[RAILS_ENV := options.environment];
      host.Record(Required(EnvironmentFile(options.rails), Some(host.env[RAILS_ENV])));
      host.Record(EagerLoaded);
    }

    /** `run`: set up the pool and the manager, start it, sleep; on `Interrupt` stop it and wait. */
    method Run(host: Host, interrupts: Interrupts) returns (outcome: RunOutcome)
      requires host.exitStatus == None
      modifies host
      ensures host.State() == old(host.State()).(events := old(host.events) + RunEvents(options, interrupts))
      ensures outcome == RunResult(interrupts)
    {
      host.Record(ClientPoolSet(options.server));
      host.Record(ManagerCreated(options.server, options));
      host.Record(Started);
      host.Record(Slept(FOREVER));
      outcome := Returned;
      if interrupts.duringSleep {
        host.Record(Stopped);
        host.Record(Waited(Shutdown));
        if interrupts.duringShutdown {
          outcome := RaisedInterrupt;
        }
      }
    }
  }

  /**
   * `CLI.new.run` in a fresh process: the imperative model produces exactly
   * the process `Launch` describes, so the lifecycle lemmas hold of it.
   */
  method Supervise(env: map<string, string>, debug: bool, files: set<string>, argv: seq<Flag>,
                   interrupts: Interrupts)
    returns (host: Host, outcome: Option<RunOutcome>)
    ensures host.State() == Launch(Process(env, debug, [], None), files, argv, interrupts)
    ensures outcome == if Bootable(env, files, argv) then Some(RunResult(interrupts)) else None
  {
    host := new Host(env, debug, files);
    ExitIffNotBootable(host.State(), files, argv, interrupts);
    var cli := new CLI(host, argv);
    outcome := None;
    if host.exitStatus == None {
      var r := cli.Run(host, interrupts);
      outcome := Some(r);
    }
  }
}
