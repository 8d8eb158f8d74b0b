# Sidekiq command-line supervisor, modelled in Dafny

This project models `Sidekiq::CLI`, the entry point of an early Sidekiq
worker process. The CLI does four things in order:

1. It builds an options hash from defaults and the command-line flags. This
   includes the weighted queue list that `-q NAME[,WEIGHT]` builds.
2. It checks that the Rails application root has `config/boot.rb`, and
   exits with status 1 if it does not.
3. It boots the application: it sets `RAILS_ENV` and requires
   `config/environment.rb`.
4. It starts the job manager and sleeps. On an interrupt it stops the
   manager and waits for it to shut down.

Files:

- `wrappers.dfy`: `Option` (`None` also stands for Ruby's `nil`) and `Result`.
- `ruby_core.dfy`: the Ruby core methods the handlers use, written as
  functions. These are `String#to_i` (`ToI`: white space, an optional sign,
  then the leading decimal numeral with single `_` separators, else 0),
  `String#split` with a one-character separator other than a space
  (`Split`: trailing empty fields are dropped; a space separator, which
  makes Ruby split on runs of white space, is excluded by its precondition), and `Integer#to_s` (`Show`, the partner of `ToI`).
- `configuration.dfy`: the options hash (`Options`) and the flags the
  handler blocks receive (`Flag`). It defines one handler step (`ApplyFlag`)
  and parsing as a fold over the flag sequence (`Parse`, `ParsedOptions`).
  It also holds independent reference definitions, one per field
  (`Expansion`, `TotalWeight`, `LastArg`), and the lemmas linking them to
  the fold.
- `cli.dfy`: the process as a `Host` object. It holds `ENV`, `$DEBUG`, the
  files on disk, the exit status, and a trace of calls into collaborators.
  The `CLI` class has the methods `ParseOptions`, `AddQueue` (the `times`
  loop), `Validate`, `BootRails` and `Run`. Each method is proved against
  a pure function or an explicit post-state:
  - `ParseOptions` against `ParsedOptions`;
  - `AddQueue` against `Expand`;
  - `Validate` against its stated new `$DEBUG`, trace and exit status;
  - `BootRails` against `Booted`;
  - `Run` against `RunEvents` and `RunResult`;
  - the constructor against `Initialized`;
  - `Supervise` (`CLI.new.run`) against `Launch`.

  The lifecycle lemmas are stated about those functions.

Inputs that the world supplies are parameters:

- the process environment (`map<string, string>`);
- the set of paths that exist (`File.exist?`);
- the initial `$DEBUG`;
- when interrupts arrive (`Interrupts`: during the sleep, and once more
  during the shutdown wait).

Three behaviours of the code are easy to misread:

- An explicit `-q` appends to the seeded `"default"` entry; it does not
  replace it.
- A non-numeric or non-positive `-c` is stored as its `to_i` (0 or a
  negative number), with no check.
- A second interrupt during `wait(:shutdown)` is not rescued. It escapes
  `run` (`RaisedInterrupt`). It does not call `stop!` again.

## Model

| member | source | states |
|---|---|---|
| `RubyCore.ToI` | lib/sidekiq/cli.rb:87 | `String#to_i` in base 10: leading white space, an optional sign, the leading numeral with single `_` separators, else 0; its properties are `ToIShowRoundTrip` and `NoNumeralIsZero` |
| `RubyCore.Split` | lib/sidekiq/cli.rb:64 | `String#split` on one character other than a space, with trailing empty fields dropped; its properties are `JoinFields`, `FieldsJoin`, `SplitHasSecondField`, `SplitOne` and `SplitTwo` |
| `RubyCore.ToIShowRoundTrip` | lib/sidekiq/cli.rb:87 | `to_i` reads back every integer's decimal rendering, whatever non-numeral text follows it (`"12abc".to_i == 12`) |
| `RubyCore.NoNumeralIsZero` | lib/sidekiq/cli.rb:87 | a string with no digit after leading white space and an optional sign converts to 0, never an error |
| `RubyCore.JoinFields` | lib/sidekiq/cli.rb:64 | the comma-separated fields of any string, joined with commas, give back the string |
| `RubyCore.FieldsJoin` | lib/sidekiq/cli.rb:64 | comma-free fields joined with commas split back into exactly those fields |
| `RubyCore.SplitHasSecondField` | lib/sidekiq/cli.rb:64 | `split` yields a second field exactly when a separator is followed, somewhere later, by a non-separator character (trailing empty fields are dropped) |
| `RubyCore.SplitOne` | lib/sidekiq/cli.rb:64 | a non-empty comma-free argument splits into itself alone, so it has no weight |
| `RubyCore.SplitTwo` | lib/sidekiq/cli.rb:64 | `NAME,WEIGHT` with comma-free parts and a non-empty weight splits into `[NAME, WEIGHT]` |
| `Configuration.Defaults` | lib/sidekiq/cli.rb:53-60 | the seeded options hash, with the server taken from `REDISTOGO_URL` when it is set; its property is `NoFlagsGiveDefaults` |
| `Configuration.QueueArg` | lib/sidekiq/cli.rb:64 | `(q, weight) = arg.split(",")`, where a missing field is `nil`; its properties are `SplitHasSecondField`, `SplitOne` and `SplitTwo` |
| `Configuration.Copies` | lib/sidekiq/cli.rb:65 | how many times `-q` appends: 1 without a weight, else the weight's `to_i`, with none below one (the intended reading, see Findings) |
| `Configuration.Expand` | lib/sidekiq/cli.rb:63-67 | the block one `-q` appends, `Copies` copies of `q`; its properties are `UnweightedQueueAppendsOnce` and `WeightedQueueAppends`, and `CLI.AddQueue` is proved against it |
| `Configuration.ApplyFlag` | lib/sidekiq/cli.rb:62-95 | one handler block: `-h` exits with status 1, every other flag updates its own field; its property is `ApplyFlagQueues` |
| `Configuration.Parse` | lib/sidekiq/cli.rb:96 | `parse!` as a fold of the handlers over the flags, in order, stopping at the first exit; its properties are `ExitIffHelp`, `ParseVerbose`, `ParseQueues`, `ParseSetting` and `ParseCharacterization` |
| `Configuration.ParsedOptions` | lib/sidekiq/cli.rb:52-96 | `parse_options`: the fold started from the defaults; its properties are `QueueList`, `ConcurrencyIsToI` and `ConcurrencyNotChecked`, and `CLI.ParseOptions` is proved against it |
| `Configuration.Repeat` | lib/sidekiq/cli.rb:65-67 | `n.times { list << q }` appends a block of exactly `n` entries, each equal to `q` |
| `Configuration.NoFlagsGiveDefaults` | lib/sidekiq/cli.rb:53-60 | with no flags the options are verbose false, queues `["default"]`, 25 processors, `REDISTOGO_URL` or `redis://localhost:6379/0`, rails `"."`, `production` |
| `Configuration.UnweightedQueueAppendsOnce` | lib/sidekiq/cli.rb:63-67 | `-q NAME` appends exactly one `NAME` after every earlier entry, which stay unchanged and in order; all other options are unchanged |
| `Configuration.WeightedQueueAppends` | lib/sidekiq/cli.rb:63-67 | `-q NAME,N` appends `NAME` exactly `N` times after the earlier entries; all other options are unchanged |
| `Configuration.ApplyFlagQueues` | lib/sidekiq/cli.rb:62-89 | every handler other than `-h` continues parsing; only `-q` touches the queue list, and it only appends its expansion |
| `Configuration.ParseQueues` | lib/sidekiq/cli.rb:63-67 | without `-h`, the queue list is the initial list followed by each `-q` expansion in order of appearance |
| `Configuration.ExpansionLength` | lib/sidekiq/cli.rb:63-67 | the `-q` expansions together have as many entries as the sum of the weights (1 when a weight is omitted) |
| `Configuration.QueueList` | lib/sidekiq/cli.rb:55-67 | after parsing, the queue list is the `"default"` seed followed by every expansion, with length 1 + the sum of the weights |
| `Configuration.WeightedExample` | lib/sidekiq/cli.rb:63-67 | `-q A,3 -q B` appends `[A, A, A, B]` to the existing list |
| `Configuration.ParseVerbose` | lib/sidekiq/cli.rb:70-72 | without `-h`, `verbose` ends true exactly when it started true or some `-v` occurs |
| `Configuration.ParseSetting` | lib/sidekiq/cli.rb:74-88 | without `-h`, `server`, `environment` and `rails` hold their last flag's argument, and `processor_count` holds its `to_i`; with no such flag the initial value stays |
| `Configuration.ParseCharacterization` | lib/sidekiq/cli.rb:52-96 | the whole options hash after parsing: each field depends only on its own flags, so every flag sets only its own field |
| `Configuration.LastOccurrenceWins` | lib/sidekiq/cli.rb:74-88 | a flag of a kind overrides every earlier flag of that kind when no later one follows |
| `Configuration.ConcurrencyIsToI` | lib/sidekiq/cli.rb:86-88 | the processor count is `to_i` of the last `-c` argument |
| `Configuration.ConcurrencyNotChecked` | lib/sidekiq/cli.rb:86-88 | a non-numeric `-c` gives 0 and a rendered integer (zero or negative too) is stored unchanged; nothing checks positivity |
| `Configuration.ExitIffHelp` | lib/sidekiq/cli.rb:92-96 | parsing ends in an exit exactly when `-h` occurs, and that exit has status 1 |
| `Configuration.QueueHandlerAsWritten` | lib/sidekiq/cli.rb:63-67 | the `-q` handler as written raises exactly when a comma in the argument is later followed by a non-comma character (so `split` yields a second field); otherwise it appends exactly one entry and leaves every other option and every earlier entry unchanged |
| `Configuration.ExplicitWeightRaisesAsWritten` | lib/sidekiq/cli.rb:64-65 | as written, `-q NAME,N` raises `NoMethodError`; the intended handler appends `NAME` `N` times |
| `Configuration.AsWrittenAgreesWithoutWeight` | lib/sidekiq/cli.rb:64-67 | without a weight, the handler as written and the intended handler produce the same options |
| `SidekiqCli.Booted` | lib/sidekiq/cli.rb:36-40 | the process after `boot_rails`: `RAILS_ENV` set to the environment name, the require of the environment file recorded with the `RAILS_ENV` value it sees (so the setting comes first), then the eager load; its property is `BootThenRun`, and `CLI.BootRails` is proved against it |
| `SidekiqCli.Initialized` | lib/sidekiq/cli.rb:12-16 | the process after `initialize`: parse, then validate, then boot, with an exit ending the sequence; its properties are `HelpExitsBeforeValidation`, `MissingBootFileExits` and `ExitIffNotBootable`, and `CLI.constructor` is proved against it |
| `SidekiqCli.RunEvents` | lib/sidekiq/cli.rb:20-31 | the calls `run` makes, given when interrupts arrive; its property is `SupervisionOrder`, and `CLI.Run` is proved against it |
| `SidekiqCli.RunResult` | lib/sidekiq/cli.rb:27-31 | whether `run` returns or an interrupt escapes it; its property is `SecondInterruptEscapes` |
| `SidekiqCli.Launch` | lib/sidekiq/cli.rb:12-31 | the process after `CLI.new.run`, with `run` reached only when `initialize` did not exit; its properties are `LaunchEvents`, `LaunchCounts`, `BootThenRun` and `SecondInterruptEscapes`, and `Supervise` is proved against it |
| `SidekiqCli.HelpExitsBeforeValidation` | lib/sidekiq/cli.rb:12-16 | with `-h`, the process exits with status 1 before `$DEBUG`, `ENV`, boot or the manager are touched |
| `SidekiqCli.MissingBootFileExits` | lib/sidekiq/cli.rb:42-49 | without `-h`, `$DEBUG` becomes `verbose`; if `<rails>/config/boot.rb` is missing, the process exits with status 1 and nothing is booted or run |
| `SidekiqCli.ExitIffNotBootable` | lib/sidekiq/cli.rb:12-16 | `initialize` exits, always with status 1, exactly when `-h` was given or the boot file is missing |
| `SidekiqCli.BootThenRun` | lib/sidekiq/cli.rb:36-38 | a bootable launch sets `$DEBUG` to `verbose` and `RAILS_ENV` to the environment name, requires `<rails>/config/environment.rb` while `RAILS_ENV` already holds that name, and only then runs |
| `SidekiqCli.LaunchEvents` | lib/sidekiq/cli.rb:12-31 | a launch's calls are: boot then the run sequence when bootable, otherwise only `exit(1)` |
| `SidekiqCli.SupervisionOrder` | lib/sidekiq/cli.rb:22-31 | `start!` occurs once and before the sleep; on interrupt `stop!` then `wait(:shutdown)` occur once each and in that order; with no interrupt neither occurs |
| `SidekiqCli.LaunchCounts` | lib/sidekiq/cli.rb:20-31 | over a whole launch, `start!` is called once if bootable and never otherwise; `stop!` and `wait` are called once each exactly when bootable and interrupted |
| `SidekiqCli.SecondInterruptEscapes` | lib/sidekiq/cli.rb:27-31 | after a rescued interrupt, the launch's trace ends with the single `wait(:shutdown)`, with one `stop!` before it, and `run` raises exactly when a second interrupt arrives during that wait, so `stop!` is not called again |
| `SidekiqCli.Host.Exit` | lib/sidekiq/cli.rb:48 | `exit(status)` records the exit and sets the exit status; nothing else changes |
| `SidekiqCli.CLI.constructor` | lib/sidekiq/cli.rb:12-16 | `initialize` leaves the process in the state `Initialized` describes; if it did not exit, its options are the parsed options |
| `SidekiqCli.CLI.ParseOptions` | lib/sidekiq/cli.rb:52-97 | the loop over the handlers builds exactly `ParsedOptions`, or makes `-h` exit with status 1; `ENV` and `$DEBUG` are untouched |
| `SidekiqCli.CLI.AddQueue` | lib/sidekiq/cli.rb:63-67 | the `times` loop appends exactly `Expand(arg)` to the queue list in place, and nothing else changes |
| `SidekiqCli.CLI.Validate` | lib/sidekiq/cli.rb:42-49 | sets `$DEBUG` to `verbose`; exits with status 1 exactly when the boot file is absent |
| `SidekiqCli.CLI.BootRails` | lib/sidekiq/cli.rb:36-40 | sets `RAILS_ENV` to the environment name, then records the require of `<rails>/config/environment.rb` with the `RAILS_ENV` value read back from the environment, then the eager load |
| `SidekiqCli.CLI.Run` | lib/sidekiq/cli.rb:20-32 | records the pool, the manager, `start!` and the sleep, then on interrupt `stop!` and `wait(:shutdown)`; returns unless a second interrupt escapes |
| `SidekiqCli.Supervise` | lib/sidekiq/cli.rb:12-31 | `CLI.new.run` in a fresh process produces exactly the process that `Launch` describes, and `run` is reached exactly when the process is bootable |

## Left out

- Tokenisation by `OptionParser` is not modelled. This covers long forms,
  `--opt=value`, bundled short flags and unknown-flag errors. The model
  starts from the sequence of recognised flags with their arguments.
- Log output and the help banner are not modelled. They are I/O only.
- `File.expand_path` is not modelled. The required path is the composed
  string `<rails>/config/environment.rb`, not normalised against a working
  directory.
- Rails' `require` and `eager_load!` are recorded as events only.
  Failures inside them are not modelled. They belong to foreign code.
- The Redis connection pool and `Sidekiq::Manager` are opaque. Their
  construction, `start!`, `stop!` and `wait` are recorded as events.
- Sleep timing and OS signal delivery are not modelled. An interrupt is an
  input, arriving during the sleep or during the shutdown wait.
- Only two interrupt timings are modelled: during the sleep, and during
  `wait(:shutdown)` after a rescued one. These other timings are not
  modelled:
  - an interrupt during the first log call or `start!` (cli.rb:24-25).
    These are inside the rescued block, so it would be rescued like one
    during the sleep.
  - an interrupt inside the rescue clause before the wait, during
    `log 'Shutting down...'` or `stop!` (cli.rb:28-29). It would escape
    `run` before the wait.
  - an interrupt during the pool or manager construction (cli.rb:21-22).
    This is outside the rescued block, so it would escape `run` before
    `start!`.
  - an interrupt during `initialize`, for example during the `require` of
    the environment file (cli.rb:38). It would escape `CLI.new`, and `run`
    would never be reached.
- The final process exit status after `run` returns or raises is not
  modelled. It is decided by the executable that calls `run`, and that
  executable is not part of this model.
- `RubyCore.ToI`: covers white space, sign, digits and single underscores
  between digits. Other numeral forms that Ruby's integer parser may
  accept are not modelled, such as radix prefixes.
- `Configuration.Copies`: the weight of `-q NAME,WEIGHT` follows the
  evident intent, `WEIGHT.to_i` copies. The code as written raises instead
  (see Findings). Both behaviours are modelled.

## Findings

| source | as written | input that shows it | evidently intended | confidence | as-written member | corrected member |
|---|---|---|---|---|---|---|
| lib/sidekiq/cli.rb:64-65 | `split` yields the weight as a String, and `(weight \|\| 1).times` calls `times` on it, so any explicit weight raises `NoMethodError` | `-q critical,3` | append the queue name `weight.to_i` times (none for a count below one) | high; not executed | `Configuration.ExplicitWeightRaisesAsWritten` | `Configuration.WeightedQueueAppends` |
