/** The deploy script's control flow: which actions it takes, in which order, for given command-line
    arguments and observed facts. Shell commands, file-system changes, the HTTP call and the waits
    are abstract actions in the returned trace; their own effects are not modelled. */
module Deploy {
  import opened Wrappers
  import opened Strings

  const BuildDir: string := "_site"
  const BuildRepo: string := "rpalo.github.io"
  const CloneUrl: string := "https://github.com/rpalo/rpalo.github.io"
  const BuildCommand: string := "bundle exec jekyll build"
  const RemoteQuery: string := "git remote -v"

  const Step1: string := "[1/5] Building the Production Site"
  const Step2: string := "[2/5] Committing and Pushing Source Repo"
  const Step3: string := "[3/5] Committing and Pushing Deploy Repo"
  const Step4: string := "[4/5] Waiting for Github to Refresh"
  const Step5: string := "[5/5] Purge Posts List Cache"
  const Finished: string := "Complete!"

  /** The parsed command line: the dry-run flag and the commit message (`nil` when absent). */
  datatype Options = Options(noop: bool, commitMessage: Option<string>)

  /** What option parsing leads to. */
  datatype Parse =
    | Parsed(options: Options)
    | HelpRequested               // `-h`/`--help`: the help is printed and the script exits
    | InvalidOption(arg: string)  // an unknown option: the parser raises

  /** An argument the parser treats as an option. */
  predicate LooksLikeOption(a: string) {
    |a| > 1 && a[0] == '-'
  }

  /** The last element, Ruby's `Array#pop` on what is left of the arguments. */
  function Last(xs: seq<string>): (r: Option<string>)
    ensures xs == [] <==> r.None?
    ensures xs != [] ==> r.value == xs[|xs| - 1]
  {
    if xs == [] then None else Some(xs[|xs| - 1])
  }

  /** Option parsing, left to right, collecting the positional arguments. After `--` every argument is
      positional. */
  function ParseFrom(args: seq<string>, noop: bool, positionals: seq<string>): (r: Parse)
    ensures r.InvalidOption? ==> r.arg in args && LooksLikeOption(r.arg) && r.arg !in {"-n", "--noop", "-h", "--help", "--"}
    ensures r.HelpRequested? ==> "-h" in args || "--help" in args
    ensures r.Parsed? && r.options.commitMessage.Some? ==> r.options.commitMessage.value in positionals + args
    ensures r.Parsed? && noop ==> r.options.noop
    decreases |args|
  {
    if args == [] then Parsed(Options(noop, Last(positionals)))
    else
      var a := args[0];
      if a == "--" then Parsed(Options(noop, Last(positionals + args[1..])))
      else if a == "-n" || a == "--noop" then ParseFrom(args[1..], true, positionals)
      else if a == "-h" || a == "--help" then HelpRequested
      else if LooksLikeOption(a) then InvalidOption(a)
      else ParseFrom(args[1..], noop, positionals + [a])
  }

  /** The script's `get_cmdline_options!`. An unknown option, a help request and a message all come
      from the arguments. */
  function ParseArgs(argv: seq<string>): (r: Parse)
    ensures r.InvalidOption? ==> r.arg in argv && LooksLikeOption(r.arg)
    ensures r.HelpRequested? ==> "-h" in argv || "--help" in argv
    ensures r.Parsed? && r.options.commitMessage.Some? ==> r.options.commitMessage.value in argv
  {
    ParseFrom(argv, false, [])
  }

  /** What the script observes of the world. */
  datatype Environment = Environment(
    siteExists: bool,         // `_site` is a directory when the script starts
    remotes: string,          // the output of `git remote -v` inside `_site`
    cloudinaryConfig: bool,   // `cloudinary.yml` exists
    secretsConfig: bool,      // `secrets.yml` exists
    buildOutput: string,      // the output of the site build
    purgeCode: nat,           // the cache-purge response's status code
    purgeBody: string)        // the cache-purge response's body

  /** The two checkouts the script works in: the blog's source (`.`) and the built site (`_site`). */
  datatype Place = Source | Site

  /** The shell commands the script runs. */
  datatype Command =
    | ListRemotes                      // `git remote -v`
    | Build                            // `bundle exec jekyll build`
    | Add                              // `git add .`
    | Commit(message: Option<string>)  // `git commit -m "<message>"`
    | Push                             // `git push`

  /** The sections `section_message` announces, in the script's order. */
  datatype Stage = Building | PushingSource | PushingSite | Waiting | Purging | Complete

  /** What a dry run prints in place of an effect. */
  datatype Pretend = PretendClone | PretendBuild | PretendPublish(message: Option<string>)

  /** The configuration files the script insists on. */
  datatype Config = Cloudinary | Secrets

  /** One observable step. Fixed texts are rendered by `Output`, `CommandLine` and `Title`. */
  datatype Action =
    | Help                              // the option summary, printed for `-h`
    | Warn                              // the warning that `_site` is re-cloned
    | Echo(text: string)                // the build's output, printed with `puts`
    | DryRun(line: Pretend)             // the line a dry run prints instead of acting
    | Heading(stage: Stage)             // a blank line, `--- title ---`, a blank line
    | RemoveSite                        // `rm -rf _site`
    | CloneSite                         // `git clone` of the build repository into `_site`
    | Exec(place: Place, command: Command)
    | ProductionEnv                     // `JEKYLL_ENV=production` for the rest of the process
    | Sleep(seconds: nat)
    | Tick(remaining: nat)              // `Waiting: %02d` and a carriage return
    | Purge                             // the authenticated POST asking the CDN to drop the cached posts list
    | Response(code: nat, body: string) // the purge response, printed as `code: body`

  /** Why the script stops with an uncaught exception. */
  datatype Crash =
    | UnknownOption(arg: string)   // `OptionParser::InvalidOption`
    | NoSiteDir                    // `Dir.chdir` into a missing `_site`

  /** How the script ends. */
  datatype Exit =
    | Completed
    | HelpShown
    | Aborted(missing: Config)   // `abort`: a message on standard error, exit status 1
    | Crashed(reason: Crash)

  datatype Run = Run(trace: seq<Action>, exit: Exit)

  /** Ruby's `puts`: adds a newline unless the text already ends in one. */
  function Puts(s: string): (r: string)
    ensures r != [] && r[|r| - 1] == '\n'
    ensures |r| >= |s| && r[..|s|] == s
    ensures |r| <= |s| + 1
  {
    if s != [] && s[|s| - 1] == '\n' then s else s + "\n"
  }

  /** The pattern character `pc` of a regex made of literal characters and `.` matches `c`. */
  predicate PatternCharMatches(pc: char, c: char) {
    if pc == '.' then c != '\n' else c == pc
  }

  /** The regex `/rpalo.github.io/` matches `text` at position `i`. */
  predicate RepoPatternAt(text: string, i: int) {
    0 <= i <= |text| - |BuildRepo| &&
    forall k :: 0 <= k < |BuildRepo| ==> PatternCharMatches(BuildRepo[k], text[i + k])
  }

  /** `dir_is_git_repo`: the unanchored regex built from the repository name, whose dots are not
      escaped, matches the remote listing. */
  predicate RemoteMatches(text: string) {
    exists i | 0 <= i <= |text| :: RepoPatternAt(text, i)
  }

  const HelpText: string :=
    "Deploy: Deploy the Assert Not Magic blog.\n\nUsage: deploy.sh [options]\n"
    + "    -n, --noop                       Dry run through the script without doing anything.\n"
    + "    -h, --help                       Prints this help\n"

  const WarnLine: string := "Warn: Build repo not present.  Cloning now."

  /** What a dry run prints instead of cloning. */
  const CloningLine: string := "Cloning '" + CloneUrl + " " + BuildDir + "'"

  /** The commit command; a `nil` message interpolates as the empty string. */
  function CommitCommand(message: Option<string>): string {
    "git commit -m \"" + message.GetOr("") + "\""
  }

  /** What a dry run prints instead of committing and pushing. */
  function PublishLine(message: Option<string>): string {
    "git add ., git commit -m " + message.GetOr("") + ", git push"
  }

  /** The text of a shell command. */
  function CommandLine(c: Command): string {
    match c
    case ListRemotes => RemoteQuery
    case Build => BuildCommand
    case Add => "git add ."
    case Commit(message) => CommitCommand(message)
    case Push => "git push"
  }

  /** The title of a section. */
  function Title(s: Stage): string {
    match s
    case Building => Step1
    case PushingSource => Step2
    case PushingSite => Step3
    case Waiting => Step4
    case Purging => Step5
    case Complete => Finished
  }

  /** The line of a dry run. */
  function PretendLine(p: Pretend): string {
    match p
    case PretendClone => CloningLine
    case PretendBuild => BuildCommand
    case PretendPublish(message) => PublishLine(message)
  }

  /** The name of a configuration file. */
  function ConfigFile(c: Config): string {
    match c
    case Cloudinary => "cloudinary.yml"
    case Secrets => "secrets.yml"
  }

  /** The line written for the tick `k` of the countdown: `format("Waiting: %02d\r", k)`. */
  function WaitingLine(k: nat): string {
    "Waiting: " + Pad2(k) + "\r"
  }

  /** `section_message`: the title `t` set off by an empty line on each side. */
  function SectionMessage(t: string): (r: string)
    ensures r != [] && r[|r| - 1] == '\n'
  {
    Puts("") + Puts("--- " + t + " ---") + Puts("")
  }

  /** What an action writes to standard output. */
  function Output(a: Action): (r: string)
    ensures a.Echo? || a.DryRun? || a.Heading? || a.Response? || a.Warn? || a.Help? ==> r != [] && r[|r| - 1] == '\n'
    ensures a.Echo? ==> StartsWith(r, a.text)
    ensures a.DryRun? ==> StartsWith(r, PretendLine(a.line))
    ensures a.RemoveSite? || a.CloneSite? || a.Exec? || a.ProductionEnv? || a.Sleep? || a.Purge? ==> r == []
  {
    match a
    case Help => Puts(HelpText)
    case Warn => Puts(WarnLine)
    case Echo(text) => Puts(text)
    case DryRun(line) => Puts(PretendLine(line))
    case Heading(stage) => SectionMessage(Title(stage))
    case Tick(k) => WaitingLine(k)
    case Response(code, body) => Puts(Decimal(code) + ": " + body)
    case _ => []
  }

  /** The message of an abnormal end: `abort`'s text or the exception's. */
  function ExitMessage(e: Exit): string {
    match e
    case Aborted(file) => "Error: No " + ConfigFile(file) + " present.  Create one from the template."
    case Crashed(UnknownOption(a)) => "invalid option: " + a
    case Crashed(NoSiteDir) => "No such file or directory @ dir_chdir - " + BuildDir
    case _ => []
  }

  /** `clear_and_clone_build_repo`. In a dry run the delete is `rm_rf` with `noop: true`, which does
      and prints nothing. */
  function CloneSteps(noop: bool): seq<Action> {
    if noop then [DryRun(PretendClone)] else [RemoveSite, CloneSite]
  }

  /** `build_site`: the build's output is echoed. */
  function BuildSteps(noop: bool, output: string): seq<Action> {
    if noop then [DryRun(PretendBuild)] else [Exec(Source, Build), Echo(output)]
  }

  /** `git_add_commit_push` in the checkout `place`. */
  function PublishSteps(message: Option<string>, place: Place, noop: bool): seq<Action> {
    if noop then [DryRun(PretendPublish(message))]
    else [Exec(place, Add), Exec(place, Commit(message)), Exec(place, Push)]
  }

  /** `countdown(n)`: ticks n, n - 1, ..., 0, each followed by a one-second sleep. */
  function Countdown(n: nat): (r: seq<Action>)
    ensures |r| == 2 * (n + 1)
    ensures forall a :: a in r ==> a.Tick? || a == Sleep(1)
    ensures forall k :: 0 <= k <= n ==> r[2 * k] == Tick(n - k) && r[2 * k + 1] == Sleep(1)
  {
    seq(2 * (n + 1), i requires 0 <= i < 2 * (n + 1) => if i % 2 == 0 then Tick(n - i / 2) else Sleep(1))
  }

  /** `clear_posts_cache`: a dry run fakes the response `200: Dummy Request`. */
  function PurgeSteps(noop: bool, env: Environment): seq<Action> {
    if noop then [Response(200, "Dummy Request")]
    else [Purge, Response(env.purgeCode, env.purgeBody)]
  }

  /** `_site` is missing or is not a checkout of the build repository. */
  predicate Stale(env: Environment) {
    !env.siteExists || !RemoteMatches(env.remotes)
  }

  /** The environment check: the remote query when `_site` exists, and the re-clone when it is stale. */
  function PrepareSteps(noop: bool, env: Environment): (r: seq<Action>)
    ensures Exec(Site, ListRemotes) in r <==> env.siteExists
    ensures Warn in r <==> Stale(env)
    ensures |r| <= 4
  {
    (if env.siteExists then [Exec(Site, ListRemotes)] else [])
    + (if Stale(env) then [Warn] + CloneSteps(noop) else [])
  }

  /** Everything from the build up to entering `_site` for the second push. */
  function BuildAndPushSource(o: Options, env: Environment): seq<Action> {
    [Heading(Building), ProductionEnv] + BuildSteps(o.noop, env.buildOutput)
    + [Heading(PushingSource)] + PublishSteps(o.commitMessage, Source, o.noop)
    + [Heading(PushingSite)]
  }

  /** The seconds `main` waits for the CDN between the pushes and the purge. */
  const WaitSeconds: nat := 10

  /** The purge and the closing line. */
  function PurgeAndFinish(noop: bool, env: Environment): seq<Action> {
    [Heading(Purging)] + PurgeSteps(noop, env) + [Heading(Complete)]
  }

  /** Everything from the second push to the end, counting down from `wait`. */
  function PushSiteAndPurge(o: Options, env: Environment, wait: nat): seq<Action> {
    PublishSteps(o.commitMessage, Site, o.noop) + [Heading(Waiting)] + Countdown(wait) + PurgeAndFinish(o.noop, env)
  }

  /** `main` after option parsing. A dry run never clones, so when `_site` was missing the script
      fails entering it for the second push. A real run has `_site` by then: the clone or the build
      creates it. */
  function Main(o: Options, env: Environment): (run: Run)
    ensures run.exit.Aborted? <==> !env.cloudinaryConfig || !env.secretsConfig
    ensures run.exit == Crashed(NoSiteDir) <==> env.cloudinaryConfig && env.secretsConfig && o.noop && !env.siteExists
    ensures run.exit.Completed? || run.exit.Aborted? || run.exit == Crashed(NoSiteDir)
    ensures PrepareSteps(o.noop, env) <= run.trace
  {
    var prepare := PrepareSteps(o.noop, env);
    if !env.cloudinaryConfig then Run(prepare, Aborted(Cloudinary))
    else if !env.secretsConfig then Run(prepare, Aborted(Secrets))
    else if o.noop && !env.siteExists then Run(prepare + BuildAndPushSource(o, env), Crashed(NoSiteDir))
    else Run(prepare + BuildAndPushSource(o, env) + PushSiteAndPurge(o, env, WaitSeconds), Completed)
  }

  /** The whole script. */
  function Script(argv: seq<string>, env: Environment): (run: Run)
    ensures run.exit.HelpShown? ==> run.trace == [Help]
    ensures run.exit.Crashed? && run.exit.reason.UnknownOption? ==> run.trace == [] && run.exit.reason.arg in argv
    ensures run.exit.Completed? ==> Heading(Complete) in run.trace
  {
    match ParseArgs(argv)
    case HelpRequested => Run([Help], HelpShown)
    case InvalidOption(a) => Run([], Crashed(UnknownOption(a)))
    case Parsed(o) => Main(o, env)
  }
}

/** Properties of the deploy script's control flow. */
module DeployProofs {
  import opened Wrappers
  import opened Strings
  import opened Deploy

  /** The sections a trace announces, in order. */
  function Headings(t: seq<Action>): seq<Stage> {
    if t == [] then [] else (if t[0].Heading? then [t[0].stage] else []) + Headings(t[1..])
  }

  /** `x` occurs in `t` before an occurrence of `y`. */
  predicate Precedes(t: seq<Action>, x: Action, y: Action) {
    exists i, j :: 0 <= i < j < |t| && t[i] == x && t[j] == y
  }

  /** An action that changes something outside the process: the file system, a repository or the CDN.
      Listing the remotes changes nothing. */
  predicate SideEffect(a: Action) {
    a.RemoveSite? || a.CloneSite? || a.Purge? || (a.Exec? && a.command != ListRemotes)
  }

  /** No action of `t` is a heading. */
  predicate Unannounced(t: seq<Action>) {
    forall i :: 0 <= i < |t| ==> !t[i].Heading?
  }

  /** How often `x` occurs in `t`. */
  function Count(t: seq<Action>, x: Action): nat {
    if t == [] then 0 else (if t[0] == x then 1 else 0) + Count(t[1..], x)
  }

  /** Counts add up over concatenation. */
  lemma {:induction false} CountAppend(a: seq<Action>, b: seq<Action>, x: Action)
    ensures Count(a + b, x) == Count(a, x) + Count(b, x)
  {
    if a == [] {
      assert a + b == b;
    } else {
      assert (a + b)[0] == a[0];
      assert (a + b)[1..] == a[1..] + b;
      CountAppend(a[1..], b, x);
    }
  }

  /** An action that does not occur has count zero. */
  lemma {:induction false} CountAbsent(t: seq<Action>, x: Action)
    requires x !in t
    ensures Count(t, x) == 0
  {
    if t != [] {
      assert x !in t[1..];
      CountAbsent(t[1..], x);
    }
  }

  /** An action between two parts that lack it occurs once. */
  lemma OnceBetween(a: seq<Action>, x: Action, b: seq<Action>)
    requires x !in a && x !in b
    ensures Count(a + [x] + b, x) == 1
  {
    CountAppend(a + [x], b, x);
    CountAppend(a, [x], x);
    CountAbsent(a, x);
    CountAbsent(b, x);
    assert [x][1..] == [];
  }

  /** Counts of a trace made of three parts. */
  lemma CountThree(a: seq<Action>, b: seq<Action>, c: seq<Action>, x: Action)
    ensures Count(a + b + c, x) == Count(a, x) + Count(b, x) + Count(c, x)
  {
    CountAppend(a + b, c, x);
    CountAppend(a, b, x);
  }

  /** An action absent from the first of three parts is counted in the other two. */
  lemma CountAfter(a: seq<Action>, b: seq<Action>, c: seq<Action>, x: Action)
    requires x !in a
    ensures Count(a + b + c, x) == Count(b, x) + Count(c, x)
  {
    CountAbsent(a, x);
    CountThree(a, b, c, x);
  }

  /** Headings distribute over concatenation. */
  lemma {:induction false} HeadingsAppend(a: seq<Action>, b: seq<Action>)
    ensures Headings(a + b) == Headings(a) + Headings(b)
  {
    if a == [] {
      assert a + b == b;
    } else {
      assert (a + b)[0] == a[0];
      assert (a + b)[1..] == a[1..] + b;
      HeadingsAppend(a[1..], b);
    }
  }

  /** A trace without headings has none to list. */
  lemma {:induction false} NoHeadings(t: seq<Action>)
    requires Unannounced(t)
    ensures Headings(t) == []
  {
    if t != [] {
      NoHeadings(t[1..]);
    }
  }

  /** Appending actions that are not headings lists no more headings. */
  lemma HeadingsAfter(a: seq<Action>, b: seq<Action>)
    requires Unannounced(b)
    ensures Headings(a + b) == Headings(a)
  {
    HeadingsAppend(a, b);
    NoHeadings(b);
    assert Headings(a) + [] == Headings(a);
  }

  /** Appending a heading lists its section last. */
  lemma HeadingsThen(a: seq<Action>, s: Stage)
    ensures Headings(a + [Heading(s)]) == Headings(a) + [s]
  {
    HeadingsAppend(a, [Heading(s)]);
    assert [Heading(s)][1..] == [];
  }

  /** A heading followed by other actions. */
  lemma HeadingsStart(s: Stage, b: seq<Action>)
    requires Unannounced(b)
    ensures Headings([Heading(s)] + b) == [s]
  {
    HeadingsThen([], s);
    assert [] + [Heading(s)] == [Heading(s)];
    HeadingsAfter([Heading(s)], b);
  }

  /** An ordered pair of a part stays ordered in any trace around it. */
  lemma PrecedesWithin(a: seq<Action>, b: seq<Action>, c: seq<Action>, x: Action, y: Action)
    requires Precedes(b, x, y)
    ensures Precedes(a + b + c, x, y)
  {
    var i, j :| 0 <= i < j < |b| && b[i] == x && b[j] == y;
    assert (a + b + c)[|a| + i] == x && (a + b + c)[|a| + j] == y;
  }

  /** Order within a suffix carries over to the whole trace. */
  lemma PrecedesAfter(a: seq<Action>, b: seq<Action>, x: Action, y: Action)
    requires Precedes(b, x, y)
    ensures Precedes(a + b, x, y)
  {
    var i, j :| 0 <= i < j < |b| && b[i] == x && b[j] == y;
    assert (a + b)[|a| + i] == x && (a + b)[|a| + j] == y;
  }

  /** An action of the first part precedes every action of the second. */
  lemma PrecedesAppend(a: seq<Action>, b: seq<Action>, x: Action, y: Action)
    requires x in a && y in b
    ensures Precedes(a + b, x, y)
  {
    var i :| 0 <= i < |a| && a[i] == x;
    var j :| 0 <= j < |b| && b[j] == y;
    assert (a + b)[i] == x && (a + b)[|a| + j] == y;
  }

  /** The arguments before the first `--`, where options are recognised. */
  function OptionPart(args: seq<string>): seq<string> {
    if args == [] || args[0] == "--" then [] else [args[0]] + OptionPart(args[1..])
  }

  /** The positional arguments, in order: those before the first `--` that are not options, then
      everything after it. */
  function Positionals(args: seq<string>): seq<string> {
    if args == [] then []
    else if args[0] == "--" then args[1..]
    else (if LooksLikeOption(args[0]) then [] else [args[0]]) + Positionals(args[1..])
  }

  /** Parsing: the dry-run flag is set exactly when `-n` or `--noop` is given before any `--`, and
      the commit message is the last positional argument, or nil when there is none. */
  lemma {:induction false} ParseFromResult(args: seq<string>, noop: bool, positionals: seq<string>)
    requires ParseFrom(args, noop, positionals).Parsed?
    ensures ParseFrom(args, noop, positionals).options.commitMessage == Last(positionals + Positionals(args))
    ensures ParseFrom(args, noop, positionals).options.noop <==>
      noop || "-n" in OptionPart(args) || "--noop" in OptionPart(args)
    decreases |args|
  {
    if args != [] && args[0] != "--" {
      var a := args[0];
      assert OptionPart(args) == [a] + OptionPart(args[1..]);
      if a == "-n" || a == "--noop" {
        ParseFromResult(args[1..], true, positionals);
      } else {
        assert !LooksLikeOption(a);
        ParseFromResult(args[1..], noop, positionals + [a]);
        assert positionals + [a] + Positionals(args[1..]) == positionals + Positionals(args);
      }
    }
  }

  /** `get_cmdline_options!`: the message is the last positional argument and the dry-run flag is
      set by `-n` or `--noop` before any `--`. */
  lemma CommitMessageIsLastPositional(argv: seq<string>)
    requires ParseArgs(argv).Parsed?
    ensures ParseArgs(argv).options.commitMessage == Last(Positionals(argv))
    ensures ParseArgs(argv).options.noop <==> "-n" in OptionPart(argv) || "--noop" in OptionPart(argv)
  {
    ParseFromResult(argv, false, []);
    assert [] + Positionals(argv) == Positionals(argv);
  }

  /** After `--` an option-like argument is an ordinary message, and options before it still count. */
  lemma TerminatorExample()
    ensures ParseArgs(["--", "-n"]) == Parsed(Options(false, Some("-n")))
    ensures ParseArgs(["-n", "--", "--help", "fix"]) == Parsed(Options(true, Some("fix")))
  {
    assert ["--", "-n"][1..] == ["-n"];
    assert ["-n", "--", "--help", "fix"][1..] == ["--", "--help", "fix"];
    assert ["--", "--help", "fix"][1..] == ["--help", "fix"];
  }

  /** `-h` or `--help` stops parsing when only known options and positional arguments precede it. */
  lemma {:induction false} HelpFromWins(args: seq<string>, noop: bool, positionals: seq<string>, i: nat)
    requires i < |args| && (args[i] == "-h" || args[i] == "--help")
    requires forall j :: 0 <= j < i ==> args[j] == "-n" || args[j] == "--noop" || !LooksLikeOption(args[j])
    ensures ParseFrom(args, noop, positionals) == HelpRequested
  {
    if i > 0 {
      var a := args[0];
      if a == "-n" || a == "--noop" {
        HelpFromWins(args[1..], true, positionals, i - 1);
      } else {
        HelpFromWins(args[1..], noop, positionals + [a], i - 1);
      }
    }
  }

  /** A two-character option `-c` that OptionParser can neither find nor complete: `c` is no short
      option of the script and begins none of the long option names the parser knows (`noop`,
      `help`, its built-in `version` and its `*-completion-…` options), in either case. */
  predicate Uncompletable(a: string) {
    |a| == 2 && a[0] == '-' && a[1] !in "nhvNHV*-"
  }

  /** An unknown option makes the parser raise when only known options and positional arguments
      precede it. */
  lemma {:induction false} UnknownFromCrashes(args: seq<string>, noop: bool, positionals: seq<string>, i: nat)
    requires i < |args| && Uncompletable(args[i])
    requires forall j :: 0 <= j < i ==> args[j] == "-n" || args[j] == "--noop" || !LooksLikeOption(args[j])
    ensures ParseFrom(args, noop, positionals) == InvalidOption(args[i])
  {
    if i > 0 {
      var a := args[0];
      if a == "-n" || a == "--noop" {
        UnknownFromCrashes(args[1..], true, positionals, i - 1);
      } else {
        UnknownFromCrashes(args[1..], noop, positionals + [a], i - 1);
      }
    }
  }

  /** The text of the line actions, as the script's `puts` and `print` calls write them: a line is
      ended by a newline unless it already has one, and a countdown tick returns the cursor without
      a newline. */
  lemma OutputText(a: Action)
    ensures a.Warn? ==> Output(a) == WarnLine + "\n"
    ensures a.Echo? ==> Output(a) == Puts(a.text)
    ensures a.DryRun? ==> Output(a) == Puts(PretendLine(a.line))
    ensures a.Tick? ==> Output(a) == "Waiting: " + Pad2(a.remaining) + "\r"
    ensures a.Response? ==> Output(a) == Puts(Decimal(a.code) + ": " + a.body)
  {
    if a.Warn? {
      assert WarnLine[|WarnLine| - 1] == '.';
    }
  }

  /** A heading is its title between dashes, with a blank line before and after it. */
  lemma HeadingText(stage: Stage)
    ensures Output(Heading(stage)) == "\n--- " + Title(stage) + " ---\n\n"
  {
    HeadingLines(Title(stage));
  }

  /** The three `puts` of `section_message` around the title `t`. */
  lemma HeadingLines(t: string)
    ensures SectionMessage(t) == "\n--- " + t + " ---\n\n"
  {
    var line := "--- " + t + " ---";
    assert line[|line| - 1] == '-';
  }

  /** A text without a final newline is written with one added; one with it is written unchanged. */
  lemma PutsLine(s: string)
    ensures s == [] || s[|s| - 1] != '\n' ==> Puts(s) == s + "\n"
    ensures s != [] && s[|s| - 1] == '\n' ==> Puts(s) == s
  {
  }

  /** The six section titles are distinct, so the headings of a trace determine what it printed. */
  lemma TitlesDistinct(s: Stage, u: Stage)
    requires s != u
    ensures Title(s) != Title(u)
  {
    assert Title(Building)[1] == '1' && Title(PushingSource)[1] == '2' && Title(PushingSite)[1] == '3';
    assert Title(Waiting)[1] == '4' && Title(Purging)[1] == '5' && Title(Complete)[1] == 'o';
  }

  /** The shell commands of the script have distinct texts, except that a `nil` and an empty commit
      message both give `git commit -m ""`. */
  lemma CommandLinesDistinct(c: Command, d: Command)
    requires !(c.Commit? && d.Commit?) && c != d
    ensures CommandLine(c) != CommandLine(d)
  {
    var m := if c.Commit? then c.message else if d.Commit? then d.message else None;
    assert |CommitCommand(m)| >= 16 && CommitCommand(m)[4] == 'c';
    assert RemoteQuery[4] == 'r' && BuildCommand[0] == 'b';
  }

  /** The environment check announces nothing, never sleeps or purges, and only reads the remotes. */
  lemma PrepareEffects(noop: bool, env: Environment)
    ensures Unannounced(PrepareSteps(noop, env))
    ensures forall a :: a in PrepareSteps(noop, env) ==>
      !a.Heading? && !a.ProductionEnv? && !a.Purge? && !a.Sleep? && !(a.Exec? && a.command != ListRemotes)
    ensures noop ==> forall a :: a in PrepareSteps(noop, env) ==> !SideEffect(a)
  {
  }

  /** The environment check re-clones, or pretends to, exactly when `_site` is stale. */
  lemma PrepareReclone(noop: bool, env: Environment)
    ensures !noop ==> (CloneSite in PrepareSteps(noop, env) <==> Stale(env))
    ensures !noop ==> (RemoveSite in PrepareSteps(noop, env) <==> Stale(env))
    ensures noop ==> (DryRun(PretendClone) in PrepareSteps(noop, env) <==> Stale(env))
  {
  }

  /** The first half announces the build, the source push and the site push. */
  lemma SourceHeadings(o: Options, env: Environment)
    ensures Headings(BuildAndPushSource(o, env)) == [Building, PushingSource, PushingSite]
  {
    var d := [Heading(Building), ProductionEnv];
    var b1 := BuildSteps(o.noop, env.buildOutput);
    var p1 := PublishSteps(o.commitMessage, Source, o.noop);
    assert d == [Heading(Building)] + [ProductionEnv];
    HeadingsStart(Building, [ProductionEnv]);
    HeadingsAfter(d, b1);
    HeadingsThen(d + b1, PushingSource);
    HeadingsAfter(d + b1 + [Heading(PushingSource)], p1);
    HeadingsThen(d + b1 + [Heading(PushingSource)] + p1, PushingSite);
  }

  /** The first half never sleeps, deletes, clones or purges, and a dry one changes nothing. */
  lemma SourceEffects(o: Options, env: Environment)
    ensures forall a :: a in BuildAndPushSource(o, env) ==>
      !a.RemoveSite? && !a.CloneSite? && !a.Purge? && !a.Sleep? && a != DryRun(PretendClone)
    ensures o.noop ==> forall a :: a in BuildAndPushSource(o, env) ==> !SideEffect(a)
  {
  }

  /** The second half announces the wait, the purge and the completion. */
  lemma SiteHeadings(o: Options, env: Environment, wait: nat)
    ensures Headings(PushSiteAndPurge(o, env, wait)) == [Waiting, Purging, Complete]
  {
    var p2 := PublishSteps(o.commitMessage, Site, o.noop);
    var c := Countdown(wait);
    var purge := PurgeSteps(o.noop, env);
    NoHeadings(p2);
    HeadingsThen(p2, Waiting);
    assert forall i :: 0 <= i < |c| ==> c[i] in c;
    HeadingsAfter(p2 + [Heading(Waiting)], c);
    HeadingsStart(Purging, purge);
    HeadingsThen([Heading(Purging)] + purge, Complete);
    HeadingsAppend(p2 + [Heading(Waiting)] + c, PurgeAndFinish(o.noop, env));
  }

  /** The second half sleeps once per tick of the countdown. */
  lemma SiteSleeps(o: Options, env: Environment, wait: nat)
    ensures Count(PushSiteAndPurge(o, env, wait), Sleep(1)) == wait + 1
  {
    var publish := PublishSteps(o.commitMessage, Site, o.noop);
    var finish := PurgeAndFinish(o.noop, env);
    CountdownSleeps(wait);
    CountAbsent(publish + [Heading(Waiting)], Sleep(1));
    CountAbsent(finish, Sleep(1));
    CountThree(publish + [Heading(Waiting)], Countdown(wait), finish, Sleep(1));
  }

  /** The second half never deletes or clones, and a dry one changes nothing and prints the dummy
      purge response. */
  lemma SiteEffects(o: Options, env: Environment, wait: nat)
    ensures forall a :: a in PushSiteAndPurge(o, env, wait) ==>
      !a.RemoveSite? && !a.CloneSite? && !a.ProductionEnv? && a != DryRun(PretendClone)
    ensures o.noop ==> forall a :: a in PushSiteAndPurge(o, env, wait) ==> !SideEffect(a)
    ensures o.noop ==> Response(200, "Dummy Request") in PushSiteAndPurge(o, env, wait)
  {
  }

  /** The build repository is re-cloned exactly when `_site` is missing or its remotes do not match
      the repository name; a dry run prints the clone instead. */
  lemma RecloneIffStale(o: Options, env: Environment)
    ensures !o.noop ==> (CloneSite in Main(o, env).trace <==> !env.siteExists || !RemoteMatches(env.remotes))
    ensures !o.noop ==> (RemoveSite in Main(o, env).trace <==> !env.siteExists || !RemoteMatches(env.remotes))
    ensures o.noop ==> (DryRun(PretendClone) in Main(o, env).trace <==> !env.siteExists || !RemoteMatches(env.remotes))
  {
    var prepare := PrepareSteps(o.noop, env);
    PrepareReclone(o.noop, env);
    if !env.cloudinaryConfig || !env.secretsConfig {
      assert Main(o, env).trace == prepare;
    } else {
      var rest := if o.noop && !env.siteExists then BuildAndPushSource(o, env)
        else BuildAndPushSource(o, env) + PushSiteAndPurge(o, env, WaitSeconds);
      assert Main(o, env).trace == prepare + rest;
      SourceEffects(o, env);
      SiteEffects(o, env, WaitSeconds);
      assert CloneSite !in rest && RemoveSite !in rest && DryRun(PretendClone) !in rest;
    }
  }

  /** A missing `cloudinary.yml` or `secrets.yml` aborts, naming `cloudinary.yml` first, before the
      build: no heading, build, commit, push, wait or purge happens. */
  lemma MissingConfigAborts(o: Options, env: Environment)
    requires !env.cloudinaryConfig || !env.secretsConfig
    ensures Main(o, env).exit == Aborted(if !env.cloudinaryConfig then Cloudinary else Secrets)
    ensures ExitMessage(Main(o, env).exit) ==
      "Error: No " + (if !env.cloudinaryConfig then "cloudinary.yml" else "secrets.yml") + " present.  Create one from the template."
    ensures forall a :: a in Main(o, env).trace ==>
      !a.Heading? && !a.ProductionEnv? && !a.Sleep? && !a.Purge? && !(a.Exec? && a.command != ListRemotes)
  {
    PrepareEffects(o.noop, env);
  }

  /** The re-clone comes before the configuration check: a stale `_site` is deleted and cloned again
      even by a run that then aborts for a missing configuration file. */
  lemma CloneBeforeAbort(o: Options, env: Environment)
    requires !o.noop && Stale(env)
    requires !env.cloudinaryConfig || !env.secretsConfig
    ensures Main(o, env).exit.Aborted?
    ensures Precedes(Main(o, env).trace, RemoveSite, CloneSite)
  {
    var listing: seq<Action> := if env.siteExists then [Exec(Site, ListRemotes)] else [];
    assert Main(o, env).trace == listing + [Warn] + [RemoveSite, CloneSite];
    assert Precedes([RemoveSite, CloneSite], RemoveSite, CloneSite) by {
      assert [RemoveSite, CloneSite][0] == RemoveSite && [RemoveSite, CloneSite][1] == CloneSite;
    }
    PrecedesAfter(listing + [Warn], [RemoveSite, CloneSite], RemoveSite, CloneSite);
  }

  /** A countdown from n is the tick n, a one-second sleep, and the countdown from n - 1. */
  lemma CountdownStep(n: nat)
    requires n > 0
    ensures Countdown(n) == [Tick(n), Sleep(1)] + Countdown(n - 1)
  {
    var rest := Countdown(n - 1);
    forall i | 2 <= i < 2 * (n + 1)
      ensures Countdown(n)[i] == rest[i - 2]
    {
      assert (i - 2) % 2 == i % 2 && n - 1 - (i - 2) / 2 == n - i / 2;
    }
  }

  /** The number of one-second sleeps of a countdown. */
  lemma {:induction false} CountdownSleeps(n: nat)
    ensures Count(Countdown(n), Sleep(1)) == n + 1
  {
    var tick := [Tick(n), Sleep(1)];
    assert Count(tick, Sleep(1)) == 1 by {
      assert tick[1..] == [Sleep(1)] && [Sleep(1)][1..] == [];
      assert Count([Sleep(1)], Sleep(1)) == 1 + Count([], Sleep(1));
    }
    if n > 0 {
      CountdownSleeps(n - 1);
      CountdownStep(n);
      CountAppend(tick, Countdown(n - 1), Sleep(1));
    } else {
      assert Countdown(n) == tick;
    }
  }

  /** A countdown from n writes each tick 0, ..., n exactly once and no other tick. */
  lemma {:induction false} CountdownTicksOnce(n: nat, k: nat)
    ensures Count(Countdown(n), Tick(k)) == (if k <= n then 1 else 0)
  {
    var tick := [Tick(n), Sleep(1)];
    assert Count(tick, Tick(k)) == (if k == n then 1 else 0) by {
      assert tick[1..] == [Sleep(1)] && [Sleep(1)][1..] == [];
      assert Count([Sleep(1)], Tick(k)) == Count([], Tick(k));
    }
    if n > 0 {
      CountdownTicksOnce(n - 1, k);
      CountdownStep(n);
      CountAppend(tick, Countdown(n - 1), Tick(k));
    } else {
      assert Countdown(n) == tick;
    }
  }

  /** A completed run announces the five steps and the completion, in this order, in both modes. */
  lemma CompletedHeadings(o: Options, env: Environment)
    requires Main(o, env).exit == Completed
    ensures Headings(Main(o, env).trace) == [Building, PushingSource, PushingSite, Waiting, Purging, Complete]
  {
    var prepare := PrepareSteps(o.noop, env);
    var source := BuildAndPushSource(o, env);
    var site := PushSiteAndPurge(o, env, WaitSeconds);
    assert Main(o, env).trace == prepare + source + site;
    PrepareEffects(o.noop, env);
    NoHeadings(prepare);
    SourceHeadings(o, env);
    SiteHeadings(o, env, WaitSeconds);
    HeadingsAppend(prepare, source);
    HeadingsAppend(prepare + source, site);
  }

  /** The first half of a real run, spelled out. */
  lemma SourceShape(o: Options, env: Environment)
    requires !o.noop
    ensures BuildAndPushSource(o, env) ==
      [Heading(Building), ProductionEnv, Exec(Source, Build), Echo(env.buildOutput), Heading(PushingSource),
       Exec(Source, Add), Exec(Source, Commit(o.commitMessage)), Exec(Source, Push), Heading(PushingSite)]
  {
  }

  /** The real build comes before the source push. */
  lemma SourceOrder(o: Options, env: Environment)
    requires !o.noop
    ensures Precedes(BuildAndPushSource(o, env), Exec(Source, Build), Exec(Source, Push))
  {
    SourceShape(o, env);
    var t := BuildAndPushSource(o, env);
    assert t[2] == Exec(Source, Build) && t[7] == Exec(Source, Push);
  }

  /** A real first half builds and pushes the source once, and neither pushes the site nor purges. */
  lemma SourceCounts(o: Options, env: Environment)
    requires !o.noop
    ensures var t := BuildAndPushSource(o, env);
      && Count(t, Exec(Source, Build)) == 1
      && Count(t, Exec(Source, Push)) == 1
      && Count(t, Exec(Site, Push)) == 0
      && Count(t, Purge) == 0
  {
    SourceShape(o, env);
    var t := BuildAndPushSource(o, env);
    var build := Exec(Source, Build);
    var push := Exec(Source, Push);
    assert t == [Heading(Building), ProductionEnv] + [build] + t[3..];
    OnceBetween([Heading(Building), ProductionEnv], build, t[3..]);
    assert t == t[..7] + [push] + [Heading(PushingSite)];
    OnceBetween(t[..7], push, [Heading(PushingSite)]);
    CountAbsent(t, Exec(Site, Push));
    CountAbsent(t, Purge);
  }

  /** The second half of a real run, spelled out around the countdown. */
  lemma SiteShape(o: Options, env: Environment, wait: nat)
    requires !o.noop
    ensures PushSiteAndPurge(o, env, wait) ==
      [Exec(Site, Add), Exec(Site, Commit(o.commitMessage)), Exec(Site, Push), Heading(Waiting)]
      + Countdown(wait)
      + [Heading(Purging), Purge, Response(env.purgeCode, env.purgeBody), Heading(Complete)]
  {
  }

  /** The first half of a dry run: each action is replaced by the line describing it. */
  lemma DrySourceShape(o: Options, env: Environment)
    requires o.noop
    ensures BuildAndPushSource(o, env) ==
      [Heading(Building), ProductionEnv, DryRun(PretendBuild), Heading(PushingSource),
       DryRun(PretendPublish(o.commitMessage)), Heading(PushingSite)]
  {
  }

  /** The second half of a dry run: the push is described, the wait is real and the response is the
      dummy one. */
  lemma DrySiteShape(o: Options, env: Environment, wait: nat)
    requires o.noop
    ensures PushSiteAndPurge(o, env, wait) ==
      [DryRun(PretendPublish(o.commitMessage)), Heading(Waiting)]
      + Countdown(wait)
      + [Heading(Purging), Response(200, "Dummy Request"), Heading(Complete)]
  {
  }

  /** The lines a dry run prints in place of the clone, the build and each push: the description
      and one newline. */
  lemma DryRunLines(message: Option<string>)
    ensures Output(DryRun(PretendClone)) == CloningLine + "\n"
    ensures Output(DryRun(PretendBuild)) == BuildCommand + "\n"
    ensures Output(DryRun(PretendPublish(message))) == PublishLine(message) + "\n"
  {
    DryLine(PretendClone);
    DryLine(PretendBuild);
    DryLine(PretendPublish(message));
  }

  /** Every dry-run description ends in a visible character, so `puts` adds one newline to it. */
  lemma DryLine(p: Pretend)
    ensures Output(DryRun(p)) == PretendLine(p) + "\n"
  {
    var line := PretendLine(p);
    match p {
      case PretendClone => assert line[|line| - 1] == '\'';
      case PretendBuild => assert line[|line| - 1] == 'd';
      case PretendPublish(message) => assert line[|line| - 1] == 'h';
    }
    OutputText(DryRun(p));
    PutsLine(line);
  }

  /** The site push comes before the wait, and the wait before the purge. */
  lemma SiteOrder(o: Options, env: Environment, wait: nat)
    requires !o.noop
    ensures Precedes(PushSiteAndPurge(o, env, wait), Exec(Site, Push), Sleep(1))
    ensures Precedes(PushSiteAndPurge(o, env, wait), Sleep(1), Purge)
  {
    SiteShape(o, env, wait);
    var c := Countdown(wait);
    var t := PushSiteAndPurge(o, env, wait);
    assert t[2] == Exec(Site, Push) && t[5] == Sleep(1) && t[4 + |c| + 1] == Purge;
  }

  /** A real second half pushes the site and purges once, and neither builds nor pushes the source. */
  lemma SiteCounts(o: Options, env: Environment, wait: nat)
    requires !o.noop
    ensures var t := PushSiteAndPurge(o, env, wait);
      && Count(t, Exec(Site, Push)) == 1
      && Count(t, Purge) == 1
      && Count(t, Exec(Source, Build)) == 0
      && Count(t, Exec(Source, Push)) == 0
  {
    SiteShape(o, env, wait);
    var t := PushSiteAndPurge(o, env, wait);
    var push := [Exec(Site, Add), Exec(Site, Commit(o.commitMessage)), Exec(Site, Push), Heading(Waiting)];
    var c := Countdown(wait);
    var purge := [Heading(Purging), Purge, Response(env.purgeCode, env.purgeBody), Heading(Complete)];
    forall x | x in {Exec(Site, Push), Purge, Exec(Source, Build), Exec(Source, Push)}
      ensures Count(t, x) == Count(push, x) + Count(purge, x)
    {
      CountAbsent(c, x);
      CountThree(push, c, purge, x);
    }
    assert push == push[..2] + [Exec(Site, Push)] + push[3..];
    OnceBetween(push[..2], Exec(Site, Push), push[3..]);
    CountAbsent(purge, Exec(Site, Push));
    assert purge == purge[..1] + [Purge] + purge[2..];
    OnceBetween(purge[..1], Purge, purge[2..]);
    CountAbsent(push, Purge);
    CountAbsent(push, Exec(Source, Build));
    CountAbsent(purge, Exec(Source, Build));
    CountAbsent(push, Exec(Source, Push));
    CountAbsent(purge, Exec(Source, Push));
  }

  /** A completed real run builds, pushes the source, pushes the site, waits and purges, in this
      order. */
  lemma StepOrder(o: Options, env: Environment)
    requires !o.noop && Main(o, env).exit == Completed
    ensures var t := Main(o, env).trace;
      && Precedes(t, Exec(Source, Build), Exec(Source, Push))
      && Precedes(t, Exec(Source, Push), Exec(Site, Push))
      && Precedes(t, Exec(Site, Push), Sleep(1))
      && Precedes(t, Sleep(1), Purge)
  {
    var prepare := PrepareSteps(false, env);
    var source := BuildAndPushSource(o, env);
    var site := PushSiteAndPurge(o, env, WaitSeconds);
    var t := Main(o, env).trace;
    assert t == prepare + source + site;
    SourceOrder(o, env);
    SiteOrder(o, env, WaitSeconds);
    PrecedesWithin(prepare, source, site, Exec(Source, Build), Exec(Source, Push));
    assert Exec(Source, Push) in prepare + source by {
      SourceShape(o, env);
    }
    assert Exec(Site, Push) in site by {
      SiteShape(o, env, WaitSeconds);
    }
    PrecedesAppend(prepare + source, site, Exec(Source, Push), Exec(Site, Push));
    PrecedesAfter(prepare + source, site, Exec(Site, Push), Sleep(1));
    PrecedesAfter(prepare + source, site, Sleep(1), Purge);
  }

  /** A completed real run builds, pushes each repository and purges exactly once. */
  lemma StepsOnce(o: Options, env: Environment)
    requires !o.noop && Main(o, env).exit == Completed
    ensures var t := Main(o, env).trace;
      && Count(t, Exec(Source, Build)) == 1
      && Count(t, Exec(Source, Push)) == 1
      && Count(t, Exec(Site, Push)) == 1
      && Count(t, Purge) == 1
  {
    PrepareEffects(false, env);
    SourceCounts(o, env);
    SiteCounts(o, env, WaitSeconds);
    RealRunCount(o, env, Exec(Source, Build));
    RealRunCount(o, env, Exec(Source, Push));
    RealRunCount(o, env, Exec(Site, Push));
    RealRunCount(o, env, Purge);
  }

  /** An action the environment check never takes is counted in the two halves of a completed real
      run. */
  lemma RealRunCount(o: Options, env: Environment, x: Action)
    requires !o.noop && Main(o, env).exit == Completed
    requires x !in PrepareSteps(false, env)
    ensures Count(Main(o, env).trace, x) ==
      Count(BuildAndPushSource(o, env), x) + Count(PushSiteAndPurge(o, env, WaitSeconds), x)
  {
    var prepare := PrepareSteps(false, env);
    var source := BuildAndPushSource(o, env);
    var site := PushSiteAndPurge(o, env, WaitSeconds);
    assert Main(o, env).trace == prepare + source + site;
    CountAfter(prepare, source, site, x);
  }

  /** A dry run changes nothing: no delete, clone, build, commit, push or HTTP call; the only shell
      command is the read-only remote listing. A completed dry run prints the dummy purge response. */
  lemma DryRunIsPure(o: Options, env: Environment)
    requires o.noop
    ensures forall a :: a in Main(o, env).trace ==> !SideEffect(a)
    ensures Main(o, env).exit == Completed ==> Response(200, "Dummy Request") in Main(o, env).trace
    ensures Main(o, env).exit == Completed ==>
      (Main(o, env).trace ==
        PrepareSteps(true, env)
        + [Heading(Building), ProductionEnv, DryRun(PretendBuild), Heading(PushingSource),
           DryRun(PretendPublish(o.commitMessage)), Heading(PushingSite)]
        + [DryRun(PretendPublish(o.commitMessage)), Heading(Waiting)]
        + Countdown(WaitSeconds)
        + [Heading(Purging), Response(200, "Dummy Request"), Heading(Complete)])
  {
    PrepareEffects(true, env);
    SourceEffects(o, env);
    SiteEffects(o, env, WaitSeconds);
    DrySourceShape(o, env);
    DrySiteShape(o, env, WaitSeconds);
  }

  /** The wait runs in both modes: a completed run sleeps for one second eleven times. */
  lemma WaitAlwaysRuns(o: Options, env: Environment)
    requires Main(o, env).exit == Completed
    ensures Count(Main(o, env).trace, Sleep(1)) == 11
  {
    var prepare := PrepareSteps(o.noop, env);
    var source := BuildAndPushSource(o, env);
    var site := PushSiteAndPurge(o, env, WaitSeconds);
    assert Main(o, env).trace == prepare + source + site;
    PrepareEffects(o.noop, env);
    SourceEffects(o, env);
    SiteSleeps(o, env, WaitSeconds);
    CountAbsent(prepare, Sleep(1));
    CountAbsent(source, Sleep(1));
    CountThree(prepare, source, site, Sleep(1));
  }

  /** A dry run whose `_site` is missing never creates it and fails entering it for the second push:
      the wait and the purge are never reached. */
  lemma DryRunWithoutSiteFails(o: Options, env: Environment)
    requires o.noop && !env.siteExists && env.cloudinaryConfig && env.secretsConfig
    ensures Main(o, env).exit == Crashed(NoSiteDir)
    ensures ExitMessage(Main(o, env).exit) == "No such file or directory @ dir_chdir - _site"
    ensures Sleep(1) !in Main(o, env).trace
    ensures forall a :: a in Main(o, env).trace ==> !a.Heading? || a.stage in {Building, PushingSource, PushingSite}
  {
  }

  /** Both repositories are committed with the same message, the last positional argument. */
  lemma CommitMessageShared(o: Options, env: Environment)
    requires !o.noop && Main(o, env).exit == Completed
    ensures Exec(Source, Commit(o.commitMessage)) in Main(o, env).trace
    ensures Exec(Site, Commit(o.commitMessage)) in Main(o, env).trace
    ensures o.commitMessage.Some? ==> CommandLine(Commit(o.commitMessage)) == "git commit -m \"" + o.commitMessage.value + "\""
    ensures o.commitMessage.None? ==> CommandLine(Commit(o.commitMessage)) == "git commit -m \"\""
  {
  }

  /** The help option prints the help and does nothing else. */
  lemma HelpDoesNothingElse(argv: seq<string>, env: Environment, i: nat)
    requires i < |argv| && (argv[i] == "-h" || argv[i] == "--help")
    requires forall j :: 0 <= j < i ==> argv[j] == "-n" || argv[j] == "--noop" || !LooksLikeOption(argv[j])
    ensures Script(argv, env) == Run([Help], HelpShown)
    ensures Output(Help) == HelpText
  {
    HelpFromWins(argv, false, [], i);
  }

  /** An unknown option stops the script before it does anything. */
  lemma UnknownOptionCrashes(argv: seq<string>, env: Environment, i: nat)
    requires i < |argv| && Uncompletable(argv[i])
    requires forall j :: 0 <= j < i ==> argv[j] == "-n" || argv[j] == "--noop" || !LooksLikeOption(argv[j])
    ensures Script(argv, env) == Run([], Crashed(UnknownOption(argv[i])))
  {
    UnknownFromCrashes(argv, false, [], i);
  }

  /** The repository name appears literally in the remote listing: it matches. */
  lemma LiteralRemoteMatches(a: string, b: string)
    ensures RemoteMatches(a + BuildRepo + b)
  {
    var text := a + BuildRepo + b;
    assert text[|a|..|a| + |BuildRepo|] == BuildRepo;
    assert RepoPatternAt(text, |a|);
  }

  /** The dots of the pattern match any character but a newline, so remotes that merely resemble
      the repository name also count as a checkout of it. */
  lemma LookAlikeRemoteMatches(a: string, b: string, x: char, y: char)
    requires x != '\n' && y != '\n'
    ensures RemoteMatches(a + "rpalo" + [x] + "github" + [y] + "io" + b)
  {
    var text := a + "rpalo" + [x] + "github" + [y] + "io" + b;
    var look := "rpalo" + [x] + "github" + [y] + "io";
    assert text == a + look + b;
    assert text[|a|..|a| + |BuildRepo|] == look;
    forall k | 0 <= k < |BuildRepo|
      ensures PatternCharMatches(BuildRepo[k], text[|a| + k])
    {
      assert text[|a| + k] == look[k];
    }
    assert RepoPatternAt(text, |a|);
  }

  /** A listing such as `rpaloXgithubXio` is accepted although the name does not occur in it. */
  lemma RemoteRegexOverMatches()
    ensures RemoteMatches("rpaloXgithubXio")
    ensures !Contains("rpaloXgithubXio", BuildRepo)
  {
    LookAlikeRemoteMatches("", "", 'X', 'X');
    assert "" + "rpalo" + ['X'] + "github" + ['X'] + "io" + "" == "rpaloXgithubXio";
    forall i | 0 <= i <= |"rpaloXgithubXio"|
      ensures !OccursAt("rpaloXgithubXio", BuildRepo, i)
    {
      if i == 0 {
        assert "rpaloXgithubXio"[..|BuildRepo|][5] != BuildRepo[5];
      }
    }
  }
}
