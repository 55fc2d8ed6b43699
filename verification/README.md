# A verified model of the blog's build-time logic

This project models the parts of the "Assert Not Magic" blog repository that have real logic. It proves what they do.

- **Tag pages.** The site generator hook `:post_read` (`src/_plugins/tags.rb`) reconciles the tag pages in `src/tags/` with the tags used by the posts. It creates a page for every tag without one and deletes every page whose tag is gone. Module `TagSync` models it as a pure function on an immutable directory, where a directory is a map from entry name to content.
- **Legacy tag pages.** The older `:pre_render` hook (`_plugins/tags.rb`) only creates missing pages, with a slightly different permalink. Module `LegacyTagSync` models it. Both hooks share `TagPages`: the directory type, the page file name `<tag>.md` and the front-matter.
- **Post search.** The `filteredPosts` property of the posts page appears in both versions of `posts.js`. It keeps, in order, every post whose lower-cased `"<tags> <title>"` contains the lower-cased search. Module `PostSearch` models it.
  - The current page takes the initial search from the `q` query parameter.
  - The older page starts with the empty search.
  - The module also has a loop implementation of the filter and a scanning `includes`, each proved equal to the specification.
- **Image upload.** The upload script (`bin/upload_image.rb`) derives three values from its argument: the extension, the local path and the public id. It aborts if the image is missing or the upload fails. Module `UploadImage` models this.
  - It writes out Ruby's `String#split` and `File.basename`.
  - An independent reference definition of the extension is proved equal to the split-based one.
- **Deploy.** Module `Deploy` models the deploy script (`scripts/deploy.rb`) as a function. Its inputs are the command-line arguments and what the script observes:
  - whether `_site` exists;
  - the `git remote -v` listing;
  - whether the configuration files exist;
  - the build output;
  - the purge response.

  Its output is a run: a trace of abstract actions plus how the script ends. Shell commands, deletes, clones, sleeps and the HTTP purge are actions in the trace. `Output`, `CommandLine` and `Title` give the text each action prints or runs.

The functions `CloneSteps`, `BuildSteps`, `PublishSteps`, `PurgeSteps`, `SectionMessage` and `ExitMessage` each render one helper method of the deploy script (`clear_and_clone_build_repo`, `build_site`, `git_add_commit_push`, `clear_posts_cache`, `section_message`, and the `abort` messages). What they produce is stated by `SourceShape`, `SiteShape`, `DrySourceShape`, `DrySiteShape`, `PrepareReclone`, `HeadingText` and `MissingConfigAborts`.

`Wrappers` (Option, Result) and `Strings` (prefix, suffix and substring predicates, Ruby's `chomp`, ASCII lower-casing, decimal rendering) are shared helpers.

### Where the code and its description differ

The model follows the code:

- The deploy script checks and re-clones `_site` *before* it checks for `cloudinary.yml` and `secrets.yml`. A run that aborts for a missing configuration file may already have deleted and re-cloned `_site`.
- A dry run (`-n`) still runs the read-only `git remote -v` inside an existing `_site`.
- A dry run never clones. When `_site` is missing, it fails with `Errno::ENOENT` when it enters `_site` for the second push, after the source step. The wait and the purge never happen.
- A failed `git clone` is not fatal: backticks ignore the exit status.
- A failed build, `git add`, `git commit` or `git push` is not fatal either, for the same reason: the script goes on to the next step. In the model a shell command is an action whose result never changes how the run ends.
- The repository check builds a regex from `rpalo.github.io` without escaping the dots. A listing such as `rpaloXgithubXio` is therefore accepted.
- The reconciling hook recognises pages with the unanchored regex `\.md` and then strips one trailing `.md`. An entry such as `x.md.bak` is taken for the page `x.md.bak`. The hook then tries to delete `x.md.bak.md`, which does not exist, and raises.
- The upload script's success message is spelled `Sucess!`.

## Model

| member | source | states |
|---|---|---|
| TagPages.PageFile | src/_plugins/tags.rb:26 | a tag's page file ends in `.md`, and stripping the `.md` gives the tag back |
| TagPages.PageFileInjective | src/_plugins/tags.rb:26 | distinct tags never share a page file |
| TagSync.PageNamesMembers | src/_plugins/tags.rb:7-12 | a name is a page iff its `<name>.md` file is present, or it is an entry that contains `.md` without ending in it |
| TagSync.ToCreate | src/_plugins/tags.rb:13 | every tag to create is in use and has no page file; in a tidy directory every tag in use without a page file is to be created |
| TagSync.ToDelete | src/_plugins/tags.rb:14 | no page to delete is a tag in use; every page file of an unused tag is to be deleted, and in a tidy directory nothing else is |
| TagSync.NewPages | src/_plugins/tags.rb:17-28 | the new files are exactly the `.md` files named after a tag to create; each holds that tag's template |
| TagSync.Reconcile | src/_plugins/tags.rb:17-35 | after creating and deleting, a file exists iff it existed and is not the page of a deleted tag, or it is the page of a created tag; surviving files keep their content; created pages hold the template |
| TagSync.Sync | src/_plugins/tags.rb:6-35 | a write failure names only tags that have no page and cannot be written; a delete failure names only orphaned pages whose `<page>.md` is absent; neither set is empty |
| TagSyncProofs.SyncSuccess | src/_plugins/tags.rb:13-35 | success means every missing page was writable, every orphaned page file was present, and the directory is reconciled |
| TagSyncProofs.SyncSucceeds | src/_plugins/tags.rb:26-34 | on a directory whose page-like entries all end in `.md`, the hook succeeds whenever every new tag is writable |
| TagSyncProofs.StrayEntryFails | src/_plugins/tags.rb:7-34 | an entry that contains `.md` without ending in it, is no tag and has no `<entry>.md` makes the delete step fail, naming that entry |
| TagSyncProofs.SyncChanges | src/_plugins/tags.rb:13-14 | the created files are exactly the pages of `tags - pages`, the deleted files exactly the pages of `pages - tags`, and the two sets are disjoint |
| TagSyncProofs.SyncKeepsOthers | src/_plugins/tags.rb:17-35 | a file not ending in `.md`, or the page of a tag still in use, is kept with the same content |
| TagSyncProofs.SyncTemplate | src/_plugins/tags.rb:19-27 | a created page `<tag>.md` holds exactly the front-matter with permalink `/tags/<tag>/` |
| TagSyncProofs.TemplateText | src/_plugins/tags.rb:19-25 | the template is the front-matter block with layout `tagpage`, the tag, and the permalink `/tags/<tag>/` |
| TagSyncProofs.SyncMatchesTags | src/_plugins/tags.rb:6-35 | after a successful run on a tidy directory, the page names equal the tags and the directory stays tidy |
| TagSyncProofs.SyncInSync | src/_plugins/tags.rb:13-14 | when the pages already equal the tags, the directory is left unchanged |
| TagSyncProofs.SyncIdempotent | src/_plugins/tags.rb:13-14 | on a tidy directory, a second run with the same tags changes nothing |
| TagSyncProofs.SyncKeepsValid | src/_plugins/tags.rb:26-28 | a successful run adds only plain file names to the directory |
| TagSyncProofs.UntidyNotIdempotent | src/_plugins/tags.rb:7-12 | without tidiness the hook is not idempotent: `a.mdx` beside `a.mdx.md` lets a first run succeed and a second run fail |
| TagSyncProofs.BackupEntryFails | src/_plugins/tags.rb:7-34 | `x.md.bak` beside `x.md`, with the tag `x`, makes the hook fail deleting the page `x.md.bak` |
| TagSyncProofs.SyncExample | src/_plugins/tags.rb:6-35 | tags {ruby, jekyll} against {ruby.md, obsolete.md}: `jekyll.md` is created, `obsolete.md` deleted, `ruby.md` kept |
| LegacyTagSync.LegacySync | _plugins/tags.rb:3-15 | a failure names only tags that have no file and cannot be written; on success every tag was writable or already had its file |
| LegacyTagSync.NewLegacyPages | _plugins/tags.rb:5-14 | the written files are the page files of the given tags, each holding its tag's front-matter |
| LegacyTagSyncProofs.LegacySuccess | _plugins/tags.rb:3-15 | success means every tag without a file was writable and the new pages are added to the directory |
| LegacyTagSyncProofs.LegacySucceedsIff | _plugins/tags.rb:3-15 | the hook succeeds iff every tag without a file is writable |
| LegacyTagSyncProofs.LegacyPostState | _plugins/tags.rb:3-15 | afterwards every tag has its file, no existing file is changed or removed, and the new files are exactly the missing tags' pages |
| LegacyTagSyncProofs.LegacyTemplateContent | _plugins/tags.rb:5-11 | a created page holds the front-matter whose permalink is `/tags/<tag>` with no trailing slash |
| LegacyTagSyncProofs.LegacyInSync | _plugins/tags.rb:4 | when every tag already has its file, the directory is left unchanged |
| LegacyTagSyncProofs.LegacyIdempotent | _plugins/tags.rb:4 | a second run with the same tags writes nothing |
| Strings.Chomp | src/_plugins/tags.rb:10 | `chomp` removes the suffix exactly when the string ends in it, and otherwise returns the string unchanged |
| Strings.Lower | src/js/posts.js:34 | lower-casing keeps the length and maps every character through ASCII lower-casing |
| Strings.LowerKeepsContains | src/js/posts.js:34 | lower-casing keeps every occurrence of a substring |
| PostSearch.FilteredPosts | src/js/posts.js:32-36 | a post is kept iff it is in the list and its lower-cased `"<tags> <title>"` contains the lower-cased search; the result is never longer than the list |
| PostSearch.InitialSearch | src/js/posts.js:28 | the initial search is the value of the first `q` parameter, or "" when there is none |
| PostSearch.Filter | src/js/posts.js:33-35 | the loop that runs the filter over the list computes exactly the specified result |
| PostSearch.Includes | src/js/posts.js:34 | scanning every start position answers true iff the text contains the pattern |
| PostSearchProofs.FilterIsSubsequence | src/js/posts.js:33 | the result is an order-preserving subsequence of the post list |
| PostSearchProofs.FilterKeepsDuplicates | src/js/posts.js:32-36 | each matching post is kept as many times as it occurs in the list, and no other post is kept |
| PostSearchProofs.EmptySearchKeepsAll | src/js/posts.js:34 | the empty search keeps every post, in order |
| PostSearchProofs.SearchIgnoresCase | js/posts.js:11 | two searches that lower-case alike give the same result |
| PostSearchProofs.SearchLowerCased | src/js/posts.js:34 | lower-casing the search beforehand changes nothing |
| PostSearchProofs.MatchesNarrowing | src/js/posts.js:34 | a post that matches a search also matches every substring of it |
| PostSearchProofs.SearchNarrows | src/js/posts.js:32-36 | extending the search keeps a subsequence of the previous results |
| PostSearchProofs.LegacyShowsAllInitially | js/posts.js:5-13 | the older page shows every post before anything is typed |
| PostSearchProofs.NoQueryShowsAll | src/js/posts.js:28-34 | without a `q` parameter the current page shows every post initially |
| UploadImage.Basename | bin/upload_image.rb:9 | a name without a slash is its own basename; the basename is empty only for the empty path, and holds no slash unless it is the root `/` |
| UploadImage.BasenameWithout | bin/upload_image.rb:9 | a suffix shorter than the basename is cut off its end; any other suffix leaves the basename whole; the wildcard `.*` gives the stem before the last dot that is not leading |
| UploadImage.PublicId | bin/upload_image.rb:9 | the public id is a prefix of the argument's basename and contains no slash unless it is `/` (the basename of `/`) |
| UploadImage.Send | bin/upload_image.rb:11-20 | once the extension is known, a finished run had no upload error and an upload happens only for an existing image |
| UploadImage.UploadScript | bin/upload_image.rb:6-20 | a run that finishes had no upload error; an upload happens only for an existing `src/img/<arg>` |
| UploadImageProofs.SplitIgnoresTrailing | bin/upload_image.rb:7 | trailing dots do not change the split, as Ruby drops trailing empty fields |
| UploadImageProofs.ExtensionMatchesReference | bin/upload_image.rb:7 | the split-based extension equals "dot plus whatever follows the last dot once trailing dots are stripped", for every name |
| UploadImageProofs.ExtensionShape | bin/upload_image.rb:7 | the extension is a dot and a non-empty dot-free segment; there is none iff the name consists only of dots |
| UploadImageProofs.StemOfShape | bin/upload_image.rb:9 | the wildcard stem, when it differs from the basename, ends just before a dot after which no dot follows, and is not all dots; when it equals the basename, every dot of the name is in its leading run of dots |
| UploadImageProofs.BasenameOfPath | bin/upload_image.rb:8-9 | the basename of `dir/base` is `base` for every non-empty slash-free `base` |
| UploadImageProofs.ExtensionOfSegment | bin/upload_image.rb:7 | a name ending in a dot and a non-empty dot-free segment has that segment as its extension |
| UploadImageProofs.PublicIdStripsExtension | bin/upload_image.rb:9 | stripping an extension other than `.*` from a basename `stem` + extension gives `stem` back |
| UploadImageProofs.PublicIdWildcard | bin/upload_image.rb:9 | with the wildcard `.*`, a basename `stem.*` gives `stem`, unless `stem` is all dots, when it is kept whole |
| UploadImageProofs.LeadingDotsWildcard | bin/upload_image.rb:7-9 | the argument `..*` keeps `..*` as its public id, as the wildcard skips leading dots |
| UploadImageProofs.PublicIdOfFile | bin/upload_image.rb:7-9 | a basename `stem.seg` gives the public id `stem`, except `seg` = `*` with an all-dots `stem`, where it is kept whole |
| UploadImageProofs.NameRoundTrip | bin/upload_image.rb:7-9 | `stem.seg` gives the extension `.seg` and the public id `stem` (so `a.b.png` gives `.png` and `a.b`); the wildcard exception as above |
| UploadImageProofs.NameInDirectory | bin/upload_image.rb:7-9 | the same holds for an argument `dir/stem.seg` naming a file below `src/img/` |
| UploadImageProofs.NoDotName | bin/upload_image.rb:7-9 | a name without a dot keeps its whole name as public id |
| UploadImageProofs.TrailingDotName | bin/upload_image.rb:7-9 | `foo.` gives the extension `.foo` and keeps `foo.` as public id; only `*.` becomes `*`, because `.*` is the wildcard |
| UploadImageProofs.ImagePathShape | bin/upload_image.rb:8 | the image path is `src/img/` followed by the argument |
| UploadImageProofs.MissingImageAborts | bin/upload_image.rb:11 | a missing image aborts with `<path> does not exist.` before anything is printed or uploaded |
| UploadImageProofs.UploadErrorAborts | bin/upload_image.rb:14-18 | an upload error aborts with `Cloudinary Error: <message>` after one upload attempt, and the success line is not printed |
| UploadImageProofs.UploadSucceeds | bin/upload_image.rb:6-20 | with an existing image and no upload error, the run is exactly: the `Uploading <path> with public_id <id>` line, the upload under that id, the success line, and a normal end |
| UploadImageProofs.SendSucceeds | bin/upload_image.rb:11-20 | the same complete trace once the extension is known |
| UploadImageProofs.BadArgumentCrashes | bin/upload_image.rb:6-7 | without an argument, or with one of dots only, the script raises before doing anything |
| Deploy.ParseFrom | scripts/deploy.rb:58-76 | an invalid option is an option-like argument other than `-n`, `--noop`, `-h`, `--help` and `--`; help is reported only if asked for; the message is one of the arguments; a dry-run flag once set stays set |
| Deploy.ParseArgs | scripts/deploy.rb:53-79 | an invalid option is one of the arguments; help only if `-h` or `--help` is given; the commit message is one of the arguments |
| Deploy.Puts | scripts/deploy.rb:154-156 | `puts` writes the text followed by one newline, adding none when the text already ends in one |
| Deploy.PrepareSteps | scripts/deploy.rb:20-24 | the remote listing runs iff `_site` exists; the warning is printed iff `_site` is missing or its remotes do not match |
| Deploy.Main | scripts/deploy.rb:15-51 | a run aborts iff a configuration file is missing; it crashes entering `_site` iff it is a dry run with both files and no `_site`; otherwise it completes; it always starts with the environment check |
| Deploy.Script | scripts/deploy.rb:15-79 | the help option prints the summary and nothing else; an unknown option stops with no action, naming an argument; a completed run announces completion |
| Deploy.Last | scripts/deploy.rb:76 | the popped message is absent iff no argument is left, and otherwise is the last one |
| Deploy.Output | scripts/deploy.rb:81-157 | everything printed with `puts` ends in a newline; the build output and dry-run lines are printed as they are; effects print nothing |
| DeployProofs.OutputText | scripts/deploy.rb:20-157 | the warning is its line plus a newline; echoes, dry-run lines and the response `<code>: <body>` go through `puts`; a tick is `Waiting: ` and the count zero-padded to at least two digits, ended by a carriage return, not a newline |
| DeployProofs.HeadingText | scripts/deploy.rb:153-157 | a section heading prints an empty line, `--- <title> ---`, and another empty line |
| DeployProofs.PutsLine | scripts/deploy.rb:154-156 | `puts` adds a newline exactly when the text does not already end in one |
| Deploy.Countdown | scripts/deploy.rb:112-117 | the countdown is 2(n+1) steps: tick k of the loop writes `n - k`, then sleeps one second |
| DeployProofs.ParseFromResult | scripts/deploy.rb:53-79 | the dry-run flag is set iff `-n` or `--noop` comes before any `--`, and the message is the last positional argument, counting everything after `--` as positional |
| DeployProofs.TerminatorExample | scripts/deploy.rb:75-76 | after `--`, `-n` and `--help` are taken as commit messages, not options |
| DeployProofs.CommitMessageIsLastPositional | scripts/deploy.rb:75-76 | the commit message is the last argument that is not an option or comes after `--`, or nil when there is none |
| DeployProofs.HelpFromWins | scripts/deploy.rb:69-72 | `-h`/`--help` ends parsing when only known options and positional arguments precede it |
| DeployProofs.HelpDoesNothingElse | scripts/deploy.rb:69-72 | the help option prints the option summary and the script does nothing else |
| DeployProofs.UnknownFromCrashes | scripts/deploy.rb:75 | a two-character option `-c` that no option completes (`c` is none of `n`, `h`, `v` in either case, `*` or `-`) makes the parser raise, naming it |
| DeployProofs.UnknownOptionCrashes | scripts/deploy.rb:75 | such an option stops the script before any action |
| DeployProofs.TitlesDistinct | scripts/deploy.rb:30-50 | the six section titles are pairwise different |
| DeployProofs.CommandLinesDistinct | scripts/deploy.rb:99-110 | the shell commands are pairwise different texts |
| DeployProofs.PrepareEffects | scripts/deploy.rb:20-24 | the environment check announces nothing, never builds, commits, pushes, sleeps or purges, and changes nothing in a dry run |
| DeployProofs.PrepareReclone | scripts/deploy.rb:21-24 | the check deletes and clones `_site` (or prints the clone in a dry run) iff `_site` is missing or its remotes do not match |
| DeployProofs.RecloneIffStale | scripts/deploy.rb:21-24 | every run, aborted or not, re-clones iff `_site` is absent or its `git remote -v` does not match the repository name |
| DeployProofs.CloneBeforeAbort | scripts/deploy.rb:21-27 | a real run with a stale `_site` and a missing configuration file deletes and clones `_site` and then aborts |
| DeployProofs.MissingConfigAborts | scripts/deploy.rb:26-27 | a missing `cloudinary.yml` (checked first) or `secrets.yml` aborts with its message; no heading, build, commit, push, wait or purge happens |
| DeployProofs.SourceHeadings | scripts/deploy.rb:29-39 | the first half announces steps 1, 2 and 3, in that order |
| DeployProofs.SourceEffects | scripts/deploy.rb:29-39 | the first half never deletes, clones, sleeps or purges, and changes nothing in a dry run |
| DeployProofs.SiteHeadings | scripts/deploy.rb:40-50 | the second half announces steps 4 and 5 and the completion, in that order |
| DeployProofs.SiteSleeps | scripts/deploy.rb:42-44 | the second half sleeps one second exactly `wait + 1` times |
| DeployProofs.SiteEffects | scripts/deploy.rb:40-50 | the second half never deletes or clones; a dry one changes nothing and prints the dummy purge response |
| DeployProofs.CountdownStep | scripts/deploy.rb:112-117 | counting down from n is tick n, a one-second sleep, then counting down from n - 1 |
| DeployProofs.CountdownSleeps | scripts/deploy.rb:112-117 | a countdown from n sleeps exactly n + 1 times |
| DeployProofs.CountdownTicksOnce | scripts/deploy.rb:112-117 | a countdown from n writes each tick 0 to n exactly once and no other tick |
| DeployProofs.CompletedHeadings | scripts/deploy.rb:30-50 | a completed run announces the five steps and the completion, in that order, in both modes |
| DeployProofs.SourceShape | scripts/deploy.rb:29-39 | a real first half is: heading, production environment, build, echo, heading, add, commit, push, heading |
| DeployProofs.SourceOrder | scripts/deploy.rb:30-36 | a real first half builds before it pushes the source |
| DeployProofs.SourceCounts | scripts/deploy.rb:30-36 | a real first half builds once and pushes the source once, and neither pushes the site nor purges |
| DeployProofs.SiteShape | scripts/deploy.rb:40-50 | a real second half is: add, commit, push in `_site`, heading, countdown, heading, purge, response, heading |
| DeployProofs.DrySiteShape | scripts/deploy.rb:40-50 | a dry second half prints the publish line in place of the site push, waits as a real run does, and shows the dummy response in place of the purge |
| DeployProofs.DryRunLines | scripts/deploy.rb:81-104 | in a dry run the clone prints `Cloning '<url> _site'`, the build prints `bundle exec jekyll build`, a push prints `git add ., git commit -m <message>, git push`, each ended by one newline |
| DeployProofs.DryLine | scripts/deploy.rb:81-104 | every dry-run description is printed followed by exactly one newline |
| DeployProofs.SiteOrder | scripts/deploy.rb:40-48 | a real second half pushes `_site` before the wait, and waits before the purge |
| DeployProofs.SiteCounts | scripts/deploy.rb:40-48 | a real second half pushes `_site` once and purges once, and neither builds nor pushes the source |
| DeployProofs.StepOrder | scripts/deploy.rb:30-48 | a completed real run builds, pushes the source, pushes `_site`, waits and purges, in that order |
| DeployProofs.StepsOnce | scripts/deploy.rb:30-48 | a completed real run builds, pushes each repository and purges exactly once |
| DeployProofs.DryRunIsPure | scripts/deploy.rb:15-138 | a dry run never deletes, clones, builds, commits, pushes or calls the CDN; a completed one is exactly: the environment check, the described build, the described push twice, the real countdown, and `200: Dummy Request` |
| DeployProofs.DrySourceShape | scripts/deploy.rb:29-40 | a dry first half prints the build command and the publish line in place of the build and the source push |
| DeployProofs.WaitAlwaysRuns | scripts/deploy.rb:42-44 | a completed run sleeps one second eleven times, in both modes |
| DeployProofs.DryRunWithoutSiteFails | scripts/deploy.rb:38-40 | a dry run with `_site` missing fails entering it for the second push, never waits, and announces only steps 1 to 3 |
| DeployProofs.CommitMessageShared | scripts/deploy.rb:34-40 | a completed real run commits both repositories with the same message, and a nil message gives `git commit -m ""` |
| DeployProofs.LiteralRemoteMatches | scripts/deploy.rb:140-145 | a remote listing that contains the repository name passes the check |
| DeployProofs.LookAlikeRemoteMatches | scripts/deploy.rb:143 | any character except a newline may stand in for each dot of the repository name |
| DeployProofs.RemoteRegexOverMatches | scripts/deploy.rb:143 | `rpaloXgithubXio` passes the check although it does not contain the repository name |

## Left out

- Sub-directories of the tag directory are not modelled. A tag containing `/` or NUL is reported as an unwritable tag. Ruby would raise unless such a directory happened to exist.
- TagPages.Writable: writability is decided by the tag's name alone. A missing `src/tags/` or `tags/` directory, permission errors, file-name length limits and other file-system failures are not modelled.
- TagSyncProofs.SyncSucceeds: success is promised only in the name-based model of writability above; the file-system failures it leaves out would make Ruby raise.
- LegacyTagSyncProofs.LegacySucceedsIff: the same name-based writability; the same file-system failures are left out.
- When a tag hook fails part-way, the files written or deleted before the failure are not modelled. Their order depends on Ruby's set iteration order. The model reports only which tags or pages cause the failure.
- The hooks' progress messages (`Creating new tagpage…`, `Removing tagpage…`) are not modelled. They go to standard output and affect no file.
- Lower-casing is ASCII only; JavaScript's full Unicode `toLowerCase` is not modelled.
- The DOM, template, scroll and Vue wiring of the posts pages are browser UI.
- How `URLSearchParams` decodes the query string is not modelled. `InitialSearch` takes the decoded parameters as a list.
- Deploy.ParseFrom: only these `OptionParser` behaviours are modelled: `-n`/`--noop`, `-h`/`--help`, `--`, a lone `-` as a positional argument, and the failure on any other option. Abbreviated long options (`--no`, `--he`, case-insensitively), clustered short options (`-nh`), the built-in `-v`/`--version` and `--opt=value`, and `POSIXLY_CORRECT` are left out. Such arguments are modelled as unknown options.
- DeployProofs.UnknownFromCrashes: stated only for two-character options that `OptionParser` cannot complete or cluster into a declared option, because the model does not follow completion for the others.
- DeployProofs.UnknownOptionCrashes: stated for the same options only, for the same reason.
- UploadImage.BasenameWithout: only the two suffix forms the script can pass are modelled, a literal suffix and the wildcard `.*` (reached by names ending in `.*`). Ruby's other wildcard form `<x>*` and case-insensitive suffix comparison on case-folding file systems are not modelled.
- The Cloudinary configuration environment variables and the upload service are external. The upload outcome is a parameter, and `File.exists?` is a set of existing paths.
- The deploy script's shell commands, file-system changes, sleeps and HTTP call are abstract trace actions. Their own behaviour (what git or the build does, whether the purge succeeds) is not modelled. The build output and the purge response are parameters.
- `Deploy.Main` assumes that `_site` exists by the second push of a real run, because the clone or the build creates it. A failed clone combined with a build that does not create `_site` is not modelled.
- Reading `secrets.yml` and the request headers of the purge are not modelled. Only the purge action and its response are.
- DeployProofs.CommandLinesDistinct: a nil commit message and an empty one give the same command text, so the lemma is stated only for pairs that are not both commits.
- `_plugins/images.rb`, `src/_plugins/babel.rb`, `src/_plugins/uglify.rb`, the `posts_data.js` templates, `js/home.js` and `_posts/test.py` are not part of this model. They are wrappers over external libraries, Liquid templates, browser code or blog content.
