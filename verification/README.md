# staticomment, modelled in Dafny

staticomment is a small HTTP service that takes comment submissions from
the HTML form of a static site and publishes them. It writes each comment as
a YAML file into a git working copy of the site and then commits and pushes
that file. This project models the service's core:

- **Configuration** (`config.dfy`). `LoadConfig` reads the environment and
  applies its rules in order. The comments and posts paths must be relative
  and must not climb out of the repository. A repository URL is required.
  The allowed origins must each have a scheme and a host. The four spam
  tunables must be non-negative integers, and blocked patterns must compile.
- **Repository synchronizer** (`git_trace.dfy`, `git_repo.dfy`). This covers
  host-key management (`ensureHostKeys`, `refreshHostKeys`, the known_hosts
  file), `Clone` with its single retry after refreshing the host keys, and
  `CommitAndPush` with its bounded push/`pull --rebase` loop.
  - Every command, file operation and ssh-keyscan run is an *effect*. An
    *oracle* decides whether each effect succeeds and what ssh-keyscan
    prints.
  - `GitTrace` defines each operation as a function from a state to a new
    state plus a result. The state is the known_hosts content, whether
    `.git` exists, and the log of effects so far.
  - `GitRepository.GitRepo` is the imperative object. Each method is proved
    to produce exactly the state and result of the matching `GitTrace`
    function.
- **Spam mitigation** (`spam.dfy`). This is the sliding-window rate limiter,
  a class whose `entries` map `Allow` and the cleanup sweep update in place.
  It also covers `extractIP`, the honeypot check, the link count and
  blocked-pattern check on the body, and the minimum-submit-time check.
- **The comment endpoint** (`handler.dfy`).
  - `Screen` is the ordered guard chain of `ServeHTTP`: the method, the
    origin, form parsing, the redirect URL, then the form checks.
  - `CommentHandler.WriteComment` picks the file name and writes the file.
  - `CommentHandler.ServeHTTP` runs the guards, writes the file, then calls
    `GitRepo.CommitAndPush`. The files are a `Files` object that the
    handler updates.
- Support modules:
  - `common.dfy`: strings, splitting and joining, trimming, decimal
    parsing, int64 wrap-around, UTF-8 length.
  - `urls.dfy`: a simplified `net/url`.
  - `paths.dfy`: `filepath.Clean`, `filepath.Join`, and the predicate
    `Inside`, "a relative path that never climbs above its base".

Time, randomness, the environment, subprocess outcomes and filesystem
outcomes are inputs to the model:
- `Env` for the environment;
- `Oracle` for commands and ssh-keyscan;
- `World` for one request's clock readings, random bytes, filesystem
  outcomes and the set of post files;
- `now` parameters for the rate limiter.

Where the design notes of the project and the code disagree, the model
follows the code:
- The body limit counts bytes (`len(body)`), not characters.
- `ServeHTTP` never calls the rate limiter, the honeypot check, the body
  content check or the timestamp check. Those are modelled as standalone
  operations and are not part of `Screen`.
- `writeComment` replaces any file of the same name (`os.WriteFile`). There
  is no collision check.

## Model

| member | source | states |
|---|---|---|
| Configuration.LoadOptionalVerbatim | config.go:31-40 | a loaded configuration holds the branch, port and SSH key path exactly as set when their variables are non-empty, their defaults otherwise (`envOrDefault`, config.go:131-136), and the honeypot field likewise (config.go:87); the repository is the variable's value |
| Configuration.NonNegative | config.go:89-105 | a tunable is accepted exactly when the variable (or its default) parses as a non-negative integer, and its value is that integer |
| Configuration.PatternsFromKeepsOrder | config.go:107-120 | the blocked patterns are the non-blank trimmed entries in input order; the loop succeeds iff each compiles with `(?i)`, and a failure names one that does not |
| Configuration.LoadTunablesAccepts | config.go:89-126 | the tunables are accepted iff window, max, links and min-time are non-negative integers and, when patterns are given, every one compiles |
| Configuration.LoadConfig | config.go:31-129 | the imperative loader returns exactly the configuration or first error that `Load` defines |
| Configuration.ReadOrigins | config.go:71-81 | the loop over comma-separated origins agrees with `OriginsFrom` (skip blanks, trim, fail on the first invalid entry) |
| Configuration.ReadPatterns | config.go:107-120 | the loop over blocked patterns agrees with `PatternsFrom` (skip blanks, trim, fail on the first pattern that does not compile) |
| Configuration.OriginsFromKeepsOrder | config.go:71-84 | the origin list is accepted iff every non-blank trimmed entry is valid; it is then exactly those entries in input order; an error names an invalid origin |
| Configuration.NonBlankTrimmedAreTrimmed | config.go:71-75 | every stored origin is non-empty and has no leading or trailing white space |
| Configuration.LoadPathsSafe | config.go:42-60 | accepted comments and posts paths are relative, do not start with `..`, and stay inside the repository; the posts path is empty iff its variable is |
| Configuration.LoadOriginsValid | config.go:67-84 | accepted origins are non-empty, are the trimmed non-blank entries in order, and each has a scheme and a host |
| Configuration.LoadOkGuarantees | config.go:31-129 | a loaded configuration has safe paths, a non-empty repository URL, at least one valid origin, and `SSHInsecure` exactly when the variable is "1" |
| Configuration.LoadTunablesValid | config.go:89-126 | each accepted tunable is non-negative and equals the parsed value of its variable or default |
| Configuration.LoadOkTunables | config.go:86-128 | a loaded configuration carries exactly the tunables and patterns that were read |
| Configuration.LoadRuleOrder | config.go:42-84 | the rules fail in source order: absolute comments path, escaping comments path, absolute posts path, escaping posts path, missing repository, missing origins, no usable origin |
| Configuration.BadTunableFails | config.go:89-126 | a negative or non-numeric window, max, max-links or min-submit-time makes loading fail |
| Configuration.DefaultPaths | config.go:33-35 | without path variables the paths are `_data/comments` and "" |
| Configuration.DefaultTunables | config.go:87-126 | without tunable variables the tunables are window 60, max 5, links 3, no patterns, min time 5 |
| Configuration.LoadDefaults | config.go:31-129 | with only the required variables set, loading succeeds iff the repository URL is non-empty and the origins are valid, and then every default is as written |
| Paths.CleanedRelativeStaysInside | config.go:46-49 | a relative path whose cleaned form does not start with ".." stays inside its base |
| Paths.JoinInside | handler.go:140-153 | joining a path that stays inside with a single normal element is plain "/" concatenation and still stays inside |
| GitTrace.HostInKnownHosts | git.go:67-78 | true iff some line of the readable known_hosts starts with `host+" "` or `host+","`; a missing file gives false |
| GitTrace.SanitizeArgs | git.go:140-153 | one output per argument, each its sanitized form |
| GitTrace.ExtractHostScpStyle | git.go:124-130 | for `user@host:path` with no "://", the host is the text between the '@' and the next ':' |
| GitTrace.ExtractHostNoPort | git.go:126-129 | an scp-style URL with no ':' after its '@' yields everything after the '@' |
| GitTrace.SshCommandTrust | git.go:28-33 | the ssh command always names the key; it pins the service's known_hosts iff host checking is on, and disables checking iff SSHInsecure |
| GitTrace.SanitizeKeeps | git.go:140-153 | an argument without "://", or one that does not parse, or one without user info, is logged unchanged |
| GitTrace.SanitizeDropsUser | git.go:143-147 | a URL argument with user info is logged as the same URL without it |
| GitTrace.AppendKeepsLines | git.go:97-104 | appending to known_hosts keeps every earlier complete line, and the last line is only extended |
| GitTrace.KnownHostStaysKnown | git.go:67-78 | a host listed in known_hosts stays listed after anything is appended |
| GitTrace.ScanAndAppendEffect | git.go:89-106 | scan, mkdir, open and append run in order up to the first failure; on success the scan output is appended, and on failure known_hosts is unchanged, a failed step being taken to have no effect |
| GitTrace.ScanAndWriteEffect | git.go:108-120 | scan, mkdir and write run in order up to the first failure; on success known_hosts becomes exactly the scan output, and a failed step is taken to have no effect |
| GitTrace.EnsureHostKeysKeepsRepo | git.go:39-53 | ensuring host keys never touches the working copy |
| GitTrace.EnsureHostKeysSkips | git.go:39-50 | SSHInsecure does nothing; a URL with no host fails with no effect; a host already known performs no effect |
| GitTrace.EnsureHostKeysAppends | git.go:39-53 | an unknown host is scanned; on success its keys are appended to the prior content, on failure known_hosts keeps its content, a failed step being taken to have no effect |
| GitTrace.EnsureHostKeysKeepsLines | git.go:39-53 | every complete prior line of known_hosts survives ensureHostKeys |
| GitTrace.EnsureHostKeysKeepsKnown | git.go:39-53 | a host known before ensureHostKeys is still known after it |
| GitTrace.RefreshHostKeysOverwrites | git.go:57-65 | a refresh with a host replaces known_hosts by the scan output on success, never appends, and leaves it unchanged on failure, a failed step being taken to have no effect; without a host it fails with no effect |
| GitTrace.IdentityEffect | git.go:206-212 | the identity step runs `config user.email` then `config user.name` up to the first failure and leaves the disk unchanged |
| GitTrace.RecloneSteps | git.go:194-204 | the retry runs remove, mkdir and clone in order up to the first failure; success leaves a working copy |
| GitTrace.RetryCloneSteps | git.go:187-204 | after a failed clone, either the refresh fails and the original clone error is returned, or refresh and reclone run in order; success leaves a working copy |
| GitTrace.CloneReusesRepo | git.go:176-179 | with an existing `.git`, the only effect after the key check is one pull, and a failure is the pull error |
| GitTrace.AfterFailedClone | git.go:187-204 | after mkdir and a failed clone, the run follows either the first-try script or the retry script |
| GitTrace.FirstTrySteps | git.go:181-212 | unless the first clone fails with host checking on, the run is mkdir, clone, identity, in order up to the first failure |
| GitTrace.FreshCloneSteps | git.go:181-214 | without `.git`, clone follows the first-try script, or (host checking on) the retry script; success leaves a working copy |
| GitTrace.CloneAtMostTwice | git.go:181-212 | a fresh clone runs `git clone` at most twice, and the identity is configured only right after a successful clone |
| GitTrace.CloneReusesWorkingCopy | git.go:172-179 | with a working copy and a trusted host, Clone performs exactly one pull |
| GitTrace.CloneIgnoresKeyErrors | git.go:172-176 | a failed host-key check does not stop Clone: the next effect is the pull or the mkdir |
| GitTrace.InsecureCloneNeverScans | git.go:165-215 | with SSHInsecure, Clone never runs ssh-keyscan |
| GitTrace.PushLoopSteps | git.go:247-259 | from any attempt, the push loop follows the push/pull-rebase/abort protocol |
| GitTrace.PushRunCounts | git.go:247-259 | a push run makes at most the remaining number of pushes, one retry pull per failed push; it succeeds iff it ends with a successful push; exhaustion means every remaining push failed |
| GitTrace.PreludeFailureSteps | git.go:233-244 | when pull, add or commit fails, the steps stop at it and the error names that step |
| GitTrace.PreludeSuccessSteps | git.go:233-259 | when pull, add and commit succeed, the push loop follows them |
| GitTrace.CommitAndPushSteps | git.go:229-260 | CommitAndPush is the pull/add/commit prelude up to its first failure, then the push loop |
| GitTrace.CommitAndPushCounts | git.go:229-260 | at most 3 pushes; after the prelude, retry pulls equal failed pushes; success iff the last step is a successful push |
| GitRepository.GitRepo.constructor | git.go:24-26 | a new synchronizer has performed nothing |
| GitRepository.GitRepo.Exec | git.go:155-163 | one effect, with the oracle's outcome applied to the disk and logged |
| GitRepository.GitRepo.ScanHostKeys | git.go:80-87 | runs ssh-keyscan once and returns what it printed |
| GitRepository.GitRepo.ScanAndAppendHostKeys | git.go:89-106 | the new state and result are those of `GitTrace.ScanAndAppend` |
| GitRepository.GitRepo.ScanAndWriteHostKeys | git.go:108-120 | the new state and result are those of `GitTrace.ScanAndWrite` |
| GitRepository.GitRepo.EnsureHostKeys | git.go:39-53 | the new state and result are those of `GitTrace.EnsureHostKeys` |
| GitRepository.GitRepo.RefreshHostKeys | git.go:57-65 | the new state and result are those of `GitTrace.RefreshHostKeys` |
| GitRepository.GitRepo.Pull | git.go:217-225 | one `pull --rebase`, as `GitTrace.Pull` |
| GitRepository.GitRepo.ConfigureIdentity | git.go:206-212 | the new state and result are those of `GitTrace.ConfigureIdentity` |
| GitRepository.GitRepo.Clone | git.go:165-215 | the new state and result are those of `GitTrace.Clone` |
| GitRepository.GitRepo.CommitAndPush | git.go:229-260 | the new state and result are those of `GitTrace.CommitAndPush` |
| Spam.Unexpired | spam.go:49-55 | filtering never lengthens the list |
| Spam.RateLimiter.constructor | spam.go:23-33 | the window is the int64 nanosecond product, and the entries start empty |
| Spam.RateLimiter.Prune | spam.go:49-55 | the filter loop keeps exactly the timestamps `Unexpired` keeps |
| Spam.RateLimiter.Allow | spam.go:37-64 | the decision and the new entries are those of `AllowStep` |
| Spam.RateLimiter.Sweep | spam.go:71-87 | the entries after a sweep are `Swept` of the old entries at `now - window` |
| Spam.UnexpiredMembers | spam.go:50-55 | a timestamp is kept iff it is stored and strictly after the cutoff |
| Spam.UnexpiredTwice | spam.go:46-55 | pruning at an earlier cutoff and then a later one equals pruning at the later one |
| Spam.AllowDisabled | spam.go:38-40 | with max <= 0 every request is allowed and the entries are unchanged |
| Spam.AllowDecision | spam.go:45-63 | a request is refused iff at least max timestamps are unexpired; a refusal stores the pruned list, an acceptance stores it with `now` appended; other IPs are unchanged |
| Spam.AllowKeepsBound | spam.go:57-63 | if no IP holds more than max timestamps, none does after Allow |
| Spam.SweptEntries | spam.go:74-86 | the sweep deletes exactly the IPs with no unexpired timestamp and leaves each other IP only its unexpired ones |
| Spam.SweepKeepsDecisions | spam.go:67-89 | a sweep at or before `now` never changes what Allow decides at `now` |
| Spam.SplitHostPortIff | spam.go:93 | `net.SplitHostPort` yields a host and a port exactly when the address is `host:port` (no colon or bracket in the host) or `[host]:port` (no bracket in the host), with no colon or bracket in the port |
| Spam.ExtractIPHostPort | spam.go:92-98 | `host:port` yields the host |
| Spam.SplitBracketed | spam.go:93 | `[host]:port` splits into host and port |
| Spam.ExtractIPBracketed | spam.go:92-98 | `[host]:port` yields the host without brackets |
| Spam.ExtractIPFallback | spam.go:93-96 | an address without a colon, or an unbracketed one with two or more colons, is returned unchanged |
| Spam.HoneypotTrips | spam.go:101-106 | false for an empty field name; otherwise true iff the trimmed value is non-empty |
| Spam.LinkCountCountsEveryLink | spam.go:108-114 | the scanning count equals the number of positions where "http://" or "https://" starts |
| Spam.LinkCountNoScheme | spam.go:108-114 | a body without "://" has no links |
| Spam.CheckBodyContent | spam.go:112-127 | the link limit is checked first (0 disables it); too many links gives "Too many links (max N)"; otherwise any non-empty answer is the blocked-content message |
| Spam.TimestampOutcomes | spam.go:131-146 | not suspicious when disabled or blank; suspicious when not an integer; otherwise suspicious iff the elapsed time is under the minimum |
| Spam.TimestampRoundTrip | spam.go:135-145 | a rendered timestamp is read back, so the check is exactly `now - ts < minSeconds` |
| Handler.ValidSlugIff | handler.go:229-246 | a slug is valid iff it is non-empty and made of letters, digits, '-' and '_'; a valid slug is a single path element |
| Handler.CheckOriginCases | handler.go:168-189 | with an Origin header the check is membership; without it the Referer is judged like a redirect URL; with neither the request is refused |
| Handler.ErrorRedirectOutcome | handler.go:191-203 | redirects iff the URL is non-empty and parses, keeping every query key and setting `comment_error` to the message alone; otherwise 400 with the message |
| Handler.FirstFormFailureWins | handler.go:69-99 | each form error is reported iff every earlier check passed and its own failed |
| Handler.ScreenAcceptsExactly | handler.go:37-99 | a submission is accepted iff every guard passes, and what is accepted is the trimmed form |
| Handler.ScreenEarlyRefusals | handler.go:38-67 | 405 for a non-POST request, 403 for a disallowed origin, 400 for an unparsable form, 403 for a redirect to another origin, in that order |
| Handler.ScreenFormFailure | handler.go:69-99 | a failing form check comes back as a redirect to the submitted URL with its message, or as 400 when no URL was given |
| Handler.ScreenRedirectsOnlyToAllowed | handler.go:63-99 | every redirect the guards produce goes to an allowed origin |
| Handler.ConcludeAccepted | handler.go:112-135 | after acceptance the answer is always a redirect to an allowed origin: with the save or publish error, or to the URL with the fragment `comment-submitted` |
| Handler.HandlerRedirectsOnlyToAllowed | handler.go:37-136 | no response of the endpoint redirects outside the allow-list |
| Handler.Hex | handler.go:248-254 | two lower-case hex digits per byte |
| Handler.UnHexHex | handler.go:248-254 | the hex digits read back to the random bytes |
| Handler.PadValue | handler.go:147 | zero-padding keeps the value and gives the requested width for a number that fits |
| Handler.StampDigits | handler.go:147 | the file-name stamp is 14 digits from which year, month, day, hour, minute and second read back |
| Handler.FileNameIsElement | handler.go:152 | a comment file name is a single path element |
| Handler.FullPathInside | git.go:263-265 | a relative path that stays inside is made absolute by plain concatenation under `/app/repo` |
| Handler.CommentPathShape | handler.go:138-165 | the stored path is `<comments>/<slug>/<14 digits>-<8 hex>.yml`, stays inside the working copy, and is under `/app/repo` |
| Handler.Files.MkdirAll | handler.go:142 | a successful mkdir adds the directory and changes nothing else |
| Handler.Files.WriteFile | handler.go:161 | a successful write replaces the file's content and changes nothing else |
| Handler.CommentHandler.constructor | handler.go:33-35 | the handler keeps the configuration and repository it was given |
| Handler.CommentHandler.WriteComment | handler.go:138-166 | the result is `WriteOutcome`; the directory and the comment file are added exactly when their steps succeed, a failed step being taken to change nothing |
| Handler.CommentHandler.ServeHTTP | handler.go:37-136 | a rejected request answers the guard's response and touches neither files nor repository; an accepted one writes the comment, commits only after a successful write, and answers as `Conclude` says |

## Left out

- `main.go` is not part of this model: process wiring, the HTTP mux, server timeouts and fatal logging. Note that `main.go:53` passes three arguments to `NewCommentHandler`, which takes two (`handler.go:33`).
- Concurrency: the mutexes of `GitRepo` and `RateLimiter` are left out, and every operation is atomic. The cleanup goroutine and its ticker are left out too; `RateLimiter.Sweep` is one tick of the sweep.
- Subprocesses, the network and the filesystem are outcomes supplied by the `Oracle` (git, ssh-keyscan, mkdir/remove/open/append/write on known_hosts) and by `World` (the comment directory and file, the post files). What ssh-keyscan prints is the oracle's `scan`.
- The `GIT_SSH_COMMAND` environment and the working directory of each command are not passed to the oracle. `SshCommand` is modelled, but on its own.
- `.git` existence is a flag of the disk model. `known_hosts` is one string, or none when it cannot be read.
- The handler's `Files` and the synchronizer's disk are separate models of the same filesystem. The commit does not read the comment file back.
- Logging (`log.Printf`, command stdout/stderr) is not modelled.
- `url.Parse` is simplified: no percent-unescaping. A host in brackets is accepted with or without a `:port` after the last `]` (`Urls.BracketedHost`), as Go does, but the text between the brackets is not checked to be an IPv6 address and zones are not decoded. `URL.String` is rendered without escaping. There is no `ForceQuery` field, so a URL ending in a bare `?` (`https://h/p?`) is rendered without it, in `Render` and in the logged form of `SanitizeArgs`.
- `Values.Encode` (key sorting and escaping) is not modelled. A redirect that replaces the query carries the new query values instead of their encoding.
- `Request.ParseForm` is the request's already-parsed form values, or None when parsing fails. This covers the 64 KiB `MaxBytesReader` cap. How body and URL query values merge is not modelled.
- `Header.Get` name canonicalisation is not modelled. The Origin and Referer headers are given directly.
- `yaml.Marshal`: the stored file content is the `Comment` record itself. A marshal error cannot occur for these string fields and is not modelled.
- `filepath.Glob` in `postExists` is the set of post file names, and a post exists iff one starts with `slug + "."`. Glob pattern errors and metacharacters in the posts path are not modelled.
- `regexp`: blocked patterns are opaque match predicates, and whether a pattern compiles is a parameter of loading. The `https?://` link count is modelled concretely.
- Spam.SplitHostPort: modelled for the `host:port` and `[host]:port` forms that `extractIP` meets, with `SplitHostPortIff` stating which addresses split and into what. Zone identifiers and IPv6 validation are left out, and the function's own contract gives only the host's length.
- A failed file operation is taken to have no effect, on known_hosts in `GitTrace.Apply` and on the comment files in `Handler.Files`. Go gives no such guarantee, and the members below inherit the gap.
- GitTrace.ScanAndAppendEffect: on failure known_hosts is stated unchanged. A failed `f.Write` (git.go:102) can append part of the scan output before it fails, and the model does not capture that.
- GitTrace.ScanAndWriteEffect: on failure known_hosts is stated unchanged. `os.WriteFile` (git.go:116) truncates the file before writing, so a failed write can leave it empty or holding part of the scan output. The model does not capture that.
- GitTrace.EnsureHostKeysAppends: "on failure known_hosts keeps its content" holds only because a failed append is taken to have no effect, as for `ScanAndAppendEffect`.
- GitTrace.RefreshHostKeysOverwrites: "unchanged on failure" holds only because a failed write is taken to have no effect, as for `ScanAndWriteEffect`.
- Handler.Files.MkdirAll: records only the requested directory. `os.MkdirAll` (handler.go:142) also creates missing parents and can fail after creating some of them.
- Handler.Files.WriteFile: a failed write leaves the old contents. `os.WriteFile` (handler.go:161) truncates first, so the file can be left empty or partly written.
- Handler.CommentHandler.WriteComment: "added exactly when their steps succeed" rests on the two lines above. A failed mkdir may leave parent directories behind, and a failed write may leave a partial file.
- `time.Now`, `crypto/rand` and `os.Getenv` are parameters. Time is a calendar record for the stamps and nanoseconds for the rate limiter.
- Handler.StampDigits: covers years below 10000 only. Go writes wider years without padding, and that case is not stated.
- Handler.CommentPathShape: assumes a year below 10000, as `StampDigits` does.
- Spam.RateLimiter.Allow: computes `now - window` on unbounded integers. Go's `time.Add` saturates at the extremes of `time.Time`, and that saturation is not modelled.
- Spam.RateLimiter.constructor: does not start the cleanup goroutine, because concurrency is left out. That goroutine calls `time.NewTicker(window)` (spam.go:68), which panics for a zero interval. `LoadConfig` accepts a window of 0 (config.go:89-93), so with a positive maximum the service would fail there. The model has no such failure.
- The handler's spam pipeline is not wired in, because `ServeHTTP` (`handler.go:37-136`) never calls `Allow`, `checkHoneypot`, `checkBodyContent` or `checkTimestamp`. Those checks take the field values as parameters instead of the request.
