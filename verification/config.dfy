/**
 * Loading the service configuration from the process environment: defaults,
 * path and origin validation, and the spam-mitigation tunables.
 */
module Configuration {
  import opened Common
  import Urls
  import opened Paths

  /** The process environment; a missing key reads as "" (os.Getenv). */
  type Env = map<string, string>

  const BranchKey := "STATICOMMENT_BRANCH"
  const CommentsPathKey := "STATICOMMENT_COMMENTS_PATH"
  const PostsPathKey := "STATICOMMENT_POSTS_PATH"
  const PortKey := "STATICOMMENT_PORT"
  const SshKeyPathKey := "STATICOMMENT_SSH_KEY_PATH"
  const SshInsecureKey := "STATICOMMENT_SSH_INSECURE"
  const GitRepoKey := "STATICOMMENT_GIT_REPO"
  const AllowedOriginsKey := "STATICOMMENT_ALLOWED_ORIGINS"
  const HoneypotFieldKey := "STATICOMMENT_HONEYPOT_FIELD"
  const RateLimitWindowKey := "STATICOMMENT_RATE_LIMIT_WINDOW"
  const RateLimitMaxKey := "STATICOMMENT_RATE_LIMIT_MAX"
  const MaxLinksKey := "STATICOMMENT_MAX_LINKS"
  const BlockedPatternsKey := "STATICOMMENT_BLOCKED_PATTERNS"
  const MinSubmitTimeKey := "STATICOMMENT_MIN_SUBMIT_TIME"

  const DefaultBranch := "main"
  const DefaultCommentsPath := "_data/comments"
  const DefaultPort := "8080"
  const DefaultSshKeyPath := "/app/.ssh/id_ed25519"
  const DefaultHoneypotField := "website"
  const DefaultRateLimitWindow := "60"
  const DefaultRateLimitMax := "5"
  const DefaultMaxLinks := "3"
  const DefaultMinSubmitTime := "5"

  /** A blocked-content pattern, compiled as "(?i)" + source. */
  datatype Pattern = Pattern(source: string)

  datatype Config = Config(
    gitRepo: string,
    branch: string,
    commentsPath: string,
    postsPath: string,
    port: string,
    allowedOrigins: seq<string>,
    sshKeyPath: string,
    sshInsecure: bool,
    honeypotField: string,
    rateLimitWindow: int,
    rateLimitMax: int,
    maxLinks: int,
    blockedPatterns: seq<Pattern>,
    minSubmitTime: int)

  datatype ConfigError =
    | CommentsPathAbsolute
    | CommentsPathEscapes
    | PostsPathAbsolute
    | PostsPathEscapes
    | GitRepoMissing
    | OriginsMissing
    | InvalidOrigin(origin: string)
    | NoOrigins
    | BadRateLimitWindow
    | BadRateLimitMax
    | BadMaxLinks
    | InvalidPattern(pattern: string)
    | BadMinSubmitTime

  function Getenv(env: Env, key: string): string {
    if key in env then env[key] else ""
  }

  /** envOrDefault: the variable's value when it is non-empty, the fallback otherwise. */
  function EnvOrDefault(env: Env, key: string, fallback: string): string {
    var v := Getenv(env, key);
    if v != "" then v else fallback
  }

  /** An allowed origin must parse with both a scheme and a host. */
  predicate ValidOrigin(o: string) {
    var u := Urls.Parse(o);
    u.Some? && u.value.scheme != "" && u.value.host != ""
  }

  /** A non-negative integer setting (strconv.Atoi plus the sign check). */
  function NonNegative(env: Env, key: string, fallback: string): (r: Option<int>)
    ensures var v := ParseInt(EnvOrDefault(env, key, fallback));
      r.Some? <==> v.Some? && v.value >= 0
    ensures r.Some? ==> r == ParseInt(EnvOrDefault(env, key, fallback))
  {
    var v := ParseInt(EnvOrDefault(env, key, fallback));
    if v.None? || v.value < 0 then None else v
  }

  /**
   * The allowed-origins loop: entries are trimmed, blank ones skipped, the
   * first one `valid` rejects is an error, the rest are kept in order.
   * LoadConfig checks with `ValidOrigin`.
   */
  function OriginsFrom(parts: seq<string>, valid: string -> bool): Result<seq<string>, ConfigError>
    decreases |parts|
  {
    if |parts| == 0 then Ok([])
    else
      var o := TrimSpace(parts[0]);
      if o == "" then OriginsFrom(parts[1..], valid)
      else if !valid(o) then Err(InvalidOrigin(o))
      else
        match OriginsFrom(parts[1..], valid)
        case Err(e) => Err(e)
        case Ok(rest) => Ok([o] + rest)
  }

  /** The blocked-patterns loop; `compiles` stands for regexp.Compile succeeding. */
  function PatternsFrom(parts: seq<string>, compiles: string -> bool): Result<seq<Pattern>, ConfigError>
    decreases |parts|
  {
    if |parts| == 0 then Ok([])
    else
      var p := TrimSpace(parts[0]);
      if p == "" then PatternsFrom(parts[1..], compiles)
      else if !compiles("(?i)" + p) then Err(InvalidPattern(p))
      else
        match PatternsFrom(parts[1..], compiles)
        case Err(e) => Err(e)
        case Ok(rest) => Ok([Pattern(p)] + rest)
  }

  /** The non-blank trimmed entries of a comma-separated list, in order. */
  function NonBlankTrimmed(parts: seq<string>): seq<string>
    decreases |parts|
  {
    if |parts| == 0 then []
    else if TrimSpace(parts[0]) == "" then NonBlankTrimmed(parts[1..])
    else [TrimSpace(parts[0])] + NonBlankTrimmed(parts[1..])
  }

  /** The comments and posts directories, cleaned, or the first path rule they break. */
  function LoadPaths(env: Env): Result<(string, string), ConfigError> {
    var comments0 := EnvOrDefault(env, CommentsPathKey, DefaultCommentsPath);
    var posts0 := Getenv(env, PostsPathKey);
    if IsAbs(comments0) then Err(CommentsPathAbsolute)
    else if HasPrefix(Clean(comments0), "..") then Err(CommentsPathEscapes)
    else if posts0 == "" then Ok((Clean(comments0), ""))
    else if IsAbs(posts0) then Err(PostsPathAbsolute)
    else if HasPrefix(Clean(posts0), "..") then Err(PostsPathEscapes)
    else Ok((Clean(comments0), Clean(posts0)))
  }

  /** The allowed origins: the variable is required and must name at least one origin. */
  function LoadOrigins(env: Env): Result<seq<string>, ConfigError> {
    var raw := Getenv(env, AllowedOriginsKey);
    if raw == "" then Err(OriginsMissing)
    else
      match OriginsFrom(Split(raw, ','), ValidOrigin)
      case Err(e) => Err(e)
      case Ok(origins) => if |origins| == 0 then Err(NoOrigins) else Ok(origins)
  }

  /** The spam-mitigation settings, in the order they are read. */
  datatype Tunables = Tunables(window: int, max: int, links: int, patterns: seq<Pattern>, minTime: int)

  function LoadTunables(env: Env, compiles: string -> bool): Result<Tunables, ConfigError> {
    var window := NonNegative(env, RateLimitWindowKey, DefaultRateLimitWindow);
    var max := NonNegative(env, RateLimitMaxKey, DefaultRateLimitMax);
    var links := NonNegative(env, MaxLinksKey, DefaultMaxLinks);
    var blocked := Getenv(env, BlockedPatternsKey);
    var patterns := if blocked != "" then PatternsFrom(Split(blocked, ','), compiles) else Ok([]);
    var minTime := NonNegative(env, MinSubmitTimeKey, DefaultMinSubmitTime);
    if window.None? then Err(BadRateLimitWindow)
    else if max.None? then Err(BadRateLimitMax)
    else if links.None? then Err(BadMaxLinks)
    else if patterns.Err? then Err(patterns.error)
    else if minTime.None? then Err(BadMinSubmitTime)
    else Ok(Tunables(window.value, max.value, links.value, patterns.value, minTime.value))
  }

  /** LoadConfig as a function of the environment: the rules in the order they are checked. */
  function Load(env: Env, compiles: string -> bool): Result<Config, ConfigError> {
    match LoadPaths(env)
    case Err(e) => Err(e)
    case Ok((comments, posts)) =>
      if Getenv(env, GitRepoKey) == "" then Err(GitRepoMissing)
      else
        match LoadOrigins(env)
        case Err(e) => Err(e)
        case Ok(origins) =>
          match LoadTunables(env, compiles)
          case Err(e) => Err(e)
          case Ok(t) =>
            Ok(Config(
              gitRepo := Getenv(env, GitRepoKey),
              branch := EnvOrDefault(env, BranchKey, DefaultBranch),
              commentsPath := comments,
              postsPath := posts,
              port := EnvOrDefault(env, PortKey, DefaultPort),
              allowedOrigins := origins,
              sshKeyPath := EnvOrDefault(env, SshKeyPathKey, DefaultSshKeyPath),
              sshInsecure := Getenv(env, SshInsecureKey) == "1",
              honeypotField := EnvOrDefault(env, HoneypotFieldKey, DefaultHoneypotField),
              rateLimitWindow := t.window,
              rateLimitMax := t.max,
              maxLinks := t.links,
              blockedPatterns := t.patterns,
              minSubmitTime := t.minTime))
  }

  /**
   * LoadConfig: fills the configuration field by field, returning at the
   * first rule that fails.
   */
  method LoadConfig(env: Env, compiles: string -> bool) returns (r: Result<Config, ConfigError>)
    ensures r == Load(env, compiles)
  {
    var branch := EnvOrDefault(env, BranchKey, DefaultBranch);
    var commentsPath := EnvOrDefault(env, CommentsPathKey, DefaultCommentsPath);
    var postsPath := Getenv(env, PostsPathKey);
    var port := EnvOrDefault(env, PortKey, DefaultPort);
    var sshKeyPath := EnvOrDefault(env, SshKeyPathKey, DefaultSshKeyPath);
    var sshInsecure := Getenv(env, SshInsecureKey) == "1";

    if IsAbs(commentsPath) {
      return Err(CommentsPathAbsolute);
    }
    commentsPath := Clean(commentsPath);
    if HasPrefix(commentsPath, "..") {
      return Err(CommentsPathEscapes);
    }
    if postsPath != "" {
      if IsAbs(postsPath) {
        return Err(PostsPathAbsolute);
      }
      postsPath := Clean(postsPath);
      if HasPrefix(postsPath, "..") {
        return Err(PostsPathEscapes);
      }
    }

    assert LoadPaths(env) == Ok((commentsPath, postsPath));
    var gitRepo := Getenv(env, GitRepoKey);
    if gitRepo == "" {
      return Err(GitRepoMissing);
    }

    var origins := Getenv(env, AllowedOriginsKey);
    if origins == "" {
      return Err(OriginsMissing);
    }
    var allowed := ReadOrigins(Split(origins, ','), ValidOrigin);
    if allowed.Err? {
      return Err(allowed.error);
    }
    if |allowed.value| == 0 {
      return Err(NoOrigins);
    }
    assert LoadOrigins(env) == Ok(allowed.value);

    var honeypotField := EnvOrDefault(env, HoneypotFieldKey, DefaultHoneypotField);

    var window := ParseInt(EnvOrDefault(env, RateLimitWindowKey, DefaultRateLimitWindow));
    if window.None? || window.value < 0 {
      return Err(BadRateLimitWindow);
    }
    var max := ParseInt(EnvOrDefault(env, RateLimitMaxKey, DefaultRateLimitMax));
    if max.None? || max.value < 0 {
      return Err(BadRateLimitMax);
    }
    var links := ParseInt(EnvOrDefault(env, MaxLinksKey, DefaultMaxLinks));
    if links.None? || links.value < 0 {
      return Err(BadMaxLinks);
    }

    var blocked := Getenv(env, BlockedPatternsKey);
    var patterns: Result<seq<Pattern>, ConfigError> := Ok([]);
    if blocked != "" {
      patterns := ReadPatterns(Split(blocked, ','), compiles);
      if patterns.Err? {
        return Err(patterns.error);
      }
    }

    var minTime := ParseInt(EnvOrDefault(env, MinSubmitTimeKey, DefaultMinSubmitTime));
    if minTime.None? || minTime.value < 0 {
      return Err(BadMinSubmitTime);
    }

    assert LoadTunables(env, compiles) == Ok(Tunables(window.value, max.value, links.value, patterns.value, minTime.value));
    return Ok(Config(gitRepo, branch, commentsPath, postsPath, port, allowed.value, sshKeyPath, sshInsecure,
                     honeypotField, window.value, max.value, links.value, patterns.value, minTime.value));
  }

  /** The loop over the comma-separated allowed origins. */
  method ReadOrigins(parts: seq<string>, valid: string -> bool) returns (r: Result<seq<string>, ConfigError>)
    ensures r == OriginsFrom(parts, valid)
  {
    var allowed: seq<string> := [];
    var i := 0;
    PrependNothing(OriginsFrom(parts, valid));
    assert parts[0..] == parts;
    while i < |parts|
      invariant 0 <= i <= |parts|
      invariant OriginsFrom(parts, valid) == Prepend(allowed, OriginsFrom(parts[i..], valid))
    {
      OriginsFromStep(parts, i, valid);
      var o := TrimSpace(parts[i]);
      i := i + 1;
      if o == "" {
        continue;
      }
      if !valid(o) {
        return Err(InvalidOrigin(o));
      }
      PrependOne(allowed, o, OriginsFrom(parts[i..], valid));
      allowed := allowed + [o];
    }
    assert parts[i..] == [] && allowed + [] == allowed;
    return Ok(allowed);
  }

  /** The loop over the comma-separated blocked patterns. */
  method ReadPatterns(parts: seq<string>, compiles: string -> bool) returns (r: Result<seq<Pattern>, ConfigError>)
    ensures r == PatternsFrom(parts, compiles)
  {
    var patterns: seq<Pattern> := [];
    var j := 0;
    PrependNothing(PatternsFrom(parts, compiles));
    assert parts[0..] == parts;
    while j < |parts|
      invariant 0 <= j <= |parts|
      invariant PatternsFrom(parts, compiles) == Prepend(patterns, PatternsFrom(parts[j..], compiles))
    {
      PatternsFromStep(parts, j, compiles);
      var p := TrimSpace(parts[j]);
      j := j + 1;
      if p == "" {
        continue;
      }
      if !compiles("(?i)" + p) {
        return Err(InvalidPattern(p));
      }
      PrependOne(patterns, Pattern(p), PatternsFrom(parts[j..], compiles));
      patterns := patterns + [Pattern(p)];
    }
    assert parts[j..] == [] && patterns + [] == patterns;
    return Ok(patterns);
  }

  /** The entries a loop has kept so far, in front of what the rest of the loop gives. */
  function Prepend<T>(done: seq<T>, rest: Result<seq<T>, ConfigError>): Result<seq<T>, ConfigError> {
    match rest
    case Err(e) => Err(e)
    case Ok(l) => Ok(done + l)
  }

  lemma PrependNothing<T>(rest: Result<seq<T>, ConfigError>)
    ensures Prepend([], rest) == rest
  {
    if rest.Ok? {
      assert [] + rest.value == rest.value;
    }
  }

  lemma PrependOne<T>(done: seq<T>, x: T, rest: Result<seq<T>, ConfigError>)
    ensures Prepend(done, Prepend([x], rest)) == Prepend(done + [x], rest)
  {
    if rest.Ok? {
      assert done + ([x] + rest.value) == (done + [x]) + rest.value;
    }
  }

  lemma OriginsFromStep(parts: seq<string>, i: nat, valid: string -> bool)
    requires i < |parts|
    ensures var o := TrimSpace(parts[i]);
      OriginsFrom(parts[i..], valid) ==
        if o == "" then OriginsFrom(parts[i + 1..], valid)
        else if !valid(o) then Err(InvalidOrigin(o))
        else Prepend([o], OriginsFrom(parts[i + 1..], valid))
  {
    assert parts[i..][1..] == parts[i + 1..];
  }

  lemma PatternsFromStep(parts: seq<string>, j: nat, compiles: string -> bool)
    requires j < |parts|
    ensures var p := TrimSpace(parts[j]);
      PatternsFrom(parts[j..], compiles) ==
        if p == "" then PatternsFrom(parts[j + 1..], compiles)
        else if !compiles("(?i)" + p) then Err(InvalidPattern(p))
        else Prepend([Pattern(p)], PatternsFrom(parts[j + 1..], compiles))
  {
    assert parts[j..][1..] == parts[j + 1..];
  }

  // ------------------------------------------------------------------
  // Properties of Load
  // ------------------------------------------------------------------

  /** Every entry of `l` passes `valid`. */
  predicate AllValid(l: seq<string>, valid: string -> bool) {
    forall i :: 0 <= i < |l| ==> valid(l[i])
  }

  lemma AllValidCons(o: string, l: seq<string>, valid: string -> bool)
    ensures AllValid([o] + l, valid) <==> valid(o) && AllValid(l, valid)
  {
    var ol := [o] + l;
    assert ol[0] == o;
    if valid(o) && AllValid(l, valid) {
      forall i | 0 <= i < |ol| ensures valid(ol[i]) {
        if i > 0 {
          assert ol[i] == l[i - 1];
        }
      }
    }
    if AllValid(ol, valid) {
      forall i | 0 <= i < |l| ensures valid(l[i]) {
        assert l[i] == ol[i + 1];
      }
    }
  }

  /**
   * A successful origin list is exactly the non-blank trimmed entries, in
   * input order; the load succeeds exactly when every one of them is valid,
   * and a failure names an entry that is not.
   */
  lemma {:induction false} OriginsFromKeepsOrder(parts: seq<string>, valid: string -> bool)
    ensures OriginsFrom(parts, valid).Ok? ==> OriginsFrom(parts, valid).value == NonBlankTrimmed(parts)
    ensures OriginsFrom(parts, valid).Ok? <==> AllValid(NonBlankTrimmed(parts), valid)
    ensures OriginsFrom(parts, valid).Err? ==>
      OriginsFrom(parts, valid).error.InvalidOrigin? && !valid(OriginsFrom(parts, valid).error.origin)
    decreases |parts|
  {
    if |parts| > 0 {
      var tail := parts[1..];
      OriginsFromKeepsOrder(tail, valid);
      var o := TrimSpace(parts[0]);
      if o != "" {
        AllValidCons(o, NonBlankTrimmed(tail), valid);
      }
    }
  }

  /** Every kept origin is non-empty and has no surrounding white space. */
  lemma {:induction false} NonBlankTrimmedAreTrimmed(parts: seq<string>)
    ensures forall i :: 0 <= i < |NonBlankTrimmed(parts)| ==>
      var o := NonBlankTrimmed(parts)[i];
      o != "" && !IsSpace(o[0]) && !IsSpace(o[|o| - 1])
    decreases |parts|
  {
    if |parts| > 0 {
      NonBlankTrimmedAreTrimmed(parts[1..]);
    }
  }

  /** Cleaning a path made only of real elements changes nothing. */
  lemma CleanOfInside(elems: seq<string>)
    requires |elems| >= 1 && forall i :: 0 <= i < |elems| ==> Normal(elems[i])
    ensures Clean(Join(elems, '/')) == Join(elems, '/')
  {
    SplitJoin(elems, '/');
    ReduceOfNormal(elems, false);
    JoinStartsWithFirst(elems, '/');
  }

  /** Accepted directories are relative and cannot name anything outside the working copy. */
  lemma LoadPathsSafe(env: Env)
    requires LoadPaths(env).Ok?
    ensures var (comments, posts) := LoadPaths(env).value;
      && !IsAbs(comments) && Inside(comments) && !HasPrefix(comments, "..")
      && (posts != "" ==> !IsAbs(posts) && Inside(posts) && !HasPrefix(posts, ".."))
      && (posts == "" <==> Getenv(env, PostsPathKey) == "")
  {
    var comments0 := EnvOrDefault(env, CommentsPathKey, DefaultCommentsPath);
    CleanedRelativeStaysInside(comments0);
    CleanNeverAbsolute(comments0);
    var posts0 := Getenv(env, PostsPathKey);
    if posts0 != "" {
      CleanedRelativeStaysInside(posts0);
      CleanNeverAbsolute(posts0);
    }
  }

  /** Accepted origins are the non-blank trimmed entries, in order, at least one, all valid. */
  lemma LoadOriginsValid(env: Env)
    requires LoadOrigins(env).Ok?
    ensures var origins := LoadOrigins(env).value;
      && |origins| > 0
      && origins == NonBlankTrimmed(Split(Getenv(env, AllowedOriginsKey), ','))
      && AllValid(origins, ValidOrigin)
  {
    OriginsFromKeepsOrder(Split(Getenv(env, AllowedOriginsKey), ','), ValidOrigin);
  }

  /**
   * What a successful load guarantees: the comments directory (and the posts
   * directory when set) is relative and stays inside the working copy, the
   * repository is named, at least one trimmed, valid origin is allowed, every
   * tunable is a non-negative integer read from its variable or default, and
   * SSH host checking is off exactly when STATICOMMENT_SSH_INSECURE is "1".
   */
  lemma LoadOkGuarantees(env: Env, compiles: string -> bool)
    requires Load(env, compiles).Ok?
    ensures var c := Load(env, compiles).value;
      && !IsAbs(c.commentsPath) && Inside(c.commentsPath)
      && (c.postsPath != "" ==> !IsAbs(c.postsPath) && Inside(c.postsPath))
      && (c.postsPath == "" <==> Getenv(env, PostsPathKey) == "")
      && c.gitRepo == Getenv(env, GitRepoKey) != ""
      && |c.allowedOrigins| > 0
      && c.allowedOrigins == NonBlankTrimmed(Split(Getenv(env, AllowedOriginsKey), ','))
      && AllValid(c.allowedOrigins, ValidOrigin)
      && c.sshInsecure == (Getenv(env, SshInsecureKey) == "1")
  {
    LoadPathsSafe(env);
    LoadOriginsValid(env);
  }

  /** Every accepted tunable is a non-negative integer read from its variable or default. */
  lemma LoadTunablesValid(env: Env, compiles: string -> bool)
    requires LoadTunables(env, compiles).Ok?
    ensures var t := LoadTunables(env, compiles).value;
      && t.window >= 0 && ParseInt(EnvOrDefault(env, RateLimitWindowKey, DefaultRateLimitWindow)) == Some(t.window)
      && t.max >= 0 && ParseInt(EnvOrDefault(env, RateLimitMaxKey, DefaultRateLimitMax)) == Some(t.max)
      && t.links >= 0 && ParseInt(EnvOrDefault(env, MaxLinksKey, DefaultMaxLinks)) == Some(t.links)
      && t.minTime >= 0 && ParseInt(EnvOrDefault(env, MinSubmitTimeKey, DefaultMinSubmitTime)) == Some(t.minTime)
  {
    var window := NonNegative(env, RateLimitWindowKey, DefaultRateLimitWindow);
    var max := NonNegative(env, RateLimitMaxKey, DefaultRateLimitMax);
    var links := NonNegative(env, MaxLinksKey, DefaultMaxLinks);
    var minTime := NonNegative(env, MinSubmitTimeKey, DefaultMinSubmitTime);
    var t := LoadTunables(env, compiles).value;
    assert t.window == window.value && t.max == max.value && t.links == links.value && t.minTime == minTime.value;
  }

  /** The variable (or its default) reads as a non-negative decimal integer. */
  predicate NonNegativeSetting(env: Env, key: string, fallback: string) {
    var v := ParseInt(EnvOrDefault(env, key, fallback));
    v.Some? && v.value >= 0
  }

  /** Every entry of `l` compiles as a case-insensitive pattern. */
  predicate AllCompile(l: seq<string>, compiles: string -> bool) {
    forall i :: 0 <= i < |l| ==> compiles("(?i)" + l[i])
  }

  /** The patterns with the given sources, in order. */
  function AsPatterns(l: seq<string>): (r: seq<Pattern>)
    ensures |r| == |l|
  {
    if |l| == 0 then [] else [Pattern(l[0])] + AsPatterns(l[1..])
  }

  /**
   * The blocked-pattern loop keeps the non-blank trimmed entries in input
   * order; it succeeds exactly when each of them compiles, and a failure
   * names an entry that does not.
   */
  lemma {:induction false} PatternsFromKeepsOrder(parts: seq<string>, compiles: string -> bool)
    ensures PatternsFrom(parts, compiles).Ok? ==> PatternsFrom(parts, compiles).value == AsPatterns(NonBlankTrimmed(parts))
    ensures PatternsFrom(parts, compiles).Ok? <==> AllCompile(NonBlankTrimmed(parts), compiles)
    ensures PatternsFrom(parts, compiles).Err? ==>
      PatternsFrom(parts, compiles).error.InvalidPattern? && !compiles("(?i)" + PatternsFrom(parts, compiles).error.pattern)
    decreases |parts|
  {
    if |parts| > 0 {
      var tail := parts[1..];
      PatternsFromKeepsOrder(tail, compiles);
      var p := TrimSpace(parts[0]);
      if p != "" {
        AllCompileCons(p, NonBlankTrimmed(tail), compiles);
        assert ([p] + NonBlankTrimmed(tail))[1..] == NonBlankTrimmed(tail);
      }
    }
  }

  lemma AllCompileCons(p: string, l: seq<string>, compiles: string -> bool)
    ensures AllCompile([p] + l, compiles) <==> compiles("(?i)" + p) && AllCompile(l, compiles)
  {
    var pl := [p] + l;
    assert pl[0] == p;
    if AllCompile(pl, compiles) {
      forall i | 0 <= i < |l| ensures compiles("(?i)" + l[i]) {
        assert l[i] == pl[i + 1];
      }
    }
  }

  /**
   * The tunables stage succeeds exactly when the window, the maximum, the
   * link limit and the minimum submit time are non-negative integers and,
   * when blocked patterns are given, every one of them compiles.
   */
  lemma LoadTunablesAccepts(env: Env, compiles: string -> bool)
    ensures LoadTunables(env, compiles).Ok? <==>
      && NonNegativeSetting(env, RateLimitWindowKey, DefaultRateLimitWindow)
      && NonNegativeSetting(env, RateLimitMaxKey, DefaultRateLimitMax)
      && NonNegativeSetting(env, MaxLinksKey, DefaultMaxLinks)
      && NonNegativeSetting(env, MinSubmitTimeKey, DefaultMinSubmitTime)
      && (Getenv(env, BlockedPatternsKey) == ""
          || AllCompile(NonBlankTrimmed(Split(Getenv(env, BlockedPatternsKey), ',')), compiles))
    ensures LoadTunables(env, compiles).Ok? && Getenv(env, BlockedPatternsKey) != "" ==>
      LoadTunables(env, compiles).value.patterns == AsPatterns(NonBlankTrimmed(Split(Getenv(env, BlockedPatternsKey), ',')))
  {
    var window := NonNegative(env, RateLimitWindowKey, DefaultRateLimitWindow);
    var max := NonNegative(env, RateLimitMaxKey, DefaultRateLimitMax);
    var links := NonNegative(env, MaxLinksKey, DefaultMaxLinks);
    var minTime := NonNegative(env, MinSubmitTimeKey, DefaultMinSubmitTime);
    var blocked := Getenv(env, BlockedPatternsKey);
    var patterns := if blocked != "" then PatternsFrom(Split(blocked, ','), compiles) else Ok([]);
    assert LoadTunables(env, compiles).Ok? <==>
      window.Some? && max.Some? && links.Some? && patterns.Ok? && minTime.Some?;
    assert window.Some? == NonNegativeSetting(env, RateLimitWindowKey, DefaultRateLimitWindow);
    assert max.Some? == NonNegativeSetting(env, RateLimitMaxKey, DefaultRateLimitMax);
    assert links.Some? == NonNegativeSetting(env, MaxLinksKey, DefaultMaxLinks);
    assert minTime.Some? == NonNegativeSetting(env, MinSubmitTimeKey, DefaultMinSubmitTime);
    PatternsFromKeepsOrder(Split(blocked, ','), compiles);
  }

  /** The value of an optional variable when set and non-empty, its default otherwise. */
  predicate SetOrDefault(env: Env, key: string, fallback: string, v: string) {
    && (key in env && env[key] != "" ==> v == env[key])
    && (key !in env || env[key] == "" ==> v == fallback)
  }

  /**
   * A loaded configuration carries the branch, the port, the SSH key path
   * and the honeypot field name verbatim when their variables are set and
   * non-empty, and their defaults otherwise; the repository is the
   * variable's value.
   */
  lemma LoadOptionalVerbatim(env: Env, compiles: string -> bool)
    requires Load(env, compiles).Ok?
    ensures var c := Load(env, compiles).value;
      && SetOrDefault(env, BranchKey, "main", c.branch)
      && SetOrDefault(env, PortKey, "8080", c.port)
      && SetOrDefault(env, SshKeyPathKey, "/app/.ssh/id_ed25519", c.sshKeyPath)
      && SetOrDefault(env, HoneypotFieldKey, "website", c.honeypotField)
      && GitRepoKey in env && c.gitRepo == env[GitRepoKey]
  {
  }

  /** The tunables of a successful load are those its tunables stage accepted. */
  lemma LoadOkTunables(env: Env, compiles: string -> bool)
    requires Load(env, compiles).Ok?
    ensures LoadTunables(env, compiles).Ok?
    ensures var c := Load(env, compiles).value;
      var t := LoadTunables(env, compiles).value;
      c.rateLimitWindow == t.window && c.rateLimitMax == t.max && c.maxLinks == t.links
      && c.blockedPatterns == t.patterns && c.minSubmitTime == t.minTime
  {
  }

  /** Cleaning a relative path gives a relative path. */
  lemma CleanNeverAbsolute(p: string)
    requires !IsAbs(p)
    ensures !IsAbs(Clean(p))
  {
    var r := Reduce(Split(p, '/'), false);
    SplitParts(p, '/');
    ReduceIsClean(Split(p, '/'), false);
    if r != [] {
      JoinStartsWithFirst(r, '/');
    }
  }

  /**
   * The rules are checked in order and each failure has its own error: an
   * absolute comments path, a comments path escaping the repository, the
   * same two for a non-empty posts path, a missing repository, a missing
   * origin list, an origin list with nothing in it.
   */
  lemma LoadRuleOrder(env: Env, compiles: string -> bool)
    ensures IsAbs(EnvOrDefault(env, CommentsPathKey, DefaultCommentsPath))
      ==> Load(env, compiles) == Err(CommentsPathAbsolute)
    ensures var comments0 := EnvOrDefault(env, CommentsPathKey, DefaultCommentsPath);
      !IsAbs(comments0) && HasPrefix(Clean(comments0), "..")
      ==> Load(env, compiles) == Err(CommentsPathEscapes)
    ensures PathsAccepted(env) && Getenv(env, PostsPathKey) != "" && IsAbs(Getenv(env, PostsPathKey))
      ==> Load(env, compiles) == Err(PostsPathAbsolute)
    ensures var posts0 := Getenv(env, PostsPathKey);
      PathsAccepted(env) && posts0 != "" && !IsAbs(posts0) && HasPrefix(Clean(posts0), "..")
      ==> Load(env, compiles) == Err(PostsPathEscapes)
    ensures PathsAccepted(env) && PostsAccepted(env) && Getenv(env, GitRepoKey) == ""
      ==> Load(env, compiles) == Err(GitRepoMissing)
    ensures PathsAccepted(env) && PostsAccepted(env) && Getenv(env, GitRepoKey) != ""
      && Getenv(env, AllowedOriginsKey) == ""
      ==> Load(env, compiles) == Err(OriginsMissing)
    ensures PathsAccepted(env) && PostsAccepted(env) && Getenv(env, GitRepoKey) != ""
      && Getenv(env, AllowedOriginsKey) != ""
      && NonBlankTrimmed(Split(Getenv(env, AllowedOriginsKey), ',')) == []
      ==> Load(env, compiles) == Err(NoOrigins)
  {
    LoadPathsRules(env);
    LoadOriginsRules(env);
  }

  /** The path rules of LoadConfig, in order. */
  lemma LoadPathsRules(env: Env)
    ensures IsAbs(EnvOrDefault(env, CommentsPathKey, DefaultCommentsPath)) ==> LoadPaths(env) == Err(CommentsPathAbsolute)
    ensures var comments0 := EnvOrDefault(env, CommentsPathKey, DefaultCommentsPath);
      !IsAbs(comments0) && HasPrefix(Clean(comments0), "..") ==> LoadPaths(env) == Err(CommentsPathEscapes)
    ensures PathsAccepted(env) && Getenv(env, PostsPathKey) != "" && IsAbs(Getenv(env, PostsPathKey))
      ==> LoadPaths(env) == Err(PostsPathAbsolute)
    ensures var posts0 := Getenv(env, PostsPathKey);
      PathsAccepted(env) && posts0 != "" && !IsAbs(posts0) && HasPrefix(Clean(posts0), "..")
      ==> LoadPaths(env) == Err(PostsPathEscapes)
    ensures PathsAccepted(env) && PostsAccepted(env) ==> LoadPaths(env).Ok?
  {
  }

  /** The origin rules of LoadConfig: the variable must be set and name at least one origin. */
  lemma LoadOriginsRules(env: Env)
    ensures Getenv(env, AllowedOriginsKey) == "" ==> LoadOrigins(env) == Err(OriginsMissing)
    ensures Getenv(env, AllowedOriginsKey) != "" && NonBlankTrimmed(Split(Getenv(env, AllowedOriginsKey), ',')) == []
      ==> LoadOrigins(env) == Err(NoOrigins)
  {
    OriginsFromKeepsOrder(Split(Getenv(env, AllowedOriginsKey), ','), ValidOrigin);
  }

  predicate PathsAccepted(env: Env) {
    var comments0 := EnvOrDefault(env, CommentsPathKey, DefaultCommentsPath);
    !IsAbs(comments0) && !HasPrefix(Clean(comments0), "..")
  }

  predicate PostsAccepted(env: Env) {
    var posts0 := Getenv(env, PostsPathKey);
    posts0 == "" || (!IsAbs(posts0) && !HasPrefix(Clean(posts0), ".."))
  }

  /** A negative or non-numeric tunable makes the whole load fail. */
  lemma BadTunableFails(env: Env, compiles: string -> bool, key: string, fallback: string)
    requires (key, fallback) in {(RateLimitWindowKey, DefaultRateLimitWindow), (RateLimitMaxKey, DefaultRateLimitMax),
                                 (MaxLinksKey, DefaultMaxLinks), (MinSubmitTimeKey, DefaultMinSubmitTime)}
    requires var v := ParseInt(EnvOrDefault(env, key, fallback)); v.None? || v.value < 0
    ensures Load(env, compiles).Err?
  {
    assert !NonNegativeSetting(env, key, fallback);
    assert LoadTunables(env, compiles).Err? by {
      LoadTunablesAccepts(env, compiles);
    }
  }

  /** The optional variables: everything except the repository and the origins. */
  predicate OnlyRequired(env: Env) {
    env.Keys <= {GitRepoKey, AllowedOriginsKey}
  }

  /** The default comments path is already clean. */
  lemma DefaultCommentsPathClean()
    ensures Clean("_data/comments") == "_data/comments"
  {
    JoinDefaultCommentsPath();
    CleanOfInside(["_data", "comments"]);
  }

  lemma JoinDefaultCommentsPath()
    ensures Join(["_data", "comments"], '/') == "_data/comments"
  {
  }

  /** The default comments path is relative and does not climb out of the working copy. */
  lemma DefaultCommentsPathRelative()
    ensures !IsAbs("_data/comments") && !HasPrefix("_data/comments", "..")
  {
    var d := "_data/comments";
    assert d[..2][0] == d[0] == '_';
  }

  lemma DefaultPaths(env: Env)
    requires CommentsPathKey !in env && PostsPathKey !in env
    ensures LoadPaths(env) == Ok(("_data/comments", ""))
  {
    DefaultCommentsPathClean();
    DefaultCommentsPathRelative();
  }

  lemma DefaultTunables(env: Env, compiles: string -> bool)
    requires RateLimitWindowKey !in env && RateLimitMaxKey !in env && MaxLinksKey !in env
    requires BlockedPatternsKey !in env && MinSubmitTimeKey !in env
    ensures LoadTunables(env, compiles) == Ok(Tunables(60, 5, 3, [], 5))
  {
    ParseIntFormat(60);
    ParseIntFormat(5);
    ParseIntFormat(3);
    assert IntToString(60) == "60";
  }

  /**
   * With every optional variable unset, the load succeeds exactly when the
   * repository is named and the origins are accepted, and then uses the
   * defaults: branch main, comments under _data/comments, no post
   * validation, port 8080, the key /app/.ssh/id_ed25519 with host checking
   * on, honeypot field "website", a 60-second window of 5 requests, at most
   * 3 links, a 5-second minimum submit time and no blocked patterns.
   */
  lemma LoadDefaults(env: Env, compiles: string -> bool)
    requires OnlyRequired(env)
    ensures Load(env, compiles).Ok? <==> Getenv(env, GitRepoKey) != "" && LoadOrigins(env).Ok?
    ensures Load(env, compiles).Ok? ==>
      var c := Load(env, compiles).value;
      && c.branch == "main" && c.commentsPath == "_data/comments" && c.postsPath == ""
      && c.port == "8080" && c.sshKeyPath == "/app/.ssh/id_ed25519" && !c.sshInsecure
      && c.honeypotField == "website"
      && c.rateLimitWindow == 60 && c.rateLimitMax == 5 && c.maxLinks == 3 && c.minSubmitTime == 5
      && c.blockedPatterns == []
  {
    assert CommentsPathKey !in env && PostsPathKey !in env;
    assert RateLimitWindowKey !in env && RateLimitMaxKey !in env && MaxLinksKey !in env;
    assert BlockedPatternsKey !in env && MinSubmitTimeKey !in env;
    assert BranchKey !in env && PortKey !in env && SshKeyPathKey !in env;
    assert SshInsecureKey !in env && HoneypotFieldKey !in env;
    DefaultPaths(env);
    DefaultTunables(env, compiles);
  }
}
