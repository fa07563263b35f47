/**
 * The git synchronizer as functions of an outcome oracle: which commands and
 * file operations run, in which order, what they do to the disk, and what
 * each operation returns. The class in git_repo.dfy performs the same steps
 * one at a time and is proved to follow these functions.
 */
module GitTrace {
  import opened Common
  import Urls
  import opened Configuration

  const RepoDir := "/app/repo"
  const KnownHostsPath := "/app/.ssh/known_hosts"
  /** filepath.Dir(KnownHostsPath) */
  const SshDir := "/app/.ssh"
  /** The working directory of `git clone`. */
  const CloneDir := "/app"
  const PushMaxRetries := 3
  const CommitterEmail := "staticomment@quietlife.net"
  const CommitterName := "staticomment"

  /** Everything the synchronizer does outside the process. */
  datatype Effect =
    | Git(dir: string, args: seq<string>)   // `git args...` run in `dir`
    | KeyScan(host: string)                 // `ssh-keyscan host`
    | MkdirAll(path: string)
    | RemoveAll(path: string)
    | OpenAppend(path: string)              // open with O_APPEND|O_CREATE|O_WRONLY
    | Append(path: string, data: string)    // write through the append handle
    | WriteFile(path: string, data: string) // truncate and write

  /** One effect and whether it succeeded. */
  datatype Step = Step(effect: Effect, ok: bool)

  /**
   * The outside world: whether the n-th effect succeeds, and what
   * `ssh-keyscan` prints when it is the n-th effect.
   */
  datatype Oracle = Oracle(ok: (Effect, nat) -> bool, scan: (string, nat) -> string)

  /** The part of the filesystem the synchronizer reads: known_hosts and repo/.git. */
  datatype Disk = Disk(knownHosts: Option<string>, gitDir: bool)

  /** The disk and every step taken so far. */
  datatype St = St(disk: Disk, log: seq<Step>)

  datatype GitError =
    | NoHost(repo: string)       // "could not extract host from repo URL"
    | KeyScanFailed(host: string)
    | CreateSshDir
    | OpenKnownHosts
    | AppendKnownHosts
    | WriteKnownHosts
    | CreateRepoDir
    | CloneFailed               // "git clone: ..." (the first clone's error when the refresh fails)
    | RemoveRepoDir
    | CreateRepoDirRetry
    | ConfigEmail
    | ConfigName
    | PullFailed                // pullLocked's own error
    | PullBeforeCommit
    | AddFailed
    | CommitFailed
    | PullDuringRetry
    | PushExhausted(attempts: nat)

  // ------------------------------------------------------------------
  // Commands
  // ------------------------------------------------------------------

  function CloneCmd(cfg: Config): Effect {
    Git(CloneDir, ["clone", "--branch", cfg.branch, "--single-branch", cfg.gitRepo, RepoDir])
  }

  const PullCmd := Git(RepoDir, ["pull", "--rebase"])
  const PushCmd := Git(RepoDir, ["push"])
  const AbortCmd := Git(RepoDir, ["rebase", "--abort"])
  const EmailCmd := Git(RepoDir, ["config", "user.email", CommitterEmail])
  const NameCmd := Git(RepoDir, ["config", "user.name", CommitterName])

  function AddCmd(filePath: string): Effect {
    Git(RepoDir, ["add", filePath])
  }

  function CommitMessage(slug: string): string {
    "Add comment on " + slug
  }

  function CommitCmd(slug: string): Effect {
    Git(RepoDir, ["commit", "-m", CommitMessage(slug)])
  }

  predicate IsClone(e: Effect) {
    e.Git? && |e.args| > 0 && e.args[0] == "clone"
  }

  /** What a step does to the disk; a failed step leaves it as it was. */
  function Apply(d: Disk, e: Effect, ok: bool): Disk {
    if !ok then d
    else
      match e
      case Git(dir, args) => if IsClone(e) then d.(gitDir := true) else d
      case RemoveAll(p) => if p == RepoDir then d.(gitDir := false) else d
      case OpenAppend(p) => if p == KnownHostsPath then d.(knownHosts := Some(d.knownHosts.GetOr(""))) else d
      case Append(p, data) => if p == KnownHostsPath then d.(knownHosts := Some(d.knownHosts.GetOr("") + data)) else d
      case WriteFile(p, data) => if p == KnownHostsPath then d.(knownHosts := Some(data)) else d
      case _ => d
  }

  /** Performs one effect: the oracle decides, the disk follows, the step is logged. */
  function Do(o: Oracle, st: St, e: Effect): (St, bool) {
    var ok := o.ok(e, |st.log|);
    (St(Apply(st.disk, e, ok), st.log + [Step(e, ok)]), ok)
  }

  /** The steps taken since `st`. */
  function Since(st: St, st': St): seq<Step>
    requires |st.log| <= |st'.log|
  {
    st'.log[|st.log|..]
  }

  /** `st'` continues `st`: the earlier steps are kept. */
  predicate Extends(st: St, st': St) {
    |st.log| <= |st'.log| && st'.log[..|st.log|] == st.log
  }

  // ------------------------------------------------------------------
  // Pure helpers
  // ------------------------------------------------------------------

  /** GIT_SSH_COMMAND for every git command. */
  function SshCommand(cfg: Config): string {
    "ssh -i " + cfg.sshKeyPath + " -o "
    + if cfg.sshInsecure then "StrictHostKeyChecking=no -o UserKnownHostsFile=/dev/null"
      else "UserKnownHostsFile=" + KnownHostsPath
  }

  /** extractHost: scp-style "user@host:path" first, then a URL's hostname. */
  function ExtractHost(repo: string): string {
    if '@' in repo && ':' in repo && !Contains(repo, "://") then
      var afterAt := repo[IndexOf(repo, '@') + 1..];
      Urls.Cut(afterAt, ':').0
    else
      match Urls.Parse(repo)
      case None => ""
      case Some(u) => Urls.Hostname(u)
  }

  /** A known_hosts line for `host`: "host key..." or "host,alias key...". */
  predicate NamesHost(line: string, host: string) {
    HasPrefix(line, host + " ") || HasPrefix(line, host + ",")
  }

  /** hostInKnownHosts as a property of the file content; an unreadable file knows no host. */
  predicate KnownHost(content: Option<string>, host: string) {
    content.Some? &&
    exists i :: 0 <= i < |Split(content.value, '\n')| && NamesHost(Split(content.value, '\n')[i], host)
  }

  /** The loop of hostInKnownHosts over the lines of known_hosts. */
  method HostInKnownHosts(content: Option<string>, host: string) returns (found: bool)
    ensures found <==> KnownHost(content, host)
  {
    if content.None? {
      return false;
    }
    var lines := Split(content.value, '\n');
    for i := 0 to |lines|
      invariant forall k :: 0 <= k < i ==> !NamesHost(lines[k], host)
    {
      if HasPrefix(lines[i], host + " ") || HasPrefix(lines[i], host + ",") {
        return true;
      }
    }
    return false;
  }

  /** sanitizeArgs for one argument: a URL with userinfo is printed without it. */
  function Sanitize(arg: string): string {
    if Contains(arg, "://") then
      match Urls.Parse(arg)
      case Some(u) => if u.user.Some? then Urls.Render(u.(user := None)) else arg
      case None => arg
    else arg
  }

  /** The loop of sanitizeArgs: every argument sanitized, in place. */
  method SanitizeArgs(args: seq<string>) returns (safe: seq<string>)
    ensures |safe| == |args|
    ensures forall i :: 0 <= i < |args| ==> safe[i] == Sanitize(args[i])
  {
    safe := args;
    for i := 0 to |args|
      invariant |safe| == |args|
      invariant forall k :: 0 <= k < i ==> safe[k] == Sanitize(args[k])
      invariant forall k :: i <= k < |args| ==> safe[k] == args[k]
    {
      safe := safe[i := Sanitize(args[i])];
    }
  }

  // ------------------------------------------------------------------
  // Host keys
  // ------------------------------------------------------------------

  /** ssh-keyscan: the step, whether it succeeded, and its output. */
  function Scan(o: Oracle, st: St, host: string): (St, bool, string) {
    var out := o.scan(host, |st.log|);
    var (st1, ok) := Do(o, st, KeyScan(host));
    (st1, ok, out)
  }

  /** scanAndAppendHostKeys */
  function ScanAndAppend(o: Oracle, st: St, host: string): (St, Result<(), GitError>) {
    var (s1, scanned, out) := Scan(o, st, host);
    if !scanned then (s1, Err(KeyScanFailed(host)))
    else
      var (s2, made) := Do(o, s1, MkdirAll(SshDir));
      if !made then (s2, Err(CreateSshDir))
      else
        var (s3, handle) := Do(o, s2, OpenAppend(KnownHostsPath));
        if !handle then (s3, Err(OpenKnownHosts))
        else
          var (s4, written) := Do(o, s3, Append(KnownHostsPath, out));
          if !written then (s4, Err(AppendKnownHosts)) else (s4, Ok(()))
  }

  /** scanAndWriteHostKeys */
  function ScanAndWrite(o: Oracle, st: St, host: string): (St, Result<(), GitError>) {
    var (s1, scanned, out) := Scan(o, st, host);
    if !scanned then (s1, Err(KeyScanFailed(host)))
    else
      var (s2, made) := Do(o, s1, MkdirAll(SshDir));
      if !made then (s2, Err(CreateSshDir))
      else
        var (s3, written) := Do(o, s2, WriteFile(KnownHostsPath, out));
        if !written then (s3, Err(WriteKnownHosts)) else (s3, Ok(()))
  }

  /** ensureHostKeys */
  function EnsureHostKeys(cfg: Config, o: Oracle, st: St): (St, Result<(), GitError>) {
    if cfg.sshInsecure then (st, Ok(()))
    else
      var host := ExtractHost(cfg.gitRepo);
      if host == "" then (st, Err(NoHost(cfg.gitRepo)))
      else if KnownHost(st.disk.knownHosts, host) then (st, Ok(()))
      else ScanAndAppend(o, st, host)
  }

  /** refreshHostKeys */
  function RefreshHostKeys(cfg: Config, o: Oracle, st: St): (St, Result<(), GitError>) {
    var host := ExtractHost(cfg.gitRepo);
    if host == "" then (st, Err(NoHost(cfg.gitRepo)))
    else ScanAndWrite(o, st, host)
  }

  // ------------------------------------------------------------------
  // Clone, pull, commit and push
  // ------------------------------------------------------------------

  /** pullLocked */
  function Pull(o: Oracle, st: St): (St, Result<(), GitError>) {
    var (s1, ok) := Do(o, st, PullCmd);
    (s1, if ok then Ok(()) else Err(PullFailed))
  }

  /** Setting the committer identity after a fresh clone. */
  function ConfigureIdentity(o: Oracle, st: St): (St, Result<(), GitError>) {
    var (s1, email) := Do(o, st, EmailCmd);
    if !email then (s1, Err(ConfigEmail))
    else
      var (s2, name) := Do(o, s1, NameCmd);
      (s2, if name then Ok(()) else Err(ConfigName))
  }

  /** The single retry after a failed clone: refresh the keys, then clone again. */
  function RetryClone(cfg: Config, o: Oracle, st: St): (St, Result<(), GitError>) {
    var (s1, refreshed) := RefreshHostKeys(cfg, o, st);
    if refreshed.Err? then (s1, Err(CloneFailed)) else Reclone(cfg, o, s1)
  }

  /** The second clone: recreate the directory, clone, set the identity. */
  function Reclone(cfg: Config, o: Oracle, st: St): (St, Result<(), GitError>) {
    var (s1, removed) := Do(o, st, RemoveAll(RepoDir));
    if !removed then (s1, Err(RemoveRepoDir))
    else
      var (s2, made) := Do(o, s1, MkdirAll(RepoDir));
      if !made then (s2, Err(CreateRepoDirRetry))
      else
        var (s3, cloned) := Do(o, s2, CloneCmd(cfg));
        if !cloned then (s3, Err(CloneFailed)) else ConfigureIdentity(o, s3)
  }

  /** Clone after ensureHostKeys, whose error is only logged. */
  function CloneAfterKeys(cfg: Config, o: Oracle, st: St): (St, Result<(), GitError>) {
    if st.disk.gitDir then Pull(o, st)
    else
      var (s1, made) := Do(o, st, MkdirAll(RepoDir));
      if !made then (s1, Err(CreateRepoDir))
      else
        var (s2, cloned) := Do(o, s1, CloneCmd(cfg));
        if cloned then ConfigureIdentity(o, s2)
        else if cfg.sshInsecure then (s2, Err(CloneFailed))
        else RetryClone(cfg, o, s2)
  }

  /** Clone */
  function Clone(cfg: Config, o: Oracle, st: St): (St, Result<(), GitError>) {
    CloneAfterKeys(cfg, o, EnsureHostKeys(cfg, o, st).0)
  }

  /** The push loop from attempt `attempt` on. */
  function PushLoop(o: Oracle, st: St, attempt: nat): (St, Result<(), GitError>)
    decreases PushMaxRetries - attempt
  {
    if attempt >= PushMaxRetries then (st, Err(PushExhausted(PushMaxRetries)))
    else
      var (s1, pushed) := Do(o, st, PushCmd);
      if pushed then (s1, Ok(()))
      else
        var (s2, pulled) := Do(o, s1, PullCmd);
        if !pulled then (Do(o, s2, AbortCmd).0, Err(PullDuringRetry))
        else PushLoop(o, s2, attempt + 1)
  }

  /** CommitAndPush */
  function CommitAndPush(o: Oracle, st: St, filePath: string, slug: string): (St, Result<(), GitError>) {
    var (s1, pulled) := Do(o, st, PullCmd);
    if !pulled then (s1, Err(PullBeforeCommit))
    else
      var (s2, added) := Do(o, s1, AddCmd(filePath));
      if !added then (s2, Err(AddFailed))
      else
        var (s3, committed) := Do(o, s2, CommitCmd(slug));
        if !committed then (s3, Err(CommitFailed))
        else PushLoop(o, s3, 0)
  }

  // ------------------------------------------------------------------
  // Properties: pure helpers
  // ------------------------------------------------------------------

  /**
   * For an scp-style remote "user@host:path" (no "://"), the host is the text
   * after the first '@' up to the next ':'.
   */
  lemma ExtractHostScpStyle(user: string, host: string, path: string)
    requires '@' !in user && ':' !in host
    requires !Contains(user + "@" + host + ":" + path, "://")
    ensures ExtractHost(user + "@" + host + ":" + path) == host
  {
    var tail := host + [':'] + path;
    var repo := user + ['@'] + tail;
    assert user + "@" + host + ":" + path == repo;
    IndexOfAfter(user, '@', tail);
    assert repo[|user| + 1..] == tail;
    assert repo[|user|] == '@' && repo[|user| + 1 + |host|] == ':';
    IndexOfAfter(host, ':', path);
    assert tail[..|host|] == host;
  }

  /** An scp-style remote without a ':' after its first '@' names everything after the '@'. */
  lemma ExtractHostNoPort(user: string, rest: string)
    requires '@' !in user && ':' !in rest && ':' in user
    requires !Contains(user + "@" + rest, "://")
    ensures ExtractHost(user + "@" + rest) == rest
  {
    var repo := user + "@" + rest;
    IndexOfAfter(user, '@', rest);
    assert repo == user + ['@'] + rest;
    assert repo[|user| + 1..] == rest;
    assert ':' in repo by {
      var j :| 0 <= j < |user| && user[j] == ':';
      assert repo[j] == ':';
    }
  }

  /**
   * Host checking uses the service's own known_hosts file exactly when
   * SSH_INSECURE is off; otherwise it is disabled outright.
   */
  lemma SshCommandTrust(cfg: Config)
    ensures HasPrefix(SshCommand(cfg), "ssh -i " + cfg.sshKeyPath + " -o ")
    ensures !cfg.sshInsecure <==> HasSuffix(SshCommand(cfg), "UserKnownHostsFile=" + KnownHostsPath)
    ensures cfg.sshInsecure <==> HasSuffix(SshCommand(cfg), "StrictHostKeyChecking=no -o UserKnownHostsFile=/dev/null")
  {
    var c := SshCommand(cfg);
    var head := "ssh -i " + cfg.sshKeyPath + " -o ";
    if cfg.sshInsecure {
      var tail := "StrictHostKeyChecking=no -o UserKnownHostsFile=/dev/null";
      assert c == head + tail;
      assert c[..|head|] == head;
      assert c[|c| - |tail|..] == tail;
      var t2 := "UserKnownHostsFile=" + KnownHostsPath;
      assert c[|c| - 1] == 'l' != t2[|t2| - 1];
    } else {
      var tail := "UserKnownHostsFile=" + KnownHostsPath;
      assert c == head + tail;
      assert c[..|head|] == head;
      assert c[|c| - |tail|..] == tail;
      var t2 := "StrictHostKeyChecking=no -o UserKnownHostsFile=/dev/null";
      assert c[|c| - 1] == 's' != t2[|t2| - 1];
    }
  }

  /** Arguments that are not URLs with userinfo are logged as they are. */
  lemma SanitizeKeeps(arg: string)
    requires !Contains(arg, "://") || Urls.Parse(arg).None? || Urls.Parse(arg).value.user.None?
    ensures Sanitize(arg) == arg
  {
  }

  /**
   * A URL argument with userinfo is logged as the same URL without it; the
   * userinfo came from an authority, and the host that is still printed
   * holds no '@'.
   */
  lemma SanitizeDropsUser(arg: string)
    requires Contains(arg, "://") && Urls.Parse(arg).Some? && Urls.Parse(arg).value.user.Some?
    ensures var u := Urls.Parse(arg).value;
      && Sanitize(arg) == Urls.Render(u.(user := None))
      && u.opaquePart == "" && !u.omitHost && '@' !in u.host
  {
  }

  // ------------------------------------------------------------------
  // Properties: host keys
  // ------------------------------------------------------------------

  lemma PrefixTrans(x: string, y: string, z: string)
    requires HasPrefix(x, y) && HasPrefix(y, z)
    ensures HasPrefix(x, z)
  {
    assert x[..|y|][..|z|] == x[..|z|];
  }

  /**
   * Appending text to known_hosts keeps every line of it but the last, whose
   * text is only extended; when the file is empty or ends in a newline, the
   * new lines simply follow the old ones.
   */
  lemma AppendKeepsLines(a: string, b: string)
    ensures |Split(a + b, '\n')| >= |Split(a, '\n')|
    ensures forall i :: 0 <= i < |Split(a, '\n')| - 1 ==> Split(a + b, '\n')[i] == Split(a, '\n')[i]
    ensures HasPrefix(Split(a + b, '\n')[|Split(a, '\n')| - 1], Split(a, '\n')[|Split(a, '\n')| - 1])
    ensures a == "" || a[|a| - 1] == '\n' ==>
      Split(a + b, '\n') == Split(a, '\n')[..|Split(a, '\n')| - 1] + Split(b, '\n')
  {
    SplitExtend(a, b, '\n');
    if a == "" {
      assert a + b == b;
      SplitWhole(a, '\n');
    } else if a[|a| - 1] == '\n' {
      AppendAfterBreak(a, b);
    }
  }

  /** Text appended after a final newline starts a line of its own. */
  lemma AppendAfterBreak(a: string, b: string)
    requires a != "" && a[|a| - 1] == '\n'
    ensures Split(a + b, '\n') == Split(a, '\n')[..|Split(a, '\n')| - 1] + Split(b, '\n')
  {
    var a' := a[..|a| - 1];
    var lines := Split(a', '\n');
    assert Split(a, '\n') == lines + [""] by {
      assert a == a' + ['\n'] + "";
      SplitConcat(a', '\n', "");
      SplitWhole("", '\n');
    }
    assert Split(a + b, '\n') == lines + Split(b, '\n') by {
      assert a + b == a' + ['\n'] + b;
      SplitConcat(a', '\n', b);
    }
    assert (lines + [""])[..|lines|] == lines;
  }

  /** Appending to known_hosts never forgets a host it already names. */
  lemma KnownHostStaysKnown(a: string, b: string, host: string)
    requires KnownHost(Some(a), host)
    ensures KnownHost(Some(a + b), host)
  {
    var la, lb := Split(a, '\n'), Split(a + b, '\n');
    var i :| 0 <= i < |la| && NamesHost(la[i], host);
    AppendKeepsLines(a, b);
    if i < |la| - 1 {
      assert lb[i] == la[i];
    } else if HasPrefix(la[i], host + " ") {
      PrefixTrans(lb[i], la[i], host + " ");
    } else {
      PrefixTrans(lb[i], la[i], host + ",");
    }
    assert NamesHost(lb[i], host);
  }

  /**
   * The steps of a run that follows a fixed script and stops at the first
   * failure: every effect but the last succeeded, the last one as `lastOk` says.
   */
  function Trail(effects: seq<Effect>, lastOk: bool): (r: seq<Step>)
    ensures |r| == |effects|
    ensures forall k :: 0 <= k < |r| ==> r[k].effect == effects[k]
    ensures forall k :: 0 <= k < |r| - 1 ==> r[k].ok
  {
    seq(|effects|, k requires 0 <= k < |effects| => Step(effects[k], k < |effects| - 1 || lastOk))
  }

  /** The script of scanAndAppendHostKeys. */
  function AppendScript(host: string, out: string): seq<Effect> {
    [KeyScan(host), MkdirAll(SshDir), OpenAppend(KnownHostsPath), Append(KnownHostsPath, out)]
  }

  /** The script of scanAndWriteHostKeys. */
  function WriteScript(host: string, out: string): seq<Effect> {
    [KeyScan(host), MkdirAll(SshDir), WriteFile(KnownHostsPath, out)]
  }

  /**
   * scanAndAppendHostKeys runs its script up to the first failure and
   * succeeds exactly when the whole script did; known_hosts gains the scan
   * output on success and keeps its content otherwise.
   */
  lemma ScanAndAppendEffect(o: Oracle, st: St, host: string)
    ensures var (st', r) := ScanAndAppend(o, st, host);
      && Extends(st, st') && RanScript(Since(st, st'), AppendScript(host, o.scan(host, |st.log|)), r.Ok?)
      && st'.disk.gitDir == st.disk.gitDir
      && (r.Ok? ==> st'.disk.knownHosts == Some(st.disk.knownHosts.GetOr("") + o.scan(host, |st.log|)))
      && (r.Err? ==> st'.disk.knownHosts.GetOr("") == st.disk.knownHosts.GetOr(""))
  {
    var out := o.scan(host, |st.log|);
    var script := AppendScript(host, out);
    var (s1, scanned, _) := Scan(o, st, host);
    if !scanned {
      assert Since(st, s1) == Trail(script[..1], false);
    } else {
      var (s2, made) := Do(o, s1, MkdirAll(SshDir));
      if !made {
        assert Since(st, s2) == Trail(script[..2], false);
      } else {
        var (s3, handle) := Do(o, s2, OpenAppend(KnownHostsPath));
        if !handle {
          assert Since(st, s3) == Trail(script[..3], false);
        } else {
          var (s4, written) := Do(o, s3, Append(KnownHostsPath, out));
          assert Since(st, s4) == Trail(script[..4], written);
        }
      }
    }
  }

  /**
   * scanAndWriteHostKeys runs its script up to the first failure; known_hosts
   * becomes exactly the scan output on success and is unchanged otherwise.
   */
  lemma ScanAndWriteEffect(o: Oracle, st: St, host: string)
    ensures var (st', r) := ScanAndWrite(o, st, host);
      && Extends(st, st') && RanScript(Since(st, st'), WriteScript(host, o.scan(host, |st.log|)), r.Ok?)
      && st'.disk.gitDir == st.disk.gitDir
      && (r.Ok? ==> st'.disk.knownHosts == Some(o.scan(host, |st.log|)))
      && (r.Err? ==> st'.disk.knownHosts == st.disk.knownHosts)
  {
    var out := o.scan(host, |st.log|);
    var script := WriteScript(host, out);
    var (s1, scanned, _) := Scan(o, st, host);
    if !scanned {
      assert Since(st, s1) == Trail(script[..1], false);
    } else {
      var (s2, made) := Do(o, s1, MkdirAll(SshDir));
      if !made {
        assert Since(st, s2) == Trail(script[..2], false);
      } else {
        var (s3, written) := Do(o, s2, WriteFile(KnownHostsPath, out));
        assert Since(st, s3) == Trail(script[..3], written);
      }
    }
  }

  lemma ScanAndAppendNoGit(o: Oracle, st: St, host: string)
    ensures var st' := ScanAndAppend(o, st, host).0;
      && Extends(st, st') && st'.disk.gitDir == st.disk.gitDir
      && forall k :: 0 <= k < |Since(st, st')| ==> !Since(st, st')[k].effect.Git?
  {
    ScanAndAppendEffect(o, st, host);
    var steps := Since(st, ScanAndAppend(o, st, host).0);
    var script := AppendScript(host, o.scan(host, |st.log|));
    forall k | 0 <= k < |steps|
      ensures !steps[k].effect.Git?
    {
      assert steps[k].effect == script[k];
    }
  }

  /** ensureHostKeys never touches the working copy and runs no git command. */
  lemma EnsureHostKeysKeepsRepo(cfg: Config, o: Oracle, st: St)
    ensures var st' := EnsureHostKeys(cfg, o, st).0;
      && Extends(st, st') && st'.disk.gitDir == st.disk.gitDir
      && forall k :: 0 <= k < |Since(st, st')| ==> !Since(st, st')[k].effect.Git?
  {
    var host := ExtractHost(cfg.gitRepo);
    if !cfg.sshInsecure && host != "" && !KnownHost(st.disk.knownHosts, host) {
      assert EnsureHostKeys(cfg, o, st) == ScanAndAppend(o, st, host);
      ScanAndAppendNoGit(o, st, host);
    }
  }

  /**
   * ensureHostKeys does nothing with SSH_INSECURE set, fails without a host,
   * and leaves known_hosts alone when it already names the host.
   */
  lemma EnsureHostKeysSkips(cfg: Config, o: Oracle, st: St)
    ensures cfg.sshInsecure ==> EnsureHostKeys(cfg, o, st) == (st, Ok(()))
    ensures !cfg.sshInsecure && ExtractHost(cfg.gitRepo) == "" ==>
      EnsureHostKeys(cfg, o, st) == (st, Err(NoHost(cfg.gitRepo)))
    ensures !cfg.sshInsecure && ExtractHost(cfg.gitRepo) != ""
      && KnownHost(st.disk.knownHosts, ExtractHost(cfg.gitRepo))
      ==> EnsureHostKeys(cfg, o, st) == (st, Ok(()))
  {
  }

  /**
   * Otherwise ensureHostKeys scans the host and appends what it printed;
   * every line known_hosts held before is still there, and once the append
   * succeeded the host is known from then on.
   */
  lemma EnsureHostKeysAppends(cfg: Config, o: Oracle, st: St)
    requires !cfg.sshInsecure && ExtractHost(cfg.gitRepo) != ""
    requires !KnownHost(st.disk.knownHosts, ExtractHost(cfg.gitRepo))
    ensures var (st', r) := EnsureHostKeys(cfg, o, st);
      var host := ExtractHost(cfg.gitRepo);
      var before := st.disk.knownHosts.GetOr("");
      && Extends(st, st') && |st'.log| > |st.log|
      && st'.log[|st.log|].effect == KeyScan(host)
      && st'.disk.gitDir == st.disk.gitDir
      && (r.Ok? ==> st'.disk.knownHosts == Some(before + o.scan(host, |st.log|)))
      && (r.Err? ==> st'.disk.knownHosts.GetOr("") == before)
  {
    var host := ExtractHost(cfg.gitRepo);
    assert EnsureHostKeys(cfg, o, st) == ScanAndAppend(o, st, host);
    ScanAndAppendEffect(o, st, host);
  }

  /**
   * Whatever happens, ensureHostKeys keeps every complete line known_hosts
   * held before at its place.
   */
  lemma EnsureHostKeysKeepsLines(cfg: Config, o: Oracle, st: St)
    ensures var before := Split(st.disk.knownHosts.GetOr(""), '\n');
      var after := Split(EnsureHostKeys(cfg, o, st).0.disk.knownHosts.GetOr(""), '\n');
      |after| >= |before| && forall i :: 0 <= i < |before| - 1 ==> after[i] == before[i]
  {
    var host := ExtractHost(cfg.gitRepo);
    if !cfg.sshInsecure && host != "" && !KnownHost(st.disk.knownHosts, host) {
      EnsureHostKeysAppends(cfg, o, st);
      AppendKeepsLines(st.disk.knownHosts.GetOr(""), o.scan(host, |st.log|));
    }
  }

  /**
   * ensureHostKeys never makes a known host unknown, and on success leaves
   * known_hosts naming the host whenever the scan printed a line for it.
   */
  lemma EnsureHostKeysKeepsKnown(cfg: Config, o: Oracle, st: St, other: string)
    requires KnownHost(st.disk.knownHosts, other)
    ensures KnownHost(EnsureHostKeys(cfg, o, st).0.disk.knownHosts, other)
  {
    if !cfg.sshInsecure {
      var host := ExtractHost(cfg.gitRepo);
      if host != "" && !KnownHost(st.disk.knownHosts, host) {
        ScanAndAppendEffect(o, st, host);
        var st' := EnsureHostKeys(cfg, o, st).0;
        if st'.disk.knownHosts != st.disk.knownHosts {
          KnownHostStaysKnown(st.disk.knownHosts.value, o.scan(host, |st.log|), other);
        }
      }
    }
  }

  /**
   * refreshHostKeys replaces known_hosts with the scan output whatever it held
   * before, and never appends; on failure the file is unchanged.
   */
  lemma RefreshHostKeysOverwrites(cfg: Config, o: Oracle, st: St)
    ensures var (st', r) := RefreshHostKeys(cfg, o, st);
      var host := ExtractHost(cfg.gitRepo);
      && Extends(st, st') && st'.disk.gitDir == st.disk.gitDir
      && (host == "" ==> st' == st && r == Err(NoHost(cfg.gitRepo)))
      && (r.Ok? ==> st'.disk.knownHosts == Some(o.scan(host, |st.log|)))
      && (r.Err? ==> st'.disk.knownHosts == st.disk.knownHosts)
      && forall k :: |st.log| <= k < |st'.log| ==> !st'.log[k].effect.Append? && !st'.log[k].effect.OpenAppend?
  {
    var host := ExtractHost(cfg.gitRepo);
    if host != "" {
      assert RefreshHostKeys(cfg, o, st) == ScanAndWrite(o, st, host);
      ScanAndWriteEffect(o, st, host);
      ScanAndWriteNoAppend(o, st, host);
    }
  }

  lemma ScanAndWriteNoAppend(o: Oracle, st: St, host: string)
    ensures var st' := ScanAndWrite(o, st, host).0;
      |st.log| <= |st'.log| && forall k :: |st.log| <= k < |st'.log| ==> !st'.log[k].effect.Append? && !st'.log[k].effect.OpenAppend?
  {
    var st' := ScanAndWrite(o, st, host).0;
    var script := WriteScript(host, o.scan(host, |st.log|));
    ScanAndWriteEffect(o, st, host);
    var steps := Since(st, st');
    forall k | |st.log| <= k < |st'.log|
      ensures !st'.log[k].effect.Append? && !st'.log[k].effect.OpenAppend?
    {
      assert st'.log[k] == steps[k - |st.log|];
      assert steps[k - |st.log|].effect == script[k - |st.log|];
    }
  }

  // ------------------------------------------------------------------
  // Properties: clone
  // ------------------------------------------------------------------

  lemma SinceConcat(a: St, b: St, c: St)
    requires Extends(a, b) && Extends(b, c)
    ensures Extends(a, c) && Since(a, c) == Since(a, b) + Since(b, c)
  {
    assert c.log[..|a.log|] == c.log[..|b.log|][..|a.log|];
  }

  lemma TrailSnoc(effects: seq<Effect>, n: nat, b: bool)
    requires n < |effects|
    ensures Trail(effects[..n], true) + [Step(effects[n], b)] == Trail(effects[..n + 1], b)
  {
  }

  lemma TrailAppend(a: seq<Effect>, b: seq<Effect>, x: bool)
    requires |b| > 0
    ensures Trail(a, true) + Trail(b, x) == Trail(a + b, x)
  {
  }

  lemma DoStep(o: Oracle, st: St, e: Effect)
    ensures var (st', ok) := Do(o, st, e);
      Extends(st, st') && Since(st, st') == [Step(e, ok)] && ok == o.ok(e, |st.log|)
  {
  }

  /** The committer identity set after a fresh clone. */
  function IdentityScript(): seq<Effect> {
    [EmailCmd, NameCmd]
  }

  /** Setting the identity runs its script up to the first failure and touches no file the model tracks. */
  lemma IdentityEffect(o: Oracle, st: St)
    ensures var (st', r) := ConfigureIdentity(o, st);
      && Extends(st, st') && st'.disk == st.disk
      && RanScript(Since(st, st'), IdentityScript(), r.Ok?)
  {
    var (st', r) := ConfigureIdentity(o, st);
    var (s1, email) := Do(o, st, EmailCmd);
    DoStep(o, st, EmailCmd);
    if !email {
      RanFail(EmailCmd, [NameCmd]);
    } else {
      DoStep(o, s1, NameCmd);
      SinceDo(o, st, EmailCmd, st');
      RanCons(EmailCmd, Since(s1, st'), [NameCmd], r.Ok?);
    }
  }

  /** One failed step runs any script that starts with it, up to that failure. */
  lemma RanFail(e: Effect, rest: seq<Effect>)
    ensures RanScript([Step(e, false)], [e] + rest, false)
  {
    assert ([e] + rest)[..1] == [e];
  }

  /** A run of one script followed by a run of another is a run of both in order. */
  lemma RanThen(pre: seq<Step>, a: seq<Effect>, post: seq<Step>, b: seq<Effect>, ok: bool)
    requires RanScript(pre, a, true) && RanScript(post, b, ok)
    ensures RanScript(pre + post, a + b, ok)
  {
    assert (a + b)[..|pre + post|] == a + b[..|post|];
    TrailAppend(a, b[..|post|], ok);
    assert (pre + post)[|pre + post| - 1] == post[|post| - 1];
  }

  /** A step that succeeded, followed by a run of the rest of its script. */
  lemma RanCons(e: Effect, post: seq<Step>, rest: seq<Effect>, ok: bool)
    requires RanScript(post, rest, ok)
    ensures RanScript([Step(e, true)] + post, [e] + rest, ok)
  {
    assert [Step(e, true)] == Trail([e], true);
    RanThen([Step(e, true)], [e], post, rest, ok);
  }

  /** A script run that failed stays a failed run of any longer script. */
  lemma RanPrefix(steps: seq<Step>, a: seq<Effect>, b: seq<Effect>)
    requires RanScript(steps, a, false)
    ensures RanScript(steps, a + b, false)
  {
    assert (a + b)[..|steps|] == a[..|steps|];
  }

  /** The steps since `st` through one effect and on to `st'`. */
  lemma SinceDo(o: Oracle, st: St, e: Effect, st': St)
    requires Extends(Do(o, st, e).0, st')
    ensures Extends(st, st') && Since(st, st') == [Step(e, Do(o, st, e).1)] + Since(Do(o, st, e).0, st')
  {
    DoStep(o, st, e);
    SinceConcat(st, Do(o, st, e).0, st');
  }

  /** A fresh clone: create the directory, clone, set the identity. */
  function FirstTryScript(cfg: Config): seq<Effect> {
    [MkdirAll(RepoDir), CloneCmd(cfg)] + IdentityScript()
  }

  /** The second clone. */
  function RecloneScript(cfg: Config): seq<Effect> {
    [RemoveAll(RepoDir), MkdirAll(RepoDir), CloneCmd(cfg)] + IdentityScript()
  }

  /**
   * The second clone runs its script up to the first failure, succeeds
   * exactly when the whole script did, and leaves a working copy on success.
   */
  lemma RecloneSteps(cfg: Config, o: Oracle, st: St)
    ensures var (st', r) := Reclone(cfg, o, st);
      && Extends(st, st') && RanScript(Since(st, st'), RecloneScript(cfg), r.Ok?)
      && (r.Ok? ==> st'.disk.gitDir)
  {
    var (st', r) := Reclone(cfg, o, st);
    var cloneOn := [CloneCmd(cfg)] + IdentityScript();
    var mkdirOn := [MkdirAll(RepoDir)] + cloneOn;
    assert RecloneScript(cfg) == [RemoveAll(RepoDir)] + mkdirOn;
    var (s1, removed) := Do(o, st, RemoveAll(RepoDir));
    DoStep(o, st, RemoveAll(RepoDir));
    if !removed {
      RanFail(RemoveAll(RepoDir), mkdirOn);
    } else {
      var (s2, made) := Do(o, s1, MkdirAll(RepoDir));
      DoStep(o, s1, MkdirAll(RepoDir));
      if !made {
        RanFail(MkdirAll(RepoDir), cloneOn);
      } else {
        CloneThenIdentity(cfg, o, s2);
        SinceDo(o, s1, MkdirAll(RepoDir), st');
        RanCons(MkdirAll(RepoDir), Since(s2, st'), cloneOn, r.Ok?);
      }
      SinceDo(o, st, RemoveAll(RepoDir), st');
      RanCons(RemoveAll(RepoDir), Since(s1, st'), mkdirOn, r.Ok?);
    }
  }

  /** A clone, and after a successful one the identity, from `st` on. */
  lemma CloneThenIdentity(cfg: Config, o: Oracle, st: St)
    ensures var (s1, cloned) := Do(o, st, CloneCmd(cfg));
      var (st', r) := if cloned then ConfigureIdentity(o, s1) else (s1, Err(CloneFailed));
      && Extends(st, st') && RanScript(Since(st, st'), [CloneCmd(cfg)] + IdentityScript(), r.Ok?)
      && (r.Ok? ==> st'.disk.gitDir)
  {
    var (s1, cloned) := Do(o, st, CloneCmd(cfg));
    DoStep(o, st, CloneCmd(cfg));
    if cloned {
      var (st', r) := ConfigureIdentity(o, s1);
      IdentityEffect(o, s1);
      SinceDo(o, st, CloneCmd(cfg), st');
      RanCons(CloneCmd(cfg), Since(s1, st'), IdentityScript(), r.Ok?);
    } else {
      RanFail(CloneCmd(cfg), IdentityScript());
    }
  }

  /** The retry after a failed clone: rewrite known_hosts, recreate the directory, clone, set the identity. */
  function RetryScript(cfg: Config, host: string, out: string): seq<Effect> {
    WriteScript(host, out) + RecloneScript(cfg)
  }

  /**
   * The retry runs its script up to the first failure (nothing at all when
   * the remote names no host); it fails with the clone error when the
   * refresh fails, and succeeds exactly when the whole script did.
   */
  lemma RetryCloneSteps(cfg: Config, o: Oracle, st: St)
    ensures var (st', r) := RetryClone(cfg, o, st);
      var host := ExtractHost(cfg.gitRepo);
      && Extends(st, st')
      && ((Since(st, st') == [] && r == Err(CloneFailed))
          || RanScript(Since(st, st'), RetryScript(cfg, host, o.scan(host, |st.log|)), r.Ok?))
      && (|Since(st, st')| <= 3 ==> r == Err(CloneFailed))
      && (r.Ok? ==> st'.disk.gitDir)
  {
    var host := ExtractHost(cfg.gitRepo);
    var out := o.scan(host, |st.log|);
    var (st', r) := RetryClone(cfg, o, st);
    var (s1, refreshed) := RefreshHostKeys(cfg, o, st);
    if host != "" {
      ScanAndWriteEffect(o, st, host);
      if refreshed.Err? {
        RanPrefix(Since(st, s1), WriteScript(host, out), RecloneScript(cfg));
      } else {
        RecloneSteps(cfg, o, s1);
        SinceConcat(st, s1, st');
        RanThen(Since(st, s1), WriteScript(host, out), Since(s1, st'), RecloneScript(cfg), r.Ok?);
      }
    }
  }

  /** With a working copy in place, Clone after the host keys is a single pull. */
  lemma CloneReusesRepo(cfg: Config, o: Oracle, st: St)
    requires st.disk.gitDir
    ensures var (st', r) := CloneAfterKeys(cfg, o, st);
      && Extends(st, st') && Since(st, st') == [Step(PullCmd, r.Ok?)]
      && (r.Err? ==> r == Err(PullFailed))
  {
  }

  /**
   * `steps` ran `script` up to its first failure, and the run succeeded
   * (`ok`) exactly when the whole script completed.
   */
  predicate RanScript(steps: seq<Step>, script: seq<Effect>, ok: bool) {
    1 <= |steps| <= |script| && steps == Trail(script[..|steps|], ok)
    && (ok <==> |steps| == |script| && steps[|steps| - 1].ok)
  }

  /** A failed first clone followed by the retry script, run up to its first failure. */
  predicate RanRetry(steps: seq<Step>, cfg: Config, retry: seq<Effect>, ok: bool) {
    |steps| > 2 && steps[..2] == [Step(MkdirAll(RepoDir), true), Step(CloneCmd(cfg), false)]
    && RanScript(steps[2..], retry, ok)
  }

  /** What follows a failed first clone with host checking on. */
  lemma AfterFailedClone(cfg: Config, o: Oracle, st: St, s2: St, host: string)
    requires Extends(st, s2) && Since(st, s2) == [Step(MkdirAll(RepoDir), true), Step(CloneCmd(cfg), false)]
    requires host == ExtractHost(cfg.gitRepo)
    ensures var (s3, r) := RetryClone(cfg, o, s2);
      && Extends(st, s3) && (r.Ok? ==> s3.disk.gitDir)
      && (RanScript(Since(st, s3), FirstTryScript(cfg), r.Ok?)
          || RanRetry(Since(st, s3), cfg, RetryScript(cfg, host, o.scan(host, |s2.log|)), r.Ok?))
  {
    var (s3, r) := RetryClone(cfg, o, s2);
    RetryCloneSteps(cfg, o, s2);
    SinceConcat(st, s2, s3);
    var steps := Since(st, s3);
    if Since(s2, s3) == [] {
      assert steps == Since(st, s2);
      assert steps == Trail(FirstTryScript(cfg)[..2], false);
    } else {
      assert steps[..2] == Since(st, s2) && steps[2..] == Since(s2, s3);
    }
  }

  /** Unless the first clone failed with host checking on, Clone runs the first-try script. */
  lemma FirstTrySteps(cfg: Config, o: Oracle, st: St)
    requires !st.disk.gitDir
    requires !(o.ok(MkdirAll(RepoDir), |st.log|) && !o.ok(CloneCmd(cfg), |st.log| + 1) && !cfg.sshInsecure)
    ensures var (st', r) := CloneAfterKeys(cfg, o, st);
      && Extends(st, st') && (r.Ok? ==> st'.disk.gitDir)
      && RanScript(Since(st, st'), FirstTryScript(cfg), r.Ok?)
  {
    var (st', r) := CloneAfterKeys(cfg, o, st);
    var cloneOn := [CloneCmd(cfg)] + IdentityScript();
    assert FirstTryScript(cfg) == [MkdirAll(RepoDir)] + cloneOn;
    var (s1, made) := Do(o, st, MkdirAll(RepoDir));
    DoStep(o, st, MkdirAll(RepoDir));
    if !made {
      RanFail(MkdirAll(RepoDir), cloneOn);
    } else {
      CloneThenIdentity(cfg, o, s1);
      SinceDo(o, st, MkdirAll(RepoDir), st');
      RanCons(MkdirAll(RepoDir), Since(s1, st'), cloneOn, r.Ok?);
    }
  }

  /**
   * Without a working copy, Clone either runs the first-try script up to its
   * first failure, or, with host checking on and after a failed first clone,
   * runs the retry script up to its first failure; on success a working
   * copy exists.
   */
  lemma FreshCloneSteps(cfg: Config, o: Oracle, st: St, host: string)
    requires !st.disk.gitDir && host == ExtractHost(cfg.gitRepo)
    ensures var (st', r) := CloneAfterKeys(cfg, o, st);
      var retry := RetryScript(cfg, host, o.scan(host, |st.log| + 2));
      && Extends(st, st') && (r.Ok? ==> st'.disk.gitDir)
      && (RanScript(Since(st, st'), FirstTryScript(cfg), r.Ok?)
          || (!cfg.sshInsecure && RanRetry(Since(st, st'), cfg, retry, r.Ok?)))
  {
    var s1 := Do(o, st, MkdirAll(RepoDir)).0;
    var s2 := Do(o, s1, CloneCmd(cfg)).0;
    if o.ok(MkdirAll(RepoDir), |st.log|) && !o.ok(CloneCmd(cfg), |s1.log|) && !cfg.sshInsecure {
      assert CloneAfterKeys(cfg, o, st) == RetryClone(cfg, o, s2);
      AfterFailedClone(cfg, o, st, s2, host);
    } else {
      FirstTrySteps(cfg, o, st);
    }
  }

  /**
   * A clone runs as the second step and, only when that one failed with host
   * checking on and known_hosts was rewritten since, once more as the eighth.
   */
  predicate ClonesAtMostTwice(steps: seq<Step>, cfg: Config) {
    forall k :: 0 <= k < |steps| && IsClone(steps[k].effect) ==>
      k == 1 || (k == 7 && !cfg.sshInsecure && steps[1] == Step(CloneCmd(cfg), false)
                 && steps[4].effect.WriteFile? && steps[4].effect.path == KnownHostsPath && steps[4].ok)
  }

  /** The committer identity is set only right after a clone that succeeded. */
  predicate IdentityAfterClone(steps: seq<Step>, cfg: Config) {
    forall k :: 0 <= k < |steps| && steps[k].effect == EmailCmd ==>
      k > 0 && steps[k - 1] == Step(CloneCmd(cfg), true)
  }

  lemma FirstTryPositions(steps: seq<Step>, cfg: Config, ok: bool)
    requires RanScript(steps, FirstTryScript(cfg), ok)
    ensures ClonesAtMostTwice(steps, cfg) && IdentityAfterClone(steps, cfg)
  {
    var first := FirstTryScript(cfg);
    forall k | 0 <= k < |steps|
      ensures IsClone(steps[k].effect) ==> k == 1
      ensures steps[k].effect == EmailCmd ==> k > 0 && steps[k - 1] == Step(CloneCmd(cfg), true)
    {
      assert steps[k].effect == first[k];
    }
  }

  lemma RetryPositions(steps: seq<Step>, cfg: Config, host: string, out: string, ok: bool)
    requires !cfg.sshInsecure && RanRetry(steps, cfg, RetryScript(cfg, host, out), ok)
    ensures ClonesAtMostTwice(steps, cfg) && IdentityAfterClone(steps, cfg)
  {
    var retry := RetryScript(cfg, host, out);
    var tail := steps[2..];
    forall k | 0 <= k < |steps|
      ensures IsClone(steps[k].effect) ==> k == 1 || k == 7
      ensures steps[k].effect == EmailCmd ==> k > 0 && steps[k - 1] == Step(CloneCmd(cfg), true)
    {
      if k >= 2 {
        assert steps[k] == tail[k - 2];
        assert tail[k - 2].effect == retry[k - 2];
      } else {
        assert steps[..2][k] == steps[k];
      }
    }
    if |steps| > 7 {
      assert steps[4] == tail[2] && tail[2].effect == retry[2];
      assert steps[..2][1] == steps[1];
    }
  }

  /**
   * Clone without a working copy runs at most two clones, the second only
   * after the first failed with host checking on and known_hosts was
   * rewritten; the identity is set only after a successful clone.
   */
  lemma CloneAtMostTwice(cfg: Config, o: Oracle, st: St)
    requires !st.disk.gitDir
    ensures var steps := Since(st, CloneAfterKeys(cfg, o, st).0);
      ClonesAtMostTwice(steps, cfg) && IdentityAfterClone(steps, cfg)
  {
    var host := ExtractHost(cfg.gitRepo);
    FreshCloneSteps(cfg, o, st, host);
    var (st', r) := CloneAfterKeys(cfg, o, st);
    var steps := Since(st, st');
    if RanScript(steps, FirstTryScript(cfg), r.Ok?) {
      FirstTryPositions(steps, cfg, r.Ok?);
    } else {
      RetryPositions(steps, cfg, host, o.scan(host, |st.log| + 2), r.Ok?);
    }
  }

  /**
   * With a working copy in place and the host already trusted (or SSH_INSECURE
   * set), Clone runs a single pull and nothing else.
   */
  lemma CloneReusesWorkingCopy(cfg: Config, o: Oracle, st: St)
    requires st.disk.gitDir
    requires cfg.sshInsecure || (ExtractHost(cfg.gitRepo) != "" && KnownHost(st.disk.knownHosts, ExtractHost(cfg.gitRepo)))
    ensures var (st', r) := Clone(cfg, o, st);
      && Extends(st, st') && Since(st, st') == [Step(PullCmd, r.Ok?)]
      && (r.Err? ==> r == Err(PullFailed))
  {
    EnsureHostKeysSkips(cfg, o, st);
    CloneReusesRepo(cfg, o, st);
  }

  /**
   * A failure of the host-key step is only logged: Clone still goes on to
   * the working copy, pulling when one exists and creating one otherwise.
   */
  lemma CloneIgnoresKeyErrors(cfg: Config, o: Oracle, st: St)
    requires EnsureHostKeys(cfg, o, st).1.Err?
    ensures var s1 := EnsureHostKeys(cfg, o, st).0;
      var (st', _) := Clone(cfg, o, st);
      && Extends(st, s1) && Extends(s1, st') && |Since(s1, st')| >= 1
      && Since(s1, st')[0].effect == (if s1.disk.gitDir then PullCmd else MkdirAll(RepoDir))
  {
    var s1 := EnsureHostKeys(cfg, o, st).0;
    EnsureHostKeysKeepsRepo(cfg, o, st);
    if s1.disk.gitDir {
      CloneReusesRepo(cfg, o, s1);
    } else {
      FreshCloneSteps(cfg, o, s1, ExtractHost(cfg.gitRepo));
      var steps := Since(s1, Clone(cfg, o, st).0);
      if !RanScript(steps, FirstTryScript(cfg), Clone(cfg, o, st).1.Ok?) {
        assert steps[..2][0] == steps[0];
      }
    }
  }

  /** With SSH_INSECURE set, Clone never runs ssh-keyscan and clones at most once. */
  lemma InsecureCloneNeverScans(cfg: Config, o: Oracle, st: St)
    requires cfg.sshInsecure
    ensures var steps := Since(st, Clone(cfg, o, st).0);
      && (forall k :: 0 <= k < |steps| ==> !steps[k].effect.KeyScan?)
      && (forall k :: 0 <= k < |steps| && IsClone(steps[k].effect) ==> k == 1)
  {
    EnsureHostKeysSkips(cfg, o, st);
    if st.disk.gitDir {
      CloneReusesRepo(cfg, o, st);
    } else {
      FreshCloneSteps(cfg, o, st, ExtractHost(cfg.gitRepo));
      var (st', r) := CloneAfterKeys(cfg, o, st);
      var steps := Since(st, st');
      FirstTryPositions(steps, cfg, r.Ok?);
      forall k | 0 <= k < |steps|
        ensures !steps[k].effect.KeyScan?
      {
        assert steps[k].effect == FirstTryScript(cfg)[k];
      }
    }
  }

  // ------------------------------------------------------------------
  // Properties: commit and push
  // ------------------------------------------------------------------

  /** `k` retry rounds: a rejected push followed by a successful `pull --rebase`. */
  function Rounds(k: nat): (r: seq<Step>)
    ensures |r| == 2 * k
  {
    if k == 0 then [] else [Step(PushCmd, false), Step(PullCmd, true)] + Rounds(k - 1)
  }

  /**
   * How the push loop ends once `attempt` attempts are spent: a push that
   * succeeds; a rejected push whose pull fails, then `rebase --abort`; or,
   * with every attempt spent, nothing more and the exhaustion error.
   */
  predicate PushEnd(tail: seq<Step>, attempt: nat, r: Result<(), GitError>) {
    || (attempt < PushMaxRetries && tail == [Step(PushCmd, true)] && r == Ok(()))
    || (attempt < PushMaxRetries && |tail| == 3 && tail[0] == Step(PushCmd, false)
        && tail[1] == Step(PullCmd, false) && tail[2].effect == AbortCmd && r == Err(PullDuringRetry))
    || (attempt == PushMaxRetries && tail == [] && r == Err(PushExhausted(PushMaxRetries)))
  }

  /** The steps of the push loop from `attempt` on: some retry rounds, then its end. */
  ghost predicate PushRun(steps: seq<Step>, attempt: nat, r: Result<(), GitError>) {
    exists k: nat :: attempt + k <= PushMaxRetries && 2 * k <= |steps|
      && steps[..2 * k] == Rounds(k) && PushEnd(steps[2 * k..], attempt + k, r)
  }

  /** The steps the push loop takes from `attempt` on form a PushRun. */
  ghost predicate PushLoopFollows(o: Oracle, st: St, attempt: nat) {
    var (st', r) := PushLoop(o, st, attempt);
    Extends(st, st') && PushRun(Since(st, st'), attempt, r)
  }

  /** The push loop follows PushRun from any attempt number up to the limit. */
  lemma {:induction false} PushLoopSteps(o: Oracle, st: St, attempt: nat)
    requires attempt <= PushMaxRetries
    ensures PushLoopFollows(o, st, attempt)
    decreases PushMaxRetries - attempt
  {
    if attempt < PushMaxRetries {
      var (s1, pushed) := Do(o, st, PushCmd);
      if pushed {
        PushStepsDone(o, st, attempt);
      } else {
        var (s2, pulled) := Do(o, s1, PullCmd);
        if !pulled {
          PushStepsAbort(o, st, attempt);
        } else {
          PushLoopSteps(o, s2, attempt + 1);
          PushStepsRetry(o, st, attempt);
        }
      }
    } else {
      PushRunEnd([], attempt, Err(PushExhausted(PushMaxRetries)));
      assert Since(st, st) == [];
    }
  }

  /** An accepted push ends the loop. */
  lemma PushStepsDone(o: Oracle, st: St, attempt: nat)
    requires attempt < PushMaxRetries && Do(o, st, PushCmd).1
    ensures PushLoopFollows(o, st, attempt)
  {
    DoStep(o, st, PushCmd);
    PushRunEnd([Step(PushCmd, true)], attempt, Ok(()));
  }

  /** A rejected push whose pull fails ends the loop after `rebase --abort`. */
  lemma PushStepsAbort(o: Oracle, st: St, attempt: nat)
    requires attempt < PushMaxRetries && !Do(o, st, PushCmd).1
    requires !Do(o, Do(o, st, PushCmd).0, PullCmd).1
    ensures PushLoopFollows(o, st, attempt)
  {
    var s1 := Do(o, st, PushCmd).0;
    var s2 := Do(o, s1, PullCmd).0;
    var (st', ok) := Do(o, s2, AbortCmd);
    DoStep(o, s2, AbortCmd);
    SinceDo(o, s1, PullCmd, st');
    SinceDo(o, st, PushCmd, st');
    var tail := Since(st, st');
    assert tail == [Step(PushCmd, false)] + ([Step(PullCmd, false)] + [Step(AbortCmd, ok)]);
    PushRunEnd(tail, attempt, Err(PullDuringRetry));
  }

  /** A rejected push and a successful pull make one retry round before the rest of the loop. */
  lemma PushStepsRetry(o: Oracle, st: St, attempt: nat)
    requires attempt < PushMaxRetries && !Do(o, st, PushCmd).1
    requires Do(o, Do(o, st, PushCmd).0, PullCmd).1
    requires PushLoopFollows(o, Do(o, Do(o, st, PushCmd).0, PullCmd).0, attempt + 1)
    ensures PushLoopFollows(o, st, attempt)
  {
    var s1 := Do(o, st, PushCmd).0;
    var s2 := Do(o, s1, PullCmd).0;
    var (st', r) := PushLoop(o, s2, attempt + 1);
    assert PushLoop(o, st, attempt) == (st', r);
    SinceDo(o, s1, PullCmd, st');
    SinceDo(o, st, PushCmd, st');
    var rest := Since(s2, st');
    assert Since(st, st') == [Step(PushCmd, false), Step(PullCmd, true)] + rest;
    PushRunCons(rest, attempt, r);
  }

  /** A push loop that ends at once is a run without retry rounds. */
  lemma PushRunEnd(tail: seq<Step>, attempt: nat, r: Result<(), GitError>)
    requires attempt <= PushMaxRetries && PushEnd(tail, attempt, r)
    ensures PushRun(tail, attempt, r)
  {
    assert tail[..0] == Rounds(0) && tail[0..] == tail;
  }

  /** One more retry round in front of a run from the next attempt. */
  lemma PushRunCons(rest: seq<Step>, attempt: nat, r: Result<(), GitError>)
    requires PushRun(rest, attempt + 1, r)
    ensures PushRun([Step(PushCmd, false), Step(PullCmd, true)] + rest, attempt, r)
  {
    var k := PushRunWitness(rest, attempt + 1, r);
    var steps := [Step(PushCmd, false), Step(PullCmd, true)] + rest;
    assert steps[..2 * (k + 1)] == [Step(PushCmd, false), Step(PullCmd, true)] + rest[..2 * k];
    assert steps[2 * (k + 1)..] == rest[2 * k..];
  }

  /** The number of steps running `e`. */
  function Count(steps: seq<Step>, e: Effect): nat {
    if |steps| == 0 then 0 else (if steps[0].effect == e then 1 else 0) + Count(steps[1..], e)
  }

  /** The number of failed steps running `e`. */
  function CountFailed(steps: seq<Step>, e: Effect): nat {
    if |steps| == 0 then 0 else (if steps[0] == Step(e, false) then 1 else 0) + CountFailed(steps[1..], e)
  }

  lemma {:induction false} CountConcat(a: seq<Step>, b: seq<Step>, e: Effect)
    ensures Count(a + b, e) == Count(a, e) + Count(b, e)
    ensures CountFailed(a + b, e) == CountFailed(a, e) + CountFailed(b, e)
  {
    if |a| > 0 {
      assert (a + b)[1..] == a[1..] + b;
      CountConcat(a[1..], b, e);
    } else {
      assert a + b == b;
    }
  }

  lemma {:induction false} RoundsCount(k: nat)
    ensures Count(Rounds(k), PushCmd) == k && CountFailed(Rounds(k), PushCmd) == k
    ensures Count(Rounds(k), PullCmd) == k
  {
    if k > 0 {
      var round := [Step(PushCmd, false), Step(PullCmd, true)];
      RoundsCount(k - 1);
      CountConcat(round, Rounds(k - 1), PushCmd);
      CountConcat(round, Rounds(k - 1), PullCmd);
    }
  }

  lemma {:induction false} CountNone(steps: seq<Step>, e: Effect)
    requires forall i :: 0 <= i < |steps| ==> steps[i].effect != e
    ensures Count(steps, e) == 0 && CountFailed(steps, e) == 0
  {
    if |steps| > 0 {
      CountNone(steps[1..], e);
    }
  }

  lemma PushEndCounts(tail: seq<Step>, attempt: nat, r: Result<(), GitError>)
    requires PushEnd(tail, attempt, r)
    ensures Count(tail, PushCmd) == (if attempt < PushMaxRetries then 1 else 0)
    ensures Count(tail, PullCmd) == CountFailed(tail, PushCmd)
    ensures r == Err(PushExhausted(PushMaxRetries)) ==> attempt == PushMaxRetries
    ensures r.Ok? <==> |tail| > 0 && tail[|tail| - 1] == Step(PushCmd, true)
  {
    CommandsDistinct();
    if tail == [Step(PushCmd, true)] {
      assert tail[1..] == [];
    } else if |tail| == 3 {
      var t1 := tail[1..];
      assert t1[1..][1..] == [];
      assert Count(t1[1..], PushCmd) == 0 && Count(t1[1..], PullCmd) == 0 && CountFailed(t1[1..], PushCmd) == 0;
      assert Count(t1, PushCmd) == 0 && Count(t1, PullCmd) == 1 && CountFailed(t1, PushCmd) == 0;
    }
  }

  lemma CommandsDistinct()
    ensures PushCmd != PullCmd && AbortCmd != PullCmd && AbortCmd != PushCmd
  {
    assert PushCmd.args[0] == "push" && PullCmd.args[0] == "pull" && AbortCmd.args[0] == "rebase";
    assert "push"[2] != "pull"[2];
  }

  lemma {:induction false} RoundsLast(k: nat)
    requires k > 0
    ensures Rounds(k)[2 * k - 1] == Step(PullCmd, true)
  {
    if k > 1 {
      RoundsLast(k - 1);
      assert Rounds(k)[2 * k - 1] == Rounds(k - 1)[2 * (k - 1) - 1];
    }
  }

  /**
   * Counting over a push run from `attempt`: at most the remaining number of
   * pushes, every rejected push followed by exactly one `pull --rebase`, and
   * the exhaustion error only after every remaining attempt was a rejected
   * push; success exactly when the run ends with a push that went through.
   */
  lemma PushRunCounts(steps: seq<Step>, attempt: nat, r: Result<(), GitError>)
    requires PushRun(steps, attempt, r)
    ensures Count(steps, PushCmd) <= PushMaxRetries - attempt
    ensures Count(steps, PullCmd) == CountFailed(steps, PushCmd)
    ensures r == Err(PushExhausted(PushMaxRetries)) ==> CountFailed(steps, PushCmd) == PushMaxRetries - attempt
    ensures r.Ok? <==> |steps| > 0 && steps[|steps| - 1] == Step(PushCmd, true)
    ensures attempt < PushMaxRetries ==> |steps| > 0
  {
    var k := PushRunWitness(steps, attempt, r);
    RoundsThenEndCounts(k, steps[2 * k..], attempt, r);
    RoundsThenEndLast(k, steps[2 * k..], attempt, r);
  }

  /** The number of retry rounds a push run starts with. */
  lemma PushRunWitness(steps: seq<Step>, attempt: nat, r: Result<(), GitError>) returns (k: nat)
    requires PushRun(steps, attempt, r)
    ensures attempt + k <= PushMaxRetries && 2 * k <= |steps|
    ensures steps == Rounds(k) + steps[2 * k..] && PushEnd(steps[2 * k..], attempt + k, r)
  {
    k :| attempt + k <= PushMaxRetries && 2 * k <= |steps|
      && steps[..2 * k] == Rounds(k) && PushEnd(steps[2 * k..], attempt + k, r);
    assert steps == steps[..2 * k] + steps[2 * k..];
  }

  lemma RoundsThenEndCounts(k: nat, tail: seq<Step>, attempt: nat, r: Result<(), GitError>)
    requires attempt + k <= PushMaxRetries && PushEnd(tail, attempt + k, r)
    ensures Count(Rounds(k) + tail, PushCmd) <= PushMaxRetries - attempt
    ensures Count(Rounds(k) + tail, PullCmd) == CountFailed(Rounds(k) + tail, PushCmd)
    ensures r == Err(PushExhausted(PushMaxRetries)) ==> CountFailed(Rounds(k) + tail, PushCmd) == PushMaxRetries - attempt
  {
    RoundsCount(k);
    PushEndCounts(tail, attempt + k, r);
    CountConcat(Rounds(k), tail, PushCmd);
    CountConcat(Rounds(k), tail, PullCmd);
  }

  lemma RoundsThenEndLast(k: nat, tail: seq<Step>, attempt: nat, r: Result<(), GitError>)
    requires PushEnd(tail, attempt + k, r)
    ensures var steps := Rounds(k) + tail;
      r.Ok? <==> |steps| > 0 && steps[|steps| - 1] == Step(PushCmd, true)
    ensures attempt < PushMaxRetries ==> |Rounds(k) + tail| > 0
  {
    var steps := Rounds(k) + tail;
    PushEndCounts(tail, attempt + k, r);
    if tail != [] {
      assert steps[|steps| - 1] == tail[|tail| - 1];
    } else if k > 0 {
      assert steps[|steps| - 1] == Rounds(k)[2 * k - 1];
      RoundsLast(k);
    }
  }

  /** The commands before the push loop. */
  function PreludeScript(filePath: string, slug: string): seq<Effect> {
    [PullCmd, AddCmd(filePath), CommitCmd(slug)]
  }

  /** The error of the prelude step at `i`. */
  function PreludeError(i: nat): GitError {
    if i == 0 then PullBeforeCommit else if i == 1 then AddFailed else CommitFailed
  }

  /** Whether all three prelude steps succeed. */
  predicate PreludePasses(o: Oracle, st: St, filePath: string, slug: string) {
    o.ok(PullCmd, |st.log|) && o.ok(AddCmd(filePath), |st.log| + 1) && o.ok(CommitCmd(slug), |st.log| + 2)
  }

  /** A failing prelude step ends CommitAndPush with that step's error. */
  lemma PreludeFailureSteps(o: Oracle, st: St, filePath: string, slug: string)
    requires !PreludePasses(o, st, filePath, slug)
    ensures var (st', r) := CommitAndPush(o, st, filePath, slug);
      && Extends(st, st') && RanScript(Since(st, st'), PreludeScript(filePath, slug), false)
      && r == Err(PreludeError(|Since(st, st')| - 1))
  {
    var prelude := PreludeScript(filePath, slug);
    var (s1, pulled) := Do(o, st, PullCmd);
    DoStep(o, st, PullCmd);
    TrailSnoc(prelude, 0, pulled);
    if pulled {
      var (s2, added) := Do(o, s1, AddCmd(filePath));
      DoStep(o, s1, AddCmd(filePath));
      SinceConcat(st, s1, s2);
      TrailSnoc(prelude, 1, added);
      if added {
        var (s3, committed) := Do(o, s2, CommitCmd(slug));
        DoStep(o, s2, CommitCmd(slug));
        SinceConcat(st, s2, s3);
        TrailSnoc(prelude, 2, committed);
      }
    }
  }

  /** After a successful prelude, the push loop runs from attempt 0. */
  lemma PreludeSuccessSteps(o: Oracle, st: St, filePath: string, slug: string)
    requires PreludePasses(o, st, filePath, slug)
    ensures var (st', r) := CommitAndPush(o, st, filePath, slug);
      && Extends(st, st') && |Since(st, st')| >= 3
      && Since(st, st')[..3] == Trail(PreludeScript(filePath, slug), true)
      && PushRun(Since(st, st')[3..], 0, r)
  {
    var prelude := PreludeScript(filePath, slug);
    var s1 := Do(o, st, PullCmd).0;
    var s2 := Do(o, s1, AddCmd(filePath)).0;
    var s3 := Do(o, s2, CommitCmd(slug)).0;
    assert CommitAndPush(o, st, filePath, slug) == PushLoop(o, s3, 0);
    assert Since(st, s3) == Trail(prelude, true);
    var (s4, r) := PushLoop(o, s3, 0);
    PushLoopSteps(o, s3, 0);
    SinceConcat(st, s3, s4);
    var steps := Since(st, s4);
    assert steps[..3] == Since(st, s3) && steps[3..] == Since(s3, s4);
  }

  /**
   * CommitAndPush pulls, adds, then commits with the message
   * "Add comment on <slug>"; the first failure ends the run with its own
   * error, and otherwise the push loop follows from attempt 0.
   */
  lemma CommitAndPushSteps(o: Oracle, st: St, filePath: string, slug: string)
    ensures var (st', r) := CommitAndPush(o, st, filePath, slug);
      var steps := Since(st, st');
      var prelude := PreludeScript(filePath, slug);
      && Extends(st, st')
      && ((RanScript(steps, prelude, false) && r == Err(PreludeError(|steps| - 1)))
          || (3 <= |steps| && steps[..3] == Trail(prelude, true) && PushRun(steps[3..], 0, r)))
  {
    if PreludePasses(o, st, filePath, slug) {
      PreludeSuccessSteps(o, st, filePath, slug);
    } else {
      PreludeFailureSteps(o, st, filePath, slug);
    }
  }

  lemma PreludeNoPush(filePath: string, slug: string)
    ensures forall i :: 0 <= i < 3 ==> PreludeScript(filePath, slug)[i] != PushCmd
  {
    CommandsDistinct();
    assert |AddCmd(filePath).args| == 2 && |CommitCmd(slug).args| == 3 && |PushCmd.args| == 1;
  }

  lemma PreludeFailCounts(steps: seq<Step>, filePath: string, slug: string)
    requires RanScript(steps, PreludeScript(filePath, slug), false)
    ensures Count(steps, PushCmd) == 0 && CountFailed(steps, PushCmd) == 0
    ensures steps[|steps| - 1] != Step(PushCmd, true)
  {
    var prelude := PreludeScript(filePath, slug);
    PreludeNoPush(filePath, slug);
    assert forall i :: 0 <= i < |steps| ==> steps[i].effect == prelude[i];
    CountNone(steps, PushCmd);
  }

  lemma PreludeHeadCounts(head: seq<Step>, filePath: string, slug: string)
    requires head == Trail(PreludeScript(filePath, slug), true)
    ensures Count(head, PushCmd) == 0 && CountFailed(head, PushCmd) == 0
  {
    PreludeNoPush(filePath, slug);
    CountNone(head, PushCmd);
  }

  /** Steps without a push in front of others change no push count. */
  lemma NoPushPrefix(head: seq<Step>, rest: seq<Step>)
    requires Count(head, PushCmd) == 0 && CountFailed(head, PushCmd) == 0
    ensures Count(head + rest, PushCmd) == Count(rest, PushCmd)
    ensures CountFailed(head + rest, PushCmd) == CountFailed(rest, PushCmd)
  {
    CountConcat(head, rest, PushCmd);
  }

  /** A push run after three steps that run no push. */
  lemma PreludeThenPushCounts(steps: seq<Step>, head: seq<Step>, rest: seq<Step>, r: Result<(), GitError>)
    requires steps == head + rest && |head| == 3
    requires Count(head, PushCmd) == 0 && CountFailed(head, PushCmd) == 0
    requires PushRun(rest, 0, r)
    ensures Count(steps, PushCmd) <= PushMaxRetries
    ensures Count(rest, PullCmd) == CountFailed(steps, PushCmd)
    ensures r.Ok? <==> steps[|steps| - 1] == Step(PushCmd, true)
  {
    NoPushPrefix(head, rest);
    PushRunCounts(rest, 0, r);
    assert steps[|steps| - 1] == rest[|rest| - 1];
  }

  /**
   * Over a whole CommitAndPush: at most three pushes, as many retry pulls
   * as rejected pushes, and success exactly when the last step is a push
   * that went through.
   */
  lemma CommitAndPushCounts(o: Oracle, st: St, filePath: string, slug: string)
    ensures var (st', r) := CommitAndPush(o, st, filePath, slug);
      var steps := Since(st, st');
      && Count(steps, PushCmd) <= PushMaxRetries
      && (|steps| >= 3 ==> Count(steps[3..], PullCmd) == CountFailed(steps, PushCmd))
      && (r.Ok? <==> |steps| > 0 && steps[|steps| - 1] == Step(PushCmd, true))
  {
    var (st', r) := CommitAndPush(o, st, filePath, slug);
    var steps := Since(st, st');
    CommitAndPushSteps(o, st, filePath, slug);
    if 3 <= |steps| && steps[..3] == Trail(PreludeScript(filePath, slug), true) && PushRun(steps[3..], 0, r) {
      PushedRunCounts(steps, filePath, slug, r);
    } else {
      PreludeFailRunCounts(steps, filePath, slug, r);
    }
  }

  /** The counts of CommitAndPushCounts when a prelude step failed. */
  lemma PreludeFailRunCounts(steps: seq<Step>, filePath: string, slug: string, r: Result<(), GitError>)
    requires RanScript(steps, PreludeScript(filePath, slug), false) && r.Err?
    ensures Count(steps, PushCmd) <= PushMaxRetries
    ensures |steps| >= 3 ==> Count(steps[3..], PullCmd) == CountFailed(steps, PushCmd)
    ensures r.Ok? <==> |steps| > 0 && steps[|steps| - 1] == Step(PushCmd, true)
  {
    PreludeFailCounts(steps, filePath, slug);
    if |steps| == 3 {
      assert steps[3..] == [];
    }
  }

  /** The counts of CommitAndPushCounts when the push loop ran. */
  lemma PushedRunCounts(steps: seq<Step>, filePath: string, slug: string, r: Result<(), GitError>)
    requires 3 <= |steps| && steps[..3] == Trail(PreludeScript(filePath, slug), true)
    requires PushRun(steps[3..], 0, r)
    ensures Count(steps, PushCmd) <= PushMaxRetries
    ensures Count(steps[3..], PullCmd) == CountFailed(steps, PushCmd)
    ensures r.Ok? <==> |steps| > 0 && steps[|steps| - 1] == Step(PushCmd, true)
  {
    assert steps == steps[..3] + steps[3..];
    PreludeHeadCounts(steps[..3], filePath, slug);
    PreludeThenPushCounts(steps, steps[..3], steps[3..], r);
  }
}
