/**
 * GitRepo: the synchronizer as the service runs it, one command or file
 * operation at a time against the outside world (the oracle). Every
 * operation is proved to leave the disk and the log of steps exactly as the
 * matching function of GitTrace says, so the properties proved there hold
 * for these methods.
 */
module GitRepository {
  import opened Common
  import opened Configuration
  import opened GitTrace

  class GitRepo {
    const cfg: Config
    /** Decides the outcome of every command and what ssh-keyscan prints. */
    const oracle: Oracle
    /** known_hosts and the working copy's .git directory. */
    var disk: Disk
    /** The number of effects performed so far: the oracle's clock. */
    var performed: nat
    /** Every effect performed so far and whether it succeeded. */
    ghost var log: seq<Step>

    ghost predicate Valid()
      reads this
    {
      performed == |log|
    }

    /** The disk and the log as one GitTrace state. */
    ghost function State(): St
      reads this
    {
      St(disk, log)
    }

    /** NewGitRepo: nothing performed yet. */
    constructor(cfg: Config, oracle: Oracle, disk: Disk)
      ensures Valid() && State() == St(disk, [])
      ensures this.cfg == cfg && this.oracle == oracle
    {
      this.cfg := cfg;
      this.oracle := oracle;
      this.disk := disk;
      performed := 0;
      log := [];
    }

    /** Performs one effect. */
    method Exec(e: Effect) returns (ok: bool)
      requires Valid()
      modifies this
      ensures Valid() && (State(), ok) == Do(oracle, old(State()), e)
    {
      ok := oracle.ok(e, performed);
      disk := Apply(disk, e, ok);
      log := log + [Step(e, ok)];
      performed := performed + 1;
    }

    /** scanHostKeys: runs ssh-keyscan and returns what it printed. */
    method ScanHostKeys(host: string) returns (ok: bool, out: string)
      requires Valid()
      modifies this
      ensures Valid() && (State(), ok, out) == Scan(oracle, old(State()), host)
    {
      out := oracle.scan(host, performed);
      ok := Exec(KeyScan(host));
    }

    /** scanAndAppendHostKeys */
    method ScanAndAppendHostKeys(host: string) returns (r: Result<(), GitError>)
      requires Valid()
      modifies this
      ensures Valid() && (State(), r) == ScanAndAppend(oracle, old(State()), host)
    {
      var scanned, out := ScanHostKeys(host);
      if !scanned {
        return Err(KeyScanFailed(host));
      }
      var made := Exec(MkdirAll(SshDir));
      if !made {
        return Err(CreateSshDir);
      }
      var handle := Exec(OpenAppend(KnownHostsPath));
      if !handle {
        return Err(OpenKnownHosts);
      }
      var written := Exec(Append(KnownHostsPath, out));
      if !written {
        return Err(AppendKnownHosts);
      }
      return Ok(());
    }

    /** scanAndWriteHostKeys */
    method ScanAndWriteHostKeys(host: string) returns (r: Result<(), GitError>)
      requires Valid()
      modifies this
      ensures Valid() && (State(), r) == ScanAndWrite(oracle, old(State()), host)
    {
      var scanned, out := ScanHostKeys(host);
      if !scanned {
        return Err(KeyScanFailed(host));
      }
      var made := Exec(MkdirAll(SshDir));
      if !made {
        return Err(CreateSshDir);
      }
      var written := Exec(WriteFile(KnownHostsPath, out));
      if !written {
        return Err(WriteKnownHosts);
      }
      return Ok(());
    }

    /** ensureHostKeys */
    method EnsureHostKeys() returns (r: Result<(), GitError>)
      requires Valid()
      modifies this
      ensures Valid() && (State(), r) == GitTrace.EnsureHostKeys(cfg, oracle, old(State()))
    {
      if cfg.sshInsecure {
        return Ok(());
      }
      var host := ExtractHost(cfg.gitRepo);
      if host == "" {
        return Err(NoHost(cfg.gitRepo));
      }
      var known := HostInKnownHosts(disk.knownHosts, host);
      if known {
        return Ok(());
      }
      r := ScanAndAppendHostKeys(host);
    }

    /** refreshHostKeys */
    method RefreshHostKeys() returns (r: Result<(), GitError>)
      requires Valid()
      modifies this
      ensures Valid() && (State(), r) == GitTrace.RefreshHostKeys(cfg, oracle, old(State()))
    {
      var host := ExtractHost(cfg.gitRepo);
      if host == "" {
        return Err(NoHost(cfg.gitRepo));
      }
      r := ScanAndWriteHostKeys(host);
    }

    /** pullLocked (and Pull, which only adds the lock). */
    method Pull() returns (r: Result<(), GitError>)
      requires Valid()
      modifies this
      ensures Valid() && (State(), r) == GitTrace.Pull(oracle, old(State()))
    {
      var ok := Exec(PullCmd);
      r := if ok then Ok(()) else Err(PullFailed);
    }

    /** The two `git config` commands after a successful clone. */
    method ConfigureIdentity() returns (r: Result<(), GitError>)
      requires Valid()
      modifies this
      ensures Valid() && (State(), r) == GitTrace.ConfigureIdentity(oracle, old(State()))
    {
      var email := Exec(EmailCmd);
      if !email {
        return Err(ConfigEmail);
      }
      var name := Exec(NameCmd);
      r := if name then Ok(()) else Err(ConfigName);
    }

    /**
     * Clone: make sure the host is trusted (a failure is only logged), pull
     * when a working copy exists, otherwise clone, and after a failed clone
     * with host checking on refresh the keys and clone once more.
     */
    method Clone() returns (r: Result<(), GitError>)
      requires Valid()
      modifies this
      ensures Valid() && (State(), r) == GitTrace.Clone(cfg, oracle, old(State()))
    {
      var _ := EnsureHostKeys();
      ghost var s0 := State();
      if disk.gitDir {
        r := Pull();
        return;
      }
      var made := Exec(MkdirAll(RepoDir));
      if !made {
        return Err(CreateRepoDir);
      }
      var cloned := Exec(CloneCmd(cfg));
      ghost var s2 := State();
      assert CloneAfterKeys(cfg, oracle, s0) ==
        if cloned then GitTrace.ConfigureIdentity(oracle, s2)
        else if cfg.sshInsecure then (s2, Err(CloneFailed))
        else RetryClone(cfg, oracle, s2);
      if !cloned && !cfg.sshInsecure {
        var refreshed := RefreshHostKeys();
        if refreshed.Err? {
          return Err(CloneFailed);
        }
        ghost var s3 := State();
        assert RetryClone(cfg, oracle, s2) == Reclone(cfg, oracle, s3);
        var removed := Exec(RemoveAll(RepoDir));
        if !removed {
          return Err(RemoveRepoDir);
        }
        var remade := Exec(MkdirAll(RepoDir));
        if !remade {
          return Err(CreateRepoDirRetry);
        }
        cloned := Exec(CloneCmd(cfg));
        if cloned {
          assert Reclone(cfg, oracle, s3) == GitTrace.ConfigureIdentity(oracle, State());
        }
      }
      if !cloned {
        return Err(CloneFailed);
      }
      r := ConfigureIdentity();
    }

    /**
     * CommitAndPush: pull, add, commit, then up to PushMaxRetries pushes,
     * each rejected push followed by `pull --rebase` (and `rebase --abort`
     * when that fails).
     */
    method CommitAndPush(filePath: string, slug: string) returns (r: Result<(), GitError>)
      requires Valid()
      modifies this
      ensures Valid() && (State(), r) == GitTrace.CommitAndPush(oracle, old(State()), filePath, slug)
    {
      var pulled := Exec(PullCmd);
      if !pulled {
        return Err(PullBeforeCommit);
      }
      var added := Exec(AddCmd(filePath));
      if !added {
        return Err(AddFailed);
      }
      var committed := Exec(CommitCmd(slug));
      if !committed {
        return Err(CommitFailed);
      }
      ghost var spec := PushLoop(oracle, State(), 0);
      for attempt := 0 to PushMaxRetries
        invariant Valid()
        invariant spec == PushLoop(oracle, State(), attempt)
      {
        var pushed := Exec(PushCmd);
        if pushed {
          return Ok(());
        }
        var pulledAgain := Exec(PullCmd);
        if !pulledAgain {
          var _ := Exec(AbortCmd);
          return Err(PullDuringRetry);
        }
      }
      return Err(PushExhausted(PushMaxRetries));
    }
  }
}
