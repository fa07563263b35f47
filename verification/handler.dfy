/**
 * The comment endpoint: the ordered guards a submission passes, the rules
 * for the origin and redirect checks, the name of the file a comment is
 * stored in, and the handler that writes that file and publishes it through
 * the repository synchronizer.
 */
module Handler {
  import opened Common
  import opened Urls
  import opened Paths
  import opened Configuration
  import GitTrace
  import opened GitRepository

  // ------------------------------------------------------------------
  // Requests and responses
  // ------------------------------------------------------------------

  const MaxBodyLen := 10000

  const StatusSeeOther := 303
  const StatusBadRequest := 400
  const StatusForbidden := 403
  const StatusMethodNotAllowed := 405

  const MethodNotAllowedMessage := "Method not allowed"
  const OriginForbiddenMessage := "Forbidden: origin not allowed"
  const BadRequestMessage := "Bad request"
  const RedirectForbiddenMessage := "Forbidden: redirect URL origin not allowed"
  const MissingFieldsMessage := "Missing required fields (name, body, slug, url)"
  const BodyTooLongMessage := "Comment body too long"
  const InvalidSlugMessage := "Invalid slug"
  const InvalidReplyToMessage := "Invalid reply_to"
  const PostNotFoundMessage := "Post not found"
  const SaveFailedMessage := "Failed to save comment"
  const PublishFailedMessage := "Failed to publish comment"
  const BadRedirectMessage := "Bad redirect URL"

  /** The query parameter an error redirect carries, and the fragment of a success redirect. */
  const ErrorParam := "comment_error"
  const SubmittedFragment := "comment-submitted"

  /**
   * What the handler reads from a request: the method (`verb`), the Origin and
   * Referer headers ("" when absent) and the parsed form, None when
   * ParseForm failed (a body over the 64 KiB cap or a malformed one).
   */
  datatype Request = Request(verb: string, origin: string, referer: string, form: Option<Values>)

  /**
   * http.Error with a status and message, or a 303 redirect to `location`.
   * `newQuery` is None when the location's query is kept as written, and
   * Some(q) when the handler replaced it by the encoding of `q`.
   */
  datatype Response =
    | Error(status: int, message: string)
    | SeeOther(location: Url, newQuery: Option<Values>)

  /** The trimmed form fields of a submission. */
  datatype Submission = Submission(name: string, email: string, body: string, slug: string, replyTo: string, url: string)

  /** A stored comment (the fields of the YAML record). */
  datatype Comment = Comment(name: string, email: string, body: string, date: string, slug: string, replyTo: string)

  /** Request.FormValue: the first value of the key, or "". */
  function FormValue(form: Values, key: string): string {
    if key in form && |form[key]| > 0 then form[key][0] else ""
  }

  function ReadSubmission(form: Values): Submission {
    Submission(
      TrimSpace(FormValue(form, "name")),
      TrimSpace(FormValue(form, "email")),
      TrimSpace(FormValue(form, "body")),
      TrimSpace(FormValue(form, "slug")),
      TrimSpace(FormValue(form, "reply_to")),
      TrimSpace(FormValue(form, "url")))
  }

  // ------------------------------------------------------------------
  // Validators
  // ------------------------------------------------------------------

  /** The characters a slug may hold: ASCII letters, digits, '-' and '_'. */
  predicate SlugChar(c: char) {
    ('a' <= c <= 'z') || ('A' <= c <= 'Z') || ('0' <= c <= '9') || c == '-' || c == '_'
  }

  /** isValidSlug, check by check. */
  predicate IsValidSlug(slug: string) {
    && slug != ""
    && !Contains(slug, "..")
    && '/' !in slug && '\\' !in slug
    && forall k :: 0 <= k < |slug| ==> SlugChar(slug[k])
  }

  /** The origin a request claims: the Origin header, else scheme://host of the Referer. */
  function RequestOrigin(origin: string, referer: string): Option<string> {
    if origin != "" then Some(origin)
    else if referer == "" then None
    else
      match Parse(referer)
      case None => None
      case Some(u) => Some(Urls.Origin(u))
  }

  /** checkOrigin: the claimed origin is exactly one of the allowed origins. */
  predicate CheckOrigin(allowed: seq<string>, origin: string, referer: string) {
    match RequestOrigin(origin, referer)
    case None => false
    case Some(o) => o in allowed
  }

  /** isAllowedRedirect: the URL parses and its scheme://host is allowed. */
  predicate IsAllowedRedirect(allowed: seq<string>, raw: string) {
    match Parse(raw)
    case None => false
    case Some(u) => Urls.Origin(u) in allowed
  }

  /**
   * errorRedirect: a parsable, non-empty URL gets a 303 with comment_error
   * set in its query; otherwise the message is sent with 400.
   */
  function ErrorRedirect(redirectURL: string, msg: string): Response {
    if redirectURL != "" && Parse(redirectURL).Some? then
      var u := Parse(redirectURL).value;
      SeeOther(u, Some(SetValue(ParseQuery(u.rawQuery), ErrorParam, msg)))
    else Error(StatusBadRequest, msg)
  }

  /** postExists: some entry of the posts directory matches the glob slug + ".*". */
  predicate PostExists(postFiles: set<string>, slug: string) {
    exists n :: n in postFiles && HasPrefix(n, slug + ".")
  }

  // ------------------------------------------------------------------
  // The guard chain of ServeHTTP
  // ------------------------------------------------------------------

  /** The outcome of the guards: a response, or the submission to store. */
  datatype Screened = Rejected(response: Response) | Accepted(submission: Submission)

  /** The form checks in order; the message of the first that fails. */
  function FirstFormFailure(postsPath: string, s: Submission, postFiles: set<string>): Option<string> {
    if s.name == "" || s.body == "" || s.slug == "" || s.url == "" then Some(MissingFieldsMessage)
    else if Utf8Len(s.body) > MaxBodyLen then Some(BodyTooLongMessage)
    else if !IsValidSlug(s.slug) then Some(InvalidSlugMessage)
    else if s.replyTo != "" && !IsValidSlug(s.replyTo) then Some(InvalidReplyToMessage)
    else if postsPath != "" && !PostExists(postFiles, s.slug) then Some(PostNotFoundMessage)
    else None
  }

  /**
   * Every check ServeHTTP makes before it stores a comment, in its order:
   * method, origin, form parsing, redirect origin, then the form checks,
   * whose failures are reported through errorRedirect.
   */
  function Screen(cfg: Config, req: Request, postFiles: set<string>): Screened {
    if req.verb != "POST" then Rejected(Error(StatusMethodNotAllowed, MethodNotAllowedMessage))
    else if !CheckOrigin(cfg.allowedOrigins, req.origin, req.referer) then
      Rejected(Error(StatusForbidden, OriginForbiddenMessage))
    else if req.form.None? then Rejected(Error(StatusBadRequest, BadRequestMessage))
    else
      var s := ReadSubmission(req.form.value);
      if s.url != "" && !IsAllowedRedirect(cfg.allowedOrigins, s.url) then
        Rejected(Error(StatusForbidden, RedirectForbiddenMessage))
      else
        match FirstFormFailure(cfg.postsPath, s, postFiles)
        case Some(msg) => Rejected(ErrorRedirect(s.url, msg))
        case None => Accepted(s)
  }

  /** The response once the guards have passed, from whether saving and publishing succeeded. */
  function Conclude(redirectURL: string, saved: bool, published: bool): Response {
    if !saved then ErrorRedirect(redirectURL, SaveFailedMessage)
    else if !published then ErrorRedirect(redirectURL, PublishFailedMessage)
    else
      match Parse(redirectURL)
      case None => Error(StatusBadRequest, BadRedirectMessage)
      case Some(u) => SeeOther(u.(fragment := SubmittedFragment), None)
  }

  // ------------------------------------------------------------------
  // Comment file names
  // ------------------------------------------------------------------

  /** A UTC time as time.Time's calendar fields. */
  datatype Instant = Instant(year: nat, month: nat, day: nat, hour: nat, minute: nat, second: nat) {
    predicate WellFormed() {
      1 <= month <= 12 && 1 <= day <= 31 && hour < 24 && minute < 60 && second < 60
    }
  }

  function Zeros(k: nat): (z: string)
    ensures |z| == k && AllDigits(z)
  {
    seq(k, _ => '0')
  }

  /** A number in decimal, zero-padded on the left to at least `width` digits. */
  function Pad(n: nat, width: nat): (s: string)
    ensures AllDigits(s)
    ensures |s| == if |NatToString(n)| >= width then |NatToString(n)| else width
  {
    var d := NatToString(n);
    if |d| >= width then d else Zeros(width - |d|) + d
  }

  /** Layout "20060102150405". */
  function Stamp(t: Instant): string {
    Pad(t.year, 4) + Pad(t.month, 2) + Pad(t.day, 2) + Pad(t.hour, 2) + Pad(t.minute, 2) + Pad(t.second, 2)
  }

  /** time.RFC3339 for a UTC time: "2006-01-02T15:04:05Z". */
  function Rfc3339(t: Instant): string {
    Pad(t.year, 4) + "-" + Pad(t.month, 2) + "-" + Pad(t.day, 2)
    + "T" + Pad(t.hour, 2) + ":" + Pad(t.minute, 2) + ":" + Pad(t.second, 2) + "Z"
  }

  newtype byte = x: int | 0 <= x < 256

  const HexDigits := "0123456789abcdef"

  predicate IsLowerHex(c: char) {
    ('0' <= c <= '9') || ('a' <= c <= 'f')
  }

  /** fmt's %x on a byte slice: two lower-case hex digits per byte. */
  function Hex(b: seq<byte>): (s: string)
    ensures |s| == 2 * |b|
    ensures forall k :: 0 <= k < |s| ==> IsLowerHex(s[k])
  {
    if |b| == 0 then ""
    else [HexDigits[b[0] as int / 16], HexDigits[b[0] as int % 16]] + Hex(b[1..])
  }

  function HexValue(c: char): (v: nat)
    requires IsLowerHex(c)
    ensures v < 16
  {
    if c <= '9' then c as int - '0' as int else c as int - 'a' as int + 10
  }

  /** Reading hex digits back, two per byte. */
  function UnHex(s: string): seq<byte>
    requires |s| % 2 == 0 && forall k :: 0 <= k < |s| ==> IsLowerHex(s[k])
  {
    if |s| == 0 then []
    else [(HexValue(s[0]) * 16 + HexValue(s[1])) as byte] + UnHex(s[2..])
  }

  datatype WriteError = CreateCommentDir | RandomFailed | WriteCommentFile

  /**
   * randomHex(n): `read` is what crypto/rand put into the n-byte buffer, None
   * when it reported an error.
   */
  function RandomHex(n: nat, read: Option<seq<byte>>): (r: Result<string, WriteError>)
    requires read.Some? ==> |read.value| == n
  {
    match read
    case None => Err(RandomFailed)
    case Some(b) => Ok(Hex(b))
  }

  /** "<timestamp>-<random>.yml" */
  function FileName(stamp: Instant, rnd: string): string {
    Stamp(stamp) + "-" + rnd + ".yml"
  }

  /** The directory of a post's comments, relative to the working copy. */
  function CommentDir(commentsPath: string, slug: string): string {
    JoinPath(commentsPath, slug)
  }

  /** GitRepo.FullPath: a path relative to the working copy made absolute. */
  function FullPath(rel: string): string {
    JoinPath(GitTrace.RepoDir, rel)
  }

  /** What writeComment's calls into the outside world report. */
  datatype World = World(
    now: Instant,               // time.Now() when the comment is built
    stampAt: Instant,           // time.Now() when its file is named
    random: Option<seq<byte>>,  // the 4 bytes crypto/rand produced, None on error
    mkdirOk: bool,              // os.MkdirAll of the comment directory succeeds
    writeOk: bool,              // os.WriteFile of the comment file succeeds
    postFiles: set<string>)     // the names in the posts directory
  {
    /** crypto/rand fills the whole 4-byte buffer when it succeeds. */
    predicate WellFormed() {
      random.Some? ==> |random.value| == 4
    }
  }

  /** The comment ServeHTTP builds from an accepted submission. */
  function CommentOf(s: Submission, now: Instant): Comment {
    Comment(s.name, s.email, s.body, Rfc3339(now), s.slug, s.replyTo)
  }

  /** writeComment's result: the error of the first call that fails, else the relative path written. */
  function WriteOutcome(commentsPath: string, slug: string, w: World): Result<string, WriteError>
    requires w.WellFormed()
  {
    if !w.mkdirOk then Err(CreateCommentDir)
    else
      match RandomHex(4, w.random)
      case Err(e) => Err(e)
      case Ok(rnd) =>
        if !w.writeOk then Err(WriteCommentFile)
        else Ok(JoinPath(CommentDir(commentsPath, slug), FileName(w.stampAt, rnd)))
  }

  // ------------------------------------------------------------------
  // The handler
  // ------------------------------------------------------------------

  /** The part of the filesystem the handler writes: directories made and comment files. */
  class Files {
    var dirs: set<string>
    var contents: map<string, Comment>

    constructor(dirs: set<string>, contents: map<string, Comment>)
      ensures this.dirs == dirs && this.contents == contents
    {
      this.dirs := dirs;
      this.contents := contents;
    }

    /** os.MkdirAll, with its outcome given. */
    method MkdirAll(path: string, ok: bool) returns (made: bool)
      modifies this
      ensures made == ok && contents == old(contents)
      ensures dirs == if ok then old(dirs) + {path} else old(dirs)
    {
      if ok {
        dirs := dirs + {path};
      }
      made := ok;
    }

    /** os.WriteFile: replaces whatever the file held. */
    method WriteFile(path: string, c: Comment, ok: bool) returns (written: bool)
      modifies this
      ensures written == ok && dirs == old(dirs)
      ensures contents == if ok then old(contents)[path := c] else old(contents)
    {
      if ok {
        contents := contents[path := c];
      }
      written := ok;
    }
  }

  class CommentHandler {
    const cfg: Config
    const repo: GitRepo

    /** NewCommentHandler */
    constructor(cfg: Config, repo: GitRepo)
      ensures this.cfg == cfg && this.repo == repo
    {
      this.cfg := cfg;
      this.repo := repo;
    }

    /**
     * writeComment: make <comments_path>/<slug>, name the file after the
     * time and four random bytes, and write the comment there, replacing
     * any file of that name.
     */
    method WriteComment(c: Comment, w: World, fs: Files) returns (r: Result<string, WriteError>)
      requires w.WellFormed()
      modifies fs
      ensures r == WriteOutcome(cfg.commentsPath, c.slug, w)
      ensures fs.dirs == if w.mkdirOk then old(fs.dirs) + {FullPath(CommentDir(cfg.commentsPath, c.slug))} else old(fs.dirs)
      ensures fs.contents == if r.Ok? then old(fs.contents)[FullPath(r.value) := c] else old(fs.contents)
    {
      var dir := JoinPath(cfg.commentsPath, c.slug);
      var fullDir := FullPath(dir);
      var made := fs.MkdirAll(fullDir, w.mkdirOk);
      if !made {
        return Err(CreateCommentDir);
      }
      var ts := Stamp(w.stampAt);
      var rnd := RandomHex(4, w.random);
      if rnd.Err? {
        return Err(rnd.error);
      }
      var filename := ts + "-" + rnd.value + ".yml";
      var relPath := JoinPath(dir, filename);
      var written := fs.WriteFile(FullPath(relPath), c, w.writeOk);
      if !written {
        return Err(WriteCommentFile);
      }
      return Ok(relPath);
    }

    /**
     * ServeHTTP: the guards, then the comment file, then the commit and push
     * of that file; a rejected request touches neither the files nor the
     * repository, and nothing is committed unless the file was written.
     */
    method ServeHTTP(req: Request, w: World, fs: Files) returns (resp: Response)
      requires repo.Valid() && w.WellFormed()
      modifies fs, repo
      ensures repo.Valid()
      ensures Screen(cfg, req, w.postFiles).Rejected? ==>
        && resp == Screen(cfg, req, w.postFiles).response
        && fs.dirs == old(fs.dirs) && fs.contents == old(fs.contents)
        && repo.State() == old(repo.State())
      ensures Screen(cfg, req, w.postFiles).Accepted? ==>
        var s := Screen(cfg, req, w.postFiles).submission;
        var saved := WriteOutcome(cfg.commentsPath, s.slug, w);
        && fs.dirs == (if w.mkdirOk then old(fs.dirs) + {FullPath(CommentDir(cfg.commentsPath, s.slug))} else old(fs.dirs))
        && fs.contents == (if saved.Ok? then old(fs.contents)[FullPath(saved.value) := CommentOf(s, w.now)] else old(fs.contents))
        && (saved.Err? ==> repo.State() == old(repo.State()) && resp == Conclude(s.url, false, false))
        && (saved.Ok? ==>
              var (st, pushed) := GitTrace.CommitAndPush(repo.oracle, old(repo.State()), saved.value, s.slug);
              repo.State() == st && resp == Conclude(s.url, true, pushed.Ok?))
    {
      var screened := Screen(cfg, req, w.postFiles);
      if screened.Rejected? {
        return screened.response;
      }
      var s := screened.submission;
      var comment := CommentOf(s, w.now);
      var saved := WriteComment(comment, w, fs);
      if saved.Err? {
        return ErrorRedirect(s.url, SaveFailedMessage);
      }
      var pushed := repo.CommitAndPush(saved.value, s.slug);
      if pushed.Err? {
        return ErrorRedirect(s.url, PublishFailedMessage);
      }
      var u := Parse(s.url);
      if u.None? {
        return Error(StatusBadRequest, BadRedirectMessage);
      }
      return SeeOther(u.value.(fragment := SubmittedFragment), None);
    }
  }

  // ------------------------------------------------------------------
  // Properties of the validators and the guard chain
  // ------------------------------------------------------------------

  /**
   * A slug is valid exactly when it is non-empty and made of slug
   * characters; such a slug is a single path element, so it cannot climb out
   * of the comments directory.
   */
  lemma ValidSlugIff(slug: string)
    ensures IsValidSlug(slug) <==> slug != "" && forall k :: 0 <= k < |slug| ==> SlugChar(slug[k])
    ensures IsValidSlug(slug) ==> Normal(slug) && '\\' !in slug
  {
    if slug != "" && forall k :: 0 <= k < |slug| ==> SlugChar(slug[k]) {
      assert '.' !in slug && '/' !in slug && '\\' !in slug;
      AbsentFirstNotContained(slug, "..");
    }
  }

  /**
   * checkOrigin trusts the Origin header when there is one; without it the
   * Referer is judged exactly like a redirect URL; with neither the request
   * is refused. A request is accepted only with an origin equal to an entry
   * of the allow-list.
   */
  lemma CheckOriginCases(allowed: seq<string>, origin: string, referer: string)
    ensures origin != "" ==> (CheckOrigin(allowed, origin, referer) <==> origin in allowed)
    ensures origin == "" && referer == "" ==> !CheckOrigin(allowed, origin, referer)
    ensures origin == "" && referer != "" ==>
      (CheckOrigin(allowed, origin, referer) <==> IsAllowedRedirect(allowed, referer))
    ensures CheckOrigin(allowed, origin, referer) ==>
      exists i :: 0 <= i < |allowed| && allowed[i] == RequestOrigin(origin, referer).value
  {
  }

  /**
   * errorRedirect redirects (303) exactly when the URL is non-empty and
   * parses; the target keeps the URL's scheme, host, path and fragment, and
   * its query is the URL's own with comment_error set to the message alone.
   * Otherwise the message goes out with 400.
   */
  lemma ErrorRedirectOutcome(redirectURL: string, msg: string)
    ensures ErrorRedirect(redirectURL, msg).SeeOther? <==> redirectURL != "" && Parse(redirectURL).Some?
    ensures ErrorRedirect(redirectURL, msg).Error? ==> ErrorRedirect(redirectURL, msg) == Error(StatusBadRequest, msg)
    ensures ErrorRedirect(redirectURL, msg).SeeOther? ==>
      var r := ErrorRedirect(redirectURL, msg);
      var before := ParseQuery(r.location.rawQuery);
      && r.location == Parse(redirectURL).value
      && r.newQuery.Some?
      && r.newQuery.value[ErrorParam] == [msg]
      && r.newQuery.value.Keys == before.Keys + {ErrorParam}
      && forall k :: k in before && k != ErrorParam ==> r.newQuery.value[k] == before[k]
  {
  }

  /**
   * The form checks in their order: each message is reported exactly when
   * every earlier check passed and its own failed.
   */
  lemma FirstFormFailureWins(postsPath: string, s: Submission, postFiles: set<string>)
    ensures var f := FirstFormFailure(postsPath, s, postFiles);
      var present := s.name != "" && s.body != "" && s.slug != "" && s.url != "";
      var short := Utf8Len(s.body) <= MaxBodyLen;
      var replyOk := s.replyTo == "" || IsValidSlug(s.replyTo);
      var postOk := postsPath == "" || PostExists(postFiles, s.slug);
      && (f == Some(MissingFieldsMessage) <==> !present)
      && (f == Some(BodyTooLongMessage) <==> present && !short)
      && (f == Some(InvalidSlugMessage) <==> present && short && !IsValidSlug(s.slug))
      && (f == Some(InvalidReplyToMessage) <==> present && short && IsValidSlug(s.slug) && !replyOk)
      && (f == Some(PostNotFoundMessage) <==> present && short && IsValidSlug(s.slug) && replyOk && !postOk)
      && (f == None <==> present && short && IsValidSlug(s.slug) && replyOk && postOk)
  {
    // The five messages have five different lengths.
    assert |MissingFieldsMessage| == 47 && |BodyTooLongMessage| == 21 && |InvalidSlugMessage| == 12;
    assert |InvalidReplyToMessage| == 16 && |PostNotFoundMessage| == 14;
  }

  /**
   * A submission is accepted exactly when it is a POST from an allowed
   * origin with a parsable form, every required field is present, the body
   * is at most 10000 bytes of UTF-8, slug and (when given) reply_to are
   * valid slugs, the post exists when a posts directory is configured, and
   * the redirect URL points at an allowed origin. What is accepted is the
   * trimmed form.
   */
  lemma ScreenAcceptsExactly(cfg: Config, req: Request, postFiles: set<string>)
    ensures Screen(cfg, req, postFiles).Accepted? <==>
      && req.verb == "POST"
      && CheckOrigin(cfg.allowedOrigins, req.origin, req.referer)
      && req.form.Some?
      && var s := ReadSubmission(req.form.value);
      && s.name != "" && s.body != "" && s.slug != "" && s.url != ""
      && Utf8Len(s.body) <= MaxBodyLen
      && IsValidSlug(s.slug)
      && (s.replyTo == "" || IsValidSlug(s.replyTo))
      && (cfg.postsPath == "" || PostExists(postFiles, s.slug))
      && IsAllowedRedirect(cfg.allowedOrigins, s.url)
    ensures Screen(cfg, req, postFiles).Accepted? ==>
      Screen(cfg, req, postFiles).submission == ReadSubmission(req.form.value)
  {
    if req.verb == "POST" && CheckOrigin(cfg.allowedOrigins, req.origin, req.referer) && req.form.Some? {
      FirstFormFailureWins(cfg.postsPath, ReadSubmission(req.form.value), postFiles);
    }
  }

  /**
   * The refusals that come before the form is read: a non-POST request gets
   * 405 whatever else it carries, a POST from an origin that is not allowed
   * gets 403 before its form is looked at, a form that did not parse gets
   * 400, and a redirect URL naming another origin gets 403.
   */
  lemma ScreenEarlyRefusals(cfg: Config, req: Request, postFiles: set<string>)
    ensures req.verb != "POST" ==>
      Screen(cfg, req, postFiles) == Rejected(Error(StatusMethodNotAllowed, MethodNotAllowedMessage))
    ensures req.verb == "POST" && !CheckOrigin(cfg.allowedOrigins, req.origin, req.referer) ==>
      Screen(cfg, req, postFiles) == Rejected(Error(StatusForbidden, OriginForbiddenMessage))
    ensures req.verb == "POST" && CheckOrigin(cfg.allowedOrigins, req.origin, req.referer) && req.form.None? ==>
      Screen(cfg, req, postFiles) == Rejected(Error(StatusBadRequest, BadRequestMessage))
    ensures req.verb == "POST" && CheckOrigin(cfg.allowedOrigins, req.origin, req.referer) && req.form.Some? ==>
      var url := ReadSubmission(req.form.value).url;
      url != "" && !IsAllowedRedirect(cfg.allowedOrigins, url) ==>
        Screen(cfg, req, postFiles) == Rejected(Error(StatusForbidden, RedirectForbiddenMessage))
  {
  }

  /**
   * A failing form check is reported through errorRedirect with its own
   * message: as a 303 back to the submitted URL carrying comment_error, or,
   * when no URL was submitted, as a 400.
   */
  lemma ScreenFormFailure(cfg: Config, req: Request, postFiles: set<string>)
    requires req.verb == "POST" && CheckOrigin(cfg.allowedOrigins, req.origin, req.referer) && req.form.Some?
    requires var s := ReadSubmission(req.form.value);
      (s.url == "" || IsAllowedRedirect(cfg.allowedOrigins, s.url))
      && FirstFormFailure(cfg.postsPath, s, postFiles).Some?
    ensures var s := ReadSubmission(req.form.value);
      var msg := FirstFormFailure(cfg.postsPath, s, postFiles).value;
      var r := Screen(cfg, req, postFiles);
      && r.Rejected?
      && (s.url == "" ==> msg == MissingFieldsMessage && r.response == Error(StatusBadRequest, msg))
      && (s.url != "" ==> r.response.SeeOther? && r.response.location == Parse(s.url).value
                          && r.response.newQuery.Some? && r.response.newQuery.value[ErrorParam] == [msg])
  {
    var s := ReadSubmission(req.form.value);
    ErrorRedirectOutcome(s.url, FirstFormFailure(cfg.postsPath, s, postFiles).value);
  }

  /**
   * The service never redirects to an origin outside the allow-list: every
   * 303 the guards produce goes to an allowed scheme://host.
   */
  lemma ScreenRedirectsOnlyToAllowed(cfg: Config, req: Request, postFiles: set<string>)
    requires Screen(cfg, req, postFiles).Rejected? && Screen(cfg, req, postFiles).response.SeeOther?
    ensures Urls.Origin(Screen(cfg, req, postFiles).response.location) in cfg.allowedOrigins
  {
  }

  /**
   * After the guards accept a submission, the response is a redirect to an
   * allowed origin whatever saving and publishing do: the failures come back
   * with comment_error set to their message, and success leads to the
   * submitted URL with the fragment comment-submitted and its query as
   * written. The "Bad redirect URL" answer cannot happen.
   */
  lemma ConcludeAccepted(cfg: Config, url: string, saved: bool, published: bool)
    requires url != "" && IsAllowedRedirect(cfg.allowedOrigins, url)
    ensures var r := Conclude(url, saved, published);
      && r.SeeOther?
      && Urls.Origin(r.location) in cfg.allowedOrigins
      && (!saved ==> r.newQuery.Some? && r.newQuery.value[ErrorParam] == [SaveFailedMessage])
      && (saved && !published ==> r.newQuery.Some? && r.newQuery.value[ErrorParam] == [PublishFailedMessage])
      && (saved && published ==>
            r.newQuery.None? && r.location == Parse(url).value.(fragment := SubmittedFragment))
  {
    ErrorRedirectOutcome(url, SaveFailedMessage);
    ErrorRedirectOutcome(url, PublishFailedMessage);
  }

  /**
   * Whatever a request holds and however saving and publishing turn out,
   * every redirect the handler answers with goes to an allowed origin.
   */
  lemma HandlerRedirectsOnlyToAllowed(cfg: Config, req: Request, postFiles: set<string>, saved: bool, published: bool)
    ensures var screened := Screen(cfg, req, postFiles);
      var r := if screened.Rejected? then screened.response else Conclude(screened.submission.url, saved, published);
      r.SeeOther? ==> Urls.Origin(r.location) in cfg.allowedOrigins
  {
    var screened := Screen(cfg, req, postFiles);
    if screened.Accepted? {
      var url := screened.submission.url;
      assert url != "" && IsAllowedRedirect(cfg.allowedOrigins, url) by {
        ScreenAcceptsExactly(cfg, req, postFiles);
      }
      ConcludeAccepted(cfg, url, saved, published);
    } else if screened.response.SeeOther? {
      ScreenRedirectsOnlyToAllowed(cfg, req, postFiles);
    }
  }

  // ------------------------------------------------------------------
  // Properties of comment file names
  // ------------------------------------------------------------------

  lemma HexDigitValue(v: nat)
    requires v < 16
    ensures IsLowerHex(HexDigits[v]) && HexValue(HexDigits[v]) == v
  {
  }

  /** Reading back the hex digits of bytes gives the bytes. */
  lemma {:induction false} UnHexHex(b: seq<byte>)
    ensures UnHex(Hex(b)) == b
  {
    if |b| > 0 {
      var hi, lo := b[0] as int / 16, b[0] as int % 16;
      HexDigitValue(hi);
      HexDigitValue(lo);
      assert Hex(b)[2..] == Hex(b[1..]);
      UnHexHex(b[1..]);
    }
  }

  function Pow10(k: nat): nat {
    if k == 0 then 1 else 10 * Pow10(k - 1)
  }

  lemma {:induction false} NatToStringWidth(n: nat, k: nat)
    requires 1 <= k && n < Pow10(k)
    ensures |NatToString(n)| <= k
  {
    if n >= 10 {
      NatToStringWidth(n / 10, k - 1);
    }
  }

  lemma {:induction false} ZerosValue(k: nat)
    ensures DigitsValue(Zeros(k)) == 0
  {
    if k > 0 {
      assert Zeros(k)[..k - 1] == Zeros(k - 1);
      ZerosValue(k - 1);
    }
  }

  lemma {:induction false} LeadingZerosValue(k: nat, d: string)
    requires AllDigits(d)
    ensures DigitsValue(Zeros(k) + d) == DigitsValue(d)
    decreases |d|
  {
    if |d| == 0 {
      assert Zeros(k) + d == Zeros(k);
      ZerosValue(k);
    } else {
      assert (Zeros(k) + d)[..k + |d| - 1] == Zeros(k) + d[..|d| - 1];
      LeadingZerosValue(k, d[..|d| - 1]);
    }
  }

  /** Padding keeps the value and, for a number that fits, gives exactly `width` digits. */
  lemma PadValue(n: nat, width: nat)
    ensures DigitsValue(Pad(n, width)) == n
    ensures 1 <= width && n < Pow10(width) ==> |Pad(n, width)| == width
  {
    NatToStringValue(n);
    var d := NatToString(n);
    if |d| < width {
      LeadingZerosValue(width - |d|, d);
    }
    if 1 <= width && n < Pow10(width) {
      NatToStringWidth(n, width);
    }
  }

  /**
   * The "20060102150405" stamp of a well-formed time before the year 10000
   * is 14 decimal digits from which year, month, day, hour, minute and
   * second read back in that order.
   */
  lemma StampDigits(t: Instant)
    requires t.WellFormed() && t.year < 10000
    ensures var s := Stamp(t);
      && |s| == 14 && AllDigits(s)
      && DigitsValue(s[..4]) == t.year && DigitsValue(s[4..6]) == t.month
      && DigitsValue(s[6..8]) == t.day && DigitsValue(s[8..10]) == t.hour
      && DigitsValue(s[10..12]) == t.minute && DigitsValue(s[12..]) == t.second
  {
    assert Pow10(2) == 100 && Pow10(4) == 10000;
    PadValue(t.year, 4);
    PadValue(t.month, 2);
    PadValue(t.day, 2);
    PadValue(t.hour, 2);
    PadValue(t.minute, 2);
    PadValue(t.second, 2);
    StampFields(Pad(t.year, 4), Pad(t.month, 2), Pad(t.day, 2), Pad(t.hour, 2), Pad(t.minute, 2), Pad(t.second, 2));
  }

  /** Six digit fields of widths 4, 2, 2, 2, 2, 2 laid end to end, and where each sits. */
  lemma StampFields(y: string, mo: string, d: string, h: string, mi: string, sec: string)
    requires |y| == 4 && |mo| == 2 && |d| == 2 && |h| == 2 && |mi| == 2 && |sec| == 2
    requires AllDigits(y) && AllDigits(mo) && AllDigits(d) && AllDigits(h) && AllDigits(mi) && AllDigits(sec)
    ensures var s := y + mo + d + h + mi + sec;
      && |s| == 14 && AllDigits(s)
      && s[..4] == y && s[4..6] == mo && s[6..8] == d && s[8..10] == h && s[10..12] == mi && s[12..] == sec
  {
    var s := y + mo + d + h + mi + sec;
    forall k | 0 <= k < 14
      ensures IsDigit(s[k])
    {
      if k < 4 { assert s[k] == y[k]; }
      else if k < 6 { assert s[k] == mo[k - 4]; }
      else if k < 8 { assert s[k] == d[k - 6]; }
      else if k < 10 { assert s[k] == h[k - 8]; }
      else if k < 12 { assert s[k] == mi[k - 10]; }
      else { assert s[k] == sec[k - 12]; }
    }
  }

  /** A comment file name is a single path element. */
  lemma FileNameIsElement(stamp: Instant, rnd: string)
    requires forall k :: 0 <= k < |rnd| ==> IsLowerHex(rnd[k])
    ensures Normal(FileName(stamp, rnd))
  {
  }

  /** Joining two leading elements in front of at least one more. */
  lemma {:induction false} JoinTwoMore(a: string, b: string, elems: seq<string>)
    requires |elems| >= 1
    ensures Join([a, b] + elems, '/') == a + "/" + b + "/" + Join(elems, '/')
  {
    var full := [a, b] + elems;
    var tail := [b] + elems;
    assert full[1..] == tail && tail[1..] == elems;
    var j := Join(elems, '/');
    calc {
      Join(full, '/');
      a + ['/'] + Join(tail, '/');
      a + ['/'] + (b + ['/'] + j);
      { assert "/" == ['/']; }
      a + "/" + b + "/" + j;
    }
  }

  lemma RepoDirSplit(rel: string)
    ensures Split(GitTrace.RepoDir + "/" + rel, '/') == ["", "app", "repo"] + Split(rel, '/')
  {
    var root := GitTrace.RepoDir;
    assert root + "/" + rel == root + ['/'] + rel;
    assert Split(root + ['/'] + rel, '/') == Split(root, '/') + Split(rel, '/') by {
      SplitConcat(root, '/', rel);
    }
    RepoDirElements();
  }

  /** "/app/repo" is the elements "", "app" and "repo". */
  lemma RepoDirElements()
    ensures Split(GitTrace.RepoDir, '/') == ["", "app", "repo"]
  {
    assert GitTrace.RepoDir == "" + ['/'] + "app" + ['/'] + "repo";
    SplitThree("", "app", "repo", '/');
  }

  lemma RepoDirReduce(elems: seq<string>)
    requires forall i :: 0 <= i < |elems| ==> Normal(elems[i])
    ensures Reduce(["", "app", "repo"] + elems, true) == ["app", "repo"] + elems
  {
    RepoDirNormal();
    RootedReduce("app", "repo", elems);
  }

  lemma RepoDirNormal()
    ensures Normal("app") && Normal("repo")
  {
  }

  /**
   * A relative path that stays inside the working copy is made absolute by
   * plain concatenation: FullPath never leaves /app/repo.
   */
  lemma FullPathInside(rel: string)
    requires Inside(rel) && rel != "."
    ensures FullPath(rel) == GitTrace.RepoDir + "/" + rel
  {
    var elems := Split(rel, '/');
    var p := GitTrace.RepoDir + "/" + rel;
    assert IsAbs(p);
    calc {
      FullPath(rel);
      Clean(p);
      "/" + Join(Reduce(Split(p, '/'), true), '/');
    == { RepoDirSplit(rel); }
      "/" + Join(Reduce(["", "app", "repo"] + elems, true), '/');
    == { RepoDirReduce(elems); }
      "/" + Join(["app", "repo"] + elems, '/');
    == { JoinTwoMore("app", "repo", elems); }
      "/" + ("app" + "/" + "repo" + "/" + Join(elems, '/'));
    == { JoinSplit(rel, '/'); }
      "/" + ("app" + "/" + "repo" + "/" + rel);
      p;
    }
  }

  /**
   * Where a comment is stored: with a comments directory that stays inside
   * the working copy and a valid slug, the file is
   * <comments_path>/<slug>/<14-digit stamp>-<8 lower-case hex digits>.yml,
   * a path that stays inside the working copy and is made absolute under
   * /app/repo by plain concatenation.
   */
  lemma {:induction false} CommentPathShape(commentsPath: string, slug: string, w: World)
    requires Inside(commentsPath) && IsValidSlug(slug)
    requires w.WellFormed() && w.stampAt.WellFormed() && w.stampAt.year < 10000
    requires WriteOutcome(commentsPath, slug, w).Ok?
    ensures var rel := WriteOutcome(commentsPath, slug, w).value;
      var rnd := Hex(w.random.value);
      && rel == (if commentsPath == "." then slug else commentsPath + "/" + slug) + "/" + FileName(w.stampAt, rnd)
      && |Stamp(w.stampAt)| == 14 && AllDigits(Stamp(w.stampAt))
      && |rnd| == 8 && (forall k :: 0 <= k < |rnd| ==> IsLowerHex(rnd[k]))
      && Inside(rel)
      && FullPath(rel) == GitTrace.RepoDir + "/" + rel
  {
    var rnd := Hex(w.random.value);
    var name := FileName(w.stampAt, rnd);
    var dir := CommentDir(commentsPath, slug);
    var rel := JoinPath(dir, name);
    assert WriteOutcome(commentsPath, slug, w) == Ok(rel);
    ValidSlugIff(slug);
    JoinInside(commentsPath, slug);
    FileNameIsElement(w.stampAt, rnd);
    assert dir != ".";
    JoinInside(dir, name);
    StampDigits(w.stampAt);
    FullPathInside(rel);
  }
}
