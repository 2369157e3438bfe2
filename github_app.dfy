/** github_app.py: the decisions of the GitHub App. The webhook endpoint checks the
    signature and routes the event; the comment handler looks for the `@jira-bot` trigger,
    returns early when something is missing, gathers the pull request's context, asks the
    model for a card, creates the issue and words the reply comment. The HMAC, the JSON
    decoder, the GitHub API, the model and the JIRA POST are parameters. */
module GitHubApp {
  import opened Wrappers
  import opened Text
  import opened PullRequest
  import opened Services
  import opened JiraClient

  // ---------------------------------------------------------------------------
  // _verify_webhook_signature
  // ---------------------------------------------------------------------------

  /** A character `hmac.compare_digest` accepts in a `str` argument. */
  predicate IsAscii(s: string) {
    forall k :: 0 <= k < |s| ==> s[k] as int < 128
  }

  /** The signature header expected for a body: "sha256=" and the hex HMAC-SHA-256 of the
      body keyed with the secret (`hmacHex` stands for that digest). */
  function ExpectedSignature(secret: string, payload: seq<bv8>, hmacHex: (string, seq<bv8>) -> string): string {
    "sha256=" + hmacHex(secret, payload)
  }

  /** The message of the `TypeError` `hmac.compare_digest` raises for non-ASCII text. */
  const NonAsciiCompareError: string := "comparing strings with non-ASCII characters is not supported"

  /** `_verify_webhook_signature`: with no secret every signature passes; with one, the
      signature must be the expected one (comparing non-ASCII text raises). */
  function VerifySignature(secret: Option<string>, payload: seq<bv8>, signature: string,
                           hmacHex: (string, seq<bv8>) -> string): (verdict: Raise<bool>)
    ensures !Truthy(secret) ==> verdict == Returned(true)
    ensures Truthy(secret) && verdict.Returned? ==>
      (verdict.value <==> signature == ExpectedSignature(secret.value, payload, hmacHex))
    ensures verdict.Raised? <==>
      Truthy(secret) && !(IsAscii(ExpectedSignature(secret.value, payload, hmacHex)) && IsAscii(signature))
  {
    if !Truthy(secret) then Returned(true)
    else
      var expected := ExpectedSignature(secret.value, payload, hmacHex);
      if IsAscii(expected) && IsAscii(signature) then Returned(expected == signature)
      else Raised(NonAsciiCompareError)
  }

  /** With a secret configured, at most one signature header passes for a given body. */
  lemma {:induction false} SignatureUnique(secret: Option<string>, payload: seq<bv8>, sig1: string, sig2: string,
                                           hmacHex: (string, seq<bv8>) -> string)
    requires Truthy(secret)
    requires VerifySignature(secret, payload, sig1, hmacHex) == Returned(true)
    requires VerifySignature(secret, payload, sig2, hmacHex) == Returned(true)
    ensures sig1 == sig2
  {
    assert sig1 == ExpectedSignature(secret.value, payload, hmacHex);
  }

  // ---------------------------------------------------------------------------
  // github_webhook: the accept / reject / route decision
  // ---------------------------------------------------------------------------

  /** The outcome of decoding a request body with `json.loads(payload.decode())`. */
  datatype DecodedBody = NotUtf8 | InvalidJson | Decoded(value: Json)

  /** The webhook's answer: 403, 400, an escaped exception (500), or `{"status": "ok"}`
      with the comment handler scheduled or not. */
  datatype WebhookResponse = Forbidden | BadRequest | ServerError | Accepted(scheduled: bool)

  /** The HTTP status of a webhook answer. */
  function StatusCode(response: WebhookResponse): (status: int)
    ensures status == 200 <==> response.Accepted?
  {
    match response
    case Forbidden => 403
    case BadRequest => 400
    case ServerError => 500
    case Accepted(_) => 200
  }

  /** `d.get(key)` on a dictionary decoded from JSON: the last member with that key. */
  function Member(members: seq<(string, Json)>, key: string): (value: Option<Json>)
    ensures value.Some? ==> (key, value.value) in members
    ensures value.Some? ==> exists k :: 0 <= k < |members| && members[k] == (key, value.value)
                                     && forall j :: k < j < |members| ==> members[j].0 != key
    ensures value.None? ==> forall k :: 0 <= k < |members| ==> members[k].0 != key
  {
    if members == [] then None
    else if members[|members| - 1].0 == key then Some(members[|members| - 1].1)
    else Member(members[..|members| - 1], key)
  }

  /** Python's truthiness of a decoded JSON value: false exactly for null, false, 0, the
      empty string, the empty list and the empty object. */
  predicate JsonTruthy(v: Json): (truthy: bool)
    ensures !truthy <==> v in {JNull, JBool(false), JNumber(0), JString(""), JArray([]), JObject([])}
  {
    match v
    case JNull => false
    case JBool(b) => b
    case JNumber(n) => n != 0
    case JString(s) => s != ""
    case JArray(items) => items != []
    case JObject(members) => members != []
  }

  /** The routing of a decoded event: only an `issue_comment` event whose "issue" has a
      truthy "pull_request" schedules the handler; reading a key of something that is not
      a dictionary raises. */
  function Route(eventType: string, event: Json): (response: WebhookResponse)
    ensures response.Accepted? || response == ServerError
    ensures eventType != "issue_comment" ==> response == Accepted(false)
    ensures response == ServerError <==>
      eventType == "issue_comment"
      && (!event.JObject? || (Member(event.members, "issue").Some? && !Member(event.members, "issue").value.JObject?))
    ensures response == Accepted(true) <==>
      eventType == "issue_comment" && event.JObject?
      && Member(event.members, "issue").Some? && Member(event.members, "issue").value.JObject?
      && JsonTruthy(Member(Member(event.members, "issue").value.members, "pull_request").GetOr(JNull))
  {
    if eventType != "issue_comment" then Accepted(false)
    else
      match event
      case JObject(members) =>
        (match Member(members, "issue")
         case None => Accepted(false)
         case Some(JObject(issue)) => Accepted(JsonTruthy(Member(issue, "pull_request").GetOr(JNull)))
         case Some(_) => ServerError)
      case _ => ServerError
  }

  /** `github_webhook`: the signature is checked on the raw body first, then the body is
      decoded, then the event is routed. */
  function Webhook(secret: Option<string>, hmacHex: (string, seq<bv8>) -> string,
                   signatureHeader: Option<string>, eventHeader: Option<string>, body: seq<bv8>,
                   decode: seq<bv8> -> DecodedBody): (response: WebhookResponse)
    ensures var verdict := VerifySignature(secret, body, signatureHeader.GetOr(""), hmacHex);
      && (verdict == Returned(false) <==> response == Forbidden)
      && (verdict.Raised? ==> response == ServerError)
      && (response == BadRequest <==> verdict == Returned(true) && decode(body) == InvalidJson)
      && (response.Accepted? ==> verdict == Returned(true) && decode(body).Decoded?)
      && (verdict == Returned(true) && decode(body).Decoded? ==>
            response == Route(eventHeader.GetOr(""), decode(body).value))
      && (verdict == Returned(true) && decode(body) == NotUtf8 ==> response == ServerError)
  {
    match VerifySignature(secret, body, signatureHeader.GetOr(""), hmacHex)
    case Raised(_) => ServerError
    case Returned(false) => Forbidden
    case Returned(true) =>
      match decode(body)
      case NotUtf8 => ServerError
      case InvalidJson => BadRequest
      case Decoded(event) => Route(eventHeader.GetOr(""), event)
  }

  /** A request with a bad signature is refused before its body is decoded: the decoder
      cannot change the answer. */
  lemma {:induction false} SignatureBeforeDecoding(secret: Option<string>, hmacHex: (string, seq<bv8>) -> string,
                                                   signatureHeader: Option<string>, eventHeader: Option<string>,
                                                   body: seq<bv8>, decode1: seq<bv8> -> DecodedBody,
                                                   decode2: seq<bv8> -> DecodedBody)
    requires Truthy(secret)
    requires IsAscii(hmacHex(secret.value, body))
    requires IsAscii(signatureHeader.GetOr(""))
    requires signatureHeader.GetOr("") != ExpectedSignature(secret.value, body, hmacHex)
    ensures Webhook(secret, hmacHex, signatureHeader, eventHeader, body, decode1) == Forbidden
    ensures Webhook(secret, hmacHex, signatureHeader, eventHeader, body, decode2) == Forbidden
  {
    var expected := ExpectedSignature(secret.value, body, hmacHex);
    var hex := hmacHex(secret.value, body);
    forall k | 0 <= k < |expected| ensures expected[k] as int < 128 {
      if k >= 7 {
        assert expected[k] == hex[k - 7];
      }
    }
  }

  // ---------------------------------------------------------------------------
  // extract_pr_context
  // ---------------------------------------------------------------------------

  /** The context dictionary: `description` is `None` when the body is JSON null, and
      `number` is `None` where the source puts its default `''`. */
  datatype PrContext = PrContext(
    title: string,
    description: Option<string>,
    author: string,
    branch: string,
    baseBranch: string,
    url: string,
    number: Option<int>,
    repository: string,
    filesChanged: seq<string>,
    additions: int,
    deletions: int,
    commits: int)

  /** `[f.get('filename', '') for f in entries]`. */
  function FileNames(entries: seq<FileEntry>): (names: seq<string>)
    ensures |names| == |entries|
    ensures forall i :: 0 <= i < |entries| ==> names[i] == entries[i].filename.GetOr("")
  {
    seq(|entries|, i requires 0 <= i < |entries| => entries[i].filename.GetOr(""))
  }

  /** `extract_pr_context`: every key read with its default. A key that is present is
      copied; an absent text key gives "", an absent count 0, an absent body "" and an
      absent number `None`. */
  function ExtractPrContext(pr: PrPayload): (ctx: PrContext)
    ensures (pr.title.Some? ==> ctx.title == pr.title.value) && (pr.title.None? ==> ctx.title == "")
    ensures (pr.body.Some? ==> ctx.description == pr.body.value) && (pr.body.None? ==> ctx.description == Some(""))
    ensures (pr.login.Some? ==> ctx.author == pr.login.value) && (pr.login.None? ==> ctx.author == "")
    ensures (pr.headRef.Some? ==> ctx.branch == pr.headRef.value) && (pr.headRef.None? ==> ctx.branch == "")
    ensures (pr.baseRef.Some? ==> ctx.baseBranch == pr.baseRef.value) && (pr.baseRef.None? ==> ctx.baseBranch == "")
    ensures (pr.htmlUrl.Some? ==> ctx.url == pr.htmlUrl.value) && (pr.htmlUrl.None? ==> ctx.url == "")
    ensures ctx.number == pr.number
    ensures (pr.repoFullName.Some? ==> ctx.repository == pr.repoFullName.value)
            && (pr.repoFullName.None? ==> ctx.repository == "")
    ensures (pr.additions.Some? ==> ctx.additions == pr.additions.value) && (pr.additions.None? ==> ctx.additions == 0)
    ensures (pr.deletions.Some? ==> ctx.deletions == pr.deletions.value) && (pr.deletions.None? ==> ctx.deletions == 0)
    ensures (pr.commits.Some? ==> ctx.commits == pr.commits.value) && (pr.commits.None? ==> ctx.commits == 0)
    ensures pr.changedFiles.None? ==> ctx.filesChanged == []
    ensures pr.changedFiles.Some? ==> ctx.filesChanged == FileNames(pr.changedFiles.value)
  {
    PrContext(
      pr.title.GetOr(""), pr.body.GetOr(Some("")), pr.login.GetOr(""), pr.headRef.GetOr(""),
      pr.baseRef.GetOr(""), pr.htmlUrl.GetOr(""), pr.number, pr.repoFullName.GetOr(""),
      if pr.changedFiles.Some? then FileNames(pr.changedFiles.value) else [],
      pr.additions.GetOr(0), pr.deletions.GetOr(0), pr.commits.GetOr(0))
  }

  /** An empty pull request gives every default: empty texts, zero counts, no files. */
  lemma ExtractPrContextDefaults(pr: PrPayload)
    requires pr.IsEmpty()
    ensures ExtractPrContext(pr) == PrContext("", Some(""), "", "", "", "", None, "", [], 0, 0, 0)
  {
  }

  /** The files listed in the context are exactly the names the handler stored, in order. */
  lemma {:induction false} ExtractStoredFiles(pr: PrPayload, names: seq<string>)
    ensures ExtractPrContext(pr.(changedFiles := Some(FileEntries(names)))).filesChanged == names
  {
    var ctx := ExtractPrContext(pr.(changedFiles := Some(FileEntries(names))));
    assert |ctx.filesChanged| == |names|;
    forall i | 0 <= i < |names| ensures ctx.filesChanged[i] == names[i] {
      assert FileEntries(names)[i] == FileEntry(Some(names[i]));
    }
  }

  /** The pull request of the context-extraction example. */
  const ExamplePr: PrPayload := PrPayload(
    Some(123), Some("Fix login timeout bug"),
    Some(Some("This PR fixes the timeout issue when users stay logged in too long.")),
    Some("testuser"), Some("fix-login-timeout"), Some("main"), Some("company/repo"),
    Some("https://github.com/company/repo/pull/123"), Some(15), Some(3), Some(2),
    Some([FileEntry(Some("src/auth/login.py")), FileEntry(Some("tests/test_auth.py"))]), None)

  /** The context extracted from the example pull request. */
  lemma ExtractPrContextExample()
    ensures ExtractPrContext(ExamplePr) == PrContext(
      "Fix login timeout bug", Some("This PR fixes the timeout issue when users stay logged in too long."),
      "testuser", "fix-login-timeout", "main", "https://github.com/company/repo/pull/123", Some(123),
      "company/repo", ["src/auth/login.py", "tests/test_auth.py"], 15, 3, 2)
  {
    assert FileNames(ExamplePr.changedFiles.value) == ["src/auth/login.py", "tests/test_auth.py"];
  }

  // ---------------------------------------------------------------------------
  // create_jira_card_from_pr: the prompt, the issue type, the never-raise wrapper
  // ---------------------------------------------------------------------------

  /** The number of files named in the prompt. */
  const MaxListedFiles: nat := 10

  /** The file list of the prompt: the first ten names joined by ", ", then "..." when
      there are more. */
  function FileListText(files: seq<string>): (text: string)
    ensures |files| <= MaxListedFiles ==> text == Join(files, ", ")
    ensures |files| > MaxListedFiles ==> text == Join(files[..MaxListedFiles], ", ") + "..."
  {
    var shown := if |files| <= MaxListedFiles then files else files[..MaxListedFiles];
    Join(shown, ", ") + (if |files| > MaxListedFiles then "..." else "")
  }

  /** Only the first ten names reach the prompt: lists that agree on them and both run
      past ten give the same text, and a longer list reads as its first ten plus "...". */
  lemma FileListFirstTen(files: seq<string>, others: seq<string>)
    requires |files| > MaxListedFiles && |others| > MaxListedFiles
    requires files[..MaxListedFiles] == others[..MaxListedFiles]
    ensures FileListText(files) == FileListText(others)
    ensures FileListText(files) == FileListText(files[..MaxListedFiles]) + "..."
  {
    assert files[..MaxListedFiles][..MaxListedFiles] == files[..MaxListedFiles];
  }

  /** How the f-string shows the description: `None` for a null body. */
  function DescriptionField(description: Option<string>): string {
    if description.None? then "None" else description.value
  }

  /** The context text given to the model. It opens with the title, author, repository
      and branch lines and the line giving the full number of changed files; it closes
      with the file list (first ten names) and the user's request. */
  function ContextText(ctx: PrContext, userRequest: string): (text: string)
    ensures StartsWith(text,
      "\nPR Context:\n- Title: " + ctx.title
      + "\n- Author: " + ctx.author
      + "\n- Repository: " + ctx.repository
      + "\n- Branch: " + ctx.branch + " \U{2192} " + ctx.baseBranch
      + "\n- Files changed: " + IntToString(|ctx.filesChanged|) + " files\n")
    ensures var tail := "\n\nFiles Changed:\n" + FileListText(ctx.filesChanged)
                        + "\n\nUser Request: " + userRequest + "\n";
      |tail| <= |text| && text[|text| - |tail|..] == tail
  {
    var head := "\nPR Context:\n- Title: " + ctx.title
      + "\n- Author: " + ctx.author
      + "\n- Repository: " + ctx.repository
      + "\n- Branch: " + ctx.branch + " \U{2192} " + ctx.baseBranch
      + "\n- Files changed: " + IntToString(|ctx.filesChanged|) + " files\n";
    var tail := "\n\nFiles Changed:\n" + FileListText(ctx.filesChanged)
      + "\n\nUser Request: " + userRequest + "\n";
    var text := head + ContextMiddle(ctx) + tail;
    assert text[..|head|] == head;
    text
  }

  /** The lines of the context text between the file count and the file list: the
      changes, the URL and the description. */
  function ContextMiddle(ctx: PrContext): string {
    "- Changes: +" + IntToString(ctx.additions) + " -" + IntToString(ctx.deletions) + " lines"
    + "\n- URL: " + ctx.url
    + "\n\nPR Description:\n" + DescriptionField(ctx.description)
  }

  /** Names past the tenth never reach the model, while the count it is told is the
      full one: two contexts that differ only in such names give the same text. */
  lemma ContextTextFirstTen(ctx: PrContext, others: seq<string>, userRequest: string)
    requires |ctx.filesChanged| > MaxListedFiles && |others| == |ctx.filesChanged|
    requires others[..MaxListedFiles] == ctx.filesChanged[..MaxListedFiles]
    ensures ContextText(ctx.(filesChanged := others), userRequest) == ContextText(ctx, userRequest)
  {
    FileListFirstTen(ctx.filesChanged, others);
  }

  /** The issue types a card may have. */
  const ValidTypes: set<string> := {"Task", "Story", "Epic"}

  /** The issue type sent: the model's when it is a valid one, "Task" otherwise. */
  function ValidIssueType(issueType: Option<string>): (sent: string)
    ensures sent in ValidTypes
    ensures issueType.Some? && issueType.value in ValidTypes ==> sent == issueType.value
    ensures issueType.None? || issueType.value !in ValidTypes ==> sent == "Task"
  {
    if issueType.Some? && issueType.value in ValidTypes then issueType.value else "Task"
  }

  /** The JSON object the model answers with: the keys the card needs, each possibly absent. */
  datatype CardData = CardData(summary: Option<string>, description: Option<string>, issueType: Option<string>)

  /** What `create_jira_card_from_pr` sent to JIRA (if it got that far) and returned. */
  datatype CardOutcome = CardOutcome(sent: Option<CreateRequest>, result: IssueResult)

  /** `create_jira_card_from_pr`. `llm` stands for the model call and the decoding of its
      answer (an exception is `Raised`); `post` for the JIRA POST (a transport error is
      `Raised`). Every exception becomes a failed result carrying its message; a missing
      key gives `KeyError`, whose message is the quoted key. */
  function CreateJiraCardFromPr(client: Client, ctx: PrContext, userRequest: string,
                                llm: string -> Raise<CardData>, post: Raise<HttpResponse<string>>)
    : (outcome: CardOutcome)
    ensures outcome.result.Failed? ==> outcome.result.error.Some?
    ensures llm(ContextText(ctx, userRequest)).Raised? ==>
      outcome == CardOutcome(None, Failed(Some(llm(ContextText(ctx, userRequest)).message)))
    ensures llm(ContextText(ctx, userRequest)).Returned? ==>
      var card := llm(ContextText(ctx, userRequest)).value;
      && (card.summary.None? ==> outcome == CardOutcome(None, Failed(Some("'summary'"))))
      && (card.summary.Some? && card.description.None? ==> outcome == CardOutcome(None, Failed(Some("'description'"))))
      && (card.summary.Some? && card.description.Some? ==>
            && outcome.sent.Some?
            && outcome.sent.value.fields.summary == card.summary.value
            && DescriptionText(Some(outcome.sent.value.fields.description)) == card.description.value
            && outcome.sent.value.fields.issueTypeName == ValidIssueType(card.issueType))
    ensures outcome.sent.Some? ==> outcome.sent.value.fields.issueTypeName in ValidTypes
    ensures outcome.sent.Some? && post.Raised? ==> outcome.result == Failed(Some(post.message))
    ensures outcome.sent.Some? && post.Returned? ==>
      var card := llm(ContextText(ctx, userRequest)).value;
      && card.summary.Some? && card.description.Some?
      && outcome.sent.value
         == CreateIssue(client, post.value, card.summary.value, card.description.value, ValidIssueType(card.issueType)).request
      && outcome.result
         == CreateIssue(client, post.value, card.summary.value, card.description.value, ValidIssueType(card.issueType)).result
    ensures outcome.result.Succeeded? <==>
      outcome.sent.Some? && post.Returned? && post.value.status == 201
    ensures outcome.result.Succeeded? ==> outcome.result.url == BrowseUrl(client, outcome.result.issueKey)
  {
    match llm(ContextText(ctx, userRequest))
    case Raised(message) => CardOutcome(None, Failed(Some(message)))
    case Returned(card) =>
      var issueType := ValidIssueType(card.issueType);
      if card.summary.None? then CardOutcome(None, Failed(Some("'summary'")))
      else if card.description.None? then CardOutcome(None, Failed(Some("'description'")))
      else
        var request := CreateRequest(client.baseUrl + "/rest/api/3/issue",
          IssueFields(ProjectKey, card.summary.value, issueType, AdfDescription(card.description.value)));
        DescriptionRoundTrip(card.description.value);
        match post
        case Raised(message) => CardOutcome(Some(request), Failed(Some(message)))
        case Returned(response) =>
          var call := CreateIssue(client, response, card.summary.value, card.description.value, issueType);
          assert call.request == request;
          CardOutcome(Some(request), call.result)
  }

  // ---------------------------------------------------------------------------
  // handle_pr_comment
  // ---------------------------------------------------------------------------

  /** The text the bot answers to. */
  const Marker: string := "@jira-bot"

  /** A character matches a character of the marker under `re.IGNORECASE`: the same, its
      upper case for a letter, and for `i` also the dotted capital I and the dotless i. */
  predicate MatchesIgnoringCase(c: char, m: char) {
    c == m
    || ('a' <= m <= 'z' && c as int == m as int - 32)
    || (m == 'i' && (c == '\U{0130}' || c == '\U{0131}'))
  }

  /** The marker appears at position `i`. */
  predicate MarkerAt(s: string, i: nat) {
    i + |Marker| <= |s| && forall k :: 0 <= k < |Marker| ==> MatchesIgnoringCase(s[i + k], Marker[k])
  }

  /** `@jira-bot\s+` can match at position `i`: the marker, then some whitespace. */
  predicate TriggerAt(s: string, i: nat) {
    MarkerAt(s, i) && i + |Marker| < |s| && IsSpace(s[i + |Marker|])
  }

  /** The leftmost position at or after `from` where the trigger matches. */
  function TriggerFrom(s: string, from: nat): (i: Option<nat>)
    ensures i.Some? ==> from <= i.value && TriggerAt(s, i.value)
    ensures i.Some? ==> forall j :: from <= j < i.value ==> !TriggerAt(s, j)
    ensures i.None? ==> forall j :: from <= j ==> !TriggerAt(s, j)
    decreases |s| - from
  {
    if from >= |s| then None
    else if TriggerAt(s, from) then Some(from)
    else TriggerFrom(s, from + 1)
  }

  /** The end of the whitespace run starting at `j` (what greedy `\s+` consumes). */
  function SkipSpaces(s: string, j: nat): (r: nat)
    requires j <= |s|
    ensures j <= r <= |s|
    ensures forall k :: j <= k < r ==> IsSpace(s[k])
    ensures r < |s| ==> !IsSpace(s[r])
    decreases |s| - j
  {
    if j < |s| && IsSpace(s[j]) then SkipSpaces(s, j + 1) else j
  }

  /** The end of the line containing position `j` (what `.*` consumes). */
  function LineEnd(s: string, j: nat): (r: nat)
    requires j <= |s|
    ensures j <= r <= |s|
    ensures forall k :: j <= k < r ==> s[k] != '\n'
    ensures r < |s| ==> s[r] == '\n'
    decreases |s| - j
  {
    if j < |s| && s[j] != '\n' then LineEnd(s, j + 1) else j
  }

  /** Every character of `t` is whitespace. */
  predicate AllSpace(t: string) {
    forall k :: 0 <= k < |t| ==> IsSpace(t[k])
  }

  /** `re.search(r'@jira-bot\s+(.*)', s, re.IGNORECASE)` and its group 1: `None` when the
      trigger is nowhere, otherwise the rest of the line after the whitespace following
      the leftmost trigger. */
  function TriggerCapture(s: string): (capture: Option<string>)
    ensures capture.None? <==> forall j: nat :: !TriggerAt(s, j)
    ensures capture.Some? ==> '\n' !in capture.value
    ensures capture.Some? ==>
      var i := TriggerFrom(s, 0).value;
      var start := SkipSpaces(s, i + |Marker|);
      && i + |Marker| < start
      && AllSpace(s[i + |Marker|..start])
      && capture.value == s[start..LineEnd(s, start)]
  {
    match TriggerFrom(s, 0)
    case None => None
    case Some(i) =>
      var start := SkipSpaces(s, i + |Marker|);
      var end := LineEnd(s, start);
      assert forall k :: 0 <= k < end - start ==> s[start..end][k] != '\n';
      Some(s[start..end])
  }

  /** The user's request in a comment: the capture, stripped. */
  function UserRequest(commentBody: string): (request: Option<string>)
    ensures request.None? <==> TriggerCapture(commentBody).None?
    ensures request.Some? ==> request.value == Strip(TriggerCapture(commentBody).value)
  {
    match TriggerCapture(commentBody)
    case None => None
    case Some(capture) => Some(Strip(capture))
  }

  /** The leftmost trigger is the first position where the trigger matches. */
  lemma TriggerFromFirst(s: string, p: nat)
    requires TriggerAt(s, p)
    requires forall j :: 0 <= j < p ==> !TriggerAt(s, j)
    ensures TriggerFrom(s, 0) == Some(p)
  {
    var i := TriggerFrom(s, 0);
    assert i.Some?;
    assert !(i.value > p);
  }

  /** The whitespace run from `j` ends at `e` when everything in between is whitespace
      and the character at `e` is not. */
  lemma SkipSpacesTo(s: string, j: nat, e: nat)
    requires j <= e <= |s|
    requires forall k :: j <= k < e ==> IsSpace(s[k])
    requires e < |s| ==> !IsSpace(s[e])
    ensures SkipSpaces(s, j) == e
  {
  }

  /** The line from `j` ends at `e` when nothing in between is a newline and the character
      at `e` is one. */
  lemma LineEndAt(s: string, j: nat, e: nat)
    requires j <= e <= |s|
    requires forall k :: j <= k < e ==> s[k] != '\n'
    requires e < |s| ==> s[e] == '\n'
    ensures LineEnd(s, j) == e
  {
  }

  /** In a comment made of text without an "@", the marker, one space and a request,
      the trigger is found just after that text. */
  lemma {:induction false} TriggerAfterPrefix(prefix: string, request: string)
    requires '@' !in prefix
    ensures TriggerFrom(prefix + Marker + " " + request, 0) == Some(|prefix|)
  {
    var s := prefix + Marker + " " + request;
    var p := |prefix|;
    assert s[p..p + |Marker|] == Marker;
    assert s[p + |Marker|] == ' ';
    assert TriggerAt(s, p);
    forall j | 0 <= j < p ensures !TriggerAt(s, j) {
      assert s[j] == prefix[j] && prefix[j] in prefix;
      assert Marker[0] == '@';
    }
    TriggerFromFirst(s, p);
  }

  /** After the marker and one space, a request that does not start with whitespace
      begins the capture, which runs to the end when the request has no newline. */
  lemma {:induction false} CaptureBounds(prefix: string, request: string)
    requires '\n' !in request
    requires request != [] ==> !IsSpace(request[0])
    ensures var s := prefix + Marker + " " + request;
      var start := |prefix| + |Marker| + 1;
      SkipSpaces(s, start - 1) == start && LineEnd(s, start) == |s|
  {
    var s := prefix + Marker + " " + request;
    var start := |prefix| + |Marker| + 1;
    assert s[start..] == request;
    assert s[start - 1] == ' ';
    if start < |s| {
      assert s[start] == request[0];
    }
    SkipSpacesTo(s, start - 1, start);
    forall k | start <= k < |s| ensures s[k] != '\n' {
      assert s[k] == request[k - start];
    }
    LineEndAt(s, start, |s|);
  }

  /** The capture of such a comment is the request. */
  lemma {:induction false} TriggerCaptureRoundTrip(prefix: string, request: string)
    requires '@' !in prefix
    requires '\n' !in request
    requires request != [] ==> !IsSpace(request[0])
    ensures TriggerCapture(prefix + Marker + " " + request) == Some(request)
  {
    var s := prefix + Marker + " " + request;
    TriggerAfterPrefix(prefix, request);
    CaptureBounds(prefix, request);
    assert s[|prefix| + |Marker| + 1..|s|] == request;
  }

  /** A comment made of text without an "@", the marker, one space and a one-line request
      that neither starts nor ends with whitespace yields exactly that request. */
  lemma {:induction false} UserRequestRoundTrip(prefix: string, request: string)
    requires '@' !in prefix
    requires '\n' !in request
    requires request != [] ==> !IsSpace(request[0]) && !IsSpace(request[|request| - 1])
    ensures UserRequest(prefix + Marker + " " + request) == Some(request)
  {
    TriggerCaptureRoundTrip(prefix, request);
    StripUnchanged(request);
  }

  /** The comment of the example below. */
  const MultiLineComment: string := "@JIRA-Bot\n  make a task\nthanks"

  /** The marker matches in capitals. */
  lemma MultiLineTrigger()
    ensures TriggerFrom(MultiLineComment, 0) == Some(0)
  {
    assert MultiLineComment[..9] == "@JIRA-Bot";
    assert TriggerAt(MultiLineComment, 0);
  }

  /** The whitespace after the marker runs across the newline. */
  lemma MultiLineSpaces()
    ensures SkipSpaces(MultiLineComment, 9) == 12
  {
    assert MultiLineComment[9..12] == "\n  ";
    SkipSpacesTo(MultiLineComment, 9, 12);
  }

  /** The capture stops at the end of the line. */
  lemma MultiLineEnd()
    ensures LineEnd(MultiLineComment, 12) == 23
    ensures MultiLineComment[12..23] == "make a task"
  {
    assert MultiLineComment[12..23] == "make a task" && MultiLineComment[23] == '\n';
    LineEndAt(MultiLineComment, 12, 23);
  }

  /** The capture once the trigger, the end of its whitespace and the end of the line
      are known. */
  lemma CaptureAt(s: string, i: nat, start: nat, end: nat)
    requires TriggerFrom(s, 0) == Some(i)
    requires i + |Marker| <= |s| && SkipSpaces(s, i + |Marker|) == start
    requires LineEnd(s, start) == end
    ensures TriggerCapture(s) == Some(s[start..end])
  {
  }

  /** The trigger is case-insensitive, its whitespace may span lines, and the capture
      stops at the end of the line. */
  lemma TriggerCaptureAcrossLines()
    ensures TriggerCapture(MultiLineComment) == Some("make a task")
  {
    MultiLineTrigger();
    MultiLineSpaces();
    MultiLineEnd();
    CaptureAt(MultiLineComment, 0, 12, 23);
  }

  /** The request read from that comment. */
  lemma UserRequestAcrossLines()
    ensures UserRequest(MultiLineComment) == Some("make a task")
  {
    TriggerCaptureAcrossLines();
    StripUnchanged("make a task");
  }

  /** The marker must be followed by whitespace. */
  lemma UserRequestNeedsSpace()
    ensures UserRequest("@jira-bot") == None
    ensures UserRequest("@jira-bot!") == None
  {
    var b := "@jira-bot!";
    forall j: nat ensures !TriggerAt(b, j) {
      if j == 0 {
        assert !IsSpace(b[9]);
      }
    }
  }

  /** Whitespace alone after the marker gives an empty request. */
  lemma UserRequestBlank()
    ensures UserRequest("@jira-bot   \n") == Some("")
  {
    var d := "@jira-bot   \n";
    assert TriggerAt(d, 0);
    TriggerFromFirst(d, 0);
    SkipSpacesTo(d, 9, 13);
  }

  /** The reply comment for a result. */
  function CommentText(result: IssueResult, title: string): (text: string)
    ensures StartsWith(text, "\U{2705}") <==> result.Succeeded?
    ensures result.Succeeded? ==>
      text == "\U{2705} Created JIRA issue: [" + result.issueKey + "](" + result.url + ")\n\n\U{1F4DD} Summary: " + title
    ensures result.Failed? ==>
      StartsWith(text, FailurePrefix) && text[|FailurePrefix|..] == result.error.GetOr("Unknown error")
  {
    match result
    case Succeeded(key, url) =>
      "\U{2705} Created JIRA issue: [" + key + "](" + url + ")\n\n\U{1F4DD} Summary: " + title
    case Failed(error) =>
      var text := FailurePrefix + error.GetOr("Unknown error");
      assert text[0] == '\U{274C}';
      text
  }

  /** The opening of a failure comment. */
  const FailurePrefix: string := "\U{274C} Failed to create JIRA issue: "

  /** The parts of an `issue_comment` payload the handler reads: the comment's "body",
      the top-level "pull_request" and "installation.id". */
  datatype CommentEvent = CommentEvent(
    commentBody: Option<string>, pullRequest: Option<PrPayload>, installationId: Option<int>)

  /** `handle_pr_comment`. `fetchFiles` stands for the installation token and the GitHub
      calls that list the pull request's files (`None` when one of them raises); `llm`
      and `post` are as in `CreateJiraCardFromPr`. The result is the comment posted, or
      `None` when the handler returns (or raises) before posting. */
  method HandlePrComment(client: Client, event: CommentEvent,
                         fetchFiles: (string, int) -> Option<seq<string>>,
                         llm: string -> Raise<CardData>, post: Raise<HttpResponse<string>>)
    returns (comment: Option<string>)
    ensures UserRequest(event.commentBody.GetOr("")).None? ==> comment.None?
    ensures UserRequest(event.commentBody.GetOr("")) == Some("") ==> comment.None?
    ensures event.pullRequest.None? || event.pullRequest.value.IsEmpty() ==> comment.None?
    ensures event.installationId.None? || event.installationId == Some(0) ==> comment.None?
    ensures comment.Some? <==>
      && UserRequest(event.commentBody.GetOr("")).Some?
      && UserRequest(event.commentBody.GetOr("")).value != ""
      && event.pullRequest.Some? && !event.pullRequest.value.IsEmpty()
      && event.installationId.Some? && event.installationId.value != 0
      && event.pullRequest.value.repoFullName.Some? && event.pullRequest.value.number.Some?
      && fetchFiles(event.pullRequest.value.repoFullName.value, event.pullRequest.value.number.value).Some?
    ensures comment.Some? ==>
      var pr := event.pullRequest.value;
      var files := fetchFiles(pr.repoFullName.value, pr.number.value).value;
      var ctx := ExtractPrContext(pr.(changedFiles := Some(FileEntries(files))));
      && ctx.filesChanged == files
      && comment.value == CommentText(
           CreateJiraCardFromPr(client, ctx, UserRequest(event.commentBody.GetOr("")).value, llm, post).result,
           ctx.title)
  {
    var commentBody := event.commentBody.GetOr("");
    var match_ := TriggerCapture(commentBody);
    if match_.None? {
      return None;
    }
    var userRequest := Strip(match_.value);
    if userRequest == "" {
      return None;
    }
    if event.pullRequest.None? || event.pullRequest.value.IsEmpty() {
      return None;
    }
    var prData := event.pullRequest.value;
    if event.installationId.None? || event.installationId.value == 0 {
      return None;
    }
    if prData.repoFullName.None? || prData.number.None? {
      return None;
    }
    var files := fetchFiles(prData.repoFullName.value, prData.number.value);
    if files.None? {
      return None;
    }
    prData := prData.(changedFiles := Some(FileEntries(files.value)));
    var prContext := ExtractPrContext(prData);
    ExtractStoredFiles(event.pullRequest.value, files.value);
    var outcome := CreateJiraCardFromPr(client, prContext, userRequest, llm, post);
    comment := Some(CommentText(outcome.result, prContext.title));
  }

  /** A failure comment from the handler always carries the error of the exception or
      of JIRA: the "Unknown error" fallback is never taken for its own lack of an error. */
  lemma {:induction false} HandlerFailuresCarryErrors(client: Client, ctx: PrContext, userRequest: string,
                                                      llm: string -> Raise<CardData>,
                                                      post: Raise<HttpResponse<string>>)
    ensures var outcome := CreateJiraCardFromPr(client, ctx, userRequest, llm, post);
      outcome.result.Failed? ==>
        CommentText(outcome.result, ctx.title) == FailurePrefix + outcome.result.error.value
  {
    var outcome := CreateJiraCardFromPr(client, ctx, userRequest, llm, post);
    if outcome.result.Failed? {
      var text := CommentText(outcome.result, ctx.title);
      assert text == text[..|FailurePrefix|] + text[|FailurePrefix|..];
    }
  }
}
