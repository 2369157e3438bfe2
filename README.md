# jirald: a Dafny model of the GitHub → JIRA bot's decisions

jirald is a GitHub App. Someone writes `@jira-bot <request>` in a pull-request comment.
The bot gathers the pull request's context and asks a language model for a card. It then
creates the JIRA issue in project `MBA` and answers with a comment. This project models
the deterministic part of that flow. Every network, model, GitHub and cryptographic call
is a parameter of the model.

Three shared modules come first, then one module per source file, except that `JiraClient`
covers two source files:

- `Wrappers` (wrappers.dfy): `Option`, `Raise` (a call that returns or raises with a
  message), and Python truthiness of an optional string.
- `Text` (text.dfy): the Python string operations the bot uses. These are `strip` with
  Python's whitespace set, `rstrip(c)`, `split(c)`, `join`, `startswith` and `str(int)`.
  It also has round-trip lemmas for split/join and for the decimal rendering.
- `PullRequest` (pull_request.dfy): the pull-request dictionary as a typed record. A key
  that may be absent is an `Option`.
- `Services` (services.py):
  - the prompt-file line filter;
  - the parse-or-`{"action": "create"}` fallback;
  - `get_pr_with_files`, including the bounded diff digest. The digest is a loop method
    proved against a recursive definition, and lemmas give that definition's shape.
- `JiraClient` (jira_client.py and mvp_jira_client.py):
  - building the Atlassian Document Format description and extracting its text, as a
    round trip;
  - create, update, search and get, each given the HTTP response as an input;
  - `find_issues_for_pr` and its de-duplication by key.

  The two files' `create_issue` are the same code, so `CreateIssue` serves both.
- `GitHubApp` (github_app.py):
  - the signature rule and the webhook's accept/reject/route decision;
  - `extract_pr_context`, the context text and its file list;
  - the issue-type whitelist and the never-raising card creation;
  - the `@jira-bot` trigger as the regular expression matches it;
  - the reply comment, and the comment handler with its early returns.

The code has these quirks, and the model keeps them:

- **Overflow.** When a file's block does not fit the remaining digest budget, the digest
  stops with no truncation marker (services.py:190-194).
- **The marker.** The "(truncated - showing first N files)" marker appears only when the
  emitted blocks fill the budget exactly and files remain. Its count is then always 0: the
  comprehension's condition does not depend on the file (services.py:179-181).
- **Where the handler looks.** The comment handler reads the pull request from the
  payload's top-level `pull_request` key (github_app.py:217). The webhook routes on
  `issue.pull_request` (github_app.py:279). These are two different keys.
- **Escaped exceptions.** Some exceptions escape the webhook and are modelled as a
  server error:
  - a body that is not UTF-8 (`payload.decode()` raises, and only `JSONDecodeError` is
    caught);
  - a decoded `issue_comment` body that is not a JSON object, or whose `issue` is not one;
  - a signature header with non-ASCII characters while a secret is set
    (`hmac.compare_digest` refuses non-ASCII text).

## Model

| member | source | states |
|---|---|---|
| Text.Strip | services.py:37 | the result is the slice of the input between its leading and trailing whitespace; everything cut is whitespace; the result neither starts nor ends with whitespace |
| Text.StripUnchanged | github_app.py:212 | a text that neither starts nor ends with whitespace is its own `strip()` |
| Text.RStripChar | jira_client.py:12 | the result is a prefix of the input; only `c` characters are removed; it does not end in `c` |
| Text.Split | services.py:30 | `split` yields at least one piece and no piece contains the separator |
| Text.JoinSplit | services.py:30-37 | joining the pieces of a split with the separator gives back the text |
| Text.SplitJoin | services.py:30-37 | splitting a join of separator-free pieces gives back the pieces |
| Text.NatToString | jira_client.py:61 | `str(n)` is a non-empty string of decimal digits |
| Text.NatToStringDecimal | jira_client.py:61 | `str(n)` reads back as `n` and has no leading zero unless `n` is 0 |
| Text.IntToString | github_app.py:130 | `str(i)` is the decimal digits of `i` for `i >= 0`, and '-' followed by the digits of `-i` for `i < 0`; it starts with '-' exactly when `i` is negative |
| Text.Join | services.py:37 | `sep.join([])` is "", and a join of some parts starts with the first part |
| PullRequest.FileEntries | services.py:172 | one `{'filename': name}` entry per name, in order |
| Services.KeptLinesExact | services.py:30-35 | every kept line is neither a header nor a fence; every other line is kept; the kept lines keep their original order, and there are exactly as many as there are lines that are neither headers nor fences, so repeated lines are kept each time |
| Services.KeptLinesAll | services.py:32-35 | with no header or fence line, every line is kept |
| Services.PromptWithoutMarkup | services.py:30-37 | a file with no header or fence line loads as its whole text, stripped |
| Services.LoadPrompt | services.py:24-37 | the loop returns the kept lines joined with newlines and stripped |
| Services.AnalyzeReply | services.py:111-118 | a reply that parses is returned as parsed; one that does not parse gives `{"action": "create"}` |
| Services.AnalyzeReplyPassesThrough | services.py:114-115 | a parsed reply is returned unchanged, whatever its action, so the fallback is never produced for a different parsed value |
| Services.CutPatch | services.py:185 | the cut patch is a prefix of the patch, of length min(patch length, per-file limit) |
| Services.FileBlock | services.py:183-188 | a block is always longer than its header |
| Services.FileBlockNoPatch | services.py:183-188 | a file with an absent or empty patch contributes exactly `"\n--- name ---\n\n"` |
| Services.FileBlockPatch | services.py:184-188 | the patch text in a block is a prefix of at most the per-file limit; it is the whole patch iff the patch fits; the truncation note follows iff the patch is longer than the limit |
| Services.CountBelowBudget | services.py:180 | the marker's count is all the files when the total is below the budget and 0 otherwise |
| Services.FileBlocks | services.py:178-188 | one block per file, in order, each non-empty |
| Services.FitCount | services.py:190-194 | the first `k` blocks fit the budget and the first `k + 1` do not: the longest prefix that fits |
| Services.ShapedStep | services.py:190-192 | a block that fits is emitted and the rest is shaped from the increased total |
| Services.ShapedStop | services.py:179-194 | a block that does not fit ends the digest, with the marker (count 0) only when the budget is used up exactly |
| Services.Digest | services.py:174-194 | the digest is the loop's semantics, equal to the longest fitting prefix of the files' blocks plus the marker rule |
| Services.DigestFromShape | services.py:178-194 | the loop's recursive semantics equals the longest fitting prefix of blocks plus the marker rule |
| Services.DigestShape | services.py:174-194 | the digest is the blocks of a prefix of the files, in input order, that is the longest fitting the budget, followed by the marker reporting 0 exactly when files remain and the budget is filled exactly |
| Services.DigestBound | services.py:176-194 | the digest is at most the budget plus one truncation marker |
| Services.DigestSilentOverflow | services.py:190-194 | when a file does not fit and the budget is not exactly used, the digest is the shown blocks alone, with no marker |
| Services.DigestExampleNoMarker | services.py:178-194 | with budgets 500/200, two 240-character blocks and a third of 150, the digest is the first two blocks (480 characters) with no marker |
| Services.BuildFileDiff | services.py:183-188 | the loop body builds exactly the file's block |
| Services.BuildDiffDigest | services.py:174-196 | the loop, with invariant `total == length of text emitted <= budget`, produces the digest, which is at most the budget plus one marker |
| Services.ChangedFileNames | services.py:171-172 | one name per file, in input order |
| Services.GetPrWithFiles | services.py:148-198 | the dictionary holds the pull request's attributes, every changed file whatever the digest dropped, and the digest as `code_diff` |
| JiraClient.NewClient | jira_client.py:12 | the base URL is the configured URL with its trailing slashes removed |
| JiraClient.AdfDescription | jira_client.py:30-45 | the description is a version 1 doc holding one paragraph holding one text node with the text |
| JiraClient.DescriptionText | jira_client.py:195-198 | an absent description, or one with absent or empty content, gives "" |
| JiraClient.DescriptionRoundTrip | jira_client.py:195-207 | extracting the text of the doc built for a description gives that description back, "" included |
| JiraClient.ParagraphTextsFromTextNodes | jira_client.py:201-205 | each text node's text is collected, and each collected text comes from a text node |
| JiraClient.ParagraphTextsSingle | jira_client.py:203-205 | one child gives its text ("" when it has none) if it is a text node, and nothing otherwise |
| JiraClient.ParagraphTextsAppend | jira_client.py:203-205 | the texts of two runs of children are the first run's, then the second's: order and repeats are kept |
| JiraClient.TextPartsSingle | jira_client.py:201-205 | one top-level node gives the texts of its own children |
| JiraClient.TextPartsAppend | jira_client.py:201-205 | the texts of two runs of top-level nodes are the first run's, then the second's |
| JiraClient.ExtractDescriptionText | jira_client.py:195-207 | the nested loops join, with single spaces, the texts of text nodes directly inside paragraphs, in order |
| JiraClient.CreateIssue | mvp_jira_client.py:23-62 | the request goes to `/rest/api/3/issue` with project MBA, the summary, the issue type, and as description exactly the version 1 doc holding one paragraph holding one text node, whose text reads back as the description; success iff status 201, with the returned key and `base/browse/key`; otherwise "Failed to create issue: <status> <text>"; jira_client.py:23-62 is the same code |
| JiraClient.UpdateFields | jira_client.py:66-89 | exactly the truthy arguments become fields, with their values; the others are omitted |
| JiraClient.UpdateIssue | jira_client.py:64-110 | no truthy field means no request and "No fields to update"; otherwise a PUT of exactly those fields to the issue's URL, success iff status 204 |
| JiraClient.Summarize | jira_client.py:127-134 | the record carries the key, summary, description text, type, status and browse URL |
| JiraClient.SearchRequestFor | jira_client.py:114-120 | the search is sent to `<base>/rest/api/3/search` with the JQL, at most 50 results, and the fields summary, description, issuetype and status |
| JiraClient.SearchResultOf | jira_client.py:123-145 | success iff status 200; the returned issues map one to one, in order, to records, and the total is passed on; otherwise "Failed to search issues: <status> <text>" |
| JiraClient.SearchIssues | jira_client.py:112-145 | the loop sends the search request for the JQL; success iff status 200; the returned issues map one to one, in order, to records; the total is passed on |
| JiraClient.GetIssue | jira_client.py:147-169 | the GET goes to `<base>/rest/api/3/issue/<key>`; found iff status 200, with the issue's record; otherwise "Failed to get issue: <status> <text>" |
| JiraClient.JqlQueries | jira_client.py:174-177 | two searches are run |
| JiraClient.CollectedFromSuccessful | jira_client.py:179-183 | an issue is collected iff some search that succeeded returned it; failed searches add nothing |
| JiraClient.Dedup | jira_client.py:186-191 | the kept issues are at most as many as the issues, and each is one of them |
| JiraClient.DedupKeys | jira_client.py:186-191 | de-duplication keeps every key and no other |
| JiraClient.DedupDistinct | jira_client.py:186-191 | the kept issues have pairwise-distinct keys |
| JiraClient.DedupFirst | jira_client.py:186-191 | each kept issue is the first issue of its key |
| JiraClient.DedupSubsequence | jira_client.py:186-191 | the kept issues keep the order of the concatenation |
| JiraClient.FindIssuesForPr | jira_client.py:171-193 | the two loops return the de-duplicated concatenation of the successful searches' issues |
| JiraClient.FindIssuesForPrCorrect | jira_client.py:171-193 | the result has distinct keys, all the keys found, the first issue of each key, in order |
| GitHubApp.VerifySignature | github_app.py:79-90 | with no secret every signature passes; with one, it passes iff it equals "sha256=" + hex HMAC of the body; non-ASCII text raises |
| GitHubApp.SignatureUnique | github_app.py:84-90 | with a secret, at most one signature passes for a body |
| GitHubApp.StatusCode | github_app.py:267-283 | status 200 exactly for the accepted requests |
| GitHubApp.Member | github_app.py:279 | `get` finds the last member with that key, as `json.loads` keeps the last duplicate, or there is no member with that key |
| GitHubApp.JsonTruthy | github_app.py:279 | a JSON value is false exactly when it is null, false, 0, "", [] or {} |
| GitHubApp.Route | github_app.py:276-283 | only `issue_comment` events whose `issue` has a truthy `pull_request` schedule the handler; other events are accepted unscheduled; a non-object body or `issue` of such an event raises |
| GitHubApp.Webhook | github_app.py:259-283 | a bad signature gives 403, whatever the body; invalid JSON gives 400; a non-UTF-8 body gives 500; otherwise the routing decides; every 200 answer passed the signature and decoded |
| GitHubApp.SignatureBeforeDecoding | github_app.py:263-274 | a wrong ASCII signature is refused before decoding: any decoder gives 403 |
| GitHubApp.FileNames | github_app.py:97-99 | one name per entry, "" for an entry without a filename |
| GitHubApp.ExtractPrContext | github_app.py:92-117 | each present key is copied; an absent text key gives '', an absent count 0, an absent body '' and an absent number `None`; `files_changed` is [] when `changed_files` is absent, otherwise the names in order |
| GitHubApp.ExtractPrContextDefaults | github_app.py:102-115 | an empty pull request gives '' texts, 0 counts, no files |
| GitHubApp.ExtractStoredFiles | github_app.py:234-237 | the context lists exactly the file names the handler stored, in order |
| GitHubApp.ExtractPrContextExample | test_github_app.py:105-125 | the mock pull request gives its title, author, branches, URL, number, repository, two files and counts |
| GitHubApp.FileListText | github_app.py:137 | at most ten names joined by ", ", with "..." after them exactly when there are more than ten |
| GitHubApp.FileListFirstTen | github_app.py:137 | names past the tenth never appear; a long list reads as its first ten plus "..." |
| GitHubApp.ContextText | github_app.py:123-140 | the prompt opens with the title, author, repository and branch lines and the line giving the full number of changed files; it closes with the "Files Changed:" section holding the file list of the first ten names and the user's request on a line of its own |
| GitHubApp.ContextTextFirstTen | github_app.py:123-140 | contexts differing only in names past the tenth give the same prompt |
| GitHubApp.ValidIssueType | github_app.py:183-186 | the type sent is always Task, Story or Epic: the model's when valid, Task otherwise |
| GitHubApp.CreateJiraCardFromPr | github_app.py:119-199 | never raises: every failure carries an error text; a model error, a missing summary (`'summary'`) or description (`'description'`) fail before any request; the request carries the summary, the description and a whitelisted type; a POST that raises fails with the exception's message; a POST that answers was sent exactly `create_issue`'s request (URL, project MBA, summary, whitelisted type, description doc) and gives its result for that response; success iff the POST answers 201 |
| GitHubApp.TriggerFrom | github_app.py:208 | the leftmost position where `@jira-bot` (case-insensitive) is followed by whitespace |
| GitHubApp.SkipSpaces | github_app.py:37 | greedy `\s+` stops at the first non-whitespace character |
| GitHubApp.LineEnd | github_app.py:37 | `.*` stops at the first newline |
| GitHubApp.TriggerCapture | github_app.py:208-210 | there is no match iff the trigger matches nowhere; otherwise the capture is the rest of the line that starts after the whitespace following the leftmost trigger, that whitespace is not empty, and the capture never spans a newline |
| GitHubApp.UserRequest | github_app.py:212 | the request is the stripped capture, and exists iff the trigger matched |
| GitHubApp.TriggerCaptureRoundTrip | github_app.py:37 | after text without "@", the marker and a space, a one-line request not starting with whitespace is captured whole |
| GitHubApp.UserRequestRoundTrip | github_app.py:207-212 | such a request, not ending in whitespace either, is read back exactly |
| GitHubApp.TriggerCaptureAcrossLines | github_app.py:37 | "@JIRA-Bot", a newline and spaces, then a line: the capture is that line |
| GitHubApp.UserRequestAcrossLines | github_app.py:208-212 | that comment's request is "make a task" |
| GitHubApp.UserRequestNeedsSpace | github_app.py:208-210 | the marker with nothing or a non-space after it does not match |
| GitHubApp.UserRequestBlank | github_app.py:212-214 | the marker followed only by whitespace gives an empty request |
| GitHubApp.CommentText | github_app.py:241-244 | the comment starts with ✅ iff the issue was created, then shows the key, URL and title; a failure reads "❌ Failed to create JIRA issue: " and the error, or "Unknown error" |
| GitHubApp.HandlePrComment | github_app.py:201-252 | no comment without a trigger, with an empty request, without a pull request, without an installation id, without repository name or number, or when the GitHub calls fail; otherwise the comment for the card created from the context with the fetched files |
| GitHubApp.HandlerFailuresCarryErrors | github_app.py:197-199 | a failure comment always shows the actual error, never the "Unknown error" fallback |

## Left out

- I/O: reading the prompt file, the HTTP transport (FastAPI, uvicorn, `requests`), the
  background-task scheduling and the health endpoints. Responses are inputs of the model.
- Cryptography and authentication: the HMAC-SHA-256 digest is a function parameter, and
  the comparison is equality. The timing behaviour of `hmac.compare_digest`, JWT signing,
  installation tokens and the base64 private key are not modelled.
- The model, GitHub and JIRA calls are parameters:
  - `llm` for the Bedrock call and the decoding of its answer;
  - `fetchFiles` for the token and the PyGithub calls that list the files;
  - `post`, `respond` and the `HttpResponse` values for the JIRA requests.
- Posting the reply comment and the logging after it: the handler returns the comment it
  posts.
- mvp_bedrock_client.py and mvp_mcp_server.py are not part of this model. They are
  protocol wrappers with an interactive loop, and their only logic repeats the
  issue-type whitelist and `create_issue`.
- config.py is not part of this model. Its digest limits are the parameters
  `DiffLimits`, with defaults 8000 and 2000.
- JSON values of unexpected types: a JSON response body is typed by the keys it must
  have, and other shapes are not modelled. For example, a null `content` inside a
  paragraph, a 201 body that is not JSON, or a non-string summary are not covered.
- JSON numbers are integers; floating point is not modelled.
- Nested dictionaries of the pull request are flattened to the one key read from each
  (`user.login`, `head.ref`, `base.ref`, `base.repo.full_name`). A present but empty
  `user` dictionary therefore cannot be told apart from an absent one.
- The typed comment event is not derived from the decoded webhook JSON: `Webhook`
  decides routing on the JSON, `HandlePrComment` reads the typed event.
- GitHubApp.MatchesIgnoringCase: only ASCII case and the two Turkish i letters are folded.
  The marker's other letters have no further case variants, so nothing else is lost.
- JiraClient.JqlQueries: its contract states only that there are two queries; their
  exact JQL text is its definition.
- Services.FileBlock: its contract states only that a block is longer than its header;
  the exact layout is stated by FileBlockNoPatch and FileBlockPatch.
