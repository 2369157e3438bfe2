/** jira_client.py and mvp_jira_client.py: the `SimpleJiraClient` of both files. The two
    `create_issue` methods are the same code, so one definition serves both; the fuller
    client adds `update_issue`, `search_issues`, `get_issue`, `find_issues_for_pr` and
    `_extract_description_text`. The HTTP exchange itself is not modelled: each response
    is an input, carrying its status code, its text and the part of its JSON body read. */
module JiraClient {
  import opened Wrappers
  import opened Text

  // ---------------------------------------------------------------------------
  // The client and its results
  // ---------------------------------------------------------------------------

  /** A client: only the base URL matters here (the credentials go to the session). */
  datatype Client = Client(baseUrl: string)

  /** `SimpleJiraClient.__init__`: the configured URL without its trailing slashes. */
  function NewClient(jiraUrl: string): (client: Client)
    ensures |client.baseUrl| <= |jiraUrl| && client.baseUrl == jiraUrl[..|client.baseUrl|]
    ensures client.baseUrl != [] ==> client.baseUrl[|client.baseUrl| - 1] != '/'
    ensures forall k :: |client.baseUrl| <= k < |jiraUrl| ==> jiraUrl[k] == '/'
  {
    Client(RStripChar(jiraUrl, '/'))
  }

  /** The page of an issue in the JIRA web interface. */
  function BrowseUrl(client: Client, key: string): string {
    client.baseUrl + "/browse/" + key
  }

  /** An HTTP response: the status code, the text, and the part of the JSON body the
      client reads when the status is the expected one. */
  datatype HttpResponse<T> = HttpResponse(status: int, text: string, body: T)

  /** The result dictionary of `create_issue` and `update_issue`: `success: True` with the
      issue key and URL, or `success: False` with an error (absent only in dictionaries
      that do not come from these methods). */
  datatype IssueResult = Succeeded(issueKey: string, url: string) | Failed(error: Option<string>)

  /** The error text of a failed call: `"<what>: <status> <response text>"`. */
  function StatusError(what: string, response: HttpResponse): string {
    what + ": " + IntToString(response.status) + " " + response.text
  }

  // ---------------------------------------------------------------------------
  // Atlassian Document Format
  // ---------------------------------------------------------------------------

  /** A node of an Atlassian Document Format description, as the dictionary the client
      builds or receives: its "type", "version", "text" and "content" keys. */
  datatype AdfNode = AdfNode(
    nodeType: Option<string>,
    version: Option<int>,
    text: Option<string>,
    content: Option<seq<AdfNode>>)

  /** The description document the client sends for a plain-text description: a version 1
      doc holding one paragraph that holds one text node. */
  function AdfDescription(description: string): (doc: AdfNode)
    ensures doc.nodeType == Some("doc") && doc.version == Some(1) && doc.text.None?
    ensures doc.content.Some? && |doc.content.value| == 1
    ensures var para := doc.content.value[0];
      para.nodeType == Some("paragraph") && para.content.Some? && |para.content.value| == 1
      && para.content.value[0] == AdfNode(Some("text"), None, Some(description), None)
  {
    AdfNode(Some("doc"), Some(1), None, Some([
      AdfNode(Some("paragraph"), None, None, Some([
        AdfNode(Some("text"), None, Some(description), None)]))]))
  }

  /** The texts of the text nodes among a paragraph's children, in order (a text node
      without "text" gives ""). */
  function ParagraphTexts(items: seq<AdfNode>): (texts: seq<string>)
    ensures |texts| <= |items|
  {
    if items == [] then []
    else
      var texts := ParagraphTexts(items[..|items| - 1]);
      var item := items[|items| - 1];
      if item.nodeType == Some("text") then texts + [item.text.GetOr("")] else texts
  }

  /** A paragraph's texts are exactly those of its text nodes: each text node's text is
      among them, and each of them comes from a text node. */
  lemma {:induction false} ParagraphTextsFromTextNodes(items: seq<AdfNode>)
    ensures forall k :: 0 <= k < |items| && items[k].nodeType == Some("text") ==>
      items[k].text.GetOr("") in ParagraphTexts(items)
    ensures forall t :: t in ParagraphTexts(items) ==>
      exists k :: 0 <= k < |items| && items[k].nodeType == Some("text") && items[k].text.GetOr("") == t
  {
    if items != [] {
      var init := items[..|items| - 1];
      ParagraphTextsFromTextNodes(init);
      assert forall k :: 0 <= k < |init| ==> items[k] == init[k];
    }
  }

  /** The text a single child contributes: its text when it is a text node. */
  function ItemTexts(item: AdfNode): seq<string> {
    if item.nodeType == Some("text") then [item.text.GetOr("")] else []
  }

  /** A single child contributes its text exactly when it is a text node. */
  lemma ParagraphTextsSingle(item: AdfNode)
    ensures ParagraphTexts([item]) == if item.nodeType == Some("text") then [item.text.GetOr("")] else []
  {
    assert [item][..0] == [];
  }

  /** The last child adds its own texts. */
  lemma ParagraphTextsLast(items: seq<AdfNode>)
    requires items != []
    ensures ParagraphTexts(items) == ParagraphTexts(items[..|items| - 1]) + ItemTexts(items[|items| - 1])
  {
  }

  /** The texts of two runs of children are those of the first run, then those of the
      second: the texts are collected in order, each text node once. */
  lemma {:induction false} ParagraphTextsAppend(a: seq<AdfNode>, b: seq<AdfNode>)
    ensures ParagraphTexts(a + b) == ParagraphTexts(a) + ParagraphTexts(b)
    decreases |b|
  {
    if b == [] {
      assert a + b == a;
    } else {
      var init := b[..|b| - 1];
      var last := b[|b| - 1];
      assert (a + b)[..|a + b| - 1] == a + init;
      assert (a + b)[|a + b| - 1] == last;
      calc {
        ParagraphTexts(a + b);
        { ParagraphTextsLast(a + b); }
        ParagraphTexts(a + init) + ItemTexts(last);
        { ParagraphTextsAppend(a, init); }
        ParagraphTexts(a) + ParagraphTexts(init) + ItemTexts(last);
        { ParagraphTextsLast(b); }
        ParagraphTexts(a) + ParagraphTexts(b);
      }
    }
  }

  /** The texts a top-level node contributes: those of a paragraph's text nodes, nothing
      for any other node. */
  function NodeTexts(node: AdfNode): seq<string> {
    if node.nodeType == Some("paragraph") then ParagraphTexts(node.content.GetOr([])) else []
  }

  /** The texts of all the paragraphs among the top-level nodes, in order. */
  function TextParts(nodes: seq<AdfNode>): seq<string> {
    if nodes == [] then [] else TextParts(nodes[..|nodes| - 1]) + NodeTexts(nodes[|nodes| - 1])
  }

  /** A single top-level node contributes its own texts. */
  lemma TextPartsSingle(node: AdfNode)
    ensures TextParts([node]) == NodeTexts(node)
  {
    assert [node][..0] == [];
  }

  /** The last top-level node adds its own texts. */
  lemma TextPartsLast(nodes: seq<AdfNode>)
    requires nodes != []
    ensures TextParts(nodes) == TextParts(nodes[..|nodes| - 1]) + NodeTexts(nodes[|nodes| - 1])
  {
  }

  /** The texts of two runs of top-level nodes are those of the first run, then those of
      the second. */
  lemma {:induction false} TextPartsAppend(a: seq<AdfNode>, b: seq<AdfNode>)
    ensures TextParts(a + b) == TextParts(a) + TextParts(b)
    decreases |b|
  {
    if b == [] {
      assert a + b == a;
    } else {
      var init := b[..|b| - 1];
      var last := b[|b| - 1];
      assert (a + b)[..|a + b| - 1] == a + init;
      assert (a + b)[|a + b| - 1] == last;
      calc {
        TextParts(a + b);
        { TextPartsLast(a + b); }
        TextParts(a + init) + NodeTexts(last);
        { TextPartsAppend(a, init); }
        TextParts(a) + TextParts(init) + NodeTexts(last);
        { TextPartsLast(b); }
        TextParts(a) + TextParts(b);
      }
    }
  }

  /** The plain text of a description (`None` for a missing or null description). */
  function DescriptionText(description: Option<AdfNode>): (text: string)
    ensures description.None? || description.value.content.None? || description.value.content.value == []
            ==> text == ""
  {
    if description.None? || description.value.content.None? || description.value.content.value == []
    then ""
    else Join(TextParts(description.value.content.value), " ")
  }

  /** Round trip: the text extracted from the document built for a description is that
      description, the empty one included. */
  lemma DescriptionRoundTrip(description: string)
    ensures DescriptionText(Some(AdfDescription(description))) == description
  {
    var para := AdfDescription(description).content.value[0];
    assert ParagraphTexts(para.content.value) == [description] by {
      assert para.content.value[..0] == [];
    }
    assert TextParts([para]) == [description] by {
      assert [para][..0] == [];
    }
  }

  /** One more top-level node adds its texts. */
  lemma TextPartsStep(nodes: seq<AdfNode>, i: nat)
    requires i < |nodes|
    ensures TextParts(nodes[..i + 1]) == TextParts(nodes[..i]) + NodeTexts(nodes[i])
  {
    assert nodes[..i + 1][..i] == nodes[..i];
  }

  /** One more child of a paragraph adds its text if it is a text node. */
  lemma ParagraphTextsStep(items: seq<AdfNode>, j: nat)
    requires j < |items|
    ensures ParagraphTexts(items[..j + 1])
         == ParagraphTexts(items[..j]) + (if items[j].nodeType == Some("text") then [items[j].text.GetOr("")] else [])
  {
    assert items[..j + 1][..j] == items[..j];
  }

  /** `_extract_description_text`: the nested loops collecting the texts. */
  method ExtractDescriptionText(description: Option<AdfNode>) returns (text: string)
    ensures text == DescriptionText(description)
  {
    if description.None? || description.value.content.None? || description.value.content.value == [] {
      return "";
    }
    var nodes := description.value.content.value;
    var textParts: seq<string> := [];
    for i := 0 to |nodes|
      invariant textParts == TextParts(nodes[..i])
    {
      TextPartsStep(nodes, i);
      var node := nodes[i];
      if node.nodeType == Some("paragraph") {
        var items := node.content.GetOr([]);
        ghost var before := textParts;
        for j := 0 to |items|
          invariant textParts == before + ParagraphTexts(items[..j])
        {
          ParagraphTextsStep(items, j);
          if items[j].nodeType == Some("text") {
            textParts := textParts + [items[j].text.GetOr("")];
          }
        }
        assert items[..|items|] == items;
      }
    }
    assert nodes[..|nodes|] == nodes;
    text := Join(textParts, " ");
  }

  // ---------------------------------------------------------------------------
  // create_issue
  // ---------------------------------------------------------------------------

  /** The project every issue is created in. */
  const ProjectKey: string := "MBA"

  /** The "fields" of a create request. */
  datatype IssueFields = IssueFields(
    projectKey: string, summary: string, issueTypeName: string, description: AdfNode)

  /** A POST of a new issue. */
  datatype CreateRequest = CreateRequest(url: string, fields: IssueFields)

  /** The request sent and the result returned by one `create_issue` call. */
  datatype CreateCall = CreateCall(request: CreateRequest, result: IssueResult)

  /** `create_issue(summary, description="", issue_type="Task")`, given the response to its
      POST; the response body read is the new issue's key. */
  function CreateIssue(client: Client, response: HttpResponse<string>, summary: string,
                       description: string := "", issueType: string := "Task"): (call: CreateCall)
    ensures call.request.url == client.baseUrl + "/rest/api/3/issue"
    ensures call.request.fields.projectKey == ProjectKey
    ensures call.request.fields.summary == summary
    ensures call.request.fields.issueTypeName == issueType
    ensures call.request.fields.description == AdfDescription(description)
    ensures DescriptionText(Some(call.request.fields.description)) == description
    ensures call.result.Succeeded? <==> response.status == 201
    ensures call.result.Succeeded? ==>
      call.result.issueKey == response.body && call.result.url == BrowseUrl(client, response.body)
    ensures call.result.Failed? ==>
      call.result.error == Some(StatusError("Failed to create issue", response))
  {
    DescriptionRoundTrip(description);
    var fields := IssueFields(ProjectKey, summary, issueType, AdfDescription(description));
    var request := CreateRequest(client.baseUrl + "/rest/api/3/issue", fields);
    if response.status == 201 then
      CreateCall(request, Succeeded(response.body, BrowseUrl(client, response.body)))
    else
      CreateCall(request, Failed(Some(StatusError("Failed to create issue", response))))
  }

  // ---------------------------------------------------------------------------
  // update_issue
  // ---------------------------------------------------------------------------

  /** A value of the "fields" dictionary of an update. */
  datatype FieldValue = SummaryValue(summary: string) | DescriptionValue(doc: AdfNode) | IssueTypeValue(name: string)

  /** A PUT of changed fields. */
  datatype UpdateRequest = UpdateRequest(url: string, fields: map<string, FieldValue>)

  /** The fields an update sends: exactly the given ones that are not `None` or empty. */
  function UpdateFields(summary: Option<string>, description: Option<string>, issueType: Option<string>)
    : (fields: map<string, FieldValue>)
    ensures fields.Keys <= {"summary", "description", "issuetype"}
    ensures "summary" in fields <==> Truthy(summary)
    ensures "description" in fields <==> Truthy(description)
    ensures "issuetype" in fields <==> Truthy(issueType)
    ensures "summary" in fields ==> fields["summary"] == SummaryValue(summary.value)
    ensures "description" in fields ==> fields["description"] == DescriptionValue(AdfDescription(description.value))
    ensures "issuetype" in fields ==> fields["issuetype"] == IssueTypeValue(issueType.value)
  {
    (if Truthy(summary) then map["summary" := SummaryValue(summary.value)] else map[])
    + (if Truthy(description) then map["description" := DescriptionValue(AdfDescription(description.value))] else map[])
    + (if Truthy(issueType) then map["issuetype" := IssueTypeValue(issueType.value)] else map[])
  }

  /** `update_issue`: fills the fields to change one by one; with none, it fails with
      "No fields to update" and sends nothing; otherwise it sends them and reads the
      response to the PUT (which has no body). */
  method UpdateIssue(client: Client, issueKey: string, summary: Option<string>, description: Option<string>,
                     issueType: Option<string>, response: HttpResponse<()>)
    returns (request: Option<UpdateRequest>, result: IssueResult)
    ensures request.None? <==> !Truthy(summary) && !Truthy(description) && !Truthy(issueType)
    ensures request.None? ==> result == Failed(Some("No fields to update"))
    ensures request.Some? ==> request.value.url == client.baseUrl + "/rest/api/3/issue/" + issueKey
    ensures request.Some? ==> request.value.fields == UpdateFields(summary, description, issueType)
    ensures request.Some? ==> (result.Succeeded? <==> response.status == 204)
    ensures request.Some? && result.Succeeded? ==> result == Succeeded(issueKey, BrowseUrl(client, issueKey))
    ensures request.Some? && result.Failed? ==> result.error == Some(StatusError("Failed to update issue", response))
  {
    var fields: map<string, FieldValue> := map[];
    if summary.Some? && summary.value != "" {
      fields := fields["summary" := SummaryValue(summary.value)];
    }
    if description.Some? && description.value != "" {
      fields := fields["description" := DescriptionValue(AdfDescription(description.value))];
    }
    if issueType.Some? && issueType.value != "" {
      fields := fields["issuetype" := IssueTypeValue(issueType.value)];
    }
    assert fields == UpdateFields(summary, description, issueType);
    if fields == map[] {
      return None, Failed(Some("No fields to update"));
    }
    request := Some(UpdateRequest(client.baseUrl + "/rest/api/3/issue/" + issueKey, fields));
    if response.status == 204 {
      result := Succeeded(issueKey, BrowseUrl(client, issueKey));
    } else {
      result := Failed(Some(StatusError("Failed to update issue", response)));
    }
  }

  // ---------------------------------------------------------------------------
  // search_issues and get_issue
  // ---------------------------------------------------------------------------

  /** An issue as the search and issue endpoints return it, reduced to the fields read. */
  datatype RawIssue = RawIssue(
    key: string, summary: string, description: Option<AdfNode>, issueTypeName: string, statusName: string)

  /** The body of a search response: its "issues" (possibly absent) and "total". */
  datatype SearchBody = SearchBody(issues: Option<seq<RawIssue>>, total: int)

  /** An issue as the client reports it. */
  datatype IssueSummary = IssueSummary(
    key: string, summary: string, description: string, issueType: string, status: string, url: string)

  /** The record the client makes of one returned issue. */
  function Summarize(client: Client, raw: RawIssue): (issue: IssueSummary)
    ensures issue.key == raw.key && issue.summary == raw.summary
    ensures issue.description == DescriptionText(raw.description)
    ensures issue.issueType == raw.issueTypeName && issue.status == raw.statusName
    ensures issue.url == BrowseUrl(client, raw.key)
  {
    IssueSummary(raw.key, raw.summary, DescriptionText(raw.description), raw.issueTypeName,
                 raw.statusName, BrowseUrl(client, raw.key))
  }

  /** The result of `search_issues`. */
  datatype SearchResult = SearchSucceeded(issues: seq<IssueSummary>, total: int) | SearchFailed(error: string)

  /** A POST of a JQL search. */
  datatype SearchRequest = SearchRequest(url: string, jql: string, maxResults: int, fields: seq<string>)

  /** The search request `search_issues` sends for `jql`: a POST to the search endpoint
      asking for at most 50 issues and the four fields the records are made from. */
  function SearchRequestFor(client: Client, jql: string): (request: SearchRequest)
    ensures request.url == client.baseUrl + "/rest/api/3/search"
    ensures request.jql == jql && request.maxResults == 50
    ensures request.fields == ["summary", "description", "issuetype", "status"]
  {
    SearchRequest(client.baseUrl + "/rest/api/3/search", jql, 50, ["summary", "description", "issuetype", "status"])
  }

  /** What `search_issues` returns for a response to its search. */
  function SearchResultOf(client: Client, response: HttpResponse<SearchBody>): (result: SearchResult)
    ensures result.SearchSucceeded? <==> response.status == 200
    ensures result.SearchSucceeded? ==>
      && |result.issues| == |response.body.issues.GetOr([])|
      && (forall i :: 0 <= i < |result.issues| ==>
            result.issues[i] == Summarize(client, response.body.issues.GetOr([])[i]))
      && result.total == response.body.total
    ensures result.SearchFailed? ==> result.error == StatusError("Failed to search issues", response)
  {
    if response.status == 200 then
      var raws := response.body.issues.GetOr([]);
      SearchSucceeded(seq(|raws|, i requires 0 <= i < |raws| => Summarize(client, raws[i])), response.body.total)
    else
      SearchFailed(StatusError("Failed to search issues", response))
  }

  /** `search_issues(jql)`, given the response to its search: it sends the search request
      for `jql`, and on status 200 the returned issues are mapped one to one, in order, to
      issue records. */
  method SearchIssues(client: Client, jql: string, response: HttpResponse<SearchBody>)
    returns (request: SearchRequest, result: SearchResult)
    ensures request == SearchRequestFor(client, jql)
    ensures result == SearchResultOf(client, response)
    ensures result.SearchSucceeded? <==> response.status == 200
    ensures result.SearchSucceeded? ==>
      && |result.issues| == |response.body.issues.GetOr([])|
      && (forall i :: 0 <= i < |result.issues| ==>
            result.issues[i] == Summarize(client, response.body.issues.GetOr([])[i]))
      && result.total == response.body.total
  {
    request := SearchRequest(client.baseUrl + "/rest/api/3/search", jql, 50,
                             ["summary", "description", "issuetype", "status"]);
    if response.status == 200 {
      var raws := response.body.issues.GetOr([]);
      var issues: seq<IssueSummary> := [];
      for i := 0 to |raws|
        invariant |issues| == i
        invariant forall k :: 0 <= k < i ==> issues[k] == Summarize(client, raws[k])
      {
        var raw := raws[i];
        var description := ExtractDescriptionText(raw.description);
        issues := issues + [IssueSummary(raw.key, raw.summary, description, raw.issueTypeName,
                                         raw.statusName, BrowseUrl(client, raw.key))];
      }
      result := SearchSucceeded(issues, response.body.total);
    } else {
      result := SearchFailed(StatusError("Failed to search issues", response));
    }
  }

  /** The result of `get_issue`. */
  datatype IssueLookup = IssueFound(issue: IssueSummary) | LookupFailed(error: string)

  /** The URL one `get_issue` call fetches and what it returns. */
  datatype GetCall = GetCall(url: string, lookup: IssueLookup)

  /** `get_issue(issue_key)`, given the response to its GET. */
  function GetIssue(client: Client, issueKey: string, response: HttpResponse<RawIssue>): (call: GetCall)
    ensures call.url == client.baseUrl + "/rest/api/3/issue/" + issueKey
    ensures call.lookup.IssueFound? <==> response.status == 200
    ensures call.lookup.IssueFound? ==> call.lookup.issue == Summarize(client, response.body)
    ensures call.lookup.LookupFailed? ==> call.lookup.error == StatusError("Failed to get issue", response)
  {
    var url := client.baseUrl + "/rest/api/3/issue/" + issueKey;
    if response.status == 200 then GetCall(url, IssueFound(Summarize(client, response.body)))
    else GetCall(url, LookupFailed(StatusError("Failed to get issue", response)))
  }

  // ---------------------------------------------------------------------------
  // find_issues_for_pr
  // ---------------------------------------------------------------------------

  /** The two searches run for a pull request. */
  function JqlQueries(repoName: string, prNumber: int): (queries: seq<string>)
    ensures |queries| == 2
  {
    [ "project = MBA AND (description ~ \"" + repoName + "\" OR description ~ \"#" + IntToString(prNumber) + "\")",
      "project = MBA AND summary ~ \"" + repoName + "\"" ]
  }

  /** The issues of a search result: those returned, or none when the search failed. */
  function IssuesOf(result: SearchResult): seq<IssueSummary> {
    if result.SearchSucceeded? then result.issues else []
  }

  /** The issues of the searches for `queries`, concatenated in query order; `respond`
      gives the response to each query's search. */
  function Collected(client: Client, queries: seq<string>, respond: string -> HttpResponse<SearchBody>)
    : seq<IssueSummary>
  {
    if queries == [] then []
    else Collected(client, queries[..|queries| - 1], respond)
         + IssuesOf(SearchResultOf(client, respond(queries[|queries| - 1])))
  }

  /** Every collected issue comes from a search that succeeded, and every issue of a search
      that succeeded is collected. */
  lemma {:induction false} CollectedFromSuccessful(client: Client, queries: seq<string>,
                                                   respond: string -> HttpResponse<SearchBody>)
    ensures forall x :: x in Collected(client, queries, respond) <==>
      exists q :: q in queries && SearchResultOf(client, respond(q)).SearchSucceeded?
                  && x in SearchResultOf(client, respond(q)).issues
  {
    if queries != [] {
      var init := queries[..|queries| - 1];
      var last := queries[|queries| - 1];
      CollectedFromSuccessful(client, init, respond);
      assert queries == init + [last];
      forall x
        ensures x in Collected(client, queries, respond) <==>
          exists q :: q in queries && SearchResultOf(client, respond(q)).SearchSucceeded?
                      && x in SearchResultOf(client, respond(q)).issues
      {
        if x in Collected(client, queries, respond) && x !in Collected(client, init, respond) {
          assert x in IssuesOf(SearchResultOf(client, respond(last)));
        }
      }
    }
  }

  /** The keys of the given issues. */
  function KeySet(issues: seq<IssueSummary>): set<string> {
    set i | 0 <= i < |issues| :: issues[i].key
  }

  /** Appending an issue adds its key. */
  lemma KeySetAppend(issues: seq<IssueSummary>, issue: IssueSummary)
    ensures KeySet(issues + [issue]) == KeySet(issues) + {issue.key}
  {
    var longer := issues + [issue];
    forall k | k in KeySet(longer) ensures k in KeySet(issues) + {issue.key} {
      var i :| 0 <= i < |longer| && longer[i].key == k;
      if i < |issues| { assert issues[i].key == k; }
    }
    forall k | k in KeySet(issues) ensures k in KeySet(longer) {
      var i :| 0 <= i < |issues| && issues[i].key == k;
      assert longer[i].key == k;
    }
    assert longer[|issues|].key == issue.key;
  }

  /** The issues with the repeats of a key dropped, keeping the first issue of each key. */
  function Dedup(issues: seq<IssueSummary>): (unique: seq<IssueSummary>)
    ensures |unique| <= |issues|
    ensures forall j :: 0 <= j < |unique| ==> unique[j] in issues
  {
    if issues == [] then []
    else
      var unique := Dedup(issues[..|issues| - 1]);
      var issue := issues[|issues| - 1];
      if issue.key in KeySet(unique) then unique else unique + [issue]
  }

  /** The position of the first issue with key `key`. */
  function FirstIndex(issues: seq<IssueSummary>, key: string): (i: nat)
    requires key in KeySet(issues)
    ensures i < |issues| && issues[i].key == key
    ensures forall j :: 0 <= j < i ==> issues[j].key != key
  {
    if issues[0].key == key then 0
    else
      assert key in KeySet(issues[1..]) by {
        var i :| 0 <= i < |issues| && issues[i].key == key;
        assert issues[1..][i - 1].key == key;
      }
      1 + FirstIndex(issues[1..], key)
  }

  /** Adding an issue at the end does not move the first issue of a key already present. */
  lemma FirstIndexExtend(issues: seq<IssueSummary>, issue: IssueSummary, key: string)
    requires key in KeySet(issues)
    ensures key in KeySet(issues + [issue])
    ensures FirstIndex(issues + [issue], key) == FirstIndex(issues, key)
  {
    KeySetAppend(issues, issue);
    var i := FirstIndex(issues, key);
    assert (issues + [issue])[i].key == key;
  }

  /** De-duplication keeps all the keys and no other. */
  lemma {:induction false} DedupKeys(issues: seq<IssueSummary>)
    ensures KeySet(Dedup(issues)) == KeySet(issues)
  {
    if issues != [] {
      var init := issues[..|issues| - 1];
      var issue := issues[|issues| - 1];
      DedupKeys(init);
      assert issues == init + [issue];
      KeySetAppend(init, issue);
      if issue.key !in KeySet(Dedup(init)) {
        KeySetAppend(Dedup(init), issue);
      }
    }
  }

  /** De-duplication leaves pairwise-distinct keys. */
  lemma {:induction false} DedupDistinct(issues: seq<IssueSummary>)
    ensures forall i, j :: 0 <= i < j < |Dedup(issues)| ==> Dedup(issues)[i].key != Dedup(issues)[j].key
  {
    if issues != [] {
      var prev := Dedup(issues[..|issues| - 1]);
      var issue := issues[|issues| - 1];
      DedupDistinct(issues[..|issues| - 1]);
      assert forall i, j :: 0 <= i < j < |prev| ==> prev[i].key != prev[j].key;
      if issue.key !in KeySet(prev) {
        var unique := prev + [issue];
        assert Dedup(issues) == unique;
        forall i, j | 0 <= i < j < |unique| ensures unique[i].key != unique[j].key {
          assert unique[i] == prev[i];
          if j == |prev| {
            assert prev[i].key in KeySet(prev);
          } else {
            assert unique[j] == prev[j];
          }
        }
      }
    }
  }

  /** Each issue kept is the first issue of its key in the input. */
  lemma {:induction false} DedupFirst(issues: seq<IssueSummary>)
    ensures var unique := Dedup(issues);
      forall j :: 0 <= j < |unique| ==>
        unique[j].key in KeySet(issues) && unique[j] == issues[FirstIndex(issues, unique[j].key)]
  {
    if issues != [] {
      var init := issues[..|issues| - 1];
      var issue := issues[|issues| - 1];
      var prev := Dedup(init);
      DedupFirst(init);
      DedupKeys(init);
      assert issues == init + [issue];
      KeySetAppend(init, issue);
      forall k | k in KeySet(init) ensures FirstIndex(issues, k) == FirstIndex(init, k) {
        FirstIndexExtend(init, issue, k);
      }
      if issue.key !in KeySet(prev) {
        assert FirstIndex(issues, issue.key) == |init|;
      }
    }
  }

  /** De-duplication keeps the input order. */
  lemma {:induction false} DedupSubsequence(issues: seq<IssueSummary>)
    ensures IsSubsequence(Dedup(issues), issues)
  {
    if issues != [] {
      var init := issues[..|issues| - 1];
      var issue := issues[|issues| - 1];
      var prev := Dedup(init);
      DedupSubsequence(init);
      if issue.key in KeySet(prev) {
        assert IsSubsequence(prev, issues);
      } else {
        var unique := prev + [issue];
        assert unique[..|unique| - 1] == prev;
        assert IsSubsequence(unique, issues);
      }
    }
  }

  /** One more query adds the issues of its search, if it succeeded. */
  lemma CollectedStep(client: Client, queries: seq<string>, q: nat, respond: string -> HttpResponse<SearchBody>)
    requires q < |queries|
    ensures Collected(client, queries[..q + 1], respond)
         == Collected(client, queries[..q], respond) + IssuesOf(SearchResultOf(client, respond(queries[q])))
  {
    assert queries[..q + 1][..q] == queries[..q];
  }

  /** One more issue is kept exactly when its key is new. */
  lemma DedupStep(issues: seq<IssueSummary>, i: nat)
    requires i < |issues|
    ensures Dedup(issues[..i + 1])
         == if issues[i].key in KeySet(Dedup(issues[..i])) then Dedup(issues[..i]) else Dedup(issues[..i]) + [issues[i]]
  {
    assert issues[..i + 1][..i] == issues[..i];
  }

  /** `find_issues_for_pr`: runs the two searches, concatenates the issues of those that
      succeeded, and keeps the first issue of each key; `respond` gives the response to
      each search. */
  method FindIssuesForPr(client: Client, repoName: string, prNumber: int,
                         respond: string -> HttpResponse<SearchBody>)
    returns (uniqueIssues: seq<IssueSummary>)
    ensures uniqueIssues == Dedup(Collected(client, JqlQueries(repoName, prNumber), respond))
  {
    var jqlQueries := JqlQueries(repoName, prNumber);
    var allIssues: seq<IssueSummary> := [];
    for q := 0 to |jqlQueries|
      invariant allIssues == Collected(client, jqlQueries[..q], respond)
    {
      CollectedStep(client, jqlQueries, q, respond);
      var _, result := SearchIssues(client, jqlQueries[q], respond(jqlQueries[q]));
      if result.SearchSucceeded? {
        allIssues := allIssues + result.issues;
      }
    }
    assert jqlQueries[..|jqlQueries|] == jqlQueries;

    var seenKeys: set<string> := {};
    uniqueIssues := [];
    for i := 0 to |allIssues|
      invariant uniqueIssues == Dedup(allIssues[..i])
      invariant seenKeys == KeySet(uniqueIssues)
    {
      DedupStep(allIssues, i);
      var issue := allIssues[i];
      if issue.key !in seenKeys {
        KeySetAppend(uniqueIssues, issue);
        seenKeys := seenKeys + {issue.key};
        uniqueIssues := uniqueIssues + [issue];
      }
    }
    assert allIssues[..|allIssues|] == allIssues;
  }

  /** What `find_issues_for_pr` returns: issues of the successful searches only, one per
      key, each key found by a successful search, the first issue of each key, in order. */
  lemma FindIssuesForPrCorrect(client: Client, repoName: string, prNumber: int,
                               respond: string -> HttpResponse<SearchBody>)
    ensures var all := Collected(client, JqlQueries(repoName, prNumber), respond);
      var unique := Dedup(all);
      && (forall i, j :: 0 <= i < j < |unique| ==> unique[i].key != unique[j].key)
      && KeySet(unique) == KeySet(all)
      && (forall j :: 0 <= j < |unique| ==>
            unique[j].key in KeySet(all) && unique[j] == all[FirstIndex(all, unique[j].key)])
      && IsSubsequence(unique, all)
  {
    var all := Collected(client, JqlQueries(repoName, prNumber), respond);
    DedupDistinct(all);
    DedupKeys(all);
    DedupFirst(all);
    DedupSubsequence(all);
  }
}
