/** The pull-request dictionary that `GitHubService.get_pr_with_files` builds and that
    `GitHubJiraBot.extract_pr_context` reads, as a typed record. A key the dictionary
    may lack is an `Option`; nested dictionaries are flattened to the one key read
    from them (`user.login`, `head.ref`, `base.ref`, `base.repo.full_name`). */
module PullRequest {
  import opened Wrappers

  /** One entry of `changed_files`: `{'filename': ...}`. */
  datatype FileEntry = FileEntry(filename: Option<string>)

  datatype PrPayload = PrPayload(
    number: Option<int>,
    title: Option<string>,
    // absent key, JSON null (`None`), or a text
    body: Option<Option<string>>,
    login: Option<string>,
    headRef: Option<string>,
    baseRef: Option<string>,
    repoFullName: Option<string>,
    htmlUrl: Option<string>,
    additions: Option<int>,
    deletions: Option<int>,
    commits: Option<int>,
    changedFiles: Option<seq<FileEntry>>,
    codeDiff: Option<string>)
  {
    /** The dictionary has no key at all, so Python finds it false. */
    predicate IsEmpty() {
      && number.None? && title.None? && body.None? && login.None? && headRef.None?
      && baseRef.None? && repoFullName.None? && htmlUrl.None? && additions.None?
      && deletions.None? && commits.None? && changedFiles.None? && codeDiff.None?
    }
  }

  /** `[{'filename': name} for name in names]`. */
  function FileEntries(names: seq<string>): (entries: seq<FileEntry>)
    ensures |entries| == |names|
    ensures forall i :: 0 <= i < |names| ==> entries[i] == FileEntry(Some(names[i]))
  {
    seq(|names|, i requires 0 <= i < |names| => FileEntry(Some(names[i])))
  }
}
