# OSS Security Assessments Manager — a verified model

This project models the tooling that prepares open-source repositories for a
security assessment and the scripts that gather what the assessment needs.

**The fork-and-configure tool** (`cli.py`, `github_selenium.py`) walks the
catalog of an organisation's repositories. Each repository with at least 100
stars that is neither archived nor a fork goes through three steps:

- it is forked into the assessment organisation under `owner__name`, reusing
  an existing fork and retrying on 403;
- GitHub Actions is enabled on the fork by driving a browser;
- the fork is configured: issues, projects and wiki are switched off, and
  every workflow that is not security related is disabled.

**The scripts** do the following:

- page through an organisation's code scanning alerts (`code_scanning_puller.py`,
  `code_scanning_puller2.py`);
- collect the GitHub repositories named by the Wolfi package descriptors
  (`wolfi-repo-names.py`);
- tally the package URLs and missing references in the repositories' SBOMs
  (`repository_enhancer.py`);
- fetch the languages and code scanning setup of the forked copies
  (`pull_languages.py`).

Everything that leaves the process is an input of the model:

- the GitHub client, the HTTP library and the browser are given as oracle
  outcomes, either a value returned or an exception raised;
- the loaded files and YAML documents are given as values.

Each operation that works step by step is a method with loop invariants,
proved equal to a function that specifies it. The properties the code
promises are lemmas about those functions.

Modules, one per source file plus shared ones:

| module | file | models |
|---|---|---|
| `Outcomes` | `outcomes.dfy` | `Option`, the exceptions the code raises or catches, the outcome of a call |
| `PyStrings` | `pystrings.dfy` | Python's `in`, `find`, `split`, `join`, `replace`, `strip`, `lower`, `startswith`, `endswith` and slicing |
| `PyStringFacts` | `string_facts.dfy` | what those operations guarantee |
| `SeqFacts` | `seq_facts.dfy` | two re-bracketing facts about sequence concatenation |
| `Ordering` | `ordering.dfy` | Python's string order and `sorted(set)` |
| `PyGithub` | `github.dfy` | repositories, organisations, workflows, `get_repo` |
| `GithubSelenium` | `selenium.dfy` | the Chrome driver, the `GitHubSelenium` context manager and `enable_github_actions` |
| `Cli` | `cli.dfy` | `fork_repo_to_org`, `configure_repository_after_fork`, `cli` |
| `CodeScanningPuller` | `puller.dfy` | `code_scanning_puller.py` |
| `CodeScanningPuller2` | `puller2.dfy` | `code_scanning_puller2.py` |
| `WolfiRepoNames` | `wolfi.dfy` | `wolfi-repo-names.py` |
| `RepositoryEnhancer` | `enhancer.dfy` | `repository_enhancer.py` |
| `PullLanguages` | `languages.dfy` | `pull_languages.py` |

**Where the design description and the code differ, the model follows the code:**

- Backoff is linear: the k-th 403 failure of `create_fork` sleeps k seconds,
  and there are at most 5 attempts. It is not a Fibonacci backoff capped at
  20 attempts.
- A workflow is kept enabled only when its lower-cased name mentions
  "security" or "codeql". No other names are kept.
- `repo.edit(has_issues=False, has_projects=False, has_wiki=False)` is issued
  unconditionally. It is not skipped when the three features are already off.
- A 403 on a disable request is swallowed. Any other failure ends the run.
- There is no deferred second pass for pre-existing forks. Every eligible
  repository is processed in catalog order.
- There is no recovery from a lost browser session.
- There is no upstream-sync or merge-upstream pass.

The configure section of `Cli` is stated for any choice `selected` of the
workflows that get a disable request. `ConfigureRepositoryAfterFork` is proved
against it with `selected` = `ToDisable`, which is "not kept enabled and not
already disabled". So every lemma about `ConfigureOutcome` holds in
particular for what the function does.

## Model

| member | source | states |
|---|---|---|
| `PyGithub.GetRepo` | src/oss_security_assessments/cli.py:62-65 | `get_repo` returns the organisation's repository of that name, and raises UnknownObjectException exactly when there is none |
| `Cli.RetryableRun` | src/oss_security_assessments/cli.py:68-84 | the length of the run of consecutive 403 failures of `create_fork` from attempt k on, capped at 5: every attempt in the run is a 403, and the one after it (if under the cap) is not |
| `Cli.ForkRepoToOrg` | src/oss_security_assessments/cli.py:59-85 | the loop's result and its calls (lookup, `create_fork`, sleeps) are those of `ForkOutcome` |
| `Cli.FailedAttemptsShape` | src/oss_security_assessments/cli.py:70-84 | n failed attempts make exactly n `create_fork` calls, each for the derived name with `default_branch_only=True`, and sleep 1, 2, …, n seconds |
| `Cli.ExistingForkReused` | src/oss_security_assessments/cli.py:60-64 | when the organisation already has `owner__name`, that repository is returned after one lookup and nothing else |
| `Cli.OnlyUnknownObjectCreates` | src/oss_security_assessments/cli.py:61-66 | `create_fork` is called if and only if the lookup raised UnknownObjectException; any other lookup failure is raised unchanged |
| `Cli.ForkRetryPolicy` | src/oss_security_assessments/cli.py:68-85 | at most 5 `create_fork` calls, all with the derived name and `default_branch_only=True`; the k-th 403 sleeps k seconds; the first non-403 outcome is returned or raised with no sleep after it; after five 403s the fifth is raised |
| `Cli.ForkIsIdempotent` | src/oss_security_assessments/cli.py:60-66 | once a fork has been created and the organisation lists it, forking again returns the same repository and creates nothing |
| `Cli.FirstFatal` | src/oss_security_assessments/cli.py:48-55 | the index of the first selected workflow whose disable request fails with a status other than 403; none before it does |
| `Cli.ConfigureRepositoryAfterFork` | src/oss_security_assessments/cli.py:31-56 | the exception raised and the requests made (edit, list, one PUT per disabled workflow) are those of `ConfigureOutcome` with `ToDisable` |
| `Cli.NoFatalDisable` | src/oss_security_assessments/cli.py:39-56 | when no disable request fails fatally, nothing is raised and every selected workflow gets its PUT, in order |
| `Cli.DisableRequestsExact` | src/oss_security_assessments/cli.py:39-52 | the disable requests are exactly one PUT to `/repos/{owner}/{name}/actions/workflows/{id}/disable` per target, in list order |
| `Cli.TargetsExact` | src/oss_security_assessments/cli.py:39-46 | a workflow is a target if and only if it is listed and selected |
| `Cli.DisableRequestsTargets` | src/oss_security_assessments/cli.py:49-52 | every disable request names a listed, selected workflow |
| `Cli.NeverDisablesKept` | src/oss_security_assessments/cli.py:39-45 | whatever fails, no PUT is ever sent for a workflow outside the selection |
| `Cli.KeepsSecurityWorkflows` | src/oss_security_assessments/cli.py:40-45 | no PUT is ever sent for a workflow whose lower-cased name contains "security" or "codeql", or whose state contains "disabled" |
| `Cli.EditAlwaysFirst` | src/oss_security_assessments/cli.py:33-38 | the repository edit is always the first request, with issues, projects and wiki off, and is made exactly once |
| `Cli.ForbiddenIsSwallowed` | src/oss_security_assessments/cli.py:53-56 | when every failing disable request is a 403, nothing is raised and every selected workflow is still processed |
| `Cli.OtherFailureRaised` | src/oss_security_assessments/cli.py:53-55 | the first disable request failing with another status is raised, and no later workflow is examined |
| `Cli.EligibleReposMembers` | src/oss_security_assessments/cli.py:105-114 | a repository is kept if and only if it is in the catalog with at least 100 stars, not archived and not a fork |
| `Cli.EligibleReposAppend` | src/oss_security_assessments/cli.py:105-114 | the filter keeps catalog order: filtering two parts and joining them is filtering the whole |
| `Cli.ProcessRepository` | src/oss_security_assessments/cli.py:105-120 | one pass of the loop body: skips, then fork, enable Actions and configure, stopping at the first step that raises; equal to `ProcessRepo` |
| `Cli.RunCli` | src/oss_security_assessments/cli.py:96-120 | the loop's outcome and stages are those of `CliRun`; the browser session is quit at the end, whatever the outcome |
| `Cli.ProcessRepoShape` | src/oss_security_assessments/cli.py:106-120 | an ineligible repository does nothing; an eligible one starts a non-empty prefix of fork, enable, configure, and all three unless it stops the loop |
| `Cli.LoopStagesPrefix` | src/oss_security_assessments/cli.py:105-120 | from any catalog position, the stages started are a prefix of taking each eligible repository through all three steps in order, and all of them when the loop completes |
| `Cli.CliProcessesEligibleInOrder` | src/oss_security_assessments/cli.py:105-120 | `cli()` never forks an ineligible repository; eligible ones are forked, enabled and configured one after the other in catalog order, and every one of them when nothing raises |
| `GithubSelenium.Driver.constructor` | src/oss_security_assessments/github_selenium.py:20 | a new driver is running and has done nothing |
| `GithubSelenium.Driver.Get` | src/oss_security_assessments/github_selenium.py:28-29 | a navigation is recorded and the current URL becomes the page landed on |
| `GithubSelenium.Driver.Click` | src/oss_security_assessments/github_selenium.py:72-75 | a click is recorded; the page is unchanged |
| `GithubSelenium.Driver.Quit` | src/oss_security_assessments/github_selenium.py:26 | the driver stops running and the quit is recorded |
| `GithubSelenium.IsForkCompleteClassifies` | src/oss_security_assessments/github_selenium.py:43-52 | true if and only if `get_contents("")` succeeds; false if and only if it raised a GithubException whose message mentions "This repository is empty" or "Not Found"; any other exception is raised again |
| `GithubSelenium.HasGithubActionsClassifies` | src/oss_security_assessments/github_selenium.py:54-64 | false if and only if the lookup raised UnknownObjectException or returned None; true for any contents; other exceptions propagate |
| `GithubSelenium.GitHubSelenium.constructor` | src/oss_security_assessments/github_selenium.py:13-16 | no driver before the context is entered |
| `GithubSelenium.GitHubSelenium.Enter` | src/oss_security_assessments/github_selenium.py:18-22 | entering opens a fresh running driver and sets the base URL |
| `GithubSelenium.GitHubSelenium.Exit` | src/oss_security_assessments/github_selenium.py:24-26 | exiting quits the driver opened on entry; without one it fails on the `_d` lookup |
| `GithubSelenium.GitHubSelenium.EnableGithubActions` | src/oss_security_assessments/github_selenium.py:66-86 | the loop's outcome, its `get_contents` requests and its browser events are those of `Settle` over the observations |
| `GithubSelenium.ClickKeepsPolling` | src/oss_security_assessments/github_selenium.py:72-75 | a successful click does not end the loop and makes no API request |
| `GithubSelenium.IncompleteForkPolls` | src/oss_security_assessments/github_selenium.py:77-79 | without the control, an incomplete fork polls again whatever the workflows directory and the URL are |
| `GithubSelenium.ExamineEnds` | src/oss_security_assessments/github_selenium.py:76-86 | an iteration ends the loop without error exactly at the two `break`s (no workflows directory; a complete fork whose URL does not end in "/new") and polls again exactly otherwise |
| `GithubSelenium.EveryIterationNavigates` | src/oss_security_assessments/github_selenium.py:69-70 | every iteration first opens `https://github.com/<full_name>/actions`; the only browser events are those navigations and clicks |
| `GithubSelenium.PollingNeverStops` | src/oss_security_assessments/github_selenium.py:68-69 | while every observation keeps the loop polling, it loads the page once per observation and never ends |
| `GithubSelenium.NoIterationCap` | src/oss_security_assessments/github_selenium.py:68-69 | for every bound there is an environment in which the loop is still polling after that many page loads |
| `GithubSelenium.StopsAtFirstFinish` | src/oss_security_assessments/github_selenium.py:68-86 | the first iteration that ends the loop decides the outcome, and later observations are never consumed |
| `CodeScanningPuller.NextPageCases` | scripts/code_scanning_puller.py:49-52 | no next link (or an empty one) gives no next page; a link without "page=" raises IndexError; otherwise there is a next page |
| `CodeScanningPuller.NextPageBetween` | scripts/code_scanning_puller.py:52 | the next page is the text right after the first "page=", up to the next "page=" or the end, and holds no "page=" |
| `CodeScanningPuller.GetPage` | scripts/code_scanning_puller.py:36-56 | a page is returned only when the request to `.../code-scanning/alerts?page={page}` answered without an error status; its data is that response's body and its next page is read from that response's next link |
| `CodeScanningPuller.GetAll` | scripts/code_scanning_puller.py:71-85 | alerts are returned only when the request to the unpaged `.../code-scanning/alerts` answered without an error status, and they are that response's body |
| `CodeScanningPuller.NextPageOfRequestUrl` | scripts/code_scanning_puller.py:39 | for a login and a page number without '=', the empty one included, the page read back from the page's own request URL is that page number |
| `CodeScanningPuller.PagedRaisesUnpagedSwallows` | scripts/code_scanning_puller.py:36-89 | a failure or error status of the paged URL's request is raised again, while a request failure or error status of the unpaged URL's request gives None; on success each returns its own response's body; each depends only on the outcome of its own URL |
| `CodeScanningPuller2.FirstNextIndex` | scripts/code_scanning_puller2.py:48-51 | the index of the first `link` segment mentioning `rel="next"`; no segment before it does |
| `CodeScanningPuller2.NextPageUrl` | scripts/code_scanning_puller2.py:45-53 | the link-scanning loop gives `NextUrl` of the header |
| `CodeScanningPuller2.FetchCodeScanningAlerts` | scripts/code_scanning_puller2.py:25-53 | the alerts gathered and the URLs requested are those of `Paginate` from the organisation's alerts URL |
| `CodeScanningPuller2.PaginateShape` | scripts/code_scanning_puller2.py:32-53 | the first request is the alerts URL; each later one is the next link of the response before it; every consumed response but the last answered 200; the alerts are those of the 200 responses, in order |
| `CodeScanningPuller2.FailureKeepsEarlierPages` | scripts/code_scanning_puller2.py:37-39 | a non-200 response stops pagination at or before it, and the run is not cut short by running out of responses; when the loop reaches it, the alerts are exactly those of all earlier pages, in order |
| `CodeScanningPuller2.NextUrlFirstSegment` | scripts/code_scanning_puller2.py:48-51 | the first segment with `rel="next"` gives the next URL; later segments are ignored |
| `CodeScanningPuller2.NextUrlSkipsSegment` | scripts/code_scanning_puller2.py:48-49 | a segment without `rel="next"` is passed over |
| `CodeScanningPuller2.NextUrlNone` | scripts/code_scanning_puller2.py:47-53 | a header none of whose comma-separated segments contains `rel="next"` gives no next URL, so the loop ends |
| `CodeScanningPuller2.LinkTargetOfEntry` | scripts/code_scanning_puller2.py:50 | the target of a segment `<url>…` is the text between its first '<' and first '>' |
| `WolfiRepoNames.Lookup` | scripts/wolfi-repo-names.py:9-14 | a key found maps to the value of the last entry with that key, as a loaded YAML mapping keeps the last of a repeated key; a key not found has no entry |
| `WolfiRepoNames.RepositoryCollector.constructor` | scripts/wolfi-repo-names.py:5 | the set starts empty |
| `WolfiRepoNames.RepositoryCollector.AddFromUpdate` | scripts/wolfi-repo-names.py:8-15 | the set grows by exactly what `FromUpdate` adds, and the same exception is raised |
| `WolfiRepoNames.RepositoryCollector.AddFromPipeline` | scripts/wolfi-repo-names.py:18-36 | the set grows by exactly what `FromPipeline` adds; a raise keeps what earlier steps added |
| `WolfiRepoNames.CollectRepositories` | scripts/wolfi-repo-names.py:39-56 | a raise anywhere is the outcome; otherwise the output is the collected set, strictly sorted |
| `WolfiRepoNames.UpdateAddsIdentifier` | scripts/wolfi-repo-names.py:8-15 | an update with a `github` mapping holding a string `identifier` adds exactly that identifier |
| `WolfiRepoNames.UpdateWithoutKeysAddsNothing` | scripts/wolfi-repo-names.py:9-13 | an update without `github`, or whose `github` has no `identifier`, adds nothing |
| `WolfiRepoNames.UpdateAddsOnlyItsIdentifier` | scripts/wolfi-repo-names.py:8-15 | an update adds at most one name, and only the string under `github` → `identifier` |
| `WolfiRepoNames.CheckoutStepContributes` | scripts/wolfi-repo-names.py:22-36 | a `git-checkout` step with a `with` mapping naming a string `repository` contributes that repository with `https://github.com/` removed |
| `WolfiRepoNames.StepContributesOnlyIf` | scripts/wolfi-repo-names.py:22-35 | a step contributes only when `uses` is exactly `git-checkout`, it has `with`, and that holds a string `repository` |
| `WolfiRepoNames.PipelineWithoutStepsAddsNothing` | scripts/wolfi-repo-names.py:19-20 | a pipeline without `steps` adds nothing |
| `WolfiRepoNames.StepsCollectEveryCheckout` | scripts/wolfi-repo-names.py:22-36 | steps that raise nothing add the repository of every contributing step, and nothing else |
| `WolfiRepoNames.PrefixRemoved` | scripts/wolfi-repo-names.py:35 | `https://github.com/owner/name` becomes `owner/name` |
| `WolfiRepoNames.PrefixFreeUnchanged` | scripts/wolfi-repo-names.py:35 | a name without the prefix is unchanged |
| `WolfiRepoNames.BothKeysContribute` | scripts/wolfi-repo-names.py:45-51 | a descriptor with both `update` and `pipeline` gets both contributions, the pipeline unless the update raised |
| `WolfiRepoNames.FromDescriptorsAppend` | scripts/wolfi-repo-names.py:42-51 | reading two lists of descriptors is reading the first, then the second unless the first raised |
| `WolfiRepoNames.RereadChangesNothing` | scripts/wolfi-repo-names.py:15 | adding is idempotent: reading every descriptor twice changes nothing |
| `WolfiRepoNames.OrderDoesNotMatter` | scripts/wolfi-repo-names.py:42-53 | when nothing raises, the sorted output does not depend on the order of the directory listing |
| `WolfiRepoNames.OutputListsEachOnce` | scripts/wolfi-repo-names.py:53-56 | the output lists each collected repository exactly once |
| `Ordering.LessIrreflexive` | scripts/wolfi-repo-names.py:53 | no string sorts before itself |
| `Ordering.LessTransitive` | scripts/wolfi-repo-names.py:53 | the string order is transitive |
| `Ordering.LessTotal` | scripts/wolfi-repo-names.py:53 | of two different strings one sorts first |
| `Ordering.LessAsymmetric` | scripts/wolfi-repo-names.py:53 | two strings never sort before each other |
| `Ordering.SortedDistinct` | scripts/wolfi-repo-names.py:53 | a strictly sorted list has no duplicates |
| `Ordering.SortedListUnique` | scripts/wolfi-repo-names.py:53 | a set has only one sorted listing |
| `Ordering.Sorted` | scripts/repository_enhancer.py:103 | `sorted(s)` lists exactly the elements of the set, strictly increasing |
| `RepositoryEnhancer.LoadWolfiRepositories` | scripts/repository_enhancer.py:53-63 | the loop's list is `Kept` of the lines |
| `RepositoryEnhancer.KeptMembers` | scripts/repository_enhancer.py:56-62 | a name is kept if and only if some line strips to it and it does not start with "jenkinsci" |
| `RepositoryEnhancer.KeptAppend` | scripts/repository_enhancer.py:56-62 | lines are filtered one by one, so file order is kept |
| `RepositoryEnhancer.KeptAreStripped` | scripts/repository_enhancer.py:57-62 | every kept name is already stripped; a blank line gives an empty name that is kept |
| `RepositoryEnhancer.SbomRequestCases` | scripts/repository_enhancer.py:32-50 | the SBOM request raises only what is not a RequestException, and gives an SBOM only for a successful status and a non-empty body |
| `RepositoryEnhancer.SkippedRepositoryContributesNothing` | scripts/repository_enhancer.py:74-76 | a repository without an SBOM contributes nothing |
| `RepositoryEnhancer.FirstPurl` | scripts/repository_enhancer.py:88-97 | the index of the first external reference of type "purl"; none before it is one |
| `RepositoryEnhancer.Tallies.constructor` | scripts/repository_enhancer.py:70-72 | the PURL set and both dictionaries start empty |
| `RepositoryEnhancer.Tallies.RecordPackage` | scripts/repository_enhancer.py:81-100 | the new tallies, or the exception, are those of `AfterPackage` |
| `RepositoryEnhancer.Tallies.RecordSbom` | scripts/repository_enhancer.py:80-100 | the new tallies, or the first exception, are those of `AfterPackages` over the SBOM's packages |
| `RepositoryEnhancer.Enhance` | scripts/repository_enhancer.py:66-122 | a raise is the outcome; otherwise the report holds the sorted PURLs, one dependency page per SBOM lacking references in insertion order, and the per-ecosystem counts |
| `RepositoryEnhancer.ListDependencyPages` | scripts/repository_enhancer.py:111-114 | the loop lists the dependency page of each recorded namespace, in insertion order |
| `RepositoryEnhancer.GetPut` | scripts/repository_enhancer.py:83-85 | after `d[k] = v`, `d[k]` is v and every other key is unchanged |
| `RepositoryEnhancer.PutKeepsOrder` | scripts/repository_enhancer.py:83-85 | an existing key keeps its place; a new key goes last |
| `RepositoryEnhancer.PutKeepsKeysDistinct` | scripts/repository_enhancer.py:83-85 | no key is ever listed twice |
| `RepositoryEnhancer.TotalPut` | scripts/repository_enhancer.py:85 | assigning a count changes the total by the change of that count |
| `RepositoryEnhancer.PackageWithoutRefs` | scripts/repository_enhancer.py:82-86 | a package without `externalRefs` records its SBOM under `documentNamespace` and adds exactly 1 to the count of the text before its first ':'; no PURL and no other count changes |
| `RepositoryEnhancer.RefsWithoutPurlRaise` | scripts/repository_enhancer.py:98-100 | `externalRefs` without a "purl" reference, an empty list included, raises ValueError |
| `RepositoryEnhancer.LaterRefsIgnored` | scripts/repository_enhancer.py:88-97 | references after the first "purl" one make no difference |
| `RepositoryEnhancer.PurlPackageAddsFirst` | scripts/repository_enhancer.py:92-96 | the normalised locator of the first "purl" reference is added to the PURLs; nothing else changes |
| `RepositoryEnhancer.PackagesTally` | scripts/repository_enhancer.py:80-100 | over a tallied SBOM the counts grow by its number of packages without references, no PURL is lost, and no dictionary lists a key twice |
| `RepositoryEnhancer.DependencyUrlOfNamespace` | scripts/repository_enhancer.py:114 | `<repository>/<a>/<b>` gives `<repository>/network/dependencies` |
| `RepositoryEnhancer.DependencyUrlWithoutSlash` | scripts/repository_enhancer.py:114 | a namespace without '/' loses everything and gives the bare suffix |
| `PullLanguages.ReadRepositoryNames` | scripts/pull_languages.py:47-51 | the loop's names are the stripped lines, in file order |
| `PullLanguages.PullRepositoryLanguages` | scripts/pull_languages.py:45-83 | the output list, or the failure that stopped the script, is that of `Entries` |
| `PullLanguages.TransformedNameHasOneSlash` | scripts/pull_languages.py:41-42 | the transformed name is the organisation, '/', and the name with each '/' written "__"; its only '/' ends the organisation |
| `PullLanguages.TransformOwnerName` | scripts/pull_languages.py:41-42 | `owner/name` becomes `Chainguard-Wolfi-Bites-Back/owner__name` |
| `PullLanguages.TransformInjective` | scripts/pull_languages.py:41-42 | for owners without '_', two different repositories never share a transformed name |
| `PullLanguages.UrlsShareRepository` | scripts/pull_languages.py:33-38 | the languages and default-setup URLs extend the repository's API URL |
| `PullLanguages.SkipOnlyOnHttpError` | scripts/pull_languages.py:66-70 | a repository is skipped if and only if its existence check raises HTTPError; other failures are raised |
| `PullLanguages.EntriesFollowSurvivors` | scripts/pull_languages.py:61-83 | a completed run has one entry per surviving repository, in input order, keyed by the transformed name and holding what the two later requests returned |
| `PyStrings.Find` | scripts/code_scanning_puller2.py:50 | `find` gives the first occurrence, or none when there is none |
| `PyStrings.Lower` | src/oss_security_assessments/cli.py:40 | `lower` keeps the length and folds each character |
| `PyStrings.NatToString` | src/oss_security_assessments/cli.py:51 | a workflow id is written in decimal digits without leading zeros |
| `PyStringFacts.ContainsIff` | src/oss_security_assessments/cli.py:40 | `sub in s` holds if and only if `sub` occurs somewhere in `s` |
| `PyStringFacts.LowerFolds` | src/oss_security_assessments/cli.py:40 | a lower-cased name has no upper-case ASCII letter and keeps every other character |
| `PyStringFacts.JoinSplit` | scripts/repository_enhancer.py:114 | joining a split with the same separator gives the string back |
| `PyStringFacts.SplitPartsFree` | scripts/code_scanning_puller.py:52 | no piece of a split contains the separator |
| `PyStringFacts.SplitSecond` | scripts/code_scanning_puller.py:52 | the second piece is the text right after the first separator, up to the next one or the end |
| `PyStringFacts.SplitFree` | scripts/repository_enhancer.py:84 | a string without the separator splits into itself alone |
| `PyStringFacts.SplitAfterFirst` | scripts/code_scanning_puller2.py:46 | splitting `a + sep + b`, where `a` has no `sep`, gives `a` then the pieces of `b` |
| `PyStringFacts.SplitAround` | scripts/repository_enhancer.py:114 | splitting on a character around an occurrence of it splits each side |
| `PyStringFacts.StripShape` | scripts/repository_enhancer.py:57 | `strip` keeps the contiguous middle of the string, removing only whitespace at either end, and the result neither starts nor ends with whitespace |
| `PyStringFacts.StripIdempotent` | scripts/repository_enhancer.py:57 | stripping twice is stripping once |
| `PyStringFacts.ReplaceRemoves` | scripts/pull_languages.py:42 | replacing every '/' by text without '/' leaves no '/' |
| `PyStringFacts.ReplaceIsSubstitution` | scripts/pull_languages.py:42 | `replace` with a one-character target is character-by-character substitution |

## Left out

- `src/oss_security_assessments/onepassword_wrapper.py` is not part of this
  model. It shells out to the 1Password CLI and computes a time-based
  one-time password.
- `src/oss_security_assessments/util.py` and `setup.py` are not part of this
  model. They read the environment and hold packaging metadata.
- `load_github_auth_from_github_hub` and `load_github` are left out. They read
  and parse the hub configuration file.
- The `login` form sequence of `GitHubSelenium` is left out. It is browser
  automation with no decisions; the model's session starts already logged in.
- HTTP requests, PyGithub calls and the raw `requestJsonAndCheck` are left
  out. Their outcomes are inputs.
- Selenium's XPath lookup is reduced to one observation per iteration: the
  page landed on, whether the control is present, and the two `get_contents`
  answers.
- `sleep` is recorded as an effect carrying the number of seconds. Time
  itself is not modelled.
- Printing, `json.dump` and the writing of output files are left out. The
  values that would be written are the results.
- `PackageURL.from_string(...)._replace(version=None).to_string()` is a
  foreign library. It is given as a function that may raise.
- The selenium loop has no bound. The model consumes one observation per
  iteration and reports `Unsettled` when they run out, so the list of
  observations is the fuel. `PollingNeverStops` and `NoIterationCap` state
  that the loop itself never stops.
- `Lower` folds the ASCII letters only. Python's full Unicode case mapping
  is not modelled.
- YAML mappings are modelled with string keys. A YAML key that is a number
  or a boolean is not represented.
- `WolfiRepoNames.Added` treats every non-string identifier as unhashable
  (TypeError). A number or boolean identifier would be added by Python.
- SBOM responses are assumed to be well-formed JSON: `sbom` with
  `packages` and `documentNamespace`, every package with `name`, and every
  external reference with `referenceType` and `referenceLocator`. The
  KeyError a malformed document raises is not modelled.
- `GithubException.data` is taken to be a mapping, so its `message` entry is
  an `Option`. When `data` is None, `'message' in e.data` raises TypeError
  while a 403 is being reported, on a disable request or a fork attempt.
  The model instead swallows or retries that 403.
- The HTTP oracles are deterministic: the same URL always gives the same
  outcome within one run.
- Printed diagnostics are not modelled. This includes the message of a
  swallowed 403 and the per-ecosystem report lines.
