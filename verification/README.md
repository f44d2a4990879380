# Docker Hub tag cleanup — a Dafny model of its retention core

`cleanupdockerhub.py` deletes old image tags from the repositories of a Docker Hub
namespace. A cleanup run works as follows:

- It lists the repositories, or takes an explicit list of repository names.
- For each repository it lists every tag and sorts the tags newest first by their
  `last_updated` timestamp.
- It decides, tag by tag, whether to delete or keep. An excluded name is kept. A
  tag without a timestamp is kept. Otherwise a tag is deleted exactly when its
  0-based rank is at least `KEEP_LAST_N` and its age in whole days is at least
  `MIN_AGE_DAYS`.
- It counts, per repository, the tags checked, deleted, kept and failed, and sums
  those counters over the run.
- In a dry run nothing is deleted and every tag due for deletion is counted as
  deleted.

The model has four modules:

- `Retention` (`retention.dfy`) holds the configuration, the tag record and the
  decision rule `evaluate_tag`, as a pure function.
- `Listing` (`listing.dfy`) covers the cursor-following loop `paginate`, the two
  listings built on it, and the newest-first sort of `get_tags`. The sort is given
  as a stable insertion sort and proved to be a permutation, ordered, and stable.
- `Cleanup` (`cleanup.dfy`) covers the counting loop of `process_repo` and the
  totals loop of `run_cleanup`. Both are methods proved against specification
  functions of the tag list and the oracles.
- `Scenarios` (`scenarios.dfy`) restates three of the tool's `process_repo` unit
  tests on the model: the dry run, the live run and the refused delete. The other
  two are general members: the empty repository is an ensures of
  `Cleanup.ProcessTags`, and the repository inside the window is
  `Cleanup.WindowProtectsAll`. Further scenarios show a repository named twice, a tag
  listed twice, and two tags without a name.

The outside world enters only as parameters:

- `pages` / `repoPages`: the i-th response of a paginated listing. Each response
  is a list of results plus a `next` cursor, where "" means the cursor is absent.
- `tagPages(i)`: the responses of the tag listing made for the i-th repository of a
  run. Each pass gets its own listing, so a repository the filter names twice is
  listed again after its first pass.
- `ageOf`: the whole number of days between a timestamp and the current instant.
- `deleteTag(k)`: whether the registry confirms the k-th delete request of a pass
  over one repository. Answers are given per request, not per name, so two
  requests for the same name can be answered differently. At run level,
  `deleteTag(i)(k)` answers the k-th request made for the i-th repository.

## Model

| member | source | states |
|---|---|---|
| Retention.EvaluateTag | cleanupdockerhub.py:116-156 | An excluded name is kept with reason `Excluded`, before any timestamp check. A non-excluded tag without a timestamp is kept with `NoTimestamp`. Otherwise the tag is deleted iff rank >= keepLastN and age >= minAgeDays. Deletion happens iff the reason is `Eligible`. A kept timestamped tag gets `InWindow` iff rank < keepLastN and `TooYoung` iff it is beyond the window but too young. `Eligible`, `InWindow` and `TooYoung` show the rank 1-based; `Excluded` carries the name and `NoTimestamp` nothing. `Eligible` also carries keepLastN, the age and minAgeDays. `InWindow` carries keepLastN only. `TooYoung` carries the age and minAgeDays. |
| Retention.EvalName | cleanupdockerhub.py:131 | Definition: the name the rule checks against the exclusions, "" when the tag has none. |
| Retention.CallName | cleanupdockerhub.py:170 | Definition: the name used in the delete request, "unknown" when the tag has none. |
| Retention.InclusiveBounds | cleanupdockerhub.py:143-152 | Both bounds are inclusive. Rank keepLastN at age minAgeDays is deleted. Age minAgeDays-1 is kept. Rank keepLastN-1 is kept, with reason `InWindow`. |
| Listing.RepositoriesUrl | cleanupdockerhub.py:87 | Definition: the URL of the first page of a namespace's repository listing, under the API base, with a page size of 100. |
| Listing.TagsUrl | cleanupdockerhub.py:94-97 | Definition: the URL of the first page of a repository's tag listing, under the API base, with a page size of 100. |
| Listing.Served | cleanupdockerhub.py:76-81 | The number of responses a listing consumes. No response before the last has an empty cursor. When some response ends the chain, the last one consumed has an empty cursor. |
| Listing.Paginate | cleanupdockerhub.py:72-82 | The results are the in-order concatenation of every response up to and including the first without a `next` cursor. One request per such response: the first goes to the start URL, each later one to the previous response's cursor. An empty start URL requests nothing and yields nothing. |
| Listing.GetRepositories | cleanupdockerhub.py:85-89 | The repository names are everything the namespace listing yields, in order. The first request goes to the namespace's repository URL with a page size of 100, and each later one to the previous response's cursor. |
| Listing.LexLeReflexive | cleanupdockerhub.py:99 | The string order the sort compares timestamps by is reflexive. |
| Listing.LexLeTotal | cleanupdockerhub.py:99 | That order is total: any two timestamps compare one way or the other. |
| Listing.LexLeTransitive | cleanupdockerhub.py:99 | That order is transitive. |
| Listing.InsertPermutes | cleanupdockerhub.py:99 | Inserting a tag adds exactly that tag to the multiset of tags. |
| Listing.NewestFirstTail | cleanupdockerhub.py:99 | The tail of a newest-first list is newest first, and no tag in it is newer than the head. |
| Listing.ConsSorted | cleanupdockerhub.py:99 | Putting in front a tag at least as new as every tag of a newest-first list keeps the list newest first. |
| Listing.InsertAtMost | cleanupdockerhub.py:99 | Inserting a tag no newer than a bound into tags no newer than that bound gives tags no newer than it. |
| Listing.InsertSorted | cleanupdockerhub.py:99 | Inserting into a newest-first list keeps it newest first. |
| Listing.InsertStable | cleanupdockerhub.py:99 | Among tags with any one timestamp, the inserted tag comes first and the others keep their order. |
| Listing.InsertKeepsTies | cleanupdockerhub.py:99 | Inserting the head into a tie-preserving order of the tail gives a tie-preserving order of the whole list. |
| Listing.SortNewestFirst | cleanupdockerhub.py:99 | The result is a permutation of the input. It is ordered non-increasingly by `last_updated`, with a missing one as "". Tags with equal timestamps keep their listing order, as in a stable sort. |
| Listing.GetTags | cleanupdockerhub.py:92-99 | The tags of a repository are its whole listing, sorted newest first. The first request goes to the repository's tag URL with a page size of 100, and each later one to the previous response's cursor. |
| Cleanup.EligibleRanks | cleanupdockerhub.py:169-173 | Holds each rank whose tag is due for deletion, once, in increasing order, and no other rank. |
| Cleanup.DeleteCalls | cleanupdockerhub.py:173-179 | Definition: the names of the delete requests for the first n tags, one per tag due for deletion, in rank order. |
| Cleanup.DeleteCallsInRankOrder | cleanupdockerhub.py:169-184 | The delete requests are exactly the names of the tags due for deletion, one per tag, in rank order. |
| Cleanup.Confirmed | cleanupdockerhub.py:179-184 | Counts the confirmed requests among the first n of a pass, each request answered on its own: at most n, all n when every one succeeds, none when every one fails. |
| Cleanup.TallyUpTo | cleanupdockerhub.py:167-187 | After n tags, `checked` is the whole list from the start, the other three counters add up to n, and a dry run has no errors. |
| Cleanup.RepoStats | cleanupdockerhub.py:167-195 | The counters of a repository satisfy checked == number of tags == deleted + kept + errors. A dry run has no errors. |
| Cleanup.TallyStep | cleanupdockerhub.py:169-187 | One more tag appends one delete request exactly when that tag is due (in a live run). A kept tag adds to `kept` only. A due tag adds to `deleted` only when the run is dry or the registry confirms this request, the next one in the pass, and to `errors` only otherwise. Processing goes on after a refused request, that is a reply other than 204. |
| Cleanup.RepoStatsCounts | cleanupdockerhub.py:167-187 | `kept` is the number of tags not due for deletion. `deleted + errors` is the number due. A dry run counts every due tag as deleted. A live run counts as deleted exactly the confirmed requests. |
| Cleanup.NoneDueInWindow | cleanupdockerhub.py:143-146 | No tag among the first keepLastN ranks is due for deletion. |
| Cleanup.WindowProtectsAll | test_cleanupdockerhub.py:243-247 | A repository with no more tags than the protected window issues no delete request and keeps every tag. |
| Cleanup.ProcessTags | cleanupdockerhub.py:167-187 | The counting loop yields the counters of `RepoStats`. A dry run issues no delete request. A live run issues one request per tag due for deletion: the k-th names the tag at the k-th eligible rank, so the requests follow rank order. The counters are balanced, a dry run has no errors, and no tags give all-zero counters and no request. |
| Cleanup.ListedRepoStats | cleanupdockerhub.py:163-195 | The counters of a repository as listed and sorted are balanced, and a dry run has no errors. |
| Cleanup.ProcessRepo | cleanupdockerhub.py:163-195 | `process_repo` counts the tags of its listing, sorted newest first. Its delete requests name the tags due for deletion in that sorted order, one each, and there are none in a dry run. Its counters are balanced, and a dry run has no errors. |
| Cleanup.PerRepoStats | cleanupdockerhub.py:222-223 | One counter record per repository processed. |
| Cleanup.PerRepoStatsAt | cleanupdockerhub.py:222-223 | The i-th record is the counters of the i-th repository, from the listing and delete answers of the i-th pass. |
| Cleanup.PerRepoStatsExtend | cleanupdockerhub.py:222-223 | Processing one more repository appends its counters. |
| Cleanup.SumStatsExtend | cleanupdockerhub.py:224-225 | Adding a repository adds each of its counters to the corresponding total. |
| Cleanup.Add | cleanupdockerhub.py:224-225 | Definition: each counter of one record plus the same counter of another. |
| Cleanup.SumStats | cleanupdockerhub.py:221-225 | Definition: the component-wise sum of a list of records, starting from all zeros. |
| Cleanup.SumStatsKeepsBalance | cleanupdockerhub.py:221-225 | The sum of balanced counters is balanced, and error-free counters sum to no errors. |
| Cleanup.SumRepos | cleanupdockerhub.py:221-225 | The totals loop yields the per-repository counters in order and their component-wise sum, starting from zero. |
| Cleanup.TargetRepos | cleanupdockerhub.py:217 | Definition: the configured filter if non-empty, otherwise the namespace listing. |
| Cleanup.RunTotals | cleanupdockerhub.py:221-225 | The run totals are balanced, have no errors in a dry run, and are all zero when there is no repository. |
| Cleanup.RunCleanup | cleanupdockerhub.py:217-225 | The repositories processed are the configured filter if non-empty, otherwise the namespace listing. The i-th one's counters are those of the listing and delete answers of the i-th pass. The totals are their component-wise sum: balanced, error-free in a dry run, and zero for no repositories. |
| Scenarios.DryRunCountsWithoutDeleting | test_cleanupdockerhub.py:196-208 | A dry run over the four-tag scenario counts 4 checked, 1 deleted, 3 kept. |
| Scenarios.LiveRunDeletesEligible | test_cleanupdockerhub.py:210-219 | A live run with a window of 1 requests only the deletion of `v1.0` and counts it deleted. |
| Scenarios.FailedDeleteIsError | test_cleanupdockerhub.py:221-237 | A refused delete request counts as an error and not as a deletion. |
| Scenarios.RepeatedRepoIsListedAgain | cleanupdockerhub.py:217-225 | A repository named twice is listed again for its second pass. The tag its first pass deleted is gone, so it is counted once. |
| Scenarios.RepeatedNameAnsweredPerRequest | cleanupdockerhub.py:169-184 | A tag listed twice gets two delete requests for the same name. When the registry confirms the first and refuses the second, one deletion and one error are counted. |
| Scenarios.NamelessTagsShareOneName | cleanupdockerhub.py:170-184 | Two tags without a name both get a request for "unknown". When only the first is confirmed, one deletion and one error are counted. |

## Left out

- HTTP: the login, listing and delete requests are parameters. The responses of a
  listing are given as `Page` values, and the delete outcome is the `deleteTag`
  oracle. Request headers, time-outs and `raise_for_status` failures are not modelled.
- `get_token` and authentication are not modelled; they involve no logic beyond the
  HTTP call. The code has no retry or backoff for login or pagination, so none is
  modelled.
- Timestamp parsing and the clock: `ageOf` maps a timestamp to its age in whole days.
  The code reads the current time anew for each tag, while the model uses one
  instant for a whole run. A malformed timestamp (an exception in the code) is not
  modelled.
- Listing.Paginate and everything that calls it require the cursor chain to end. The
  code loops for as long as the registry keeps returning a `next` cursor.
- A response without a `results` field (read as an empty list) is a `Page` with no
  results. A repository record without a `name` (an exception in the code) is not
  modelled, since the namespace listing yields names directly.
- A JSON `null` for `last_updated` or `name` is not modelled: a tag's timestamp is a
  string, with "" for a missing one. A missing name is read as "" by the rule and
  as "unknown" in delete requests.
- `deleteTag` covers only the status-code outcome of each delete request: a 204 reply
  confirms it and any other reply refuses it. In the code, a delete request that
  raises, such as a connection error or a time-out, is not caught in `process_repo`
  or `run_cleanup`. It skips the rest of that repository and every later one, and
  aborts the run. The model does not represent that abort.
- The code does not catch exceptions per repository. A failing listing aborts the
  whole run, and the model, which has no exceptions, does not represent that abort.
- The reason strings are reduced to the `Reason` datatype, with the rank shown
  1-based. Logging, the configuration banner and the summary lines are not modelled.
- Reading the configuration from the environment is not modelled; `Config` is a
  parameter.
- `safe_run_cleanup`, `main`, cron validation and the scheduler are process control
  and are not modelled.
