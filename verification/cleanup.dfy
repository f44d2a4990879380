/**
 Applying the retention rule to a repository and to a whole namespace:
 the per-repository counting loop and the run-wide totals.
 */
module Cleanup {
  import opened Retention
  import opened Listing

  /** The four counters kept per repository and summed over a run. */
  datatype Stats = Stats(checked: nat, deleted: nat, kept: nat, errors: nat)

  const Zero := Stats(0, 0, 0, 0)

  /** Every counter of `a` plus the same counter of `b`. */
  function Add(a: Stats, b: Stats): Stats
  {
    Stats(a.checked + b.checked, a.deleted + b.deleted, a.kept + b.kept, a.errors + b.errors)
  }

  /** The decision for the tag at `rank`, whose age comes from the injected clock `ageOf`. */
  function Decide(cfg: Config, tags: seq<Tag>, ageOf: string -> int, rank: nat): Decision
    requires rank < |tags|
  {
    EvaluateTag(tags[rank], rank, ageOf(tags[rank].lastUpdated), cfg)
  }

  /**
   The ranks below `n` whose tag is to be deleted: each such rank once, in
   increasing order, and no other.
   */
  function EligibleRanks(cfg: Config, tags: seq<Tag>, ageOf: string -> int, n: nat): (rs: seq<nat>)
    requires n <= |tags|
    ensures |rs| <= n
    ensures forall k :: 0 <= k < |rs| ==> rs[k] < n && Decide(cfg, tags, ageOf, rs[k]).shouldDelete
    ensures forall k, m :: 0 <= k < m < |rs| ==> rs[k] < rs[m]
    ensures forall r :: 0 <= r < n && Decide(cfg, tags, ageOf, r).shouldDelete ==> r in rs
    decreases n
  {
    if n == 0 then []
    else
      var before := EligibleRanks(cfg, tags, ageOf, n - 1);
      if Decide(cfg, tags, ageOf, n - 1).shouldDelete then before + [n - 1] else before
  }

  /** The names a live run issues delete requests for, among the first `n` tags. */
  function DeleteCalls(cfg: Config, tags: seq<Tag>, ageOf: string -> int, n: nat): (calls: seq<string>)
    requires n <= |tags|
    decreases n
  {
    if n == 0 then []
    else
      DeleteCalls(cfg, tags, ageOf, n - 1) +
      (if Decide(cfg, tags, ageOf, n - 1).shouldDelete then [CallName(tags[n - 1])] else [])
  }

  /** The k-th delete request is for the tag at the k-th eligible rank: one request per such tag, in rank order. */
  lemma {:induction false} DeleteCallsInRankOrder(cfg: Config, tags: seq<Tag>, ageOf: string -> int, n: nat)
    requires n <= |tags|
    ensures |DeleteCalls(cfg, tags, ageOf, n)| == |EligibleRanks(cfg, tags, ageOf, n)|
    ensures forall k :: 0 <= k < |DeleteCalls(cfg, tags, ageOf, n)| ==>
      DeleteCalls(cfg, tags, ageOf, n)[k] == CallName(tags[EligibleRanks(cfg, tags, ageOf, n)[k]])
    decreases n
  {
    if n > 0 { DeleteCallsInRankOrder(cfg, tags, ageOf, n - 1); }
  }

  /**
   How many of the first `n` delete requests of a pass the registry confirms,
   where `deleteTag(k)` is its answer to the k-th request (true for a 204 reply).
   */
  function Confirmed(n: nat, deleteTag: nat -> bool): (c: nat)
    ensures c <= n
    ensures (forall k :: 0 <= k < n ==> deleteTag(k)) ==> c == n
    ensures (forall k :: 0 <= k < n ==> !deleteTag(k)) ==> c == 0
  {
    if n == 0 then 0
    else Confirmed(n - 1, deleteTag) + (if deleteTag(n - 1) then 1 else 0)
  }

  /**
   The counters after the first `n` tags: every tag is checked from the start;
   in a dry run each tag due for deletion counts as deleted, in a live run it
   counts as deleted when the registry confirms the request and as an error
   otherwise; every other tag is kept. `deleteTag(k)` answers the k-th request
   of the pass, so two requests for the same name may be answered differently.
   */
  function TallyUpTo(cfg: Config, tags: seq<Tag>, ageOf: string -> int,
                     deleteTag: nat -> bool, n: nat): (s: Stats)
    requires n <= |tags|
    ensures s.checked == |tags| && s.deleted + s.kept + s.errors == n
    ensures cfg.dryRun ==> s.errors == 0
  {
    var calls := DeleteCalls(cfg, tags, ageOf, n);
    DeleteCallsInRankOrder(cfg, tags, ageOf, n);
    var due, ok := |calls|, Confirmed(|calls|, deleteTag);
    if cfg.dryRun then Stats(|tags|, due, n - due, 0)
    else Stats(|tags|, ok, n - due, due - ok)
  }

  /** The counters `process_repo` reports for `tags`. */
  function RepoStats(cfg: Config, tags: seq<Tag>, ageOf: string -> int,
                     deleteTag: nat -> bool): (s: Stats)
    ensures s.checked == |tags| && s.deleted + s.kept + s.errors == s.checked
    ensures cfg.dryRun ==> s.errors == 0
  {
    TallyUpTo(cfg, tags, ageOf, deleteTag, |tags|)
  }

  /**
   What the counters of a repository mean: every tag due for deletion is
   either deleted or an error, every other tag is kept; a dry run deletes
   them all, a live run deletes those the registry confirms.
   */
  lemma RepoStatsCounts(cfg: Config, tags: seq<Tag>, ageOf: string -> int,
                        deleteTag: nat -> bool)
    ensures var s := RepoStats(cfg, tags, ageOf, deleteTag);
      var due := |EligibleRanks(cfg, tags, ageOf, |tags|)|;
      && s.kept == |tags| - due
      && s.deleted + s.errors == due
      && (cfg.dryRun ==> s.deleted == due && s.errors == 0)
      && (!cfg.dryRun ==> s.deleted == Confirmed(due, deleteTag))
  {
    DeleteCallsInRankOrder(cfg, tags, ageOf, |tags|);
  }

  /** No tag among the first `keepLastN` is due for deletion. */
  lemma {:induction false} NoneDueInWindow(cfg: Config, tags: seq<Tag>, ageOf: string -> int, n: nat)
    requires n <= |tags| && n <= cfg.keepLastN
    ensures EligibleRanks(cfg, tags, ageOf, n) == []
    decreases n
  {
    if n > 0 { NoneDueInWindow(cfg, tags, ageOf, n - 1); }
  }

  /** A repository with no more tags than the window protects loses none of them. */
  lemma WindowProtectsAll(cfg: Config, tags: seq<Tag>, ageOf: string -> int,
                          deleteTag: nat -> bool)
    requires |tags| <= cfg.keepLastN
    ensures DeleteCalls(cfg, tags, ageOf, |tags|) == []
    ensures RepoStats(cfg, tags, ageOf, deleteTag) == Stats(|tags|, 0, |tags|, 0)
  {
    RepoStatsCounts(cfg, tags, ageOf, deleteTag);
    DeleteCallsInRankOrder(cfg, tags, ageOf, |tags|);
    NoneDueInWindow(cfg, tags, ageOf, |tags|);
  }

  /**
   What the tag at rank `n` does: a kept tag adds to `kept` only, a tag due for
   deletion adds one request (in a live run) and to `deleted` when dry or
   confirmed, to `errors` otherwise.
   */
  lemma TallyStep(cfg: Config, tags: seq<Tag>, ageOf: string -> int,
                  deleteTag: nat -> bool, n: nat)
    requires n < |tags|
    ensures DeleteCalls(cfg, tags, ageOf, n + 1) == DeleteCalls(cfg, tags, ageOf, n) +
      (if Decide(cfg, tags, ageOf, n).shouldDelete then [CallName(tags[n])] else [])
    ensures var s := TallyUpTo(cfg, tags, ageOf, deleteTag, n);
      TallyUpTo(cfg, tags, ageOf, deleteTag, n + 1) ==
        if !Decide(cfg, tags, ageOf, n).shouldDelete then s.(kept := s.kept + 1)
        else if cfg.dryRun || deleteTag(|DeleteCalls(cfg, tags, ageOf, n)|) then s.(deleted := s.deleted + 1)
        else s.(errors := s.errors + 1)
  {
    var before := DeleteCalls(cfg, tags, ageOf, n);
    if Decide(cfg, tags, ageOf, n).shouldDelete {
      var after := before + [CallName(tags[n])];
      assert DeleteCalls(cfg, tags, ageOf, n + 1) == after;
      assert Confirmed(|after|, deleteTag) ==
        Confirmed(|before|, deleteTag) + (if deleteTag(|before|) then 1 else 0);
    } else {
      assert DeleteCalls(cfg, tags, ageOf, n + 1) == before + [] == before;
    }
  }

  /**
   The loop of `process_repo` over the tags `get_tags` returned, newest first.
   `deleteTag(k)` answers the k-th delete request (true when the registry confirms it);
   `calls` are the names of the delete requests issued, in order.
   */
  method ProcessTags(cfg: Config, tags: seq<Tag>, ageOf: string -> int,
                     deleteTag: nat -> bool)
    returns (stats: Stats, calls: seq<string>)
    ensures stats == RepoStats(cfg, tags, ageOf, deleteTag)
    // a dry run issues no request; a live run one per tag due for deletion, in rank order
    ensures |calls| == (if cfg.dryRun then 0 else |EligibleRanks(cfg, tags, ageOf, |tags|)|)
    ensures forall k :: 0 <= k < |calls| ==> calls[k] == CallName(tags[EligibleRanks(cfg, tags, ageOf, |tags|)[k]])
    ensures stats.checked == |tags| && stats.deleted + stats.kept + stats.errors == stats.checked
    ensures cfg.dryRun ==> stats.errors == 0
    ensures tags == [] ==> stats == Zero && calls == []
  {
    stats := Stats(|tags|, 0, 0, 0);
    calls := [];
    for rank := 0 to |tags|
      invariant stats == TallyUpTo(cfg, tags, ageOf, deleteTag, rank)
      invariant calls == (if cfg.dryRun then [] else DeleteCalls(cfg, tags, ageOf, rank))
    {
      var tag := tags[rank];
      var decision := EvaluateTag(tag, rank, ageOf(tag.lastUpdated), cfg);
      TallyStep(cfg, tags, ageOf, deleteTag, rank);
      if decision.shouldDelete {
        if cfg.dryRun {
          stats := stats.(deleted := stats.deleted + 1);
        } else {
          var name := CallName(tag);
          assert calls == DeleteCalls(cfg, tags, ageOf, rank);
          var ok := deleteTag(|calls|);
          calls := calls + [name];
          if ok {
            stats := stats.(deleted := stats.deleted + 1);
          } else {
            stats := stats.(errors := stats.errors + 1);
          }
        }
      } else {
        stats := stats.(kept := stats.kept + 1);
      }
    }
    DeleteCallsInRankOrder(cfg, tags, ageOf, |tags|);
  }

  /** The counters of one repository whose tag listing gave the responses `pages`. */
  function ListedRepoStats(cfg: Config, pages: seq<Page<Tag>>, ageOf: string -> int,
                           deleteTag: nat -> bool): (s: Stats)
    ensures s.deleted + s.kept + s.errors == s.checked && (cfg.dryRun ==> s.errors == 0)
  {
    RepoStats(cfg, SortNewestFirst(Listed(pages)), ageOf, deleteTag)
  }

  /** `process_repo`: lists the tags of `repo` from the responses `pages`, then counts them. */
  method ProcessRepo(cfg: Config, repo: string, pages: seq<Page<Tag>>, ageOf: string -> int,
                     deleteTag: nat -> bool)
    returns (stats: Stats, calls: seq<string>)
    requires Terminates(pages)
    ensures stats == ListedRepoStats(cfg, pages, ageOf, deleteTag)
    ensures var tags := SortNewestFirst(Listed(pages));
      |calls| == (if cfg.dryRun then 0 else |EligibleRanks(cfg, tags, ageOf, |tags|)|)
    ensures var tags := SortNewestFirst(Listed(pages));
      forall k :: 0 <= k < |calls| ==> calls[k] == CallName(tags[EligibleRanks(cfg, tags, ageOf, |tags|)[k]])
    ensures stats.deleted + stats.kept + stats.errors == stats.checked && (cfg.dryRun ==> stats.errors == 0)
  {
    var tags, requested := GetTags(cfg, repo, pages);
    stats, calls := ProcessTags(cfg, tags, ageOf, deleteTag);
  }

  /** The component-wise sum of per-repository counters. */
  function SumStats(ss: seq<Stats>): Stats
  {
    if ss == [] then Zero else Add(SumStats(ss[..|ss| - 1]), ss[|ss| - 1])
  }

  /** Totals of balanced counters are balanced, and error-free counters sum to no errors. */
  lemma {:induction false} SumStatsKeepsBalance(ss: seq<Stats>)
    requires forall i :: 0 <= i < |ss| ==> ss[i].deleted + ss[i].kept + ss[i].errors == ss[i].checked
    ensures SumStats(ss).deleted + SumStats(ss).kept + SumStats(ss).errors == SumStats(ss).checked
    ensures (forall i :: 0 <= i < |ss| ==> ss[i].errors == 0) ==> SumStats(ss).errors == 0
  {
    if ss != [] {
      var init := ss[..|ss| - 1];
      assert forall i :: 0 <= i < |init| ==> init[i] == ss[i];
      SumStatsKeepsBalance(init);
    }
  }

  /**
   The counters of each repository in `repos`, in order. The registry is seen
   afresh for each repository processed: `tagPages(i)` are the responses of the
   tag listing made for the i-th repository of the run, and `deleteTag(i)(k)` the
   registry's answer to the k-th delete request made while processing it, so a
   repository named twice is listed again after its first pass.
   */
  function PerRepoStats(cfg: Config, repos: seq<string>, tagPages: nat -> seq<Page<Tag>>,
                        ageOf: string -> int, deleteTag: nat -> nat -> bool): (ss: seq<Stats>)
    ensures |ss| == |repos|
  {
    if repos == [] then []
    else
      var last := |repos| - 1;
      PerRepoStats(cfg, repos[..last], tagPages, ageOf, deleteTag) +
      [ListedRepoStats(cfg, tagPages(last), ageOf, deleteTag(last))]
  }

  lemma {:induction false} PerRepoStatsAt(cfg: Config, repos: seq<string>, tagPages: nat -> seq<Page<Tag>>,
                                          ageOf: string -> int, deleteTag: nat -> nat -> bool, i: nat)
    requires i < |repos|
    ensures PerRepoStats(cfg, repos, tagPages, ageOf, deleteTag)[i] ==
      ListedRepoStats(cfg, tagPages(i), ageOf, deleteTag(i))
  {
    var last := |repos| - 1;
    var init := repos[..last];
    var before := PerRepoStats(cfg, init, tagPages, ageOf, deleteTag);
    var s := ListedRepoStats(cfg, tagPages(last), ageOf, deleteTag(last));
    assert PerRepoStats(cfg, repos, tagPages, ageOf, deleteTag) == before + [s];
    if i < |init| {
      PerRepoStatsAt(cfg, init, tagPages, ageOf, deleteTag, i);
      assert (before + [s])[i] == before[i];
    } else {
      assert (before + [s])[i] == s;
    }
  }

  /** The repositories a run processes: the configured filter if set, else the whole listing. */
  function TargetRepos(cfg: Config, repoPages: seq<Page<string>>): seq<string>
  {
    if cfg.reposToClean != [] then cfg.reposToClean else Listed(repoPages)
  }

  /** The tag listings made for the first `n` repositories of a run all end. */
  predicate ListingsEnd(n: nat, tagPages: nat -> seq<Page<Tag>>)
  {
    forall i :: 0 <= i < n ==> Terminates(tagPages(i))
  }

  /** Processing one more repository appends its counters to those of the ones before. */
  lemma PerRepoStatsExtend(cfg: Config, repos: seq<string>, tagPages: nat -> seq<Page<Tag>>,
                           ageOf: string -> int, deleteTag: nat -> nat -> bool, i: nat)
    requires i < |repos|
    ensures PerRepoStats(cfg, repos[..i + 1], tagPages, ageOf, deleteTag) ==
      PerRepoStats(cfg, repos[..i], tagPages, ageOf, deleteTag) +
      [ListedRepoStats(cfg, tagPages(i), ageOf, deleteTag(i))]
  {
    assert repos[..i + 1][..i] == repos[..i];
  }

  /** Adding one more repository's counters adds them to the totals. */
  lemma SumStatsExtend(ss: seq<Stats>, s: Stats)
    ensures SumStats(ss + [s]) == Add(SumStats(ss), s)
  {
    assert (ss + [s])[..|ss|] == ss;
  }

  /** The loop of `run_cleanup`: processes each repository in turn and sums the counters. */
  method SumRepos(cfg: Config, repos: seq<string>, tagPages: nat -> seq<Page<Tag>>,
                  ageOf: string -> int, deleteTag: nat -> nat -> bool)
    returns (totals: Stats, perRepo: seq<Stats>)
    requires ListingsEnd(|repos|, tagPages)
    ensures perRepo == PerRepoStats(cfg, repos, tagPages, ageOf, deleteTag)
    ensures totals == SumStats(perRepo)
  {
    totals := Zero;
    perRepo := [];
    for i := 0 to |repos|
      invariant perRepo == PerRepoStats(cfg, repos[..i], tagPages, ageOf, deleteTag)
      invariant totals == SumStats(perRepo)
    {
      var stats, calls := ProcessRepo(cfg, repos[i], tagPages(i), ageOf, deleteTag(i));
      PerRepoStatsExtend(cfg, repos, tagPages, ageOf, deleteTag, i);
      SumStatsExtend(perRepo, stats);
      perRepo := perRepo + [stats];
      totals := Add(totals, stats);
    }
    assert repos[..|repos|] == repos;
  }

  /** What the totals of a run say: balanced, error-free in a dry run, one entry per repository. */
  lemma RunTotals(cfg: Config, repos: seq<string>, tagPages: nat -> seq<Page<Tag>>,
                  ageOf: string -> int, deleteTag: nat -> nat -> bool)
    ensures var perRepo := PerRepoStats(cfg, repos, tagPages, ageOf, deleteTag);
      && (forall i :: 0 <= i < |repos| ==>
            perRepo[i] == ListedRepoStats(cfg, tagPages(i), ageOf, deleteTag(i)))
      && SumStats(perRepo).deleted + SumStats(perRepo).kept + SumStats(perRepo).errors == SumStats(perRepo).checked
      && (cfg.dryRun ==> SumStats(perRepo).errors == 0)
      && (repos == [] ==> SumStats(perRepo) == Zero)
  {
    var perRepo := PerRepoStats(cfg, repos, tagPages, ageOf, deleteTag);
    forall i | 0 <= i < |repos|
      ensures perRepo[i] == ListedRepoStats(cfg, tagPages(i), ageOf, deleteTag(i))
    {
      PerRepoStatsAt(cfg, repos, tagPages, ageOf, deleteTag, i);
    }
    SumStatsKeepsBalance(perRepo);
  }

  /**
   One cleanup run. `repoPages` are the responses of the namespace listing,
   `tagPages(i)` those of the tag listing made for the i-th repository processed
   and `deleteTag(i)` the answers to the delete requests made for it. Returns the
   run totals together with the repositories processed and each one's counters.
   */
  method RunCleanup(cfg: Config, repoPages: seq<Page<string>>, tagPages: nat -> seq<Page<Tag>>,
                    ageOf: string -> int, deleteTag: nat -> nat -> bool)
    returns (totals: Stats, repos: seq<string>, perRepo: seq<Stats>)
    requires cfg.reposToClean == [] ==> Terminates(repoPages)
    requires ListingsEnd(|TargetRepos(cfg, repoPages)|, tagPages)
    ensures repos == TargetRepos(cfg, repoPages)
    ensures |perRepo| == |repos|
    ensures forall i :: 0 <= i < |repos| ==>
      perRepo[i] == ListedRepoStats(cfg, tagPages(i), ageOf, deleteTag(i))
    ensures totals == SumStats(perRepo)
    ensures totals.deleted + totals.kept + totals.errors == totals.checked
    ensures cfg.dryRun ==> totals.errors == 0
    ensures repos == [] ==> totals == Zero
  {
    if cfg.reposToClean != [] {
      repos := cfg.reposToClean;
    } else {
      var requested;
      repos, requested := GetRepositories(cfg, repoPages);
    }
    totals, perRepo := SumRepos(cfg, repos, tagPages, ageOf, deleteTag);
    RunTotals(cfg, repos, tagPages, ageOf, deleteTag);
  }
}
