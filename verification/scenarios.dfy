/**
 The scenarios the tool's unit tests exercise, stated on the model: each
 tag's timestamp stands for its age in days through the injected clock.
 */
module Scenarios {
  import opened Retention
  import opened Listing
  import opened Cleanup

  function AgeOf(ts: string): int
  {
    if ts == "1d" then 1 else if ts == "3d" then 3 else if ts == "5d" then 5
    else if ts == "30d" then 30 else 0
  }

  function Named(name: string, ts: string): Tag
  {
    Tag(Some(name), ts)
  }

  /** A dry run over four tags, two in the window of 2, one old enough, one too young. */
  lemma DryRunCountsWithoutDeleting()
    ensures var cfg := Config("ns", 2, 7, {"latest"}, true, []);
      var tags := [Named("v3.0", "1d"), Named("v2.0", "5d"), Named("v1.0", "30d"), Named("v0.9", "3d")];
      RepoStats(cfg, tags, AgeOf, (k: nat) => true) == Stats(4, 1, 3, 0)
  {
  }

  /** A live run with a window of 1 requests the deletion of the older tag only. */
  lemma LiveRunDeletesEligible()
    ensures var cfg := Config("ns", 1, 7, {"latest"}, false, []);
      var tags := [Named("v2.0", "1d"), Named("v1.0", "30d")];
      && DeleteCalls(cfg, tags, AgeOf, 2) == ["v1.0"]
      && RepoStats(cfg, tags, AgeOf, (k: nat) => true) == Stats(2, 1, 1, 0)
  {
  }

  /** A refused delete request is counted as an error, not as a deletion. */
  lemma FailedDeleteIsError()
    ensures var cfg := Config("ns", 1, 7, {}, false, []);
      var tags := [Named("v2.0", "1d"), Named("v1.0", "30d")];
      RepoStats(cfg, tags, AgeOf, (k: nat) => false) == Stats(2, 0, 1, 1)
  {
  }

  /** The tag listings of a run over the same repository twice, after the first pass deleted `v1.0`. */
  function TwoPassPages(i: nat): seq<Page<Tag>>
  {
    if i == 0 then [Page([Named("v1.0", "30d")], "")] else [Page([], "")]
  }

  function AlwaysConfirms(i: nat): nat -> bool
  {
    (k: nat) => true
  }

  const TwoPassConfig := Config("ns", 0, 7, {}, false, ["a", "a"])

  /** The first pass lists `v1.0`, old enough and outside an empty window, and deletes it. */
  lemma FirstPassDeletes()
    ensures ListedRepoStats(TwoPassConfig, TwoPassPages(0), AgeOf, AlwaysConfirms(0)) == Stats(1, 1, 0, 0)
  {
    var tag := Named("v1.0", "30d");
    assert Listed(TwoPassPages(0)) == [tag];
    assert SortNewestFirst([tag]) == [tag];
    assert DeleteCalls(TwoPassConfig, [tag], AgeOf, 1) == ["v1.0"];
  }

  /** The second pass lists no tag. */
  lemma SecondPassFindsNothing()
    ensures ListedRepoStats(TwoPassConfig, TwoPassPages(1), AgeOf, AlwaysConfirms(1)) == Stats(0, 0, 0, 0)
  {
    assert Listed(TwoPassPages(1)) == [];
  }

  /**
   A repository named twice in the filter is listed again for its second pass:
   the tag the first pass deleted is gone, so it is neither requested nor counted twice.
   */
  lemma RepeatedRepoIsListedAgain()
    ensures PerRepoStats(TwoPassConfig, ["a", "a"], TwoPassPages, AgeOf, AlwaysConfirms) ==
      [Stats(1, 1, 0, 0), Stats(0, 0, 0, 0)]
  {
    PerRepoStatsAt(TwoPassConfig, ["a", "a"], TwoPassPages, AgeOf, AlwaysConfirms, 0);
    PerRepoStatsAt(TwoPassConfig, ["a", "a"], TwoPassPages, AgeOf, AlwaysConfirms, 1);
    FirstPassDeletes();
    SecondPassFindsNothing();
  }

  /** The registry confirms the first delete request of a pass and refuses every later one. */
  function FirstOnly(k: nat): bool
  {
    k == 0
  }

  const LiveNoWindow := Config("ns", 0, 7, {}, false, [])

  /**
   A tag listed twice (a page boundary that shifted between requests) gets two
   delete requests for the same name: the first deletes it, the second is refused
   because the tag is gone, so one deletion and one error are counted.
   */
  lemma RepeatedNameAnsweredPerRequest()
    ensures var tags := [Named("v1.0", "30d"), Named("v1.0", "30d")];
      && DeleteCalls(LiveNoWindow, tags, AgeOf, 2) == ["v1.0", "v1.0"]
      && RepoStats(LiveNoWindow, tags, AgeOf, FirstOnly) == Stats(2, 1, 0, 1)
  {
  }

  /** Two tags without a name both get a request for "unknown"; only the first can succeed. */
  lemma NamelessTagsShareOneName()
    ensures var tags := [Tag(None, "30d"), Tag(None, "30d")];
      && DeleteCalls(LiveNoWindow, tags, AgeOf, 2) == ["unknown", "unknown"]
      && RepoStats(LiveNoWindow, tags, AgeOf, FirstOnly) == Stats(2, 1, 0, 1)
  {
  }
}
