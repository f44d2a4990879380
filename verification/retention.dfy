/**
 The retention rule of the Docker Hub cleanup tool: whether one tag, at a given
 rank in the newest-first listing of its repository, is deleted or kept, and why.
 */
module Retention {

  datatype Option<T> = None | Some(value: T)

  /** The settings the tool reads once at start-up. */
  datatype Config = Config(
    namespace: string,
    keepLastN: nat,
    minAgeDays: nat,
    excludeTags: set<string>,
    dryRun: bool,
    reposToClean: seq<string>)

  /** A tag record as the registry lists it; an absent `last_updated` is "". */
  datatype Tag = Tag(name: Option<string>, lastUpdated: string)

  /** The name the retention rule looks at: an absent name reads as "". */
  function EvalName(tag: Tag): string
  {
    match tag.name
    case Some(n) => n
    case None => ""
  }

  /** The name a delete request is issued for: an absent name reads as "unknown". */
  function CallName(tag: Tag): string
  {
    match tag.name
    case Some(n) => n
    case None => "unknown"
  }

  /** Why a tag is kept or deleted; `position` is the 1-based rank shown to the user. */
  datatype Reason =
    | Excluded(tag: string)
    | NoTimestamp
    | Eligible(position: nat, keep: nat, ageDays: int, minAge: nat)
    | InWindow(position: nat, keep: nat)
    | TooYoung(position: nat, ageDays: int, minAge: nat)

  datatype Decision = Decision(shouldDelete: bool, reason: Reason)

  /**
   Decides one tag. `rank` is its 0-based position in the newest-first order and
   `ageDays` the whole days between its timestamp and the current instant. The
   rules are tried in order and the first that applies wins: an excluded name is
   kept, a missing timestamp is kept, and otherwise the tag is deleted exactly
   when it is both beyond the protected window and old enough.
   */
  function EvaluateTag(tag: Tag, rank: nat, ageDays: int, cfg: Config): (d: Decision)
    // an excluded name is kept whatever its rank, age or timestamp
    ensures EvalName(tag) in cfg.excludeTags ==> d == Decision(false, Excluded(EvalName(tag)))
    // a missing timestamp is kept, whatever the rank and age
    ensures EvalName(tag) !in cfg.excludeTags && tag.lastUpdated == "" ==> d == Decision(false, NoTimestamp)
    // deletion needs all four conditions; both bounds are inclusive
    ensures d.shouldDelete <==>
      EvalName(tag) !in cfg.excludeTags && tag.lastUpdated != "" &&
      rank >= cfg.keepLastN && ageDays >= cfg.minAgeDays
    ensures d.shouldDelete <==> d.reason.Eligible?
    // a kept, timestamped tag is protected by the window exactly when its rank is inside it
    ensures d.reason.InWindow? <==>
      EvalName(tag) !in cfg.excludeTags && tag.lastUpdated != "" && rank < cfg.keepLastN
    ensures d.reason.TooYoung? <==>
      EvalName(tag) !in cfg.excludeTags && tag.lastUpdated != "" &&
      rank >= cfg.keepLastN && ageDays < cfg.minAgeDays
    // the rank a reason shows is 1-based, next to the configured thresholds
    ensures (d.reason.Eligible? || d.reason.InWindow? || d.reason.TooYoung?) ==> d.reason.position == rank + 1
    ensures (d.reason.Eligible? || d.reason.InWindow?) ==> d.reason.keep == cfg.keepLastN
    ensures (d.reason.Eligible? || d.reason.TooYoung?) ==>
      d.reason.ageDays == ageDays && d.reason.minAge == cfg.minAgeDays
  {
    var name := EvalName(tag);
    if name in cfg.excludeTags then
      Decision(false, Excluded(name))
    else if tag.lastUpdated == "" then
      Decision(false, NoTimestamp)
    else
      var beyondKeep := rank >= cfg.keepLastN;
      var oldEnough := ageDays >= cfg.minAgeDays;
      if beyondKeep && oldEnough then
        Decision(true, Eligible(rank + 1, cfg.keepLastN, ageDays, cfg.minAgeDays))
      else if !beyondKeep then
        Decision(false, InWindow(rank + 1, cfg.keepLastN))
      else
        Decision(false, TooYoung(rank + 1, ageDays, cfg.minAgeDays))
  }

  /**
   The boundaries the tool's tests pin down: rank `keepLastN` is the first rank
   past the window and rank `keepLastN - 1` the last one inside it; an age of
   exactly `minAgeDays` is old enough and one day less is not.
   */
  lemma InclusiveBounds(tag: Tag, cfg: Config)
    requires EvalName(tag) !in cfg.excludeTags && tag.lastUpdated != ""
    ensures EvaluateTag(tag, cfg.keepLastN, cfg.minAgeDays, cfg).shouldDelete
    ensures !EvaluateTag(tag, cfg.keepLastN, cfg.minAgeDays - 1, cfg).shouldDelete
    ensures cfg.keepLastN > 0 ==> !EvaluateTag(tag, cfg.keepLastN - 1, cfg.minAgeDays, cfg).shouldDelete
    ensures cfg.keepLastN > 0 ==> EvaluateTag(tag, cfg.keepLastN - 1, cfg.minAgeDays, cfg).reason.InWindow?
  {
  }
}
