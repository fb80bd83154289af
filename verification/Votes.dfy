/** What a rank contributes to, and gets out of, the per-cycle agreement on cache bits and
    status flags (CacheCoordinator), as sets. */
module Votes {

  datatype Vote = Vote(
    hits: set<nat>,
    invalid: set<nat>,
    uncached: bool,
    invalidInQueue: bool,
    shutdown: bool)

  /** What rank `r` holds after CacheCoordinator::sync: hits common to all ranks and invalid
      on none, everybody's invalid bits, and the disjunction of every flag. */
  ghost function Synced(votes: seq<Vote>, r: nat): Vote
    requires r < |votes|
  {
    var anyInvalid := exists k :: 0 <= k < |votes| && votes[k].invalidInQueue;
    Vote(
      set b | b in votes[r].hits && forall k :: 0 <= k < |votes| ==> b in votes[k].hits - votes[k].invalid,
      if anyInvalid then AllInvalid(votes) else votes[r].invalid,
      exists k :: 0 <= k < |votes| && votes[k].uncached,
      anyInvalid,
      exists k :: 0 <= k < |votes| && votes[k].shutdown)
  }

  ghost function AllInvalid(votes: seq<Vote>): set<nat> {
    set k, b | 0 <= k < |votes| && b in votes[k].invalid :: b
  }
}
