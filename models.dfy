/**
 * The records the engine passes between its stages (Models/Results.cs, Models/Membership.cs,
 * and the Vote and Suspect records as the engine uses them).
 */
module Models {
  import opened Wrappers

  /** A cast vote. `id` is set only for rows of the primary (zoom) sheet; `ballot` and `selection`
      may be null in the source, so they are optional; `voter` is never null once read. */
  datatype Vote = Vote(
    id: Option<int>,
    voter: string,
    email: Option<string>,
    ballot: Option<string>,
    selection: Option<string>)

  /** A vote flagged for manual review, with the reason it was flagged. */
  datatype Suspect = Suspect(
    id: Option<int>,
    voter: string,
    ballot: Option<string>,
    selection: Option<string>,
    reason: string)

  /** The merged votes, the rejected repeats, and the suspects found so far. */
  datatype Results = Results(votes: seq<Vote>, duplicates: seq<Vote>, suspects: seq<Suspect>)

  /** The four roster lists. */
  datatype Membership = Membership(
    members: seq<string>,
    aliases: seq<string>,
    outOfDistrictMembers: seq<string>,
    missedDeadline: seq<string>)

  /** The voter key that `OrderBy(x => x.Voter)` sorts on. */
  function VoterOf(v: Vote): string { v.voter }
}
