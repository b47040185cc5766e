/**
 * The classification passes of `Program` and the order in which `Main` runs the pipeline.
 * The static fields `_membership` and `_results` become the fields of a `Program` object;
 * each pass walks the votes and appends a suspect record for every vote its rule flags.
 */
module Program {
  import opened Wrappers
  import opened Models
  import opened Collections
  import opened Sheets
  import opened XlsService
  import opened TallyReport

  const NotAMember := "Not a member"
  const MissedRegistrationDeadline := "Missed registration deadline"
  const LivesOutsideDistrict := "Lives outside district"

  /** `a.Equals(b, StringComparison.OrdinalIgnoreCase)`: equal length and equal characters once
      each is put through the case mapping `fold`. */
  predicate EqualsIgnoreCase(fold: char -> char, a: string, b: string)
  {
    |a| == |b| && forall i :: 0 <= i < |a| ==> fold(a[i]) == fold(b[i])
  }

  /** `list.FindIndex(x => x.Equals(voter, StringComparison.OrdinalIgnoreCase))`: the first
      position whose entry matches, or -1 when none does. */
  function FindIndex(fold: char -> char, list: seq<string>, voter: string): (r: int)
    ensures -1 <= r < |list|
    ensures r == -1 <==> forall i :: 0 <= i < |list| ==> !EqualsIgnoreCase(fold, list[i], voter)
    ensures r >= 0 ==> EqualsIgnoreCase(fold, list[r], voter) &&
                       forall i :: 0 <= i < r ==> !EqualsIgnoreCase(fold, list[i], voter)
  {
    if list == [] then -1
    else if EqualsIgnoreCase(fold, list[0], voter) then 0
    else
      var r := FindIndex(fold, list[1..], voter);
      if r == -1 then -1 else r + 1
  }

  /** Whether a rule over `list` flags `voter`: the membership rule flags a voter it does NOT find,
      the deadline and district rules flag a voter they DO find. */
  function Flags(fold: char -> char, list: seq<string>, flagIfFound: bool, voter: string): (hit: bool)
    ensures hit <==> (flagIfFound <==> exists i :: 0 <= i < |list| && EqualsIgnoreCase(fold, list[i], voter))
  {
    (FindIndex(fold, list, voter) != -1) == flagIfFound
  }

  /** The suspect record for `v`: Id, Voter, Ballot and Selection copied from the vote. */
  function MakeSuspect(v: Vote, reason: string): Suspect
  {
    Suspect(v.id, v.voter, v.ballot, v.selection, reason)
  }

  /** The records one pass appends, walking `votes` in order. */
  function Screen(fold: char -> char, list: seq<string>, flagIfFound: bool, reason: string, votes: seq<Vote>): seq<Suspect>
  {
    if votes == [] then []
    else
      var n := |votes| - 1;
      Screen(fold, list, flagIfFound, reason, votes[..n]) +
        (if Flags(fold, list, flagIfFound, votes[n].voter) then [MakeSuspect(votes[n], reason)] else [])
  }

  /** The positions of the votes a rule flags, in increasing order. */
  function FlaggedPositions(fold: char -> char, list: seq<string>, flagIfFound: bool, votes: seq<Vote>): seq<int>
  {
    if votes == [] then []
    else
      var n := |votes| - 1;
      FlaggedPositions(fold, list, flagIfFound, votes[..n]) +
        (if Flags(fold, list, flagIfFound, votes[n].voter) then [n] else [])
  }

  /** `VerifyMembership`: flags voters found in neither the members nor the aliases. */
  function MembershipSuspects(fold: char -> char, m: Membership, votes: seq<Vote>): seq<Suspect>
  {
    Screen(fold, m.members + m.aliases, false, NotAMember, votes)
  }

  /** `VerifyRegistrationDeadline`: flags voters found among the late registrants. */
  function DeadlineSuspects(fold: char -> char, m: Membership, votes: seq<Vote>): seq<Suspect>
  {
    Screen(fold, m.missedDeadline, true, MissedRegistrationDeadline, votes)
  }

  /** `VerifyInDistrict`: flags voters found among the out-of-district members. */
  function DistrictSuspects(fold: char -> char, m: Membership, votes: seq<Vote>): seq<Suspect>
  {
    Screen(fold, m.outOfDistrictMembers, true, LivesOutsideDistrict, votes)
  }

  /** The suspects after `Main`'s three passes, in the order it runs them. */
  function AllSuspects(fold: char -> char, m: Membership, votes: seq<Vote>): seq<Suspect>
  {
    MembershipSuspects(fold, m, votes) + DeadlineSuspects(fold, m, votes) + DistrictSuspects(fold, m, votes)
  }

  // ---------------------------------------------------------------------------
  // Lemmas about the passes
  // ---------------------------------------------------------------------------

  /** `out` holds one record per position of `ps`, made from the vote at that position with
      `reason`; `ps` is increasing and holds exactly the positions of the votes the rule flags. */
  ghost predicate Enumerates(fold: char -> char, list: seq<string>, flagIfFound: bool, reason: string,
                             votes: seq<Vote>, ps: seq<int>, out: seq<Suspect>)
  {
    |out| == |ps| &&
    (forall k :: 0 <= k < |ps| ==> 0 <= ps[k] < |votes| && out[k] == MakeSuspect(votes[ps[k]], reason)) &&
    (forall k, l :: 0 <= k < l < |ps| ==> ps[k] < ps[l]) &&
    (forall i :: 0 <= i < |votes| ==> (i in ps <==> Flags(fold, list, flagIfFound, votes[i].voter)))
  }

  lemma ScreenStep(fold: char -> char, list: seq<string>, flagIfFound: bool, reason: string, front: seq<Vote>, v: Vote)
    requires Enumerates(fold, list, flagIfFound, reason, front,
                        FlaggedPositions(fold, list, flagIfFound, front), Screen(fold, list, flagIfFound, reason, front))
    ensures Enumerates(fold, list, flagIfFound, reason, front + [v],
                       FlaggedPositions(fold, list, flagIfFound, front + [v]), Screen(fold, list, flagIfFound, reason, front + [v]))
  {
    var votes := front + [v];
    var n := |front|;
    assert votes[..n] == front;
    var ps0 := FlaggedPositions(fold, list, flagIfFound, front);
    var ps := FlaggedPositions(fold, list, flagIfFound, votes);
    var out0 := Screen(fold, list, flagIfFound, reason, front);
    var out := Screen(fold, list, flagIfFound, reason, votes);
    var hit := Flags(fold, list, flagIfFound, v.voter);
    assert ps == ps0 + (if hit then [n] else []);
    assert out == out0 + (if hit then [MakeSuspect(v, reason)] else []);
    forall k | 0 <= k < |ps| ensures 0 <= ps[k] < |votes| && out[k] == MakeSuspect(votes[ps[k]], reason) {
      if k < |ps0| {
        assert ps[k] == ps0[k] && out[k] == out0[k] && votes[ps0[k]] == front[ps0[k]];
      }
    }
    forall i | 0 <= i < |votes| ensures i in ps <==> Flags(fold, list, flagIfFound, votes[i].voter) {
      if i < n {
        assert votes[i] == front[i];
        assert i in ps <==> i in ps0;
      }
    }
  }

  /** A pass appends exactly one record per vote its rule flags, in the order of the votes, each
      record copying that vote's Id, Voter, Ballot and Selection and carrying the pass's reason. */
  lemma {:induction false} ScreenSpec(fold: char -> char, list: seq<string>, flagIfFound: bool, reason: string, votes: seq<Vote>)
    ensures Enumerates(fold, list, flagIfFound, reason, votes,
                       FlaggedPositions(fold, list, flagIfFound, votes), Screen(fold, list, flagIfFound, reason, votes))
  {
    if votes != [] {
      var n := |votes| - 1;
      ScreenSpec(fold, list, flagIfFound, reason, votes[..n]);
      ScreenStep(fold, list, flagIfFound, reason, votes[..n], votes[n]);
      assert votes == votes[..n] + [votes[n]];
    }
  }

  /** A pass appends at most one record per vote. */
  lemma {:induction false} ScreenBound(fold: char -> char, list: seq<string>, flagIfFound: bool, reason: string, votes: seq<Vote>)
    ensures |Screen(fold, list, flagIfFound, reason, votes)| <= |votes|
  {
    if votes != [] {
      ScreenBound(fold, list, flagIfFound, reason, votes[..|votes| - 1]);
    }
  }

  /** After the three passes the suspect list holds at most three records per vote. */
  lemma AllSuspectsBound(fold: char -> char, m: Membership, votes: seq<Vote>)
    ensures |AllSuspects(fold, m, votes)| <= 3 * |votes|
  {
    ScreenBound(fold, m.members + m.aliases, false, NotAMember, votes);
    ScreenBound(fold, m.missedDeadline, true, MissedRegistrationDeadline, votes);
    ScreenBound(fold, m.outOfDistrictMembers, true, LivesOutsideDistrict, votes);
  }

  /** The rules do not short-circuit: a vote whose voter matches no member or alias and matches an
      out-of-district entry gets both a "Not a member" and a "Lives outside district" record, the
      first in the membership block and the second in the district block. */
  lemma NonMemberOutsideDistrict(fold: char -> char, m: Membership, votes: seq<Vote>, i: nat)
    requires i < |votes|
    requires forall k :: 0 <= k < |m.members + m.aliases| ==>
      !EqualsIgnoreCase(fold, (m.members + m.aliases)[k], votes[i].voter)
    requires exists k :: 0 <= k < |m.outOfDistrictMembers| && EqualsIgnoreCase(fold, m.outOfDistrictMembers[k], votes[i].voter)
    ensures MakeSuspect(votes[i], NotAMember) in MembershipSuspects(fold, m, votes)
    ensures MakeSuspect(votes[i], LivesOutsideDistrict) in DistrictSuspects(fold, m, votes)
    ensures MakeSuspect(votes[i], NotAMember) != MakeSuspect(votes[i], LivesOutsideDistrict)
  {
    ScreenSpec(fold, m.members + m.aliases, false, NotAMember, votes);
    ScreenSpec(fold, m.outOfDistrictMembers, true, LivesOutsideDistrict, votes);
    var ps := FlaggedPositions(fold, m.members + m.aliases, false, votes);
    var k :| 0 <= k < |ps| && ps[k] == i;
    assert MembershipSuspects(fold, m, votes)[k] == MakeSuspect(votes[i], NotAMember);
    var qs := FlaggedPositions(fold, m.outOfDistrictMembers, true, votes);
    var l :| 0 <= l < |qs| && qs[l] == i;
    assert DistrictSuspects(fold, m, votes)[l] == MakeSuspect(votes[i], LivesOutsideDistrict);
  }

  /** A case mapping for ASCII letters, enough to show the rules ignoring case. */
  function AsciiUpper(c: char): char
  {
    if 'a' <= c <= 'z' then (c as int - 32) as char else c
  }

  /** "alice smith" voting while "Alice Smith" is a member yields no membership record. */
  lemma MemberMatchedIgnoringCase()
    ensures MembershipSuspects(AsciiUpper, Membership(["Alice Smith"], [], [], []),
                               [Vote(None, "alice smith", None, Some("B1"), Some("Yes"))]) == []
  {
    var full := ["Alice Smith"] + [];
    assert EqualsIgnoreCase(AsciiUpper, full[0], "alice smith");
    assert FindIndex(AsciiUpper, full, "alice smith") == 0;
    var votes := [Vote(None, "alice smith", None, Some("B1"), Some("Yes"))];
    assert votes[..0] == [];
    assert !Flags(AsciiUpper, full, false, votes[0].voter);
    assert Screen(AsciiUpper, full, false, NotAMember, votes) == [];
  }

  // ---------------------------------------------------------------------------
  // The program state and its passes
  // ---------------------------------------------------------------------------

  class Program {
    /** The case mapping behind `StringComparison.OrdinalIgnoreCase`. */
    const fold: char -> char
    /** The string order behind `OrderBy` and `List.Sort`. */
    const le: (string, string) -> bool
    var membership: Membership
    var results: Results

    constructor (fold: char -> char, le: (string, string) -> bool)
      ensures this.fold == fold && this.le == le
      ensures membership == Membership([], [], [], [])
      ensures results == Results([], [], [])
    {
      this.fold := fold;
      this.le := le;
      membership := Membership([], [], [], []);
      results := Results([], [], []);
    }

    /** `ReadMembershipFile`: the four roster sheets, each read and sorted. */
    method ReadMembershipFile(members: Sheet, aliases: Sheet, outsiders: Sheet, late: Sheet)
      modifies this
      ensures membership == Membership(
        SortBy(le, Identity, ColumnValues(members)), SortBy(le, Identity, ColumnValues(aliases)),
        SortBy(le, Identity, ColumnValues(outsiders)), SortBy(le, Identity, ColumnValues(late)))
      ensures results == old(results)
    {
      var m := ReadOneColumnWorksheet(le, members);
      var a := ReadOneColumnWorksheet(le, aliases);
      var o := ReadOneColumnWorksheet(le, outsiders);
      var l := ReadOneColumnWorksheet(le, late);
      membership := Membership(m, a, o, l);
    }

    /** `ReadVoteFile`: the manual votes, then the primary rows merged into them. */
    method ReadVoteFile(parseId: string -> int, manual: Sheet, zoom: Sheet)
      modifies this
      ensures results == ZoomResults(le, ManualVotes(manual), ZoomRows(zoom, parseId))
      ensures membership == old(membership)
    {
      var manualVotes := ReadManualVotes(manual);
      results := ReadZoomVotes(le, parseId, zoom, manualVotes);
    }

    /** `VerifyRegistrationDeadline`: appends one record per vote whose voter is a late registrant. */
    method VerifyRegistrationDeadline()
      modifies this
      ensures membership == old(membership)
      ensures results == old(results).(suspects := old(results.suspects) +
                                       DeadlineSuspects(fold, membership, old(results.votes)))
    {
      var votes := results.votes;
      for i := 0 to |votes|
        invariant membership == old(membership)
        invariant results == old(results).(suspects := old(results.suspects) +
          Screen(fold, membership.missedDeadline, true, MissedRegistrationDeadline, votes[..i]))
      {
        assert votes[..i + 1][..i] == votes[..i];
        var vote := votes[i];
        var result := FindIndex(fold, membership.missedDeadline, vote.voter);
        if result != -1 {
          results := results.(suspects := results.suspects + [MakeSuspect(vote, MissedRegistrationDeadline)]);
        }
      }
      assert votes[..|votes|] == votes;
    }

    /** `VerifyInDistrict`: appends one record per vote whose voter lives outside the district. */
    method VerifyInDistrict()
      modifies this
      ensures membership == old(membership)
      ensures results == old(results).(suspects := old(results.suspects) +
                                       DistrictSuspects(fold, membership, old(results.votes)))
    {
      var votes := results.votes;
      for i := 0 to |votes|
        invariant membership == old(membership)
        invariant results == old(results).(suspects := old(results.suspects) +
          Screen(fold, membership.outOfDistrictMembers, true, LivesOutsideDistrict, votes[..i]))
      {
        assert votes[..i + 1][..i] == votes[..i];
        var vote := votes[i];
        var result := FindIndex(fold, membership.outOfDistrictMembers, vote.voter);
        if result != -1 {
          results := results.(suspects := results.suspects + [MakeSuspect(vote, LivesOutsideDistrict)]);
        }
      }
      assert votes[..|votes|] == votes;
    }

    /** `VerifyMembership`: appends one record per vote whose voter is neither a member nor an alias. */
    method VerifyMembership()
      modifies this
      ensures membership == old(membership)
      ensures results == old(results).(suspects := old(results.suspects) +
                                       MembershipSuspects(fold, membership, old(results.votes)))
    {
      var fullMembership := membership.members + membership.aliases;
      var votes := results.votes;
      for i := 0 to |votes|
        invariant membership == old(membership)
        invariant results == old(results).(suspects := old(results.suspects) +
          Screen(fold, fullMembership, false, NotAMember, votes[..i]))
      {
        assert votes[..i + 1][..i] == votes[..i];
        var vote := votes[i];
        var result := FindIndex(fold, fullMembership, vote.voter);
        if result == -1 {
          results := results.(suspects := results.suspects + [MakeSuspect(vote, NotAMember)]);
        }
      }
      assert votes[..|votes|] == votes;
    }

    /** `Main`: read the roster and the votes, run the membership, deadline and district passes
        in that order, and compute the tally the report is written from. */
    method Run(parseId: string -> int, members: Sheet, aliases: Sheet, outsiders: Sheet, late: Sheet,
               manual: Sheet, zoom: Sheet)
      returns (tally: seq<BallotTally>)
      modifies this
      ensures membership == Membership(
        SortBy(le, Identity, ColumnValues(members)), SortBy(le, Identity, ColumnValues(aliases)),
        SortBy(le, Identity, ColumnValues(outsiders)), SortBy(le, Identity, ColumnValues(late)))
      ensures var read := ZoomResults(le, ManualVotes(manual), ZoomRows(zoom, parseId));
        results == read.(suspects := AllSuspects(fold, membership, read.votes))
      ensures tally == Tally(results.votes, results.suspects)
    {
      ReadMembershipFile(members, aliases, outsiders, late);
      ReadVoteFile(parseId, manual, zoom);
      ghost var read := results;
      ghost var m := membership;
      assert read.suspects == [];
      VerifyMembership();
      assert results == read.(suspects := MembershipSuspects(fold, m, read.votes));
      VerifyRegistrationDeadline();
      assert results == read.(suspects := MembershipSuspects(fold, m, read.votes) +
                                          DeadlineSuspects(fold, m, read.votes));
      VerifyInDistrict();
      assert results == read.(suspects := AllSuspects(fold, m, read.votes));
      tally := Tally(results.votes, results.suspects);
    }
  }
}
