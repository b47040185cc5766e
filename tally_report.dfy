/**
 * The tally computed by `XlsService.WriteResults`, as a data structure instead of worksheet
 * cells: the distinct ballots in first-appearance order; within each, the distinct selections
 * in first-appearance order with their vote count, and the number of suspect records with the
 * same ballot and selection when that number is positive.
 */
module TallyReport {
  import opened Wrappers
  import opened Models
  import opened Collections

  /** One selection line of a ballot: "Sub Total" and, when positive, "Suspect votes". */
  datatype SelectionTotal = SelectionTotal(selection: Option<string>, subTotal: nat, suspectVotes: Option<nat>)

  /** One "Ballot:" block. */
  datatype BallotTally = BallotTally(ballot: Option<string>, selections: seq<SelectionTotal>)

  /** `results.Votes.Select(x => x.Ballot)` */
  function BallotsOf(votes: seq<Vote>): (bs: seq<Option<string>>)
    ensures |bs| == |votes| && forall i :: 0 <= i < |votes| ==> bs[i] == votes[i].ballot
  {
    seq(|votes|, i requires 0 <= i < |votes| => votes[i].ballot)
  }

  /** `ballotVotes.Select(x => x.Selection)` */
  function SelectionsOf(votes: seq<Vote>): (ss: seq<Option<string>>)
    ensures |ss| == |votes| && forall i :: 0 <= i < |votes| ==> ss[i] == votes[i].selection
  {
    seq(|votes|, i requires 0 <= i < |votes| => votes[i].selection)
  }

  /** The (ballot, selection) pair of each vote. */
  function PairsOf(votes: seq<Vote>): seq<(Option<string>, Option<string>)>
  {
    seq(|votes|, i requires 0 <= i < |votes| => (votes[i].ballot, votes[i].selection))
  }

  /** The (ballot, selection) pair of each suspect record. */
  function SuspectPairsOf(suspects: seq<Suspect>): seq<(Option<string>, Option<string>)>
  {
    seq(|suspects|, i requires 0 <= i < |suspects| => (suspects[i].ballot, suspects[i].selection))
  }

  /** `results.Votes.Where(x => x.Ballot == ballot)` */
  function BallotVotes(votes: seq<Vote>, ballot: Option<string>): seq<Vote>
  {
    if votes == [] then []
    else
      var n := |votes| - 1;
      BallotVotes(votes[..n], ballot) + (if votes[n].ballot == ballot then [votes[n]] else [])
  }

  /** One selection line: `selectionVotes.Count()` and the raw count of suspect records with the
      same selection and ballot, shown only when positive. */
  function Line(ballotVotes: seq<Vote>, suspects: seq<Suspect>, ballot: Option<string>, selection: Option<string>): SelectionTotal
  {
    var disqualified := CountOf(SuspectPairsOf(suspects), (ballot, selection));
    SelectionTotal(selection, CountOf(SelectionsOf(ballotVotes), selection),
                   if disqualified > 0 then Some(disqualified) else None)
  }

  /** The block for one ballot. */
  function Block(votes: seq<Vote>, suspects: seq<Suspect>, ballot: Option<string>): BallotTally
  {
    var ballotVotes := BallotVotes(votes, ballot);
    var selections := Distinct(SelectionsOf(ballotVotes));
    BallotTally(ballot, seq(|selections|, j requires 0 <= j < |selections| =>
      Line(ballotVotes, suspects, ballot, selections[j])))
  }

  /** The whole tally sheet. */
  function Tally(votes: seq<Vote>, suspects: seq<Suspect>): seq<BallotTally>
  {
    var ballots := Distinct(BallotsOf(votes));
    seq(|ballots|, i requires 0 <= i < |ballots| => Block(votes, suspects, ballots[i]))
  }

  /** Sum of the subtotals of a block's lines. */
  function SubTotalSum(lines: seq<SelectionTotal>): nat
  {
    if lines == [] then 0 else SubTotalSum(lines[..|lines| - 1]) + lines[|lines| - 1].subTotal
  }

  /** Sum of all subtotals of the tally. */
  function GrandTotal(t: seq<BallotTally>): nat
  {
    if t == [] then 0 else GrandTotal(t[..|t| - 1]) + SubTotalSum(t[|t| - 1].selections)
  }

  // ---------------------------------------------------------------------------
  // Lemmas
  // ---------------------------------------------------------------------------

  /** Filtering by ballot keeps exactly the votes on that ballot, as many as the ballot occurs. */
  lemma {:induction false} BallotVotesSpec(votes: seq<Vote>, ballot: Option<string>)
    ensures forall v :: v in BallotVotes(votes, ballot) <==> v in votes && v.ballot == ballot
    ensures |BallotVotes(votes, ballot)| == CountOf(BallotsOf(votes), ballot)
  {
    if votes != [] {
      var n := |votes| - 1;
      BallotVotesSpec(votes[..n], ballot);
      assert BallotsOf(votes)[..n] == BallotsOf(votes[..n]);
      assert votes == votes[..n] + [votes[n]];
    }
  }

  /** Counting a selection among the votes of one ballot counts the votes carrying that
      exact (ballot, selection) pair. */
  lemma {:induction false} BallotSelectionCount(votes: seq<Vote>, ballot: Option<string>, selection: Option<string>)
    ensures CountOf(SelectionsOf(BallotVotes(votes, ballot)), selection)
         == CountOf(PairsOf(votes), (ballot, selection))
  {
    if votes != [] {
      var n := |votes| - 1;
      var v := votes[n];
      var front := BallotVotes(votes[..n], ballot);
      BallotSelectionCount(votes[..n], ballot, selection);
      var ps := PairsOf(votes);
      assert ps[..n] == PairsOf(votes[..n]);
      assert ps[n] == (v.ballot, v.selection);
      assert CountOf(ps, (ballot, selection))
          == CountOf(PairsOf(votes[..n]), (ballot, selection)) + (if ps[n] == (ballot, selection) then 1 else 0);
      if v.ballot == ballot {
        var ss := SelectionsOf(front + [v]);
        assert ss[..|front|] == SelectionsOf(front);
        assert CountOf(ss, selection) == CountOf(SelectionsOf(front), selection) + (if v.selection == selection then 1 else 0);
      } else {
        assert BallotVotes(votes, ballot) == front;
      }
    }
  }

  lemma SubTotalSumIsSumCounts(ballotVotes: seq<Vote>, suspects: seq<Suspect>, ballot: Option<string>, ds: seq<Option<string>>)
    ensures SubTotalSum(seq(|ds|, j requires 0 <= j < |ds| => Line(ballotVotes, suspects, ballot, ds[j])))
         == SumCounts(ds, SelectionsOf(ballotVotes))
    decreases |ds|
  {
    var lines := seq(|ds|, j requires 0 <= j < |ds| => Line(ballotVotes, suspects, ballot, ds[j]));
    if ds != [] {
      var n := |ds| - 1;
      SubTotalSumIsSumCounts(ballotVotes, suspects, ballot, ds[..n]);
      assert lines[..n] == seq(n, j requires 0 <= j < n => Line(ballotVotes, suspects, ballot, ds[..n][j]));
    }
  }

  /** The ballots of the tally's blocks, in order. */
  function BlockBallots(t: seq<BallotTally>): seq<Option<string>>
  {
    seq(|t|, i requires 0 <= i < |t| => t[i].ballot)
  }

  /** Ballot blocks: every ballot of the votes exactly once, in order of first appearance among
      the votes, and each block is that ballot's. */
  lemma TallyBallots(votes: seq<Vote>, suspects: seq<Suspect>)
    ensures DistinctOf(BlockBallots(Tally(votes, suspects)), BallotsOf(votes))
    ensures forall i :: 0 <= i < |Tally(votes, suspects)| ==>
      Tally(votes, suspects)[i] == Block(votes, suspects, Tally(votes, suspects)[i].ballot)
  {
    var bs := BallotsOf(votes);
    DistinctSpec(bs);
    assert BlockBallots(Tally(votes, suspects)) == Distinct(bs);
  }

  /** The selections of a block's lines, in order. */
  function LineSelections(lines: seq<SelectionTotal>): seq<Option<string>>
  {
    seq(|lines|, j requires 0 <= j < |lines| => lines[j].selection)
  }

  /** Selection lines of a ballot's block: each selection of the votes on that ballot exactly
      once, in order of first appearance among those votes. */
  lemma TallySelections(votes: seq<Vote>, suspects: seq<Suspect>, ballot: Option<string>)
    ensures DistinctOf(LineSelections(Block(votes, suspects, ballot).selections),
                       SelectionsOf(BallotVotes(votes, ballot)))
  {
    var sels := SelectionsOf(BallotVotes(votes, ballot));
    DistinctSpec(sels);
    assert LineSelections(Block(votes, suspects, ballot).selections) == Distinct(sels);
  }

  /** Each line's subtotal is the number of votes with that exact (ballot, selection) pair and
      is positive; the suspect count is shown exactly when some suspect record has that pair,
      and is then the number of such records, counted without merging records of one vote. */
  lemma TallyLine(votes: seq<Vote>, suspects: seq<Suspect>, ballot: Option<string>, j: nat)
    requires j < |Block(votes, suspects, ballot).selections|
    ensures var l := Block(votes, suspects, ballot).selections[j];
      var c := CountOf(SuspectPairsOf(suspects), (ballot, l.selection));
      l.subTotal == CountOf(PairsOf(votes), (ballot, l.selection)) && l.subTotal > 0 &&
      (c > 0 ==> l.suspectVotes == Some(c)) && (c == 0 ==> l.suspectVotes == None)
  {
    var sels := SelectionsOf(BallotVotes(votes, ballot));
    var d := Distinct(sels);
    DistinctSpec(sels);
    BallotSelectionCount(votes, ballot, d[j]);
    CountOfPositive(sels, d[j]);
  }

  /** The subtotals of a ballot's lines add up to the number of votes on that ballot. */
  lemma TallySubTotals(votes: seq<Vote>, suspects: seq<Suspect>, i: nat)
    requires i < |Tally(votes, suspects)|
    ensures var b := Tally(votes, suspects)[i];
      SubTotalSum(b.selections) == CountOf(BallotsOf(votes), b.ballot)
  {
    var b := Tally(votes, suspects)[i];
    var bv := BallotVotes(votes, b.ballot);
    var ds := Distinct(SelectionsOf(bv));
    SubTotalSumIsSumCounts(bv, suspects, b.ballot, ds);
    DistinctCountsSum(SelectionsOf(bv));
    BallotVotesSpec(votes, b.ballot);
  }

  lemma GrandTotalIsSumCounts(votes: seq<Vote>, suspects: seq<Suspect>, ds: seq<Option<string>>)
    ensures GrandTotal(seq(|ds|, i requires 0 <= i < |ds| => Block(votes, suspects, ds[i])))
         == SumCounts(ds, BallotsOf(votes))
    decreases |ds|
  {
    var t := seq(|ds|, i requires 0 <= i < |ds| => Block(votes, suspects, ds[i]));
    if ds != [] {
      var n := |ds| - 1;
      GrandTotalIsSumCounts(votes, suspects, ds[..n]);
      assert t[..n] == seq(n, i requires 0 <= i < n => Block(votes, suspects, ds[..n][i]));
      var b := Block(votes, suspects, ds[n]);
      var bv := BallotVotes(votes, ds[n]);
      SubTotalSumIsSumCounts(bv, suspects, ds[n], Distinct(SelectionsOf(bv)));
      DistinctCountsSum(SelectionsOf(bv));
      BallotVotesSpec(votes, ds[n]);
    }
  }

  /** All subtotals of the tally together count every vote exactly once. */
  lemma TallyCountsEveryVote(votes: seq<Vote>, suspects: seq<Suspect>)
    ensures GrandTotal(Tally(votes, suspects)) == |votes|
  {
    var bs := BallotsOf(votes);
    GrandTotalIsSumCounts(votes, suspects, Distinct(bs));
    DistinctCountsSum(bs);
  }
}
