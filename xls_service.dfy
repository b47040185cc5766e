/**
 * The readers of `XlsService` over abstract worksheets, and the merge result of
 * `ReadZoomVotes`. Each reader walks rows from a fixed start row while the row is below
 * `EndRow`, stops at the first row whose key cell is empty, and appends what it reads.
 */
module XlsService {
  import opened Wrappers
  import opened Models
  import opened Sheets
  import opened Collections
  import opened Dedup

  /** Membership sheets: one name per row in column 1, from row 1. */
  const NameColumn := 1
  const FirstNameRow := 1

  /** Manual-vote sheet: voter in column 1 from row 3, selections from column 2, ballot names in row 1. */
  const ManualVoterColumn := 1
  const FirstManualRow := 3
  const FirstManualColumn := 2
  const BallotHeaderRow := 1

  /** Primary (zoom) sheet: one vote per row from row 7. */
  const FirstZoomRow := 7
  const ZoomIdColumn := 1
  const ZoomVoterColumn := 2
  const ZoomEmailColumn := 3
  const ZoomBallotColumn := 5
  const ZoomSelectionColumn := 6

  // ---------------------------------------------------------------------------
  // What each reader reads
  // ---------------------------------------------------------------------------

  /** The names a membership sheet holds, before sorting: column 1 from row 1 up to the first gap. */
  function ColumnValues(s: Sheet): seq<string>
  {
    var n := Filled(s, Down, NameColumn, FirstNameRow);
    ColumnScan(s, NameColumn, FirstNameRow);
    seq(n, k requires 0 <= k < n => s.Cell(FirstNameRow + k, NameColumn).value)
  }

  /** `Convert.ToInt32(cell)`: an empty cell gives 0; the conversion of a filled cell is `parseId`. */
  function IdValue(parseId: string -> int, cell: Option<string>): int
  {
    match cell
    case None => 0
    case Some(t) => parseId(t)
  }

  /** The vote built from primary row `row`. */
  function ZoomVote(s: Sheet, parseId: string -> int, row: int): Vote
    requires s.Cell(row, ZoomVoterColumn).Some?
  {
    Vote(Some(IdValue(parseId, s.Cell(row, ZoomIdColumn))),
         s.Cell(row, ZoomVoterColumn).value,
         s.Cell(row, ZoomEmailColumn),
         s.Cell(row, ZoomBallotColumn),
         s.Cell(row, ZoomSelectionColumn))
  }

  /** The primary rows read, in sheet order: from row 7 up to the first row without a voter. */
  function ZoomRows(s: Sheet, parseId: string -> int): seq<Vote>
  {
    var n := Filled(s, Down, ZoomVoterColumn, FirstZoomRow);
    ColumnScan(s, ZoomVoterColumn, FirstZoomRow);
    seq(n, k requires 0 <= k < n => ZoomVote(s, parseId, FirstZoomRow + k))
  }

  /** The votes of one manual row: one per filled cell from column 2 up to the first gap, each
      on the ballot named in the header row of its column. */
  function ManualRowVotes(s: Sheet, row: int): seq<Vote>
    requires s.Cell(row, ManualVoterColumn).Some?
  {
    var m := Filled(s, Across, row, FirstManualColumn);
    seq(m, k requires 0 <= k < m =>
      Vote(None, s.Cell(row, ManualVoterColumn).value, None,
           s.Cell(BallotHeaderRow, FirstManualColumn + k), s.Cell(row, FirstManualColumn + k)))
  }

  /** The votes of the first `count` manual rows read, row after row. */
  function ManualVotesOfRows(s: Sheet, count: nat): seq<Vote>
    requires count <= Filled(s, Down, ManualVoterColumn, FirstManualRow)
  {
    if count == 0 then []
    else
      ColumnScan(s, ManualVoterColumn, FirstManualRow);
      ManualVotesOfRows(s, count - 1) + ManualRowVotes(s, FirstManualRow + count - 1)
  }

  /** Everything the manual-vote sheet yields. */
  function ManualVotes(s: Sheet): seq<Vote>
  {
    ManualVotesOfRows(s, Filled(s, Down, ManualVoterColumn, FirstManualRow))
  }

  /** The `Results` built by `ReadZoomVotes`: the merged votes and the duplicates, each ordered
      by voter, and no suspects yet. */
  function ZoomResults(le: (string, string) -> bool, manual: seq<Vote>, rows: seq<Vote>): Results
  {
    var m := Merge(manual, rows);
    Results(SortBy(le, VoterOf, m.votes), SortBy(le, VoterOf, m.dupes), [])
  }

  // ---------------------------------------------------------------------------
  // Lemmas about what is read
  // ---------------------------------------------------------------------------

  /** A membership list is the column's names up to the first gap, sorted and nothing else. */
  lemma MembershipListSorted(le: (string, string) -> bool, s: Sheet)
    requires TotalPreorder(le)
    ensures SortedBy(le, Identity, SortBy(le, Identity, ColumnValues(s)))
    ensures multiset(SortBy(le, Identity, ColumnValues(s))) == multiset(ColumnValues(s))
  {
    SortBySorted(le, Identity, ColumnValues(s));
    SortByPermutes(le, Identity, ColumnValues(s));
  }

  /** Every manual vote comes from a cell the scans read: a voter row among the first `count`
      rows read from row 3, and a column its scan reaches from column 2 before the row's first
      empty cell, both below the sheet's end. Its Voter is the row's column-1 cell, its Selection
      the cell itself and its Ballot the row-1 header of that column; it has no Id and no Email. */
  lemma {:induction false} ManualVotesFromCells(s: Sheet, count: nat)
    requires count <= Filled(s, Down, ManualVoterColumn, FirstManualRow)
    ensures forall v :: v in ManualVotesOfRows(s, count) ==>
      v.id == None && v.email == None && v.selection.Some? &&
      exists r, c :: FirstManualRow <= r < FirstManualRow + count && r < s.endRow &&
        FirstManualColumn <= c < FirstManualColumn + Filled(s, Across, r, FirstManualColumn) &&
        c < s.endColumn &&
        s.Cell(r, ManualVoterColumn) == Some(v.voter) && s.Cell(r, c) == v.selection &&
        s.Cell(BallotHeaderRow, c) == v.ballot
  {
    if count > 0 {
      ManualVotesFromCells(s, count - 1);
      ColumnScan(s, ManualVoterColumn, FirstManualRow);
      var r := FirstManualRow + count - 1;
      var rowVotes := ManualRowVotes(s, r);
      RowScan(s, r, FirstManualColumn);
      forall v | v in rowVotes
        ensures v.id == None && v.email == None && v.selection.Some? &&
          exists r, c :: FirstManualRow <= r < FirstManualRow + count && r < s.endRow &&
            FirstManualColumn <= c < FirstManualColumn + Filled(s, Across, r, FirstManualColumn) &&
            c < s.endColumn &&
            s.Cell(r, ManualVoterColumn) == Some(v.voter) && s.Cell(r, c) == v.selection &&
            s.Cell(BallotHeaderRow, c) == v.ballot
      {
        var k :| 0 <= k < |rowVotes| && rowVotes[k] == v;
        var c := FirstManualColumn + k;
        assert s.Cell(r, c).Some?;
        assert s.Cell(r, c) == v.selection;
      }
    }
  }

  /** Every filled cell that the scan of a read voter row reaches gives its vote. */
  lemma {:induction false} ManualVotesComplete(s: Sheet, count: nat, r: int, c: int)
    requires count <= Filled(s, Down, ManualVoterColumn, FirstManualRow)
    requires FirstManualRow <= r < FirstManualRow + count
    requires FirstManualColumn <= c < FirstManualColumn + Filled(s, Across, r, FirstManualColumn)
    ensures s.Cell(r, ManualVoterColumn).Some?
    ensures Vote(None, s.Cell(r, ManualVoterColumn).value, None, s.Cell(BallotHeaderRow, c), s.Cell(r, c))
            in ManualVotesOfRows(s, count)
  {
    ColumnScan(s, ManualVoterColumn, FirstManualRow);
    if r == FirstManualRow + count - 1 {
      var rowVotes := ManualRowVotes(s, r);
      assert rowVotes[c - FirstManualColumn] in rowVotes;
    } else {
      ManualVotesComplete(s, count - 1, r, c);
    }
  }

  /** Pair uniqueness in the list `ReadZoomVotes` returns: two of its entries share a
      (Voter, Ballot) pair only when both are manual votes. */
  lemma ZoomVotesUniquePairs(le: (string, string) -> bool, manual: seq<Vote>, rows: seq<Vote>)
    ensures var vs := ZoomResults(le, manual, rows).votes;
      forall i, j :: 0 <= i < j < |vs| && vs[i].voter == vs[j].voter && vs[i].ballot == vs[j].ballot ==>
        vs[i] in manual && vs[j] in manual
  {
    var m := Merge(manual, rows);
    MergeRowsUnique(manual, rows);
    SortByPermutes(le, VoterOf, m.votes);
    ReorderKeepsUniquePairs(manual, m.votes, SortBy(le, VoterOf, m.votes));
  }

  /** What `ReadZoomVotes` returns: as many votes and duplicates together as manual votes and
      rows read; each list a permutation of its merged counterpart, ordered by voter, stable
      among equal voters; every duplicate matched by a vote on its (Voter, Ballot) pair; and
      no suspects. */
  lemma ZoomResultsSpec(le: (string, string) -> bool, manual: seq<Vote>, rows: seq<Vote>)
    requires TotalPreorder(le)
    ensures var r := ZoomResults(le, manual, rows);
      var m := Merge(manual, rows);
      |r.votes| + |r.duplicates| == |manual| + |rows| &&
      multiset(r.votes) == multiset(m.votes) && multiset(r.duplicates) == multiset(m.dupes) &&
      SortedBy(le, VoterOf, r.votes) && SortedBy(le, VoterOf, r.duplicates) &&
      (forall k :: KeyClass(le, VoterOf, k, r.votes) == KeyClass(le, VoterOf, k, m.votes)) &&
      (forall k :: KeyClass(le, VoterOf, k, r.duplicates) == KeyClass(le, VoterOf, k, m.dupes)) &&
      DupesMatched(r.votes, r.duplicates) &&
      r.suspects == []
  {
    var r := ZoomResults(le, manual, rows);
    var m := Merge(manual, rows);
    MergeConserves(manual, rows);
    MergeDupesMatched(manual, rows);
    SortByPermutes(le, VoterOf, m.votes);
    SortByPermutes(le, VoterOf, m.dupes);
    SortBySorted(le, VoterOf, m.votes);
    SortBySorted(le, VoterOf, m.dupes);
    forall k ensures KeyClass(le, VoterOf, k, r.votes) == KeyClass(le, VoterOf, k, m.votes)
                  && KeyClass(le, VoterOf, k, r.duplicates) == KeyClass(le, VoterOf, k, m.dupes)
    {
      SortByStable(le, VoterOf, k, m.votes);
      SortByStable(le, VoterOf, k, m.dupes);
    }
    forall k | 0 <= k < |r.duplicates| ensures HasPair(r.votes, r.duplicates[k].voter, r.duplicates[k].ballot) {
      var d := r.duplicates[k];
      assert d in multiset(m.dupes);
      var j :| 0 <= j < |m.dupes| && m.dupes[j] == d;
      HasPairPermutation(m.votes, r.votes, d.voter, d.ballot);
    }
  }

  // ---------------------------------------------------------------------------
  // The readers
  // ---------------------------------------------------------------------------

  /** `ReadOneColumnWorksheet`: the names of column 1 from row 1 up to the first empty cell,
      sorted. */
  method ReadOneColumnWorksheet(le: (string, string) -> bool, sheet: Sheet) returns (list: seq<string>)
    ensures list == SortBy(le, Identity, ColumnValues(sheet))
  {
    list := [];
    var i := FirstNameRow;
    while i < sheet.endRow
      invariant FirstNameRow <= i
      invariant |list| == i - FirstNameRow
      invariant forall k :: 0 <= k < |list| ==> sheet.Cell(FirstNameRow + k, NameColumn) == Some(list[k])
      invariant |list| + Filled(sheet, Down, NameColumn, i) == Filled(sheet, Down, NameColumn, FirstNameRow)
    {
      var val := sheet.Cell(i, NameColumn);
      if val.None? { break; }
      list := list + [val.value];
      i := i + 1;
    }
    assert list == ColumnValues(sheet);
    list := SortBy(le, Identity, list);
  }

  /** `ReadManualVotes`: for each row from row 3 up to the first row without a voter, one vote
      per filled cell from column 2 up to the first empty cell. */
  method ReadManualVotes(sheet: Sheet) returns (votes: seq<Vote>)
    ensures votes == ManualVotes(sheet)
  {
    votes := [];
    var i := FirstManualRow;
    while i < sheet.endRow
      invariant FirstManualRow <= i
      invariant i - FirstManualRow + Filled(sheet, Down, ManualVoterColumn, i)
             == Filled(sheet, Down, ManualVoterColumn, FirstManualRow)
      invariant votes == ManualVotesOfRows(sheet, i - FirstManualRow)
    {
      var voter := sheet.Cell(i, ManualVoterColumn);
      if voter.None? { break; }
      ghost var before := votes;
      ghost var rowVotes := ManualRowVotes(sheet, i);
      var j := FirstManualColumn;
      while j < sheet.endColumn
        invariant FirstManualColumn <= j
        invariant j - FirstManualColumn + Filled(sheet, Across, i, j) == |rowVotes|
        invariant votes == before + rowVotes[..j - FirstManualColumn]
      {
        var selection := sheet.Cell(i, j);
        if selection.None? { break; }
        var vote := Vote(None, voter.value, None, sheet.Cell(BallotHeaderRow, j), selection);
        assert rowVotes[..j + 1 - FirstManualColumn] == rowVotes[..j - FirstManualColumn] + [vote];
        votes := votes + [vote];
        j := j + 1;
      }
      assert rowVotes[..j - FirstManualColumn] == rowVotes;
      i := i + 1;
    }
  }

  /** `ReadZoomVotes`: walks the primary rows from row 7, diverting each row whose exact
      (Voter, Ballot) pair is already accumulated, then orders both lists by voter. */
  method ReadZoomVotes(le: (string, string) -> bool, parseId: string -> int, sheet: Sheet, manualVotes: seq<Vote>)
    returns (results: Results)
    ensures results == ZoomResults(le, manualVotes, ZoomRows(sheet, parseId))
  {
    var votes := manualVotes;
    var dupes := [];
    ghost var rows := ZoomRows(sheet, parseId);
    var i := FirstZoomRow;
    while i < sheet.endRow
      invariant FirstZoomRow <= i
      invariant i - FirstZoomRow + Filled(sheet, Down, ZoomVoterColumn, i) == |rows|
      invariant Merged(votes, dupes) == Merge(manualVotes, rows[..i - FirstZoomRow])
    {
      var voter := sheet.Cell(i, ZoomVoterColumn);
      if voter.None? { break; }
      var ballot := sheet.Cell(i, ZoomBallotColumn);
      var existing := HasPair(votes, voter.value, ballot);
      var vote := Vote(Some(IdValue(parseId, sheet.Cell(i, ZoomIdColumn))), voter.value,
                       sheet.Cell(i, ZoomEmailColumn), ballot, sheet.Cell(i, ZoomSelectionColumn));
      assert rows[i - FirstZoomRow] == ZoomVote(sheet, parseId, i);
      assert rows[..i + 1 - FirstZoomRow][..i - FirstZoomRow] == rows[..i - FirstZoomRow];
      if existing {
        dupes := dupes + [vote];
      } else {
        votes := votes + [vote];
      }
      i := i + 1;
    }
    assert rows[..i - FirstZoomRow] == rows;
    results := Results(SortBy(le, VoterOf, votes), SortBy(le, VoterOf, dupes), []);
  }
}
