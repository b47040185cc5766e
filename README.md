# Member verification: reconciliation engine

A Dafny model of the reconciliation engine of a ballot-checking tool. The tool compares a
membership roster with recorded poll ballots. It runs in three stages:

1. **Merge and deduplicate.** The manual votes come first. The primary ("zoom") rows are then
   walked in sheet order. A row whose exact (Voter, Ballot) pair is already in the accumulated
   list goes to the duplicates; every other row is appended. Both lists are then ordered by voter.
2. **Classify suspects.** Three passes run in this order: membership, registration deadline,
   out of district. Each pass walks the votes and appends a suspect record for every vote its
   rule flags. Names are compared ignoring case.
3. **Tally.** The distinct ballots are listed in first-appearance order. Within each ballot, the
   distinct selections are listed in first-appearance order, each with its vote count and, when
   positive, the number of suspect records with the same ballot and selection.

The spreadsheet readers are modelled over an abstract worksheet: a map from (row, column) to
cell text, plus the sheet's end row and end column. Each reader starts at a fixed row (1, 3 or 7).
It stops at the first row whose key cell is empty and never reads row `EndRow`.

Modules, one per file:

- `Wrappers`: `Option`, for the .NET strings that may be null (`Ballot`, `Selection`, `Email`, cells).
- `Collections`: the list and LINQ operations used. `SortBy` is a stable insertion sort
  (`OrderBy`) under an abstract total preorder `le`. `Distinct` keeps first-appearance order.
  `CountOf` is `Where(..).Count()`.
- `Sheets`: the abstract worksheet and `Filled`, the number of cells a scan reads before its
  first gap.
- `Models`: `Vote`, `Suspect`, `Results` and `Membership`.
- `Dedup`: the merge that `ReadZoomVotes` performs, and its properties.
- `TallyReport`: the tally of `WriteResults` as a data structure.
- `XlsService`: the three reader methods (`while` loops with `break`) and the results they build.
- `Program`: the classification rules, and a `Program` class whose fields are the program's
  static `_membership` and `_results`. Its methods are the passes and `Main` (here `Run`).

Abstractions:

- Case-insensitive comparison (`StringComparison.OrdinalIgnoreCase`) is equality after an
  abstract per-character case mapping `fold`.
- The culture-sensitive string order of `OrderBy` and `List.Sort` is an abstract `le`. The sort
  lemmas require only that `le` be total and transitive.
- `Convert.ToInt32` of the id cell is an abstract `parseId`. An empty cell gives 0.

Behaviour of the code worth noting:

- The passes run membership, deadline, district (`Program.cs:27-29`).
- The suspect count in the tally counts raw suspect records. A vote flagged by two rules counts
  twice.
- Duplicate detection compares voter and ballot exactly, with case. The suspect rules ignore case.
- Manual votes are never checked against each other. They are all kept, ahead of the primary rows.

## Model

| member | source | states |
|---|---|---|
| Sheets.FilledReadsFilledCells | MemberVerification/XlsService.cs:39-42 | Every position a scan reads is below the exclusive limit (`EndRow` or `EndColumn`) and holds a filled cell |
| Sheets.FilledEndsAtGap | MemberVerification/XlsService.cs:39-42 | The first position a scan does not read is at or past the limit, or holds an empty cell |
| Sheets.ColumnScan | MemberVerification/XlsService.cs:59-62 | A scan down a column reads exactly the consecutive filled cells from its start row up to the first empty one, each row below `EndRow` |
| Sheets.RowScan | MemberVerification/XlsService.cs:64-67 | A scan across a row reads exactly the consecutive filled cells from its start column up to the first empty one, each column below `EndColumn` |
| XlsService.ReadOneColumnWorksheet | MemberVerification/XlsService.cs:31-49 | The loop returns column 1 from row 1 up to the first empty cell (never row `EndRow`), then sorted |
| XlsService.MembershipListSorted | MemberVerification/XlsService.cs:46 | A membership list is ordered under the comparer and is a permutation of the names read |
| XlsService.ReadManualVotes | MemberVerification/XlsService.cs:51-81 | The nested loops return, row by row from row 3 up to the first row without a voter, one vote per filled cell from column 2 up to the first empty cell |
| XlsService.ManualVotesFromCells | MemberVerification/XlsService.cs:59-75 | Every manual vote comes from a cell the scans read: a voter row among those read from row 3, and a column reached from column 2 before the row's first empty cell. Voter is the row's column-1 cell, Selection the cell, Ballot the row-1 header of that column; no Id, no Email. With `ManualVotesComplete` this pins the manual votes down exactly |
| XlsService.ManualVotesComplete | MemberVerification/XlsService.cs:59-76 | Every filled cell reached by the scan of a voter row that was read yields its vote |
| XlsService.ReadZoomVotes | MemberVerification/XlsService.cs:83-128 | The loop walks primary rows from row 7 to the first row without a voter, diverts each row whose pair is already accumulated, appends the others after the manual votes, and returns both lists ordered by voter with no suspects |
| XlsService.ZoomResultsSpec | MemberVerification/XlsService.cs:120-124 | The returned votes and duplicates together number the manual votes plus the rows read; each list is a stable permutation of its merged counterpart, ordered by voter; every duplicate has a vote with its pair; suspects are empty |
| XlsService.ZoomVotesUniquePairs | MemberVerification/XlsService.cs:99-122 | In the `Votes` list `ReadZoomVotes` returns, sorted by voter, two entries share a (Voter, Ballot) pair only when both are manual votes |
| Dedup.MergeConserves | MemberVerification/XlsService.cs:85-116 | Count conservation: kept plus duplicates equals manual votes plus rows, as multisets too; every manual vote is kept, at the head of the list |
| Dedup.MergePairs | MemberVerification/XlsService.cs:99-116 | The pairs present in the accumulated list are exactly those of the manual votes and all rows read |
| Dedup.MergeMatchesReference | MemberVerification/XlsService.cs:99-116 | A row is a duplicate exactly when an earlier manual vote or earlier primary row has the same Voter and Ballot; the vote list is the manual votes followed by all other rows, in order |
| Dedup.MergeUniquePairs | MemberVerification/XlsService.cs:99-116 | A vote taken from the primary rows shares its (Voter, Ballot) pair with no other vote of the list |
| Dedup.MergeDupesMatched | MemberVerification/XlsService.cs:109-112 | Every duplicate has a vote with the same (Voter, Ballot) pair in the list |
| Dedup.MergeRowsUnique | MemberVerification/XlsService.cs:99-116 | Stated without positions: a vote of the merged list that is not a manual vote occurs in it exactly once, and no other entry has its (Voter, Ballot) pair |
| Dedup.ReorderKeepsUniquePairs | MemberVerification/XlsService.cs:122 | Reordering keeps pair uniqueness: in any permutation of such a list, two entries share a pair only when both are manual votes |
| Dedup.HasPairPermutation | MemberVerification/XlsService.cs:99 | Whether a (Voter, Ballot) pair occurs does not depend on the order of the list |
| Dedup.DifferentSelectionStillDuplicate | MemberVerification/XlsService.cs:99-116 | Two rows with the same voter and ballot but different selections: the first is kept, the second is a duplicate |
| Collections.SortByPermutes | MemberVerification/XlsService.cs:122-123 | `OrderBy` returns a permutation of its input |
| Collections.SortBySorted | MemberVerification/XlsService.cs:122-123 | `OrderBy` returns its input in non-decreasing key order |
| Collections.SortByStable | MemberVerification/XlsService.cs:122-123 | `OrderBy` is stable: among elements whose keys rank equal, the input order is kept |
| Collections.DistinctSpec | MemberVerification/XlsService.cs:156 | `Distinct` yields every value of its input exactly once, in order of first appearance |
| Collections.DistinctCountsSum | MemberVerification/XlsService.cs:166-174 | The counts of the distinct values of a list add up to its length |
| Collections.CountOfPositive | MemberVerification/XlsService.cs:177 | A value has a positive count exactly when it occurs |
| Collections.FirstIndex | MemberVerification/XlsService.cs:156 | The position returned holds the value and no earlier position does |
| TallyReport.BallotVotesSpec | MemberVerification/XlsService.cs:165 | Filtering by ballot keeps exactly the votes on that ballot, as many as the ballot occurs among the votes |
| TallyReport.BallotSelectionCount | MemberVerification/XlsService.cs:170-174 | Counting a selection among one ballot's votes counts the votes with that exact (ballot, selection) pair |
| TallyReport.TallyBallots | MemberVerification/XlsService.cs:156-162 | The tally has one block per ballot of the votes, each ballot once, in first-appearance order |
| TallyReport.TallySelections | MemberVerification/XlsService.cs:165-172 | A ballot's lines list every selection made on that ballot exactly once, in first-appearance order |
| TallyReport.TallyLine | MemberVerification/XlsService.cs:170-181 | A line's subtotal is the positive number of votes with its (ballot, selection); the suspect count is shown exactly when some suspect record has that pair, and is the raw number of such records |
| TallyReport.TallySubTotals | MemberVerification/XlsService.cs:165-174 | The subtotals of a ballot add up to the number of votes on that ballot |
| TallyReport.TallyCountsEveryVote | MemberVerification/XlsService.cs:156-174 | All subtotals of the tally add up to the number of votes |
| Program.FindIndex | MemberVerification/Program.cs:103 | `FindIndex` returns the first position whose entry equals the voter ignoring case, or -1 exactly when none does |
| Program.Flags | MemberVerification/Program.cs:103-104 | The membership rule flags a voter equal, ignoring case, to no member or alias; the deadline and district rules flag a voter equal to some entry of their list |
| Program.ScreenSpec | MemberVerification/Program.cs:55-68 | A pass appends exactly one record per flagged vote, in vote order, copying Id, Voter, Ballot and Selection and carrying the pass's reason |
| Program.ScreenBound | MemberVerification/Program.cs:36-49 | A pass appends at most one record per vote |
| Program.AllSuspectsBound | MemberVerification/Program.cs:27-29 | After the three passes there are at most three records per vote |
| Program.NonMemberOutsideDistrict | MemberVerification/Program.cs:27-29 | A non-member who lives outside the district gets two records, "Not a member" and "Lives outside district" |
| Program.MemberMatchedIgnoringCase | MemberVerification/Program.cs:97-114 | "alice smith" voting with member "Alice Smith" yields no membership record |
| Program.Program.constructor | MemberVerification/Program.cs:12-13 | The program starts with an empty roster and empty results |
| Program.Program.ReadMembershipFile | MemberVerification/Program.cs:78-84 | The roster holds the four sheets' sorted name lists; the results are untouched |
| Program.Program.ReadVoteFile | MemberVerification/Program.cs:72-76 | The results are the manual votes merged with the primary rows; the roster is untouched |
| Program.Program.VerifyMembership | MemberVerification/Program.cs:95-116 | Appends the membership records for the votes, over members then aliases; votes, duplicates and roster unchanged |
| Program.Program.VerifyRegistrationDeadline | MemberVerification/Program.cs:34-51 | Appends the "Missed registration deadline" records; everything else unchanged |
| Program.Program.VerifyInDistrict | MemberVerification/Program.cs:53-70 | Appends the "Lives outside district" records; everything else unchanged |
| Program.Program.Run | MemberVerification/Program.cs:21-32 | After `Main`, the suspects are the membership block, then the deadline block, then the district block, over the merged votes; the tally is computed from the final results |

## Left out

- Spreadsheet library calls: opening packages, the licence setting, worksheet lookup by name,
  `AutoFitColumns` and `SaveAs`. Each reader receives its worksheet directly. A missing
  worksheet (a null sheet and the resulting exception) is not modelled.
- Output layout: the suspects worksheet is a row-by-row copy of the suspect list, with a
  header row. The tally's row and column positions and spacer rows are presentation. The
  tally is modelled as a list of ballot blocks.
- File checks: the `File.Exists` checks of the `XlsService` constructor, the static
  initialiser of `_xlsService`, and the writing of the output file.
- Output-file renaming (`CheckForDuplicateOutputFiles`): it depends on the clock and the
  filesystem. Its `.Replace(".csv", …)` also has no effect on the default `results.xlsx`.
- Id conversion: `Convert.ToInt32` of a non-empty cell is the parameter `parseId`. The
  exception it throws on text that is not a number is not modelled.
- Exact collation and Unicode case mapping: both stay abstract (`le`, `fold`).
- XlsService.ReadOneColumnWorksheet: `List.Sort` is unstable. The model sorts with the same
  stable sort as `OrderBy`. When the comparer ranks two different names equal, the source may
  order them either way, while the model keeps their sheet order. The lemma about the result
  states only what `List.Sort` guarantees: ordered, and a permutation.
- XlsService.ReadZoomVotes: in the source, the kept rows are appended in place to the caller's
  manual-vote list. The model returns them instead. The only caller discards that list
  afterwards, so nothing observable is lost.
- `Results` and `Membership` are values held in the `Program` object's fields. In the source
  they are objects reachable only through the program's static fields, so aliasing plays no part.
- Before `ReadMembershipFile`, the source's roster lists are null. The model starts them empty.
  `Main` always reads the roster before using it.
- The source of the `Vote` and `Suspect` classes is not part of this model; their fields are
  inferred from use. `Id` is optional: set for primary rows, unset for manual votes.
