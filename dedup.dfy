/**
 * The deduplication performed while `XlsService.ReadZoomVotes` walks the primary rows:
 * the accumulating list starts as the manual votes; each primary row whose exact
 * (Voter, Ballot) pair is already in the list is diverted to the duplicates, and every
 * other row is appended to the list.
 */
module Dedup {
  import opened Wrappers
  import opened Models

  /** The accumulated votes and the diverted repeats. */
  datatype Merged = Merged(votes: seq<Vote>, dupes: seq<Vote>)

  /** `votes.Exists(x => x.Voter == voter && x.Ballot == ballot)`: ordinal, case-sensitive
      comparison; two null ballots compare equal. */
  predicate HasPair(votes: seq<Vote>, voter: string, ballot: Option<string>)
  {
    exists i :: 0 <= i < |votes| && votes[i].voter == voter && votes[i].ballot == ballot
  }

  lemma HasPairConcat(a: seq<Vote>, b: seq<Vote>, voter: string, ballot: Option<string>)
    ensures HasPair(a + b, voter, ballot) <==> HasPair(a, voter, ballot) || HasPair(b, voter, ballot)
  {
    var ab := a + b;
    if HasPair(ab, voter, ballot) {
      var i :| 0 <= i < |ab| && ab[i].voter == voter && ab[i].ballot == ballot;
      if i >= |a| { assert b[i - |a|] == ab[i]; }
    }
    if HasPair(b, voter, ballot) {
      var i :| 0 <= i < |b| && b[i].voter == voter && b[i].ballot == ballot;
      assert ab[|a| + i] == b[i];
    }
    if HasPair(a, voter, ballot) {
      var i :| 0 <= i < |a| && a[i].voter == voter && a[i].ballot == ballot;
      assert ab[i] == a[i];
    }
  }

  /** The state of the two lists once `rows` have been processed, starting from `manual`. */
  function Merge(manual: seq<Vote>, rows: seq<Vote>): Merged
  {
    if rows == [] then Merged(manual, [])
    else
      var prev := Merge(manual, rows[..|rows| - 1]);
      var row := rows[|rows| - 1];
      if HasPair(prev.votes, row.voter, row.ballot) then Merged(prev.votes, prev.dupes + [row])
      else Merged(prev.votes + [row], prev.dupes)
  }

  /** Reference condition, stated without the merge: row `k` is a repeat exactly when its pair
      already occurs among the manual votes or ANY earlier primary row. Its selection plays no part. */
  predicate IsRepeat(manual: seq<Vote>, rows: seq<Vote>, k: nat)
    requires k < |rows|
  {
    HasPair(manual + rows[..k], rows[k].voter, rows[k].ballot)
  }

  /** The rows whose `IsRepeat` verdict is `repeat`, in row order. */
  function RowsWhere(manual: seq<Vote>, rows: seq<Vote>, repeat: bool): seq<Vote>
  {
    if rows == [] then []
    else
      var n := |rows| - 1;
      RowsWhere(manual, rows[..n], repeat) + (if IsRepeat(manual, rows, n) == repeat then [rows[n]] else [])
  }

  /** Nothing is lost or invented: the two lists together are the manual votes and the rows
      read, and the manual votes stay at the head of the vote list, all of them kept. */
  lemma {:induction false} MergeConserves(manual: seq<Vote>, rows: seq<Vote>)
    ensures |Merge(manual, rows).votes| + |Merge(manual, rows).dupes| == |manual| + |rows|
    ensures multiset(Merge(manual, rows).votes) + multiset(Merge(manual, rows).dupes)
         == multiset(manual) + multiset(rows)
    ensures manual <= Merge(manual, rows).votes
  {
    if rows != [] {
      var n := |rows| - 1;
      var prev := Merge(manual, rows[..n]);
      var row := rows[n];
      MergeConserves(manual, rows[..n]);
      assert rows == rows[..n] + [row];
      var before := multiset(prev.votes) + multiset(prev.dupes);
      assert before == multiset(manual) + multiset(rows[..n]);
      assert multiset(rows) == multiset(rows[..n]) + multiset{row};
      var m := Merge(manual, rows);
      if HasPair(prev.votes, row.voter, row.ballot) {
        assert m == Merged(prev.votes, prev.dupes + [row]);
        assert multiset(m.dupes) == multiset(prev.dupes) + multiset{row};
        assert multiset(m.votes) + multiset(m.dupes) == before + multiset{row};
      } else {
        assert m == Merged(prev.votes + [row], prev.dupes);
        assert manual <= prev.votes <= m.votes;
        assert multiset(m.votes) == multiset(prev.votes) + multiset{row};
        assert multiset(m.votes) + multiset(m.dupes) == before + multiset{row};
      }
    }
  }

  /** The pairs present in the accumulated list are exactly those of the manual votes and the
      rows read: a repeat diverted to the duplicates always leaves its pair behind. */
  lemma {:induction false} MergePairs(manual: seq<Vote>, rows: seq<Vote>, voter: string, ballot: Option<string>)
    ensures HasPair(Merge(manual, rows).votes, voter, ballot) <==> HasPair(manual + rows, voter, ballot)
  {
    if rows != [] {
      var n := |rows| - 1;
      var prev := Merge(manual, rows[..n]);
      var row := rows[n];
      MergePairs(manual, rows[..n], voter, ballot);
      MergePairs(manual, rows[..n], row.voter, row.ballot);
      assert manual + rows == (manual + rows[..n]) + [row];
      HasPairConcat(manual + rows[..n], [row], voter, ballot);
      assert HasPair([row], voter, ballot) <==> row.voter == voter && row.ballot == ballot by {
        if row.voter == voter && row.ballot == ballot { assert [row][0] == row; }
      }
      var m := Merge(manual, rows);
      if HasPair(prev.votes, row.voter, row.ballot) {
        assert m.votes == prev.votes;
        if row.voter == voter && row.ballot == ballot {
          assert HasPair(prev.votes, voter, ballot);
        }
      } else {
        assert m.votes == prev.votes + [row];
        HasPairConcat(prev.votes, [row], voter, ballot);
      }
    } else {
      assert manual + rows == manual;
    }
  }

  /** Duplicate condition: the duplicates are exactly the rows that `IsRepeat` picks out and the
      vote list is the manual votes followed by every other row, each in row order. */
  lemma {:induction false} MergeMatchesReference(manual: seq<Vote>, rows: seq<Vote>)
    ensures Merge(manual, rows).votes == manual + RowsWhere(manual, rows, false)
    ensures Merge(manual, rows).dupes == RowsWhere(manual, rows, true)
  {
    if rows != [] {
      var n := |rows| - 1;
      var row := rows[n];
      MergeMatchesReference(manual, rows[..n]);
      MergePairs(manual, rows[..n], row.voter, row.ballot);
      assert rows[..n] == rows[..n][..n];
    }
  }

  /** Pair uniqueness: a vote taken from the primary rows shares its (Voter, Ballot) pair with
      no other entry of the vote list. Manual votes are not checked against each other. */
  lemma {:induction false} MergeUniquePairs(manual: seq<Vote>, rows: seq<Vote>)
    ensures var vs := Merge(manual, rows).votes;
      forall i, j :: |manual| <= i < |vs| && 0 <= j < |vs| && i != j ==>
        vs[i].voter != vs[j].voter || vs[i].ballot != vs[j].ballot
  {
    if rows != [] {
      var n := |rows| - 1;
      var prev := Merge(manual, rows[..n]);
      var row := rows[n];
      MergeUniquePairs(manual, rows[..n]);
      MergeConserves(manual, rows[..n]);
      var vs := Merge(manual, rows).votes;
      if !HasPair(prev.votes, row.voter, row.ballot) {
        forall i, j | |manual| <= i < |vs| && 0 <= j < |vs| && i != j
          ensures vs[i].voter != vs[j].voter || vs[i].ballot != vs[j].ballot
        {
          if i == |prev.votes| {
            assert vs[j] == prev.votes[j];
          } else if j == |prev.votes| {
            assert vs[i] == prev.votes[i];
          } else {
            assert vs[i] == prev.votes[i] && vs[j] == prev.votes[j];
          }
        }
      }
    }
  }

  /** Pair uniqueness stated without positions, so that it survives reordering: a vote of `vs`
      that is not a manual vote occurs in `vs` exactly once, and no other entry has its pair. */
  ghost predicate RowsUnique(manual: seq<Vote>, vs: seq<Vote>)
  {
    forall x :: x in vs && x !in manual ==>
      multiset(vs)[x] == 1 &&
      forall y :: y in vs && y.voter == x.voter && y.ballot == x.ballot ==> y == x
  }

  /** An entry whose pair no other entry shares occurs exactly once. */
  lemma SoleEntry(vs: seq<Vote>, i: int)
    requires 0 <= i < |vs|
    requires forall j :: 0 <= j < |vs| && j != i ==> vs[j].voter != vs[i].voter || vs[j].ballot != vs[i].ballot
    ensures multiset(vs)[vs[i]] == 1
  {
    var x := vs[i];
    var head, tail := vs[..i], vs[i + 1..];
    assert vs == head + [x] + tail;
    forall k | 0 <= k < |head| ensures head[k] != x {
      assert head[k] == vs[k];
    }
    forall k | 0 <= k < |tail| ensures tail[k] != x {
      assert tail[k] == vs[i + 1 + k];
    }
    assert multiset(head)[x] == 0 && multiset(tail)[x] == 0;
  }

  /** A value held at two positions occurs at least twice. */
  lemma TwoCopies(ws: seq<Vote>, i: int, j: int)
    requires 0 <= i < j < |ws| && ws[i] == ws[j]
    ensures multiset(ws)[ws[i]] >= 2
  {
    assert ws == ws[..j] + ws[j..];
    assert ws[..j][i] == ws[i] && ws[j..][0] == ws[j];
  }

  /** The merged vote list has unique pairs outside the manual votes. */
  lemma MergeRowsUnique(manual: seq<Vote>, rows: seq<Vote>)
    ensures RowsUnique(manual, Merge(manual, rows).votes)
  {
    var vs := Merge(manual, rows).votes;
    MergeUniquePairs(manual, rows);
    MergeConserves(manual, rows);
    assert forall k :: 0 <= k < |manual| ==> vs[k] == manual[k];
    forall x | x in vs && x !in manual
      ensures multiset(vs)[x] == 1
      ensures forall y :: y in vs && y.voter == x.voter && y.ballot == x.ballot ==> y == x
    {
      var i :| 0 <= i < |vs| && vs[i] == x;
      assert |manual| <= i;
      SoleEntry(vs, i);
    }
  }

  /** Any reordering of a list with unique pairs outside the manual votes has two entries sharing
      a pair only when both are manual votes. */
  lemma ReorderKeepsUniquePairs(manual: seq<Vote>, vs: seq<Vote>, ws: seq<Vote>)
    requires RowsUnique(manual, vs)
    requires multiset(ws) == multiset(vs)
    ensures forall i, j :: 0 <= i < j < |ws| && ws[i].voter == ws[j].voter && ws[i].ballot == ws[j].ballot ==>
      ws[i] in manual && ws[j] in manual
  {
    forall i, j | 0 <= i < j < |ws| && ws[i].voter == ws[j].voter && ws[i].ballot == ws[j].ballot
      ensures ws[i] in manual && ws[j] in manual
    {
      assert ws[i] in multiset(vs) && ws[j] in multiset(vs);
      if ws[i] == ws[j] {
        TwoCopies(ws, i, j);
      }
    }
  }

  /** Every duplicate has an entry with the same (Voter, Ballot) pair in the vote list. */
  predicate DupesMatched(votes: seq<Vote>, dupes: seq<Vote>)
  {
    forall k :: 0 <= k < |dupes| ==> HasPair(votes, dupes[k].voter, dupes[k].ballot)
  }

  /** Every diverted repeat is matched by an entry of the vote list. */
  lemma {:induction false} MergeDupesMatched(manual: seq<Vote>, rows: seq<Vote>)
    ensures DupesMatched(Merge(manual, rows).votes, Merge(manual, rows).dupes)
  {
    if rows != [] {
      var n := |rows| - 1;
      var prev := Merge(manual, rows[..n]);
      MergeDupesMatched(manual, rows[..n]);
      assert DupesMatched(prev.votes, prev.dupes);
      var m := Merge(manual, rows);
      var row := rows[n];
      forall k | 0 <= k < |m.dupes| ensures HasPair(m.votes, m.dupes[k].voter, m.dupes[k].ballot) {
        if HasPair(prev.votes, row.voter, row.ballot) {
          assert m.votes == prev.votes;
          if k < |prev.dupes| {
            assert m.dupes[k] == prev.dupes[k];
            assert HasPair(prev.votes, prev.dupes[k].voter, prev.dupes[k].ballot);
          } else {
            assert m.dupes[k] == row;
          }
        } else {
          assert m.dupes == prev.dupes;
          assert HasPair(prev.votes, prev.dupes[k].voter, prev.dupes[k].ballot);
          HasPairConcat(prev.votes, [row], m.dupes[k].voter, m.dupes[k].ballot);
        }
      }
    }
  }

  /** Whether a pair occurs does not depend on the order of the list. */
  lemma HasPairPermutation(a: seq<Vote>, b: seq<Vote>, voter: string, ballot: Option<string>)
    requires multiset(a) == multiset(b)
    ensures HasPair(a, voter, ballot) <==> HasPair(b, voter, ballot)
  {
    if HasPair(a, voter, ballot) {
      var i :| 0 <= i < |a| && a[i].voter == voter && a[i].ballot == ballot;
      assert a[i] in multiset(b);
      var j :| 0 <= j < |b| && b[j] == a[i];
    }
    if HasPair(b, voter, ballot) {
      var j :| 0 <= j < |b| && b[j].voter == voter && b[j].ballot == ballot;
      assert b[j] in multiset(a);
      var i :| 0 <= i < |a| && a[i] == b[j];
    }
  }

  /** The same voter on the same ballot twice, with different selections: the first row is kept
      and the second is a duplicate. */
  lemma DifferentSelectionStillDuplicate()
    ensures var first := Vote(Some(1), "X", None, Some("B1"), Some("Yes"));
      var second := Vote(Some(2), "X", None, Some("B1"), Some("No"));
      Merge([], [first, second]) == Merged([first], [second])
  {
    var first := Vote(Some(1), "X", None, Some("B1"), Some("Yes"));
    var second := Vote(Some(2), "X", None, Some("B1"), Some("No"));
    var rows := [first, second];
    assert rows[..1] == [first] && [first][..0] == [];
    assert !HasPair([], first.voter, first.ballot);
    assert Merge([], [first]) == Merged([first], []);
    assert HasPair([first], second.voter, second.ballot) by { assert [first][0] == first; }
  }
}
