/**
 A run that can be stopped anywhere and started again: each session reads which pairs are already
 stored, then appends one flushed row for each of the others, in manifest order.
 */
module ResumableRun {
  type Id = string

  datatype Pair = Pair(id: Id, left: string, right: string)

  datatype Judgement = Judgement(score: string, status: string)

  /** A stored line. Only the time it took can differ between two runs of the same comparison. */
  datatype Row = Row(pair: Pair, judgement: Judgement, milliseconds: real)

  type Compare = Pair -> Judgement

  datatype Lasting = Lasting(pair: Pair, judgement: Judgement)

  /** The columns that do not depend on when or how fast a row was made. */
  function Columns(rows: seq<Row>): (r: seq<Lasting>)
    ensures |r| == |rows| && forall i :: 0 <= i < |r| ==> r[i] == Lasting(rows[i].pair, rows[i].judgement)
  {
    seq(|rows|, i requires 0 <= i < |rows| => Lasting(rows[i].pair, rows[i].judgement))
  }

  function Expected(compare: Compare, pairs: seq<Pair>): (r: seq<Lasting>)
    ensures |r| == |pairs| && forall i :: 0 <= i < |r| ==> r[i] == Lasting(pairs[i], compare(pairs[i]))
  {
    seq(|pairs|, i requires 0 <= i < |pairs| => Lasting(pairs[i], compare(pairs[i])))
  }

  ghost function IdsOf(rows: seq<Row>): set<Id> {
    set r <- rows :: r.pair.id
  }

  /** The pairs a session does not skip. */
  function Pending(manifest: seq<Pair>, already: set<Id>): (r: seq<Pair>) {
    if manifest == [] then []
    else
      var last := manifest[|manifest| - 1];
      Pending(manifest[..|manifest| - 1], already) + if last.id in already then [] else [last]
  }

  ghost predicate DistinctIds(manifest: seq<Pair>) {
    forall i, j :: 0 <= i < j < |manifest| ==> manifest[i].id != manifest[j].id
  }

  /** One session: it appends rows for the first `reached` pending pairs; it is complete when that is all of them. */
  ghost predicate Session(manifest: seq<Pair>, compare: Compare, before: seq<Row>, after: seq<Row>, reached: nat) {
    var pending := Pending(manifest, IdsOf(before));
    && reached <= |pending|
    && |after| == |before| + reached
    && before == after[..|before|]
    && Columns(after[|before|..]) == Expected(compare, pending[..reached])
  }

  ghost predicate Complete(manifest: seq<Pair>, compare: Compare, before: seq<Row>, after: seq<Row>) {
    Session(manifest, compare, before, after, |Pending(manifest, IdsOf(before))|)
  }

  ghost predicate SomeSession(manifest: seq<Pair>, compare: Compare, before: seq<Row>, after: seq<Row>) {
    exists reached :: Session(manifest, compare, before, after, reached)
  }

  /** The file after each session, from no file at all. */
  ghost predicate History(manifest: seq<Pair>, compare: Compare, files: seq<seq<Row>>) {
    && files != [] && files[0] == []
    && forall i :: 0 < i < |files| ==> SomeSession(manifest, compare, files[i - 1], files[i])
  }

  /** The file holds a prefix of the manifest. */
  ghost predicate IsPrefix(manifest: seq<Pair>, compare: Compare, rows: seq<Row>) {
    |rows| <= |manifest| && Columns(rows) == Expected(compare, manifest[..|rows|])
  }

  lemma {:induction false} PendingGrows(manifest: seq<Pair>, already: set<Id>, i: nat)
    requires i <= |manifest|
    ensures |Pending(manifest[..i], already)| <= |Pending(manifest, already)|
    ensures Pending(manifest[..i], already) == Pending(manifest, already)[..|Pending(manifest[..i], already)|]
  {
    if i == |manifest| {
      assert manifest[..i] == manifest;
    } else {
      var less := manifest[..|manifest| - 1];
      PendingGrows(less, already, i);
      assert less[..i] == manifest[..i];
    }
  }

  /** After a prefix of distinct pairs is stored, exactly the rest is pending, in order. */
  lemma {:induction false} PendingAfterPrefix(manifest: seq<Pair>, already: set<Id>, stored: nat, k: nat)
    requires DistinctIds(manifest) && stored <= k <= |manifest|
    requires forall id :: id in already <==> exists i :: 0 <= i < stored && manifest[i].id == id
    ensures Pending(manifest[..k], already) == manifest[stored..k]
  {
    if k == stored {
      PendingOfStored(manifest, already, k);
    } else {
      PendingAfterPrefix(manifest, already, stored, k - 1);
      assert manifest[..k][..k - 1] == manifest[..k - 1];
      assert manifest[k - 1].id !in already;
      assert manifest[stored..k] == manifest[stored..k - 1] + [manifest[k - 1]];
    }
  }

  lemma {:induction false} PendingOfStored(manifest: seq<Pair>, already: set<Id>, k: nat)
    requires k <= |manifest|
    requires forall i :: 0 <= i < k ==> manifest[i].id in already
    ensures Pending(manifest[..k], already) == []
  {
    if k > 0 {
      PendingOfStored(manifest, already, k - 1);
      assert manifest[..k][..k - 1] == manifest[..k - 1];
    }
  }

  lemma {:induction false} PendingOfFile(manifest: seq<Pair>, compare: Compare, rows: seq<Row>)
    requires DistinctIds(manifest) && IsPrefix(manifest, compare, rows)
    ensures Pending(manifest, IdsOf(rows)) == manifest[|rows|..]
  {
    var already, n := IdsOf(rows), |rows|;
    assert forall i :: 0 <= i < n ==> Columns(rows)[i] == Expected(compare, manifest[..n])[i];
    assert forall i :: 0 <= i < n ==> rows[i].pair == manifest[i];
    forall id ensures id in already <==> exists i :: 0 <= i < n && manifest[i].id == id {
      if id in already {
        var r :| r in rows && r.pair.id == id;
        var i :| 0 <= i < n && rows[i] == r;
        assert manifest[i].id == id;
      }
    }
    PendingAfterPrefix(manifest, already, n, |manifest|);
    assert manifest[..|manifest|] == manifest;
    assert manifest[n..|manifest|] == manifest[n..];
  }

  lemma {:induction false} SessionKeepsPrefix(manifest: seq<Pair>, compare: Compare, before: seq<Row>,
                                              after: seq<Row>, reached: nat)
    requires DistinctIds(manifest) && IsPrefix(manifest, compare, before)
    requires Session(manifest, compare, before, after, reached)
    ensures IsPrefix(manifest, compare, after)
  {
    PendingOfFile(manifest, compare, before);
    var n := |before|;
    forall i | 0 <= i < |after| ensures Columns(after)[i] == Expected(compare, manifest[..|after|])[i] {
      if i < n {
        assert after[i] == before[i];
        assert Columns(before)[i] == Expected(compare, manifest[..n])[i];
      } else {
        assert Columns(after[n..])[i - n] == Expected(compare, manifest[n..][..reached])[i - n];
      }
    }
  }

  /** Whenever and however often the run was stopped, the file holds a prefix of the manifest, in its order. */
  lemma {:induction false} AlwaysAPrefix(manifest: seq<Pair>, compare: Compare, files: seq<seq<Row>>, i: nat)
    requires DistinctIds(manifest) && History(manifest, compare, files) && i < |files|
    ensures IsPrefix(manifest, compare, files[i])
  {
    if i > 0 {
      AlwaysAPrefix(manifest, compare, files, i - 1);
      var reached :| Session(manifest, compare, files[i - 1], files[i], reached);
      SessionKeepsPrefix(manifest, compare, files[i - 1], files[i], reached);
    }
  }

  /** No pair is ever stored twice. */
  lemma {:induction false} NoPairTwice(manifest: seq<Pair>, compare: Compare, files: seq<seq<Row>>, i: nat, a: nat,
                                       b: nat)
    requires DistinctIds(manifest) && History(manifest, compare, files)
    requires i < |files| && a < b < |files[i]|
    ensures files[i][a].pair.id != files[i][b].pair.id
  {
    AlwaysAPrefix(manifest, compare, files, i);
    var rows := files[i];
    assert forall k :: 0 <= k < |rows| ==> Columns(rows)[k] == Expected(compare, manifest[..|rows|])[k];
    assert rows[a].pair == manifest[a] && rows[b].pair == manifest[b];
  }

  /** A row once flushed keeps its place and its content, timing included, through every later session. */
  lemma {:induction false} NothingIsRewritten(manifest: seq<Pair>, compare: Compare, files: seq<seq<Row>>, i: nat,
                                              j: nat)
    requires History(manifest, compare, files) && i <= j < |files|
    ensures files[i] <= files[j]
  {
    if i < j {
      NothingIsRewritten(manifest, compare, files, i, j - 1);
      assert SomeSession(manifest, compare, files[j - 1], files[j]);
    }
  }

  ghost predicate Finished(manifest: seq<Pair>, compare: Compare, files: seq<seq<Row>>) {
    && History(manifest, compare, files) && |files| > 1
    && Complete(manifest, compare, files[|files| - 2], files[|files| - 1])
  }

  /** The last file has the columns of an uninterrupted run. */
  ghost predicate LeavesAll(manifest: seq<Pair>, compare: Compare, files: seq<seq<Row>>) {
    files != [] && Columns(files[|files| - 1]) == Expected(compare, manifest)
  }

  /** What a single uninterrupted session leaves: every row of the manifest, repeated ids included. */
  lemma {:induction false} Uninterrupted(manifest: seq<Pair>, compare: Compare, after: seq<Row>)
    requires Complete(manifest, compare, [], after)
    ensures Columns(after) == Expected(compare, manifest)
  {
    PendingOfNothing(manifest);
    var none: seq<Row> := [];
    assert IdsOf(none) == {};
    assert manifest[..|manifest|] == manifest && after[|none|..] == after;
  }

  lemma {:induction false} PendingOfNothing(manifest: seq<Pair>)
    ensures Pending(manifest, {}) == manifest
  {
    if manifest != [] {
      PendingOfNothing(manifest[..|manifest| - 1]);
    }
  }

  lemma {:induction false} FinishedIsWhole(manifest: seq<Pair>, compare: Compare, files: seq<seq<Row>>)
    requires DistinctIds(manifest) && Finished(manifest, compare, files)
    ensures Columns(files[|files| - 1]) == Expected(compare, manifest)
  {
    var n := |files| - 1;
    AlwaysAPrefix(manifest, compare, files, n - 1);
    AlwaysAPrefix(manifest, compare, files, n);
    PendingOfFile(manifest, compare, files[n - 1]);
    assert |files[n]| == |manifest|;
    assert manifest[..|manifest|] == manifest;
  }

  /** Rows for some pairs, with a timing. */
  ghost function Rows(compare: Compare, pairs: seq<Pair>): (r: seq<Row>)
    ensures Columns(r) == Expected(compare, pairs)
  {
    var r := seq(|pairs|, i requires 0 <= i < |pairs| => Row(pairs[i], compare(pairs[i]), 0.0));
    assert Columns(r) == Expected(compare, pairs);
    r
  }

  ghost function AfterSession(manifest: seq<Pair>, compare: Compare, before: seq<Row>, reached: nat): (after: seq<Row>)
    requires reached <= |Pending(manifest, IdsOf(before))|
    ensures Session(manifest, compare, before, after, reached)
  {
    var more := Rows(compare, Pending(manifest, IdsOf(before))[..reached]);
    assert |more| == |Columns(more)| == reached;
    assert (before + more)[|before|..] == more && (before + more)[..|before|] == before;
    before + more
  }

  /** With a repeated id, stopping after its first occurrence loses the second. */
  lemma {:induction false} RepeatedIdIsLost(manifest: seq<Pair>, compare: Compare, i: nat, j: nat)
    returns (files: seq<seq<Row>>)
    requires i < j < |manifest| && manifest[i].id == manifest[j].id
    ensures Finished(manifest, compare, files)
    ensures Columns(files[|files| - 1]) != Expected(compare, manifest)
  {
    var first := StoppedBefore(manifest, compare, i, j);
    var reached := |Pending(manifest, IdsOf(first))|;
    var last := AfterSession(manifest, compare, first, reached);
    files := [[], first, last];
    assert SomeSession(manifest, compare, files[1], files[2]);
    assert |last| < |manifest|;
  }

  /** A session stopped just before the second occurrence leaves too little pending. */
  lemma {:induction false} StoppedBefore(manifest: seq<Pair>, compare: Compare, i: nat, j: nat)
    returns (first: seq<Row>)
    requires i < j < |manifest| && manifest[i].id == manifest[j].id
    ensures SomeSession(manifest, compare, [], first)
    ensures |first| + |Pending(manifest, IdsOf(first))| < |manifest|
  {
    PendingOfNothing(manifest);
    var none: seq<Row> := [];
    assert IdsOf(none) == {};
    first := AfterSession(manifest, compare, none, j);
    assert first[|none|..] == first;
    PendingIsShort(manifest, compare, i, j, first);
  }

  lemma {:induction false} PendingIsShort(manifest: seq<Pair>, compare: Compare, i: nat, j: nat, first: seq<Row>)
    requires i < j < |manifest| && manifest[i].id == manifest[j].id
    requires Columns(first) == Expected(compare, manifest[..j])
    ensures |first| + |Pending(manifest, IdsOf(first))| < |manifest|
  {
    var already := IdsOf(first);
    assert |first| == |Columns(first)| == j;
    forall k | 0 <= k < j + 1 ensures manifest[k].id in already {
      var at := if k < j then k else i;
      assert Columns(first)[at] == Expected(compare, manifest[..j])[at];
      assert first[at] in first && first[at].pair.id == manifest[k].id;
    }
    PendingOfStored(manifest, already, j + 1);
    PendingSize(manifest, already, j + 1);
  }

  lemma {:induction false} PendingSize(manifest: seq<Pair>, already: set<Id>, k: nat)
    requires k <= |manifest|
    ensures |Pending(manifest, already)| <= |Pending(manifest[..k], already)| + |manifest| - k
  {
    if k == |manifest| {
      assert manifest[..k] == manifest;
    } else {
      var less := manifest[..|manifest| - 1];
      PendingSize(less, already, k);
      assert less[..k] == manifest[..k];
    }
  }

  /**
   Stopping is invisible in the finished file exactly when the manifest names no pair twice: the set
   of stored ids is read once, when a session starts.
   */
  lemma {:induction false} InterruptionIsInvisibleIffDistinct(manifest: seq<Pair>, compare: Compare)
    ensures (forall files :: Finished(manifest, compare, files) ==> LeavesAll(manifest, compare, files))
       <==> DistinctIds(manifest)
  {
    if DistinctIds(manifest) {
      forall files | Finished(manifest, compare, files) ensures LeavesAll(manifest, compare, files) {
        FinishedIsWhole(manifest, compare, files);
      }
    } else {
      var i, j :| 0 <= i < j < |manifest| && manifest[i].id == manifest[j].id;
      var files := RepeatedIdIsLost(manifest, compare, i, j);
    }
  }

  /** The outcome file, appended to one flushed row at a time. */
  class OutcomeFile {
    var rows: seq<Row>

    constructor ()
      ensures rows == []
    {
      rows := [];
    }

    /** The ids already stored, read line by line. */
    method Already() returns (already: set<Id>)
      ensures already == IdsOf(rows)
    {
      already := {};
      for i := 0 to |rows|
        invariant already == IdsOf(rows[..i])
      {
        assert rows[..i + 1] == rows[..i] + [rows[i]];
        already := already + {rows[i].pair.id};
      }
      assert rows[..|rows|] == rows;
    }

    /** One comparison, one line, one flush. */
    method Append(pair: Pair, judgement: Judgement)
      modifies this
      ensures |rows| == |old(rows)| + 1 && old(rows) == rows[..|old(rows)|]
      ensures Columns(rows) == Columns(old(rows)) + [Lasting(pair, judgement)]
    {
      var milliseconds: real := *;
      rows := rows + [Row(pair, judgement, milliseconds)];
    }

    /** A session that dies before storing more than `survives` rows, or finishes. */
    method Resume(manifest: seq<Pair>, compare: Compare, survives: nat) returns (finished: bool)
      modifies this
      ensures SomeSession(manifest, compare, old(rows), rows)
      ensures finished ==> Complete(manifest, compare, old(rows), rows)
      ensures finished <==> |Pending(manifest, IdsOf(old(rows)))| <= survives
      ensures !finished ==> Session(manifest, compare, old(rows), rows, survives)
    {
      ghost var before := rows;
      var already := Already();
      ghost var pending := Pending(manifest, already);
      var written := 0;
      for i := 0 to |manifest|
        invariant written == |Pending(manifest[..i], already)| <= survives
        invariant Session(manifest, compare, before, rows, written)
      {
        assert manifest[..i + 1][..i] == manifest[..i];
        PendingGrows(manifest, already, i);
        PendingGrows(manifest, already, i + 1);
        if manifest[i].id in already { continue; }
        if written == survives { return false; }
        assert pending[..written + 1] == pending[..written] + [manifest[i]];
        ghost var soFar := rows;
        Append(manifest[i], compare(manifest[i]));
        SessionGrows(manifest, compare, before, soFar, rows, written);
        written := written + 1;
      }
      assert manifest[..|manifest|] == manifest;
      finished := true;
    }
  }

  lemma {:induction false} SessionGrows(manifest: seq<Pair>, compare: Compare, before: seq<Row>, soFar: seq<Row>,
                                        after: seq<Row>, reached: nat)
    requires Session(manifest, compare, before, soFar, reached)
    requires reached < |Pending(manifest, IdsOf(before))|
    requires |after| == |soFar| + 1 && soFar == after[..|soFar|]
    requires var pair := Pending(manifest, IdsOf(before))[reached];
      Columns(after)[|soFar|] == Lasting(pair, compare(pair))
    ensures Session(manifest, compare, before, after, reached + 1)
  {
  }
}
