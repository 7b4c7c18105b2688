/**
 * The routing outcomes the workflow test asserts, over an abstract
 * repository of publications.  A publication is identified by its index in
 * the repository; it has an owner (a user or a board), a status, an optional
 * parent and the kinds of identifier it was modified in.  Submitting copies a
 * publication to every board that reviews one of its kinds; reaching the
 * approval threshold gives the board's copy a finalizing child owned by a
 * user.
 */
module Routing {
  import opened Common
  import opened Tally

  datatype Kind = DdbText | HgvMeta | HgvTrans

  datatype Owner = UserOwner(user: nat) | BoardOwner(board: nat)

  datatype Publication = Publication(owner: Owner, status: string, parent: Option<nat>, kinds: set<Kind>)

  datatype Board = Board(id: nat, kinds: set<Kind>)

  /** The publications whose parent is `p`, in the order they were created. */
  function ChildrenOf(pubs: seq<Publication>, p: nat): seq<nat> {
    if pubs == [] then []
    else
      var n := |pubs| - 1;
      ChildrenOf(pubs[..n], p) + (if pubs[n].parent == Some(p) then [n] else [])
  }

  /** The publications owned by board `b`, in the order they were created. */
  function PublicationsOf(pubs: seq<Publication>, b: nat): seq<nat> {
    if pubs == [] then []
    else
      var n := |pubs| - 1;
      PublicationsOf(pubs[..n], b) + (if pubs[n].owner == BoardOwner(b) then [n] else [])
  }

  /** The children of `p` are exactly the publications whose parent is `p`. */
  lemma {:induction false} ChildrenOfIsParentOf(pubs: seq<Publication>, p: nat)
    ensures forall i :: i in ChildrenOf(pubs, p) <==> 0 <= i < |pubs| && pubs[i].parent == Some(p)
  {
    if pubs != [] {
      var n := |pubs| - 1;
      ChildrenOfIsParentOf(pubs[..n], p);
      assert forall i :: 0 <= i < n ==> pubs[..n][i] == pubs[i];
    }
  }

  /** A board's publications are exactly those it owns. */
  lemma {:induction false} PublicationsOfIsOwnedBy(pubs: seq<Publication>, b: nat)
    ensures forall i :: i in PublicationsOf(pubs, b) <==> 0 <= i < |pubs| && pubs[i].owner == BoardOwner(b)
  {
    if pubs != [] {
      var n := |pubs| - 1;
      PublicationsOfIsOwnedBy(pubs[..n], b);
      assert forall i :: 0 <= i < n ==> pubs[..n][i] == pubs[i];
    }
  }

  /** A board reviews a publication when they share a kind of identifier. */
  predicate Reviews(board: Board, pub: Publication) {
    board.kinds * pub.kinds != {}
  }

  /** The copy a board receives of publication `p`. */
  function BoardCopy(pubs: seq<Publication>, p: nat, board: Board): Publication
    requires p < |pubs|
  {
    Publication(BoardOwner(board.id), pubs[p].status, Some(p), pubs[p].kinds)
  }

  /** The repository after `p` is submitted to `boards`: one copy per reviewing board, in board order. */
  function Submit(pubs: seq<Publication>, p: nat, boards: seq<Board>): (r: seq<Publication>)
    requires p < |pubs|
    ensures |pubs| <= |r| && r[..|pubs|] == pubs
  {
    if boards == [] then pubs
    else
      var before := Submit(pubs, p, boards[..|boards| - 1]);
      var board := boards[|boards| - 1];
      if Reviews(board, pubs[p]) then before + [BoardCopy(pubs, p, board)] else before
  }

  /** Adding one publication adds it at the end of its parent's children and of its board's publications. */
  lemma AppendOne(pubs: seq<Publication>, x: Publication, p: nat, b: nat)
    ensures ChildrenOf(pubs + [x], p) == ChildrenOf(pubs, p) + (if x.parent == Some(p) then [|pubs|] else [])
    ensures PublicationsOf(pubs + [x], b) == PublicationsOf(pubs, b) + (if x.owner == BoardOwner(b) then [|pubs|] else [])
  {
    assert (pubs + [x])[..|pubs|] == pubs;
  }

  /** The indices from `lo` up to, not including, `hi`. */
  function Range(lo: nat, hi: nat): (r: seq<nat>)
    decreases hi - lo
  {
    if hi <= lo then [] else Range(lo, hi - 1) + [hi - 1]
  }

  /** After a submission, the new children of `p` are exactly the copies, in the order they were made. */
  lemma {:induction false} SubmitMakesChildren(pubs: seq<Publication>, p: nat, boards: seq<Board>)
    requires p < |pubs|
    ensures var r := Submit(pubs, p, boards);
            ChildrenOf(r, p) == ChildrenOf(pubs, p) + Range(|pubs|, |r|)
    decreases |boards|
  {
    if boards != [] {
      var front := boards[..|boards| - 1];
      var board := boards[|boards| - 1];
      var before := Submit(pubs, p, front);
      SubmitMakesChildren(pubs, p, front);
      if Reviews(board, pubs[p]) {
        var copy := BoardCopy(pubs, p, board);
        AppendOne(before, copy, p, 0);
        assert Submit(pubs, p, boards) == before + [copy];
        assert Range(|pubs|, |before| + 1) == Range(|pubs|, |before|) + [|before|];
      } else {
        assert Submit(pubs, p, boards) == before;
      }
    }
  }

  /** A board not among those submitted to gains nothing. */
  lemma {:induction false} SubmitSkipsOtherBoards(pubs: seq<Publication>, p: nat, boards: seq<Board>, b: nat)
    requires p < |pubs|
    requires forall k :: 0 <= k < |boards| ==> boards[k].id != b
    ensures PublicationsOf(Submit(pubs, p, boards), b) == PublicationsOf(pubs, b)
    decreases |boards|
  {
    if boards != [] {
      var front := boards[..|boards| - 1];
      var board := boards[|boards| - 1];
      SubmitSkipsOtherBoards(pubs, p, front, b);
      if Reviews(board, pubs[p]) {
        AppendOne(Submit(pubs, p, front), BoardCopy(pubs, p, board), p, b);
      }
    }
  }

  /** Among boards with distinct ids, each board gains one publication if it reviews `p` and none otherwise. */
  lemma {:induction false} SubmitOneCopyPerBoard(pubs: seq<Publication>, p: nat, boards: seq<Board>, k: nat)
    requires p < |pubs| && k < |boards|
    requires forall i, j :: 0 <= i < j < |boards| ==> boards[i].id != boards[j].id
    ensures var b := boards[k].id;
            |PublicationsOf(Submit(pubs, p, boards), b)| ==
              |PublicationsOf(pubs, b)| + (if Reviews(boards[k], pubs[p]) then 1 else 0)
    decreases |boards|
  {
    var front := boards[..|boards| - 1];
    var board := boards[|boards| - 1];
    var b := boards[k].id;
    var before := Submit(pubs, p, front);
    if k == |boards| - 1 {
      SubmitSkipsOtherBoards(pubs, p, front, b);
    } else {
      assert front[k] == boards[k];
      SubmitOneCopyPerBoard(pubs, p, front, k);
    }
    if Reviews(board, pubs[p]) {
      AppendOne(before, BoardCopy(pubs, p, board), p, b);
    }
  }

  /**
   * The tally of a board copy: when an approve decree's threshold is reached,
   * the copy gets a child owned by the finalizer, a board member, with status
   * "finalizing".  The choice of finalizer is a parameter.
   */
  function Approve(pubs: seq<Publication>, copy: nat, d: Decree, members: nat, votes: nat, finalizer: nat): (r: seq<Publication>)
    requires copy < |pubs|
    ensures d.action == "approve" && Reached(d, members, votes) ==>
              |r| == |pubs| + 1 && r[..|pubs|] == pubs &&
              r[|pubs|] == Publication(UserOwner(finalizer), "finalizing", Some(copy), pubs[copy].kinds)
    ensures !(d.action == "approve" && Reached(d, members, votes)) ==> r == pubs
  {
    if d.action == "approve" && Reached(d, members, votes) then
      pubs + [Publication(UserOwner(finalizer), "finalizing", Some(copy), pubs[copy].kinds)]
    else pubs
  }

  /** The test's boards: the DDbDP board reviews text, the two HGV boards metadata and translations. */
  const TestBoards: seq<Board> := [Board(0, {DdbText}), Board(1, {HgvMeta}), Board(2, {HgvTrans})]

  /**
   * A publication modified only in its DDB text, submitted with no earlier
   * children and no board publications, is copied to the DDbDP board alone:
   * its children are exactly that board's publications, the copy's parent is
   * the publication and its owner the board, and the HGV boards get none.
   */
  lemma DdbOnlySubmission(pubs: seq<Publication>, p: nat)
    requires p < |pubs| && pubs[p].kinds == {DdbText}
    requires ChildrenOf(pubs, p) == []
    requires PublicationsOf(pubs, 0) == [] && PublicationsOf(pubs, 1) == [] && PublicationsOf(pubs, 2) == []
    ensures var r := Submit(pubs, p, TestBoards);
            && |r| == |pubs| + 1
            && ChildrenOf(r, p) == PublicationsOf(r, 0) == [|pubs|]
            && r[|pubs|].parent == Some(p) && r[|pubs|].owner == BoardOwner(0)
            && PublicationsOf(r, 1) == [] && PublicationsOf(r, 2) == []
  {
    var copy := BoardCopy(pubs, p, TestBoards[0]);
    assert TestBoards[..1][..0] == [] && TestBoards[..2][..1] == TestBoards[..1] && TestBoards[..3][..2] == TestBoards[..2];
    assert TestBoards[..3] == TestBoards;
    assert Submit(pubs, p, TestBoards[..0]) == pubs;
    assert DdbText in TestBoards[0].kinds * pubs[p].kinds;
    assert Submit(pubs, p, TestBoards[..1]) == pubs + [copy];
    assert Submit(pubs, p, TestBoards[..2]) == pubs + [copy];
    assert Submit(pubs, p, TestBoards) == pubs + [copy];
    AppendOne(pubs, copy, p, 0);
    AppendOne(pubs, copy, p, 1);
    AppendOne(pubs, copy, p, 2);
  }

  /**
   * Once the approve votes the helper casts on a three-member board with a
   * 50% approve decree are tallied, the board's copy has exactly one child,
   * finalizing and owned by a user.
   */
  lemma ApprovalMakesFinalizer(pubs: seq<Publication>, copy: nat, d: Decree, finalizer: nat)
    requires copy < |pubs| && ChildrenOf(pubs, copy) == []
    requires d.action == "approve" && d.tallyMethod == Percent && d.trigger == 50.0
    ensures var r := Approve(pubs, copy, d, 3, VotesNeeded(d, 3), finalizer);
            && ChildrenOf(r, copy) == [|pubs|]
            && r[|pubs|].status == "finalizing" && r[|pubs|].owner.UserOwner?
  {
    ThreeMembersAtHalfNeedTwo(d);
    var child := Publication(UserOwner(finalizer), "finalizing", Some(copy), pubs[copy].kinds);
    AppendOne(pubs, child, copy, 0);
  }
}
