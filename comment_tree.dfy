/** Reply trees over a sequence of comments. A comment's replies are the
    comments of the same sequence that name it as parent, in sequence order;
    `Tree` unfolds them into the nested `CommentNode` value the services
    return. Both tree builders of the comment service produce such trees:
    over one page of a post's comments, and over the whole table below one
    comment. */
module CommentTree {
  import opened Common
  import opened Entities

  datatype CommentNode = CommentNode(commentId: string, userId: string, content: string,
                                     replies: seq<CommentNode>, likeCount: int)

  /** Positions below n of the comments whose parent is id, in order. */
  function ChildrenIn(cs: seq<Comment>, id: string, n: nat): (r: seq<nat>)
    requires n <= |cs|
    ensures forall m :: 0 <= m < |r| ==> r[m] < n && cs[r[m]].parentCommentId == Some(id)
    ensures forall j :: 0 <= j < n && cs[j].parentCommentId == Some(id) ==> j in r
    ensures forall a, b :: 0 <= a < b < |r| ==> r[a] < r[b]
    decreases n
  {
    if n == 0 then []
    else ChildrenIn(cs, id, n - 1) + (if cs[n - 1].parentCommentId == Some(id) then [n - 1] else [])
  }

  /** For every position, the positions of its replies. */
  function ReplyTable(cs: seq<Comment>): (r: seq<seq<nat>>)
    ensures |r| == |cs|
    ensures forall p :: 0 <= p < |cs| ==> r[p] == ChildrenIn(cs, cs[p].id, |cs|)
  {
    seq(|cs|, p requires 0 <= p < |cs| => ChildrenIn(cs, cs[p].id, |cs|))
  }

  /** Positions below n of the comments without a parent, in order. */
  function RootsIn(cs: seq<Comment>, n: nat): (r: seq<nat>)
    requires n <= |cs|
    ensures forall m :: 0 <= m < |r| ==> r[m] < n && cs[r[m]].parentCommentId.None?
    ensures forall j :: 0 <= j < n && cs[j].parentCommentId.None? ==> j in r
    ensures forall a, b :: 0 <= a < b < |r| ==> r[a] < r[b]
    decreases n
  {
    if n == 0 then []
    else RootsIn(cs, n - 1) + (if cs[n - 1].parentCommentId.None? then [n - 1] else [])
  }

  /** A child table whose edges all climb a rank below bound: the
      unfolding of a tree terminates. */
  ghost predicate Ranked(kids: seq<seq<nat>>, rank: seq<nat>, bound: nat, n: nat)
  {
    |kids| == n && |rank| == n &&
    (forall p :: 0 <= p < n ==> rank[p] < bound) &&
    (forall p, m :: 0 <= p < n && 0 <= m < |kids[p]| ==> kids[p][m] < n && rank[p] < rank[kids[p][m]])
  }

  /** The node of position p with its replies unfolded, and counts[p] likes. */
  function Tree(cs: seq<Comment>, kids: seq<seq<nat>>, counts: seq<int>, ghost rank: seq<nat>, ghost bound: nat,
                p: nat): CommentNode
    requires p < |cs| && |counts| == |cs| && Ranked(kids, rank, bound, |cs|)
    decreases bound - rank[p]
  {
    CommentNode(cs[p].id, cs[p].userId, cs[p].content,
      seq(|kids[p]|, m requires 0 <= m < |kids[p]| => Tree(cs, kids, counts, rank, bound, kids[p][m])),
      counts[p])
  }

  /** The trees of the given positions, in order. */
  function Forest(cs: seq<Comment>, kids: seq<seq<nat>>, counts: seq<int>, ghost rank: seq<nat>, ghost bound: nat,
                  ps: seq<nat>): (r: seq<CommentNode>)
    requires |counts| == |cs| && Ranked(kids, rank, bound, |cs|)
    requires forall i :: 0 <= i < |ps| ==> ps[i] < |cs|
    ensures |r| == |ps|
    ensures forall i :: 0 <= i < |ps| ==> r[i] == Tree(cs, kids, counts, rank, bound, ps[i])
  {
    seq(|ps|, i requires 0 <= i < |ps| => Tree(cs, kids, counts, rank, bound, ps[i]))
  }

  /** Some node of t has this id. */
  predicate Contains(t: CommentNode, id: string)
    decreases t
  {
    t.commentId == id || exists m :: 0 <= m < |t.replies| && Contains(t.replies[m], id)
  }

  /** Every node of t carries the like count the function gives its id. */
  ghost predicate AllCounted(t: CommentNode, count: string -> int)
    decreases t
  {
    t.likeCount == count(t.commentId) && forall m :: 0 <= m < |t.replies| ==> AllCounted(t.replies[m], count)
  }

  /** Every node strictly below t has like count 0. */
  ghost predicate ZeroBelow(t: CommentNode)
    decreases t
  {
    forall m :: 0 <= m < |t.replies| ==> t.replies[m].likeCount == 0 && ZeroBelow(t.replies[m])
  }

  /** The reply table is ranked by any rank under which every parent ranks
      below its replies. */
  lemma ReplyTableRanked(cs: seq<Comment>, rank: seq<nat>, bound: nat)
    requires |rank| == |cs| && forall p :: 0 <= p < |cs| ==> rank[p] < bound
    requires forall p, q :: 0 <= p < |cs| && 0 <= q < |cs| && cs[q].parentCommentId == Some(cs[p].id) ==> rank[p] < rank[q]
    ensures Ranked(ReplyTable(cs), rank, bound, |cs|)
  {
  }

  /** Every node of the tree of p is a comment q of the sequence, and every
      node other than p itself has a parent r in the sequence. */
  lemma {:induction false} TreeNodeOrigin(cs: seq<Comment>, counts: seq<int>, rank: seq<nat>, bound: nat,
                                          p: nat, id: string) returns (q: nat, r: nat)
    requires p < |cs| && |counts| == |cs| && Ranked(ReplyTable(cs), rank, bound, |cs|)
    requires Contains(Tree(cs, ReplyTable(cs), counts, rank, bound, p), id)
    ensures q < |cs| && cs[q].id == id
    ensures q == p || (r < |cs| && cs[q].parentCommentId == Some(cs[r].id))
    decreases bound - rank[p]
  {
    var kids := ReplyTable(cs);
    var t := Tree(cs, kids, counts, rank, bound, p);
    if t.commentId == id {
      q, r := p, 0;
    } else {
      var m :| 0 <= m < |t.replies| && Contains(t.replies[m], id);
      var c := kids[p][m];
      assert t.replies[m] == Tree(cs, kids, counts, rank, bound, c);
      q, r := TreeNodeOrigin(cs, counts, rank, bound, c, id);
      if q == c {
        r := p;
      }
    }
  }

  /** A comment whose parent is not in the sequence appears in no tree of
      a parentless comment. */
  lemma {:induction false} OrphanAppearsNowhere(cs: seq<Comment>, counts: seq<int>, rank: seq<nat>, bound: nat,
                                                p: nat, q: nat)
    requires p < |cs| && |counts| == |cs| && Ranked(ReplyTable(cs), rank, bound, |cs|)
    requires forall i, j :: 0 <= i < j < |cs| ==> cs[i].id != cs[j].id
    requires cs[p].parentCommentId.None?
    requires q < |cs| && cs[q].parentCommentId.Some?
    requires forall r :: 0 <= r < |cs| ==> cs[q].parentCommentId != Some(cs[r].id)
    ensures !Contains(Tree(cs, ReplyTable(cs), counts, rank, bound, p), cs[q].id)
  {
    if Contains(Tree(cs, ReplyTable(cs), counts, rank, bound, p), cs[q].id) {
      var q', r := TreeNodeOrigin(cs, counts, rank, bound, p, cs[q].id);
      assert false;
    }
  }

  /** Each node carries the count of its own comment. */
  lemma {:induction false} TreeCounted(cs: seq<Comment>, kids: seq<seq<nat>>, counts: seq<int>, rank: seq<nat>, bound: nat,
                                       p: nat, count: string -> int)
    requires p < |cs| && |counts| == |cs| && Ranked(kids, rank, bound, |cs|)
    requires forall k :: 0 <= k < |cs| ==> counts[k] == count(cs[k].id)
    ensures AllCounted(Tree(cs, kids, counts, rank, bound, p), count)
    decreases bound - rank[p]
  {
    var t := Tree(cs, kids, counts, rank, bound, p);
    forall m | 0 <= m < |t.replies|
      ensures AllCounted(t.replies[m], count)
    {
      TreeCounted(cs, kids, counts, rank, bound, kids[p][m], count);
    }
  }

  /** With all counts 0, every node below the root has like count 0. */
  lemma {:induction false} TreeZeroBelow(cs: seq<Comment>, kids: seq<seq<nat>>, counts: seq<int>, rank: seq<nat>, bound: nat,
                                         p: nat)
    requires p < |cs| && |counts| == |cs| && Ranked(kids, rank, bound, |cs|)
    requires forall k :: 0 <= k < |cs| ==> counts[k] == 0
    ensures ZeroBelow(Tree(cs, kids, counts, rank, bound, p))
    decreases bound - rank[p]
  {
    var t := Tree(cs, kids, counts, rank, bound, p);
    forall m | 0 <= m < |t.replies|
      ensures t.replies[m].likeCount == 0 && ZeroBelow(t.replies[m])
    {
      TreeZeroBelow(cs, kids, counts, rank, bound, kids[p][m]);
    }
  }
}
