/** Walks over a tree of comments that hand out comment ids in turn, with
    the emission of one comment left as a parameter, checked against an
    independent reference: the pre-order listing of the tree, emitted entry
    by entry. Both versions of the converter walk their comments this way;
    they differ only in how one comment is emitted and in the `parent_id`
    they give a reply. */
module Walks {
  import opened Xml

  /** The `parent_id` stamped on a listed comment when comment ids were handed
      out from `c0`: the comment at position `j` of the listing has id
      `c0 + 1 + j`. */
  function ParentStamp(parent: Option<nat>, c0: int): Option<int>
  {
    match parent
    case None => None
    case Some(j) => Some(c0 + 1 + j)
  }

  /** How one listed comment is emitted, given its fields, its id and its
      `parent_id`. */
  type Emit = (seq<Field>, int, Option<int>) -> Result<Flat>

  /** A listed comment as it is emitted: the comment at position `base + k` of
      the listing gets id `c0 + base + 1 + k`. */
  function StampAt(emit: Emit, l: seq<Visit>, c0: int, base: nat, k: nat): Result<Flat>
    requires k < |l|
  {
    emit(l[k].fields, c0 + base + 1 + k, ParentStamp(l[k].parent, c0))
  }

  /** Reference definition of the flattener: the listed comments emitted one
      after the other in listing order, the first failure stopping the walk. */
  function Stamp(emit: Emit, l: seq<Visit>, c0: int, base: nat): Result<Walk>
    decreases |l|
  {
    if l == [] then Success(Walk([], c0 + base))
    else
      match emit(l[0].fields, c0 + base + 1, ParentStamp(l[0].parent, c0))
      case Failure(e) => Failure(e)
      case Success(f) => Resume([f], Stamp(emit, l[1..], c0, base + 1))
  }

  /** Each listed comment is emitted at its own position, with its own id,
      and the walk succeeds exactly when every listed comment can be emitted. */
  lemma {:induction false} StampSpec(emit: Emit, l: seq<Visit>, c0: int, base: nat)
    ensures var r := Stamp(emit, l, c0, base);
      (r.Success? <==> forall k :: 0 <= k < |l| ==> StampAt(emit, l, c0, base, k).Success?) &&
      (r.Success? ==>
        |r.value.out| == |l| && r.value.next == c0 + base + |l| &&
        forall k :: 0 <= k < |l| ==> r.value.out[k] == StampAt(emit, l, c0, base, k).value)
    decreases |l|
  {
    if l != [] {
      var tail := l[1..];
      var next: nat := base + 1;
      StampSpec(emit, tail, c0, next);
      forall k | 0 <= k < |tail|
        ensures StampAt(emit, tail, c0, next, k) == StampAt(emit, l, c0, base, k + 1)
      {
        assert tail[k] == l[k + 1];
      }
      var r := Stamp(emit, l, c0, base);
      var first := StampAt(emit, l, c0, base, 0);
      var rest := Stamp(emit, tail, c0, next);
      if first.Success? && rest.Success? {
        assert r.value.out == [first.value] + rest.value.out;
        forall k | 0 <= k < |l|
          ensures StampAt(emit, l, c0, base, k).Success?
          ensures r.value.out[k] == StampAt(emit, l, c0, base, k).value
        {
          if k > 0 {
            assert r.value.out[k] == rest.value.out[k - 1];
          }
        }
      } else if first.Success? {
        var k :| 0 <= k < |tail| && !StampAt(emit, tail, c0, next, k).Success?;
        assert !StampAt(emit, l, c0, base, k + 1).Success?;
      }
    }
  }

  /** The walk of a listing made of two parts is the walk of the first part
      followed by the walk of the second. */
  lemma {:induction false} StampAppend(emit: Emit, a: seq<Visit>, b: seq<Visit>, c0: int, base: nat)
    ensures Stamp(emit, a + b, c0, base) ==
      match Stamp(emit, a, c0, base)
      case Failure(e) => Failure(e)
      case Success(w) => Resume(w.out, Stamp(emit, b, c0, base + |a|))
    decreases |a|
  {
    if a == [] {
      assert a + b == b;
      ResumeNothing(Stamp(emit, b, c0, base));
    } else {
      assert (a + b)[0] == a[0] && (a + b)[1..] == a[1..] + b;
      StampAppend(emit, a[1..], b, c0, base + 1);
      var f := emit(a[0].fields, c0 + base + 1, ParentStamp(a[0].parent, c0));
      var inner := Stamp(emit, a[1..], c0, base + 1);
      if f.Success? && inner.Success? {
        ResumeTwice([f.value], inner.value.out, Stamp(emit, b, c0, base + |a|));
      }
    }
  }

  lemma StampNext(emit: Emit, l: seq<Visit>, c0: int, base: nat)
    ensures Stamp(emit, l, c0, base).Success? ==> Stamp(emit, l, c0, base).value.next == c0 + base + |l|
  {
    StampSpec(emit, l, c0, base);
  }

  /** A walk over the children of a container: a comment takes the next id,
      is emitted with the `parent_id` given to the container, and its
      replies are walked with its own id as their parent when it has any;
      a text child is skipped. `FlattenNode` and `FlattenGroup` are this
      walk with `ProcessComment` as the emitter. */
  function WalkNode(emit: Emit, n: Node, parent: Option<int>, counter: int): Result<Walk>
  {
    match n
    case Text(_) => Success(Walk([], counter))
    case Comment(fields, replies) =>
      var id := counter + 1;
      match emit(fields, id, parent)
      case Failure(e) => Failure(e)
      case Success(flat) =>
        if CountGroup(replies) > 0 then Resume([flat], WalkGroup(emit, replies, Some(id), id))
        else Success(Walk([flat], id))
  }

  function WalkGroup(emit: Emit, g: seq<Node>, parent: Option<int>, counter: int): Result<Walk>
  {
    if g == [] then Success(Walk([], counter))
    else
      match WalkNode(emit, g[0], parent, counter)
      case Failure(e) => Failure(e)
      case Success(first) => Resume(first.out, WalkGroup(emit, g[1..], parent, first.next))
  }

  /** The walk of one child is the reference walk of that child's listing. */
  lemma {:induction false} WalkNodeListing(emit: Emit, n: Node, p: Option<nat>, c0: int, base: nat)
    ensures WalkNode(emit, n, ParentStamp(p, c0), c0 + base) == Stamp(emit, ListNode(n, p, base), c0, base)
    decreases n
  {
    if n.Comment? {
      if CountGroup(n.replies) > 0 {
        WalkGroupListing(emit, n.replies, Some(base), c0, base + 1);
        assert ParentStamp(Some(base), c0) == Some(c0 + base + 1);
      }
      WalkCommentListing(emit, n.fields, n.replies, p, c0, base);
    }
  }

  /** One comment: it is emitted with the next id, then its replies are
      walked with that id as their parent. */
  lemma WalkCommentListing(emit: Emit, fields: seq<Field>, replies: seq<Node>, p: Option<nat>, c0: int, base: nat)
    requires CountGroup(replies) > 0 ==>
      WalkGroup(emit, replies, Some(c0 + base + 1), c0 + base + 1)
        == Stamp(emit, ListGroup(replies, Some(base), base + 1), c0, base + 1)
    ensures WalkNode(emit, Comment(fields, replies), ParentStamp(p, c0), c0 + base)
      == Stamp(emit, ListNode(Comment(fields, replies), p, base), c0, base)
  {
    var id := c0 + base + 1;
    var l := ListNode(Comment(fields, replies), p, base);
    var sub := ListGroup(replies, Some(base), base + 1);
    assert l[0] == Visit(fields, p) && l[1..] == sub;
    var f := emit(fields, id, ParentStamp(p, c0));
    if f.Success? && CountGroup(replies) == 0 {
      ListGroupLength(replies, Some(base), base + 1);
      assert sub == [];
      assert [f.value] + [] == [f.value];
    }
  }

  /** The walk of a container is the reference walk of the container's
      listing. */
  lemma {:induction false} WalkGroupListing(emit: Emit, g: seq<Node>, p: Option<nat>, c0: int, base: nat)
    ensures WalkGroup(emit, g, ParentStamp(p, c0), c0 + base) == Stamp(emit, ListGroup(g, p, base), c0, base)
    decreases g
  {
    if g != [] {
      var first := ListNode(g[0], p, base);
      var rest := ListGroup(g[1..], p, base + |first|);
      var parent := ParentStamp(p, c0);
      var node := WalkNode(emit, g[0], parent, c0 + base);
      assert ListGroup(g, p, base) == first + rest;
      WalkNodeListing(emit, g[0], p, c0, base);
      StampAppend(emit, first, rest, c0, base);
      if node.Success? {
        StampNext(emit, first, c0, base);
        WalkGroupListing(emit, g[1..], p, c0, base + |first|);
        assert WalkGroup(emit, g, parent, c0 + base) == Resume(node.value.out, WalkGroup(emit, g[1..], parent, node.value.next));
      }
    }
  }

  /** The walk of a content item's comments is the walk of their pre-order
      listing, whatever the emitter. */
  lemma WalkIsPreOrder(emit: Emit, g: seq<Node>, c0: int)
    ensures var r := WalkGroup(emit, g, None, c0);
      var l := PreOrder(g);
      (r.Success? <==> forall k :: 0 <= k < |l| ==> StampAt(emit, l, c0, 0, k).Success?) &&
      (r.Success? ==>
         |r.value.out| == |l| == CountGroup(g) && r.value.next == c0 + CountGroup(g) &&
         forall k :: 0 <= k < |l| ==> r.value.out[k] == StampAt(emit, l, c0, 0, k).value)
  {
    WalkGroupListing(emit, g, None, c0, 0);
    assert ParentStamp(None, c0) == None;
    StampSpec(emit, PreOrder(g), c0, 0);
    ListGroupLength(g, None, 0);
  }

  /** `emit` gives every comment it emits the item id `postId` and the
      comment and parent ids it is handed. */
  ghost predicate StampsAsTold(emit: Emit, postId: int)
  {
    forall fields, id, parent :: emit(fields, id, parent).Success? ==>
      emit(fields, id, parent).value.postId == postId &&
      emit(fields, id, parent).value.commentId == id &&
      emit(fields, id, parent).value.parentId == parent
  }

  /** `out` holds one stamped comment per entry of the listing `l`: all
      carry `postId`, the k-th is numbered `c0 + 1 + k`, an entry without a
      parent has no `parent_id`, and a reply's `parent_id` is the
      `comment_id` of the comment it answers, which comes earlier. */
  ghost predicate StampedInOrder(out: seq<Flat>, l: seq<Visit>, postId: int, c0: int)
  {
    |out| == |l| &&
    forall k :: 0 <= k < |out| ==>
      out[k].postId == postId && out[k].commentId == c0 + 1 + k &&
      (out[k].parentId.None? <==> l[k].parent.None?) &&
      (l[k].parent.Some? ==>
         l[k].parent.value < k && out[k].parentId == Some(out[l[k].parent.value].commentId))
  }

  /** The reference walk of a whole listing, with an emitter that stamps as
      told, stamps the listing in order. */
  lemma StampNumbering(emit: Emit, postId: int, l: seq<Visit>, c0: int)
    requires StampsAsTold(emit, postId)
    requires Stamp(emit, l, c0, 0).Success?
    requires forall k :: 0 <= k < |l| && l[k].parent.Some? ==> l[k].parent.value < k
    ensures StampedInOrder(Stamp(emit, l, c0, 0).value.out, l, postId, c0)
  {
    StampSpec(emit, l, c0, 0);
    var out := Stamp(emit, l, c0, 0).value.out;
    forall k | 0 <= k < |out|
      ensures out[k].postId == postId && out[k].commentId == c0 + 1 + k
      ensures out[k].parentId == ParentStamp(l[k].parent, c0)
    {
      var e := StampAt(emit, l, c0, 0, k);
      assert e.Success? && out[k] == e.value;
      assert e == emit(l[k].fields, c0 + 0 + 1 + k, ParentStamp(l[k].parent, c0));
    }
  }

  /** The stamps of the walk of a content item's comments, for any emitter
      that stamps as told. */
  lemma WalkStamps(emit: Emit, g: seq<Node>, postId: int, c0: int)
    requires StampsAsTold(emit, postId)
    requires WalkGroup(emit, g, None, c0).Success?
    ensures var out := WalkGroup(emit, g, None, c0).value.out;
      |out| == CountGroup(g) && StampedInOrder(out, PreOrder(g), postId, c0)
  {
    var l := PreOrder(g);
    WalkGroupListing(emit, g, None, c0, 0);
    assert ParentStamp(None, c0) == None && c0 + 0 == c0 && l == ListGroup(g, None, 0);
    assert WalkGroup(emit, g, None, c0) == Stamp(emit, l, c0, 0);
    PreOrderParents(g);
    StampNumbering(emit, postId, l, c0);
  }
}
