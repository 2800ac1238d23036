/** The numbering both versions of the converter share, for any way of
    handling one content item: the content counter goes up by one before
    each post or page, the item ends with an `import_id` child holding it,
    and the comments under the items take comment ids in turn, each carrying
    the id of its item. Runs are checked against a reference listing of the
    item id every comment must carry. */
module Numbering {
  import opened Xml
  import opened Formatter

  /** The number of comments under an item's `comments` container. */
  function CommentCount(item: Item): nat
  {
    if item.comments.Some? then CountGroup(item.comments.value) else 0
  }

  /** The number of comments under a run of items. */
  function CommentTotal(items: seq<Item>): nat
  {
    if items == [] then 0 else CommentCount(items[0]) + CommentTotal(items[1..])
  }

  /** The item's last child is `import_id` holding `id`. */
  predicate EndsWithImportId(item: Item, id: int)
  {
    |item.fields| > 0 && item.fields[|item.fields| - 1] == ImportIdField(id)
  }

  /** The items end with `import_id` children holding `start`, `start + 1`, ...
      in order. */
  predicate NumberedFrom(items: seq<Item>, start: int)
  {
    forall k :: 0 <= k < |items| ==> EndsWithImportId(items[k], start + k)
  }

  /** An item numbered `start` in front of items numbered on from `start + 1`. */
  lemma NumberedCons(item: Item, rest: seq<Item>, start: int)
    requires EndsWithImportId(item, start) && NumberedFrom(rest, start + 1)
    ensures NumberedFrom([item] + rest, start)
  {
    forall k | 0 <= k < |[item] + rest|
      ensures EndsWithImportId(([item] + rest)[k], start + k)
    {
      if k > 0 {
        assert ([item] + rest)[k] == rest[k - 1] && start + 1 + (k - 1) == start + k;
      }
    }
  }

  /** Two stretches of comments numbered one after the other make one
      stretch numbered from the same start. */
  lemma CommentIdsAppend(a: seq<Flat>, b: seq<Flat>, start: int)
    requires forall k :: 0 <= k < |a| ==> a[k].commentId == start + 1 + k
    requires forall k :: 0 <= k < |b| ==> b[k].commentId == start + |a| + 1 + k
    ensures forall k :: 0 <= k < |a + b| ==> (a + b)[k].commentId == start + 1 + k
  {
    forall k | 0 <= k < |a + b|
      ensures (a + b)[k].commentId == start + 1 + k
    {
      if k >= |a| {
        assert (a + b)[k] == b[k - |a|];
      }
    }
  }

  // ------------------------------------------------ one items loop, any step

  /** How one content item is handled, given its content id and the comment
      counter before it. */
  type Step = (Item, int, int) -> Result<Processed>

  /** The loop over the items of one kind with `step` handling one item: the
      content counter goes up by one before each item, the comment counter
      runs on from one item to the next, and the first failure stops the
      loop. */
  function Loop(step: Step, items: seq<Item>, contentId: int, commentId: int): Result<Run>
    decreases |items|
  {
    if items == [] then Success(Run([], [], contentId, commentId))
    else
      match step(items[0], contentId + 1, commentId)
      case Failure(e) => Failure(e)
      case Success(p) => ResumeItems([p.item], p.walk.out, Loop(step, items[1..], contentId + 1, p.walk.next))
  }

  /** `p` is `item` handled with content id `contentId` from comment counter
      `commentId`: it ends with `import_id` holding the content id, and every
      comment under the item is emitted with that id, comment ids running on
      from the counter. */
  ghost predicate HandledInTurn(item: Item, contentId: int, commentId: int, p: Processed)
  {
    EndsWithImportId(p.item, contentId) &&
    |p.walk.out| == CommentCount(item) && p.walk.next == commentId + CommentCount(item) &&
    forall k :: 0 <= k < |p.walk.out| ==>
      p.walk.out[k].postId == contentId && p.walk.out[k].commentId == commentId + 1 + k
  }

  /** Whenever `step` handles an item, it handles it in turn. */
  ghost predicate NumbersInTurn(step: Step)
  {
    forall item, contentId, commentId :: step(item, contentId, commentId).Success? ==>
      HandledInTurn(item, contentId, commentId, step(item, contentId, commentId).value)
  }

  /** Item `k` of the run handled on its own: with content id
      `contentId + 1 + k`, after the comments of the items before it. */
  function StepAt(step: Step, items: seq<Item>, contentId: int, commentId: int, k: nat): Result<Processed>
    requires k < |items|
  {
    step(items[k], contentId + 1 + k, commentId + CommentTotal(items[..k]))
  }

  /** The items out are the items in, each handled at its own place. */
  ghost predicate ProcessedInPlace(step: Step, items: seq<Item>, contentId: int, commentId: int, out: seq<Item>)
  {
    |out| == |items| &&
    forall k :: 0 <= k < |items| ==>
      StepAt(step, items, contentId, commentId, k).Success? &&
      out[k] == StepAt(step, items, contentId, commentId, k).value.item
  }

  /** Two runs of items hold the comments of both. */
  lemma {:induction false} CommentTotalAppend(a: seq<Item>, b: seq<Item>)
    ensures CommentTotal(a + b) == CommentTotal(a) + CommentTotal(b)
    decreases |a|
  {
    if a != [] {
      assert (a + b)[0] == a[0] && (a + b)[1..] == a[1..] + b;
      CommentTotalAppend(a[1..], b);
    } else {
      assert a + b == b;
    }
  }

  /** Item `i` of the first of two runs of items, one after the other, is
      handled as it is in its own run. */
  lemma {:induction false} StepAtFront(step: Step, a: seq<Item>, b: seq<Item>, contentId: int, commentId: int, i: nat)
    requires i < |a|
    ensures (a + b)[i] == a[i]
    ensures StepAt(step, a + b, contentId, commentId, i) == StepAt(step, a, contentId, commentId, i)
  {
    assert (a + b)[..i] == a[..i];
  }

  /** Item `j` of the second of two runs of items, one after the other, is
      handled as it is in its own run, which starts where the first stops. */
  lemma {:induction false} StepAtBack(step: Step, a: seq<Item>, b: seq<Item>, contentId: int, commentId: int,
                                      after: int, j: nat)
    requires j < |b| && after == commentId + CommentTotal(a)
    ensures (a + b)[|a| + j] == b[j]
    ensures StepAt(step, a + b, contentId, commentId, |a| + j) == StepAt(step, b, contentId + |a|, after, j)
  {
    CommentTotalBack(a, b, j);
  }

  /** The items before place `j` of the second run, counted in the joined
      run, hold the comments of the whole first run. */
  lemma {:induction false} CommentTotalBack(a: seq<Item>, b: seq<Item>, j: nat)
    requires j <= |b|
    ensures CommentTotal((a + b)[..|a| + j]) == CommentTotal(a) + CommentTotal(b[..j])
  {
    assert (a + b)[..|a| + j] == a + b[..j];
    CommentTotalAppend(a, b[..j]);
  }

  /** The comments of the first items of a run come before the rest. */
  lemma CommentTotalPrefix(items: seq<Item>, k: nat)
    requires 0 < k <= |items|
    ensures CommentTotal(items[..k]) == CommentCount(items[0]) + CommentTotal(items[1..][..k - 1])
  {
    assert items[..k][0] == items[0] && items[..k][1..] == items[1..][..k - 1];
  }

  /** An item handled first in front of the rest handled in place after it. */
  lemma ProcessedInPlaceCons(step: Step, items: seq<Item>, contentId: int, commentId: int, p: Processed, rest: seq<Item>)
    requires items != []
    requires step(items[0], contentId + 1, commentId) == Success(p)
    requires ProcessedInPlace(step, items[1..], contentId + 1, commentId + CommentCount(items[0]), rest)
    ensures ProcessedInPlace(step, items, contentId, commentId, [p.item] + rest)
  {
    var out := [p.item] + rest;
    forall k | 0 <= k < |items|
      ensures StepAt(step, items, contentId, commentId, k).Success?
      ensures out[k] == StepAt(step, items, contentId, commentId, k).value.item
    {
      if k == 0 {
        assert items[..0] == [];
      } else {
        CommentTotalPrefix(items, k);
        assert items[k] == items[1..][k - 1] && out[k] == rest[k - 1];
        assert StepAt(step, items, contentId, commentId, k)
          == StepAt(step, items[1..], contentId + 1, commentId + CommentCount(items[0]), k - 1);
      }
    }
  }

  // ------------------------------------------- the item id of every comment

  /** Reference listing of the item id each comment of a run carries, in
      output order: the comments of item `k` form one block of
      `contentId + 1 + k`, and the blocks come in item order. */
  function PostIdsOf(items: seq<Item>, contentId: int): (ids: seq<int>)
    ensures |ids| == CommentTotal(items)
    decreases |items|
  {
    if items == [] then []
    else seq(CommentCount(items[0]), _ => contentId + 1) + PostIdsOf(items[1..], contentId + 1)
  }

  /** Comment `j` of item `k` sits after the comments of the items before
      it and carries item `k`'s id. */
  lemma {:induction false} PostIdsOfBlocks(items: seq<Item>, contentId: int, k: nat, j: nat)
    requires k < |items| && j < CommentCount(items[k])
    ensures CommentTotal(items[..k]) + j < CommentTotal(items)
    ensures PostIdsOf(items, contentId)[CommentTotal(items[..k]) + j] == contentId + 1 + k
    decreases k
  {
    var first := CommentCount(items[0]);
    if k == 0 {
      assert items[..0] == [];
    } else {
      CommentTotalPrefix(items, k);
      assert items[k] == items[1..][k - 1];
      PostIdsOfBlocks(items[1..], contentId + 1, k - 1, j);
      var i := CommentTotal(items[1..][..k - 1]) + j;
      assert PostIdsOf(items, contentId)[first + i] == PostIdsOf(items[1..], contentId + 1)[i];
    }
  }

  /** Every id listed is the id of one of the items, and the ids never go
      down. */
  lemma {:induction false} PostIdsOfInOrder(items: seq<Item>, contentId: int)
    ensures forall i :: 0 <= i < |PostIdsOf(items, contentId)| ==>
      contentId < PostIdsOf(items, contentId)[i] <= contentId + |items|
    ensures forall i, j :: 0 <= i < j < |PostIdsOf(items, contentId)| ==>
      PostIdsOf(items, contentId)[i] <= PostIdsOf(items, contentId)[j]
    decreases |items|
  {
    if items != [] {
      PostIdsOfInOrder(items[1..], contentId + 1);
      var block := seq(CommentCount(items[0]), _ => contentId + 1);
      var rest := PostIdsOf(items[1..], contentId + 1);
      var ids := block + rest;
      assert ids == PostIdsOf(items, contentId);
      forall i | 0 <= i < |ids|
        ensures contentId < ids[i] <= contentId + |items|
        ensures i < |block| ==> ids[i] == contentId + 1
      {
        if i >= |block| {
          assert ids[i] == rest[i - |block|];
        } else {
          assert ids[i] == block[i];
        }
      }
      forall i, j | 0 <= i < j < |ids|
        ensures ids[i] <= ids[j]
      {
        if |block| <= i {
          assert ids[i] == rest[i - |block|] && ids[j] == rest[j - |block|];
        } else if |block| <= j {
          assert ids[i] == block[i] && ids[j] == rest[j - |block|];
        } else {
          assert ids[i] == block[i] && ids[j] == block[j];
        }
      }
    }
  }

  /** The listing of two runs of items, one after the other. */
  lemma {:induction false} PostIdsOfAppend(a: seq<Item>, b: seq<Item>, contentId: int)
    ensures PostIdsOf(a + b, contentId) == PostIdsOf(a, contentId) + PostIdsOf(b, contentId + |a|)
    decreases |a|
  {
    if a != [] {
      assert (a + b)[0] == a[0] && (a + b)[1..] == a[1..] + b;
      PostIdsOfAppend(a[1..], b, contentId + 1);
    } else {
      assert a + b == b;
    }
  }

  /** The comments carry the ids listed, one for one. */
  ghost predicate CarriesIds(out: seq<Flat>, ids: seq<int>)
  {
    |out| == |ids| && forall j :: 0 <= j < |out| ==> out[j].postId == ids[j]
  }

  lemma CarriesIdsAppend(a: seq<Flat>, b: seq<Flat>, ia: seq<int>, ib: seq<int>)
    requires CarriesIds(a, ia) && CarriesIds(b, ib)
    ensures CarriesIds(a + b, ia + ib)
  {
    forall j | 0 <= j < |a + b|
      ensures (a + b)[j].postId == (ia + ib)[j]
    {
      if j >= |a| {
        assert (a + b)[j] == b[j - |a|] && (ia + ib)[j] == ib[j - |a|];
      } else {
        assert (a + b)[j] == a[j] && (ia + ib)[j] == ia[j];
      }
    }
  }

  // ------------------------------------------ the comments of every item

  /** Reference join of the comments a run takes out: item by item, in item
      order, the comments `step` gives item `k` with content id
      `contentId + 1 + k`, its comment counter past the comments of the items
      before it (an item the step refuses contributes none). */
  function Walked(step: Step, items: seq<Item>, contentId: int, commentId: int): seq<Flat>
    decreases |items|
  {
    if items == [] then []
    else
      Own(step, items[0], contentId + 1, commentId)
      + Walked(step, items[1..], contentId + 1, commentId + CommentCount(items[0]))
  }

  /** The comments `step` takes out of one item; none if it refuses it. */
  function Own(step: Step, item: Item, contentId: int, commentId: int): seq<Flat>
  {
    match step(item, contentId, commentId)
    case Success(p) => p.walk.out
    case Failure(_) => []
  }

  /** The comments of two runs of items, one after the other. */
  lemma {:induction false} WalkedAppend(step: Step, a: seq<Item>, b: seq<Item>, contentId: int, commentId: int)
    ensures Walked(step, a + b, contentId, commentId)
      == Walked(step, a, contentId, commentId) + Walked(step, b, contentId + |a|, commentId + CommentTotal(a))
    decreases |a|
  {
    if a != [] {
      var c1 := commentId + CommentCount(a[0]);
      assert (a + b)[0] == a[0] && (a + b)[1..] == a[1..] + b;
      WalkedAppend(step, a[1..], b, contentId + 1, c1);
      assert contentId + 1 + |a[1..]| == contentId + |a|;
      assert c1 + CommentTotal(a[1..]) == commentId + CommentTotal(a);
    } else {
      assert a + b == b && |a| == 0 && CommentTotal(a) == 0;
      assert Walked(step, a, contentId, commentId) == [];
    }
  }

  /** Item `i + 1` of a run is item `i` of the rest of the run after the
      first item. */
  lemma {:induction false} StepAtTail(step: Step, items: seq<Item>, contentId: int, commentId: int, i: nat)
    requires i + 1 < |items|
    ensures StepAt(step, items[1..], contentId + 1, commentId + CommentCount(items[0]), i)
      == StepAt(step, items, contentId, commentId, i + 1)
  {
    CommentTotalPrefix(items, i + 1);
    assert items[1..][i] == items[i + 1];
  }

  /** Every item of the run is handled at its own place, with one comment
      out per comment under it. */
  ghost predicate HandledAll(step: Step, items: seq<Item>, contentId: int, commentId: int)
  {
    forall i :: 0 <= i < |items| ==>
      StepAt(step, items, contentId, commentId, i).Success? &&
      |StepAt(step, items, contentId, commentId, i).value.walk.out| == CommentCount(items[i])
  }

  lemma {:induction false} HandledAllTail(step: Step, items: seq<Item>, contentId: int, commentId: int)
    requires items != [] && HandledAll(step, items, contentId, commentId)
    ensures HandledAll(step, items[1..], contentId + 1, commentId + CommentCount(items[0]))
  {
    var tail, d1, c1 := items[1..], contentId + 1, commentId + CommentCount(items[0]);
    forall i | 0 <= i < |tail|
      ensures StepAt(step, tail, d1, c1, i).Success?
      ensures |StepAt(step, tail, d1, c1, i).value.walk.out| == CommentCount(tail[i])
    {
      StepAtTail(step, items, contentId, commentId, i);
      assert tail[i] == items[i + 1];
    }
  }

  /** The comments of a run whose first item is handled: that item's, then
      those of the rest. */
  lemma WalkedCons(step: Step, items: seq<Item>, contentId: int, commentId: int)
    requires items != [] && step(items[0], contentId + 1, commentId).Success?
    ensures Walked(step, items, contentId, commentId)
      == step(items[0], contentId + 1, commentId).value.walk.out
         + Walked(step, items[1..], contentId + 1, commentId + CommentCount(items[0]))
  {
  }

  /** A run handled in place by a step that handles every item in turn has
      every item handled at its own place, one comment out per comment in. */
  lemma {:induction false} ProcessedHandledAll(step: Step, items: seq<Item>, contentId: int, commentId: int, out: seq<Item>)
    requires NumbersInTurn(step) && ProcessedInPlace(step, items, contentId, commentId, out)
    ensures HandledAll(step, items, contentId, commentId)
  {
    forall i | 0 <= i < |items|
      ensures |StepAt(step, items, contentId, commentId, i).value.walk.out| == CommentCount(items[i])
    {
      var r := StepAt(step, items, contentId, commentId, i);
      assert HandledInTurn(items[i], contentId + 1 + i, commentId + CommentTotal(items[..i]), r.value);
    }
  }

  /** Two runs each handled at their own places, the second starting where
      the first stops, are one run handled at its places. */
  lemma {:induction false} HandledAllAppend(step: Step, a: seq<Item>, b: seq<Item>, contentId: int, commentId: int,
                                            after: int)
    requires after == commentId + CommentTotal(a)
    requires HandledAll(step, a, contentId, commentId)
    requires HandledAll(step, b, contentId + |a|, after)
    ensures HandledAll(step, a + b, contentId, commentId)
  {
    var ab := a + b;
    forall i | 0 <= i < |ab|
      ensures StepAt(step, ab, contentId, commentId, i).Success?
      ensures |StepAt(step, ab, contentId, commentId, i).value.walk.out| == CommentCount(ab[i])
    {
      var r := StepAt(step, ab, contentId, commentId, i);
      if i < |a| {
        StepAtFront(step, a, b, contentId, commentId, i);
        assert r == StepAt(step, a, contentId, commentId, i) && ab[i] == a[i];
      } else {
        var i2 := i - |a|;
        assert i == |a| + i2;
        StepAtBack(step, a, b, contentId, commentId, after, i2);
        assert r == StepAt(step, b, contentId + |a|, after, i2) && ab[i] == b[i2];
      }
    }
  }

  /** When every item of a run is handled at its own place, the comments of
      the run are the first item's, then those of the rest. */
  lemma {:induction false} WalkedHead(step: Step, items: seq<Item>, contentId: int, commentId: int)
    requires items != [] && HandledAll(step, items, contentId, commentId)
    ensures var head := StepAt(step, items, contentId, commentId, 0).value.walk.out;
      |head| == CommentCount(items[0]) &&
      Walked(step, items, contentId, commentId)
        == head + Walked(step, items[1..], contentId + 1, commentId + CommentCount(items[0]))
  {
    assert items[..0] == [];
  }

  /** Item `k` of a run is the first item of the run from `k` on, which
      starts where the items before `k` stop. */
  lemma {:induction false} StepAtDrop(step: Step, items: seq<Item>, contentId: int, commentId: int, k: nat)
    requires k < |items|
    ensures items[k..] != [] && items[k..][0] == items[k]
    ensures step(items[k..][0], contentId + k + 1, commentId + CommentTotal(items[..k]))
      == StepAt(step, items, contentId, commentId, k)
  {
  }

  /** The first items of a run are handled as they are in the whole run. */
  lemma {:induction false} HandledAllPrefix(step: Step, items: seq<Item>, contentId: int, commentId: int, k: nat)
    requires k <= |items| && HandledAll(step, items, contentId, commentId)
    ensures HandledAll(step, items[..k], contentId, commentId)
  {
    var front := items[..k];
    forall i | 0 <= i < |front|
      ensures StepAt(step, front, contentId, commentId, i) == StepAt(step, items, contentId, commentId, i)
    {
      assert front[..i] == items[..i] && front[i] == items[i];
    }
  }

  /** When every item of a run is handled at its own place, the run takes
      out as many comments as there are under its items. */
  lemma {:induction false} WalkedLength(step: Step, items: seq<Item>, contentId: int, commentId: int)
    requires HandledAll(step, items, contentId, commentId)
    ensures |Walked(step, items, contentId, commentId)| == CommentTotal(items)
    decreases |items|
  {
    if items != [] {
      WalkedHead(step, items, contentId, commentId);
      HandledAllTail(step, items, contentId, commentId);
      WalkedLength(step, items[1..], contentId + 1, commentId + CommentCount(items[0]));
    }
  }

  /** The comments of a run are those of its first `k` items, then those of
      the items from `k` on. */
  lemma {:induction false} WalkedSplit(step: Step, items: seq<Item>, contentId: int, commentId: int, k: nat)
    requires k <= |items|
    ensures Walked(step, items, contentId, commentId)
      == Walked(step, items[..k], contentId, commentId)
         + Walked(step, items[k..], contentId + k, commentId + CommentTotal(items[..k]))
  {
    assert items[..k] + items[k..] == items;
    WalkedAppend(step, items[..k], items[k..], contentId, commentId);
  }

  /** When every item of a run is handled at its own place, its first `k`
      items take out as many comments as there are under them. */
  lemma {:induction false} WalkedPrefixLength(step: Step, items: seq<Item>, contentId: int, commentId: int, k: nat)
    requires k <= |items| && HandledAll(step, items, contentId, commentId)
    ensures |Walked(step, items[..k], contentId, commentId)| == CommentTotal(items[..k])
  {
    HandledAllPrefix(step, items, contentId, commentId, k);
    WalkedLength(step, items[..k], contentId, commentId);
  }

  /** `out` sits in `w` as one block from index `s` on. */
  ghost predicate BlockIn(w: seq<Flat>, out: seq<Flat>, s: int)
  {
    0 <= s && s + |out| <= |w| && forall j :: 0 <= j < |out| ==> w[s + j] == out[j]
  }

  /** When item `k` of a run is handled, its comments are one block right
      after the comments of the items before it. */
  lemma {:induction false} WalkedAround(step: Step, items: seq<Item>, contentId: int, commentId: int, k: nat)
    requires k < |items| && StepAt(step, items, contentId, commentId, k).Success?
    ensures BlockIn(Walked(step, items, contentId, commentId),
      StepAt(step, items, contentId, commentId, k).value.walk.out,
      |Walked(step, items[..k], contentId, commentId)|)
  {
    var s := CommentTotal(items[..k]);
    var r := StepAt(step, items, contentId, commentId, k);
    StepAtDrop(step, items, contentId, commentId, k);
    WalkedCons(step, items[k..], contentId + k, commentId + s);
    WalkedSplit(step, items, contentId, commentId, k);
    var front := Walked(step, items[..k], contentId, commentId);
    var back := Walked(step, items[k..], contentId + k, commentId + s);
    var rest := Walked(step, items[k..][1..], contentId + k + 1, commentId + s + CommentCount(items[k..][0]));
    BlockOf(Walked(step, items, contentId, commentId), front, back, r.value.walk.out, rest);
  }

  /** When every item of a run is handled at its own place, the comments of
      item `k` are one block, after the comments of the items before it:
      the comments the step gives item `k` at its own place. */
  lemma {:induction false} WalkedBlock(step: Step, items: seq<Item>, contentId: int, commentId: int, k: nat)
    requires HandledAll(step, items, contentId, commentId)
    requires k < |items|
    ensures BlockIn(Walked(step, items, contentId, commentId),
      StepAt(step, items, contentId, commentId, k).value.walk.out, CommentTotal(items[..k]))
  {
    WalkedAround(step, items, contentId, commentId, k);
    WalkedPrefixLength(step, items, contentId, commentId, k);
  }

  /** A stretch of comments at the head of what follows another sits right
      after it. */
  lemma {:induction false} BlockOf(w: seq<Flat>, front: seq<Flat>, back: seq<Flat>, out: seq<Flat>, rest: seq<Flat>)
    requires w == front + back && back == out + rest
    ensures BlockIn(w, out, |front|)
  {
    forall j | 0 <= j < |out|
      ensures w[|front| + j] == out[j]
    {
      assert w[|front| + j] == back[j];
    }
  }




  // -------------------------------------------------- the numbering of a run

  /** What one items loop hands out, stated on its result alone: item `k`
      out is item `k` in handled at its own place and ends with `import_id`
      holding `contentId + 1 + k`; the comments out are the items' comments
      joined in item order, numbered on from the comment counter, and
      comment by comment they carry the ids of the reference listing. */
  ghost predicate RunNumbering(step: Step, items: seq<Item>, contentId: int, commentId: int, run: Run)
  {
    ProcessedInPlace(step, items, contentId, commentId, run.items) &&
    run.contentId == contentId + |items| && NumberedFrom(run.items, contentId + 1) &&
    |run.out| == CommentTotal(items) && run.commentId == commentId + CommentTotal(items) &&
    (forall k :: 0 <= k < |run.out| ==> run.out[k].commentId == commentId + 1 + k) &&
    CarriesIds(run.out, PostIdsOf(items, contentId)) &&
    run.out == Walked(step, items, contentId, commentId)
  }

  /** The first item handled in turn, in front of the rest of the run. */
  lemma RunNumberingCons(step: Step, items: seq<Item>, contentId: int, commentId: int, p: Processed, rest: Run)
    requires items != []
    requires step(items[0], contentId + 1, commentId) == Success(p)
    requires HandledInTurn(items[0], contentId + 1, commentId, p)
    requires RunNumbering(step, items[1..], contentId + 1, p.walk.next, rest)
    ensures RunNumbering(step, items, contentId, commentId,
                         Run([p.item] + rest.items, p.walk.out + rest.out, rest.contentId, rest.commentId))
  {
    ProcessedInPlaceCons(step, items, contentId, commentId, p, rest.items);
    NumberedCons(p.item, rest.items, contentId + 1);
    CommentIdsAppend(p.walk.out, rest.out, commentId);
    var block := seq(CommentCount(items[0]), _ => contentId + 1);
    assert CarriesIds(p.walk.out, block);
    CarriesIdsAppend(p.walk.out, rest.out, block, PostIdsOf(items[1..], contentId + 1));
  }

  /** The numbering of a loop whose step handles every item in turn. */
  lemma {:induction false} LoopNumbering(step: Step, items: seq<Item>, contentId: int, commentId: int)
    requires NumbersInTurn(step)
    requires Loop(step, items, contentId, commentId).Success?
    ensures RunNumbering(step, items, contentId, commentId, Loop(step, items, contentId, commentId).value)
    decreases |items|
  {
    if items != [] {
      var p := step(items[0], contentId + 1, commentId).value;
      var rest := Loop(step, items[1..], contentId + 1, p.walk.next);
      assert rest.Success?;
      LoopNumbering(step, items[1..], contentId + 1, p.walk.next);
      assert HandledInTurn(items[0], contentId + 1, commentId, p);
      RunNumberingCons(step, items, contentId, commentId, p, rest.value);
    }
  }

  // ------------------------------------------- the posts loop, then the pages

  /** The ids a whole run hands out when the posts loop starts from content
      id `contentId` and comment 0 and the pages loop goes on from where it
      stopped: posts and pages are handled in place and numbered
      consecutively, posts first; the comments are those of the posts
      followed by the pages, joined in item order, numbered from 1, and carry
      the ids of the reference listing of the posts followed by the pages. */
  ghost predicate TwoRuns(step: Step, posts: seq<Item>, pages: seq<Item>, contentId: int,
                          postsOut: seq<Item>, pagesOut: seq<Item>, comments: seq<Flat>)
  {
    ProcessedInPlace(step, posts, contentId, 0, postsOut) &&
    ProcessedInPlace(step, pages, contentId + |posts|, CommentTotal(posts), pagesOut) &&
    NumberedFrom(postsOut, contentId + 1) && NumberedFrom(pagesOut, contentId + 1 + |posts|) &&
    |comments| == CommentTotal(posts) + CommentTotal(pages) &&
    (forall k :: 0 <= k < |comments| ==> comments[k].commentId == 1 + k) &&
    CarriesIds(comments, PostIdsOf(posts + pages, contentId)) &&
    comments == Walked(step, posts + pages, contentId, 0)
  }

  /** The posts loop, then the pages loop from where it stopped, written
      out: the items of each loop and the comments of both. */
  lemma {:induction false} TwoRunsJoin(step: Step, posts: seq<Item>, pages: seq<Item>, contentId: int, run1: Run, run2: Run,
                    postsOut: seq<Item>, pagesOut: seq<Item>, comments: seq<Flat>)
    requires RunNumbering(step, posts, contentId, 0, run1)
    requires RunNumbering(step, pages, run1.contentId, run1.commentId, run2)
    requires postsOut == run1.items && pagesOut == run2.items && comments == run1.out + run2.out
    ensures TwoRuns(step, posts, pages, contentId, postsOut, pagesOut, comments)
  {
    CommentIdsAppend(run1.out, run2.out, 0);
    PostIdsOfAppend(posts, pages, contentId);
    WalkedAppend(step, posts, pages, contentId, 0);
    CarriesIdsAppend(run1.out, run2.out, PostIdsOf(posts, contentId), PostIdsOf(pages, contentId + |posts|));
  }

  /** In the comments file of a whole run, the comments of post or page
      `k` (pages counted on after the posts) are one block, after the
      comments of the items before it: the comments the step gives that item
      at its own place. */
  lemma {:induction false} TwoRunsBlock(step: Step, posts: seq<Item>, pages: seq<Item>, contentId: int,
                     postsOut: seq<Item>, pagesOut: seq<Item>, comments: seq<Flat>, k: nat)
    requires NumbersInTurn(step)
    requires TwoRuns(step, posts, pages, contentId, postsOut, pagesOut, comments)
    requires k < |posts| + |pages|
    ensures var all := posts + pages;
      var r := StepAt(step, all, contentId, 0, k);
      r.Success? && |r.value.walk.out| == CommentCount(all[k]) &&
      BlockIn(comments, r.value.walk.out, CommentTotal(all[..k]))
  {
    TwoRunsHandled(step, posts, pages, contentId, postsOut, pagesOut, comments);
    WalkedBlock(step, posts + pages, contentId, 0, k);
  }

  /** Under a step that handles every item in turn, two runs numbered one
      after the other have every item handled at its own place in the joined
      run, whose comments are the comments file. */
  lemma {:induction false} TwoRunsHandled(step: Step, posts: seq<Item>, pages: seq<Item>, contentId: int,
                       postsOut: seq<Item>, pagesOut: seq<Item>, comments: seq<Flat>)
    requires NumbersInTurn(step)
    requires TwoRuns(step, posts, pages, contentId, postsOut, pagesOut, comments)
    ensures HandledAll(step, posts + pages, contentId, 0)
    ensures comments == Walked(step, posts + pages, contentId, 0)
  {
    ProcessedHandledAll(step, posts, contentId, 0, postsOut);
    ProcessedHandledAll(step, pages, contentId + |posts|, CommentTotal(posts), pagesOut);
    HandledAllAppend(step, posts, pages, contentId, 0, CommentTotal(posts));
  }

  /** The numbering of the posts loop from content id `contentId` and
      comment 0, then the pages loop from where it stopped, when the step
      handles every item in turn. */
  lemma {:induction false} LoopsNumbering(step: Step, posts: seq<Item>, pages: seq<Item>, contentId: int,
                       postsOut: seq<Item>, pagesOut: seq<Item>, comments: seq<Flat>)
    requires NumbersInTurn(step)
    requires Loop(step, posts, contentId, 0).Success?
    requires var run1 := Loop(step, posts, contentId, 0).value;
      var run2 := Loop(step, pages, run1.contentId, run1.commentId);
      run2.Success? && postsOut == run1.items && pagesOut == run2.value.items && comments == run1.out + run2.value.out
    ensures TwoRuns(step, posts, pages, contentId, postsOut, pagesOut, comments)
  {
    var run1 := Loop(step, posts, contentId, 0).value;
    var run2 := Loop(step, pages, run1.contentId, run1.commentId).value;
    LoopNumbering(step, posts, contentId, 0);
    LoopNumbering(step, pages, run1.contentId, run1.commentId);
    TwoRunsJoin(step, posts, pages, contentId, run1, run2, postsOut, pagesOut, comments);
  }
}
