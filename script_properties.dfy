/** What the first version of the converter (main.py) does to comments,
    items and whole exports, and the two places where it parts from
    `ExportFormatter`: the `parent_id` of a reply, and a text node between
    comments. */
module ScriptProperties {
  import opened Xml
  import opened Formatter
  import opened Walks
  import opened Numbering
  import opened FormatterProperties
  import opened Script

  // ------------------------------------------------------------ one comment

  /** The children `extract_comments` drops when they are there. */
  predicate Extra(name: string)
  {
    name == "author_url" || name == "author_ip" || name == "status"
  }

  /** A child called `name` is there and holds a string. */
  predicate HasString(fields: seq<Field>, name: string)
  {
    StringOf(fields, name).Success? && StringOf(fields, name).value.Some?
  }

  /** `if node.<name>: node.<name>.decompose()` takes one child of that name
      when there is one, and changes nothing else. */
  lemma RemoveIfPresentSpec(fields: seq<Field>, name: string, other: string)
    ensures Count(RemoveIfPresent(fields, name), other)
      == Count(fields, other) - (if other == name && HasField(fields, name) then 1 else 0)
    ensures other != name ==> StringOf(RemoveIfPresent(fields, name), other) == StringOf(fields, other)
  {
    if HasField(fields, name) {
      RemoveFirstCount(fields, name, other);
      if other != name {
        RemoveFirstOther(fields, name, other);
      }
    }
  }

  /** The three removals of `extract_comments` take one child of each extra
      name the comment has, and leave every other child's string. */
  lemma DropCommentExtrasSpec(fields: seq<Field>, other: string)
    ensures Count(DropCommentExtras(fields), other)
      == Count(fields, other) - (if Extra(other) && HasField(fields, other) then 1 else 0)
    ensures !Extra(other) ==> StringOf(DropCommentExtras(fields), other) == StringOf(fields, other)
  {
    var f1 := RemoveIfPresent(fields, "author_url");
    var f2 := RemoveIfPresent(f1, "author_ip");
    RemoveIfPresentSpec(fields, "author_url", other);
    RemoveIfPresentSpec(f1, "author_ip", other);
    RemoveIfPresentSpec(f2, "status", other);
    RemoveIfPresentSpec(fields, "author_url", "author_ip");
    RemoveIfPresentSpec(fields, "author_url", "status");
    RemoveIfPresentSpec(f1, "author_ip", "status");
    HasFieldCount(fields, other);
    HasFieldCount(f1, other);
    HasFieldCount(f2, other);
  }

  /** What `extract_comments` does to one comment: it needs a `content`
      child holding a string, whose sanitized form replaces it; one child of
      each extra name goes if there is one and every other child stays with
      its string; the three stamps are the ones given. */
  lemma ScriptCommentSpec(sanitize: string -> string, fields: seq<Field>, postId: int, id: int, parent: Option<int>)
    ensures var r := ScriptComment(sanitize, fields, postId, id, parent);
      (r.Success? <==> HasString(fields, "content")) &&
      (!HasField(fields, "content") ==> r == Failure(MissingChild("content"))) &&
      (HasField(fields, "content") && !HasString(fields, "content") ==> r == Failure(NoString("content"))) &&
      (r.Success? ==>
         r.value.postId == postId && r.value.commentId == id && r.value.parentId == parent &&
         StringOf(r.value.fields, "content") == Success(Some(sanitize(StringOf(fields, "content").value.value))) &&
         (forall name :: Count(r.value.fields, name)
            == Count(fields, name) - (if Extra(name) && HasField(fields, name) then 1 else 0)) &&
         forall name :: name != "content" && !Extra(name) ==>
           StringOf(r.value.fields, name) == StringOf(fields, name))
  {
    var kept := DropCommentExtras(fields);
    DropCommentExtrasSpec(fields, "content");
    if HasString(fields, "content") {
      var text := sanitize(StringOf(fields, "content").value.value);
      var cleaned := SetString(kept, "content", text).value;
      forall name
        ensures Count(cleaned, name) == Count(fields, name) - (if Extra(name) && HasField(fields, name) then 1 else 0)
      {
        SetStringKeeps(kept, "content", text, name);
        DropCommentExtrasSpec(fields, name);
      }
      SetStringKeeps(kept, "content", text, "content");
      forall name | name != "content" && !Extra(name)
        ensures StringOf(cleaned, name) == StringOf(fields, name)
      {
        SetStringOther(kept, "content", text, name);
        DropCommentExtrasSpec(fields, name);
      }
    }
  }

  // --------------------------------------------------------- comment trees

  /** Every child of the container is a comment with a `content` string,
      and so are its replies, all the way down. */
  ghost predicate ScriptReady(g: seq<Node>)
  {
    forall i :: 0 <= i < |g| ==> g[i].Comment? && HasString(g[i].fields, "content") && ScriptReady(g[i].replies)
  }

  lemma ScriptReadySplit(g: seq<Node>)
    requires g != []
    ensures ScriptReady(g) <==>
      (g[0].Comment? && HasString(g[0].fields, "content") && ScriptReady(g[0].replies)) && ScriptReady(g[1..])
  {
    if g[0].Comment? && HasString(g[0].fields, "content") && ScriptReady(g[0].replies) && ScriptReady(g[1..]) {
      forall i | 0 < i < |g|
        ensures g[i].Comment? && HasString(g[i].fields, "content") && ScriptReady(g[i].replies)
      {
        assert g[i] == g[1..][i - 1];
      }
    }
    if ScriptReady(g) {
      forall i | 0 <= i < |g[1..]|
        ensures g[1..][i].Comment? && HasString(g[1..][i].fields, "content") && ScriptReady(g[1..][i].replies)
      {
        assert g[1..][i] == g[i + 1];
      }
    }
  }

  /** `extract_comments` goes through a container exactly when every node
      under it is a comment with a `content` string, whatever the counter. */
  lemma {:induction false} ExtractGroupSucceeds(sanitize: string -> string, g: seq<Node>, postId: int, underComment: bool, counter: int)
    ensures ExtractGroup(sanitize, g, postId, underComment, counter).Success? <==> ScriptReady(g)
    decreases g, 1
  {
    if g != [] {
      ScriptReadySplit(g);
      ExtractNodeSucceeds(sanitize, g[0], postId, underComment, counter);
      var first := ExtractNode(sanitize, g[0], postId, underComment, counter);
      if first.Success? {
        ExtractGroupSucceeds(sanitize, g[1..], postId, underComment, first.value.next);
      }
    }
  }

  lemma {:induction false} ExtractNodeSucceeds(sanitize: string -> string, n: Node, postId: int, underComment: bool, counter: int)
    ensures ExtractNode(sanitize, n, postId, underComment, counter).Success?
      <==> n.Comment? && HasString(n.fields, "content") && ScriptReady(n.replies)
    decreases n, 0
  {
    if n.Comment? {
      ScriptCommentSpec(sanitize, n.fields, postId, counter + 1, if underComment then Some(counter) else None);
      ExtractGroupSucceeds(sanitize, n.replies, postId, true, counter + 1);
    }
  }

  /** A container that is ready holds no text node, at any depth. */
  lemma {:induction false} ReadyElementsOnly(g: seq<Node>)
    requires ScriptReady(g)
    ensures ElementsOnly(g)
    decreases g
  {
    forall i | 0 <= i < |g|
      ensures g[i].Comment? && ElementsOnly(g[i].replies)
    {
      ReadyElementsOnly(g[i].replies);
    }
  }

  /** A text node anywhere under a container, such as the whitespace
      between two comments, stops the script. */
  lemma TextNodeStops(sanitize: string -> string, g: seq<Node>, postId: int, underComment: bool, counter: int)
    requires !ElementsOnly(g)
    ensures ExtractGroup(sanitize, g, postId, underComment, counter).Failure?
  {
    ExtractGroupSucceeds(sanitize, g, postId, underComment, counter);
    if ScriptReady(g) {
      ReadyElementsOnly(g);
    }
  }

  /** The ids `extract_comments` stamps, walking a container from comment
      counter `counter`: every comment under it is emitted with the item id,
      comment ids run on from the counter, and a stamped `parent_id` is
      always the comment id just before the comment's own, which every
      comment in a `replies` container gets. */
  ghost predicate StampedAsWritten(out: seq<Flat>, postId: int, counter: int, underComment: bool)
  {
    forall k :: 0 <= k < |out| ==>
      out[k].postId == postId && out[k].commentId == counter + 1 + k &&
      (out[k].parentId.None? || out[k].parentId == Some(out[k].commentId - 1)) &&
      (underComment ==> out[k].parentId.Some?)
  }

  /** Stamps of a comment followed by those of the comments after it. */
  lemma StampedAsWrittenJoin(a: seq<Flat>, b: seq<Flat>, postId: int, counter: int, underComment: bool)
    requires StampedAsWritten(a, postId, counter, underComment)
    requires StampedAsWritten(b, postId, counter + |a|, underComment)
    ensures StampedAsWritten(a + b, postId, counter, underComment)
  {
    forall k | 0 <= k < |a + b|
      ensures (a + b)[k].postId == postId && (a + b)[k].commentId == counter + 1 + k &&
        ((a + b)[k].parentId.None? || (a + b)[k].parentId == Some((a + b)[k].commentId - 1)) &&
        (underComment ==> (a + b)[k].parentId.Some?)
    {
      if k >= |a| {
        assert (a + b)[k] == b[k - |a|];
      } else {
        assert (a + b)[k] == a[k];
      }
    }
  }

  /** A walk from comment counter `counter` that emitted `count` comments,
      stamped as `extract_comments` writes them, and moved the counter on
      by `count`. */
  ghost predicate StampedWalk(w: Walk, count: nat, postId: int, counter: int, underComment: bool)
  {
    |w.out| == count && w.next == counter + count && StampedAsWritten(w.out, postId, counter, underComment)
  }

  /** The walk of one child followed by the walk of the children after it. */
  lemma StampedWalkJoin(first: Walk, rest: Walk, m: nat, n: nat, postId: int, counter: int, underComment: bool)
    requires StampedWalk(first, m, postId, counter, underComment)
    requires StampedWalk(rest, n, postId, first.next, underComment)
    ensures StampedWalk(Walk(first.out + rest.out, rest.next), m + n, postId, counter, underComment)
  {
    StampedAsWrittenJoin(first.out, rest.out, postId, counter, underComment);
  }

  /** `extract_comments` on a container: every comment under it is emitted
      and stamped as written. */
  lemma {:induction false} ExtractGroupStamps(sanitize: string -> string, g: seq<Node>, postId: int, underComment: bool, counter: int)
    requires ExtractGroup(sanitize, g, postId, underComment, counter).Success?
    ensures StampedWalk(ExtractGroup(sanitize, g, postId, underComment, counter).value, CountGroup(g), postId, counter, underComment)
    decreases g, 1
  {
    if g != [] {
      var node := ExtractNode(sanitize, g[0], postId, underComment, counter);
      assert node.Success?;
      var first := node.value;
      ExtractNodeStamps(sanitize, g[0], postId, underComment, counter);
      var rest := ExtractGroup(sanitize, g[1..], postId, underComment, first.next);
      assert ExtractGroup(sanitize, g, postId, underComment, counter) == Resume(first.out, rest);
      assert rest.Success?;
      ExtractGroupStamps(sanitize, g[1..], postId, underComment, first.next);
      assert CountGroup(g) == CountNode(g[0]) + CountGroup(g[1..]);
      StampedWalkJoin(first, rest.value, CountNode(g[0]), CountGroup(g[1..]), postId, counter, underComment);
    }
  }

  /** One comment child: it is emitted with the next id, stamped with the
      counter as its parent in a `replies` container and with none at the
      top, and then its replies. */
  lemma {:induction false} ExtractNodeStamps(sanitize: string -> string, n: Node, postId: int, underComment: bool, counter: int)
    requires ExtractNode(sanitize, n, postId, underComment, counter).Success?
    ensures var w := ExtractNode(sanitize, n, postId, underComment, counter).value;
      StampedWalk(w, CountNode(n), postId, counter, underComment) &&
      CountNode(n) > 0 && w.out[0].parentId == (if underComment then Some(counter) else None)
    decreases n, 0
  {
    assert n.Comment?;
    var id := counter + 1;
    var parent := if underComment then Some(counter) else None;
    var flat := ScriptComment(sanitize, n.fields, postId, id, parent).value;
    var sub := ExtractGroup(sanitize, n.replies, postId, true, id);
    assert ExtractNode(sanitize, n, postId, underComment, counter) == Resume([flat], sub);
    ExtractGroupStamps(sanitize, n.replies, postId, true, id);
    assert CountNode(n) == 1 + CountGroup(n.replies);
    StampedWalkCons(flat, sub.value, CountGroup(n.replies), postId, counter, underComment);
  }

  /** A comment stamped with the next id, and with the counter as its parent
      under a comment, in front of the walk of its replies. */
  lemma StampedWalkCons(flat: Flat, sub: Walk, n: nat, postId: int, counter: int, underComment: bool)
    requires flat.postId == postId && flat.commentId == counter + 1
    requires flat.parentId == (if underComment then Some(counter) else None)
    requires StampedWalk(sub, n, postId, counter + 1, true)
    ensures StampedWalk(Walk([flat] + sub.out, sub.next), 1 + n, postId, counter, underComment)
    ensures ([flat] + sub.out)[0].parentId == flat.parentId
  {
    assert StampedAsWritten([flat], postId, counter, underComment);
    assert StampedAsWritten(sub.out, postId, counter + 1, underComment);
    StampedAsWrittenJoin([flat], sub.out, postId, counter, underComment);
  }

  // ------------------------------------------- the script's walk as a listing

  /** `extract_comments`' handling of one comment as an emitter for the
      walk: a comment handed a parent, whichever it is, gets the id just
      before its own as its `parent_id`. */
  function ScriptEmitter(sanitize: string -> string, postId: int): Emit
  {
    (fields, id, parent: Option<int>) =>
      ScriptComment(sanitize, fields, postId, id, if parent.Some? then Some(id - 1) else None)
  }

  /** A container of comments only holds a comment exactly when it is not
      empty. */
  lemma ElementsOnlyCount(g: seq<Node>)
    requires ElementsOnly(g)
    ensures CountGroup(g) == 0 <==> g == []
  {
    if g != [] {
      assert g[0].Comment?;
    }
  }

  /** On a tree of comments only, one child of `extract_comments` is the
      walk of that child with the script's emitter. */
  lemma {:induction false} ExtractNodeIsWalk(sanitize: string -> string, n: Node, postId: int, parent: Option<int>, counter: int)
    requires n.Comment? && ElementsOnly(n.replies)
    ensures ExtractNode(sanitize, n, postId, parent.Some?, counter)
      == WalkNode(ScriptEmitter(sanitize, postId), n, parent, counter)
    decreases n, 0
  {
    var id := counter + 1;
    assert ScriptEmitter(sanitize, postId)(n.fields, id, parent)
      == ScriptComment(sanitize, n.fields, postId, id, if parent.Some? then Some(counter) else None);
    ExtractGroupIsWalk(sanitize, n.replies, postId, Some(id), id);
    ElementsOnlyCount(n.replies);
    var c := ScriptComment(sanitize, n.fields, postId, id, if parent.Some? then Some(counter) else None);
    if c.Success? && n.replies == [] {
      assert ExtractGroup(sanitize, n.replies, postId, true, id) == Success(Walk([], id));
      assert [c.value] + [] == [c.value];
    }
  }

  /** On a tree of comments only, `extract_comments` on a container is the
      walk of the container with the script's emitter. */
  lemma {:induction false} ExtractGroupIsWalk(sanitize: string -> string, g: seq<Node>, postId: int, parent: Option<int>, counter: int)
    requires ElementsOnly(g)
    ensures ExtractGroup(sanitize, g, postId, parent.Some?, counter)
      == WalkGroup(ScriptEmitter(sanitize, postId), g, parent, counter)
    decreases g, 1
  {
    if g != [] {
      assert g[0].Comment? && ElementsOnly(g[0].replies);
      forall i | 0 <= i < |g[1..]|
        ensures g[1..][i].Comment? && ElementsOnly(g[1..][i].replies)
      {
        assert g[1..][i] == g[i + 1];
      }
      ExtractNodeIsWalk(sanitize, g[0], postId, parent, counter);
      var node := ExtractNode(sanitize, g[0], postId, parent.Some?, counter);
      if node.Success? {
        ExtractGroupIsWalk(sanitize, g[1..], postId, parent, node.value.next);
      }
    }
  }

  /** The k-th comment of a content item's listing as `extract_comments`
      emits it when the item's comments are numbered from `c0`: its own
      fields, id `c0 + 1 + k` and, for a reply, `parent_id` `c0 + k`. */
  function ScriptAt(sanitize: string -> string, postId: int, l: seq<Visit>, c0: int, k: nat): Result<Flat>
    requires k < |l|
  {
    ScriptComment(sanitize, l[k].fields, postId, c0 + 1 + k, if l[k].parent.Some? then Some(c0 + k) else None)
  }

  /** The listed comment as the walk with the script's emitter emits it. */
  lemma ScriptAtIsStampAt(sanitize: string -> string, postId: int, l: seq<Visit>, c0: int, k: nat)
    requires k < |l|
    ensures ScriptAt(sanitize, postId, l, c0, k) == StampAt(ScriptEmitter(sanitize, postId), l, c0, 0, k)
  {
    ScriptVisitIs(sanitize, postId, l[k], c0 + 1 + k, c0);
  }

  /** A listed comment with id `id`, emitted by the script's emitter with
      the `parent_id` the walk hands it. */
  lemma ScriptVisitIs(sanitize: string -> string, postId: int, v: Visit, id: int, c0: int)
    ensures ScriptEmitter(sanitize, postId)(v.fields, id, ParentStamp(v.parent, c0))
      == ScriptComment(sanitize, v.fields, postId, id, if v.parent.Some? then Some(id - 1) else None)
  {
    var previous := if v.parent.Some? then Some(id - 1) else None;
    assert (if ParentStamp(v.parent, c0).Some? then Some(id - 1) else None) == previous;
  }

  /** The comments `extract_comments` takes out of a content item are its
      pre-order listing: the k-th listed comment is emitted k-th with id
      `c0 + 1 + k`. */
  lemma ExtractIsPreOrder(sanitize: string -> string, g: seq<Node>, postId: int, c0: int)
    requires ExtractGroup(sanitize, g, postId, false, c0).Success?
    ensures var w := ExtractGroup(sanitize, g, postId, false, c0).value;
      var l := PreOrder(g);
      |w.out| == |l| == CountGroup(g) && w.next == c0 + CountGroup(g) &&
      forall k :: 0 <= k < |l| ==>
        ScriptAt(sanitize, postId, l, c0, k).Success? && w.out[k] == ScriptAt(sanitize, postId, l, c0, k).value
  {
    if !ElementsOnly(g) {
      TextNodeStops(sanitize, g, postId, false, c0);
    }
    ExtractGroupIsWalk(sanitize, g, postId, None, c0);
    WalkIsPreOrder(ScriptEmitter(sanitize, postId), g, c0);
    forall k | 0 <= k < |PreOrder(g)|
      ensures ScriptAt(sanitize, postId, PreOrder(g), c0, k) == StampAt(ScriptEmitter(sanitize, postId), PreOrder(g), c0, 0, k)
    {
      ScriptAtIsStampAt(sanitize, postId, PreOrder(g), c0, k);
    }
  }

  /** The stamps `extract_comments` puts on a content item's comments: all
      carry the item's id, comment ids run on from `c0` in pre-order, a
      comment of the item itself has no `parent_id`, and a reply, and only a
      reply, has the id just before its own, `c0 + k` for the k-th. */
  lemma ExtractParents(sanitize: string -> string, g: seq<Node>, postId: int, c0: int)
    requires ExtractGroup(sanitize, g, postId, false, c0).Success?
    ensures var out := ExtractGroup(sanitize, g, postId, false, c0).value.out;
      var l := PreOrder(g);
      |out| == |l| &&
      forall k :: 0 <= k < |out| ==>
        out[k].postId == postId && out[k].commentId == c0 + 1 + k &&
        out[k].parentId == (if l[k].parent.Some? then Some(c0 + k) else None)
  {
    ExtractIsPreOrder(sanitize, g, postId, c0);
    var l := PreOrder(g);
    var out := ExtractGroup(sanitize, g, postId, false, c0).value.out;
    forall k | 0 <= k < |out|
      ensures out[k].postId == postId && out[k].commentId == c0 + 1 + k
      ensures out[k].parentId == (if l[k].parent.Some? then Some(c0 + k) else None)
    {
      assert out[k] == ScriptAt(sanitize, postId, l, c0, k).value;
    }
  }

  // ------------------------------------------------------ one content item

  /** The children `transform` removes: the four source children and `author`. */
  predicate Stripped(name: string)
  {
    SourceOnly(name) || name == "author"
  }

  /** The five removals go through exactly when the five children are there;
      they take one child of each of those names, keep the number of every
      other name, and leave the string of every other child. */
  lemma StripItemSpec(fields: seq<Field>, other: string)
    ensures var r := StripItem(fields);
      (r.Success? <==> HasSourceFields(fields) && HasField(fields, "author")) &&
      (r.Success? ==>
         Count(r.value, other) == Count(fields, other) - (if Stripped(other) then 1 else 0) &&
         (!Stripped(other) ==> StringOf(r.value, other) == StringOf(fields, other)))
  {
    StripSourceSpec(fields, other);
    StripSourceSpec(fields, "author");
    HasFieldCount(fields, "author");
    var s := StripSource(fields);
    if s.Success? {
      HasFieldCount(s.value, "author");
      if HasField(s.value, "author") {
        RemoveFirstCount(s.value, "author", other);
        if other != "author" {
          RemoveFirstOther(s.value, "author", other);
        }
      }
    }
  }

  /** The script's `clean_html` goes through exactly when there is a
      `content` child holding a string; it then holds the sanitized string,
      and every other child and the number of every name stay. */
  lemma ScriptCleanHtmlSpec(sanitize: string -> string, fields: seq<Field>, other: string)
    ensures var r := ScriptCleanHtml(sanitize, fields);
      (r.Success? <==> HasString(fields, "content")) &&
      (!HasField(fields, "content") ==> r == Failure(MissingChild("content"))) &&
      (HasField(fields, "content") && !HasString(fields, "content") ==> r == Failure(NoString("content"))) &&
      (r.Success? ==>
         StringOf(r.value, "content") == Success(Some(sanitize(StringOf(fields, "content").value.value))) &&
         Count(r.value, other) == Count(fields, other) &&
         (other != "content" ==> StringOf(r.value, other) == StringOf(fields, other)))
  {
    if HasString(fields, "content") {
      var text := sanitize(StringOf(fields, "content").value.value);
      SetStringKeeps(fields, "content", text, other);
      if other != "content" {
        SetStringOther(fields, "content", text, other);
      }
    }
  }

  /** `transform` can handle the item: the five children it removes, a
      `content` string, and a comment tree the script can walk. */
  ghost predicate ScriptConvertible(item: Item)
  {
    HasSourceFields(item.fields) && HasField(item.fields, "author") && HasString(item.fields, "content") &&
    (item.comments.Some? ==> ScriptReady(item.comments.value))
  }

  /** `transform` goes through exactly when it can handle the item, whatever
      the counters. */
  lemma TransformSucceeds(sanitize: string -> string, item: Item, contentId: int, commentId: int)
    ensures Transform(sanitize, item, contentId, commentId).Success? <==> ScriptConvertible(item)
  {
    StripItemSpec(item.fields, "content");
    var s := StripItem(item.fields);
    if s.Success? {
      ScriptCleanHtmlSpec(sanitize, s.value, "content");
    }
    if item.comments.Some? {
      ExtractGroupSucceeds(sanitize, item.comments.value, contentId, false, commentId);
    }
  }

  /** The item `transform` produces, step by step. */
  lemma TransformItemIs(sanitize: string -> string, item: Item, contentId: int, commentId: int)
    requires Transform(sanitize, item, contentId, commentId).Success?
    ensures StripItem(item.fields).Success? && ScriptCleanHtml(sanitize, StripItem(item.fields).value).Success?
    ensures Transform(sanitize, item, contentId, commentId).value.item
      == Item(ScriptCleanHtml(sanitize, StripItem(item.fields).value).value + [ImportIdField(contentId)], None)
  {
    if item.comments.Some? {
      var w := ExtractGroup(sanitize, item.comments.value, contentId, false, commentId);
      assert w.Success?;
    }
  }

  /** The item `transform` leaves: no `comments` container, `import_id`
      holding the content id as its last child, and the sanitized body. */
  lemma TransformBody(sanitize: string -> string, item: Item, contentId: int, commentId: int)
    requires Transform(sanitize, item, contentId, commentId).Success?
    ensures var r := Transform(sanitize, item, contentId, commentId).value.item;
      r.comments.None? &&
      |r.fields| > 0 && r.fields[|r.fields| - 1] == ImportIdField(contentId) &&
      HasString(item.fields, "content") &&
      StringOf(r.fields, "content") == Success(Some(sanitize(StringOf(item.fields, "content").value.value)))
  {
    StripItemSpec(item.fields, "content");
    var s := StripItem(item.fields).value;
    ScriptCleanHtmlSpec(sanitize, s, "content");
    var c := ScriptCleanHtml(sanitize, s).value;
    var imp := ImportIdField(contentId);
    TransformItemIs(sanitize, item, contentId, commentId);
    AppendFieldOther(c, imp, "content");
  }

  /** What `transform` leaves of the other children, for any name `other`:
      one child of each removed name fewer, one `import_id` more, and every
      child that is neither removed, nor the body, nor `import_id` keeps its
      string. */
  lemma TransformOthers(sanitize: string -> string, item: Item, contentId: int, commentId: int, other: string)
    requires Transform(sanitize, item, contentId, commentId).Success?
    ensures var r := Transform(sanitize, item, contentId, commentId).value.item.fields;
      Count(r, other) == Count(item.fields, other)
        - (if Stripped(other) then 1 else 0) + (if other == "import_id" then 1 else 0) &&
      (!Stripped(other) && other != "content" && other != "import_id" ==>
         StringOf(r, other) == StringOf(item.fields, other))
  {
    StripItemSpec(item.fields, other);
    var s := StripItem(item.fields).value;
    ScriptCleanHtmlSpec(sanitize, s, other);
    var c := ScriptCleanHtml(sanitize, s).value;
    var imp := ImportIdField(contentId);
    TransformItemIs(sanitize, item, contentId, commentId);
    CountAppend(c, [imp], other);
    assert [imp][1..] == [];
    if other != "import_id" {
      AppendFieldOther(c, imp, other);
    }
  }

  /** `transform` emits every comment under the item, stamped with the item
      id and comment ids running on from `commentId`. */
  lemma TransformComments(sanitize: string -> string, item: Item, contentId: int, commentId: int)
    requires Transform(sanitize, item, contentId, commentId).Success?
    ensures var w := Transform(sanitize, item, contentId, commentId).value.walk;
      |w.out| == CommentCount(item) && w.next == commentId + CommentCount(item) &&
      StampedAsWritten(w.out, contentId, commentId, false)
  {
    if item.comments.Some? {
      ExtractGroupStamps(sanitize, item.comments.value, contentId, false, commentId);
    }
  }

  // ------------------------------------------------------ the items loops

  /** `transform` as the step of the items loop. */
  function ScriptStep(sanitize: string -> string): Step
  {
    (item, contentId, commentId) => Transform(sanitize, item, contentId, commentId)
  }

  /** The script's loops over the posts and the pages are the items loop
      with `transform` as its step. */
  lemma {:induction false} TransformItemsIsLoop(sanitize: string -> string, items: seq<Item>, contentId: int, commentId: int)
    ensures TransformItems(sanitize, items, contentId, commentId) == Loop(ScriptStep(sanitize), items, contentId, commentId)
    decreases |items|
  {
    if items != [] {
      var r := Transform(sanitize, items[0], contentId + 1, commentId);
      assert ScriptStep(sanitize)(items[0], contentId + 1, commentId) == r;
      if r.Success? {
        TransformItemsIsLoop(sanitize, items[1..], contentId + 1, r.value.walk.next);
      }
    }
  }

  /** `transform` numbers an item and its comments in turn. */
  lemma ScriptStepNumbersInTurn(sanitize: string -> string)
    ensures NumbersInTurn(ScriptStep(sanitize))
  {
    forall item, contentId, commentId | ScriptStep(sanitize)(item, contentId, commentId).Success?
      ensures HandledInTurn(item, contentId, commentId, ScriptStep(sanitize)(item, contentId, commentId).value)
    {
      TransformBody(sanitize, item, contentId, commentId);
      TransformComments(sanitize, item, contentId, commentId);
    }
  }

  /** Every item of the run can be handled by `transform`. */
  ghost predicate ScriptAllConvertible(items: seq<Item>)
  {
    forall k :: 0 <= k < |items| ==> ScriptConvertible(items[k])
  }

  lemma ScriptAllConvertibleSplit(items: seq<Item>)
    requires items != []
    ensures ScriptAllConvertible(items) <==> ScriptConvertible(items[0]) && ScriptAllConvertible(items[1..])
  {
    if ScriptConvertible(items[0]) && ScriptAllConvertible(items[1..]) {
      forall k | 0 < k < |items|
        ensures ScriptConvertible(items[k])
      {
        assert items[k] == items[1..][k - 1];
      }
    }
  }

  /** An items loop goes through exactly when `transform` can handle every
      item. */
  lemma {:induction false} TransformItemsSucceeds(sanitize: string -> string, items: seq<Item>, contentId: int, commentId: int)
    ensures TransformItems(sanitize, items, contentId, commentId).Success? <==> ScriptAllConvertible(items)
    decreases |items|
  {
    if items != [] {
      ScriptAllConvertibleSplit(items);
      TransformSucceeds(sanitize, items[0], contentId + 1, commentId);
      var p := Transform(sanitize, items[0], contentId + 1, commentId);
      if p.Success? {
        TransformItemsSucceeds(sanitize, items[1..], contentId + 1, p.value.walk.next);
      }
    }
  }

  /** Every stamped `parent_id` is the comment id just before the comment's own. */
  ghost predicate ParentIsPrevious(out: seq<Flat>)
  {
    forall k :: 0 <= k < |out| ==> out[k].parentId.None? || out[k].parentId == Some(out[k].commentId - 1)
  }

  lemma ParentIsPreviousAppend(a: seq<Flat>, b: seq<Flat>)
    requires ParentIsPrevious(a) && ParentIsPrevious(b)
    ensures ParentIsPrevious(a + b)
  {
    forall k | 0 <= k < |a + b|
      ensures (a + b)[k].parentId.None? || (a + b)[k].parentId == Some((a + b)[k].commentId - 1)
    {
      if k >= |a| {
        assert (a + b)[k] == b[k - |a|];
      } else {
        assert (a + b)[k] == a[k];
      }
    }
  }

  /** Every `parent_id` an items loop stamps is the id just before the
      comment's own. */
  lemma {:induction false} TransformItemsParents(sanitize: string -> string, items: seq<Item>, contentId: int, commentId: int)
    requires TransformItems(sanitize, items, contentId, commentId).Success?
    ensures ParentIsPrevious(TransformItems(sanitize, items, contentId, commentId).value.out)
    decreases |items|
  {
    if items != [] {
      var p := Transform(sanitize, items[0], contentId + 1, commentId).value;
      var rest := TransformItems(sanitize, items[1..], contentId + 1, p.walk.next);
      var out := TransformItems(sanitize, items, contentId, commentId).value.out;
      assert rest.Success? && out == p.walk.out + rest.value.out;
      TransformItemsParents(sanitize, items[1..], contentId + 1, p.walk.next);
      TransformComments(sanitize, items[0], contentId + 1, commentId);
      ParentIsPreviousAppend(p.walk.out, rest.value.out);
    }
  }

  // ------------------------------------------------------ the whole script

  /** The script writes its three files exactly when both containers are
      there and `transform` can handle every post and every page; a missing
      container is found only after both loops, `pages` first. */
  lemma RunScriptSucceeds(sanitize: string -> string, doc: Document)
    ensures var posts := ItemsOf(doc, Post);
      var pages := ItemsOf(doc, Page);
      (RunScript(sanitize, doc).Success? <==>
         doc.posts.Some? && doc.pages.Some? && ScriptAllConvertible(posts) && ScriptAllConvertible(pages)) &&
      (ScriptAllConvertible(posts) && ScriptAllConvertible(pages) && doc.pages.None? ==>
         RunScript(sanitize, doc) == Failure(MissingContainer("pages"))) &&
      (ScriptAllConvertible(posts) && ScriptAllConvertible(pages) && doc.pages.Some? && doc.posts.None? ==>
         RunScript(sanitize, doc) == Failure(MissingContainer("posts")))
  {
    var posts := ItemsOf(doc, Post);
    TransformItemsSucceeds(sanitize, posts, FirstContentId, 0);
    var run1 := TransformItems(sanitize, posts, FirstContentId, 0);
    if run1.Success? {
      TransformItemsSucceeds(sanitize, ItemsOf(doc, Page), run1.value.contentId, run1.value.commentId);
    }
  }

  /** The numbering of one of the script's items loops: that of the shared
      items loop with `transform` as its step, and every stamped `parent_id`
      is the id just before. */
  lemma TransformItemsNumbering(sanitize: string -> string, items: seq<Item>, contentId: int, commentId: int)
    requires TransformItems(sanitize, items, contentId, commentId).Success?
    ensures var run := TransformItems(sanitize, items, contentId, commentId).value;
      RunNumbering(ScriptStep(sanitize), items, contentId, commentId, run) && ParentIsPrevious(run.out)
  {
    TransformItemsIsLoop(sanitize, items, contentId, commentId);
    ScriptStepNumbersInTurn(sanitize);
    LoopNumbering(ScriptStep(sanitize), items, contentId, commentId);
    TransformItemsParents(sanitize, items, contentId, commentId);
  }

  /** What the script writes is the posts loop's items, the pages loop's
      items and their comments. */
  lemma RunScriptRuns(sanitize: string -> string, doc: Document)
    requires RunScript(sanitize, doc).Success?
    ensures var w := RunScript(sanitize, doc).value;
      var run1 := TransformItems(sanitize, ItemsOf(doc, Post), FirstContentId, 0);
      run1.Success? &&
      var run2 := TransformItems(sanitize, ItemsOf(doc, Page), run1.value.contentId, run1.value.commentId);
      run2.Success? &&
      w.posts == run1.value.items && w.pages == run2.value.items && w.comments == run1.value.out + run2.value.out
  {
  }

  /** The ids the script hands out: the posts loop from content id 7 and
      comment 0, then the pages loop from where it stopped, and every
      `parent_id` is the id just before the comment's own. */
  lemma RunScriptNumbering(sanitize: string -> string, doc: Document)
    requires RunScript(sanitize, doc).Success?
    ensures var w := RunScript(sanitize, doc).value;
      TwoRuns(ScriptStep(sanitize), ItemsOf(doc, Post), ItemsOf(doc, Page), FirstContentId, w.posts, w.pages, w.comments) &&
      ParentIsPrevious(w.comments)
  {
    var posts := ItemsOf(doc, Post);
    var pages := ItemsOf(doc, Page);
    var w := RunScript(sanitize, doc).value;
    RunScriptRuns(sanitize, doc);
    var run1 := TransformItems(sanitize, posts, FirstContentId, 0).value;
    var run2 := TransformItems(sanitize, pages, run1.contentId, run1.commentId).value;
    TransformItemsIsLoop(sanitize, posts, FirstContentId, 0);
    TransformItemsIsLoop(sanitize, pages, run1.contentId, run1.commentId);
    ScriptStepNumbersInTurn(sanitize);
    LoopsNumbering(ScriptStep(sanitize), posts, pages, FirstContentId, w.posts, w.pages, w.comments);
    TransformItemsParents(sanitize, posts, FirstContentId, 0);
    TransformItemsParents(sanitize, pages, run1.contentId, run1.commentId);
    ParentIsPreviousAppend(run1.out, run2.out);
  }

  /** From index `at` on, `w` holds the comments of listing `l` as
      `extract_comments` emits them for item `postId`, with ids running on
      from `c0`. */
  ghost predicate ExtractsAt(sanitize: string -> string, w: seq<Flat>, at: int, l: seq<Visit>, postId: int, c0: int)
  {
    0 <= at && at + |l| <= |w| &&
    forall j :: 0 <= j < |l| ==>
      ScriptAt(sanitize, postId, l, c0, j).Success? && w[at + j] == ScriptAt(sanitize, postId, l, c0, j).value
  }

  /** The comments `transform` emits for an item with a `comments`
      container, when the item has content id `contentId` and its comments
      are numbered on from `commentId`: the item's pre-order listing,
      emitted in order. */
  lemma {:induction false} TransformEmits(sanitize: string -> string, item: Item, contentId: int, commentId: int)
    requires Transform(sanitize, item, contentId, commentId).Success? && item.comments.Some?
    ensures var out := Transform(sanitize, item, contentId, commentId).value.walk.out;
      var l := PreOrder(item.comments.value);
      |out| == |l| && ExtractsAt(sanitize, out, 0, l, contentId, commentId)
  {
    assert Transform(sanitize, item, contentId, commentId).value.walk
      == ExtractGroup(sanitize, item.comments.value, contentId, false, commentId).value;
    ExtractIsPreOrder(sanitize, item.comments.value, contentId, commentId);
  }

  /** Extracted comments placed as one block in a longer output keep their
      order there. */
  lemma {:induction false} ExtractsInBlock(sanitize: string -> string, w: seq<Flat>, out: seq<Flat>, s: int, l: seq<Visit>, postId: int, c0: int)
    requires BlockIn(w, out, s) && |out| == |l| && ExtractsAt(sanitize, out, 0, l, postId, c0)
    ensures ExtractsAt(sanitize, w, s, l, postId, c0)
  {
    forall j | 0 <= j < |l|
      ensures w[s + j] == ScriptAt(sanitize, postId, l, c0, j).value
    {
      assert w[s + j] == out[j] && out[0 + j] == out[j];
    }
  }

  /** In the comments file `comments` of a run over `items`, the comments
      of item `k` are one block right after the comments of the items before
      it, and, when the item has a `comments` container, are its pre-order
      listing as `extract_comments` emits it for item `postId`: ids running
      on from the comments before the block, and a reply's `parent_id` the
      id just before its own. */
  ghost predicate ScriptBlockAt(sanitize: string -> string, comments: seq<Flat>, items: seq<Item>, k: nat, postId: int)
  {
    k < |items| &&
    var s := CommentTotal(items[..k]);
    s + CommentCount(items[k]) <= |comments| &&
    (items[k].comments.Some? ==>
       var l := PreOrder(items[k].comments.value);
       CommentCount(items[k]) == |l| && ExtractsAt(sanitize, comments, s, l, postId, s))
  }

  /** When the comments `transform` emits for item `k` of a run at its own
      place sit as one block after the comments of the items before it,
      that block is the item's pre-order listing as `extract_comments`
      emits it with the item's own content id. */
  lemma {:induction false} ScriptStepBlock(sanitize: string -> string, items: seq<Item>, contentId: int, comments: seq<Flat>,
                        k: nat, postId: int)
    requires k < |items| && postId == contentId + 1 + k
    requires StepAt(ScriptStep(sanitize), items, contentId, 0, k).Success?
    requires BlockIn(comments, StepAt(ScriptStep(sanitize), items, contentId, 0, k).value.walk.out, CommentTotal(items[..k]))
    ensures ScriptBlockAt(sanitize, comments, items, k, postId)
  {
    var s := CommentTotal(items[..k]);
    var r := StepAt(ScriptStep(sanitize), items, contentId, 0, k);
    assert r == Transform(sanitize, items[k], postId, s);
    TransformComments(sanitize, items[k], postId, s);
    if items[k].comments.Some? {
      TransformEmits(sanitize, items[k], postId, s);
      ExtractsInBlock(sanitize, comments, r.value.walk.out, s, PreOrder(items[k].comments.value), postId, s);
    }
  }

  /** In the comments file the script writes, the comments of post or page
      `k` (pages counted on after the posts) are one block right after the
      comments of the items before it, and are exactly the comments
      `transform` emits for that item at its own place: content id
      `FirstContentId + 1 + k` and the comment counter where the block
      starts. */
  lemma {:induction false} RunScriptCommentBlocks(sanitize: string -> string, doc: Document, k: nat)
    requires RunScript(sanitize, doc).Success?
    requires k < |ItemsOf(doc, Post)| + |ItemsOf(doc, Page)|
    ensures var w := RunScript(sanitize, doc).value;
      var all := ItemsOf(doc, Post) + ItemsOf(doc, Page);
      var r := StepAt(ScriptStep(sanitize), all, FirstContentId, 0, k);
      r.Success? && |r.value.walk.out| == CommentCount(all[k]) &&
      BlockIn(w.comments, r.value.walk.out, CommentTotal(all[..k]))
  {
    var w := RunScript(sanitize, doc).value;
    RunScriptNumbering(sanitize, doc);
    ScriptStepNumbersInTurn(sanitize);
    TwoRunsBlock(ScriptStep(sanitize), ItemsOf(doc, Post), ItemsOf(doc, Page), FirstContentId,
      w.posts, w.pages, w.comments, k);
  }

  /** In the comments file the script writes, the comments of post or page
      `k` are one block right after the comments of the items before it,
      and are that item's pre-order listing as `extract_comments` emits it
      with the item's own content id `FirstContentId + 1 + k`. */
  lemma {:induction false} RunScriptCommentListings(sanitize: string -> string, doc: Document, k: nat, comments: seq<Flat>)
    requires RunScript(sanitize, doc).Success? && comments == RunScript(sanitize, doc).value.comments
    requires k < |ItemsOf(doc, Post)| + |ItemsOf(doc, Page)|
    ensures ScriptBlockAt(sanitize, comments, ItemsOf(doc, Post) + ItemsOf(doc, Page), k, FirstContentId + 1 + k)
  {
    RunScriptCommentBlocks(sanitize, doc, k);
    ScriptStepBlock(sanitize, ItemsOf(doc, Post) + ItemsOf(doc, Page), FirstContentId, comments, k, FirstContentId + 1 + k);
  }

  // ------------------------------------------- where the script goes wrong

  /** A comment with a body and nothing else. */
  function Bare(): seq<Field>
  {
    [Field("content", Some("x"))]
  }

  /** A comment with two replies, as the export holds them. */
  function TwoReplies(): seq<Node>
  {
    [Comment(Bare(), [Comment(Bare(), []), Comment(Bare(), [])])]
  }

  /** The script on `TwoReplies`: ids 1, 2, 3, and the second reply gets
      `parent_id` 2, the id of the first reply. */
  lemma TwoRepliesScript(sanitize: string -> string)
    ensures var script := ExtractGroup(sanitize, TwoReplies(), 8, false, 0);
      script.Success? && |script.value.out| == 3 &&
      script.value.out[1].commentId == 2 && script.value.out[1].parentId == Some(1) &&
      script.value.out[2].commentId == 3 && script.value.out[2].parentId == Some(2)
  {
    var c := Bare();
    var reply := Comment(c, []);
    var g := TwoReplies();
    assert HasString(c, "content");
    var s1 := ScriptComment(sanitize, c, 8, 1, None);
    var s2 := ScriptComment(sanitize, c, 8, 2, Some(1));
    var s3 := ScriptComment(sanitize, c, 8, 3, Some(2));
    ScriptCommentSpec(sanitize, c, 8, 1, None);
    ScriptCommentSpec(sanitize, c, 8, 2, Some(1));
    ScriptCommentSpec(sanitize, c, 8, 3, Some(2));
    assert [reply][1..] == [] && g[1..] == [] && [reply, reply][0] == reply && [reply, reply][1..] == [reply];
    assert [s3.value] + [] == [s3.value] && [s2.value] + [] == [s2.value];
    assert [s2.value] + [s3.value] == [s2.value, s3.value];
    assert [s1.value] + [s2.value, s3.value] == [s1.value, s2.value, s3.value];
    assert [s1.value, s2.value, s3.value] + [] == [s1.value, s2.value, s3.value];
    assert ExtractGroup(sanitize, [reply], 8, true, 2) == Success(Walk([s3.value], 3));
    assert ExtractGroup(sanitize, [reply, reply], 8, true, 1) == Success(Walk([s2.value, s3.value], 3));
    assert ExtractNode(sanitize, g[0], 8, false, 0) == Success(Walk([s1.value, s2.value, s3.value], 3));
  }

  /** `ExportFormatter` on `TwoReplies`: ids 1, 2, 3, and both replies get
      `parent_id` 1, the id of the comment they answer. */
  lemma TwoRepliesFormatter(sanitize: string -> string)
    ensures var formatter := FlattenGroup(sanitize, TwoReplies(), 8, None, 0);
      formatter.Success? && |formatter.value.out| == 3 &&
      formatter.value.out[1].commentId == 2 && formatter.value.out[1].parentId == Some(1) &&
      formatter.value.out[2].commentId == 3 && formatter.value.out[2].parentId == Some(1)
  {
    var c := Bare();
    var reply := Comment(c, []);
    var g := TwoReplies();
    var f1 := ProcessComment(sanitize, c, 8, 1, None);
    var f2 := ProcessComment(sanitize, c, 8, 2, Some(1));
    var f3 := ProcessComment(sanitize, c, 8, 3, Some(1));
    ProcessCommentSpec(sanitize, c, 8, 1, None);
    ProcessCommentSpec(sanitize, c, 8, 2, Some(1));
    ProcessCommentSpec(sanitize, c, 8, 3, Some(1));
    assert [reply][1..] == [] && g[1..] == [] && [reply, reply][0] == reply && [reply, reply][1..] == [reply];
    assert CountGroup([reply]) == 1 && CountGroup([reply, reply]) == 2;
    assert [f3.value] + [] == [f3.value] && [f2.value] + [f3.value] == [f2.value, f3.value];
    assert [f1.value] + [f2.value, f3.value] == [f1.value, f2.value, f3.value];
    assert [f1.value, f2.value, f3.value] + [] == [f1.value, f2.value, f3.value];
    assert FlattenGroup(sanitize, [reply], 8, Some(1), 2) == Success(Walk([f3.value], 3));
    assert FlattenGroup(sanitize, [reply, reply], 8, Some(1), 1) == Success(Walk([f2.value, f3.value], 3));
    assert FlattenNode(sanitize, g[0], 8, None, 0) == Success(Walk([f1.value, f2.value, f3.value], 3));
  }

  /** On a comment with two replies, the script stamps the second reply with
      the id of the first reply as its `parent_id`, where `ExportFormatter`
      stamps the id of the comment both replies answer. */
  lemma SecondReplyParent(sanitize: string -> string)
    ensures var script := ExtractGroup(sanitize, TwoReplies(), 8, false, 0);
      var formatter := FlattenGroup(sanitize, TwoReplies(), 8, None, 0);
      script.Success? && formatter.Success? &&
      |script.value.out| == |formatter.value.out| == 3 &&
      script.value.out[2].commentId == formatter.value.out[2].commentId == 3 &&
      script.value.out[2].parentId == Some(2) && formatter.value.out[2].parentId == Some(1) &&
      script.value.out[1].commentId == 2
  {
    TwoRepliesScript(sanitize);
    TwoRepliesFormatter(sanitize);
  }

  /** Whitespace before a comment, as a pretty-printed export has: the script
      stops on it, `ExportFormatter` skips it and moves the comment. */
  lemma WhitespaceChild(sanitize: string -> string)
    ensures var g := [Text("\n"), Comment(Bare(), [])];
      ExtractGroup(sanitize, g, 8, false, 0) == Failure(NotAnElement) &&
      FlattenGroup(sanitize, g, 8, None, 0).Success? &&
      |FlattenGroup(sanitize, g, 8, None, 0).value.out| == 1
  {
    var c := Bare();
    var g := [Text("\n"), Comment(c, [])];
    ProcessCommentSpec(sanitize, c, 8, 1, None);
    var f1 := ProcessComment(sanitize, c, 8, 1, None);
    assert FlattenNode(sanitize, Comment(c, []), 8, None, 0) == Success(Walk([f1.value], 1));
    assert [f1.value] + [] == [f1.value];
    assert g[1..] == [Comment(c, [])] && g[1..][1..] == [];
    assert FlattenGroup(sanitize, g[1..], 8, None, 0) == Success(Walk([f1.value], 1));
  }
}
