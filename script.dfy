/** The first version of the converter (main.py): a script whose
    module-level variables hold the parsed export, the comments document and
    the two counters. It numbers content items from 8, strips one more child
    from items and two more from comments than `ExportFormatter` does, and
    stamps replies differently.

    The functions below say what each step computes; the class carries the
    script's module-level state and its methods are proved to compute those
    functions. */
module Script {
  import opened Xml
  import opened Formatter

  /** `content_id = 7`: the value of the content counter before the first post. */
  const FirstContentId := 7

  /** The script's `clean_html`: the `content` child's string is replaced by
      its sanitized form. The child must be there, and its string too: the
      sanitizer is handed the string itself, not `str` of it. */
  function ScriptCleanHtml(sanitize: string -> string, fields: seq<Field>): Result<seq<Field>>
  {
    var text :- StringOf(fields, "content");
    if text.None? then Failure(NoString("content"))
    else SetString(fields, "content", sanitize(text.value))
  }

  /** The children `extract_comments` drops from a comment when it has them. */
  function DropCommentExtras(fields: seq<Field>): seq<Field>
  {
    RemoveIfPresent(RemoveIfPresent(RemoveIfPresent(fields, "author_url"), "author_ip"), "status")
  }

  /** One comment as `extract_comments` emits it: extras dropped, body
      sanitized, and the stamps given. */
  function ScriptComment(sanitize: string -> string, fields: seq<Field>, postId: int, id: int, parent: Option<int>): Result<Flat>
  {
    var cleaned :- ScriptCleanHtml(sanitize, DropCommentExtras(fields));
    Success(Flat(cleaned, postId, id, parent))
  }

  /** One child in the loop of `extract_comments`, with the comment counter
      at `counter`. A text node has none of the children asked for and stops
      the script. A comment takes the next id; when it sits in a comment's
      `replies` it is stamped with the counter as it was before that id was
      taken, whichever comment that id belonged to. Its replies are then
      walked. */
  function ExtractNode(sanitize: string -> string, n: Node, postId: int, underComment: bool, counter: int): Result<Walk>
  {
    match n
    case Text(_) => Failure(NotAnElement)
    case Comment(fields, replies) =>
      var id := counter + 1;
      match ScriptComment(sanitize, fields, postId, id, if underComment then Some(counter) else None)
      case Failure(e) => Failure(e)
      case Success(flat) => Resume([flat], ExtractGroup(sanitize, replies, postId, true, id))
  }

  /** `extract_comments` on a container: its children in order.
      `underComment` tells whether the container is the `replies` of a comment. */
  function ExtractGroup(sanitize: string -> string, g: seq<Node>, postId: int, underComment: bool, counter: int): Result<Walk>
  {
    if g == [] then Success(Walk([], counter))
    else
      match ExtractNode(sanitize, g[0], postId, underComment, counter)
      case Failure(e) => Failure(e)
      case Success(first) => Resume(first.out, ExtractGroup(sanitize, g[1..], postId, underComment, first.next))
  }

  /** The five removals at the start of `transform`: the four source
      children, then `author`, in that order, each of them required. */
  function StripItem(fields: seq<Field>): Result<seq<Field>>
  {
    var stripped :- StripSource(fields);
    RemoveFirst(stripped, "author")
  }

  /** `transform` with content counter `contentId`: the five removals, the
      body sanitized, `import_id` appended, and any `comments` container
      taken out and walked. */
  function Transform(sanitize: string -> string, item: Item, contentId: int, commentId: int): Result<Processed>
  {
    var f5 :- StripItem(item.fields);
    var cleaned :- ScriptCleanHtml(sanitize, f5);
    var fields := cleaned + [ImportIdField(contentId)];
    match item.comments
    case None => Success(Processed(Item(fields, None), Walk([], commentId)))
    case Some(g) =>
      var w :- ExtractGroup(sanitize, g, contentId, false, commentId);
      Success(Processed(Item(fields, None), w))
  }

  /** The loop over the posts, or over the pages: the content counter goes
      up by one before each item. */
  function TransformItems(sanitize: string -> string, items: seq<Item>, contentId: int, commentId: int): Result<Run>
  {
    if items == [] then Success(Run([], [], contentId, commentId))
    else
      match Transform(sanitize, items[0], contentId + 1, commentId)
      case Failure(e) => Failure(e)
      case Success(p) => ResumeItems([p.item], p.walk.out, TransformItems(sanitize, items[1..], contentId + 1, p.walk.next))
  }

  /** What the script writes: the comments, the pages and the posts. */
  datatype Written = Written(comments: seq<Flat>, pages: seq<Item>, posts: seq<Item>)

  /** The whole script on the parsed export: the posts, then the pages, then
      the three files. Taking out the `pages` and then the `posts` container
      fails when it is missing. */
  function RunScript(sanitize: string -> string, doc: Document): Result<Written>
  {
    var run1 :- TransformItems(sanitize, ItemsOf(doc, Post), FirstContentId, 0);
    var run2 :- TransformItems(sanitize, ItemsOf(doc, Page), run1.contentId, run1.commentId);
    if doc.pages.None? then Failure(MissingContainer("pages"))
    else if doc.posts.None? then Failure(MissingContainer("posts"))
    else Success(Written(run1.out + run2.out, run2.items, run1.items))
  }

  /** One turn of the items loop: item `i` was transformed into `p`. */
  lemma TransformItemsAdvance(sanitize: string -> string, nodes: seq<Item>, i: nat, done: seq<Item>, emitted: seq<Flat>,
                              contentId0: int, commentId0: int, contentId: int, counter: int, p: Processed)
    requires i < |nodes|
    requires TransformItems(sanitize, nodes, contentId0, commentId0)
      == ResumeItems(done, emitted, TransformItems(sanitize, nodes[i..], contentId - 1, counter))
    requires Transform(sanitize, nodes[i], contentId, counter) == Success(p)
    ensures TransformItems(sanitize, nodes, contentId0, commentId0)
      == ResumeItems(done + [p.item], emitted + p.walk.out, TransformItems(sanitize, nodes[i + 1..], contentId, p.walk.next))
  {
    assert nodes[i..][0] == nodes[i] && nodes[i..][1..] == nodes[i + 1..];
    ResumeItemsTwice(done, emitted, [p.item], p.walk.out, TransformItems(sanitize, nodes[i + 1..], contentId, p.walk.next));
  }

  /** The items loop stops the script when item `i` does. */
  lemma TransformItemsStops(sanitize: string -> string, nodes: seq<Item>, i: nat, contentId: int, counter: int)
    requires i < |nodes|
    requires Transform(sanitize, nodes[i], contentId, counter).Failure?
    ensures TransformItems(sanitize, nodes[i..], contentId - 1, counter).Failure?
  {
    assert nodes[i..][0] == nodes[i];
  }

  /** Writing back the items of one kind leaves which containers exist and
      the other kind's container as they were. */
  lemma WithItemsFacts(doc: Document, kind: Kind, items: seq<Item>)
    ensures var d := WithItems(doc, kind, items);
      d.posts.Some? == doc.posts.Some? && d.pages.Some? == doc.pages.Some? &&
      (kind == Post ==> d.pages == doc.pages && (d.posts.Some? ==> d.posts.value == items)) &&
      (kind == Page ==> d.posts == doc.posts && (d.pages.Some? ==> d.pages.value == items))
  {
  }

  /** One turn of the loop of `extract_comments`: child `i` was walked into `w`. */
  lemma ExtractGroupAdvance(sanitize: string -> string, group: seq<Node>, i: nat, emitted: seq<Flat>, postId: int,
                            underComment: bool, counter0: int, counter: int, w: Walk)
    requires i < |group|
    requires ExtractGroup(sanitize, group, postId, underComment, counter0)
      == Resume(emitted, ExtractGroup(sanitize, group[i..], postId, underComment, counter))
    requires ExtractNode(sanitize, group[i], postId, underComment, counter) == Success(w)
    ensures ExtractGroup(sanitize, group, postId, underComment, counter0)
      == Resume(emitted + w.out, ExtractGroup(sanitize, group[i + 1..], postId, underComment, w.next))
  {
    assert group[i..][0] == group[i] && group[i..][1..] == group[i + 1..];
    ResumeTwice(emitted, w.out, ExtractGroup(sanitize, group[i + 1..], postId, underComment, w.next));
  }

  /** The loop of `extract_comments` stops the script when child `i` does. */
  lemma ExtractGroupStops(sanitize: string -> string, group: seq<Node>, i: nat, postId: int, underComment: bool, counter: int)
    requires i < |group|
    requires ExtractNode(sanitize, group[i], postId, underComment, counter).Failure?
    ensures ExtractGroup(sanitize, group[i..], postId, underComment, counter).Failure?
  {
    assert group[i..][0] == group[i];
  }

  // ------------------------------------------------------------------ class

  /** The script's module-level state: `soup_doc`, `soup_comments`,
      `content_id` and `comment_id`. */
  class Converter {
    const sanitize: string -> string
    var doc: Document
    var comments: seq<Flat>
    var contentId: int
    var commentId: int

    /** Lines 16 to 24: the export parsed, the comments document empty, the
        counters at 7 and 0. */
    constructor (sanitize: string -> string, parsed: Document)
      ensures this.sanitize == sanitize && doc == parsed && comments == []
      ensures contentId == FirstContentId && commentId == 0
    {
      this.sanitize := sanitize;
      doc := parsed;
      comments := [];
      contentId := FirstContentId;
      commentId := 0;
    }

    /** The script from line 94 on: the posts loop, the pages loop, then the
        three documents that are written, in `written`. */
    method Run() returns (ok: bool, written: Option<Written>)
      requires contentId == FirstContentId && commentId == 0 && comments == []
      modifies this
      ensures var r := RunScript(sanitize, old(doc));
        ok == r.Success? && ok == written.Some? && (ok ==> written.value == r.value)
    {
      ghost var doc0 := doc;
      ok := TransformAll(Post);
      if !ok {
        return false, None;
      }
      ghost var run1 := TransformItems(sanitize, ItemsOf(doc0, Post), FirstContentId, 0).value;
      ghost var doc1 := doc;
      WithItemsFacts(doc0, Post, run1.items);
      assert ItemsOf(doc1, Page) == ItemsOf(doc0, Page);
      ok := TransformAll(Page);
      if !ok {
        return false, None;
      }
      ghost var run2 := TransformItems(sanitize, ItemsOf(doc0, Page), run1.contentId, run1.commentId).value;
      WithItemsFacts(doc1, Page, run2.items);
      assert [] + run1.out == run1.out;
      assert comments == run1.out + run2.out;
      if doc.pages.None? {
        return false, None;
      }
      if doc.posts.None? {
        return false, None;
      }
      written := Some(Written(comments, doc.pages.value, doc.posts.value));
      assert RunScript(sanitize, doc0) == Success(written.value);
    }

    /** `for post in posts: content_id += 1; transform(post)`, or the same
        over the pages: each item is transformed where it stands. */
    method TransformAll(kind: Kind) returns (ok: bool)
      modifies this
      ensures var r := TransformItems(sanitize, ItemsOf(old(doc), kind), old(contentId), old(commentId));
        ok == r.Success? &&
        (ok ==> doc == WithItems(old(doc), kind, r.value.items) && comments == old(comments) + r.value.out &&
                contentId == r.value.contentId && commentId == r.value.commentId)
    {
      var nodes := ItemsOf(doc, kind);
      var items := nodes;
      ghost var done: seq<Item> := [];
      ghost var emitted: seq<Flat> := [];
      var i := 0;
      ResumeItemsNothing(TransformItems(sanitize, nodes, contentId, commentId));
      assert nodes[0..] == nodes && comments == old(comments) + [];
      WithItemsTwice(old(doc), kind, nodes, nodes);
      while i < |nodes|
        invariant 0 <= i <= |nodes| && |done| == i
        invariant items == done + nodes[i..]
        invariant doc == WithItems(old(doc), kind, items)
        invariant comments == old(comments) + emitted
        invariant TransformItems(sanitize, nodes, old(contentId), old(commentId))
          == ResumeItems(done, emitted, TransformItems(sanitize, nodes[i..], contentId, commentId))
      {
        ghost var counter := commentId;
        contentId := contentId + 1;
        var processed;
        ok, processed := TransformElement(nodes[i]);
        if !ok {
          TransformItemsStops(sanitize, nodes, i, contentId, counter);
          return;
        }
        ghost var p := Transform(sanitize, nodes[i], contentId, counter).value;
        TransformItemsAdvance(sanitize, nodes, i, done, emitted, old(contentId), old(commentId), contentId, counter, p);
        ReplaceNext(done, nodes[i..], processed);
        assert nodes[i..][1..] == nodes[i + 1..];
        WithItemsTwice(old(doc), kind, items, items[i := processed]);
        items := items[i := processed];
        doc := WithItems(doc, kind, items);
        done := done + [processed];
        AppendThree(old(comments), emitted, p.walk.out);
        emitted := emitted + p.walk.out;
        i := i + 1;
      }
      assert nodes[i..] == [] && items == done;
      assert done + [] == done && emitted + [] == emitted;
      ok := true;
    }

    /** `transform(element)`: edits one item; the caller writes it back in place. */
    method TransformElement(element: Item) returns (ok: bool, processed: Item)
      modifies this
      ensures var r := Transform(sanitize, element, old(contentId), old(commentId));
        ok == r.Success? &&
        (ok ==> processed == r.value.item && commentId == r.value.walk.next &&
                comments == old(comments) + r.value.walk.out)
      ensures doc == old(doc) && contentId == old(contentId)
    {
      processed := element;
      var removed := StripSource(element.fields);
      if removed.Failure? { return false, element; }
      removed := RemoveFirst(removed.value, "author");
      if removed.Failure? { return false, element; }
      var cleaned := ScriptCleanHtml(sanitize, removed.value);
      if cleaned.Failure? { return false, element; }
      processed := Item(cleaned.value + [ImportIdField(contentId)], None);
      if element.comments.Some? {
        ok := ExtractComments(element.comments.value, false);
        return;
      }
      ok := true;
    }

    /** `extract_comments`: every child of the container, in order. */
    method ExtractComments(group: seq<Node>, underComment: bool) returns (ok: bool)
      modifies this
      decreases CountGroup(group), 1
      ensures var r := ExtractGroup(sanitize, group, old(contentId), underComment, old(commentId));
        ok == r.Success? && (ok ==> commentId == r.value.next && comments == old(comments) + r.value.out)
      ensures doc == old(doc) && contentId == old(contentId)
    {
      var i := 0;
      ghost var emitted: seq<Flat> := [];
      assert group[0..] == group && comments == old(comments) + [];
      ResumeNothing(ExtractGroup(sanitize, group, contentId, underComment, commentId));
      while i < |group|
        invariant 0 <= i <= |group|
        invariant doc == old(doc) && contentId == old(contentId)
        invariant comments == old(comments) + emitted
        invariant ExtractGroup(sanitize, group, contentId, underComment, old(commentId))
          == Resume(emitted, ExtractGroup(sanitize, group[i..], contentId, underComment, commentId))
      {
        ghost var counter := commentId;
        CountNodeIn(group, i);
        ok := ExtractComment(group[i], underComment);
        if !ok {
          ExtractGroupStops(sanitize, group, i, contentId, underComment, counter);
          return;
        }
        ghost var w := ExtractNode(sanitize, group[i], contentId, underComment, counter).value;
        ExtractGroupAdvance(sanitize, group, i, emitted, contentId, underComment, old(commentId), counter, w);
        AppendThree(old(comments), emitted, w.out);
        emitted := emitted + w.out;
        i := i + 1;
      }
      ok := true;
    }

    /** The body of the loop of `extract_comments` for one child. */
    method ExtractComment(node: Node, underComment: bool) returns (ok: bool)
      modifies this
      decreases CountNode(node), 0
      ensures var r := ExtractNode(sanitize, node, old(contentId), underComment, old(commentId));
        ok == r.Success? && (ok ==> commentId == r.value.next && comments == old(comments) + r.value.out)
      ensures doc == old(doc) && contentId == old(contentId)
    {
      var parentId := commentId;
      commentId := commentId + 1;
      if node.Text? {
        return false;
      }
      var flat := ScriptComment(sanitize, node.fields, contentId, commentId,
                                if underComment then Some(parentId) else None);
      if flat.Failure? {
        return false;
      }
      comments := comments + [flat.value];
      ghost var id := commentId;
      ok := ExtractComments(node.replies, true);
      if ok {
        AppendThree(old(comments), [flat.value], ExtractGroup(sanitize, node.replies, contentId, true, id).value.out);
      }
    }
  }
}
