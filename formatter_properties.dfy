/** What `ExportFormatter` (package/api/formatter.py) promises about its
    output: the comment flattener against an independent pre-order listing,
    the item edits, the numbering of items and comments across a run, and the
    names of the files it writes. */
module FormatterProperties {
  import opened Xml
  import opened Formatter
  import opened Walks
  import opened Numbering
  import Text

  // ------------------------------------------------- flattening as a listing

  /** The emitter of `_process_comments` for the comments of item `postId`. */
  function Emitter(sanitize: string -> string, postId: int): Emit
  {
    (fields, id, parent) => ProcessComment(sanitize, fields, postId, id, parent)
  }

  /** `_process_comments` is the walk with `_process_comment` as the emitter. */
  lemma {:induction false} FlattenNodeIsWalk(sanitize: string -> string, n: Node, postId: int, parent: Option<int>, counter: int)
    ensures FlattenNode(sanitize, n, postId, parent, counter) == WalkNode(Emitter(sanitize, postId), n, parent, counter)
    decreases n
  {
    if n.Comment? {
      var id := counter + 1;
      assert Emitter(sanitize, postId)(n.fields, id, parent) == ProcessComment(sanitize, n.fields, postId, id, parent);
      FlattenGroupIsWalk(sanitize, n.replies, postId, Some(id), id);
    }
  }

  lemma {:induction false} FlattenGroupIsWalk(sanitize: string -> string, g: seq<Node>, postId: int, parent: Option<int>, counter: int)
    ensures FlattenGroup(sanitize, g, postId, parent, counter) == WalkGroup(Emitter(sanitize, postId), g, parent, counter)
    decreases g
  {
    if g != [] {
      FlattenNodeIsWalk(sanitize, g[0], postId, parent, counter);
      var node := FlattenNode(sanitize, g[0], postId, parent, counter);
      if node.Success? {
        FlattenGroupIsWalk(sanitize, g[1..], postId, parent, node.value.next);
      }
    }
  }

  /** `_process_comments` on a container is the reference walk of the
      container's listing. */
  lemma FlattenGroupListing(sanitize: string -> string, g: seq<Node>, postId: int, p: Option<nat>, c0: int, base: nat)
    ensures FlattenGroup(sanitize, g, postId, ParentStamp(p, c0), c0 + base)
      == Stamp(Emitter(sanitize, postId), ListGroup(g, p, base), c0, base)
  {
    FlattenGroupIsWalk(sanitize, g, postId, ParentStamp(p, c0), c0 + base);
    WalkGroupListing(Emitter(sanitize, postId), g, p, c0, base);
  }

  /** The k-th comment of a content item's listing as `_process_comments`
      emits it when the item's comments are numbered from `c0`: with id
      `c0 + 1 + k` and, for a reply, the id of the comment it answers. */
  function EmitAt(sanitize: string -> string, postId: int, l: seq<Visit>, c0: int, k: nat): Result<Flat>
    requires k < |l|
  {
    StampAt(Emitter(sanitize, postId), l, c0, 0, k)
  }

  /** The flattened comments of a content item are its pre-order listing:
      the k-th listed comment is emitted k-th with id `c0 + 1 + k`. */
  lemma FlattenIsPreOrder(sanitize: string -> string, g: seq<Node>, postId: int, c0: int)
    ensures var r := FlattenGroup(sanitize, g, postId, None, c0);
      var l := PreOrder(g);
      r.Success? ==>
        |r.value.out| == |l| == CountGroup(g) && r.value.next == c0 + CountGroup(g) &&
        forall k :: 0 <= k < |l| ==>
          EmitAt(sanitize, postId, l, c0, k).Success? && r.value.out[k] == EmitAt(sanitize, postId, l, c0, k).value
  {
    FlattenGroupIsWalk(sanitize, g, postId, None, c0);
    WalkIsPreOrder(Emitter(sanitize, postId), g, c0);
  }

  /** The comments of a content item can be flattened exactly when every
      comment of its pre-order listing can be emitted. */
  lemma FlattenEmitsAll(sanitize: string -> string, g: seq<Node>, postId: int, c0: int)
    ensures FlattenGroup(sanitize, g, postId, None, c0).Success?
      <==> forall k :: 0 <= k < |PreOrder(g)| ==> EmitAt(sanitize, postId, PreOrder(g), c0, k).Success?
  {
    FlattenGroupIsWalk(sanitize, g, postId, None, c0);
    WalkIsPreOrder(Emitter(sanitize, postId), g, c0);
    forall k | 0 <= k < |PreOrder(g)|
      ensures EmitAt(sanitize, postId, PreOrder(g), c0, k) == StampAt(Emitter(sanitize, postId), PreOrder(g), c0, 0, k)
    {
    }
  }

  // ------------------------------------------------------------ one comment

  /** What `_process_comments` does to one comment: the comment needs a
      `content` child, whose text is replaced by its sanitized form; one
      `status` child goes if there is one and every other child stays with
      its string; the three stamps are the ones given. */
  lemma ProcessCommentSpec(sanitize: string -> string, fields: seq<Field>, postId: int, id: int, parent: Option<int>)
    ensures var r := ProcessComment(sanitize, fields, postId, id, parent);
      (r.Success? <==> HasField(fields, "content")) &&
      (r.Failure? ==> r.error == MissingChild("content")) &&
      (r.Success? ==>
         r.value.postId == postId && r.value.commentId == id && r.value.parentId == parent &&
         StringOf(r.value.fields, "content")
           == Success(Some(sanitize(PyStr(StringOf(fields, "content").value)))) &&
         (forall name :: Count(r.value.fields, name)
            == Count(fields, name) - (if name == "status" && HasField(fields, "status") then 1 else 0)) &&
         forall name :: name != "content" && name != "status" ==>
           StringOf(r.value.fields, name) == StringOf(fields, name))
  {
    var kept := RemoveIfPresent(fields, "status");
    if HasField(fields, "status") {
      RemoveFirstOther(fields, "status", "content");
    }
    assert StringOf(kept, "content") == StringOf(fields, "content");
    if HasField(fields, "content") {
      var text := sanitize(PyStr(StringOf(fields, "content").value));
      var cleaned := SetString(kept, "content", text).value;
      forall name
        ensures Count(cleaned, name)
          == Count(fields, name) - (if name == "status" && HasField(fields, "status") then 1 else 0)
      {
        SetStringKeeps(kept, "content", text, name);
        if HasField(fields, "status") {
          RemoveFirstCount(fields, "status", name);
        }
      }
      SetStringKeeps(kept, "content", text, "content");
      forall name | name != "content" && name != "status"
        ensures StringOf(cleaned, name) == StringOf(fields, name)
      {
        SetStringOther(kept, "content", text, name);
        if HasField(fields, "status") {
          RemoveFirstOther(fields, "status", name);
        }
      }
    }
  }

  lemma EmitterStampsAsTold(sanitize: string -> string, postId: int)
    ensures StampsAsTold(Emitter(sanitize, postId), postId)
  {
    forall fields, id, parent | Emitter(sanitize, postId)(fields, id, parent).Success?
      ensures Emitter(sanitize, postId)(fields, id, parent).value.postId == postId
      ensures Emitter(sanitize, postId)(fields, id, parent).value.commentId == id
      ensures Emitter(sanitize, postId)(fields, id, parent).value.parentId == parent
    {
      ProcessCommentSpec(sanitize, fields, postId, id, parent);
    }
  }

  /** The stamps on an item's flattened comments: all carry the item's id,
      comment ids run on from `c0` in pre-order, a comment of the item itself
      has no `parent_id`, and a reply's `parent_id` is the `comment_id` of
      the comment it answers, which comes earlier in the output. */
  lemma FlattenStamps(sanitize: string -> string, g: seq<Node>, postId: int, c0: int)
    requires FlattenGroup(sanitize, g, postId, None, c0).Success?
    ensures var out := FlattenGroup(sanitize, g, postId, None, c0).value.out;
      |out| == CountGroup(g) && StampedInOrder(out, PreOrder(g), postId, c0)
  {
    FlattenGroupIsWalk(sanitize, g, postId, None, c0);
    EmitterStampsAsTold(sanitize, postId);
    WalkStamps(Emitter(sanitize, postId), g, postId, c0);
  }

  // ---------------------------------------------------------- one content item

  /** The children `_process_node` removes. */
  predicate SourceOnly(name: string)
  {
    name == "origin" || name == "slug" || name == "created_at" || name == "modified_at"
  }

  /** The item has the four children `_process_node` removes. */
  predicate HasSourceFields(fields: seq<Field>)
  {
    HasField(fields, "origin") && HasField(fields, "slug") && HasField(fields, "created_at")
    && HasField(fields, "modified_at")
  }

  /** The children `_process_node` reads: the four it removes and the body. */
  predicate Convertible(fields: seq<Field>)
  {
    HasSourceFields(fields) && HasField(fields, "content")
  }

  /** The item has a `comments` container holding at least one comment. */
  predicate HasComments(item: Item)
  {
    item.comments.Some? && CountGroup(item.comments.value) > 0
  }

  /** The four removals go through exactly when the four children are
      there; they take one child of each of those names, keep the number of
      every other name, and leave the string of every other child. */
  lemma StripSourceSpec(fields: seq<Field>, other: string)
    ensures var r := StripSource(fields);
      (r.Success? <==> HasSourceFields(fields)) &&
      (r.Success? ==>
         Count(r.value, other) == Count(fields, other) - (if SourceOnly(other) then 1 else 0) &&
         (!SourceOnly(other) ==> StringOf(r.value, other) == StringOf(fields, other)))
  {
    if HasField(fields, "origin") {
      var f1 := RemoveFirst(fields, "origin").value;
      RemoveFirstOther(fields, "origin", "slug");
      RemoveFirstOther(fields, "origin", "created_at");
      RemoveFirstOther(fields, "origin", "modified_at");
      RemoveFirstCount(fields, "origin", other);
      if !SourceOnly(other) {
        RemoveFirstOther(fields, "origin", other);
      }
      if HasField(f1, "slug") {
        var f2 := RemoveFirst(f1, "slug").value;
        RemoveFirstOther(f1, "slug", "created_at");
        RemoveFirstOther(f1, "slug", "modified_at");
        RemoveFirstCount(f1, "slug", other);
        if !SourceOnly(other) {
          RemoveFirstOther(f1, "slug", other);
        }
        if HasField(f2, "created_at") {
          var f3 := RemoveFirst(f2, "created_at").value;
          RemoveFirstOther(f2, "created_at", "modified_at");
          RemoveFirstCount(f2, "created_at", other);
          if !SourceOnly(other) {
            RemoveFirstOther(f2, "created_at", other);
          }
          if HasField(f3, "modified_at") {
            RemoveFirstCount(f3, "modified_at", other);
            if !SourceOnly(other) {
              RemoveFirstOther(f3, "modified_at", other);
            }
          }
        }
      }
    }
  }

  /** The edits of an item's own children go through exactly when the item
      has the four children `_process_node` removes and a body. */
  lemma EditFieldsSucceeds(sanitize: string -> string, fields: seq<Field>, contentId: int)
    ensures EditFields(sanitize, fields, contentId).Success? <==> Convertible(fields)
  {
    StripSourceSpec(fields, "content");
    var s := StripSource(fields);
    if s.Success? {
      AppendFieldOther(s.value, ImportIdField(contentId), "content");
    }
  }

  /** `_process_node` goes through exactly when the item has the four
      children it removes and a body, and its comments, if any, can all be
      moved. */
  lemma TransformItemSucceeds(sanitize: string -> string, item: Item, contentId: int, commentId: int)
    ensures TransformItem(sanitize, item, contentId, commentId).Success?
      <==> Convertible(item.fields)
           && (HasComments(item) ==> FlattenGroup(sanitize, item.comments.value, contentId, None, commentId).Success?)
  {
    EditFieldsSucceeds(sanitize, item.fields, contentId);
  }

  /** `_process_node` appends `import_id` holding the content id as the last
      child, and replaces the body by its sanitized form. */
  lemma EditFieldsBody(sanitize: string -> string, fields: seq<Field>, contentId: int)
    requires EditFields(sanitize, fields, contentId).Success?
    ensures var r := EditFields(sanitize, fields, contentId).value;
      |r| > 0 && r[|r| - 1] == ImportIdField(contentId) &&
      StringOf(fields, "content").Success? &&
      StringOf(r, "content") == Success(Some(sanitize(PyStr(StringOf(fields, "content").value))))
  {
    StripSourceSpec(fields, "content");
    var f4 := StripSource(fields).value;
    var imp := ImportIdField(contentId);
    var g := f4 + [imp];
    AppendFieldOther(f4, imp, "content");
    var text := sanitize(PyStr(StringOf(g, "content").value));
    SetStringKeeps(g, "content", text, "content");
    SetStringValue(g, "content", text);
    assert FieldIndex(g, "content") < |g| - 1;
  }

  /** What `_process_node` leaves of the other children, for any name
      `other`: one child of each removed name fewer, one `import_id` more,
      and every child that is neither removed, nor the body, nor `import_id`
      keeps its string. */
  lemma EditFieldsOthers(sanitize: string -> string, fields: seq<Field>, contentId: int, other: string)
    requires EditFields(sanitize, fields, contentId).Success?
    ensures var r := EditFields(sanitize, fields, contentId).value;
      Count(r, other) == Count(fields, other)
        - (if SourceOnly(other) then 1 else 0) + (if other == "import_id" then 1 else 0) &&
      (!SourceOnly(other) && other != "content" && other != "import_id" ==>
         StringOf(r, other) == StringOf(fields, other))
  {
    StripSourceSpec(fields, "content");
    StripSourceSpec(fields, other);
    var f4 := StripSource(fields).value;
    var imp := ImportIdField(contentId);
    var g := f4 + [imp];
    AppendFieldOther(f4, imp, "content");
    CountAppend(f4, [imp], other);
    assert [imp][1..] == [];
    var text := sanitize(PyStr(StringOf(g, "content").value));
    SetStringKeeps(g, "content", text, other);
    if !SourceOnly(other) && other != "content" && other != "import_id" {
      AppendFieldOther(f4, imp, other);
      SetStringOther(g, "content", text, other);
    }
  }

  /** `_process_node` takes out a `comments` container holding comments and
      leaves any other as it is; every comment under the item is emitted,
      with the item's content id and comment ids running on from
      `commentId`. */
  lemma TransformItemComments(sanitize: string -> string, item: Item, contentId: int, commentId: int)
    requires TransformItem(sanitize, item, contentId, commentId).Success?
    ensures var p := TransformItem(sanitize, item, contentId, commentId).value;
      p.item.fields == EditFields(sanitize, item.fields, contentId).value &&
      (HasComments(item) ==>
         p.item.comments.None? &&
         p.walk == FlattenGroup(sanitize, item.comments.value, contentId, None, commentId).value) &&
      (!HasComments(item) ==> p.item.comments == item.comments) &&
      |p.walk.out| == CommentCount(item) && p.walk.next == commentId + CommentCount(item) &&
      forall k :: 0 <= k < |p.walk.out| ==>
        p.walk.out[k].postId == contentId && p.walk.out[k].commentId == commentId + 1 + k
  {
    if HasComments(item) {
      FlattenStamps(sanitize, item.comments.value, contentId, commentId);
      FlattenIsPreOrder(sanitize, item.comments.value, contentId, commentId);
    }
  }

  /** The item `_process_node` produces ends with `import_id` holding the
      content id. */
  lemma TransformItemImportId(sanitize: string -> string, item: Item, contentId: int, commentId: int)
    requires TransformItem(sanitize, item, contentId, commentId).Success?
    ensures var fields := TransformItem(sanitize, item, contentId, commentId).value.item.fields;
      |fields| > 0 && fields[|fields| - 1] == ImportIdField(contentId)
  {
    TransformItemComments(sanitize, item, contentId, commentId);
    EditFieldsBody(sanitize, item.fields, contentId);
  }

  // ------------------------------------------------------ the items of a kind

  /** `_process_node` as the step of the items loop. */
  function Processor(sanitize: string -> string): Step
  {
    (item, contentId, commentId) => TransformItem(sanitize, item, contentId, commentId)
  }

  /** The loop of `_clean_content` is the items loop with `_process_node` as
      its step. */
  lemma {:induction false} CleanItemsIsLoop(sanitize: string -> string, items: seq<Item>, contentId: int, commentId: int)
    ensures CleanItems(sanitize, items, contentId, commentId) == Loop(Processor(sanitize), items, contentId, commentId)
    decreases |items|
  {
    if items != [] {
      var r := TransformItem(sanitize, items[0], contentId + 1, commentId);
      assert Processor(sanitize)(items[0], contentId + 1, commentId) == r;
      if r.Success? {
        CleanItemsIsLoop(sanitize, items[1..], contentId + 1, r.value.walk.next);
      }
    }
  }

  /** `_process_node` numbers an item and its comments in turn. */
  lemma ProcessorNumbersInTurn(sanitize: string -> string)
    ensures NumbersInTurn(Processor(sanitize))
  {
    forall item, contentId, commentId | Processor(sanitize)(item, contentId, commentId).Success?
      ensures HandledInTurn(item, contentId, commentId, Processor(sanitize)(item, contentId, commentId).value)
    {
      TransformItemComments(sanitize, item, contentId, commentId);
      TransformItemImportId(sanitize, item, contentId, commentId);
    }
  }

  /** The numbering of `_clean_content`'s loop over one kind of item: item
      `k` out is `_process_node` of item `k` in, with content id
      `contentId + 1 + k` and the comment counter past the comments of the
      items before it, and it ends with `import_id` holding that content id;
      the comments are numbered on from the comment counter, and the
      comments of item `k` form one block, in item order, all carrying
      `contentId + 1 + k`. */
  lemma CleanItemsNumbering(sanitize: string -> string, items: seq<Item>, contentId: int, commentId: int)
    requires CleanItems(sanitize, items, contentId, commentId).Success?
    ensures RunNumbering(Processor(sanitize), items, contentId, commentId, CleanItems(sanitize, items, contentId, commentId).value)
  {
    CleanItemsIsLoop(sanitize, items, contentId, commentId);
    ProcessorNumbersInTurn(sanitize);
    LoopNumbering(Processor(sanitize), items, contentId, commentId);
  }

  // ------------------------------------------------------- when a run fails

  /** Every comment under the item has a body. */
  ghost predicate CommentsHaveContent(item: Item)
  {
    item.comments.Some? ==>
      forall k :: 0 <= k < |PreOrder(item.comments.value)| ==> HasField(PreOrder(item.comments.value)[k].fields, "content")
  }

  /** `_process_node` can handle the item: it has the children it removes, a
      body, and every comment under it has a body. */
  ghost predicate ItemConvertible(item: Item)
  {
    Convertible(item.fields) && CommentsHaveContent(item)
  }

  /** A listed comment can be emitted exactly when it has a body. */
  lemma EmitAtSucceeds(sanitize: string -> string, postId: int, l: seq<Visit>, c0: int, k: nat)
    requires k < |l|
    ensures EmitAt(sanitize, postId, l, c0, k).Success? <==> HasField(l[k].fields, "content")
  {
    ProcessCommentSpec(sanitize, l[k].fields, postId, c0 + 0 + 1 + k, ParentStamp(l[k].parent, c0));
  }

  /** The comments of an item can all be moved exactly when each has a body. */
  lemma FlattenSucceeds(sanitize: string -> string, g: seq<Node>, postId: int, c0: int)
    ensures FlattenGroup(sanitize, g, postId, None, c0).Success?
      <==> forall k :: 0 <= k < |PreOrder(g)| ==> HasField(PreOrder(g)[k].fields, "content")
  {
    FlattenEmitsAll(sanitize, g, postId, c0);
    forall k | 0 <= k < |PreOrder(g)|
      ensures EmitAt(sanitize, postId, PreOrder(g), c0, k).Success? <==> HasField(PreOrder(g)[k].fields, "content")
    {
      EmitAtSucceeds(sanitize, postId, PreOrder(g), c0, k);
    }
  }

  /** `_process_node` fails exactly on an item that lacks a child it needs,
      whatever the counters. */
  lemma TransformItemSucceedsIff(sanitize: string -> string, item: Item, contentId: int, commentId: int)
    ensures TransformItem(sanitize, item, contentId, commentId).Success? <==> ItemConvertible(item)
  {
    TransformItemSucceeds(sanitize, item, contentId, commentId);
    if item.comments.Some? {
      FlattenSucceeds(sanitize, item.comments.value, contentId, commentId);
      ListGroupLength(item.comments.value, None, 0);
    }
  }

  /** Every item of the run can be handled. */
  ghost predicate AllConvertible(items: seq<Item>)
  {
    forall k :: 0 <= k < |items| ==> ItemConvertible(items[k])
  }

  lemma AllConvertibleSplit(items: seq<Item>)
    requires items != []
    ensures AllConvertible(items) <==> ItemConvertible(items[0]) && AllConvertible(items[1..])
  {
    if ItemConvertible(items[0]) && AllConvertible(items[1..]) {
      forall k | 0 < k < |items|
        ensures ItemConvertible(items[k])
      {
        assert items[k] == items[1..][k - 1];
      }
    }
  }

  /** The items loop of `_clean_content` goes through exactly when every item
      can be handled. */
  lemma {:induction false} CleanItemsSucceeds(sanitize: string -> string, items: seq<Item>, contentId: int, commentId: int)
    ensures CleanItems(sanitize, items, contentId, commentId).Success? <==> AllConvertible(items)
    decreases |items|
  {
    if items != [] {
      AllConvertibleSplit(items);
      TransformItemSucceedsIff(sanitize, items[0], contentId + 1, commentId);
      var p := TransformItem(sanitize, items[0], contentId + 1, commentId);
      if p.Success? {
        CleanItemsSucceeds(sanitize, items[1..], contentId + 1, p.value.walk.next);
      }
    }
  }

  // ------------------------------------------------------------- whole runs

  /** The other kind of content item. */
  function OtherKind(kind: Kind): Kind
  {
    match kind
    case Post => Page
    case Page => Post
  }

  /** `_clean_content(name)`: refuses a name other than post and page, and
      otherwise goes through exactly when every item of that kind can be
      handled; it then replaces those items, leaves the header and the other
      kind alone, appends the items' comments and raises both counters. */
  lemma CleanKindSpec(sanitize: string -> string, name: string, s: State)
    ensures var r := CleanKind(sanitize, name, s);
      (KindOf(name).None? ==> r == Failure(UnsupportedNode(name))) &&
      (KindOf(name).Some? ==>
         var kind := KindOf(name).value;
         var items := ItemsOf(s.doc, kind);
         (r.Success? <==> AllConvertible(items)) &&
         (r.Success? ==>
            var run := CleanItems(sanitize, items, s.contentId, s.commentId).value;
            r.value.doc.header == s.doc.header &&
            r.value.doc.posts.Some? == s.doc.posts.Some? && r.value.doc.pages.Some? == s.doc.pages.Some? &&
            ItemsOf(r.value.doc, OtherKind(kind)) == ItemsOf(s.doc, OtherKind(kind)) &&
            ItemsOf(r.value.doc, kind) == run.items &&
            r.value.comments == s.comments + run.out &&
            r.value.contentId == s.contentId + |items| &&
            r.value.commentId == s.commentId + CommentTotal(items)))
  {
    if KindOf(name).Some? {
      var kind := KindOf(name).value;
      var items := ItemsOf(s.doc, kind);
      CleanItemsSucceeds(sanitize, items, s.contentId, s.commentId);
      if AllConvertible(items) {
        CleanItemsNumbering(sanitize, items, s.contentId, s.commentId);
      }
    }
  }

  /** The steps after loading go through exactly when the document has both
      a `posts` and a `pages` container and every item in them can be
      handled. */
  lemma ConvertLoadedSucceeds(sanitize: string -> string, path: string, s: State)
    ensures ConvertLoaded(sanitize, path, s).Success? <==>
      s.doc.posts.Some? && s.doc.pages.Some? &&
      AllConvertible(ItemsOf(s.doc, Post)) && AllConvertible(ItemsOf(s.doc, Page))
  {
    assert KindOf("post") == Some(Post) && KindOf("page") == Some(Page);
    CleanKindSpec(sanitize, "post", s);
    var r1 := CleanKind(sanitize, "post", s);
    if r1.Success? {
      CleanKindSpec(sanitize, "page", r1.value);
    }
  }

  /** `convert_to_wp_format` succeeds exactly when the file exists, is named
      `.xml`, passes the structure check, has both a `posts` and a `pages`
      container, and every item in them can be handled. */
  lemma ConvertSucceeds(sanitize: string -> string, fileExists: bool, path: string, parsed: Document, s: State)
    ensures Convert(sanitize, fileExists, path, parsed, s).Success? <==>
      fileExists && Text.Suffix(Text.Name(path)) == ".xml" && CheckFileStructure(parsed) &&
      parsed.posts.Some? && parsed.pages.Some? &&
      AllConvertible(ItemsOf(parsed, Post)) && AllConvertible(ItemsOf(parsed, Page))
  {
    ConvertLoadedSucceeds(sanitize, path, s.(doc := parsed));
  }

  /** After loading, a run that goes through is the posts loop followed by
      the pages loop, the pages loop starting from the counters the posts
      loop left. */
  lemma ConvertRuns(sanitize: string -> string, path: string, s: State)
    requires ConvertLoaded(sanitize, path, s).Success?
    ensures s.doc.posts.Some? && s.doc.pages.Some?
    ensures var f := ConvertLoaded(sanitize, path, s).value.files;
      var posts := ItemsOf(s.doc, Post);
      var pages := ItemsOf(s.doc, Page);
      var run1 := CleanItems(sanitize, posts, s.contentId, s.commentId);
      run1.Success? &&
      var run2 := CleanItems(sanitize, pages, run1.value.contentId, run1.value.commentId);
      run2.Success? &&
      f.posts == run1.value.items && f.pages == run2.value.items &&
      f.comments == s.comments + run1.value.out + run2.value.out
  {
    ConvertLoadedSucceeds(sanitize, path, s);
    var posts := ItemsOf(s.doc, Post);
    var pages := ItemsOf(s.doc, Page);
    assert KindOf("post") == Some(Post) && KindOf("page") == Some(Page);
    CleanKindSpec(sanitize, "post", s);
    var s1 := CleanKind(sanitize, "post", s).value;
    CleanKindSpec(sanitize, "page", s1);
    var s2 := CleanKind(sanitize, "page", s1).value;
    assert ConvertLoaded(sanitize, path, s).value == Converted(s2, CreateFiles(path, s2).value);
  }

  /** The state of a new formatter given the last id used in the target
      database. */
  function Fresh(lastWpId: int): State
  {
    State(Document([], None, None), [], lastWpId + 1, 0)
  }

  /** Every file name ends in `.xml` as `pathlib` reads suffixes, and
      starts with its order and an underscore. */
  lemma {:induction false} FileNameShape(order: nat, stem: string, nodeType: string)
    requires 1 <= order <= 9
    ensures var name := FileName(order, stem, nodeType);
      Text.Suffix(name) == ".xml" && |name| >= 2 && name[0] == Text.Digit(order) && name[1] == '_'
  {
    var name := FileName(order, stem, nodeType);
    assert Text.Decimal(order) == [Text.Digit(order)];
    assert name == [Text.Digit(order)] + "_" + stem + "_" + nodeType + "s.xml";
    assert name[|name| - 4..] == ".xml";
    Text.SuffixIsXml(name);
  }

  /** `_create_files` succeeds exactly when both containers are there; the
      three files are the posts, the pages and the collected comments, under
      three different names that all end in `.xml`. */
  lemma CreateFilesSpec(path: string, s: State)
    ensures CreateFiles(path, s).Success? <==> s.doc.posts.Some? && s.doc.pages.Some?
    ensures s.doc.posts.None? ==> CreateFiles(path, s) == Failure(MissingContainer("posts"))
    ensures s.doc.posts.Some? && s.doc.pages.None? ==> CreateFiles(path, s) == Failure(MissingContainer("pages"))
    ensures CreateFiles(path, s).Success? ==>
      var o := CreateFiles(path, s).value;
      o.posts == s.doc.posts.value && o.pages == s.doc.pages.value && o.comments == s.comments &&
      Text.Suffix(o.postsFile) == ".xml" && Text.Suffix(o.pagesFile) == ".xml" &&
      Text.Suffix(o.commentsFile) == ".xml" &&
      o.postsFile != o.pagesFile && o.pagesFile != o.commentsFile && o.postsFile != o.commentsFile
  {
    var stem := Text.Stem(Text.Name(path));
    FileNameShape(1, stem, "post");
    FileNameShape(2, stem, "page");
    FileNameShape(3, stem, "comment");
  }

  /** A run from a new formatter is the posts loop from `lastWpId + 1` and
      comment 0, then the pages loop from where it stopped; the posts and
      pages files hold their items. */
  lemma ConvertFreshItems(sanitize: string -> string, fileExists: bool, path: string, parsed: Document, lastWpId: int)
    requires Convert(sanitize, fileExists, path, parsed, Fresh(lastWpId)).Success?
    ensures parsed.posts.Some? && parsed.pages.Some?
    ensures var f := Convert(sanitize, fileExists, path, parsed, Fresh(lastWpId)).value.files;
      var run1 := CleanItems(sanitize, ItemsOf(parsed, Post), lastWpId + 1, 0);
      run1.Success? &&
      var run2 := CleanItems(sanitize, ItemsOf(parsed, Page), run1.value.contentId, run1.value.commentId);
      run2.Success? && f.posts == run1.value.items && f.pages == run2.value.items
  {
    assert Convert(sanitize, fileExists, path, parsed, Fresh(lastWpId))
      == ConvertLoaded(sanitize, path, Fresh(lastWpId).(doc := parsed));
    ConvertRuns(sanitize, path, Fresh(lastWpId).(doc := parsed));
  }

  /** The comments file of a run from a new formatter holds the comments of
      the posts loop, then those of the pages loop. */
  lemma ConvertFreshComments(sanitize: string -> string, fileExists: bool, path: string, parsed: Document, lastWpId: int)
    requires Convert(sanitize, fileExists, path, parsed, Fresh(lastWpId)).Success?
    ensures var f := Convert(sanitize, fileExists, path, parsed, Fresh(lastWpId)).value.files;
      var run1 := CleanItems(sanitize, ItemsOf(parsed, Post), lastWpId + 1, 0);
      run1.Success? &&
      var run2 := CleanItems(sanitize, ItemsOf(parsed, Page), run1.value.contentId, run1.value.commentId);
      run2.Success? && f.comments == run1.value.out + run2.value.out
  {
    var s0 := Fresh(lastWpId).(doc := parsed);
    assert Convert(sanitize, fileExists, path, parsed, Fresh(lastWpId)) == ConvertLoaded(sanitize, path, s0);
    ConvertRuns(sanitize, path, s0);
    var run1 := CleanItems(sanitize, ItemsOf(parsed, Post), lastWpId + 1, 0).value;
    var run2 := CleanItems(sanitize, ItemsOf(parsed, Page), run1.contentId, run1.commentId).value;
    assert s0.comments + run1.out == run1.out;
  }

  /** The ids in the three files of a run from a new formatter: the posts
      loop from content id `lastWpId + 1` and comment 0, then the pages loop
      from where it stopped. */
  lemma ConvertNumbering(sanitize: string -> string, fileExists: bool, path: string, parsed: Document, lastWpId: int)
    requires Convert(sanitize, fileExists, path, parsed, Fresh(lastWpId)).Success?
    ensures parsed.posts.Some? && parsed.pages.Some?
    ensures var f := Convert(sanitize, fileExists, path, parsed, Fresh(lastWpId)).value.files;
      TwoRuns(Processor(sanitize), ItemsOf(parsed, Post), ItemsOf(parsed, Page), lastWpId + 1, f.posts, f.pages, f.comments)
  {
    var posts := ItemsOf(parsed, Post);
    var pages := ItemsOf(parsed, Page);
    ConvertFreshItems(sanitize, fileExists, path, parsed, lastWpId);
    ConvertFreshComments(sanitize, fileExists, path, parsed, lastWpId);
    var f := Convert(sanitize, fileExists, path, parsed, Fresh(lastWpId)).value.files;
    var run1 := CleanItems(sanitize, posts, lastWpId + 1, 0).value;
    CleanItemsIsLoop(sanitize, posts, lastWpId + 1, 0);
    CleanItemsIsLoop(sanitize, pages, run1.contentId, run1.commentId);
    ProcessorNumbersInTurn(sanitize);
    LoopsNumbering(Processor(sanitize), posts, pages, lastWpId + 1, f.posts, f.pages, f.comments);
  }

  /** From index `at` on, `w` holds the comments of listing `l` as
      `_process_comments` emits them for item `postId`, with ids running on
      from `c0`. */
  ghost predicate EmitsAt(sanitize: string -> string, w: seq<Flat>, at: int, l: seq<Visit>, postId: int, c0: int)
  {
    0 <= at && at + |l| <= |w| &&
    forall j :: 0 <= j < |l| ==>
      EmitAt(sanitize, postId, l, c0, j).Success? && w[at + j] == EmitAt(sanitize, postId, l, c0, j).value
  }

  /** The comments `_process_node` emits for an item holding comments, when
      the item has content id `contentId` and its comments are numbered on
      from `commentId`: the item's pre-order listing, emitted in order. */
  lemma {:induction false} TransformItemEmits(sanitize: string -> string, item: Item, contentId: int, commentId: int)
    requires TransformItem(sanitize, item, contentId, commentId).Success? && HasComments(item)
    ensures var out := TransformItem(sanitize, item, contentId, commentId).value.walk.out;
      var l := PreOrder(item.comments.value);
      |out| == |l| && EmitsAt(sanitize, out, 0, l, contentId, commentId)
  {
    TransformItemComments(sanitize, item, contentId, commentId);
    FlattenIsPreOrder(sanitize, item.comments.value, contentId, commentId);
  }

  /** Emitted comments placed as one block in a longer output keep their
      order there. */
  lemma {:induction false} EmitsInBlock(sanitize: string -> string, w: seq<Flat>, out: seq<Flat>, s: int, l: seq<Visit>, postId: int, c0: int)
    requires BlockIn(w, out, s) && |out| == |l| && EmitsAt(sanitize, out, 0, l, postId, c0)
    ensures EmitsAt(sanitize, w, s, l, postId, c0)
  {
    forall j | 0 <= j < |l|
      ensures w[s + j] == EmitAt(sanitize, postId, l, c0, j).value
    {
      assert w[s + j] == out[j] && out[0 + j] == out[j];
    }
  }

  /** In the comments file `comments` of a run over `items`, the comments
      of item `k` are one block right after the comments of the items before
      it, and, when the item holds comments, are its pre-order listing as
      `_process_comments` emits it for item `postId`: ids running on from
      the comments before the block, and a reply's `parent_id` the id of the
      comment it answers. */
  ghost predicate ItemBlockAt(sanitize: string -> string, comments: seq<Flat>, items: seq<Item>, k: nat, postId: int)
  {
    k < |items| &&
    var s := CommentTotal(items[..k]);
    s + CommentCount(items[k]) <= |comments| &&
    (HasComments(items[k]) ==>
       var l := PreOrder(items[k].comments.value);
       CommentCount(items[k]) == |l| && EmitsAt(sanitize, comments, s, l, postId, s))
  }

  /** When the comments `_process_node` emits for item `k` of a run at its
      own place sit as one block after the comments of the items before it,
      that block is the item's pre-order listing as `_process_comments`
      emits it with the item's own content id. */
  lemma {:induction false} ProcessorBlock(sanitize: string -> string, items: seq<Item>, contentId: int, comments: seq<Flat>,
                       k: nat, postId: int)
    requires k < |items| && postId == contentId + 1 + k
    requires StepAt(Processor(sanitize), items, contentId, 0, k).Success?
    requires BlockIn(comments, StepAt(Processor(sanitize), items, contentId, 0, k).value.walk.out, CommentTotal(items[..k]))
    ensures ItemBlockAt(sanitize, comments, items, k, postId)
  {
    var s := CommentTotal(items[..k]);
    var r := StepAt(Processor(sanitize), items, contentId, 0, k);
    assert r == TransformItem(sanitize, items[k], postId, s);
    TransformItemComments(sanitize, items[k], postId, s);
    if HasComments(items[k]) {
      TransformItemEmits(sanitize, items[k], postId, s);
      EmitsInBlock(sanitize, comments, r.value.walk.out, s, PreOrder(items[k].comments.value), postId, s);
    }
  }

  /** In the comments file of a run from a new formatter, the comments of
      post or page `k` (pages counted on after the posts) are one block
      right after the comments of the items before it, and are exactly the
      comments `_process_node` emits for that item at its own place: content
      id `lastWpId + 2 + k` and the comment counter where the block starts
      (`ProcessorBlock`: its pre-order listing). */
  lemma {:induction false} ConvertCommentBlocks(sanitize: string -> string, fileExists: bool, path: string, parsed: Document,
                             lastWpId: int, k: nat)
    requires Convert(sanitize, fileExists, path, parsed, Fresh(lastWpId)).Success?
    requires k < |ItemsOf(parsed, Post)| + |ItemsOf(parsed, Page)|
    ensures var f := Convert(sanitize, fileExists, path, parsed, Fresh(lastWpId)).value.files;
      var all := ItemsOf(parsed, Post) + ItemsOf(parsed, Page);
      var r := StepAt(Processor(sanitize), all, lastWpId + 1, 0, k);
      r.Success? && |r.value.walk.out| == CommentCount(all[k]) &&
      BlockIn(f.comments, r.value.walk.out, CommentTotal(all[..k]))
  {
    var f := Convert(sanitize, fileExists, path, parsed, Fresh(lastWpId)).value.files;
    ConvertNumbering(sanitize, fileExists, path, parsed, lastWpId);
    ProcessorNumbersInTurn(sanitize);
    TwoRunsBlock(Processor(sanitize), ItemsOf(parsed, Post), ItemsOf(parsed, Page), lastWpId + 1,
      f.posts, f.pages, f.comments, k);
  }

  /** In the comments file of a run from a new formatter, the comments of
      post or page `k` (pages counted on after the posts) are one block
      right after the comments of the items before it, and are that item's
      pre-order listing as `_process_comments` emits it with the item's own
      content id `lastWpId + 2 + k`. */
  lemma {:induction false} ConvertCommentListings(sanitize: string -> string, fileExists: bool, path: string, parsed: Document,
                               lastWpId: int, k: nat, comments: seq<Flat>)
    requires Convert(sanitize, fileExists, path, parsed, Fresh(lastWpId)).Success?
    requires comments == Convert(sanitize, fileExists, path, parsed, Fresh(lastWpId)).value.files.comments
    requires k < |ItemsOf(parsed, Post)| + |ItemsOf(parsed, Page)|
    ensures ItemBlockAt(sanitize, comments, ItemsOf(parsed, Post) + ItemsOf(parsed, Page), k, lastWpId + 2 + k)
  {
    ConvertCommentBlocks(sanitize, fileExists, path, parsed, lastWpId, k);
    ProcessorBlock(sanitize, ItemsOf(parsed, Post) + ItemsOf(parsed, Page), lastWpId + 1, comments, k, lastWpId + 2 + k);
  }
}
