/** `ExportFormatter` (package/api/formatter.py): checks an OverBlog export,
    renumbers its posts and pages from the last known WordPress id, moves
    every comment and reply into one flat comments document, and names the
    three output files.

    The functions below say what each step computes; the class carries the
    source's mutable state (the parsed document, the comments document and
    the two counters) and its methods are proved to compute those functions. */
module Formatter {
  import opened Xml
  import Text

  /** One processed content item and the comments taken out of it. */
  datatype Processed = Processed(item: Item, walk: Walk)

  /** The items of one kind after processing, the comments taken out of them
      and both counters afterwards. */
  datatype Run = Run(items: seq<Item>, out: seq<Flat>, contentId: int, commentId: int)

  /** The fields of an `ExportFormatter` that the conversion changes. */
  datatype State = State(doc: Document, comments: seq<Flat>, contentId: int, commentId: int)

  /** The three documents `_create_files` writes, with their file names. */
  datatype Output = Output(
    postsFile: string, posts: seq<Item>,
    pagesFile: string, pages: seq<Item>,
    commentsFile: string, comments: seq<Flat>)

  /** The whole outcome of a successful `convert_to_wp_format`. */
  datatype Converted = Converted(state: State, files: Output)

  // ------------------------------------------------------------ validation

  /** The first field called `name` among the items, in document order. */
  function FindInItems(items: seq<Item>, name: string): (r: Option<Field>)
    ensures r.Some? ==> r.value.name == name
  {
    if items == [] then None
    else if HasField(items[0].fields, name) then Some(items[0].fields[FieldIndex(items[0].fields, name)])
    else FindInItems(items[1..], name)
  }

  /** `data.find(name)`: the first element called `name` in document order. */
  function Find(doc: Document, name: string): (r: Option<Field>)
    ensures r.Some? ==> r.value.name == name
  {
    if HasField(doc.header, name) then Some(doc.header[FieldIndex(doc.header, name)])
    else
      var inPosts := FindInItems(if doc.posts.Some? then doc.posts.value else [], name);
      if inPosts.Some? then inPosts
      else FindInItems(if doc.pages.Some? then doc.pages.value else [], name)
  }

  /** `_check_file_structure`: the document needs a `posts` or a `pages`
      container, and its first `origin` element, when there is one, must
      hold a non-empty text naming `OB` among its comma-separated tokens. */
  function CheckFileStructure(doc: Document): (ok: bool)
    ensures ok <==>
      (doc.posts.Some? || doc.pages.Some?) &&
      match Find(doc, "origin")
      case None => true
      case Some(origin) =>
        origin.text.Some? && origin.text.value != "" && Text.IsToken(origin.text.value, "OB", ',')
  {
    if doc.posts.None? && doc.pages.None? then false
    else
      match Find(doc, "origin")
      case None => true
      case Some(origin) =>
        match origin.text
        case None => false
        case Some(s) =>
          Text.SplitHasToken(s, "OB", ',');
          s != "" && "OB" in Text.Split(s, ',')
  }

  /** `_load_data`: the existence check and the read are done by the caller,
      which passes their outcome (`fileExists`) and the parsed tree. */
  function LoadData(fileExists: bool, path: string, parsed: Document): (r: Result<Document>)
    ensures r.Success? <==>
      fileExists && Text.Suffix(Text.Name(path)) == ".xml" && CheckFileStructure(parsed)
    ensures r.Success? ==> r.value == parsed
  {
    if !fileExists then Failure(FileNotFound)
    else if Text.Suffix(Text.Name(path)) != ".xml" then Failure(NotXml)
    else if !CheckFileStructure(parsed) then Failure(NotOverBlog)
    else Success(parsed)
  }

  // ------------------------------------------------------ html and comments

  /** `unicode(x)`: `str` of a missing string is the word None. */
  function PyStr(text: Option<string>): string
  {
    match text
    case None => "None"
    case Some(s) => s
  }

  /** `_clean_html`: the first `content` field gets the sanitized form of its
      text; fails when there is no `content` field. */
  function CleanHtml(sanitize: string -> string, fields: seq<Field>): Result<seq<Field>>
  {
    var text :- StringOf(fields, "content");
    SetString(fields, "content", sanitize(PyStr(text)))
  }

  /** One comment as `_process_comments` emits it: `status` removed if
      present, the body sanitized, and the three stamps. */
  function ProcessComment(sanitize: string -> string, fields: seq<Field>, postId: int, id: int, parent: Option<int>): Result<Flat>
  {
    var cleaned :- CleanHtml(sanitize, RemoveIfPresent(fields, "status"));
    Success(Flat(cleaned, postId, id, parent))
  }

  /** The comments one child of a container contributes, starting from comment
      counter `counter`. A text node is skipped. A comment takes the next id,
      is emitted, and then its replies, when they hold any comment, are walked
      with that id as their parent. */
  function FlattenNode(sanitize: string -> string, n: Node, postId: int, parent: Option<int>, counter: int): Result<Walk>
  {
    match n
    case Text(_) => Success(Walk([], counter))
    case Comment(fields, replies) =>
      var id := counter + 1;
      match ProcessComment(sanitize, fields, postId, id, parent)
      case Failure(e) => Failure(e)
      case Success(flat) =>
        if CountGroup(replies) > 0 then Resume([flat], FlattenGroup(sanitize, replies, postId, Some(id), id))
        else Success(Walk([flat], id))
  }

  /** `_process_comments` on a container: its children in order; `parent` is
      the `parent_id` stamped on each of them, the counter's value when the
      walk of a `replies` container began, and None for a `comments` one. */
  function FlattenGroup(sanitize: string -> string, g: seq<Node>, postId: int, parent: Option<int>, counter: int): Result<Walk>
  {
    if g == [] then Success(Walk([], counter))
    else
      match FlattenNode(sanitize, g[0], postId, parent, counter)
      case Failure(e) => Failure(e)
      case Success(first) => Resume(first.out, FlattenGroup(sanitize, g[1..], postId, parent, first.next))
  }

  // ------------------------------------------------------- posts and pages

  /** The field `_process_node` appends. */
  function ImportIdField(id: int): Field
  {
    Field("import_id", Some(Text.Decimal(id)))
  }

  /** The first four steps of `_process_node`: the `origin`, `slug`,
      `created_at` and `modified_at` children removed, in that order, each
      of them required. */
  function StripSource(fields: seq<Field>): Result<seq<Field>>
  {
    var f1 :- RemoveFirst(fields, "origin");
    var f2 :- RemoveFirst(f1, "slug");
    var f3 :- RemoveFirst(f2, "created_at");
    RemoveFirst(f3, "modified_at")
  }

  /** What `_process_node` does to an item's own children: the four
      removals, `import_id` holding `contentId` appended, the body sanitized. */
  function EditFields(sanitize: string -> string, fields: seq<Field>, contentId: int): Result<seq<Field>>
  {
    var stripped :- StripSource(fields);
    CleanHtml(sanitize, stripped + [ImportIdField(contentId)])
  }

  /** `_process_node` with content counter `contentId`: four source fields
      removed (each must be there), `import_id` appended, the body sanitized,
      and a `comments` container holding any comment taken out and walked. */
  function TransformItem(sanitize: string -> string, item: Item, contentId: int, commentId: int): Result<Processed>
  {
    var f5 :- EditFields(sanitize, item.fields, contentId);
    if item.comments.Some? && CountGroup(item.comments.value) > 0 then
      var w :- FlattenGroup(sanitize, item.comments.value, contentId, None, commentId);
      Success(Processed(Item(f5, None), w))
    else
      Success(Processed(Item(f5, item.comments), Walk([], commentId)))
  }

  /** The items loop after `done` items were processed and `out` comments emitted. */
  function ResumeItems(done: seq<Item>, out: seq<Flat>, r: Result<Run>): Result<Run>
  {
    match r
    case Failure(e) => Failure(e)
    case Success(run) => Success(Run(done + run.items, out + run.out, run.contentId, run.commentId))
  }

  /** The loop of `_clean_content` over the items of one kind: the content
      counter goes up by one before each item. */
  function CleanItems(sanitize: string -> string, items: seq<Item>, contentId: int, commentId: int): Result<Run>
  {
    if items == [] then Success(Run([], [], contentId, commentId))
    else
      match TransformItem(sanitize, items[0], contentId + 1, commentId)
      case Failure(e) => Failure(e)
      case Success(p) => ResumeItems([p.item], p.walk.out, CleanItems(sanitize, items[1..], contentId + 1, p.walk.next))
  }

  /** The two kinds of content item `_clean_content` accepts. */
  datatype Kind = Post | Page

  /** The kind a node name stands for; None for any other name. */
  function KindOf(name: string): (k: Option<Kind>)
    ensures k == Some(Post) <==> name == "post"
    ensures k == Some(Page) <==> name == "page"
    ensures k.None? <==> name != "post" && name != "page"
  {
    if name == "post" then Some(Post) else if name == "page" then Some(Page) else None
  }

  /** `find_all('post')` or `find_all('page')`: the items of that container. */
  function ItemsOf(doc: Document, kind: Kind): seq<Item>
  {
    match kind
    case Post => if doc.posts.Some? then doc.posts.value else []
    case Page => if doc.pages.Some? then doc.pages.value else []
  }

  /** The document with the items of one kind replaced. */
  function WithItems(doc: Document, kind: Kind, items: seq<Item>): Document
  {
    match kind
    case Post => if doc.posts.Some? then doc.(posts := Some(items)) else doc
    case Page => if doc.pages.Some? then doc.(pages := Some(items)) else doc
  }

  /** `_clean_content(name)` on the formatter's state. */
  function CleanKind(sanitize: string -> string, name: string, s: State): Result<State>
  {
    match KindOf(name)
    case None => Failure(UnsupportedNode(name))
    case Some(kind) =>
      var run :- CleanItems(sanitize, ItemsOf(s.doc, kind), s.contentId, s.commentId);
      Success(State(WithItems(s.doc, kind, run.items), s.comments + run.out, run.contentId, run.commentId))
  }

  // ----------------------------------------------------------------- output

  /** The file name `_create_file` writes to. */
  function FileName(order: int, stem: string, nodeType: string): string
  {
    Text.Decimal(order) + "_" + stem + "_" + nodeType + "s.xml"
  }

  /** `_create_files`: takes the `posts` and `pages` containers out of the
      document (each must be there) and names the three files. */
  function CreateFiles(path: string, s: State): Result<Output>
  {
    var stem := Text.Stem(Text.Name(path));
    if s.doc.posts.None? then Failure(MissingContainer("posts"))
    else if s.doc.pages.None? then Failure(MissingContainer("pages"))
    else Success(Output(
      FileName(1, stem, "post"), s.doc.posts.value,
      FileName(2, stem, "page"), s.doc.pages.value,
      FileName(3, stem, "comment"), s.comments))
  }

  /** `convert_to_wp_format` from state `s`: load, posts, pages, files. Any
      exception makes the run fail. */
  function Convert(sanitize: string -> string, fileExists: bool, path: string, parsed: Document, s: State): Result<Converted>
  {
    var doc :- LoadData(fileExists, path, parsed);
    ConvertLoaded(sanitize, path, s.(doc := doc))
  }

  /** The steps of `convert_to_wp_format` after the document is loaded:
      posts, pages, files. */
  function ConvertLoaded(sanitize: string -> string, path: string, s: State): Result<Converted>
  {
    var s1 :- CleanKind(sanitize, "post", s);
    var s2 :- CleanKind(sanitize, "page", s1);
    var files :- CreateFiles(path, s2);
    Success(Converted(s2, files))
  }

  lemma WithItemsTwice(doc: Document, kind: Kind, a: seq<Item>, b: seq<Item>)
    ensures WithItems(WithItems(doc, kind, a), kind, b) == WithItems(doc, kind, b)
    ensures ItemsOf(doc, kind) != [] ==> ItemsOf(WithItems(doc, kind, a), kind) == a
  {
  }

  lemma ResumeItemsNothing(r: Result<Run>)
    ensures ResumeItems([], [], r) == r
  {
    if r.Success? {
      assert [] + r.value.items == r.value.items;
      assert [] + r.value.out == r.value.out;
    }
  }

  /** Resuming twice is resuming once after both prefixes. */
  lemma ResumeItemsTwice(done: seq<Item>, out: seq<Flat>, more: seq<Item>, moreOut: seq<Flat>, r: Result<Run>)
    ensures ResumeItems(done, out, ResumeItems(more, moreOut, r)) == ResumeItems(done + more, out + moreOut, r)
  {
    if r.Success? {
      assert done + (more + r.value.items) == (done + more) + r.value.items;
      assert out + (moreOut + r.value.out) == (out + moreOut) + r.value.out;
    }
  }

  /** One turn of the items loop: item `i` was processed into `p`. */
  lemma CleanItemsAdvance(sanitize: string -> string, nodes: seq<Item>, i: nat, done: seq<Item>, emitted: seq<Flat>,
                          contentId0: int, commentId0: int, contentId: int, counter: int, p: Processed)
    requires i < |nodes|
    requires CleanItems(sanitize, nodes, contentId0, commentId0)
      == ResumeItems(done, emitted, CleanItems(sanitize, nodes[i..], contentId - 1, counter))
    requires TransformItem(sanitize, nodes[i], contentId, counter) == Success(p)
    ensures CleanItems(sanitize, nodes, contentId0, commentId0)
      == ResumeItems(done + [p.item], emitted + p.walk.out, CleanItems(sanitize, nodes[i + 1..], contentId, p.walk.next))
  {
    assert nodes[i..][0] == nodes[i] && nodes[i..][1..] == nodes[i + 1..];
    ResumeItemsTwice(done, emitted, [p.item], p.walk.out, CleanItems(sanitize, nodes[i + 1..], contentId, p.walk.next));
  }

  /** Replacing the first element after `done`. */
  lemma ReplaceNext<T>(done: seq<T>, rest: seq<T>, x: T)
    requires rest != []
    ensures (done + rest)[|done| := x] == (done + [x]) + rest[1..]
  {
  }

  // ------------------------------------------------------------------ class

  class ExportFormatter {
    const sanitize: string -> string
    const filePath: string
    const outputFolder: string
    var doc: Document
    var comments: seq<Flat>
    var commentId: int
    var contentId: int

    function Snapshot(): State
      reads this
    {
      State(doc, comments, contentId, commentId)
    }

    /** `__init__`: the comment counter starts at 0 and the content counter at
        `lastWpId + 1`. */
    constructor (sanitize: string -> string, filePath: string, outputFolder: string, lastWpId: int)
      ensures this.sanitize == sanitize && this.filePath == filePath && this.outputFolder == outputFolder
      ensures doc == Document([], None, None) && comments == []
      ensures commentId == 0 && contentId == lastWpId + 1
    {
      this.sanitize := sanitize;
      this.filePath := filePath;
      this.outputFolder := outputFolder;
      doc := Document([], None, None);
      comments := [];
      commentId := 0;
      contentId := lastWpId + 1;
    }

    /** `convert_to_wp_format`: true exactly when every step succeeds; the
        documents that would be written are returned in `written`. */
    method ConvertToWpFormat(fileExists: bool, parsed: Document) returns (ok: bool, written: Option<Output>)
      modifies this
      ensures var r := Convert(sanitize, fileExists, filePath, parsed, old(Snapshot()));
        ok == r.Success? && ok == written.Some? &&
        (ok ==> Snapshot() == r.value.state && written.value == r.value.files)
    {
      written := None;
      var loaded := LoadData(fileExists, filePath, parsed);
      if loaded.Failure? {
        return false, None;
      }
      doc := loaded.value;
      ok := CleanContent("post");
      if !ok {
        return;
      }
      ok := CleanContent("page");
      if !ok {
        return;
      }
      var files := CreateFiles(filePath, Snapshot());
      if files.Failure? {
        return false, None;
      }
      written := Some(files.value);
    }

    /** `_clean_content`: processes the items of one kind in document order,
        each in place, raising the content counter before each. */
    method CleanContent(name: string) returns (ok: bool)
      modifies this
      ensures var r := CleanKind(sanitize, name, old(Snapshot()));
        ok == r.Success? && (ok ==> Snapshot() == r.value)
    {
      var which := KindOf(name);
      if which.None? {
        return false;
      }
      var kind := which.value;
      var nodes := ItemsOf(doc, kind);
      var items := nodes;
      ghost var done: seq<Item> := [];
      ghost var emitted: seq<Flat> := [];
      var i := 0;
      ResumeItemsNothing(CleanItems(sanitize, nodes, contentId, commentId));
      assert nodes[0..] == nodes && comments == old(comments) + [];
      WithItemsTwice(old(doc), kind, nodes, nodes);
      while i < |nodes|
        invariant 0 <= i <= |nodes| && |done| == i
        invariant items == done + nodes[i..]
        invariant doc == WithItems(old(doc), kind, items)
        invariant comments == old(comments) + emitted
        invariant CleanItems(sanitize, nodes, old(contentId), old(commentId))
          == ResumeItems(done, emitted, CleanItems(sanitize, nodes[i..], contentId, commentId))
      {
        ghost var counter := commentId;
        contentId := contentId + 1;
        var processed;
        ok, processed := ProcessNode(nodes[i]);
        if !ok {
          assert CleanItems(sanitize, nodes[i..], contentId - 1, counter).Failure?;
          return;
        }
        ghost var p := TransformItem(sanitize, nodes[i], contentId, counter).value;
        CleanItemsAdvance(sanitize, nodes, i, done, emitted, old(contentId), old(commentId), contentId, counter, p);
        ReplaceNext(done, nodes[i..], processed);
        assert nodes[i..][1..] == nodes[i + 1..];
        WithItemsTwice(old(doc), kind, items, items[i := processed]);
        items := items[i := processed];
        doc := WithItems(doc, kind, items);
        done := done + [processed];
        AppendThree(old(comments), emitted, p.walk.out);
        emitted := emitted + p.walk.out;
        i := i + 1;
      }
      assert nodes[i..] == [] && items == done;
      assert done + [] == done && emitted + [] == emitted;
      ok := true;
    }

    /** `_process_node`: edits one item; the caller writes it back in place. */
    method ProcessNode(node: Item) returns (ok: bool, processed: Item)
      modifies this
      ensures var r := TransformItem(sanitize, node, old(contentId), old(commentId));
        ok == r.Success? &&
        (ok ==> processed == r.value.item && commentId == r.value.walk.next &&
                comments == old(comments) + r.value.walk.out)
      ensures doc == old(doc) && contentId == old(contentId)
    {
      processed := node;
      var fields := node.fields;
      var removed := RemoveFirst(fields, "origin");
      if removed.Failure? { return false, node; }
      removed := RemoveFirst(removed.value, "slug");
      if removed.Failure? { return false, node; }
      removed := RemoveFirst(removed.value, "created_at");
      if removed.Failure? { return false, node; }
      removed := RemoveFirst(removed.value, "modified_at");
      if removed.Failure? { return false, node; }
      fields := removed.value + [ImportIdField(contentId)];
      var cleaned := CleanHtml(sanitize, fields);
      if cleaned.Failure? { return false, node; }
      processed := Item(cleaned.value, node.comments);
      if node.comments.Some? && CountGroup(node.comments.value) > 0 {
        processed := Item(cleaned.value, None);
        ok := ProcessComments(node.comments.value, "comments");
        return;
      }
      ok := true;
    }

    /** `_process_comments`: moves each comment of a container, in order, to
        the comments document, then walks its replies. */
    method ProcessComments(group: seq<Node>, name: string) returns (ok: bool)
      modifies this
      decreases CountGroup(group), 1
      ensures var r := FlattenGroup(sanitize, group, old(contentId),
                                    if name == "replies" then Some(old(commentId)) else None, old(commentId));
        ok == r.Success? && (ok ==> commentId == r.value.next && comments == old(comments) + r.value.out)
      ensures doc == old(doc) && contentId == old(contentId)
    {
      var parent := if name == "replies" then Some(commentId) else None;
      var i := 0;
      ghost var emitted: seq<Flat> := [];
      assert group[0..] == group && comments == old(comments) + [];
      ResumeNothing(FlattenGroup(sanitize, group, contentId, parent, commentId));
      while i < |group|
        invariant 0 <= i <= |group|
        invariant doc == old(doc) && contentId == old(contentId)
        invariant comments == old(comments) + emitted
        invariant FlattenGroup(sanitize, group, contentId, parent, old(commentId))
          == Resume(emitted, FlattenGroup(sanitize, group[i..], contentId, parent, commentId))
      {
        assert group[i..][0] == group[i] && group[i..][1..] == group[i + 1..];
        ghost var counter := commentId;
        CountNodeIn(group, i);
        ok := MoveComment(group[i], parent);
        if !ok {
          return;
        }
        ghost var w := FlattenNode(sanitize, group[i], contentId, parent, counter).value;
        ResumeTwice(emitted, w.out, FlattenGroup(sanitize, group[i + 1..], contentId, parent, commentId));
        AppendThree(old(comments), emitted, w.out);
        emitted := emitted + w.out;
        i := i + 1;
      }
      ok := true;
    }

    /** One child of a container in the loop of `_process_comments`: a text
        node is skipped; a comment takes the next comment id, loses its
        `status`, gets its body sanitized and its stamps, is appended to the
        comments document, and then has its replies walked when they hold
        any comment. */
    method MoveComment(node: Node, parent: Option<int>) returns (ok: bool)
      modifies this
      decreases CountNode(node), 0
      ensures var r := FlattenNode(sanitize, node, old(contentId), parent, old(commentId));
        ok == r.Success? && (ok ==> commentId == r.value.next && comments == old(comments) + r.value.out)
      ensures doc == old(doc) && contentId == old(contentId)
    {
      if node.Text? {
        return true;
      }
      commentId := commentId + 1;
      var flat := ProcessComment(sanitize, node.fields, contentId, commentId, parent);
      if flat.Failure? {
        return false;
      }
      comments := comments + [flat.value];
      ok := true;
      if CountGroup(node.replies) > 0 {
        ghost var id := commentId;
        ok := ProcessComments(node.replies, "replies");
        if ok {
          AppendThree(old(comments), [flat.value],
                      FlattenGroup(sanitize, node.replies, contentId, Some(id), id).value.out);
        }
      }
    }
  }
}
