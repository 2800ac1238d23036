/** The parsed export document, reduced to what the converter reads and
    writes: leaf fields, content items, and comment trees. */
module Xml {

  datatype Option<+T> = None | Some(value: T)

  /** The exceptions that stop a conversion run. */
  datatype Error =
    | MissingChild(name: string)      // an attribute lookup such as `node.slug` found no such child
    | NotAnElement                    // a text node used as an element (`NavigableString.__getattr__`)
    | UnsupportedNode(name: string)   // `NotImplementedError` for a kind other than post or page
    | FileNotFound
    | NotXml                          // the file's suffix is not `.xml`
    | NotOverBlog                     // the structure check refused the document
    | MissingContainer(name: string)  // `posts` or `pages` absent when the files are assembled
    | NoString(name: string)          // a child's `.string` is None where a string is needed

  datatype Result<+T> = Success(value: T) | Failure(error: Error) {
    predicate IsFailure() { Failure? }
    function PropagateFailure<U>(): Result<U> requires Failure? { Failure(error) }
    function Extract(): T requires Success? { value }
  }

  /** A leaf child element: its tag and its `.string`, which is None when the
      element does not hold exactly one string. */
  datatype Field = Field(name: string, text: Option<string>)

  /** A child of a `comments` or `replies` container: a comment element, whose
      nested `replies` container is `replies` (an absent container and an
      empty one are the same here), or a text node such as the whitespace
      between elements. */
  datatype Node =
    | Comment(fields: seq<Field>, replies: seq<Node>)
    | Text(text: string)

  /** A `post` or `page` element: its leaf fields in document order and its
      `comments` container, if it has one. */
  datatype Item = Item(fields: seq<Field>, comments: Option<seq<Node>>)

  /** The export document: the leaf fields under the root that precede the
      containers, then the `posts` and `pages` containers. */
  datatype Document = Document(header: seq<Field>, posts: Option<seq<Item>>, pages: Option<seq<Item>>)

  // ---------------------------------------------------------------- fields

  /** Position of the first field called `name`, or `|fields|` when there is none. */
  function FieldIndex(fields: seq<Field>, name: string): (i: nat)
    ensures i <= |fields|
    ensures i < |fields| ==> fields[i].name == name
    ensures forall j :: 0 <= j < i ==> fields[j].name != name
  {
    if fields == [] then 0
    else if fields[0].name == name then 0
    else 1 + FieldIndex(fields[1..], name)
  }

  predicate HasField(fields: seq<Field>, name: string)
  {
    FieldIndex(fields, name) < |fields|
  }

  /** `node.<name>.decompose()`: removes the first child called `name`, and
      fails as the source does when there is none. */
  function RemoveFirst(fields: seq<Field>, name: string): (r: Result<seq<Field>>)
    ensures r.Success? <==> HasField(fields, name)
    ensures r.Failure? ==> r.error == MissingChild(name)
  {
    if fields == [] then Failure(MissingChild(name))
    else if fields[0].name == name then Success(fields[1..])
    else
      var rest :- RemoveFirst(fields[1..], name);
      Success([fields[0]] + rest)
  }

  /** What is left is everything before the first `name` child and everything after it. */
  lemma {:induction false} RemoveFirstValue(fields: seq<Field>, name: string)
    requires HasField(fields, name)
    ensures var i := FieldIndex(fields, name);
      RemoveFirst(fields, name).value == fields[..i] + fields[i + 1..]
  {
    if fields[0].name != name {
      RemoveFirstValue(fields[1..], name);
      assert fields[1..][..FieldIndex(fields[1..], name)] == fields[1..FieldIndex(fields, name)];
    }
  }

  /** `if node.<name>: node.<name>.decompose()`. */
  function RemoveIfPresent(fields: seq<Field>, name: string): (r: seq<Field>)
    ensures !HasField(fields, name) ==> r == fields
    ensures HasField(fields, name) ==> r == RemoveFirst(fields, name).value
  {
    match RemoveFirst(fields, name)
    case Success(rest) => rest
    case Failure(_) => fields
  }

  /** `node.<name>.string`: fails when there is no child called `name`. */
  function StringOf(fields: seq<Field>, name: string): (r: Result<Option<string>>)
    ensures r.Success? <==> HasField(fields, name)
    ensures r.Failure? ==> r.error == MissingChild(name)
    ensures r.Success? ==> r.value == fields[FieldIndex(fields, name)].text
  {
    var i := FieldIndex(fields, name);
    if i < |fields| then Success(fields[i].text) else Failure(MissingChild(name))
  }

  /** `node.<name>.string = text`: replaces the first child called `name` by
      one holding `text`; fails when there is none. */
  function SetString(fields: seq<Field>, name: string, text: string): (r: Result<seq<Field>>)
    ensures r.Success? <==> HasField(fields, name)
    ensures r.Failure? ==> r.error == MissingChild(name)
  {
    if fields == [] then Failure(MissingChild(name))
    else if fields[0].name == name then Success([Field(name, Some(text))] + fields[1..])
    else
      var rest :- SetString(fields[1..], name, text);
      Success([fields[0]] + rest)
  }

  /** Only the first `name` child changes, and it then holds `text`. */
  lemma {:induction false} SetStringValue(fields: seq<Field>, name: string, text: string)
    requires HasField(fields, name)
    ensures SetString(fields, name, text).value == fields[FieldIndex(fields, name) := Field(name, Some(text))]
  {
    if fields[0].name != name {
      SetStringValue(fields[1..], name, text);
    }
  }

  /** The number of fields called `name`. */
  function Count(fields: seq<Field>, name: string): nat
  {
    if fields == [] then 0 else (if fields[0].name == name then 1 else 0) + Count(fields[1..], name)
  }

  lemma {:induction false} CountAppend(a: seq<Field>, b: seq<Field>, name: string)
    ensures Count(a + b, name) == Count(a, name) + Count(b, name)
  {
    if a == [] {
      assert a + b == b;
    } else {
      assert (a + b)[0] == a[0] && (a + b)[1..] == a[1..] + b;
      CountAppend(a[1..], b, name);
    }
  }

  lemma {:induction false} HasFieldCount(fields: seq<Field>, name: string)
    ensures HasField(fields, name) <==> Count(fields, name) > 0
  {
    if fields != [] {
      HasFieldCount(fields[1..], name);
    }
  }

  /** Cutting `fields` around position `i`. */
  lemma CountAround(fields: seq<Field>, i: nat, name: string)
    requires i < |fields|
    ensures Count(fields, name)
      == Count(fields[..i] + fields[i + 1..], name) + (if fields[i].name == name then 1 else 0)
  {
    assert fields == fields[..i] + ([fields[i]] + fields[i + 1..]);
    CountAppend(fields[..i], [fields[i]] + fields[i + 1..], name);
    CountAppend([fields[i]], fields[i + 1..], name);
    CountAppend(fields[..i], fields[i + 1..], name);
    assert [fields[i]][1..] == [];
  }

  /** The first field called `name` is at `k` when `k` holds one and none comes before. */
  lemma {:induction false} FieldIndexIs(fields: seq<Field>, name: string, k: nat)
    requires k <= |fields| && (k < |fields| ==> fields[k].name == name)
    requires forall j :: 0 <= j < k ==> fields[j].name != name
    ensures FieldIndex(fields, name) == k
  {
    if fields != [] && k > 0 {
      FieldIndexIs(fields[1..], name, k - 1);
    }
  }

  /** Removing a child takes exactly one field of that name and keeps the
      number of fields of every other name. */
  lemma RemoveFirstCount(fields: seq<Field>, name: string, other: string)
    requires HasField(fields, name)
    ensures Count(RemoveFirst(fields, name).value, other)
      == Count(fields, other) - (if other == name then 1 else 0)
  {
    RemoveFirstValue(fields, name);
    CountAround(fields, FieldIndex(fields, name), other);
  }

  /** Removing a child adds no field. */
  lemma {:induction false} RemoveFirstMembers(fields: seq<Field>, name: string)
    requires HasField(fields, name)
    ensures forall f :: f in RemoveFirst(fields, name).value ==> f in fields
  {
    var i := FieldIndex(fields, name);
    var r := RemoveFirst(fields, name).value;
    RemoveFirstValue(fields, name);
    forall f | f in r
      ensures f in fields
    {
      var j :| 0 <= j < |r| && r[j] == f;
      if j < i {
        assert r[j] == fields[j];
      } else {
        assert r[j] == fields[j + 1];
      }
    }
  }

  /** Removing the child at `i` moves the first child called `other` at most one place. */
  lemma RemoveFirstIndex(fields: seq<Field>, name: string, other: string)
    requires HasField(fields, name) && other != name
    ensures var i := FieldIndex(fields, name);
      var k := FieldIndex(fields, other);
      FieldIndex(RemoveFirst(fields, name).value, other) == if k < i then k else k - 1
  {
    var i := FieldIndex(fields, name);
    var r := RemoveFirst(fields, name).value;
    var k := FieldIndex(fields, other);
    RemoveFirstValue(fields, name);
    if k < i {
      forall j | 0 <= j < k
        ensures r[j].name != other
      {
        assert r[j] == fields[j];
      }
      assert r[k] == fields[k];
      FieldIndexIs(r, other, k);
    } else {
      assert k != i;
      forall j | 0 <= j < k - 1
        ensures r[j].name != other
      {
        if j < i {
          assert r[j] == fields[j];
        } else {
          assert r[j] == fields[j + 1];
        }
      }
      if k < |fields| {
        assert r[k - 1] == fields[k];
      }
      FieldIndexIs(r, other, k - 1);
    }
  }

  /** Removing a child leaves the string of every other child as it was. */
  lemma RemoveFirstOther(fields: seq<Field>, name: string, other: string)
    requires HasField(fields, name) && other != name
    ensures StringOf(RemoveFirst(fields, name).value, other) == StringOf(fields, other)
  {
    RemoveFirstIndex(fields, name, other);
    var i := FieldIndex(fields, name);
    var k := FieldIndex(fields, other);
    var r := RemoveFirst(fields, name).value;
    RemoveFirstValue(fields, name);
    if k < i {
      assert r[k] == fields[k];
    } else if k < |fields| {
      assert r[k - 1] == fields[k];
    }
  }

  /** Setting a child's string keeps the number of fields of every name, and
      the child then reads back the new string. */
  lemma SetStringKeeps(fields: seq<Field>, name: string, text: string, other: string)
    requires HasField(fields, name)
    ensures Count(SetString(fields, name, text).value, other) == Count(fields, other)
    ensures StringOf(SetString(fields, name, text).value, name) == Success(Some(text))
  {
    var i := FieldIndex(fields, name);
    var r := SetString(fields, name, text).value;
    SetStringValue(fields, name, text);
    CountAround(fields, i, other);
    CountAround(r, i, other);
    assert r[..i] + r[i + 1..] == fields[..i] + fields[i + 1..];
    assert forall j :: 0 <= j < i ==> r[j] == fields[j];
    FieldIndexIs(r, name, i);
  }

  /** Appending a child of another name leaves the string and the number of
      `other` children as they were. */
  lemma AppendFieldOther(fields: seq<Field>, x: Field, other: string)
    requires x.name != other
    ensures StringOf(fields + [x], other) == StringOf(fields, other)
    ensures Count(fields + [x], other) == Count(fields, other)
  {
    var l := fields + [x];
    var k := FieldIndex(fields, other);
    assert forall j :: 0 <= j < |fields| ==> l[j] == fields[j];
    if k < |fields| {
      FieldIndexIs(l, other, k);
    } else {
      FieldIndexIs(l, other, |l|);
    }
    CountAppend(fields, [x], other);
    assert [x][1..] == [];
  }

  /** Setting the string of the first `name` child leaves the string of every
      other child as it was. */
  lemma SetStringOther(fields: seq<Field>, name: string, text: string, other: string)
    requires HasField(fields, name) && other != name
    ensures StringOf(SetString(fields, name, text).value, other) == StringOf(fields, other)
  {
    var i := FieldIndex(fields, name);
    var r := SetString(fields, name, text).value;
    var k := FieldIndex(fields, other);
    SetStringValue(fields, name, text);
    assert forall j :: 0 <= j < |fields| && j != i ==> r[j] == fields[j];
    FieldIndexIs(r, other, k);
  }

  // ---------------------------------------------------------- comment trees

  function CountNode(n: Node): nat
  {
    match n
    case Text(_) => 0
    case Comment(_, replies) => 1 + CountGroup(replies)
  }

  /** The number of comment elements in a container, replies included
      (`len(container.find_all('comment'))`). */
  function CountGroup(g: seq<Node>): nat
  {
    if g == [] then 0 else CountNode(g[0]) + CountGroup(g[1..])
  }

  /** The container has at least one element child. */
  predicate HasComment(g: seq<Node>)
  {
    exists i :: 0 <= i < |g| && g[i].Comment?
  }

  lemma {:induction false} HasCommentCount(g: seq<Node>)
    ensures HasComment(g) <==> CountGroup(g) > 0
  {
    if g != [] {
      HasCommentCount(g[1..]);
      assert HasComment(g) <==> g[0].Comment? || HasComment(g[1..]) by {
        if HasComment(g) && !g[0].Comment? {
          var i :| 0 <= i < |g| && g[i].Comment?;
          assert g[1..][i - 1].Comment?;
        }
        if HasComment(g[1..]) {
          var i :| 0 <= i < |g[1..]| && g[1..][i].Comment?;
          assert g[i + 1].Comment?;
        }
      }
    }
  }

  /** A child holds no more comments than the container it sits in. */
  lemma {:induction false} CountNodeIn(g: seq<Node>, i: nat)
    requires i < |g|
    ensures CountNode(g[i]) <= CountGroup(g)
  {
    if i > 0 {
      CountNodeIn(g[1..], i - 1);
    }
  }

  /** Every node of the tree is a comment element: no text node anywhere. */
  predicate ElementsOnly(g: seq<Node>)
  {
    forall i :: 0 <= i < |g| ==> g[i].Comment? && ElementsOnly(g[i].replies)
  }

  // ------------------------------------------------------- pre-order listing

  /** One comment of a tree in a pre-order listing: its own fields and the
      position, in the listing, of the comment whose `replies` it sits in
      (None for a comment of the container the listing starts from, unless
      that container itself has a parent). */
  datatype Visit = Visit(fields: seq<Field>, parent: Option<nat>)

  /** The comments of `n` in depth-first pre-order, each before its replies;
      `base` is the position of `n`'s first comment in the whole listing. */
  function ListNode(n: Node, parent: Option<nat>, base: nat): seq<Visit>
  {
    match n
    case Text(_) => []
    case Comment(fields, replies) => [Visit(fields, parent)] + ListGroup(replies, Some(base), base + 1)
  }

  function ListGroup(g: seq<Node>, parent: Option<nat>, base: nat): seq<Visit>
  {
    if g == [] then []
    else
      var first := ListNode(g[0], parent, base);
      first + ListGroup(g[1..], parent, base + |first|)
  }

  /** The pre-order listing of the comments under a content item's `comments` container. */
  function PreOrder(g: seq<Node>): seq<Visit>
  {
    ListGroup(g, None, 0)
  }

  lemma {:induction false} ListNodeLength(n: Node, parent: Option<nat>, base: nat)
    ensures |ListNode(n, parent, base)| == CountNode(n)
  {
    match n
    case Text(_) =>
    case Comment(_, replies) => ListGroupLength(replies, Some(base), base + 1);
  }

  /** The listing holds every comment of the tree once. */
  lemma {:induction false} ListGroupLength(g: seq<Node>, parent: Option<nat>, base: nat)
    ensures |ListGroup(g, parent, base)| == CountGroup(g)
  {
    if g != [] {
      ListNodeLength(g[0], parent, base);
      ListGroupLength(g[1..], parent, base + CountNode(g[0]));
    }
  }

  /** Every parent position in `l` is `parent` or an earlier position of the
      listing that `l` starts at position `base` of. */
  ghost predicate ParentsEarlier(l: seq<Visit>, parent: Option<nat>, base: nat)
  {
    forall k :: 0 <= k < |l| && l[k].parent.Some? ==>
      l[k].parent == parent || base <= l[k].parent.value < base + k
  }

  lemma {:induction false} ListNodeParents(n: Node, parent: Option<nat>, base: nat)
    ensures ParentsEarlier(ListNode(n, parent, base), parent, base)
  {
    match n
    case Text(_) =>
    case Comment(_, replies) =>
      ListGroupParents(replies, Some(base), base + 1);
      var l := ListNode(n, parent, base);
      var r := ListGroup(replies, Some(base), base + 1);
      forall k | 1 <= k < |l| && l[k].parent.Some?
        ensures l[k].parent == parent || base <= l[k].parent.value < base + k
      {
        assert l[k] == r[k - 1];
      }
  }

  /** A reply is listed after the comment it answers: every parent position
      is the container's own parent or an earlier position of the listing. */
  lemma {:induction false} ListGroupParents(g: seq<Node>, parent: Option<nat>, base: nat)
    ensures ParentsEarlier(ListGroup(g, parent, base), parent, base)
  {
    if g != [] {
      var first := ListNode(g[0], parent, base);
      ListNodeParents(g[0], parent, base);
      ListGroupParents(g[1..], parent, base + |first|);
      var l := ListGroup(g, parent, base);
      var rest := ListGroup(g[1..], parent, base + |first|);
      forall k | 0 <= k < |l| && l[k].parent.Some?
        ensures l[k].parent == parent || base <= l[k].parent.value < base + k
      {
        if k < |first| {
          assert l[k] == first[k];
        } else {
          assert l[k] == rest[k - |first|];
        }
      }
    }
  }

  /** In a content item's listing a comment without a parent is one of the
      item's own comments, and every parent comes earlier. */
  lemma PreOrderParents(g: seq<Node>)
    ensures |PreOrder(g)| == CountGroup(g)
    ensures forall k :: 0 <= k < |PreOrder(g)| && PreOrder(g)[k].parent.Some? ==>
      PreOrder(g)[k].parent.value < k
  {
    ListGroupLength(g, None, 0);
    ListGroupParents(g, None, 0);
  }

  // ------------------------------------------------------ the comments document

  /** A comment as it is appended to the comments document:
      its remaining fields, then `post_id`, `comment_id` and, for a reply,
      `parent_id`. */
  datatype Flat = Flat(fields: seq<Field>, postId: int, commentId: int, parentId: Option<int>)

  /** The comments appended while walking a container, and the comment
      counter afterwards. */
  datatype Walk = Walk(out: seq<Flat>, next: int)

  /** The walk of a container after `out` was already emitted. */
  function Resume(out: seq<Flat>, r: Result<Walk>): Result<Walk>
  {
    match r
    case Failure(e) => Failure(e)
    case Success(w) => Success(Walk(out + w.out, w.next))
  }

  lemma ResumeNothing(r: Result<Walk>)
    ensures Resume([], r) == r
  {
    if r.Success? {
      assert [] + r.value.out == r.value.out;
    }
  }

  lemma ResumeTwice(out: seq<Flat>, more: seq<Flat>, r: Result<Walk>)
    ensures Resume(out, Resume(more, r)) == Resume(out + more, r)
  {
    if r.Success? {
      assert out + (more + r.value.out) == (out + more) + r.value.out;
    }
  }

  lemma AppendThree<T>(a: seq<T>, b: seq<T>, c: seq<T>)
    ensures (a + b) + c == a + (b + c)
  {
  }
}
