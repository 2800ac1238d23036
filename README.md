# OverBlog to WordPress export converter, modelled in Dafny

The converter reads an OverBlog XML export and writes three documents that
the WordPress plugin WP All Import can load: the posts, the pages, and every
comment and reply moved out of them into one flat list. The content items
are numbered with `import_id` children, and each comment is stamped with
three ids:

- `post_id`: the `import_id` of its item.
- `comment_id`: a document-wide comment counter.
- `parent_id`: only for a reply, the id of the comment it answers.

The repository holds two versions of the conversion, and both are modelled.

- **`ExportFormatter`** (`package/api/formatter.py`), module `Formatter`:
  - It checks the export: the file exists, the suffix is `.xml`, there is a
    `posts` or `pages` container, and the first `origin` field, if there is
    one, names `OB`.
  - It processes the posts, then the pages, each item in place.
  - It walks comment trees recursively, skipping text nodes.
  - It names the three output files.
- **The first script** (`main.py`), module `Script`:
  - It does the same on module-level state, with the content counter
    starting at 7.
  - It removes `author` from items, and `author_url` and `author_ip` from
    comments.
  - It stamps replies differently (see Findings).

Each source file is modelled in the form it has.

- **Pure steps are functions**: the structure check, loading, the file
  name, the edits of one item or one comment, and the comment walk.
- **Stateful code is a class.** `Formatter.ExportFormatter` and
  `Script.Converter` hold, as fields:
  - the parsed document;
  - the comments document, a `seq<Flat>`;
  - the two counters.

  Their methods run the source's loops (`_clean_content`, `_process_node`,
  `_process_comments`, `extract_comments`, `transform`, the post and page
  loops). Each method is proved to compute the function that specifies it,
  and to leave the rest of the state alone.

The properties are proved about those functions, in the `*Properties`
modules. They cover:

- when a run fails, with an if-and-only-if for each step;
- what each edit does to an item's children;
- the numbering of items and comments across a whole run;
- both versions' comment walks equal an independent reference, which
  emits a pre-order listing of the comment tree;
- both versions' items loops against a reference listing of the item id
  every comment must carry;
- the names of the output files.

Supporting modules:

- `Walks`: the comment walk with the emission of one comment left as a
  parameter, and the reference listing it is proved against.
- `Numbering`: the items loop with the handling of one item left as a
  parameter, and the numbering every run hands out.
- `Xml`: the document tree and the BeautifulSoup operations the code uses.
  These are `decompose`, `.string`, `find_all('comment')` and `extract`.
- `Text`: `str.split`, `str(int)` and the `pathlib` name, stem and suffix.

**Where the code, its own comments and the two versions part ways:**

- **First `import_id` in the formatter.** `__init__` sets the content
  counter to `last_wp_id + 1`. The comment on formatter.py:34 says item ids
  start from that value. But `_clean_content` raises the counter before each
  item (formatter.py:111), so the first post gets `last_wp_id + 2`.
  `FormatterProperties.ConvertNumbering` states the ids as the code hands
  them out.
- **First `import_id` in the script.** `main.py` starts its counter at 7,
  so its first post gets 8.
- **Removed item fields.** `_process_node` removes `origin`, `slug`,
  `created_at` and `modified_at` and keeps `author` (formatter.py:150-153);
  only the script removes `author` (main.py:81).
- **Removed comment fields.** `_process_comments` removes only `status` and
  keeps `author_url` and `author_ip` (formatter.py:187-188); only the script
  removes them (main.py:42-47).

## Model

| member | source | states |
|---|---|---|
| Text.Split | package/api/formatter.py:73 | `str.split(',')` always yields at least one piece and no piece holds the separator |
| Text.JoinSplit | package/api/formatter.py:73 | splitting loses nothing: joining the pieces with the separator gives the string back |
| Text.SplitHasToken | package/api/formatter.py:73 | `'OB' in s.split(',')` holds exactly when `OB` stands in `s` between commas or the ends of `s` |
| Text.DecimalRoundTrip | package/api/formatter.py:157 | reading back what `str(id)` writes gives the id, so a stamp written as text carries the number |
| Text.DecimalInjective | package/api/formatter.py:197 | distinct ids are written as distinct strings |
| Text.Name | package/api/formatter.py:86 | the file name is the tail of the path after its last `/` and holds no `/` |
| Text.StemSuffix | package/api/formatter.py:138 | a file name is its stem followed by its suffix |
| Text.SuffixIsXml | package/api/formatter.py:86 | the suffix is `.xml` exactly when the name ends in `.xml` after at least one other character |
| Xml.FieldIndex | package/api/formatter.py:150 | the first child of a name is found: nothing before it has that name |
| Xml.RemoveFirst | package/api/formatter.py:150-153 | `decompose` on a child succeeds exactly when the child is there, and otherwise fails as attribute access on None does |
| Xml.RemoveFirstValue | package/api/formatter.py:150 | `decompose` removes exactly the first child of that name and keeps the others in order |
| Xml.RemoveFirstCount | package/api/formatter.py:150-153 | removing a child takes one child of that name and keeps the number of children of every other name |
| Xml.RemoveFirstMembers | package/api/formatter.py:150 | removing a child adds no child |
| Xml.RemoveFirstOther | package/api/formatter.py:150-153 | removing a child leaves the string of every child of another name |
| Xml.RemoveIfPresent | package/api/formatter.py:187-188 | `if node.x: node.x.decompose()` removes the first `x` when there is one and otherwise changes nothing |
| Xml.StringOf | package/api/formatter.py:233 | `node.content.string` is the first `content` child's string, and fails when there is no such child |
| Xml.SetString | package/api/formatter.py:234 | assigning `.string` succeeds exactly when the child is there |
| Xml.SetStringValue | package/api/formatter.py:234 | assigning `.string` changes only the first child of that name, which then holds the new text |
| Xml.SetStringKeeps | package/api/formatter.py:233-234 | after assigning `.string` the child reads back the new text and no child is added or removed |
| Xml.SetStringOther | package/api/formatter.py:234 | assigning one child's string leaves every other child's string |
| Xml.AppendFieldOther | package/api/formatter.py:156-158 | appending `import_id` leaves the string and number of every other child |
| Xml.HasCommentCount | package/api/formatter.py:164-165 | `len(node.find_all('comment')) > 0` exactly when the container holds a comment element, under the schema where every element under a `comments` or `replies` container is a `comment` |
| Xml.CountNodeIn | package/api/formatter.py:213 | a comment holds no more comments than the container it sits in |
| Xml.ListGroupLength | package/api/formatter.py:164 | the pre-order listing holds as many comments as `find_all('comment')` counts, under the schema where every element under a `comments` or `replies` container is a `comment` |
| Xml.ListGroupParents | package/api/formatter.py:204-218 | in the listing, a reply's parent is its container's comment or an earlier listed comment |
| Xml.PreOrderParents | package/api/formatter.py:213-218 | in an item's listing, every reply comes after the comment it answers |
| Formatter.Find | package/api/formatter.py:73 | `data.find(name)` returns an element of that name |
| Formatter.CheckFileStructure | package/api/formatter.py:64-76 | valid exactly when there is a `posts` or `pages` container and the first `origin`, if any, has a non-empty string with `OB` among its comma-separated tokens |
| Formatter.LoadData | package/api/formatter.py:78-97 | loading succeeds exactly when the file exists, its suffix is `.xml` and the structure check passes, and then yields the parsed document |
| Formatter.KindOf | package/api/formatter.py:105-106 | `post` and `page` are the only node names `_clean_content` accepts |
| Formatter.ExportFormatter.constructor | package/api/formatter.py:20-34 | the comment counter starts at 0, the content counter at `last_wp_id + 1`, and no comment has been moved |
| Formatter.ExportFormatter.ConvertToWpFormat | package/api/formatter.py:36-49 | returns True exactly when load, posts, pages and files all succeed, and then the state and the three documents are those of the conversion |
| Formatter.ExportFormatter.CleanContent | package/api/formatter.py:99-112 | processes every item of the named kind in document order, in place, and leaves the state the items loop specifies; fails on any other name |
| Formatter.ExportFormatter.ProcessNode | package/api/formatter.py:143-168 | edits one item as specified, appends its comments to the comments document, raises the comment counter, and leaves the document and content counter alone |
| Formatter.ExportFormatter.ProcessComments | package/api/formatter.py:170-220 | moves every comment of a container, replies included, in order, with the stamps the walk specifies |
| Formatter.ExportFormatter.MoveComment | package/api/formatter.py:180-220 | one turn of the comments loop: skips a text node, else moves the comment and then walks its replies |
| Walks.StampSpec | package/api/formatter.py:183-207 | the reference walk emits each listed comment at its own position with id `c0 + 1 + k`, and succeeds exactly when every listed comment can be emitted |
| FormatterProperties.FlattenNodeIsWalk | package/api/formatter.py:179-220 | moving one comment is the generic walk with `_process_comments`' own emitter |
| FormatterProperties.FlattenGroupIsWalk | package/api/formatter.py:170-220 | `_process_comments` is the generic walk with its own emitter |
| Walks.WalkNodeListing | package/api/formatter.py:179-220 | walking one comment equals the reference walk of that comment's listing |
| Walks.WalkGroupListing | package/api/formatter.py:170-220 | walking a container equals the reference walk of its pre-order listing, whatever the emitter |
| FormatterProperties.FlattenGroupListing | package/api/formatter.py:170-220 | `_process_comments` on a container equals the reference walk of its listing |
| Walks.WalkIsPreOrder | package/api/formatter.py:170-220 | the walk of an item's comments succeeds exactly when every listed comment can be emitted, and emits them in pre-order with consecutive ids |
| FormatterProperties.FlattenIsPreOrder | package/api/formatter.py:170-220 | the comments moved out of an item are its pre-order listing: the k-th listed comment is emitted k-th with id `c0 + 1 + k` |
| FormatterProperties.FlattenEmitsAll | package/api/formatter.py:170-220 | the comments of an item can be moved exactly when every listed comment can be emitted |
| FormatterProperties.ProcessCommentSpec | package/api/formatter.py:183-207 | one comment is moved exactly when it has a body; it then carries the given stamps and its sanitized body, loses one `status` if it has one, keeps the number of every other child, and every child other than `content` and `status` keeps its string |
| FormatterProperties.EmitterStampsAsTold | package/api/formatter.py:191-207 | the emitter stamps the item id and the comment and parent ids it is handed |
| Walks.StampNumbering | package/api/formatter.py:183-207 | the reference walk stamps the k-th listed comment with id `c0 + 1 + k`, and each reply with the id of the earlier comment it answers |
| Walks.WalkStamps | package/api/formatter.py:170-220 | for any emitter that stamps as told, the walk of an item's comments stamps them in order, with replies pointing back to their comment |
| FormatterProperties.FlattenStamps | package/api/formatter.py:170-220 | every moved comment carries its item's id and a consecutive comment id; only replies get `parent_id`, which is the id of the comment they answer and comes earlier |
| FormatterProperties.StripSourceSpec | package/api/formatter.py:150-153 | the four removals succeed exactly when origin, slug, created_at and modified_at are all there, take one of each, and leave every other child |
| FormatterProperties.EditFieldsSucceeds | package/api/formatter.py:150-161 | an item's own edits succeed exactly when it has the four removed children and a body |
| FormatterProperties.EditFieldsBody | package/api/formatter.py:156-161 | after the edits the last child is `import_id` holding the content id, and the body is the sanitized `str` of the old body |
| FormatterProperties.EditFieldsOthers | package/api/formatter.py:150-161 | the edits take one of each removed child, add one `import_id`, and leave every other child's string |
| FormatterProperties.TransformItemSucceeds | package/api/formatter.py:143-168 | `_process_node` succeeds exactly when the edits can be made and, if the item has comments, they can all be moved |
| FormatterProperties.TransformItemComments | package/api/formatter.py:163-168 | a non-empty `comments` container is taken out and walked, and an empty one stays; the moved comments carry the item id and consecutive ids |
| FormatterProperties.TransformItemImportId | package/api/formatter.py:156-158 | the processed item ends with `import_id` holding the content id |
| Numbering.PostIdsOfBlocks | package/api/formatter.py:191-192 | in the reference listing, comment `j` of item `k` sits after the comments of the items before it and carries `contentId + 1 + k` |
| Numbering.PostIdsOfInOrder | package/api/formatter.py:108-112 | every listed id is the id of one of the items, and the ids never go down |
| Numbering.PostIdsOfAppend | package/api/formatter.py:43-44 | the listing of the posts followed by the pages is the posts' listing followed by the pages' one, numbered on after the posts |
| Numbering.ProcessedInPlaceCons | package/api/formatter.py:110-112 | an item handled first, in front of the rest handled at their places after it, is the whole run handled in place |
| Numbering.LoopNumbering | package/api/formatter.py:108-112 | for a step that numbers items in turn, the items loop hands items and comments the ids of `RunNumbering`: each item handled at its own place, `import_id`s in order, comment ids without gap, `post_id`s as the reference listing says, and the comments are exactly the items' own walks joined in item order |
| Numbering.TwoRunsJoin | package/api/formatter.py:43-44 | a posts run from comment 0 followed by a pages run from where it stopped gives posts and pages numbered consecutively and comments numbered from 1 with the listing of posts then pages, and the comments are the walks of the posts then the pages joined |
| Numbering.WalkedAppend | package/api/formatter.py:43-44 | the joined walks of two lists of items, the second numbered on from where the first stopped, are the joined walks of the two lists together |
| Numbering.WalkedLength | package/api/formatter.py:108-112 | when every item is handled, the joined walks hold as many comments as the items have |
| Numbering.WalkedBlock | package/api/formatter.py:108-112 | when every item is handled, item `k`'s own comments sit in the joined walks as one block starting after the comments of the items before it |
| Numbering.TwoRunsHandled | package/api/formatter.py:43-44 | two runs with the numbering of `TwoRuns` handle every post and page, and their comments are the joined walks of the posts then the pages |
| Numbering.TwoRunsBlock | package/api/formatter.py:43-44 | in two such runs, item `k` of the posts then the pages is handled, and its own comments sit in the comments file as one block after those of the items before it |
| Numbering.LoopsNumbering | package/api/formatter.py:43-44 | the posts loop then the pages loop, with a step that numbers items in turn, hands out the ids of `TwoRuns` |
| FormatterProperties.EmitAtSucceeds | package/api/formatter.py:201 | a listed comment can be emitted exactly when it has a `content` child |
| FormatterProperties.FlattenSucceeds | package/api/formatter.py:170-220 | the comments of an item can all be moved exactly when every comment element under it has a body; text nodes never stop the walk |
| FormatterProperties.TransformItemSucceedsIff | package/api/formatter.py:143-168 | `_process_node` fails exactly on an item missing a child it needs, whatever the counters |
| FormatterProperties.CleanItemsSucceeds | package/api/formatter.py:108-112 | the items loop goes through exactly when every item can be processed |
| FormatterProperties.CleanItemsIsLoop | package/api/formatter.py:108-112 | the loop of `_clean_content` is the shared items loop with `_process_node` as its step |
| FormatterProperties.ProcessorNumbersInTurn | package/api/formatter.py:143-168 | `_process_node` numbers every item it handles in turn: the item ends with `import_id` holding its content id and its comments carry that id and consecutive ids from the counter |
| FormatterProperties.CleanItemsNumbering | package/api/formatter.py:108-112 | item `k` out is `_process_node` of item `k` in, with content id `contentId + 1 + k` and the comment counter past the earlier items' comments, and ends with `import_id` holding that id; the comments get ids running on from the comment counter without gap, and carry the ids of the reference listing: item `k`'s comments form one block, in item order, all with `post_id` `contentId + 1 + k`, and that block is exactly the comments `_process_node` moved out of item `k` |
| FormatterProperties.CleanKindSpec | package/api/formatter.py:99-112 | an unknown name fails; for `post` or `page` the kind's items are replaced by the processed ones, the other kind and the header stay, comments are appended and both counters raised |
| FormatterProperties.ConvertLoadedSucceeds | package/api/formatter.py:41-49 | after loading, the run succeeds exactly when both containers are there and every item can be processed |
| FormatterProperties.ConvertSucceeds | package/api/formatter.py:36-49 | `convert_to_wp_format` returns True exactly when the file exists with suffix `.xml`, the structure is valid, both containers are there and every item can be processed |
| FormatterProperties.ConvertRuns | package/api/formatter.py:41-45 | the written posts and pages are the two loops' items, and the comments are those of the posts loop, then those of the pages loop |
| FormatterProperties.ConvertFreshItems | package/api/formatter.py:41-45 | from a new formatter the posts loop starts at `last_wp_id + 1` and comment 0, and the pages loop where it stopped |
| FormatterProperties.ConvertFreshComments | package/api/formatter.py:41-45 | from a new formatter the comments file holds the posts loop's comments, then the pages loop's |
| FormatterProperties.ConvertNumbering | package/api/formatter.py:20-49 | from a new formatter, post `k` is `_process_node` of the k-th post with `import_id` `last_wp_id + 2 + k`, page `k` likewise with `last_wp_id + 2 + |posts| + k`; comments get ids 1, 2, ... without gap and carry the reference listing of the posts then the pages: each item's comments form one block with that item's `import_id`, and the comments are exactly the posts' walks then the pages' walks joined |
| FormatterProperties.TransformItemEmits | package/api/formatter.py:163-168 | the comments `_process_node` moves out of an item are its pre-order listing, the k-th one emitted k-th with the item id and id `commentId + 1 + k` |
| FormatterProperties.EmitsInBlock | package/api/formatter.py:170-220 | a block of emitted comments keeps its stamps wherever it sits in a longer list |
| FormatterProperties.ProcessorBlock | package/api/formatter.py:108-112 | when item `k`'s own comments sit as a block in a comments list, that list holds item `k`'s pre-order listing there, each with `post_id` `contentId + 1 + k` and consecutive ids |
| FormatterProperties.ConvertCommentBlocks | package/api/formatter.py:20-49 | from a new formatter, every post and page is handled and its own comments sit in the comments file as one block after those of the items before it |
| FormatterProperties.ConvertCommentListings | package/api/formatter.py:20-49 | from a new formatter, the comments file holds, for item `k` of the posts then the pages, its pre-order listing of comments as one block, each with `post_id` `last_wp_id + 2 + k` and ids following on from the items before |
| FormatterProperties.FileNameShape | package/api/formatter.py:138 | every file name starts with its order digit and `_` and has the suffix `.xml` |
| FormatterProperties.CreateFilesSpec | package/api/formatter.py:114-127 | fails on a missing `posts` or `pages` container, in that order; otherwise writes the posts, the pages and the comments to three distinct `.xml` names |
| Script.Converter.constructor | main.py:19-24 | the parsed export, an empty comments document, and counters at 7 and 0 |
| Script.Converter.Run | main.py:94-118 | the posts loop, the pages loop and the writes succeed exactly as specified, and yield the three written documents |
| Script.Converter.TransformAll | main.py:95-104 | transforms every item of one kind in place, in document order, with the content counter raised before each |
| Script.Converter.TransformElement | main.py:76-91 | transforms one item as specified, appends its comments, and leaves the document and content counter alone |
| Script.Converter.ExtractComments | main.py:33-73 | moves every child of a container, replies included, in order, with the stamps the script's walk specifies |
| Script.Converter.ExtractComment | main.py:37-73 | one turn of the loop of `extract_comments` for one child |
| ScriptProperties.RemoveIfPresentSpec | main.py:42-47 | an optional removal takes one child of that name when there is one and leaves every other child |
| ScriptProperties.DropCommentExtrasSpec | main.py:42-47 | the three optional removals take one `author_url`, `author_ip` and `status` each when present, and leave every other child |
| ScriptProperties.ScriptCommentSpec | main.py:39-65 | a comment is emitted exactly when its body has a string; a missing body and a body without a string fail differently; the result carries the stamps and the sanitized body, loses one of each extra child it has, and every child other than `content` and the extras keeps its string |
| ScriptProperties.ScriptCleanHtmlSpec | main.py:27-30 | `clean_html` succeeds exactly when the body has a string, which it replaces by its sanitized form, keeping every other child |
| ScriptProperties.ExtractGroupSucceeds | main.py:33-73 | `extract_comments` goes through exactly when every node under the container is a comment with a body string, whatever the counter |
| ScriptProperties.ExtractNodeSucceeds | main.py:36-73 | one child goes through exactly when it is a comment with a body string whose replies all go through |
| ScriptProperties.ReadyElementsOnly | main.py:36 | a container the script can walk holds no text node |
| ScriptProperties.TextNodeStops | main.py:36-47 | a text node anywhere under a container stops the script |
| ScriptProperties.ExtractGroupStamps | main.py:33-73 | every comment under a container is emitted with the item id and consecutive ids; every comment of a `replies` container gets a `parent_id`, and a stamped `parent_id` is always the id just before its own (`ExtractParents` says which comments get one) |
| ScriptProperties.ExtractNodeStamps | main.py:37-73 | one comment and its replies are emitted with consecutive ids; the comment's parent is the counter when it is a reply, none otherwise |
| ScriptProperties.ExtractNodeIsWalk | main.py:37-73 | on a tree of comments only, one child of `extract_comments` is the shared walk with the script's emitter |
| ScriptProperties.ExtractGroupIsWalk | main.py:33-73 | on a tree of comments only, `extract_comments` on a container is the shared walk with the script's emitter |
| ScriptProperties.ExtractIsPreOrder | main.py:33-73 | the comments the script takes out of an item are its pre-order listing: the k-th listed comment is emitted k-th with id `c0 + 1 + k` |
| ScriptProperties.ExtractParents | main.py:49-65 | every comment carries the item id and id `c0 + 1 + k`; a reply, and only a reply, has `parent_id` `c0 + k`, the id just before its own, and a comment of the item itself has none |
| ScriptProperties.ScriptAtIsStampAt | main.py:49-65 | the k-th listed comment, as the script emits it, is the k-th comment of the generic walk with id `c0 + 1 + k` and, as `parent_id`, the id just before when it sits under another comment |
| ScriptProperties.StripItemSpec | main.py:77-81 | the five removals succeed exactly when the four source children and `author` are there, take one of each and leave every other child |
| ScriptProperties.TransformSucceeds | main.py:76-91 | `transform` succeeds exactly when the item has the five removed children, a body string and a comment tree the script can walk |
| ScriptProperties.TransformItemIs | main.py:76-87 | the transformed item is the stripped, sanitized children followed by `import_id` |
| ScriptProperties.TransformBody | main.py:76-91 | the transformed item has no `comments` container, ends with `import_id` holding the content id, and holds the sanitized body |
| ScriptProperties.TransformOthers | main.py:77-87 | `transform` takes one of each removed child, adds one `import_id`, and leaves every other child's string |
| ScriptProperties.TransformComments | main.py:89-91 | every comment under the item is emitted with the item id and ids running on from the comment counter |
| ScriptProperties.TransformItemsSucceeds | main.py:96-98 | an items loop goes through exactly when every item can be transformed |
| ScriptProperties.TransformItemsIsLoop | main.py:96-98 | the script's loops over posts and pages are the shared items loop with `transform` as its step |
| ScriptProperties.ScriptStepNumbersInTurn | main.py:76-91 | `transform` numbers every item it handles in turn |
| ScriptProperties.TransformItemsParents | main.py:96-98 | every `parent_id` an items loop stamps is the id just before the comment's own |
| ScriptProperties.TransformItemsNumbering | main.py:96-98 | the numbering of the shared items loop with `transform` as its step (item `k` out is `transform` of item `k` in at its own place, each item's comments one block carrying its id and equal to what `transform` took out of it), and every stamped `parent_id` is the id just before |
| ScriptProperties.RunScriptSucceeds | main.py:94-118 | the script goes through exactly when both containers are there and every item can be transformed; a missing `pages` is found before a missing `posts` |
| ScriptProperties.RunScriptRuns | main.py:94-118 | what is written is the posts loop's items, the pages loop's items and their comments |
| ScriptProperties.RunScriptNumbering | main.py:19-118 | post `k` is `transform` of the k-th post with `import_id` `8 + k`, page `k` likewise with `8 + |posts| + k`; comments get ids 1, 2, ... without gap, each item's comments one block with that item's `import_id` and equal to what `transform` took out of that item, and every `parent_id` is the previous id |
| ScriptProperties.TransformEmits | main.py:89-91 | the comments `transform` takes out of an item are its pre-order listing, the k-th one emitted k-th with the item id and id `commentId + 1 + k` |
| ScriptProperties.ExtractsInBlock | main.py:33-73 | a block of extracted comments keeps its stamps wherever it sits in a longer list |
| ScriptProperties.ScriptStepBlock | main.py:96-98 | when item `k`'s own comments sit as a block in a comments list, that list holds item `k`'s pre-order listing there, as the script emits it, with `post_id` `contentId + 1 + k` |
| ScriptProperties.RunScriptCommentBlocks | main.py:94-104 | every post and page is handled and its own comments sit in the comments file as one block after those of the items before it |
| ScriptProperties.RunScriptCommentListings | main.py:94-104 | the comments file holds, for item `k` of the posts then the pages, its pre-order listing of comments as one block, each with `post_id` `8 + k` and ids following on from the items before |
| ScriptProperties.TwoRepliesScript | main.py:37-65 | on a comment with two replies the script stamps the second reply with `parent_id` 2, the first reply's id |
| ScriptProperties.TwoRepliesFormatter | package/api/formatter.py:176-207 | on the same tree `ExportFormatter` stamps both replies with `parent_id` 1 |
| ScriptProperties.SecondReplyParent | main.py:37-65 | the script and `ExportFormatter` give the second reply the same comment id but different `parent_id`s |
| ScriptProperties.WhitespaceChild | main.py:36-47 | a whitespace text node before a comment stops the script, while `ExportFormatter` skips it and moves the comment |

## Left out

- File I/O is left out:
  - reading the export;
  - `Path.exists` (a parameter, `fileExists`);
  - `mkdir`;
  - writing and prettifying the output files.

  The documents that would be written are returned instead.
- Logging (`logging.info`, `logging.error`, the counts in `_create_file`) is left out, because it does not change the output.
- The HTML sanitizer's rules are left out. The sanitizer is a parameter `sanitize: string -> string`.
- The CDATA wrapping of the sanitized body is left out, because it only affects how the body is serialized.
- BeautifulSoup attribute access (`node.origin`, `data.posts`) searches all descendants. The model looks only at an element's direct leaf children, which is where the export schema puts these fields.
- An item's or comment's children other than its comment container are modelled as leaf fields (name and `.string`).
- The output is modelled by contents only: the stamps are held as numbers in `Flat` rather than as appended `post_id`, `comment_id` and `parent_id` elements, so the position of the stamps among a comment's children is not modelled. `Text.DecimalRoundTrip` shows that writing the ids with `str` loses nothing.
- An absent `replies` container and an empty one are treated as the same. Both versions give the same output and ids for either.
- The formatter passes `unicode(node.content.string)` to the sanitizer, so a body without a string becomes the text `None` (`Formatter.PyStr`). The script passes the missing string itself, which is modelled as a failure (`NoString`).
- Paths are `/`-separated with no trailing separator. Windows paths are not modelled.
- A run that fails part-way is modelled as producing no output. Files already written before the failure are not modelled: the posts file that `_create_files` writes before a missing `pages` container stops it (formatter.py:121-125), and, in the script, the comments file written and the pages file opened before a missing `pages` container stops it (main.py:107-113).
- `package/main_window.py`, a PySide6 window whose `convert_file` only prints a message (main_window.py:51-52), is not part of this model.
- Formatter.Find: states only that the element found has the name asked for; that it is the first in document order is how it is defined, not a separate contract.
- Formatter.Find searches a fixed order: the header fields, then the items of `posts`, then those of `pages`. `data.find` follows the real document order, so an `origin` field placed after the containers, or a `pages` container placed before `posts`, can make the source check a different `origin` than the model.

- Xml.Node has no element name: every element under a `comments` or `replies` container is taken to be a `comment`, and posts and pages are taken to sit directly in their `posts` and `pages` containers. In the source, `_process_comments` moves every element child whatever its name (package/api/formatter.py:179-180), while the guards before it count only `comment` elements (package/api/formatter.py:164, 213); the script stamps a `parent_id` when the grandparent's name is `comment` (main.py:62); and `find_all('post')` and `find_all('page')` search the whole document (package/api/formatter.py:108, main.py:95, 101), where `Formatter.ItemsOf` takes only the container's items. Documents outside that schema are not modelled.

## Findings

| source | as written | input that shows it | evidently intended | confidence | as-written member | corrected member |
|---|---|---|---|---|---|---|
| main.py:37-65 | `parent_id` is the comment counter taken before each child of a `replies` container, so every reply gets the id of the comment emitted just before it: for the second reply on, that is an earlier reply, not the comment it answers | one comment with two replies (`TwoReplies`): the second reply, id 3, gets `parent_id` 2 | each reply carries the id of the comment it answers, as `ExportFormatter` takes the counter once per container (package/api/formatter.py:176) | not executed; high | ScriptProperties.SecondReplyParent | FormatterProperties.FlattenStamps |
| main.py:36-47 | every child of a `comments` or `replies` container is treated as a comment element, and a text node has no `author_url` to look up | a pretty-printed export with a newline before the first comment (`WhitespaceChild`) | text nodes between comments are skipped, as `ExportFormatter` does (package/api/formatter.py:179-181) | not executed; medium | ScriptProperties.WhitespaceChild | FormatterProperties.FlattenSucceeds |
