/** The block dispatcher `draftJsBlockToTiptap` (src/index.ts:74-120) and
    the list grouping `draftJsListToTiptap` (src/index.ts:143-163). */
module Blocks {
  import opened Wrappers
  import opened Utils
  import opened Types
  import opened Overlay
  import opened Mention
  import opened Iteration

  const HeadingKinds: seq<BlockType> := [HeaderOne, HeaderTwo, HeaderThree, HeaderFour, HeaderFive, HeaderSix]

  /** The heading cases of the `switch`: `header-one` … `header-six` give
      the levels 1 … 6, the position of the type in that list. */
  function HeadingLevel(kind: BlockType): (r: Option<nat>)
    ensures r.Some? <==> kind in HeadingKinds
    ensures r.Some? ==> 1 <= r.value <= 6 && HeadingKinds[r.value - 1] == kind
  {
    match kind
    case HeaderOne => Some(1)
    case HeaderTwo => Some(2)
    case HeaderThree => Some(3)
    case HeaderFour => Some(4)
    case HeaderFive => Some(5)
    case HeaderSix => Some(6)
    case _ => None
  }

  /** The two list cases: the container type each list-item type becomes. */
  function ListTarget(kind: BlockType): (r: Option<string>)
    ensures r.Some? <==> kind == UnorderedListItem || kind == OrderedListItem
  {
    match kind
    case UnorderedListItem => Some("bulletList")
    case OrderedListItem => Some("orderedList")
    case _ => None
  }

  /** The blocks the lookahead loop gathers from cursor position `k`: the
      blocks of type `t` that follow one another from there on. */
  function Following(blocks: seq<Block>, k: nat, t: BlockType): (r: seq<Block>)
    ensures r != [] ==> k + |r| <= |blocks|
    decreases |blocks| - k
  {
    if k < |blocks| && blocks[k].kind == t then [blocks[k]] + Following(blocks, k + 1, t) else []
  }

  /** What the lookahead gathers is the longest run of consecutive blocks
      of type `t` from `k`: a slice of the list, all of type `t`, after
      which the next block, if any, has another type. */
  lemma {:induction false} FollowingSpec(blocks: seq<Block>, k: nat, t: BlockType)
    ensures var r := Following(blocks, k, t);
      && (r != [] ==> r == blocks[k..k + |r|])
      && (forall b | b in r :: b.kind == t)
      && (BlockAt(blocks, k + |r|).None? || BlockAt(blocks, k + |r|).value.kind != t)
    decreases |blocks| - k
  {
    if k < |blocks| && blocks[k].kind == t {
      FollowingSpec(blocks, k + 1, t);
      var rest := Following(blocks, k + 1, t);
      if rest != [] {
        assert blocks[k..k + 1 + |rest|] == [blocks[k]] + blocks[k + 1..k + 1 + |rest|];
      }
    }
  }

  /** `{type: "listItem", content: [draftjsTextToTiptapNode("paragraph", child, ctx)]}`. */
  function ListItemOf(child: Block, ctx: Context): Result<Node, Error> {
    match TextNodeOf("paragraph", child, ctx)
    case Err(e) => Err(e)
    case Ok(paragraph) => Ok(ListItem([paragraph]))
  }

  /** `{type: toType, content: blocks.map(...)}`. */
  function ListNodeOf(toType: string, children: seq<Block>, ctx: Context): Result<Node, Error> {
    match Collect(seq(|children|, j requires 0 <= j < |children| => ListItemOf(children[j], ctx)))
    case Err(e) => Err(e)
    case Ok(items) => Ok(ListNode(toType, items))
  }

  /** A list container holds one `listItem` per gathered block, in order,
      each wrapping exactly one paragraph of that block's lifted content; it
      throws exactly when the content of some gathered block throws. */
  lemma ListNodeShape(toType: string, children: seq<Block>, ctx: Context)
    ensures ListNodeOf(toType, children, ctx).Err? <==>
      exists j | 0 <= j < |children| :: TextContent(children[j], ctx).Err?
    ensures ListNodeOf(toType, children, ctx).Ok? ==>
      var list := ListNodeOf(toType, children, ctx).value;
      && list.ListNode? && list.kind == toType && |list.items| == |children|
      && forall j | 0 <= j < |children| ::
           list.items[j] == ListItem([TextNode("paragraph", TextContent(children[j], ctx).value)])
  {
    var rs := seq(|children|, j requires 0 <= j < |children| => ListItemOf(children[j], ctx));
    CollectSpec(rs);
    if Collect(rs).Err? {
      var j :| 0 <= j < |rs| && rs[j].Err?;
      assert TextContent(children[j], ctx).Err?;
    }
    if exists j | 0 <= j < |children| :: TextContent(children[j], ctx).Err? {
      var j :| 0 <= j < |children| && TextContent(children[j], ctx).Err?;
      assert rs[j].Err?;
    }
  }

  /** The lookahead loop of `draftJsListToTiptap`: starting from `[block]`,
      push the block `next()` returns while `peek()` shows a block of type
      `fromType`. */
  method GatherList(block: Block, it: BlockIterator, fromType: BlockType) returns (gathered: seq<Block>)
    modifies it
    ensures it.i == old(it.i) + |Following(it.blocks, old(it.i), fromType)|
    ensures gathered == [block] + Following(it.blocks, old(it.i), fromType)
  {
    ghost var start := it.i;
    gathered := [block];
    var p := it.Peek(0);
    while p.Some? && p.value.kind == fromType
      invariant start <= it.i
      invariant p == BlockAt(it.blocks, it.i)
      invariant gathered + Following(it.blocks, it.i, fromType) == [block] + Following(it.blocks, start, fromType)
      invariant it.i - start + |Following(it.blocks, it.i, fromType)| == |Following(it.blocks, start, fromType)|
      decreases |it.blocks| - it.i
    {
      var b := it.Next();
      gathered := gathered + [b.value];
      p := it.Peek(0);
    }
  }

  /** `draftJsListToTiptap(block, ctx, toType, fromType)`: gather the
      blocks, then build the container. */
  method ListToTiptap(block: Block, ctx: Context, it: BlockIterator, toType: string, fromType: BlockType)
    returns (r: Result<Node, Error>)
    modifies it
    ensures it.i == old(it.i) + |Following(it.blocks, old(it.i), fromType)|
    ensures r == ListNodeOf(toType, [block] + Following(it.blocks, old(it.i), fromType), ctx)
  {
    var gathered := GatherList(block, it, fromType);
    r := ListNodeOf(toType, gathered, ctx);
  }

  /** The node a successful case of the `switch` builds, as an optional node. */
  function Emitted(r: Result<Node, Error>): Result<Option<Node>, Error> {
    match r
    case Err(e) => Err(e)
    case Ok(n) => Ok(Some(n))
  }

  /** What `draftJsBlockToTiptap(block, ctx)` returns, or throws, and where
      it leaves the cursor, when the cursor stands at `k` (just past
      `block`) over `blocks`. */
  function Dispatch(block: Block, ctx: Context, blocks: seq<Block>, k: nat): (r: (Result<Option<Node>, Error>, nat))
    ensures r.1 >= k
  {
    match HeadingLevel(block.kind)
    case Some(level) => (Emitted(HeadingOf(block, level, ctx)), k)
    case None =>
      if block.kind == Paragraph || block.kind == Unstyled then
        (Emitted(TextNodeOf("paragraph", block, ctx)), k)
      else
        match ListTarget(block.kind)
        case Some(toType) =>
          var gathered := Following(blocks, k, block.kind);
          (Emitted(ListNodeOf(toType, [block] + gathered, ctx)), k + |gathered|)
        case None =>
          match ctx.config.unknownBlockTypeHandler
          case Some(handler) =>
            var (node, advanced) := handler(block, blocks, k, ctx.entityMap);
            (Ok(node), k + advanced)
          case None => (Ok(None), k)
  }

  /** `draftJsBlockToTiptap(block, ctx)` on the shared cursor. The hook for
      unknown types is handed the cursor's blocks and position and reports
      how many times it called `next()`. */
  method BlockToTiptap(block: Block, ctx: Context, it: BlockIterator) returns (r: Result<Option<Node>, Error>)
    modifies it
    ensures (r, it.i) == Dispatch(block, ctx, it.blocks, old(it.i))
  {
    var level := HeadingLevel(block.kind);
    var target := ListTarget(block.kind);
    if level.Some? {
      r := Emitted(HeadingOf(block, level.value, ctx));
    } else if block.kind == Paragraph || block.kind == Unstyled {
      r := Emitted(TextNodeOf("paragraph", block, ctx));
    } else if target.Some? {
      DispatchListCase(block, ctx, it.blocks, it.i);
      var list := ListToTiptap(block, ctx, it, target.value, block.kind);
      r := Emitted(list);
    } else if ctx.config.unknownBlockTypeHandler.Some? {
      DispatchUnknown(block, ctx, it.blocks, it.i);
      var (node, advanced) := ctx.config.unknownBlockTypeHandler.value(block, it.blocks, it.i, ctx.entityMap);
      it.i := it.i + advanced;
      r := Ok(node);
    } else {
      DispatchUnknown(block, ctx, it.blocks, it.i);
      r := Ok(None);
    }
  }

  /** The list case of `Dispatch`. */
  lemma DispatchListCase(block: Block, ctx: Context, blocks: seq<Block>, k: nat)
    requires ListTarget(block.kind).Some?
    ensures Dispatch(block, ctx, blocks, k) ==
      (Emitted(ListNodeOf(ListTarget(block.kind).value, [block] + Following(blocks, k, block.kind), ctx)),
       k + |Following(blocks, k, block.kind)|)
  {
    assert HeadingLevel(block.kind).None?;
  }

  // ---------------------------------------------------------------------
  // What the dispatcher guarantees

  /** `header-one` … `header-six` become a `heading` whose level is the
      position of the type in that list, built from the runs without the
      mention lift; the cursor does not move. */
  lemma DispatchHeading(block: Block, ctx: Context, blocks: seq<Block>, k: nat, n: nat)
    requires 1 <= n <= 6 && block.kind == HeadingKinds[n - 1]
    ensures Dispatch(block, ctx, blocks, k).1 == k
    ensures Dispatch(block, ctx, blocks, k).0.Err? <==> TextToTiptap(block, ctx).Err?
    ensures Dispatch(block, ctx, blocks, k).0.Err? ==>
      Dispatch(block, ctx, blocks, k).0.error == TextToTiptap(block, ctx).error
    ensures Dispatch(block, ctx, blocks, k).0.Ok? ==>
      Dispatch(block, ctx, blocks, k).0.value == Some(Heading(n, TextToTiptap(block, ctx).value))
  {
    HeadingLevelsDistinct();
  }

  /** The six heading types are distinct. */
  lemma HeadingLevelsDistinct()
    ensures forall a, b | 0 <= a < b < |HeadingKinds| :: HeadingKinds[a] != HeadingKinds[b]
  {
  }

  /** `paragraph` and `unstyled` become a `paragraph` of the lifted content;
      the cursor does not move. */
  lemma DispatchParagraph(block: Block, ctx: Context, blocks: seq<Block>, k: nat)
    requires block.kind == Paragraph || block.kind == Unstyled
    ensures Dispatch(block, ctx, blocks, k).1 == k
    ensures Dispatch(block, ctx, blocks, k).0.Err? <==> TextContent(block, ctx).Err?
    ensures Dispatch(block, ctx, blocks, k).0.Err? ==>
      Dispatch(block, ctx, blocks, k).0.error == TextContent(block, ctx).error
    ensures Dispatch(block, ctx, blocks, k).0.Ok? ==>
      Dispatch(block, ctx, blocks, k).0.value == Some(TextNode("paragraph", TextContent(block, ctx).value))
  {
  }

  /** A list-item block swallows the longest run of following blocks of its
      own type: the cursor ends on a block of another type or past the end,
      and the container has one item per gathered block. */
  lemma DispatchList(block: Block, ctx: Context, blocks: seq<Block>, k: nat)
    requires block.kind == UnorderedListItem || block.kind == OrderedListItem
    requires k <= |blocks|
    ensures var (r, next) := Dispatch(block, ctx, blocks, k);
      && k <= next <= |blocks|
      && (forall m | k <= m < next :: blocks[m].kind == block.kind)
      && (next == |blocks| || blocks[next].kind != block.kind)
      && (r.Ok? ==>
            && r.value.Some? && r.value.value.ListNode?
            && r.value.value.kind == (if block.kind == UnorderedListItem then "bulletList" else "orderedList")
            && |r.value.value.items| == 1 + next - k)
  {
    var gathered := Following(blocks, k, block.kind);
    FollowingSpec(blocks, k, block.kind);
    ListNodeShape(ListTarget(block.kind).value, [block] + gathered, ctx);
    forall m | k <= m < k + |gathered|
      ensures blocks[m].kind == block.kind
    {
      assert blocks[m] == gathered[m - k];
    }
  }

  /** Every other type, `blockquote` and `code-block` included, goes to the
      caller's hook when there is one and is otherwise dropped (null). */
  lemma DispatchUnknown(block: Block, ctx: Context, blocks: seq<Block>, k: nat)
    requires HeadingLevel(block.kind).None? && ListTarget(block.kind).None?
    requires block.kind != Paragraph && block.kind != Unstyled
    ensures ctx.config.unknownBlockTypeHandler.None? ==> Dispatch(block, ctx, blocks, k) == (Ok(None), k)
    ensures ctx.config.unknownBlockTypeHandler.Some? ==>
      var (node, advanced) := ctx.config.unknownBlockTypeHandler.value(block, blocks, k, ctx.entityMap);
      Dispatch(block, ctx, blocks, k) == (Ok(node), k + advanced)
  {
  }

  /** `blockquote` and `code-block` are not heading, paragraph or list
      types: they parse to `Other`. */
  lemma QuoteAndCodeAreUnknown()
    ensures ParseType("blockquote") == Other("blockquote")
    ensures ParseType("code-block") == Other("code-block")
  {
  }
}
