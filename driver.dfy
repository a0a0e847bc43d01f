/** The entry point `draftjsToTiptap` (src/index.ts:36-72): validate the
    document, then walk the cursor and collect the non-null nodes. */
module Driver {
  import opened Wrappers
  import opened Utils
  import opened Types
  import opened Mention
  import opened Iteration
  import opened Blocks

  /** `if (node) content.push(node)`. */
  function Pushed(node: Option<Node>): seq<Node> {
    match node
    case Some(n) => [n]
    case None => []
  }

  /** `content` followed by what the rest of the walk yields, or the
      exception the rest throws. */
  function Then(content: seq<Node>, rest: Result<seq<Node>, Error>): Result<seq<Node>, Error> {
    match rest
    case Err(e) => Err(e)
    case Ok(nodes) => Ok(content + nodes)
  }

  /** What one dispatch contributes in front of the rest of the walk: its
      exception, or its node, if any, followed by the rest. */
  function Prepend(r: Result<Option<Node>, Error>, rest: Result<seq<Node>, Error>): Result<seq<Node>, Error> {
    match r
    case Err(e) => Err(e)
    case Ok(node) => Then(Pushed(node), rest)
  }

  /** The nodes the loop collects from the block at index `k` on: that
      block is dispatched with the cursor just past it, and the walk goes on
      wherever the dispatch left the cursor. */
  function ConvertFrom(blocks: seq<Block>, k: nat, ctx: Context): Result<seq<Node>, Error>
    decreases |blocks| - k, 1
  {
    if k >= |blocks| then Ok([]) else ConvertTurn(blocks, k, ctx)
  }

  /** One turn of the loop on block `k` and the walk after it. */
  function ConvertTurn(blocks: seq<Block>, k: nat, ctx: Context): Result<seq<Node>, Error>
    requires k < |blocks|
    decreases |blocks| - k, 0
  {
    var (r, next) := Dispatch(blocks[k], ctx, blocks, k + 1);
    Prepend(r, ConvertFrom(blocks, next, ctx))
  }

  /** `{type: "doc", content}`, or the exception. */
  function DocOf(r: Result<seq<Node>, Error>): Result<Doc, Error> {
    match r
    case Err(e) => Err(e)
    case Ok(content) => Ok(Doc(content))
  }

  /** `draftjsToTiptap(draftjsDocument, config)`. Every block's and every
      entity's type is the parse of its `type` string. */
  method DraftjsToTiptap(doc: Document, config: Config) returns (r: Result<Doc, Error>)
    requires WellFormedDocument(doc)
    ensures !doc.blocksIsArray ==> r == Err(BlocksNotArray)
    ensures doc.blocksIsArray && !doc.entityMapIsPlainObject ==> r == Err(EntityMapNotObject)
    ensures doc.blocksIsArray && doc.entityMapIsPlainObject ==>
      r == DocOf(ConvertFrom(doc.blocks, 0, Context(config, doc.entityMap)))
  {
    if !doc.blocksIsArray {
      return Err(BlocksNotArray);
    }
    if !doc.entityMapIsPlainObject {
      return Err(EntityMapNotObject);
    }
    var ctx := Context(config, doc.entityMap);
    var it := new BlockIterator(doc.blocks);
    var content: seq<Node> := [];
    var block := it.Next();
    ghost var whole := ConvertFrom(doc.blocks, 0, ctx);
    ThenNothing(whole);
    while block.Some?
      invariant it.blocks == doc.blocks && it.i >= 1
      invariant block == BlockAt(doc.blocks, it.i - 1)
      invariant Then(content, ConvertFrom(doc.blocks, it.i - 1, ctx)) == whole
      decreases |doc.blocks| + 1 - it.i
    {
      var step := ConvertBlock(block.value, ctx, it, content);
      if step.Err? {
        return Err(step.error);
      }
      content := step.value;
      block := it.Next();
    }
    assert content + [] == content;
    r := Ok(Doc(content));
  }

  /** Nothing collected yet, followed by the walk, is the walk. */
  lemma ThenNothing(r: Result<seq<Node>, Error>)
    ensures Then([], r) == r
  {
    if r.Ok? {
      assert [] + r.value == r.value;
    }
  }

  /** One turn of the loop on the block just taken from the cursor:
      `const node = draftJsBlockToTiptap(block, ctx); if (node)
      content.push(node)`. The content collected so far followed by the walk
      from the new cursor position is what it was followed by the walk from
      this block, or the exception that walk throws. */
  method ConvertBlock(block: Block, ctx: Context, it: BlockIterator, content: seq<Node>)
    returns (r: Result<seq<Node>, Error>)
    requires it.i >= 1 && BlockAt(it.blocks, it.i - 1) == Some(block)
    modifies it
    ensures it.i >= old(it.i)
    ensures it.i == Dispatch(block, ctx, it.blocks, old(it.i)).1
    ensures var node := Dispatch(block, ctx, it.blocks, old(it.i)).0;
      r == if node.Err? then Err(node.error) else Ok(content + Pushed(node.value))
    ensures r.Err? ==> Then(content, ConvertFrom(it.blocks, old(it.i) - 1, ctx)) == Err(r.error)
    ensures r.Ok? ==> Then(r.value, ConvertFrom(it.blocks, it.i, ctx)) == Then(content, ConvertFrom(it.blocks, old(it.i) - 1, ctx))
  {
    ghost var k := it.i - 1;
    var node := BlockToTiptap(block, ctx, it);
    StepOfWalk(it.blocks, k, ctx, content);
    if node.Err? {
      return Err(node.error);
    }
    if node.value.Some? {
      r := Ok(content + [node.value.value]);
    } else {
      assert content + Pushed(node.value) == content;
      r := Ok(content);
    }
  }

  /** One turn of the loop: the walk from block `k` is the node of block
      `k` followed by the walk from where the dispatch left the cursor. */
  lemma StepOfWalk(blocks: seq<Block>, k: nat, ctx: Context, content: seq<Node>)
    requires k < |blocks|
    ensures var (r, next) := Dispatch(blocks[k], ctx, blocks, k + 1);
      && (r.Err? ==> Then(content, ConvertFrom(blocks, k, ctx)) == Err(r.error))
      && (r.Ok? ==> Then(content, ConvertFrom(blocks, k, ctx)) == Then(content + Pushed(r.value), ConvertFrom(blocks, next, ctx)))
  {
    var (r, next) := Dispatch(blocks[k], ctx, blocks, k + 1);
    WalkStep(blocks, k, ctx, r, next);
    if r.Ok? {
      match ConvertFrom(blocks, next, ctx)
      case Err(e) =>
      case Ok(rest) =>
        assert content + (Pushed(r.value) + rest) == content + Pushed(r.value) + rest;
    }
  }

  // ---------------------------------------------------------------------
  // An independent description of the output: one node per group

  predicate IsListKind(t: BlockType) { ListTarget(t).Some? }

  /** A piece the converter emits one node for: non-empty, of one block
      type, and of more than one block only for a list-item type. */
  predicate IsPiece(g: seq<Block>) {
    && |g| >= 1
    && (|g| > 1 ==> IsListKind(g[0].kind))
    && (forall m | 0 <= m < |g| :: g[m].kind == g[0].kind)
  }

  /** `gs` cuts `blocks`, from the front, into pieces, and a list piece is
      never followed by a block of its own type. */
  predicate IsGrouping(blocks: seq<Block>, gs: seq<seq<Block>>)
    decreases |gs|
  {
    if gs == [] then blocks == []
    else PieceStartsAt(blocks, 0, gs[0]) && IsGrouping(blocks[|gs[0]|..], gs[1..])
  }

  /** The piece `g` sits at block `k`, and when it is a list piece the
      block after it, if any, has another type. */
  predicate PieceStartsAt(blocks: seq<Block>, k: nat, g: seq<Block>) {
    && IsPiece(g) && k + |g| <= |blocks| && blocks[k..k + |g|] == g
    && (IsListKind(g[0].kind) && k + |g| < |blocks| ==> blocks[k + |g|].kind != g[0].kind)
  }

  function Flatten(gs: seq<seq<Block>>): seq<Block> {
    if gs == [] then [] else gs[0] + Flatten(gs[1..])
  }

  /** The pieces of a grouping, put back together, are the blocks. */
  lemma {:induction false} GroupingFlattens(blocks: seq<Block>, gs: seq<seq<Block>>)
    requires IsGrouping(blocks, gs)
    ensures Flatten(gs) == blocks
    ensures forall j | 0 <= j < |gs| :: IsPiece(gs[j])
    decreases |gs|
  {
    if gs != [] {
      GroupingFlattens(blocks[|gs[0]|..], gs[1..]);
      assert blocks == blocks[0..|gs[0]|] + blocks[|gs[0]|..];
      forall j | 1 <= j < |gs| ensures IsPiece(gs[j]) {
        assert gs[j] == gs[1..][j - 1];
      }
    }
  }

  /** The node of one piece, by the type of its first block (none for an
      empty piece, which no grouping has). */
  function GroupNode(g: seq<Block>, ctx: Context): Result<Option<Node>, Error> {
    if g == [] then Ok(None)
    else
      match HeadingLevel(g[0].kind)
      case Some(level) => Emitted(HeadingOf(g[0], level, ctx))
      case None =>
        if g[0].kind == Paragraph || g[0].kind == Unstyled then Emitted(TextNodeOf("paragraph", g[0], ctx))
        else
          match ListTarget(g[0].kind)
          case Some(toType) => Emitted(ListNodeOf(toType, g, ctx))
          case None => Ok(None)
  }

  /** The non-null nodes of the pieces, in order, or the first exception. */
  function Emit(gs: seq<seq<Block>>, ctx: Context): Result<seq<Node>, Error>
    decreases |gs|, 1
  {
    if gs == [] then Ok([]) else EmitTurn(gs, ctx)
  }

  /** The node of the first piece in front of the nodes of the others. */
  function EmitTurn(gs: seq<seq<Block>>, ctx: Context): Result<seq<Node>, Error>
    requires gs != []
    decreases |gs|, 0
  {
    Prepend(GroupNode(gs[0], ctx), Emit(gs[1..], ctx))
  }

  /** The first piece: a list-item block with the blocks of its type that
      follow it, any other block alone. */
  function FirstGroup(blocks: seq<Block>): (g: seq<Block>)
    requires blocks != []
    ensures 1 <= |g| <= |blocks|
  {
    if IsListKind(blocks[0].kind) then [blocks[0]] + Following(blocks, 1, blocks[0].kind) else [blocks[0]]
  }

  /** The grouping the converter follows, piece after piece. */
  function Groups(blocks: seq<Block>): seq<seq<Block>>
    decreases |blocks|
  {
    if blocks == [] then [] else [FirstGroup(blocks)] + Groups(blocks[|FirstGroup(blocks)|..])
  }

  /** The first piece is a piece, a prefix of the blocks, and, when it is
      a list piece, not followed by a block of its type. */
  lemma FirstGroupShape(blocks: seq<Block>)
    requires blocks != []
    ensures PieceStartsAt(blocks, 0, FirstGroup(blocks))
  {
    if IsListKind(blocks[0].kind) {
      ListGroupShape(blocks, blocks[0].kind, Following(blocks, 1, blocks[0].kind));
    } else {
      assert FirstGroup(blocks) == blocks[0..1];
    }
  }

  /** The list case of `FirstGroupShape`: a list-item block and the
      blocks the lookahead gathers after it. */
  lemma ListGroupShape(blocks: seq<Block>, t: BlockType, f: seq<Block>)
    requires blocks != [] && blocks[0].kind == t && f == Following(blocks, 1, t)
    ensures 1 + |f| <= |blocks| && blocks[0..1 + |f|] == [blocks[0]] + f
    ensures forall m | 0 <= m < 1 + |f| :: ([blocks[0]] + f)[m].kind == t
    ensures 1 + |f| < |blocks| ==> blocks[1 + |f|].kind != t
  {
    FollowingSpec(blocks, 1, t);
    var g := [blocks[0]] + f;
    if f != [] {
      assert blocks[0..1 + |f|] == [blocks[0]] + blocks[1..1 + |f|];
    }
    forall m | 0 <= m < |g|
      ensures g[m].kind == t
    {
      if m > 0 {
        assert g[m] == f[m - 1];
        assert f[m - 1] in f;
      }
    }
    if |g| < |blocks| {
      assert BlockAt(blocks, 1 + |f|).Some?;
    }
  }

  /** `Groups` is a grouping of the blocks. */
  lemma {:induction false} GroupsIsGrouping(blocks: seq<Block>)
    ensures IsGrouping(blocks, Groups(blocks))
    decreases |blocks|
  {
    if blocks != [] {
      var g := FirstGroup(blocks);
      var rest := blocks[|g|..];
      FirstGroupShape(blocks);
      GroupsIsGrouping(rest);
      var gs := Groups(blocks);
      assert gs[0] == g && gs[1..] == Groups(rest);
    }
  }

  /** A grouping is unique: any grouping of the blocks is the converter's. */
  lemma {:induction false} GroupingIsUnique(blocks: seq<Block>, gs: seq<seq<Block>>)
    requires IsGrouping(blocks, gs)
    ensures gs == Groups(blocks)
    decreases |gs|
  {
    if gs != [] {
      var g := gs[0];
      var rest := blocks[|g|..];
      FirstPieceIsFirstGroup(blocks, g);
      GroupingIsUnique(rest, gs[1..]);
      assert gs == [g] + gs[1..];
    }
  }

  /** The first piece of a grouping is `FirstGroup`: a non-list piece is
      one block, and a list piece is the whole run of its type. */
  lemma FirstPieceIsFirstGroup(blocks: seq<Block>, g: seq<Block>)
    requires PieceStartsAt(blocks, 0, g)
    ensures blocks != [] && FirstGroup(blocks) == g
  {
    assert blocks[0] == g[0];
    if IsListKind(g[0].kind) {
      forall i | 1 <= i < |g|
        ensures blocks[i].kind == g[0].kind
      {
        assert blocks[i] == g[i];
      }
      FollowingIsMaximalRun(blocks, 1, g[0].kind, |g| - 1);
      assert blocks[1..|g|] == g[1..];
      assert [g[0]] + g[1..] == g;
    } else {
      assert [g[0]] == g;
    }
  }

  /** A run of blocks of type `t` from `a` to `a + m` that ends the list or
      is followed by another type is what the lookahead gathers. */
  lemma {:induction false} FollowingIsMaximalRun(blocks: seq<Block>, a: nat, t: BlockType, m: nat)
    requires a + m <= |blocks|
    requires forall i | a <= i < a + m :: blocks[i].kind == t
    requires a + m == |blocks| || blocks[a + m].kind != t
    ensures Following(blocks, a, t) == blocks[a..a + m]
    decreases m
  {
    if m > 0 {
      FollowingIsMaximalRun(blocks, a + 1, t, m - 1);
      assert blocks[a..a + m] == [blocks[a]] + blocks[a + 1..a + m];
    }
  }

  /** Without the hook for unknown types, a block that is not a list item
      is dispatched to the node of its one-block piece and the cursor does
      not move. */
  lemma DispatchSingle(block: Block, ctx: Context, blocks: seq<Block>, k: nat)
    requires ctx.config.unknownBlockTypeHandler.None? && !IsListKind(block.kind)
    ensures Dispatch(block, ctx, blocks, k) == (GroupNode([block], ctx), k)
  {
  }

  /** Without the hook for unknown types, dispatching the first block of a
      piece yields the piece's node and moves the cursor past the piece. */
  lemma DispatchPiece(blocks: seq<Block>, k: nat, g: seq<Block>, ctx: Context)
    requires ctx.config.unknownBlockTypeHandler.None?
    requires PieceStartsAt(blocks, k, g)
    ensures Dispatch(blocks[k], ctx, blocks, k + 1) == (GroupNode(g, ctx), k + |g|)
  {
    assert blocks[k] == g[0];
    if IsListKind(g[0].kind) {
      DispatchListPiece(blocks, k, g, ctx);
    } else {
      DispatchSingle(blocks[k], ctx, blocks, k + 1);
      assert [blocks[k]] == g;
    }
  }

  /** The list case of `DispatchPiece`: the lookahead gathers exactly the
      rest of the piece. */
  lemma DispatchListPiece(blocks: seq<Block>, k: nat, g: seq<Block>, ctx: Context)
    requires PieceStartsAt(blocks, k, g) && IsListKind(g[0].kind)
    ensures Dispatch(blocks[k], ctx, blocks, k + 1) == (GroupNode(g, ctx), k + |g|)
  {
    var b := blocks[k];
    ListPieceIsLookahead(blocks, k, g);
    DispatchListCase(b, ctx, blocks, k + 1);
  }

  /** A list piece at `k` is its first block followed by what the
      lookahead gathers after it. */
  lemma ListPieceIsLookahead(blocks: seq<Block>, k: nat, g: seq<Block>)
    requires PieceStartsAt(blocks, k, g) && IsListKind(g[0].kind)
    ensures k < |blocks| && blocks[k] == g[0]
    ensures [blocks[k]] + Following(blocks, k + 1, blocks[k].kind) == g
    ensures |Following(blocks, k + 1, blocks[k].kind)| == |g| - 1
  {
    var t, after := g[0].kind, k + |g|;
    assert blocks[k] == g[0];
    forall i | k + 1 <= i < after
      ensures blocks[i].kind == t
    {
      assert blocks[i] == g[i - k];
    }
    FollowingIsMaximalRun(blocks, k + 1, t, |g| - 1);
    assert blocks[k + 1..after] == g[1..];
    assert [blocks[k]] + g[1..] == g;
  }

  /** The first piece of a grouping of `blocks[k..]` sits at `k`, and the
      other pieces group what follows it. */
  lemma PieceAt(blocks: seq<Block>, k: nat, g: seq<Block>, gs: seq<seq<Block>>)
    requires k <= |blocks| && gs != [] && g == gs[0] && IsGrouping(blocks[k..], gs)
    ensures PieceStartsAt(blocks, k, g) && IsGrouping(blocks[k + |g|..], gs[1..])
  {
    assert blocks[k..][0..|g|] == blocks[k..k + |g|];
    assert blocks[k..][|g|..] == blocks[k + |g|..];
  }

  /** Without the hook for unknown types, the walk from the first block of
      a piece yields the piece's node and goes on past the piece. */
  lemma ConvertPiece(blocks: seq<Block>, k: nat, g: seq<Block>, ctx: Context)
    requires ctx.config.unknownBlockTypeHandler.None?
    requires PieceStartsAt(blocks, k, g)
    ensures ConvertFrom(blocks, k, ctx) == Prepend(GroupNode(g, ctx), ConvertFrom(blocks, k + |g|, ctx))
  {
    DispatchPiece(blocks, k, g, ctx);
    WalkStep(blocks, k, ctx, GroupNode(g, ctx), k + |g|);
  }

  /** The walk from block `k`, given what the dispatch of that block
      returns and where it leaves the cursor. */
  lemma WalkStep(blocks: seq<Block>, k: nat, ctx: Context, node: Result<Option<Node>, Error>, next: nat)
    requires k < |blocks| && Dispatch(blocks[k], ctx, blocks, k + 1) == (node, next)
    ensures ConvertFrom(blocks, k, ctx) == Prepend(node, ConvertFrom(blocks, next, ctx))
  {
    assert ConvertFrom(blocks, k, ctx) == ConvertTurn(blocks, k, ctx);
  }

  /** Without the hook for unknown types, the walk from `k` yields the
      nodes of any grouping of the remaining blocks. */
  lemma {:induction false} WalkFollowsGroups(blocks: seq<Block>, k: nat, gs: seq<seq<Block>>, ctx: Context)
    requires ctx.config.unknownBlockTypeHandler.None?
    requires k <= |blocks| && IsGrouping(blocks[k..], gs)
    ensures ConvertFrom(blocks, k, ctx) == Emit(gs, ctx)
    decreases |gs|
  {
    if gs == [] {
      assert blocks[k..] == [];
    } else {
      var g := gs[0];
      PieceAt(blocks, k, g, gs);
      WalkFollowsGroups(blocks, k + |g|, gs[1..], ctx);
      WalkPiece(blocks, k, g, gs, ctx);
    }
  }

  /** One step of `WalkFollowsGroups`: the walk from the first piece is
      its node in front of the walk after it, and the walk after it yields
      the nodes of the other pieces. */
  lemma WalkPiece(blocks: seq<Block>, k: nat, g: seq<Block>, gs: seq<seq<Block>>, ctx: Context)
    requires ctx.config.unknownBlockTypeHandler.None?
    requires gs != [] && g == gs[0] && PieceStartsAt(blocks, k, g)
    requires ConvertFrom(blocks, k + |g|, ctx) == Emit(gs[1..], ctx)
    ensures ConvertFrom(blocks, k, ctx) == Emit(gs, ctx)
  {
    ConvertPiece(blocks, k, g, ctx);
    assert Emit(gs, ctx) == EmitTurn(gs, ctx);
  }

  /** Without the hook for unknown types, the document's content is one
      node per piece, in order, minus the pieces that give null, for any
      grouping of the blocks. */
  lemma ConvertIsGroupwise(blocks: seq<Block>, ctx: Context, gs: seq<seq<Block>>)
    requires ctx.config.unknownBlockTypeHandler.None?
    requires IsGrouping(blocks, gs)
    ensures ConvertFrom(blocks, 0, ctx) == Emit(gs, ctx)
  {
    assert blocks[0..] == blocks;
    WalkFollowsGroups(blocks, 0, gs, ctx);
  }

  /** The converter's grouping exists for every block list. */
  lemma ConvertFollowsGroups(blocks: seq<Block>, ctx: Context)
    requires ctx.config.unknownBlockTypeHandler.None?
    ensures IsGrouping(blocks, Groups(blocks))
    ensures ConvertFrom(blocks, 0, ctx) == Emit(Groups(blocks), ctx)
  {
    GroupsIsGrouping(blocks);
    ConvertIsGroupwise(blocks, ctx, Groups(blocks));
  }
}
