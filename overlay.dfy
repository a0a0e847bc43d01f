/** The range-overlay engine `draftjsTextToTiptap` (src/index.ts:175-210)
    and the entity-to-mark resolution `draftjsEntityToTiptapMark`
    (src/index.ts:212-242). */
module Overlay {
  import opened Wrappers
  import opened Utils
  import opened Unicode
  import opened Types

  // ---------------------------------------------------------------------
  // Boundaries

  /** One step of `sort((a, b) => a - b)`: put `x` before the first
      element it does not exceed. */
  function Insert(x: nat, s: seq<nat>): seq<nat> {
    if s == [] || x <= s[0] then [x] + s else [s[0]] + Insert(x, s[1..])
  }

  /** Inserting into a sorted list keeps it sorted and adds exactly `x`. */
  lemma {:induction false} InsertSpec(x: nat, s: seq<nat>)
    requires Sorted(s)
    ensures Sorted(Insert(x, s))
    ensures multiset(Insert(x, s)) == multiset(s) + multiset{x}
    ensures |Insert(x, s)| == |s| + 1
    ensures Insert(x, s)[0] == if s == [] then x else Min(x, s[0])
  {
    if s == [] || x <= s[0] {
      SortedCons(x, s);
    } else {
      assert s == [s[0]] + s[1..];
      assert Sorted(s[1..]) by {
        forall p, q | 0 <= p < q < |s[1..]|
          ensures s[1..][p] <= s[1..][q]
        {
          assert s[1..][p] == s[p + 1] && s[1..][q] == s[q + 1];
        }
      }
      InsertSpec(x, s[1..]);
      if |s| > 1 {
        assert s[0] <= s[1];
      }
      SortedCons(s[0], Insert(x, s[1..]));
    }
  }

  lemma SortedCons(h: int, t: seq<int>)
    requires Sorted(t) && (t == [] || h <= t[0])
    ensures Sorted([h] + t)
  {
    forall p, q | 0 <= p < q < |[h] + t|
      ensures ([h] + t)[p] <= ([h] + t)[q]
    {
      if p == 0 {
        assert t[0] <= t[q - 1];
      }
    }
  }

  /** `xs.sort((a, b) => a - b)`: insertion of each element, from the last. */
  function SortAscending(xs: seq<nat>): seq<nat> {
    if xs == [] then [] else Insert(xs[0], SortAscending(xs[1..]))
  }

  /** The sort yields ascending numeric order and a permutation of its input. */
  lemma {:induction false} SortSpec(xs: seq<nat>)
    ensures Sorted(SortAscending(xs))
    ensures multiset(SortAscending(xs)) == multiset(xs)
  {
    if xs != [] {
      assert xs == [xs[0]] + xs[1..];
      SortSpec(xs[1..]);
      InsertSpec(xs[0], SortAscending(xs[1..]));
    }
  }

  /** `ranges.flatMap((x) => [x.offset, x.offset + x.length])` for the style ranges. */
  function StyleBounds(styles: seq<StyleRange>): seq<nat> {
    if styles == [] then [] else [styles[0].offset, styles[0].End()] + StyleBounds(styles[1..])
  }

  /** Both ends of every style range are in the list. */
  lemma {:induction false} StyleBoundsHold(styles: seq<StyleRange>)
    ensures forall i | 0 <= i < |styles| :: styles[i].offset in StyleBounds(styles) && styles[i].End() in StyleBounds(styles)
  {
    if styles != [] {
      StyleBoundsHold(styles[1..]);
      assert forall i | 1 <= i < |styles| :: styles[i] == styles[1..][i - 1];
    }
  }

  /** The same for the entity ranges. */
  function EntityBounds(entities: seq<EntityRange>): seq<nat> {
    if entities == [] then [] else [entities[0].offset, entities[0].End()] + EntityBounds(entities[1..])
  }

  lemma {:induction false} EntityBoundsHold(entities: seq<EntityRange>)
    ensures forall i | 0 <= i < |entities| :: entities[i].offset in EntityBounds(entities) && entities[i].End() in EntityBounds(entities)
  {
    if entities != [] {
      EntityBoundsHold(entities[1..]);
      assert forall i | 1 <= i < |entities| :: entities[i] == entities[1..][i - 1];
    }
  }

  /** The list handed to `sort`: `0`, `ulength(text)`, then both ends of
      every style range and then of every entity range. */
  function Boundaries(text: String16, styles: seq<StyleRange>, entities: seq<EntityRange>): seq<nat> {
    [0, ULength(text)] + StyleBounds(styles) + EntityBounds(entities)
  }

  /** `splits`: the sorted, de-duplicated boundaries. */
  function Splits(text: String16, styles: seq<StyleRange>, entities: seq<EntityRange>): seq<nat> {
    Uniq(SortAscending(Boundaries(text, styles, entities)))
  }

  /** Sorting keeps exactly the same values. */
  lemma SortKeepsMembers(b: seq<nat>)
    ensures forall x | x in b :: x in SortAscending(b)
    ensures forall x | x in SortAscending(b) :: x in b
  {
    var sorted := SortAscending(b);
    SortSpec(b);
    forall x | x in b
      ensures x in sorted
    {
      assert x in multiset(b);
    }
    forall x | x in sorted
      ensures x in b
    {
      assert x in multiset(sorted);
    }
  }

  /** Sorting and de-duplicating keep exactly the same values and leave
      them strictly increasing. */
  lemma SortedUniqueMembers(b: seq<nat>)
    ensures StrictlyIncreasing(Uniq(SortAscending(b)))
    ensures forall x | x in b :: x in Uniq(SortAscending(b))
    ensures forall x | x in Uniq(SortAscending(b)) :: x in b
  {
    SortKeepsMembers(b);
    SortSpec(b);
    UniqSpec(SortAscending(b));
    UniqOfSortedIsStrictlyIncreasing(SortAscending(b));
  }

  /** The list handed to `sort` holds 0, `ulength(text)` and both ends of
      every range. */
  lemma BoundariesHold(text: String16, styles: seq<StyleRange>, entities: seq<EntityRange>)
    ensures var b := Boundaries(text, styles, entities);
      && 0 in b && ULength(text) in b
      && (forall i | 0 <= i < |styles| :: styles[i].offset in b && styles[i].End() in b)
      && (forall i | 0 <= i < |entities| :: entities[i].offset in b && entities[i].End() in b)
  {
    var sb, eb := StyleBounds(styles), EntityBounds(entities);
    var b := Boundaries(text, styles, entities);
    StyleBoundsHold(styles);
    EntityBoundsHold(entities);
    assert b == [0, ULength(text)] + sb + eb;
    assert b[0] == 0 && b[1] == ULength(text);
    assert forall x | x in sb :: x in b;
    assert forall x | x in eb :: x in b;
  }

  /** A strictly increasing list of naturals holding 0 starts with 0 and
      ends with its largest element. */
  lemma IncreasingFromZero(s: seq<nat>, n: nat)
    requires StrictlyIncreasing(s) && 0 in s && n in s
    ensures |s| >= 1 && s[0] == 0 && n <= s[|s| - 1]
  {
    var z :| 0 <= z < |s| && s[z] == 0;
    assert s[0] <= s[z];
    var u :| 0 <= u < |s| && s[u] == n;
    assert s[u] <= s[|s| - 1];
  }

  /** The split list is strictly increasing and starts at 0; it holds
      `ulength(text)` and both ends of every range, and nothing else. */
  lemma SplitsShape(text: String16, styles: seq<StyleRange>, entities: seq<EntityRange>)
    ensures var s := Splits(text, styles, entities);
      && |s| >= 1 && s[0] == 0 && StrictlyIncreasing(s)
      && ULength(text) in s && ULength(text) <= s[|s| - 1]
      && (forall i | 0 <= i < |styles| :: styles[i].offset in s && styles[i].End() in s)
      && (forall i | 0 <= i < |entities| :: entities[i].offset in s && entities[i].End() in s)
      && (forall x | x in s :: x in Boundaries(text, styles, entities))
  {
    var b := Boundaries(text, styles, entities);
    var s := Splits(text, styles, entities);
    BoundariesHold(text, styles, entities);
    SortedUniqueMembers(b);
    IncreasingFromZero(s, ULength(text));
  }

  /** No split lies strictly between two consecutive splits. */
  lemma NothingBetweenSplits(s: seq<nat>, j: nat, x: nat)
    requires StrictlyIncreasing(s) && j + 1 < |s| && x in s
    ensures x <= s[j] || s[j + 1] <= x
  {
    var m :| 0 <= m < |s| && s[m] == x;
    if m > j {
      assert m >= j + 1;
      assert s[j + 1] <= s[m];
    }
  }

  // ---------------------------------------------------------------------
  // Marks

  const LinkTarget := "_blank"
  const LinkRel := "noopener noreferrer nofollow"

  /** `{href: data.url, target, rel}`; `href` is left out when `data.url`
      is undefined, as a JSON comparison would see it. */
  function LinkAttrs(e: Entity): Attrs {
    map["target" := LinkTarget, "rel" := LinkRel]
      + (if "url" in e.data then map["href" := e.data["url"]] else map[])
  }

  /** `draftjsEntityToTiptapMark(range, ctx)`: `None` is the `undefined`
      that falls out of the `switch` for an entity type other than `LINK`
      and `mention`. */
  function EntityToMark(range: EntityRange, ctx: Context): (r: Result<Option<Mark>, Error>)
    ensures r.Err? <==>
      range.key !in ctx.entityMap
      || (ctx.entityMap[range.key].kind == MentionEntity
          && ctx.config.getMentionAttrs.None? && ctx.config.unknownMarkTypeHandler.None?)
    ensures r.Err? ==>
      r.error == if range.key in ctx.entityMap then MentionUnsupported else EntityMissing(range.key)
    ensures r.Ok? && r.value.Some? ==>
      ctx.entityMap[range.key].kind == LinkEntity || ctx.entityMap[range.key].kind == MentionEntity
    ensures r.Ok? && ctx.entityMap[range.key].kind == LinkEntity ==>
      r.value == Some(Mark("link", Some(LinkAttrs(ctx.entityMap[range.key]))))
    ensures r.Ok? && ctx.entityMap[range.key].kind == MentionEntity && ctx.config.getMentionAttrs.Some? ==>
      r.value == Some(Mark("mention", Some(ctx.config.getMentionAttrs.value(ctx.entityMap[range.key]))))
    ensures (r.Ok? && ctx.entityMap[range.key].kind == MentionEntity
             && ctx.config.getMentionAttrs.None? && ctx.config.unknownMarkTypeHandler.Some?) ==>
      r.value == ctx.config.unknownMarkTypeHandler.value(ctx.entityMap[range.key])
    ensures r.Ok? && ctx.entityMap[range.key].kind.OtherEntity? ==> r.value == None
  {
    if range.key !in ctx.entityMap then Err(EntityMissing(range.key))
    else
      var entity := ctx.entityMap[range.key];
      if entity.kind == LinkEntity then Ok(Some(Mark("link", Some(LinkAttrs(entity)))))
      else if entity.kind == MentionEntity then
        match (ctx.config.getMentionAttrs, ctx.config.unknownMarkTypeHandler)
        case (Some(getAttrs), _) => Ok(Some(Mark("mention", Some(getAttrs(entity)))))
        case (None, Some(handler)) => Ok(handler(entity))
        case (None, None) => Err(MentionUnsupported)
      else Ok(None)
  }

  /** `ranges.map((x) => draftjsEntityToTiptapMark(x, ctx))`: the first
      exception thrown, or one result per range, in order. */
  function EntityMarks(ranges: seq<EntityRange>, ctx: Context): Result<seq<Option<Mark>>, Error> {
    Collect(seq(|ranges|, i requires 0 <= i < |ranges| => EntityToMark(ranges[i], ctx)))
  }

  function LowerAscii(c: char): char {
    if 'A' <= c <= 'Z' then (c as int + 32) as char else c
  }

  /** `style.toLowerCase()` on ASCII letters. */
  function ToLowerCase(s: string): string {
    seq(|s|, i requires 0 <= i < |s| => LowerAscii(s[i]))
  }

  /** `{type: x.style.toLowerCase()}`. */
  function StyleMark(x: StyleRange): Mark {
    Mark(ToLowerCase(x.style), None)
  }

  /** One `{type: style.toLowerCase()}` per style range, in order. */
  function StyleMarkList(styles: seq<StyleRange>): seq<Mark> {
    seq(|styles|, i requires 0 <= i < |styles| => StyleMark(styles[i]))
  }

  /** The style marks as the `isDefined` filter sees them. */
  function StyleMarks(styles: seq<StyleRange>): seq<Option<Mark>> {
    var names := StyleMarkList(styles);
    seq(|names|, i requires 0 <= i < |names| => Some(names[i]))
  }

  /** The ranges `.filter(...)` keeps for the run `[start, end)`. */
  function ActiveStyles(styles: seq<StyleRange>, start: nat, end: nat): seq<StyleRange> {
    Filter(styles, (x: StyleRange) => Overlaps(start, end, x.offset, x.End()))
  }

  function ActiveEntities(entities: seq<EntityRange>, start: nat, end: nat): seq<EntityRange> {
    Filter(entities, (x: EntityRange) => Overlaps(start, end, x.offset, x.End()))
  }

  /** `...(marks.length > 0 && { marks })`: the key is there only with a
      non-empty list. */
  function MarksField(marks: seq<Mark>): (r: Option<seq<Mark>>)
    ensures r.Some? <==> |marks| > 0
    ensures r.Some? ==> r.value == marks
  {
    if |marks| > 0 then Some(marks) else None
  }

  /** A text run over `[start, end)`, marked by the given entity ranges and
      then the given style ranges, with `undefined` marks dropped. */
  function TextRun(text: String16, start: nat, end: nat,
                   entities: seq<EntityRange>, styles: seq<StyleRange>, ctx: Context): Result<Inline, Error> {
    match EntityMarks(entities, ctx)
    case Err(e) => Err(e)
    case Ok(entityMarks) =>
      Ok(Text(USlice(text, start, Some(end)), MarksField(FilterDefined(entityMarks + StyleMarks(styles)))))
  }

  /** The run the engine builds for `[start, end)`. */
  function RunAt(text: String16, styles: seq<StyleRange>, entities: seq<EntityRange>,
                 start: nat, end: nat, ctx: Context): Result<Inline, Error> {
    TextRun(text, start, end, ActiveEntities(entities, start, end), ActiveStyles(styles, start, end), ctx)
  }

  /** `splits.slice(1).entries().map(...)`: one run per consecutive pair
      of splits, or the first exception. */
  function Runs(text: String16, styles: seq<StyleRange>, entities: seq<EntityRange>,
                splits: seq<nat>, ctx: Context): Result<seq<Inline>, Error>
  {
    var n := if splits == [] then 0 else |splits| - 1;
    Collect(seq(n, j requires 0 <= j < n => RunAt(text, styles, entities, splits[j], splits[j + 1], ctx)))
  }

  /** `draftjsTextToTiptap(block, ctx)`. Spreading an absent range list throws. */
  function TextToTiptap(block: Block, ctx: Context): Result<seq<Inline>, Error> {
    match (block.inlineStyleRanges, block.entityRanges)
    case (Some(styles), Some(entities)) =>
      Runs(block.text, styles, entities, Splits(block.text, styles, entities), ctx)
    case _ => Err(RangesNotIterable)
  }

  // ---------------------------------------------------------------------
  // What the engine guarantees

  /** The splits of a block whose two range lists are present. */
  function BlockSplits(block: Block): seq<nat>
    requires block.inlineStyleRanges.Some? && block.entityRanges.Some?
  {
    Splits(block.text, block.inlineStyleRanges.value, block.entityRanges.value)
  }

  /** The text of the runs, joined in order. */
  function RunTexts(runs: seq<Inline>): String16 {
    if runs == [] then [] else (if runs[0].Text? then runs[0].text else []) + RunTexts(runs[1..])
  }

  /** Joining the texts of the runs for pairs `k..` gives the slice of the
      text from split `k` to the last split. */
  lemma {:induction false} RunTextsFrom(text: String16, s: seq<nat>, runs: seq<Inline>, k: nat)
    requires StrictlyIncreasing(s) && |runs| == |s| - 1 && k < |s|
    requires forall j | 0 <= j < |runs| :: runs[j].Text? && runs[j].text == USlice(text, s[j], Some(s[j + 1]))
    ensures RunTexts(runs[k..]) == USlice(text, s[k], Some(s[|s| - 1]))
    decreases |s| - k
  {
    if k + 1 == |s| {
      assert runs[k..] == [];
    } else {
      RunTextsFrom(text, s, runs, k + 1);
      assert runs[k..][1..] == runs[k + 1..];
      USliceSplit(text, s[k], s[k + 1], s[|s| - 1]);
    }
  }

  /** A successful conversion yields one text run per consecutive pair of
      splits, `[splits[j], splits[j + 1])`, holding that slice of the text;
      a run's `marks` is never an empty list; and the runs' texts, joined in
      order, give back the block's text exactly. */
  lemma RunsPartitionText(block: Block, ctx: Context, runs: seq<Inline>)
    requires TextToTiptap(block, ctx) == Ok(runs)
    ensures block.inlineStyleRanges.Some? && block.entityRanges.Some?
    ensures |runs| == |BlockSplits(block)| - 1
    ensures forall j | 0 <= j < |runs| ::
      && runs[j].Text?
      && runs[j].text == USlice(block.text, BlockSplits(block)[j], Some(BlockSplits(block)[j + 1]))
      && (runs[j].marks.Some? ==> runs[j].marks.value != [])
    ensures RunTexts(runs) == block.text
  {
    RunsOfBlock(block, ctx, runs);
    SplitsShape(block.text, block.inlineStyleRanges.value, block.entityRanges.value);
    PartitionOver(block.text, block.inlineStyleRanges.value, block.entityRanges.value, BlockSplits(block), ctx, runs);
  }

  /** `RunsPartitionText` over any increasing split list from 0 to at
      least `ulength(text)`. */
  lemma PartitionOver(text: String16, styles: seq<StyleRange>, entities: seq<EntityRange>,
                      s: seq<nat>, ctx: Context, runs: seq<Inline>)
    requires |s| >= 1 && s[0] == 0 && StrictlyIncreasing(s) && ULength(text) <= s[|s| - 1]
    requires |runs| == |s| - 1
    requires forall j | 0 <= j < |runs| :: RunAt(text, styles, entities, s[j], s[j + 1], ctx) == Ok(runs[j])
    ensures forall j | 0 <= j < |runs| ::
      && runs[j].Text?
      && runs[j].text == USlice(text, s[j], Some(s[j + 1]))
      && (runs[j].marks.Some? ==> runs[j].marks.value != [])
    ensures RunTexts(runs) == text
  {
    forall j | 0 <= j < |runs|
      ensures runs[j].Text? && runs[j].text == USlice(text, s[j], Some(s[j + 1]))
      ensures runs[j].marks.Some? ==> runs[j].marks.value != []
    {
      RunAtShape(text, styles, entities, s[j], s[j + 1], ctx, runs[j]);
    }
    RunTextsFrom(text, s, runs, 0);
    assert runs[0..] == runs;
    USliceWhole(text);
  }

  /** What `Runs` returns on success, pair by pair. */
  lemma RunsAreRunAt(text: String16, styles: seq<StyleRange>, entities: seq<EntityRange>,
                     s: seq<nat>, ctx: Context, runs: seq<Inline>)
    requires |s| >= 1
    requires Runs(text, styles, entities, s, ctx) == Ok(runs)
    ensures |runs| == |s| - 1
    ensures forall j | 0 <= j < |runs| :: RunAt(text, styles, entities, s[j], s[j + 1], ctx) == Ok(runs[j])
  {
    CollectSpec(seq(|s| - 1, j requires 0 <= j < |s| - 1 => RunAt(text, styles, entities, s[j], s[j + 1], ctx)));
  }

  lemma RunsOfBlock(block: Block, ctx: Context, runs: seq<Inline>)
    requires TextToTiptap(block, ctx) == Ok(runs)
    ensures block.inlineStyleRanges.Some? && block.entityRanges.Some?
    ensures |runs| == |BlockSplits(block)| - 1
    ensures forall j | 0 <= j < |runs| ::
      RunAt(block.text, block.inlineStyleRanges.value, block.entityRanges.value,
            BlockSplits(block)[j], BlockSplits(block)[j + 1], ctx) == Ok(runs[j])
  {
    SplitsShape(block.text, block.inlineStyleRanges.value, block.entityRanges.value);
    RunsAreRunAt(block.text, block.inlineStyleRanges.value, block.entityRanges.value, BlockSplits(block), ctx, runs);
  }

  /** `Runs` fails exactly when one of its runs does. */
  lemma RunsFailIff(text: String16, styles: seq<StyleRange>, entities: seq<EntityRange>,
                    s: seq<nat>, ctx: Context)
    requires |s| >= 1
    ensures Runs(text, styles, entities, s, ctx).Err? <==>
      exists j | 0 <= j < |s| - 1 :: RunAt(text, styles, entities, s[j], s[j + 1], ctx).Err?
  {
    if Runs(text, styles, entities, s, ctx).Err? {
      FailingRunsHaveFailingRun(text, styles, entities, s, ctx);
    }
    if exists j | 0 <= j < |s| - 1 :: RunAt(text, styles, entities, s[j], s[j + 1], ctx).Err? {
      var j :| 0 <= j < |s| - 1 && RunAt(text, styles, entities, s[j], s[j + 1], ctx).Err?;
      FailingRunFailsRuns(text, styles, entities, s, ctx, j);
    }
  }

  /** A failing `Runs` has a failing run. */
  lemma FailingRunsHaveFailingRun(text: String16, styles: seq<StyleRange>, entities: seq<EntityRange>,
                  s: seq<nat>, ctx: Context)
    requires |s| >= 1
    requires Runs(text, styles, entities, s, ctx).Err?
    ensures exists j | 0 <= j < |s| - 1 :: RunAt(text, styles, entities, s[j], s[j + 1], ctx).Err?
  {
    var rs := seq(|s| - 1, j requires 0 <= j < |s| - 1 => RunAt(text, styles, entities, s[j], s[j + 1], ctx));
    CollectSpec(rs);
    var j :| 0 <= j < |rs| && rs[j].Err?;
    assert RunAt(text, styles, entities, s[j], s[j + 1], ctx).Err?;
  }

  /** A failing run makes `Runs` fail. */
  lemma FailingRunFailsRuns(text: String16, styles: seq<StyleRange>, entities: seq<EntityRange>,
                  s: seq<nat>, ctx: Context, j: nat)
    requires j < |s| - 1 && RunAt(text, styles, entities, s[j], s[j + 1], ctx).Err?
    ensures Runs(text, styles, entities, s, ctx).Err?
  {
    var rs := seq(|s| - 1, j requires 0 <= j < |s| - 1 => RunAt(text, styles, entities, s[j], s[j + 1], ctx));
    CollectSpec(rs);
    assert rs[j].Err?;
  }

  /** A run holds the slice `[a, b)` of the text and a `marks` key only
      with a non-empty list. */
  lemma RunAtShape(text: String16, styles: seq<StyleRange>, entities: seq<EntityRange>,
                   a: nat, b: nat, ctx: Context, run: Inline)
    requires RunAt(text, styles, entities, a, b, ctx) == Ok(run)
    ensures run.Text? && run.text == USlice(text, a, Some(b))
    ensures run.marks.Some? ==> run.marks.value != []
  {
  }

  /** Runs that start at or past `ulength(text)` (from ranges that reach
      beyond the text, which are not clamped) have empty text. */
  lemma RunsPastEndAreEmpty(block: Block, ctx: Context, runs: seq<Inline>, j: nat)
    requires TextToTiptap(block, ctx) == Ok(runs)
    requires j < |runs|
    ensures block.inlineStyleRanges.Some? && block.entityRanges.Some? && j + 1 < |BlockSplits(block)|
    ensures BlockSplits(block)[j] >= ULength(block.text) ==> runs[j].Text? && runs[j].text == []
  {
    RunsPartitionText(block, ctx, runs);
  }

  /** A block with empty text and no ranges yields no run at all. */
  lemma EmptyTextHasNoRuns(kind: BlockType, ctx: Context)
    ensures TextToTiptap(Block(kind, [], Some([]), Some([])), ctx) == Ok([])
  {
    var block := Block(kind, [], Some([]), Some([]));
    SplitsShape([], [], []);
    assert CodePoints([]) == [];
    assert Boundaries([], [], []) == [0, 0];
    OnlyZero(BlockSplits(block));
  }

  /** An increasing list holding only zeros is `[0]`. */
  lemma OnlyZero(s: seq<nat>)
    requires |s| >= 1 && StrictlyIncreasing(s)
    requires forall x | x in s :: x in [0, 0]
    ensures |s| == 1
  {
    assert s[0] in s && s[|s| - 1] in s;
  }

  /** Every range the engine marks a run with covers the whole run: with
      `[a, b)` two consecutive splits, a range overlaps the run exactly when
      `offset <= a` and `b <= offset + length`, since no range boundary falls
      strictly inside a run. */
  lemma OverlapMeansCover(a: nat, b: nat, offset: nat, end: nat)
    requires a < b && offset <= end
    requires offset <= a || b <= offset
    requires end <= a || b <= end
    ensures Overlaps(a, b, offset, end) <==> offset <= a && b <= end
  {
  }

  function CoveringStyles(styles: seq<StyleRange>, a: nat, b: nat): seq<StyleRange> {
    Filter(styles, (x: StyleRange) => x.offset <= a && b <= x.End())
  }

  function CoveringEntities(entities: seq<EntityRange>, a: nat, b: nat): seq<EntityRange> {
    Filter(entities, (x: EntityRange) => x.offset <= a && b <= x.End())
  }

  /** Mark correctness: run `j` carries one mark per entity range covering
      all of `[splits[j], splits[j + 1])`, then one per style range covering
      it, each in input order, without de-duplication, with the `undefined`
      entity marks dropped. */
  lemma RunMarksAreCoveringRanges(block: Block, ctx: Context, runs: seq<Inline>, j: nat)
    requires TextToTiptap(block, ctx) == Ok(runs)
    requires j < |runs|
    ensures block.inlineStyleRanges.Some? && block.entityRanges.Some?
    ensures j + 1 < |BlockSplits(block)|
    ensures var s := BlockSplits(block);
      TextRun(block.text, s[j], s[j + 1],
              CoveringEntities(block.entityRanges.value, s[j], s[j + 1]),
              CoveringStyles(block.inlineStyleRanges.value, s[j], s[j + 1]), ctx) == Ok(runs[j])
  {
    RunsOfBlock(block, ctx, runs);
    var styles, entities := block.inlineStyleRanges.value, block.entityRanges.value;
    var s := BlockSplits(block);
    var a, b := s[j], s[j + 1];
    SplitsShape(block.text, styles, entities);
    assert a < b;
    forall x | x in styles
      ensures Overlaps(a, b, x.offset, x.End()) == (x.offset <= a && b <= x.End())
    {
      var i :| 0 <= i < |styles| && styles[i] == x;
      NothingBetweenSplits(s, j, x.offset);
      NothingBetweenSplits(s, j, x.End());
      OverlapMeansCover(a, b, x.offset, x.End());
    }
    FilterCongruent(styles, (x: StyleRange) => Overlaps(a, b, x.offset, x.End()),
                            (x: StyleRange) => x.offset <= a && b <= x.End());
    forall x | x in entities
      ensures Overlaps(a, b, x.offset, x.End()) == (x.offset <= a && b <= x.End())
    {
      var i :| 0 <= i < |entities| && entities[i] == x;
      NothingBetweenSplits(s, j, x.offset);
      NothingBetweenSplits(s, j, x.End());
      OverlapMeansCover(a, b, x.offset, x.End());
    }
    FilterCongruent(entities, (x: EntityRange) => Overlaps(a, b, x.offset, x.End()),
                              (x: EntityRange) => x.offset <= a && b <= x.End());
    assert RunAt(block.text, styles, entities, a, b, ctx) == Ok(runs[j]);
  }

  /** A run's marks are its defined entity marks followed by its style
      marks: the `isDefined` filter drops only `undefined` entity marks and
      keeps every style mark, in order. */
  lemma TextRunMarks(text: String16, start: nat, end: nat,
                     entities: seq<EntityRange>, styles: seq<StyleRange>, ctx: Context)
    requires TextRun(text, start, end, entities, styles, ctx).Ok?
    ensures EntityMarks(entities, ctx).Ok?
    ensures TextRun(text, start, end, entities, styles, ctx).value ==
      Text(USlice(text, start, Some(end)),
           MarksField(FilterDefined(EntityMarks(entities, ctx).value) + StyleMarkList(styles)))
  {
    var ms := EntityMarks(entities, ctx).value;
    FilterDefinedAppend(ms, StyleMarks(styles));
    FilterDefinedAllSome(StyleMarkList(styles));
  }

  /** Run `j`'s `marks`: the defined marks of the entity ranges covering
      it, then one lower-cased style mark per style range covering it, each
      in input order; the key is absent when both are empty. */
  lemma RunMarksInOrder(block: Block, ctx: Context, runs: seq<Inline>, j: nat)
    requires TextToTiptap(block, ctx) == Ok(runs)
    requires j < |runs|
    ensures block.inlineStyleRanges.Some? && block.entityRanges.Some?
    ensures j + 1 < |BlockSplits(block)|
    ensures var s := BlockSplits(block);
      var entities := CoveringEntities(block.entityRanges.value, s[j], s[j + 1]);
      var styles := CoveringStyles(block.inlineStyleRanges.value, s[j], s[j + 1]);
      && EntityMarks(entities, ctx).Ok?
      && runs[j] == Text(USlice(block.text, s[j], Some(s[j + 1])),
                         MarksField(FilterDefined(EntityMarks(entities, ctx).value) + StyleMarkList(styles)))
  {
    RunMarksAreCoveringRanges(block, ctx, runs, j);
    var s := BlockSplits(block);
    TextRunMarks(block.text, s[j], s[j + 1],
                 CoveringEntities(block.entityRanges.value, s[j], s[j + 1]),
                 CoveringStyles(block.inlineStyleRanges.value, s[j], s[j + 1]), ctx);
  }

  /** A zero-length range never marks any run. */
  lemma ZeroLengthRangesNeverMark(styles: seq<StyleRange>, entities: seq<EntityRange>, a: nat, b: nat)
    ensures forall x | x in ActiveStyles(styles, a, b) :: x.length > 0
    ensures forall x | x in ActiveEntities(entities, a, b) :: x.length > 0
  {
    forall x | x in ActiveStyles(styles, a, b)
      ensures x.length > 0
    {
      FilterKeeps(styles, (x: StyleRange) => Overlaps(a, b, x.offset, x.End()), x);
    }
    forall x | x in ActiveEntities(entities, a, b)
      ensures x.length > 0
    {
      FilterKeeps(entities, (x: EntityRange) => Overlaps(a, b, x.offset, x.End()), x);
    }
  }

  /** A run fails exactly when resolving one of the entity ranges that
      overlap it fails. */
  lemma RunAtFailsIff(text: String16, styles: seq<StyleRange>, entities: seq<EntityRange>,
                      a: nat, b: nat, ctx: Context)
    ensures RunAt(text, styles, entities, a, b, ctx).Err? <==>
      exists x | x in entities :: Overlaps(a, b, x.offset, x.End()) && EntityToMark(x, ctx).Err?
  {
    var active := ActiveEntities(entities, a, b);
    var results := seq(|active|, i requires 0 <= i < |active| => EntityToMark(active[i], ctx));
    CollectSpec(results);
    if RunAt(text, styles, entities, a, b, ctx).Err? {
      var i :| 0 <= i < |results| && results[i].Err?;
      assert active[i] in active;
      FilterKeeps(entities, (x: EntityRange) => Overlaps(a, b, x.offset, x.End()), active[i]);
    }
    if exists x | x in entities :: Overlaps(a, b, x.offset, x.End()) && EntityToMark(x, ctx).Err? {
      var x :| x in entities && Overlaps(a, b, x.offset, x.End()) && EntityToMark(x, ctx).Err?;
      FilterKeeps(entities, (x: EntityRange) => Overlaps(a, b, x.offset, x.End()), x);
      assert x in active;
      var i :| 0 <= i < |active| && active[i] == x;
      assert results[i].Err?;
    }
  }

  /** The conversion of a block's text throws exactly when a range list is
      absent or when resolving some entity range of positive length throws
      (its key is missing from the entity map, or it is a mention and no
      hook is configured). A zero-length entity range is never resolved,
      so its key may dangle. */
  lemma TextToTiptapFailsIff(block: Block, ctx: Context)
    ensures TextToTiptap(block, ctx).Err? <==>
      || block.inlineStyleRanges.None?
      || block.entityRanges.None?
      || exists x | x in block.entityRanges.value :: x.length > 0 && EntityToMark(x, ctx).Err?
  {
    if block.inlineStyleRanges.Some? && block.entityRanges.Some? {
      if TextToTiptap(block, ctx).Err? {
        FailureHasCause(block, ctx);
      }
      if exists x | x in block.entityRanges.value :: x.length > 0 && EntityToMark(x, ctx).Err? {
        var x :| x in block.entityRanges.value && x.length > 0 && EntityToMark(x, ctx).Err?;
        CauseMeansFailure(block, ctx, x);
      }
    }
  }

  lemma FailureHasCause(block: Block, ctx: Context)
    requires block.inlineStyleRanges.Some? && block.entityRanges.Some?
    requires TextToTiptap(block, ctx).Err?
    ensures exists x | x in block.entityRanges.value :: x.length > 0 && EntityToMark(x, ctx).Err?
  {
    var text, styles, entities := block.text, block.inlineStyleRanges.value, block.entityRanges.value;
    var s := BlockSplits(block);
    SplitsShape(text, styles, entities);
    RunsFailIff(text, styles, entities, s, ctx);
    var j :| 0 <= j < |s| - 1 && RunAt(text, styles, entities, s[j], s[j + 1], ctx).Err?;
    RunAtFailsIff(text, styles, entities, s[j], s[j + 1], ctx);
  }

  lemma CauseMeansFailure(block: Block, ctx: Context, x: EntityRange)
    requires block.inlineStyleRanges.Some? && block.entityRanges.Some?
    requires x in block.entityRanges.value && x.length > 0 && EntityToMark(x, ctx).Err?
    ensures TextToTiptap(block, ctx).Err?
  {
    var text, styles, entities := block.text, block.inlineStyleRanges.value, block.entityRanges.value;
    var s := BlockSplits(block);
    assert |s| >= 1 && StrictlyIncreasing(s) && x.offset in s && x.End() in s by {
      SplitsShape(text, styles, entities);
      var i :| 0 <= i < |entities| && entities[i] == x;
    }
    CauseOver(text, styles, entities, s, ctx, x);
  }

  /** `CauseMeansFailure` over any increasing split list holding both ends
      of the failing range. */
  lemma CauseOver(text: String16, styles: seq<StyleRange>, entities: seq<EntityRange>,
                  s: seq<nat>, ctx: Context, x: EntityRange)
    requires |s| >= 1 && StrictlyIncreasing(s) && x.offset in s && x.End() in s
    requires x in entities && x.length > 0 && EntityToMark(x, ctx).Err?
    ensures Runs(text, styles, entities, s, ctx).Err?
  {
    var m := RunInside(s, x);
    RunAtFailsIff(text, styles, entities, s[m], s[m + 1], ctx);
    RunsFailIff(text, styles, entities, s, ctx);
  }

  /** A range of positive length whose two ends are splits overlaps the run
      that starts at its offset. */
  lemma RunInside(s: seq<nat>, x: EntityRange) returns (m: nat)
    requires StrictlyIncreasing(s) && x.length > 0
    requires x.offset in s && x.End() in s
    ensures m + 1 < |s| && s[m] == x.offset
    ensures Overlaps(s[m], s[m + 1], x.offset, x.End())
  {
    var k :| 0 <= k < |s| && s[k] == x.offset;
    var e :| 0 <= e < |s| && s[e] == x.End();
    assert k < e;
    m := k;
    assert s[m + 1] <= s[e];
  }
}
