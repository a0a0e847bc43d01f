/** Paragraph and heading content: `draftjsTextToTiptapContent`
    (src/index.ts:131-141), which lifts a mention mark out of its run,
    `draftjsTextToTiptapNode` (src/index.ts:122-129) and
    `draftJsHeadingToTiptap` (src/index.ts:165-173), which does not. */
module Mention {
  import opened Wrappers
  import opened Utils
  import opened Types
  import opened Overlay

  predicate IsMention(m: Mark) { m.kind == "mention" }

  /** `node.marks?.filter((mark) => mark.type === "mention")[0]`: `None` is
      the `undefined` of an absent `marks` key or of an empty filter. */
  function FirstMention(run: Inline): Option<Mark> {
    if run.Text? && run.marks.Some? then
      var mentions := Filter(run.marks.value, IsMention);
      if |mentions| > 0 then Some(mentions[0]) else None
    else None
  }

  /** The first element kept by a filter is the first element of the list
      that passes it. */
  lemma {:induction false} FilterHead(ms: seq<Mark>)
    ensures |Filter(ms, IsMention)| > 0 <==> exists i | 0 <= i < |ms| :: IsMention(ms[i])
    ensures |Filter(ms, IsMention)| > 0 ==>
      exists i | 0 <= i < |ms| ::
        && ms[i] == Filter(ms, IsMention)[0]
        && IsMention(ms[i])
        && forall k | 0 <= k < i :: !IsMention(ms[k])
  {
    if ms != [] {
      FilterHead(ms[1..]);
      if !IsMention(ms[0]) {
        if exists i | 0 <= i < |ms| :: IsMention(ms[i]) {
          var i :| 0 <= i < |ms| && IsMention(ms[i]);
          assert ms[1..][i - 1] == ms[i];
        }
        if |Filter(ms, IsMention)| > 0 {
          var i :| 0 <= i < |ms[1..]| && ms[1..][i] == Filter(ms[1..], IsMention)[0] && IsMention(ms[1..][i])
            && forall k | 0 <= k < i :: !IsMention(ms[1..][k]);
          assert ms[i + 1] == ms[1..][i];
          forall k | 0 <= k < i + 1
            ensures !IsMention(ms[k])
          {
            if k > 0 { assert ms[k] == ms[1..][k - 1]; }
          }
        }
      }
    }
  }

  /** The lift of one run: `mention?.type === "mention" ? mention : node`. */
  function LiftMention(run: Inline): Inline {
    match FirstMention(run)
    case Some(m) => MarkNode(m)
    case None => run
  }

  /** A run carrying a `mention` mark becomes a node made of the first such
      mark; every other run, and every run without marks, is kept as is. */
  lemma LiftMentionCases(run: Inline)
    ensures
      (run.Text? && run.marks.Some? && exists i | 0 <= i < |run.marks.value| :: IsMention(run.marks.value[i]))
      <==> LiftMention(run) != run
    ensures LiftMention(run) != run ==>
      exists i | 0 <= i < |run.marks.value| ::
        && LiftMention(run) == MarkNode(run.marks.value[i])
        && IsMention(run.marks.value[i])
        && forall k | 0 <= k < i :: !IsMention(run.marks.value[k])
  {
    if run.Text? && run.marks.Some? {
      FilterHead(run.marks.value);
    }
  }

  /** `draftjsTextToTiptapContent(block, ctx)`: the runs with their
      mentions lifted, or the exception the runs threw. */
  function TextContent(block: Block, ctx: Context): Result<seq<Inline>, Error> {
    match TextToTiptap(block, ctx)
    case Err(e) => Err(e)
    case Ok(runs) => Ok(seq(|runs|, j requires 0 <= j < |runs| => LiftMention(runs[j])))
  }

  /** Lifting keeps one node per run, in order: the run itself or its first
      mention mark, and it throws exactly when the runs do. */
  lemma TextContentLiftsRuns(block: Block, ctx: Context)
    ensures TextContent(block, ctx).Err? <==> TextToTiptap(block, ctx).Err?
    ensures TextContent(block, ctx).Err? ==> TextContent(block, ctx).error == TextToTiptap(block, ctx).error
    ensures TextContent(block, ctx).Ok? ==>
      var runs, content := TextToTiptap(block, ctx).value, TextContent(block, ctx).value;
      && |content| == |runs|
      && (forall j | 0 <= j < |runs| :: content[j] == LiftMention(runs[j]))
      && forall j | 0 <= j < |runs| ::
        || content[j] == runs[j]
        || (content[j].MarkNode? && IsMention(content[j].mark) && content[j].mark in runs[j].marks.value)
  {
    if TextToTiptap(block, ctx).Ok? {
      var runs := TextToTiptap(block, ctx).value;
      forall j | 0 <= j < |runs|
        ensures LiftMention(runs[j]) == runs[j]
          || (LiftMention(runs[j]).MarkNode? && IsMention(LiftMention(runs[j]).mark)
              && LiftMention(runs[j]).mark in runs[j].marks.value)
      {
        LiftMentionCases(runs[j]);
      }
    }
  }

  /** `draftjsTextToTiptapNode(type, block, ctx)`: `{type, content}`. */
  function TextNodeOf(kind: string, block: Block, ctx: Context): Result<Node, Error> {
    match TextContent(block, ctx)
    case Err(e) => Err(e)
    case Ok(content) => Ok(TextNode(kind, content))
  }

  /** `draftJsHeadingToTiptap(block, level, ctx)`: the runs as they are,
      without the mention lift. */
  function HeadingOf(block: Block, level: nat, ctx: Context): Result<Node, Error> {
    match TextToTiptap(block, ctx)
    case Err(e) => Err(e)
    case Ok(runs) => Ok(Heading(level, runs))
  }

  /** Heading content is never lifted: every child is a text run, so a
      mention stays a mark on its run. */
  lemma HeadingKeepsMentionMarks(block: Block, level: nat, ctx: Context)
    ensures HeadingOf(block, level, ctx).Ok? <==> TextToTiptap(block, ctx).Ok?
    ensures HeadingOf(block, level, ctx).Ok? ==>
      && HeadingOf(block, level, ctx).value.Heading?
      && HeadingOf(block, level, ctx).value.level == level
      && HeadingOf(block, level, ctx).value.content == TextToTiptap(block, ctx).value
      && forall j | 0 <= j < |HeadingOf(block, level, ctx).value.content| ::
           HeadingOf(block, level, ctx).value.content[j].Text?
  {
    if TextToTiptap(block, ctx).Ok? {
      RunsPartitionText(block, ctx, TextToTiptap(block, ctx).value);
    }
  }
}
