# draftjs-to-tiptap in Dafny

A model of the Draft.js-to-Tiptap converter (`draftjs-to-tiptap/src/index.ts`
and `draftjs-to-tiptap/src/utils.ts`), with proofs of what it guarantees. The
converter turns a flat list of Draft.js blocks, each with its text and its
style and entity ranges, into a Tiptap document tree:

- **Unicode** (`unicode.dfy`): strings are sequences of UTF-16 code units.
  `[...s]` groups a high surrogate followed by a low surrogate into one item.
  `ulength` and `uslice` count and slice those items, with JavaScript's
  `slice` clamping.
- **Utils** (`utils.dfy`): `isDefined`, `uniq` (with `indexOf`), `overlaps`,
  and `filter`/`map` as the converter uses them.
- **Types** (`types.dfy`): blocks, ranges, entities, marks and nodes. Block
  and entity `type` strings are parsed into datatypes, with round-trip lemmas.
- **Overlay** (`overlay.dfy`): `draftjsTextToTiptap`. It computes the sorted,
  de-duplicated boundaries, then emits one text run per pair of consecutive
  boundaries. Each run carries its entity marks, then its style marks.
  `draftjsEntityToTiptapMark` resolves entities to marks.
- **Mention** (`mention.dfy`): the mention lift of paragraph content, and
  heading content, which is not lifted.
- **Iteration** (`iteration.dfy`): `createIterator` as a class whose field
  `i` is the shared counter that `next()` advances.
- **Blocks** (`blocks.dfy`): the dispatcher `draftJsBlockToTiptap`. Also
  `draftJsListToTiptap`, whose lookahead loop is a method that takes the
  cursor object as a parameter and advances it.
- **Driver** (`driver.dfy`): `draftjsToTiptap`, a method whose loop is proved
  against the walk function `ConvertFrom`. Without the unknown-block hook, the
  output is the nodes of the groups of blocks, in order. Every block is a
  group of its own, except that consecutive list items of one type form one
  group. A group of an unknown type (`blockquote`, `code-block` or any other
  unhandled type) gives null and contributes nothing. That grouping exists and
  is unique.

## Behaviour as written

The model follows the code where it differs from what the project's
description or a reader might expect:

- Empty text with no ranges yields no run at all.
- `blockquote` and `code-block` fall through to the unknown-block path.
- Marks are not de-duplicated.
- An entity type other than `LINK` and `mention` yields no mark.
- Headings are not mention-lifted.
- Ranges past the end of the text are not clamped. Their runs have empty text.
- A zero-length range adds a boundary but never a mark.
- A run's marks are those of every range that covers it, because every range
  end is a boundary.

## Model

| member | source | states |
|---|---|---|
| Utils.FilterDefined | draftjs-to-tiptap/src/index.ts:202 | `.filter(isDefined)`. No contract of its own: it is the definition, and `Utils.FilterDefinedSpec`, `FilterDefinedAllSome` and `FilterDefinedAppend` state its properties. |
| Utils.Collect | draftjs-to-tiptap/src/index.ts:194-196 | A `map` whose callback can throw. No contract of its own: it is the definition, and `Utils.CollectSpec` states its properties. |
| Utils.Uniq | draftjs-to-tiptap/src/utils.ts:3-4 | `uniq`, the `indexOf` filter. No contract of its own: it is the definition, and `Utils.UniqSpec`, `UniqKeepsFirstOccurrenceOrder`, `UniqOfDistinct` and `UniqIdempotent` state its properties. |
| Utils.FilterDefinedSpec | draftjs-to-tiptap/src/utils.ts:1 | `filter(isDefined)` keeps every defined value and only defined values. It never grows, and is empty exactly when nothing is defined. |
| Utils.FilterDefinedAllSome | draftjs-to-tiptap/src/index.ts:199-202 | Values that are all defined, as the style marks are, pass `filter(isDefined)` unchanged and in order. |
| Utils.FilterDefinedAppend | draftjs-to-tiptap/src/index.ts:191-202 | Filtering the entity marks followed by the style marks filters each part, so entity marks stay before style marks. |
| Utils.Filter | draftjs-to-tiptap/src/index.ts:194-201 | `filter` never returns more elements than it was given. |
| Utils.FilterKeeps | draftjs-to-tiptap/src/index.ts:194-201 | An element is kept exactly when it is in the list and passes the test. |
| Utils.FilterCongruent | draftjs-to-tiptap/src/index.ts:194-201 | Two tests that agree on every element keep the same list. |
| Utils.CollectSpec | draftjs-to-tiptap/src/index.ts:194-196 | A `map` whose callback can throw throws exactly when some element throws, and then with that element's error. Otherwise it returns one result per element, in order. |
| Utils.Overlaps | draftjs-to-tiptap/src/utils.ts:10-11 | `overlaps` holds iff `x1 < x2`, `y1 < y2`, `x1 < y2` and `y1 < x2`. It is false whenever either interval is empty. |
| Utils.OverlapsSymmetric | draftjs-to-tiptap/src/utils.ts:10-11 | `overlaps` is symmetric in its two intervals. |
| Utils.IndexOf | draftjs-to-tiptap/src/utils.ts:3-4 | `indexOf` is -1 exactly for an absent value. Otherwise it is the first position holding the value. |
| Utils.UniqPrefixSpec | draftjs-to-tiptap/src/utils.ts:3-4 | On a prefix, `uniq` keeps exactly the prefix's values, each once. |
| Utils.UniqSpec | draftjs-to-tiptap/src/utils.ts:3-4 | `uniq` has the same set of values as its input and no duplicates. |
| Utils.UniqPrefixOrder | draftjs-to-tiptap/src/utils.ts:3-4 | The values kept from a prefix first occur inside it, in the order of their first occurrences. |
| Utils.UniqKeepsFirstOccurrenceOrder | draftjs-to-tiptap/src/utils.ts:3-4 | `uniq` lists values in the order of their first occurrence in the input. |
| Utils.UniqOfDistinct | draftjs-to-tiptap/src/utils.ts:3-4 | A list without duplicates comes out of `uniq` unchanged. |
| Utils.UniqIdempotent | draftjs-to-tiptap/src/utils.ts:3-4 | `uniq(uniq(xs)) == uniq(xs)`. |
| Utils.UniqOfSortedIsStrictlyIncreasing | draftjs-to-tiptap/src/utils.ts:3-4 | `uniq` of a sorted list is strictly increasing. |
| Unicode.CodePoints | draftjs-to-tiptap/src/utils.ts:18 | `[...s]`. No contract of its own: it is the definition, and `Unicode.CodePointsSpec` states its properties. |
| Unicode.ULength | draftjs-to-tiptap/src/utils.ts:18 | `ulength`. No contract of its own: it is the definition, and `Unicode.ULengthCountsPairsOnce` and `USliceCodePoints` state its properties. |
| Unicode.USlice | draftjs-to-tiptap/src/utils.ts:19-20 | `uslice`. No contract of its own: it is the definition, and `Unicode.USliceCodePoints`, `USliceWhole` and `USliceSplit` state its properties. |
| Unicode.CodePointsSpec | draftjs-to-tiptap/src/utils.ts:18 | The items of `[...s]`, joined, give back `s`. Each item is one code unit or one surrogate pair, and there are at most as many items as code units. |
| Unicode.ULengthCountsPairsOnce | draftjs-to-tiptap/src/utils.ts:13-18 | `ulength(s)` is at most the UTF-16 length, and equal to it exactly when `s` holds no surrogate pair. |
| Unicode.DecodeJoinedRun | draftjs-to-tiptap/src/utils.ts:19-20 | Decoding a joined run of consecutive items gives exactly those items again: a cut on item boundaries never splits or creates a surrogate pair. |
| Unicode.USliceCodePoints | draftjs-to-tiptap/src/utils.ts:19-20 | `uslice(s, a, b)` is the items `[min(a, len), min(b, len))` of `[...s]`, or nothing when the first bound is not below the second. `b` defaults to the length, and the result's `ulength` is the clamped difference. |
| Unicode.USliceWhole | draftjs-to-tiptap/src/utils.ts:19-20 | `uslice(s, 0) == s`. |
| Unicode.USliceSplit | draftjs-to-tiptap/src/utils.ts:19-20 | `uslice(s, a, b) + uslice(s, b, c) == uslice(s, a, c)` for `a <= b <= c`. |
| Types.ParseType | draftjs-to-tiptap/src/index.ts:75-107 | The block `type` strings the `switch` names. No contract of its own: it is the definition, and `Types.ParseTypeName`, `TypeNameParses` and `SameTypeIffSameName` state its properties. |
| Types.ParseTypeName | draftjs-to-tiptap/src/index.ts:75-107 | Parsing a block `type` string loses nothing. The string is recovered from its type, and `Other` is exactly the strings the `switch` does not name. |
| Types.TypeNameParses | draftjs-to-tiptap/src/index.ts:75-107 | Every well-formed block type is the parse of its own name. |
| Types.SameTypeIffSameName | draftjs-to-tiptap/src/index.ts:150 | Comparing well-formed block types is comparing their `type` strings, as the lookahead does. |
| Types.ParseEntityType | draftjs-to-tiptap/src/index.ts:215-241 | An entity type is `LINK` exactly for `"LINK"` and `mention` exactly for `"mention"`. Any other string is kept as it is. |
| Types.ParseEntityTypeName | draftjs-to-tiptap/src/index.ts:215-241 | Parsing an entity `type` string loses nothing: the string is recovered from its type, and the type is well formed. |
| Types.EntityTypeNameParses | draftjs-to-tiptap/src/index.ts:215-241 | Every well-formed entity type is the parse of its own name. So `OtherEntity` never stands for `"LINK"` or `"mention"`. |
| Overlay.SortAscending | draftjs-to-tiptap/src/index.ts:184 | `sort((a, b) => a - b)`. No contract of its own: it is the definition, and `Overlay.SortSpec` and `SortKeepsMembers` state its properties. |
| Overlay.Boundaries | draftjs-to-tiptap/src/index.ts:177-183 | The list handed to `sort`. No contract of its own: it is the definition, and `Overlay.BoundariesHold` states its properties. |
| Overlay.Splits | draftjs-to-tiptap/src/index.ts:176-185 | `splits`. No contract of its own: it is the definition, and `Overlay.SplitsShape` and `NothingBetweenSplits` state its properties. |
| Overlay.EntityMarks | draftjs-to-tiptap/src/index.ts:194-196 | The entity ranges mapped through `draftjsEntityToTiptapMark`. No contract of its own: it is the definition, and `Utils.CollectSpec` and `Overlay.EntityToMark` state its properties. |
| Overlay.StyleMarkList | draftjs-to-tiptap/src/index.ts:199-201 | One `{type: style.toLowerCase()}` per style range. No contract of its own: it is the definition, and `Overlay.TextRunMarks` states its place in the marks. |
| Overlay.TextRun | draftjs-to-tiptap/src/index.ts:188-208 | One run, given the ranges that overlap it. No contract of its own: it is the definition, and `Overlay.TextRunMarks` and `RunAtShape` state its properties. |
| Overlay.RunAt | draftjs-to-tiptap/src/index.ts:187-209 | The run built for `[start, end)`. No contract of its own: it is the definition, and `Overlay.RunMarksAreCoveringRanges` and `RunAtFailsIff` state its properties. |
| Overlay.Runs | draftjs-to-tiptap/src/index.ts:187-209 | The `map` over consecutive splits. No contract of its own: it is the definition, and `Overlay.RunsAreRunAt` and `RunsFailIff` state its properties. |
| Overlay.TextToTiptap | draftjs-to-tiptap/src/index.ts:175-210 | `draftjsTextToTiptap`. No contract of its own: it is the definition, and `Overlay.RunsPartitionText`, `RunMarksInOrder`, `TextToTiptapFailsIff` and `EmptyTextHasNoRuns` state its properties. |
| Overlay.InsertSpec | draftjs-to-tiptap/src/index.ts:184 | One insertion step of the sort keeps the list ascending, adds exactly the new value, and puts the smaller of it and the old head first. |
| Overlay.SortSpec | draftjs-to-tiptap/src/index.ts:184 | `sort((a, b) => a - b)` yields ascending order and a permutation of its input. |
| Overlay.StyleBoundsHold | draftjs-to-tiptap/src/index.ts:180-183 | Both ends of every style range are among the boundaries. |
| Overlay.EntityBoundsHold | draftjs-to-tiptap/src/index.ts:180-183 | Both ends of every entity range are among the boundaries. |
| Overlay.SortKeepsMembers | draftjs-to-tiptap/src/index.ts:176-184 | Sorting keeps exactly the same values. |
| Overlay.SortedUniqueMembers | draftjs-to-tiptap/src/index.ts:176-185 | Sorting then `uniq` keeps exactly the same values and makes them strictly increasing. |
| Overlay.BoundariesHold | draftjs-to-tiptap/src/index.ts:176-184 | The list handed to `sort` holds 0, `ulength(text)` and both ends of every range. |
| Overlay.SplitsShape | draftjs-to-tiptap/src/index.ts:176-185 | `splits` is strictly increasing and starts at 0. It holds `ulength(text)` as a lower bound of its last value and both ends of every range, and nothing else. |
| Overlay.NothingBetweenSplits | draftjs-to-tiptap/src/index.ts:187-188 | No split lies strictly between two consecutive splits. |
| Overlay.EntityToMark | draftjs-to-tiptap/src/index.ts:212-242 | Entity resolution has five outcomes. A missing key throws, and so does a mention with neither hook. `LINK` gives the link mark with `_blank` and the fixed `rel`. A mention gives `getMentionAttrs`'s mark when that hook is set, and otherwise exactly what `unknownMarkTypeHandler` returns when that hook is set. Any other type gives no mark. |
| Overlay.MarksField | draftjs-to-tiptap/src/index.ts:207 | The `marks` key is present exactly when the list is non-empty, and then holds the list. |
| Overlay.RunsAreRunAt | draftjs-to-tiptap/src/index.ts:187-209 | On success there is one run per consecutive pair of splits, and run `j` is the run for `[splits[j], splits[j+1])`. |
| Overlay.RunsPartitionText | draftjs-to-tiptap/src/index.ts:187-189 | A successful conversion has one text run per consecutive pair of splits. Run `j` holds the slice between them, no `marks` key is an empty list, and joining the run texts gives back the block's text. |
| Overlay.RunsFailIff | draftjs-to-tiptap/src/index.ts:187-209 | The runs throw exactly when one run throws. |
| Overlay.RunAtShape | draftjs-to-tiptap/src/index.ts:187-208 | A run holds the text slice of its interval, and a `marks` key only with a non-empty list. |
| Overlay.RunsPastEndAreEmpty | draftjs-to-tiptap/src/index.ts:187-189 | A run starting at or past `ulength(text)` has empty text. |
| Overlay.EmptyTextHasNoRuns | draftjs-to-tiptap/src/index.ts:176-187 | Empty text with no ranges yields zero runs. |
| Overlay.OverlapMeansCover | draftjs-to-tiptap/src/index.ts:194-201 | For a range whose ends do not fall strictly inside a run, overlapping the run is the same as covering it. |
| Overlay.RunMarksAreCoveringRanges | draftjs-to-tiptap/src/index.ts:191-202 | Run `j`'s marks are one per entity range covering its interval, then one per covering style range. Each part is in input order, there is no de-duplication, and undefined entity marks are dropped. |
| Overlay.TextRunMarks | draftjs-to-tiptap/src/index.ts:191-208 | The `isDefined` filter over entity marks followed by style marks keeps the defined entity marks, then every lower-cased style mark, in order. |
| Overlay.RunMarksInOrder | draftjs-to-tiptap/src/index.ts:187-208 | Run `j`'s `marks` is the defined marks of the entity ranges covering it, then one lower-cased style mark per covering style range, each in input order. The key is absent when that list is empty. |
| Overlay.ZeroLengthRangesNeverMark | draftjs-to-tiptap/src/index.ts:194-201 | Every range that marks a run has positive length. |
| Overlay.RunAtFailsIff | draftjs-to-tiptap/src/index.ts:194-196 | A run throws exactly when resolving an entity range that overlaps it throws. |
| Overlay.TextToTiptapFailsIff | draftjs-to-tiptap/src/index.ts:175-210 | The conversion throws exactly when a range list is absent, or when resolving some positive-length entity range throws. |
| Mention.LiftMention | draftjs-to-tiptap/src/index.ts:132-140 | The lift of one run. No contract of its own: it is the definition, and `Mention.LiftMentionCases` states its properties. |
| Mention.TextContent | draftjs-to-tiptap/src/index.ts:131-141 | `draftjsTextToTiptapContent`. No contract of its own: it is the definition, and `Mention.TextContentLiftsRuns` states its properties. |
| Mention.TextNodeOf | draftjs-to-tiptap/src/index.ts:122-129 | `{type, content}` over the lifted content. No contract of its own: it is the definition, and `Blocks.DispatchParagraph` and `Blocks.ListNodeShape` state its properties. |
| Mention.HeadingOf | draftjs-to-tiptap/src/index.ts:165-173 | `draftJsHeadingToTiptap`. No contract of its own: it is the definition, and `Mention.HeadingKeepsMentionMarks` states its properties. |
| Mention.FilterHead | draftjs-to-tiptap/src/index.ts:133-136 | The first mark kept by the `mention` filter is the first mark of the list that is a mention. |
| Mention.LiftMentionCases | draftjs-to-tiptap/src/index.ts:132-140 | The lift changes a run exactly when it is a text run with a mention mark. It then becomes the first such mark; other runs are unchanged. |
| Mention.TextContentLiftsRuns | draftjs-to-tiptap/src/index.ts:131-141 | Paragraph content has one node per run, in order, and node `j` is run `j` lifted. By `LiftMentionCases`, that is the run's first mention mark when it has one, and the run itself otherwise. It throws exactly when the runs throw, with the same error. |
| Mention.HeadingKeepsMentionMarks | draftjs-to-tiptap/src/index.ts:165-173 | A heading has the given level, and its content is exactly the block's text runs, never lifted. It fails exactly when its runs fail. |
| Iteration.BlockAt | draftjs-to-tiptap/src/index.ts:28 | `blocks[k] ?? null` is a block exactly when `k` is in range, and then it is `blocks[k]`. |
| Iteration.BlockIterator.constructor | draftjs-to-tiptap/src/index.ts:23-24 | The cursor starts at 0 over the given blocks. |
| Iteration.BlockIterator.Peek | draftjs-to-tiptap/src/index.ts:27-29 | `peek(offset)` is the block at `i + offset`, or null, and the cursor does not move. |
| Iteration.BlockIterator.Next | draftjs-to-tiptap/src/index.ts:30-32 | `next()` returns the block at the old `i`, or undefined past the end. `i` always grows by one. |
| Blocks.HeadingLevel | draftjs-to-tiptap/src/index.ts:76-87 | Exactly the six heading types have a level. It is in 1..6, and it is the type's position in `header-one` … `header-six`. |
| Blocks.HeadingLevelsDistinct | draftjs-to-tiptap/src/index.ts:76-87 | The six heading types are distinct. |
| Blocks.ListTarget | draftjs-to-tiptap/src/index.ts:91-104 | Exactly the two list-item types have a container type. |
| Blocks.Following | draftjs-to-tiptap/src/index.ts:149-152 | What the lookahead gathers from cursor position `k` never runs past the end of the list. `Blocks.FollowingSpec` and `Driver.FollowingIsMaximalRun` state the rest. |
| Blocks.ListItemOf | draftjs-to-tiptap/src/index.ts:156-160 | One `listItem` wrapping one paragraph. No contract of its own: it is the definition, and `Blocks.ListNodeShape` states its properties. |
| Blocks.ListNodeOf | draftjs-to-tiptap/src/index.ts:154-162 | The list container. No contract of its own: it is the definition, and `Blocks.ListNodeShape` states its properties. |
| Blocks.FollowingSpec | draftjs-to-tiptap/src/index.ts:149-152 | The lookahead gathers a slice of the list, all of type `fromType`. The block after it, if any, has another type. |
| Blocks.ListNodeShape | draftjs-to-tiptap/src/index.ts:154-162 | A list container has one `listItem` per gathered block, in order, each wrapping exactly one paragraph of that block's lifted content. It throws exactly when some block's content throws. |
| Blocks.GatherList | draftjs-to-tiptap/src/index.ts:149-152 | The loop returns the first block followed by what the lookahead gathers, and advances the cursor past exactly those blocks. |
| Blocks.ListToTiptap | draftjs-to-tiptap/src/index.ts:143-163 | The list container is built from the gathered blocks, and the cursor ends just past them. |
| Blocks.Dispatch | draftjs-to-tiptap/src/index.ts:74-120 | Dispatching a block never moves the cursor back. |
| Blocks.BlockToTiptap | draftjs-to-tiptap/src/index.ts:74-120 | The method's result and new cursor position are those of `Dispatch` from the old position. |
| Blocks.DispatchHeading | draftjs-to-tiptap/src/index.ts:76-87 | `header-n` gives a `heading` of level `n` over the unlifted runs, or their error. The cursor does not move. |
| Blocks.DispatchParagraph | draftjs-to-tiptap/src/index.ts:88-90 | `paragraph` and `unstyled` give a `paragraph` of the lifted content, or its error. The cursor does not move. |
| Blocks.DispatchList | draftjs-to-tiptap/src/index.ts:143-163 | A list item swallows the maximal run of following blocks of its type. The cursor ends past the list or on a block of another type. The result is a `bulletList`/`orderedList` with one item per swallowed block. |
| Blocks.DispatchUnknown | draftjs-to-tiptap/src/index.ts:106-119 | Any other type yields the unknown-block hook's node, with the cursor moved by the hook's `next()` calls. Without the hook it yields null and the cursor stays. |
| Blocks.QuoteAndCodeAreUnknown | draftjs-to-tiptap/src/index.ts:106-108 | `blockquote` and `code-block` are unknown types. |
| Driver.ConvertFrom | draftjs-to-tiptap/src/index.ts:61-66 | The walk that the loop performs from block `k`. No contract of its own: it is the definition, and `Driver.StepOfWalk`, `Driver.DraftjsToTiptap` and `Driver.WalkFollowsGroups` state its properties. |
| Driver.DraftjsToTiptap | draftjs-to-tiptap/src/index.ts:36-72 | A non-array `blocks` throws the first TypeError, and a non-plain `entityMap` throws the second. Otherwise the method returns the document of the walk's nodes, or the walk's exception. Block and entity types are taken to be parsed from their `type` strings (`WellFormedDocument`). |
| Driver.ConvertBlock | draftjs-to-tiptap/src/index.ts:61-66 | One turn of the loop. The cursor is left where the dispatch of the block put it. The result is the collected content with the block's node pushed only when it is non-null, or the dispatch's exception. So the collected content followed by the rest of the walk is what it was before the turn. |
| Driver.StepOfWalk | draftjs-to-tiptap/src/index.ts:61-66 | The walk from block `k` is block `k`'s node, pushed only when non-null, followed by the walk from where its dispatch left the cursor. |
| Driver.GroupingFlattens | draftjs-to-tiptap/src/index.ts:143-163 | The pieces of a grouping, joined, are the blocks, and each piece is a valid piece. |
| Driver.FirstGroup | draftjs-to-tiptap/src/index.ts:149-152 | The first group is non-empty and within the list. |
| Driver.FirstGroupShape | draftjs-to-tiptap/src/index.ts:149-152 | The first group sits at the front, is of one type, and has several blocks only for a list type. A list group is followed by a block of another type. |
| Driver.GroupsIsGrouping | draftjs-to-tiptap/src/index.ts:143-163 | The converter's grouping is a grouping of the blocks. |
| Driver.GroupingIsUnique | draftjs-to-tiptap/src/index.ts:143-163 | Every grouping of the blocks is the converter's grouping. |
| Driver.FollowingIsMaximalRun | draftjs-to-tiptap/src/index.ts:150-152 | A run of one type that ends the list, or is followed by another type, is exactly what the lookahead gathers. |
| Driver.DispatchPiece | draftjs-to-tiptap/src/index.ts:74-120 | Without the hook, dispatching a piece's first block yields the piece's node and moves the cursor past the piece. |
| Driver.WalkFollowsGroups | draftjs-to-tiptap/src/index.ts:61-66 | Without the hook, the walk from `k` yields the nodes of any grouping of the remaining blocks, in order, nulls dropped. |
| Driver.ConvertIsGroupwise | draftjs-to-tiptap/src/index.ts:36-72 | Without the hook, the document's content is one node per piece of any grouping, in order, minus the null ones, or the first exception. |
| Driver.ConvertFollowsGroups | draftjs-to-tiptap/src/index.ts:36-72 | Without the hook, the content follows the converter's own grouping, which exists for every block list. |

## Left out

- `isPlainObject` and `Array.isArray` are reflection on JavaScript values. The two outcomes are flags on `Document`.
- `console.warn` for an unknown block type is logging only. The model returns null.
- The bodies of the hooks `getMentionAttrs`, `unknownMarkTypeHandler` and `unknownBlockTypeHandler` are caller code, modelled as optional functions. The unknown-block hook receives the block list and the cursor position, so it can read any block. The only effect on the cursor that is modelled is the number of its `next()` calls, and the cursor moves by that count.
- Exceptions thrown from inside a hook are not modelled.
- `toLowerCase` lowers ASCII letters only, not full Unicode case mapping.
- JavaScript numbers are modelled as `nat`. Negative or fractional offsets and lengths are not modelled.
- Entity `data` and mark `attrs` are string maps. A LINK entity without `url` gives no `href` key, as a JSON comparison sees an `undefined` value.
- A null or falsy entry inside `blocks` is not modelled: the driver loop would stop there, and the model has no null blocks.
- JSON key order and deep-equality details.
- Block and entity `type` strings are parsed into datatypes. The round-trip lemmas in `Types` relate the two, for block types and for entity types. `Driver.DraftjsToTiptap` requires every block's and every entity's type to be such a parse (`WellFormedDocument`). Hand-built values such as `Other("paragraph")` or `OtherEntity("LINK")` have no source string, so they are not inputs.
- Driver.ConvertIsGroupwise: proved only without the unknown-block hook, because that hook may move the cursor arbitrarily. With the hook, `Driver.DraftjsToTiptap` is still proved against the walk `ConvertFrom`.
- `types.ts` is used only as the reference for the datatypes, and the tests are not modelled.
