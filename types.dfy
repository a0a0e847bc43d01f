/** The shapes of `src/types.ts`, and the tree the converter builds.

    Field names follow the source, except that the discriminator `type`
    (a keyword in Dafny) is called `kind`. */
module Types {
  import opened Wrappers
  import opened Unicode

  /** `DraftjsInlineRange`: the half-open code-point interval
      `[offset, offset + length)` carrying a style token such as "BOLD". */
  datatype StyleRange = StyleRange(offset: nat, length: nat, style: string) {
    /** `x.offset + x.length`. */
    function End(): nat { offset + length }
  }

  /** `DraftjsEntityRange`: an interval naming an entity of the entity map. */
  datatype EntityRange = EntityRange(offset: nat, length: nat, key: int) {
    function End(): nat { offset + length }
  }

  /** `block.type`. Each of the ten strings the converter's `switch` names
      has a constructor of its own; `Other(name)` stands for every other
      string. */
  datatype BlockType =
    | HeaderOne | HeaderTwo | HeaderThree | HeaderFour | HeaderFive | HeaderSix
    | UnorderedListItem | OrderedListItem | Paragraph | Unstyled
    | Other(name: string)

  /** The strings that have a constructor of their own. */
  const KnownTypeNames: seq<string> := [
    "header-one", "header-two", "header-three", "header-four", "header-five", "header-six",
    "unordered-list-item", "ordered-list-item", "paragraph", "unstyled"]

  /** The string a block type stands for. */
  function TypeName(t: BlockType): string {
    match t
    case HeaderOne => "header-one"
    case HeaderTwo => "header-two"
    case HeaderThree => "header-three"
    case HeaderFour => "header-four"
    case HeaderFive => "header-five"
    case HeaderSix => "header-six"
    case UnorderedListItem => "unordered-list-item"
    case OrderedListItem => "ordered-list-item"
    case Paragraph => "paragraph"
    case Unstyled => "unstyled"
    case Other(name) => name
  }

  /** The block type of a `type` string, as the `switch` tells them apart. */
  function ParseType(s: string): BlockType {
    if s == "header-one" then HeaderOne
    else if s == "header-two" then HeaderTwo
    else if s == "header-three" then HeaderThree
    else if s == "header-four" then HeaderFour
    else if s == "header-five" then HeaderFive
    else if s == "header-six" then HeaderSix
    else if s == "unordered-list-item" then UnorderedListItem
    else if s == "ordered-list-item" then OrderedListItem
    else if s == "paragraph" then Paragraph
    else if s == "unstyled" then Unstyled
    else Other(s)
  }

  /** A parsed type: `Other` never carries a name that has a constructor. */
  predicate WellFormedType(t: BlockType) {
    t.Other? ==> t.name !in KnownTypeNames
  }

  /** Parsing loses nothing: every string is recovered from its type, the
      type is well formed, and `Other` is exactly the unnamed strings. */
  lemma ParseTypeName(s: string)
    ensures TypeName(ParseType(s)) == s
    ensures WellFormedType(ParseType(s))
    ensures ParseType(s).Other? <==> s !in KnownTypeNames
  {
  }

  /** Every well-formed type is the parse of its own name. */
  lemma TypeNameParses(t: BlockType)
    requires WellFormedType(t)
    ensures ParseType(TypeName(t)) == t
  {
  }

  /** Comparing well-formed types is comparing the `type` strings, as
      `peek()?.type === fromType` does. */
  lemma SameTypeIffSameName(a: BlockType, b: BlockType)
    requires WellFormedType(a) && WellFormedType(b)
    ensures a == b <==> TypeName(a) == TypeName(b)
  {
    if TypeName(a) == TypeName(b) {
      TypeNameParses(a);
      TypeNameParses(b);
    }
  }

  /** `DraftjsBlock`. Both range lists are optional fields; `None` is a
      field that is absent. */
  datatype Block = Block(
    kind: BlockType,
    text: String16,
    inlineStyleRanges: Option<seq<StyleRange>>,
    entityRanges: Option<seq<EntityRange>>)

  /** A plain record of strings: an entity's `data` and a mark's `attrs`. */
  type Attrs = map<string, string>

  /** An entity's `type`: the two tags the converter knows, `"LINK"` and
      `"mention"`, or any other string. */
  datatype EntityType = LinkEntity | MentionEntity | OtherEntity(name: string)

  /** The entity type of a `type` string. */
  function ParseEntityType(s: string): (t: EntityType)
    ensures t == LinkEntity <==> s == "LINK"
    ensures t == MentionEntity <==> s == "mention"
    ensures t.OtherEntity? ==> t.name == s
  {
    if s == "LINK" then LinkEntity else if s == "mention" then MentionEntity else OtherEntity(s)
  }

  /** The string an entity type stands for. */
  function EntityTypeName(t: EntityType): string {
    match t
    case LinkEntity => "LINK"
    case MentionEntity => "mention"
    case OtherEntity(name) => name
  }

  /** A parsed entity type: `OtherEntity` never carries `"LINK"` or
      `"mention"`. */
  predicate WellFormedEntityType(t: EntityType) {
    t.OtherEntity? ==> t.name != "LINK" && t.name != "mention"
  }

  /** Parsing an entity type loses nothing, and its result is well formed. */
  lemma ParseEntityTypeName(s: string)
    ensures EntityTypeName(ParseEntityType(s)) == s
    ensures WellFormedEntityType(ParseEntityType(s))
  {
  }

  /** Every well-formed entity type is the parse of its own name, so
      comparing well-formed entity types is comparing their `type` strings. */
  lemma EntityTypeNameParses(t: EntityType)
    requires WellFormedEntityType(t)
    ensures ParseEntityType(EntityTypeName(t)) == t
  {
  }

  /** `DraftjsEntityType`: the tag and its data record. */
  datatype Entity = Entity(kind: EntityType, data: Attrs)

  type EntityMap = map<int, Entity>

  /** A tiptap mark `{type, attrs?}`. */
  datatype Mark = Mark(kind: string, attrs: Option<Attrs>)

  /** An inline tiptap node: a text run `{type: "text", text, marks?}`, whose
      `marks` key is absent when `None`, or a mark object placed in the
      content list as a node of its own (a lifted mention). */
  datatype Inline =
    | Text(text: String16, marks: Option<seq<Mark>>)
    | MarkNode(mark: Mark)

  /** A block-level tiptap node. */
  datatype Node =
    | TextNode(kind: string, content: seq<Inline>)    // `{type, content}`
    | Heading(level: nat, content: seq<Inline>)       // `{type: "heading", attrs: {level}, content}`
    | ListNode(kind: string, items: seq<Node>)        // `{type: toType, content: items}`
    | ListItem(children: seq<Node>)                   // `{type: "listItem", content: children}`

  /** The caller's hook for an unknown block type. It is handed the block,
      the cursor (here: the blocks and the cursor's position) and the entity
      map, and returns a node or null together with the number of times it
      called `next()` on the cursor. */
  type BlockHandler = (Block, seq<Block>, nat, EntityMap) -> (Option<Node>, nat)

  /** `Config`: three optional hooks supplied by the caller. An absent mark
      from `unknownMarkTypeHandler` stands for a returned null or undefined. */
  datatype Config = Config(
    getMentionAttrs: Option<Entity -> Attrs>,
    unknownBlockTypeHandler: Option<BlockHandler>,
    unknownMarkTypeHandler: Option<Entity -> Option<Mark>>)

  /** `Context` without its iterator, which is threaded separately. */
  datatype Context = Context(config: Config, entityMap: EntityMap)

  /** The exceptions the converter throws. */
  datatype Error =
    | BlocksNotArray        // TypeError: expected document blocks to be an array
    | EntityMapNotObject    // TypeError: expected document entityMap to be an object
    | RangesNotIterable     // TypeError from spreading an absent range list
    | EntityMissing(key: int) // TypeError from reading `.type` of `entityMap[key]`
    | MentionUnsupported    // Error: don't know how to convert a mention entity

  /** The argument of `draftjsToTiptap`. `Array.isArray(blocks)` and
      `isPlainObject(entityMap)` are reflection on JavaScript values; their
      outcomes are the two flags. */
  datatype Document = Document(
    blocksIsArray: bool,
    blocks: seq<Block>,
    entityMapIsPlainObject: bool,
    entityMap: EntityMap)

  /** A document read from JSON: every block's and every entity's type is
      the parse of its `type` string. */
  predicate WellFormedDocument(doc: Document) {
    && (forall b | b in doc.blocks :: WellFormedType(b.kind))
    && (forall key | key in doc.entityMap :: WellFormedEntityType(doc.entityMap[key].kind))
  }

  /** `{type: "doc", content}`. */
  datatype Doc = Doc(content: seq<Node>)
}
