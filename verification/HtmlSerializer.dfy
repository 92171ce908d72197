/** The DOM printer: an explicit work stack over the node arena, equal to the obvious recursion
    and never stopped by its step cap on a well-formed tree. */
module HtmlSerializer {
  import opened Wrappers
  import opened Text
  import opened Ordering

  type NodeId = nat

  datatype Attribute = Attribute(prefix: Option<string>, local: string, value: string)

  datatype NodeData =
    | Document
    | Doctype(name: string)
    | Element(tag: string, attrs: seq<Attribute>, contents: Option<NodeId>)
    | TextNode(text: string)
    | Comment(text: string)
    | ProcessingInstruction(target: string, data: string)

  datatype Node = Node(parent: Option<NodeId>, children: seq<NodeId>, data: NodeData)

  // Freed slots are None.
  type Arena = seq<Option<Node>>

  function GetNode(arena: Arena, id: NodeId): Option<Node>
  {
    if id < |arena| then arena[id] else None
  }

  predicate IsVoid(tag: string)
  {
    tag in {"area", "base", "br", "col", "embed", "hr", "img", "input", "link", "meta", "param", "source",
            "track", "wbr"}
  }

  predicate IsRawText(tag: string)
  {
    tag in {"script", "style", "textarea", "title"}
  }

  // ---------- escaping ----------

  function EscapeChar(c: char): string
  {
    if c == '&' then "&amp;" else if c == '<' then "&lt;" else if c == '>' then "&gt;" else [c]
  }

  function EscapeText(s: string): string
  {
    if s == [] then [] else EscapeChar(s[0]) + EscapeText(s[1..])
  }

  function EscapeAttrChar(c: char): string
  {
    if c == '&' then "&amp;" else if c == '"' then "&quot;" else [c]
  }

  function EscapeAttr(s: string): string
  {
    if s == [] then [] else EscapeAttrChar(s[0]) + EscapeAttr(s[1..])
  }

  /** Comments hide every `>`, so that no comment end survives in their text. */
  function EscapeComment(s: string): string
  {
    if s == [] then [] else (if s[0] == '>' then "&gt;" else [s[0]]) + EscapeComment(s[1..])
  }

  method AppendEscapedText(s: string, buf: string) returns (r: string)
    ensures r == buf + EscapeText(s)
  {
    r := buf;
    var rest := s;
    while rest != []
      invariant r + EscapeText(rest) == buf + EscapeText(s)
      decreases |rest|
    {
      Regroup(r, EscapeChar(rest[0]), EscapeText(rest[1..]));
      r := r + (match rest[0] case '&' => "&amp;" case '<' => "&lt;" case '>' => "&gt;" case c => [c]);
      rest := rest[1..];
    }
  }

  method AppendEscapedAttr(s: string, buf: string) returns (r: string)
    ensures r == buf + EscapeAttr(s)
  {
    r := buf;
    var rest := s;
    while rest != []
      invariant r + EscapeAttr(rest) == buf + EscapeAttr(s)
      decreases |rest|
    {
      Regroup(r, EscapeAttrChar(rest[0]), EscapeAttr(rest[1..]));
      r := r + (match rest[0] case '&' => "&amp;" case '"' => "&quot;" case c => [c]);
      rest := rest[1..];
    }
  }

  // ---------- the tags of one node ----------

  function PrintAttr(a: Attribute): string
  {
    " " + (if a.prefix.Some? then a.prefix.value + ":" else "") + a.local + "=\"" + EscapeAttr(a.value) + "\""
  }

  function PrintAttrs(attrs: seq<Attribute>): string
  {
    if attrs == [] then "" else PrintAttr(attrs[0]) + PrintAttrs(attrs[1..])
  }

  function OpenTag(tag: string, attrs: seq<Attribute>): string
  {
    "<" + tag + PrintAttrs(attrs) + ">"
  }

  function CloseTag(tag: string): string
  {
    "</" + tag + ">"
  }

  predicate ParentIsRaw(arena: Arena, node: Node)
  {
    && node.parent.Some?
    && var p := GetNode(arena, node.parent.value);
       p.Some? && p.value.data.Element? && IsRawText(p.value.data.tag)
  }

  /** The node whose children are an element's markup: a template's are in its contents. */
  function Source(data: NodeData, id: NodeId): NodeId
  {
    if data.Element? && data.contents.Some? then data.contents.value else id
  }

  function Children(arena: Arena, id: NodeId): seq<NodeId>
  {
    match GetNode(arena, id)
    case Some(node) => node.children
    case None => []
  }

  function ContentSource(arena: Arena, id: NodeId): NodeId
  {
    match GetNode(arena, id)
    case Some(node) => Source(node.data, id)
    case None => id
  }

  /** What a childless node prints. */
  function PrintLeaf(arena: Arena, node: Node): string
  {
    match node.data
    case Doctype(name) => "<!DOCTYPE " + name + ">"
    case TextNode(text) => if ParentIsRaw(arena, node) then text else EscapeText(text)
    case Comment(text) => "<!--" + EscapeComment(text) + "-->"
    case ProcessingInstruction(target, data) => "<?" + target + " " + data + ">"
    case _ => ""
  }

  // ---------- well-formed trees ----------

  /** Witnesses of a tree shape: every node's one owner, and a rank that falls from owner to owned. */
  datatype Shape = Shape(owner: NodeId -> Option<NodeId>, rank: NodeId -> nat)

  /** The nodes an element owns: its children and its template contents. */
  function Owned(node: Node): seq<NodeId>
  {
    if node.data.Element? && node.data.contents.Some? then node.children + [node.data.contents.value] else node.children
  }

  ghost predicate OwnsProperly(arena: Arena, shape: Shape, id: NodeId)
  {
    var node := GetNode(arena, id);
    node.Some? ==>
      && Distinct(Owned(node.value))
      && forall i :: 0 <= i < |Owned(node.value)| ==>
           var k := Owned(node.value)[i];
           && GetNode(arena, k).Some? && shape.owner(k) == Some(id) && shape.rank(k) < shape.rank(id)
           && (i < |node.value.children| ==> GetNode(arena, k).value.parent == Some(id))
  }

  /** No node has two owners or owns itself, directly or not, and children link to their parent. */
  ghost predicate WellFormed(arena: Arena, shape: Shape)
  {
    forall id: NodeId :: id < |arena| ==> OwnsProperly(arena, shape, id)
  }

  lemma OwnedIsBelow(arena: Arena, shape: Shape, id: NodeId, k: NodeId)
    requires WellFormed(arena, shape) && GetNode(arena, id).Some? && k in Owned(GetNode(arena, id).value)
    ensures GetNode(arena, k).Some? && shape.owner(k) == Some(id) && shape.rank(k) < shape.rank(id)
  {
    assert OwnsProperly(arena, shape, id);
  }

  lemma SourceChildrenBelow(arena: Arena, shape: Shape, id: NodeId, k: NodeId)
    requires WellFormed(arena, shape) && k in Children(arena, ContentSource(arena, id))
    ensures GetNode(arena, k).Some? && shape.owner(k) == Some(ContentSource(arena, id))
      && shape.rank(k) < shape.rank(id)
  {
    var source := ContentSource(arena, id);
    OwnedIsBelow(arena, shape, source, k);
    if source != id {
      OwnedIsBelow(arena, shape, id, source);
    }
  }

  // ---------- the recursive printer ----------

  ghost predicate Below(shape: Shape, ids: seq<NodeId>, bound: nat)
  {
    forall i :: 0 <= i < |ids| ==> shape.rank(ids[i]) < bound
  }

  ghost function Render(arena: Arena, shape: Shape, id: NodeId): string
    requires WellFormed(arena, shape)
    decreases shape.rank(id), 2, 0
  {
    match GetNode(arena, id)
    case None => ""
    case Some(node) =>
      match node.data
      case Document => RenderContents(arena, shape, id)
      case Element(tag, attrs, _) =>
        OpenTag(tag, attrs) + if IsVoid(tag) then "" else RenderContents(arena, shape, id) + CloseTag(tag)
      case _ => PrintLeaf(arena, node)
  }

  ghost function RenderContents(arena: Arena, shape: Shape, id: NodeId): string
    requires WellFormed(arena, shape)
    decreases shape.rank(id), 1, 0
  {
    var ids := Children(arena, ContentSource(arena, id));
    assert Below(shape, ids, shape.rank(id)) by {
      forall i | 0 <= i < |ids| ensures shape.rank(ids[i]) < shape.rank(id) {
        SourceChildrenBelow(arena, shape, id, ids[i]);
      }
    }
    RenderList(arena, shape, ids, shape.rank(id))
  }

  ghost function RenderList(arena: Arena, shape: Shape, ids: seq<NodeId>, bound: nat): string
    requires WellFormed(arena, shape) && Below(shape, ids, bound)
    decreases bound, 0, |ids|
  {
    if ids == [] then "" else Render(arena, shape, ids[0]) + RenderList(arena, shape, ids[1..], bound)
  }
}
