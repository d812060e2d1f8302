/** The strict element reader of LIST replies (`xmlTree`, src/media/reconciliation-r2.ts): tokens pushed through a
    stack of open elements, against the grammar of what it accepts. */
module XmlTree {
  import opened Prelude
  import opened XmlText

  datatype Xml = Xml(name: string, text: string, children: seq<Xml>)

  datatype Tag = TextTag(raw: string) | Open(name: string, ns: bool, selfClosing: bool) | Close(name: string) | Unsupported

  type Unescaper = string -> Result<string, StorageFailure>

  const DOCUMENT: Xml := Xml("", "", [])
  const MAX_DEPTH: nat := 4

  // ---------------------------------------------------------------- the stack machine

  /** The open elements, outermost first; the document itself is at the bottom. */
  type Stack = s: seq<Xml> | s != [] witness [DOCUMENT]

  function Top(stack: Stack): Xml { stack[|stack| - 1] }

  function WithTop(stack: Stack, node: Xml): Stack { stack[..|stack| - 1] + [node] }

  function AddChild(node: Xml, child: Xml): Xml { node.(children := node.children + [child]) }

  function Step(un: Unescaper, stack: Stack, tag: Tag): Result<Stack, StorageFailure> {
    match tag
    case TextTag(raw) =>
      (match un(raw)
       case Err(e) => Err(e)
       case Ok(t) => Ok(WithTop(stack, Top(stack).(text := Top(stack).text + t))))
    case Close(name) =>
      if |stack| < 2 || Top(stack).name != name then Err(ProtocolFailure)
      else
        var below := stack[..|stack| - 1];
        Ok(WithTop(below, AddChild(Top(below), Top(stack))))
    case Open(name, ns, selfClosing) =>
      if |stack| > MAX_DEPTH || (ns && |stack| != 1) then Err(ProtocolFailure)
      else
        var node := Xml(name, "", []);
        if selfClosing then Ok(WithTop(stack, AddChild(Top(stack), node))) else Ok(stack + [node])
    case Unsupported => Err(ProtocolFailure)
  }

  function Run(un: Unescaper, stack: Stack, tags: seq<Tag>): Result<Stack, StorageFailure>
    decreases |tags|
  {
    if tags == [] then Ok(stack)
    else match Step(un, stack, tags[0])
      case Err(e) => Err(e)
      case Ok(next) => Run(un, next, tags[1..])
  }

  /** White space and line terminators of ECMAScript, sections 12.2 and 12.3. */
  predicate IsWhite(c: char) {
    c as int in {9, 10, 11, 12, 13, 32, 0xA0, 0xFEFF, 0x1680, 0x2000, 0x2001, 0x2002, 0x2003, 0x2004, 0x2005, 0x2006,
                 0x2007, 0x2008, 0x2009, 0x200A, 0x2028, 0x2029, 0x202F, 0x205F, 0x3000}
  }

  predicate Blank(s: string) { forall i :: 0 <= i < |s| ==> IsWhite(s[i]) }

  /** Everything closed, one element, and nothing but white space beside it. */
  function Finish(stack: Stack): Result<Xml, StorageFailure> {
    if |stack| != 1 || |stack[0].children| != 1 || !Blank(stack[0].text) then Err(ProtocolFailure)
    else Ok(stack[0].children[0])
  }

  function ParseTags(un: Unescaper, tags: seq<Tag>): Result<Xml, StorageFailure> {
    match Run(un, [DOCUMENT], tags) case Err(e) => Err(e) case Ok(stack) => Finish(stack)
  }

  // ---------------------------------------------------------------- the grammar

  /** Balanced content: character data and elements, each element with its own content. */
  datatype Item = Chars(raw: string) | Empty(name: string, ns: bool) | Element(name: string, ns: bool, items: seq<Item>)

  function ItemTags(item: Item): seq<Tag>
    decreases item, 0
  {
    match item
    case Chars(raw) => [TextTag(raw)]
    case Empty(name, ns) => [Open(name, ns, true)]
    case Element(name, ns, items) => [Open(name, ns, false)] + Tags(items) + [Close(name)]
  }

  function Tags(items: seq<Item>): seq<Tag>
    decreases items, 1
  {
    if items == [] then [] else ItemTags(items[0]) + Tags(items[1..])
  }

  /** Content allowed inside `depth` open elements. */
  predicate ValidItem(un: Unescaper, item: Item, depth: nat)
    decreases item, 0
  {
    match item
    case Chars(raw) => un(raw).Ok?
    case Empty(_, ns) => depth < MAX_DEPTH && (ns ==> depth == 0)
    case Element(_, ns, items) => depth < MAX_DEPTH && (ns ==> depth == 0) && ValidItems(un, items, depth + 1)
  }

  predicate ValidItems(un: Unescaper, items: seq<Item>, depth: nat)
    decreases items, 1
  {
    items != [] ==> ValidItem(un, items[0], depth) && ValidItems(un, items[1..], depth)
  }

  /** The element an item adds to: its text appended, its child appended. */
  function Add(un: Unescaper, node: Xml, item: Item): Xml
    decreases item, 0
  {
    match item
    case Chars(raw) => if un(raw).Ok? then node.(text := node.text + un(raw).value) else node
    case Empty(name, _) => AddChild(node, Xml(name, "", []))
    case Element(name, _, items) => AddChild(node, Build(un, Xml(name, "", []), items))
  }

  function Build(un: Unescaper, node: Xml, items: seq<Item>): Xml
    decreases items, 1
  {
    if items == [] then node else Build(un, Add(un, node, items[0]), items[1..])
  }

  /** `tags` spell one balanced document whose single element reads as `t`. */
  predicate Derives(un: Unescaper, tags: seq<Tag>, t: Xml, items: seq<Item>) {
    ValidItems(un, items, 0) && Tags(items) == tags && Finish([Build(un, DOCUMENT, items)]) == Ok(t)
  }

  // ---------------------------------------------------------------- every document is read

  lemma RunFirst(un: Unescaper, stack: Stack, tag: Tag, rest: seq<Tag>)
    ensures Run(un, stack, [tag] + rest) ==
            if Step(un, stack, tag).Ok? then Run(un, Step(un, stack, tag).value, rest) else Step(un, stack, tag)
  {
    assert ([tag] + rest)[1..] == rest;
  }

  lemma StepClose(un: Unescaper, stack: Stack, node: Xml)
    ensures Step(un, stack + [node], Close(node.name)) == Ok(WithTop(stack, AddChild(Top(stack), node)))
  {
    assert (stack + [node])[..|stack|] == stack;
  }

  lemma StepOpen(un: Unescaper, stack: Stack, name: string, ns: bool)
    requires |stack| <= MAX_DEPTH && (ns ==> |stack| == 1)
    ensures Step(un, stack, Open(name, ns, false)) == Ok(stack + [Xml(name, "", [])])
  {
  }

  lemma RunElement(un: Unescaper, stack: Stack, item: Item, rest: seq<Tag>)
    requires item.Element? && ValidItem(un, item, |stack| - 1)
    ensures Run(un, stack, ItemTags(item) + rest) ==
            Run(un, WithTop(stack, AddChild(Top(stack), Build(un, Xml(item.name, "", []), item.items))), rest)
    decreases item, 0
  {
    var tail, child := [Close(item.name)] + rest, Xml(item.name, "", []);
    var closed := Build(un, child, item.items);
    assert ItemTags(item) + rest == [Open(item.name, item.ns, false)] + (Tags(item.items) + tail);
    RunFirst(un, stack, Open(item.name, item.ns, false), Tags(item.items) + tail);
    StepOpen(un, stack, item.name, item.ns);
    RunItems(un, stack, child, item.items, tail);
    BuildKeepsName(un, child, item.items);
    RunFirst(un, stack + [closed], Close(item.name), rest);
    StepClose(un, stack, closed);
  }

  lemma RunItem(un: Unescaper, below: seq<Xml>, node: Xml, item: Item, rest: seq<Tag>)
    requires ValidItem(un, item, |below|)
    ensures Run(un, below + [node], ItemTags(item) + rest) == Run(un, below + [Add(un, node, item)], rest)
    decreases item, 1
  {
    var stack: Stack := below + [node];
    assert WithTop(stack, Add(un, node, item)) == below + [Add(un, node, item)];
    match item
    case Chars(raw) => RunFirst(un, stack, TextTag(raw), rest);
    case Empty(name, ns) => RunFirst(un, stack, Open(name, ns, true), rest);
    case Element(_, _, _) => RunElement(un, stack, item, rest);
  }

  lemma RunItems(un: Unescaper, below: seq<Xml>, node: Xml, items: seq<Item>, rest: seq<Tag>)
    requires ValidItems(un, items, |below|)
    ensures Run(un, below + [node], Tags(items) + rest) == Run(un, below + [Build(un, node, items)], rest)
    decreases items, 2
  {
    if items == [] {
      assert [] + rest == rest;
    } else {
      assert Tags(items) + rest == ItemTags(items[0]) + (Tags(items[1..]) + rest);
      RunItem(un, below, node, items[0], Tags(items[1..]) + rest);
      RunItems(un, below, Add(un, node, items[0]), items[1..], rest);
    }
  }

  lemma {:induction false} BuildKeepsName(un: Unescaper, node: Xml, items: seq<Item>)
    ensures Build(un, node, items).name == node.name
    decreases |items|
  {
    if items != [] {
      BuildKeepsName(un, Add(un, node, items[0]), items[1..]);
    }
  }

  // ---------------------------------------------------------------- nothing invalid is read

  lemma RunInvalidItem(un: Unescaper, below: seq<Xml>, node: Xml, item: Item, rest: seq<Tag>)
    requires !ValidItem(un, item, |below|)
    ensures Run(un, below + [node], ItemTags(item) + rest).Err?
    decreases item, 0
  {
    var stack: Stack := below + [node];
    match item
    case Chars(raw) => RunFirst(un, stack, TextTag(raw), rest);
    case Empty(name, ns) => RunFirst(un, stack, Open(name, ns, true), rest);
    case Element(name, ns, items) =>
      var tail := [Close(name)] + rest;
      assert ItemTags(item) + rest == [Open(name, ns, false)] + (Tags(items) + tail);
      RunFirst(un, stack, Open(name, ns, false), Tags(items) + tail);
      if |below| < MAX_DEPTH && (ns ==> |below| == 0) {
        RunInvalidItems(un, stack, Xml(name, "", []), items, tail);
      }
  }

  /** Content that breaks a limit is refused whatever follows it. */
  lemma RunInvalidItems(un: Unescaper, below: seq<Xml>, node: Xml, items: seq<Item>, rest: seq<Tag>)
    requires !ValidItems(un, items, |below|)
    ensures Run(un, below + [node], Tags(items) + rest).Err?
    decreases items, 1
  {
    assert Tags(items) + rest == ItemTags(items[0]) + (Tags(items[1..]) + rest);
    if ValidItem(un, items[0], |below|) {
      RunItem(un, below, node, items[0], Tags(items[1..]) + rest);
      RunInvalidItems(un, below, Add(un, node, items[0]), items[1..], rest);
    } else {
      RunInvalidItem(un, below, node, items[0], Tags(items[1..]) + rest);
    }
  }

  // ---------------------------------------------------------------- only documents are read

  /** An element still open, with the content read into it so far. */
  datatype Frame = Frame(name: string, ns: bool, items: seq<Item>)

  function FrameNode(un: Unescaper, f: Frame): Xml { Build(un, Xml(f.name, "", []), f.items) }

  predicate ValidFrame(un: Unescaper, f: Frame, depth: nat) {
    ValidItems(un, f.items, depth) && (f.ns ==> depth == 1) && depth <= MAX_DEPTH
  }

  predicate Tracks(un: Unescaper, frames: seq<Frame>, stack: seq<Xml>) {
    && |frames| == |stack| > 0 && frames[0].name == "" && !frames[0].ns
    && forall i :: 0 <= i < |frames| ==> ValidFrame(un, frames[i], i) && stack[i] == FrameNode(un, frames[i])
  }

  /** The tags read so far: every open tag followed by the content after it. */
  function Consumed(frames: seq<Frame>): seq<Tag>
    requires frames != []
  {
    var n := |frames| - 1;
    if n == 0 then Tags(frames[0].items)
    else Consumed(frames[..n]) + [Open(frames[n].name, frames[n].ns, false)] + Tags(frames[n].items)
  }

  lemma {:induction false} TagsAppend(items: seq<Item>, item: Item)
    ensures Tags(items + [item]) == Tags(items) + ItemTags(item)
  {
    if items == [] {
      assert [] + [item] == [item];
      assert [item][1..] == [];
      assert Tags([item]) == ItemTags(item) + [];
    } else {
      var more := items + [item];
      assert more[0] == items[0] && more[1..] == items[1..] + [item];
      TagsAppend(items[1..], item);
      assert Tags(more) == ItemTags(items[0]) + (Tags(items[1..]) + ItemTags(item));
    }
  }

  lemma {:induction false} ValidAppend(un: Unescaper, items: seq<Item>, item: Item, depth: nat)
    requires ValidItems(un, items, depth) && ValidItem(un, item, depth)
    ensures ValidItems(un, items + [item], depth)
  {
    if items == [] {
      assert [] + [item] == [item];
      assert [item][1..] == [];
    } else {
      ValidAppend(un, items[1..], item, depth);
      assert (items + [item])[1..] == items[1..] + [item];
    }
  }

  lemma {:induction false} BuildAppend(un: Unescaper, node: Xml, items: seq<Item>, item: Item)
    ensures Build(un, node, items + [item]) == Add(un, Build(un, node, items), item)
    decreases |items|
  {
    if items == [] {
      assert [] + [item] == [item];
      assert [item][1..] == [];
    } else {
      BuildAppend(un, Add(un, node, items[0]), items[1..], item);
      assert (items + [item])[1..] == items[1..] + [item];
    }
  }

  /** One more item in the innermost frame. */
  function PushItem(frames: seq<Frame>, item: Item): seq<Frame>
    requires frames != []
  {
    var n := |frames| - 1;
    frames[..n] + [frames[n].(items := frames[n].items + [item])]
  }

  lemma PushConsumed(frames: seq<Frame>, item: Item)
    requires frames != []
    ensures Consumed(PushItem(frames, item)) == Consumed(frames) + ItemTags(item)
  {
    var n := |frames| - 1;
    var f, more := frames[n], PushItem(frames, item);
    assert more[..n] == frames[..n];
    TagsAppend(f.items, item);
    if n > 0 {
      var head := Consumed(frames[..n]) + [Open(f.name, f.ns, false)];
      Regroup(head, Tags(f.items), ItemTags(item), []);
    }
  }

  /** Reading an item into the innermost frame. */
  lemma PushTracks(un: Unescaper, frames: seq<Frame>, stack: Stack, item: Item)
    requires Tracks(un, frames, stack) && ValidItem(un, item, |frames| - 1)
    ensures Tracks(un, PushItem(frames, item), WithTop(stack, Add(un, Top(stack), item)))
  {
    var n := |frames| - 1;
    var f := frames[n];
    ValidAppend(un, f.items, item, n);
    BuildAppend(un, Xml(f.name, "", []), f.items, item);
  }

  /** A new element opened inside the innermost frame. */
  lemma OpenTracks(un: Unescaper, frames: seq<Frame>, stack: Stack, name: string, ns: bool)
    requires Tracks(un, frames, stack) && |stack| <= MAX_DEPTH && (ns ==> |stack| == 1)
    ensures var more := frames + [Frame(name, ns, [])];
            && Tracks(un, more, stack + [Xml(name, "", [])])
            && Consumed(more) == Consumed(frames) + [Open(name, ns, false)]
  {
    var more := frames + [Frame(name, ns, [])];
    assert more[..|frames|] == frames;
    assert Build(un, Xml(name, "", []), []) == Xml(name, "", []);
  }

  /** The frames after the innermost element is closed: it becomes an item of the frame below. */
  function Closed(frames: seq<Frame>): seq<Frame>
    requires |frames| >= 2
  {
    var n := |frames| - 1;
    PushItem(frames[..n], Element(frames[n].name, frames[n].ns, frames[n].items))
  }

  lemma CloseTracks(un: Unescaper, frames: seq<Frame>, stack: Stack)
    requires Tracks(un, frames, stack) && |stack| >= 2
    ensures var below: Stack := stack[..|stack| - 1];
            Tracks(un, Closed(frames), WithTop(below, AddChild(Top(below), Top(stack))))
  {
    var n := |frames| - 1;
    var f := frames[n];
    var item := Element(f.name, f.ns, f.items);
    var below: Stack := stack[..n];
    assert ValidItem(un, item, n - 1);
    assert Add(un, Top(below), item) == AddChild(Top(below), Top(stack));
    assert Tracks(un, frames[..n], below);
    PushTracks(un, frames[..n], below, item);
  }

  lemma CloseConsumed(frames: seq<Frame>)
    requires |frames| >= 2
    ensures Consumed(Closed(frames)) == Consumed(frames) + [Close(frames[|frames| - 1].name)]
  {
    var n := |frames| - 1;
    var f := frames[n];
    var head := Consumed(frames[..n]);
    Regroup(head, [Open(f.name, f.ns, false)], Tags(f.items), [Close(f.name)]);
    PushConsumed(frames[..n], Element(f.name, f.ns, f.items));
  }

  /** The frames after one more accepted tag. */
  function NextFrames(frames: seq<Frame>, tag: Tag): seq<Frame>
    requires frames != []
  {
    match tag
    case TextTag(raw) => PushItem(frames, Chars(raw))
    case Open(name, ns, selfClosing) =>
      if selfClosing then PushItem(frames, Empty(name, ns)) else frames + [Frame(name, ns, [])]
    case Close(_) => if |frames| == 1 then frames else Closed(frames)
    case Unsupported => frames
  }

  lemma StepTracks(un: Unescaper, frames: seq<Frame>, stack: Stack, tag: Tag)
    requires Tracks(un, frames, stack) && Step(un, stack, tag).Ok?
    ensures Tracks(un, NextFrames(frames, tag), Step(un, stack, tag).value)
    ensures Consumed(NextFrames(frames, tag)) == Consumed(frames) + [tag]
  {
    match tag {
      case TextTag(raw) =>
        PushTracks(un, frames, stack, Chars(raw));
        PushConsumed(frames, Chars(raw));
      case Open(name, ns, selfClosing) =>
        if selfClosing {
          PushTracks(un, frames, stack, Empty(name, ns));
          PushConsumed(frames, Empty(name, ns));
        } else {
          OpenTracks(un, frames, stack, name, ns);
        }
      case Close(name) =>
        CloseTracks(un, frames, stack);
        CloseConsumed(frames);
        BuildKeepsName(un, Xml(frames[|frames| - 1].name, "", []), frames[|frames| - 1].items);
    }
  }

  lemma {:induction false} ItemsOfRun(un: Unescaper, frames: seq<Frame>, stack: Stack, tags: seq<Tag>) returns (items: seq<Item>)
    requires Tracks(un, frames, stack)
    requires Run(un, stack, tags).Ok? && |Run(un, stack, tags).value| == 1
    ensures ValidItems(un, items, 0) && Tags(items) == Consumed(frames) + tags
    ensures Run(un, stack, tags).value == [Build(un, DOCUMENT, items)]
    decreases |tags|
  {
    if tags == [] {
      items := frames[0].items;
      assert Consumed(frames) + [] == Consumed(frames);
      assert stack == [FrameNode(un, frames[0])];
    } else {
      assert Consumed(frames) + tags == Consumed(frames) + [tags[0]] + tags[1..];
      StepTracks(un, frames, stack, tags[0]);
      items := ItemsOfRun(un, NextFrames(frames, tags[0]), Step(un, stack, tags[0]).value, tags[1..]);
    }
  }

  /** The reader accepts exactly the balanced documents of at most four levels, and reads each as the grammar does:
      an unclosed, misnamed or surplus tag is always refused. */
  lemma ParseTagsExact(un: Unescaper, tags: seq<Tag>, t: Xml)
    ensures ParseTags(un, tags) == Ok(t) <==> exists items :: Derives(un, tags, t, items)
  {
    forall items | Derives(un, tags, t, items) ensures ParseTags(un, tags) == Ok(t) {
      RunItems(un, [], DOCUMENT, items, []);
      assert [] + [DOCUMENT] == [DOCUMENT];
      assert [] + [Build(un, DOCUMENT, items)] == [Build(un, DOCUMENT, items)];
      assert Tags(items) + [] == tags;
    }
    if ParseTags(un, tags) == Ok(t) {
      var frames := [Frame("", false, [])];
      assert Build(un, DOCUMENT, []) == DOCUMENT;
      var items := ItemsOfRun(un, frames, [DOCUMENT], tags);
      assert Consumed(frames) + tags == tags;
      assert Derives(un, tags, t, items);
    }
  }
}
