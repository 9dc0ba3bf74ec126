/** The flat rendering of a document, and what of its text it keeps. */
module PlainText {
  import opened Body
  import opened Text

  // ------------------------------------------------------------ the renderer

  /** The non-empty blocks of a sequence of nodes. */
  function Blocks(nodes: seq<Node>): seq<string>
    decreases nodes, 0
  {
    if nodes == [] then []
    else
      var b := PlainBlock(nodes[0]);
      (if b != "" then [b] else []) + Blocks(nodes[1..])
  }

  function PlainBlocks(nodes: seq<Node>): string
    decreases nodes, 1
  {
    Join(Blocks(nodes), "\n\n")
  }

  /** The non-empty items of a list, each on lines of its own. */
  function Items(nodes: seq<Node>): seq<string>
    decreases nodes, 0
  {
    if nodes == [] then []
    else
      var item := PlainBlocks(nodes[0].content);
      (if item != "" then [ReplaceAll(item, "\n\n", "\n")] else []) + Items(nodes[1..])
  }

  function PlainBlock(n: Node): string
    decreases n, 0
  {
    match n.typ
    case Paragraph => PlainInline(n.content)
    case Heading => PlainInline(n.content)
    case BulletList => Join(Items(n.content), "\n")
    case OrderedList => Join(Items(n.content), "\n")
    case CodeBlock => TrimRight(RawText(n), c => c == '\n')
    case Blockquote => PlainBlocks(n.content)
    case HorizontalRule => ""
    case Image => n.attrs.alt
    case TextRun => n.text
    case HardBreak => "\n"
    case _ =>
      var inner := PlainBlocks(n.content);
      Join(Parts(n.text, inner), "\n\n")
  }

  function PlainInline(nodes: seq<Node>): string
    decreases nodes, 0
  {
    if nodes == [] then ""
    else
      var n := nodes[0];
      (match n.typ
       case TextRun => n.text
       case HardBreak => "\n"
       case Image => n.attrs.alt
       case _ => n.text + PlainInline(n.content)) + PlainInline(nodes[1..])
  }

  /** The result of the rewriting loop. */
  function Collapse(s: string): string
    decreases |s|
  {
    if Contains(s, "\n\n\n") then
      ReplaceShortens(s, "\n\n\n", "\n\n");
      Collapse(ReplaceAll(s, "\n\n\n", "\n\n"))
    else s
  }

  /** collapseBlankLines. */
  method CollapseBlankLines(text: string) returns (s: string)
    ensures s == Collapse(text) && !Contains(s, "\n\n\n")
  {
    s := text;
    while Contains(s, "\n\n\n")
      invariant Collapse(s) == Collapse(text)
      decreases |s|
    {
      ReplaceShortens(s, "\n\n\n", "\n\n");
      s := ReplaceAll(s, "\n\n\n", "\n\n");
    }
  }

  function RenderPlain(root: Node): string {
    TrimSpace(Collapse(PlainBlocks(root.content)))
  }

  // ----------------------------------------------------------- what is lost

  function Count(s: string): nat {
    |Letters(s)|
  }

  /** The letters a node holds where the renderer of blocks does not look: the text
      of a container, the description of an image where an item or code stands, and
      whatever hangs below a leaf. */
  function LostInBlock(n: Node): nat
    decreases n, 1
  {
    match n.typ
    case Paragraph => Count(n.text) + LostInline(n.content)
    case Heading => Count(n.text) + LostInline(n.content)
    case BulletList => Count(n.text) + LostInItems(n.content)
    case OrderedList => Count(n.text) + LostInItems(n.content)
    case CodeBlock => LostInRaw(n)
    case Blockquote => Count(n.text) + LostInBlocks(n.content)
    case HorizontalRule => Count(n.text) + Count(AllTexts(n.content))
    case Image => Count(n.text) + Count(AllTexts(n.content))
    case TextRun => Count(AllTexts(n.content))
    case HardBreak => Count(n.text) + Count(AllTexts(n.content))
    case _ => LostInBlocks(n.content)
  }

  function LostInBlocks(nodes: seq<Node>): nat
    decreases nodes, 0
  {
    if nodes == [] then 0 else LostInBlock(nodes[0]) + LostInBlocks(nodes[1..])
  }

  function LostInItems(nodes: seq<Node>): nat
    decreases nodes, 0
  {
    if nodes == [] then 0
    else
      Count(nodes[0].text) + (if nodes[0].typ == Image then Count(nodes[0].attrs.alt) else 0)
      + LostInBlocks(nodes[0].content) + LostInItems(nodes[1..])
  }

  function LostInline(nodes: seq<Node>): nat
    decreases nodes, 0
  {
    if nodes == [] then 0
    else
      var n := nodes[0];
      (match n.typ
       case TextRun => Count(AllTexts(n.content))
       case HardBreak => Count(n.text) + Count(AllTexts(n.content))
       case Image => Count(n.text) + Count(AllTexts(n.content))
       case _ => LostInline(n.content)) + LostInline(nodes[1..])
  }

  function LostInRaw(n: Node): nat
    decreases n, 1
  {
    if n.typ == HardBreak then Count(n.text) + Count(AllTexts(n.content))
    else (if n.typ == Image then Count(n.attrs.alt) else 0) + LostInRaws(n.content)
  }

  function LostInRaws(nodes: seq<Node>): nat
    decreases nodes, 0
  {
    if nodes == [] then 0 else LostInRaw(nodes[0]) + LostInRaws(nodes[1..])
  }

  /** The letters of `kept` account for those of `all` but for `lost` of them. */
  predicate Accounts(kept: string, lost: nat, all: string) {
    Count(kept) + lost == Count(all) && (lost == 0 ==> Letters(kept) == Letters(all))
  }

  lemma AccountsAppend(k1: string, l1: nat, a1: string, k2: string, l2: nat, a2: string)
    requires Accounts(k1, l1, a1) && Accounts(k2, l2, a2)
    ensures Accounts(k1 + k2, l1 + l2, a1 + a2)
  {
    LettersConcat(k1, k2);
    LettersConcat(a1, a2);
  }

  lemma AccountsSame(kept: string, kept': string, lost: nat, all: string, all': string)
    requires Accounts(kept, lost, all) && Letters(kept') == Letters(kept) && Letters(all') == Letters(all)
    ensures Accounts(kept', lost, all')
  {
  }

  /** Text that is dropped is all lost. */
  lemma DroppedAccounts(s: string)
    ensures Accounts("", Count(s), s)
  {
  }

  lemma KeptAccounts(s: string)
    ensures Accounts(s, 0, s)
  {
  }

  // ------------------------------------------------------------- the account

  lemma {:induction false} RawAccounts(n: Node)
    ensures Accounts(RawText(n), LostInRaw(n), AllText(n))
    decreases n, 1
  {
    if n.typ == HardBreak {
      DroppedAccounts(n.text);
      DroppedAccounts(AllTexts(n.content));
      AccountsAppend("", Count(n.text), n.text, "", Count(AllTexts(n.content)), AllTexts(n.content));
      assert n.text + "" == n.text;
      AccountsSame("" + "", "\n", LostInRaw(n), n.text + AllTexts(n.content), AllText(n));
    } else {
      RawsAccount(n.content);
      var alt := if n.typ == Image then n.attrs.alt else "";
      KeptAccounts(n.text);
      DroppedAccounts(alt);
      AccountsAppend(n.text, 0, n.text, "", Count(alt), alt);
      AccountsAppend(n.text + "", Count(alt), n.text + alt, RawTexts(n.content), LostInRaws(n.content),
          AllTexts(n.content));
      assert n.text + "" == n.text;
    }
  }

  lemma {:induction false} RawsAccount(nodes: seq<Node>)
    ensures Accounts(RawTexts(nodes), LostInRaws(nodes), AllTexts(nodes))
    decreases nodes, 0
  {
    if nodes != [] {
      RawAccounts(nodes[0]);
      RawsAccount(nodes[1..]);
      AccountsAppend(RawText(nodes[0]), LostInRaw(nodes[0]), AllText(nodes[0]),
                     RawTexts(nodes[1..]), LostInRaws(nodes[1..]), AllTexts(nodes[1..]));
    }
  }

  /** A node of which the renderer keeps one string and drops the rest. */
  lemma LeafAccounts(n: Node, kept: string)
    requires kept == n.text || kept == (if n.typ == Image then n.attrs.alt else "") || AllSpace(kept)
    ensures kept == n.text && n.typ != Image ==> Accounts(kept, Count(AllTexts(n.content)), AllText(n))
    ensures n.typ == Image && kept == n.attrs.alt ==>
        Accounts(kept, Count(n.text) + Count(AllTexts(n.content)), AllText(n))
    ensures n.typ != Image && AllSpace(kept) ==> Accounts(kept, Count(n.text) + Count(AllTexts(n.content)), AllText(n))
  {
    var alt := if n.typ == Image then n.attrs.alt else "";
    LettersConcat(n.text, alt);
    LettersConcat(n.text + alt, AllTexts(n.content));
    if AllSpace(kept) { SpaceHasNoLetters(kept); }
  }

  lemma {:induction false} InlineAccounts(nodes: seq<Node>)
    ensures Accounts(PlainInline(nodes), LostInline(nodes), AllTexts(nodes))
    decreases nodes, 0
  {
    if nodes != [] {
      var n := nodes[0];
      var head := match n.typ case TextRun => n.text case HardBreak => "\n" case Image => n.attrs.alt
                  case _ => n.text + PlainInline(n.content);
      var lost: nat := match n.typ
        case TextRun => Count(AllTexts(n.content))
        case HardBreak => Count(n.text) + Count(AllTexts(n.content))
        case Image => Count(n.text) + Count(AllTexts(n.content))
        case _ => LostInline(n.content);
      if n.typ == TextRun || n.typ == HardBreak || n.typ == Image {
        LeafAccounts(n, head);
      } else {
        InlineAccounts(n.content);
        KeptAccounts(n.text);
        AccountsAppend(n.text, 0, n.text, PlainInline(n.content), LostInline(n.content), AllTexts(n.content));
        assert n.text + "" == n.text;
      }
      InlineAccounts(nodes[1..]);
      AccountsAppend(head, lost, AllText(n), PlainInline(nodes[1..]), LostInline(nodes[1..]), AllTexts(nodes[1..]));
    }
  }

  lemma {:induction false} BlocksAccount(nodes: seq<Node>)
    ensures Accounts(Concat(Blocks(nodes)), LostInBlocks(nodes), AllTexts(nodes))
    decreases nodes, 0
  {
    if nodes != [] {
      var b := PlainBlock(nodes[0]);
      BlockAccounts(nodes[0]);
      BlocksAccount(nodes[1..]);
      AccountsAppend(b, LostInBlock(nodes[0]), AllText(nodes[0]),
                     Concat(Blocks(nodes[1..])), LostInBlocks(nodes[1..]), AllTexts(nodes[1..]));
      if b != "" {
        assert ([b] + Blocks(nodes[1..]))[1..] == Blocks(nodes[1..]);
      } else {
        assert [] + Blocks(nodes[1..]) == Blocks(nodes[1..]);
        assert b + Concat(Blocks(nodes[1..])) == Concat(Blocks(nodes));
      }
    }
  }

  lemma PlainBlocksAccount(nodes: seq<Node>)
    requires Accounts(Concat(Blocks(nodes)), LostInBlocks(nodes), AllTexts(nodes))
    ensures Accounts(PlainBlocks(nodes), LostInBlocks(nodes), AllTexts(nodes))
  {
    JoinKeepsLetters(Blocks(nodes), "\n\n");
  }

  lemma {:induction false} ItemsAccount(nodes: seq<Node>)
    ensures Accounts(Concat(Items(nodes)), LostInItems(nodes), AllTexts(nodes))
    decreases nodes, 0
  {
    if nodes != [] {
      var n := nodes[0];
      var item := PlainBlocks(n.content);
      BlocksAccount(n.content);
      PlainBlocksAccount(n.content);
      ItemsAccount(nodes[1..]);
      var alt := if n.typ == Image then n.attrs.alt else "";
      DroppedAccounts(n.text);
      DroppedAccounts(alt);
      AccountsAppend("", Count(n.text), n.text, "", Count(alt), alt);
      AccountsAppend("" + "", Count(n.text) + Count(alt), n.text + alt, item, LostInBlocks(n.content),
          AllTexts(n.content));
      ReplaceKeepsLetters(item, "\n\n", "\n");
      var shown := if item != "" then ReplaceAll(item, "\n\n", "\n") else "";
      assert "" + "" + item == item;
      AccountsSame(item, shown, Count(n.text) + Count(alt) + LostInBlocks(n.content), AllText(n), AllText(n));
      AccountsAppend(shown, Count(n.text) + Count(alt) + LostInBlocks(n.content), AllText(n),
                     Concat(Items(nodes[1..])), LostInItems(nodes[1..]), AllTexts(nodes[1..]));
      if item != "" {
        assert ([shown] + Items(nodes[1..]))[1..] == Items(nodes[1..]);
      } else {
        assert [] + Items(nodes[1..]) == Items(nodes[1..]);
        assert shown + Concat(Items(nodes[1..])) == Concat(Items(nodes));
      }
    }
  }

  /** A container whose own text is dropped. */
  lemma ContainerAccounts(n: Node, kept: string, lost: nat)
    requires n.typ != Image && Accounts(kept, lost, AllTexts(n.content))
    ensures Accounts(kept, Count(n.text) + lost, AllText(n))
  {
    DroppedAccounts(n.text);
    AccountsAppend("", Count(n.text), n.text, kept, lost, AllTexts(n.content));
    assert "" + kept == kept && n.text + "" == n.text;
  }

  /** A container whose own text stands before its blocks. */
  lemma TransparentAccounts(n: Node, inner: string, lost: nat)
    requires n.typ != Image && Accounts(inner, lost, AllTexts(n.content))
    ensures Accounts(Join(Parts(n.text, inner), "\n\n"), lost, AllText(n))
  {
    JoinKeepsLetters(Parts(n.text, inner), "\n\n");
    PartsConcat(n.text, inner);
    KeptAccounts(n.text);
    AccountsAppend(n.text, 0, n.text, inner, lost, AllTexts(n.content));
    assert n.text + "" == n.text;
  }

  lemma {:induction false} BlockAccounts(n: Node)
    ensures Accounts(PlainBlock(n), LostInBlock(n), AllText(n))
    decreases n, 1
  {
    match n.typ
    case Paragraph =>
      InlineAccounts(n.content);
      ContainerAccounts(n, PlainInline(n.content), LostInline(n.content));
    case Heading =>
      InlineAccounts(n.content);
      ContainerAccounts(n, PlainInline(n.content), LostInline(n.content));
    case BulletList => ListAccounts(n);
    case OrderedList => ListAccounts(n);
    case CodeBlock =>
      RawAccounts(n);
      TrimRightKeepsLetters(RawText(n), c => c == '\n');
    case Blockquote =>
      BlocksAccount(n.content);
      PlainBlocksAccount(n.content);
      ContainerAccounts(n, PlainBlocks(n.content), LostInBlocks(n.content));
    case HorizontalRule => LeafAccounts(n, "");
    case Image => LeafAccounts(n, n.attrs.alt);
    case TextRun => LeafAccounts(n, n.text);
    case HardBreak => LeafAccounts(n, "\n");
    case _ =>
      BlocksAccount(n.content);
      PlainBlocksAccount(n.content);
      TransparentAccounts(n, PlainBlocks(n.content), LostInBlocks(n.content));
  }

  lemma {:induction false} ListAccounts(n: Node)
    requires n.typ == BulletList || n.typ == OrderedList
    ensures Accounts(Join(Items(n.content), "\n"), Count(n.text) + LostInItems(n.content), AllText(n))
    decreases n, 0
  {
    ItemsAccount(n.content);
    JoinKeepsLetters(Items(n.content), "\n");
    ContainerAccounts(n, Join(Items(n.content), "\n"), LostInItems(n.content));
  }

  lemma {:induction false} CollapseKeepsLetters(s: string)
    ensures Letters(Collapse(s)) == Letters(s) && !Contains(Collapse(s), "\n\n\n")
    decreases |s|
  {
    if Contains(s, "\n\n\n") {
      ReplaceShortens(s, "\n\n\n", "\n\n");
      ReplaceKeepsLetters(s, "\n\n\n", "\n\n");
      CollapseKeepsLetters(ReplaceAll(s, "\n\n\n", "\n\n"));
    }
  }

  // ------------------------------------------------------------ main results

  /** For every document the non-whitespace characters of the plain text and those
      the renderer drops add up to those of all its texts and image descriptions. */
  lemma PlainTextAccounts(root: Node)
    ensures Accounts(RenderPlain(root), LostInBlocks(root.content), AllTexts(root.content))
  {
    BlocksAccount(root.content);
    PlainBlocksAccount(root.content);
    CollapseKeepsLetters(PlainBlocks(root.content));
    TrimSpaceKeepsLetters(Collapse(PlainBlocks(root.content)));
  }

  /** Nothing is lost exactly when the renderer drops no letter. */
  lemma LosslessExactly(root: Node)
    ensures Letters(RenderPlain(root)) == Letters(AllTexts(root.content)) <==> LostInBlocks(root.content) == 0
  {
    PlainTextAccounts(root);
  }

  /** The plain text never has two blank lines in a row, nor whitespace at its ends. */
  lemma PlainTextIsTidy(root: Node)
    ensures var plain := RenderPlain(root);
            !Contains(plain, "\n\n\n") && (plain != "" ==> !IsSpace(plain[0]) && !IsSpace(plain[|plain| - 1]))
  {
    var s := Collapse(PlainBlocks(root.content));
    CollapseKeepsLetters(PlainBlocks(root.content));
    if Contains(TrimSpace(s), "\n\n\n") { TrimSpaceContained(s, "\n\n\n"); }
  }

  // --------------------------------------------------- documents of an editor

  predicate IsLeaf(t: NodeType) {
    t == TextRun || t == HardBreak || t == Image || t == HorizontalRule
  }

  /** No image anywhere below. */
  predicate NoImages(nodes: seq<Node>)
    decreases nodes
  {
    nodes == [] || (nodes[0].typ != Image && NoImages(nodes[0].content) && NoImages(nodes[1..]))
  }

  /** What an editor produces: text on text runs, code blocks and unknown nodes
      only, list items in lists, nothing below leaves, no images in code. */
  predicate NodeKept(n: Node) {
    && (n.text != "" ==> n.typ == TextRun || n.typ == CodeBlock || n.typ.Other?)
    && (n.typ == BulletList || n.typ == OrderedList ==> forall i | i in n.content :: i.typ == ListItem)
    && (IsLeaf(n.typ) ==> n.content == [])
    && (n.typ == CodeBlock ==> NoImages(n.content))
  }

  predicate WellKept(nodes: seq<Node>)
    decreases nodes
  {
    nodes == [] || (NodeKept(nodes[0]) && WellKept(nodes[0].content) && WellKept(nodes[1..]))
  }

  lemma {:induction false} KeptRaws(nodes: seq<Node>)
    requires WellKept(nodes) && NoImages(nodes)
    ensures LostInRaws(nodes) == 0
    decreases nodes
  {
    if nodes != [] {
      KeptRaws(nodes[0].content);
      KeptRaws(nodes[1..]);
    }
  }

  lemma {:induction false} KeptInline(nodes: seq<Node>)
    requires WellKept(nodes)
    ensures LostInline(nodes) == 0
    decreases nodes
  {
    if nodes != [] {
      KeptInline(nodes[0].content);
      KeptInline(nodes[1..]);
    }
  }

  lemma {:induction false} KeptBlocks(nodes: seq<Node>)
    requires WellKept(nodes)
    ensures LostInBlocks(nodes) == 0
    decreases nodes
  {
    if nodes != [] {
      KeptBlock(nodes[0], nodes);
      KeptBlocks(nodes[1..]);
    }
  }

  lemma {:induction false} KeptBlock(n: Node, nodes: seq<Node>)
    requires WellKept(nodes) && nodes != [] && n == nodes[0]
    ensures LostInBlock(n) == 0
    decreases nodes, 0
  {
    var inner := n.content;
    if n.typ == Paragraph || n.typ == Heading {
      KeptInline(inner);
    } else if n.typ == BulletList || n.typ == OrderedList {
      KeptItems(inner);
    } else if n.typ == CodeBlock {
      KeptRaws(inner);
    } else {
      KeptBlocks(inner);
    }
  }

  lemma {:induction false} KeptItems(nodes: seq<Node>)
    requires WellKept(nodes) && forall i | i in nodes :: i.typ == ListItem
    ensures LostInItems(nodes) == 0
    decreases nodes
  {
    if nodes != [] {
      KeptBlocks(nodes[0].content);
      KeptItems(nodes[1..]);
    }
  }

  /** No content of such a document is lost on the way to full-text search. */
  lemma EditorDocumentsLoseNothing(root: Node)
    requires WellKept(root.content)
    ensures Letters(RenderPlain(root)) == Letters(AllTexts(root.content))
  {
    KeptBlocks(root.content);
    LosslessExactly(root);
  }
}
