/** The message body of a chat bubble, reduced to the flat, document-order
    list of nodes that `querySelectorAll` and a `TreeWalker` visit, and the two
    transformations the content script applies to it: text extraction
    (`extractTextContent`) and write-back of a translation (`applyTranslation`). */
module MessageDom {
  import opened Strings

  /** Class of the host page's text-run spans. */
  const TextRunClass := "x1lliihq"
  /** Decorative span classes: selected for extraction, never overwritten. */
  const MarkerB38 := "b38"
  const MarkerB85 := "b85"
  /** Class of emoji images. */
  const EmojiClass := "emoji"

  /** One node of the body in document order. A span carries its
      `textContent` and whether an `img.emoji` is nested in it; images carry
      their `alt` attribute ("" when absent, as the `alt` property reads). */
  datatype Node =
    | Span(classes: set<string>, text: string, hasEmojiImg: bool)
    | Img(classes: set<string>, alt: string)
    | Br
    | TextNode(content: string)
    | OtherElement

  /** Matched by `span.x1lliihq, span.b38, span.b85`. */
  predicate IsRichSpan(n: Node) {
    n.Span? && (TextRunClass in n.classes || MarkerB38 in n.classes || MarkerB85 in n.classes)
  }

  /** Matched by `span.x1lliihq`. */
  predicate IsTextRunSpan(n: Node) {
    n.Span? && TextRunClass in n.classes
  }

  /** Matched by `img.emoji`. */
  predicate IsEmojiImg(n: Node) {
    n.Img? && EmojiClass in n.classes
  }

  predicate HasRichSpan(nodes: seq<Node>) {
    exists i :: 0 <= i < |nodes| && IsRichSpan(nodes[i])
  }

  predicate HasTextRunSpan(nodes: seq<Node>) {
    exists i :: 0 <= i < |nodes| && IsTextRunSpan(nodes[i])
  }

  // ---------------------------------------------------------------------
  // Extraction
  // ---------------------------------------------------------------------

  /** What the rich path emits for one node: an emoji's alt, one "\n" for a
      span whose text is exactly "" or "\n", any other rich span verbatim. */
  function RichPiece(n: Node): string {
    if IsEmojiImg(n) then n.alt
    else if IsRichSpan(n) then (if n.text == "\n" || n.text == "" then "\n" else n.text)
    else ""
  }

  function ExtractRich(nodes: seq<Node>): string {
    if |nodes| == 0 then "" else RichPiece(nodes[0]) + ExtractRich(nodes[1..])
  }

  /** What the tree walk emits for one node: text verbatim, "\n" for `BR` and
      for a `SPAN` whose trimmed text is empty, the alt of an `IMG` (nothing
      when the alt is empty), nothing for any other element. */
  function PlainPiece(n: Node): string {
    match n
    case TextNode(content) => content
    case Br => "\n"
    case Span(_, text, _) => if IsBlank(text) then "\n" else ""
    case Img(_, alt) => alt
    case OtherElement => ""
  }

  function ExtractPlain(nodes: seq<Node>): string {
    if |nodes| == 0 then "" else PlainPiece(nodes[0]) + ExtractPlain(nodes[1..])
  }

  /** `extractTextContent`: the rich path when some rich span exists, the tree walk otherwise. */
  function ExtractText(nodes: seq<Node>): string {
    if HasRichSpan(nodes) then ExtractRich(nodes) else ExtractPlain(nodes)
  }

  /** Both extractions emit the pieces of their nodes in document order. */
  lemma {:induction false} ExtractConcat(a: seq<Node>, b: seq<Node>)
    ensures ExtractRich(a + b) == ExtractRich(a) + ExtractRich(b)
    ensures ExtractPlain(a + b) == ExtractPlain(a) + ExtractPlain(b)
  {
    if |a| > 0 {
      assert (a + b)[1..] == a[1..] + b;
      ExtractConcat(a[1..], b);
    } else {
      assert a + b == b;
    }
  }

  /** A rich span standing for a line break. */
  predicate IsBreakSpan(n: Node) {
    IsRichSpan(n) && (n.text == "" || n.text == "\n")
  }

  function CountBreakSpans(nodes: seq<Node>): nat {
    if |nodes| == 0 then 0 else (if IsBreakSpan(nodes[0]) then 1 else 0) + CountBreakSpans(nodes[1..])
  }

  /** The nodes the tree walk turns into a newline. */
  predicate IsPlainBreak(n: Node) {
    n.Br? || (n.Span? && IsBlank(n.text))
  }

  function CountPlainBreaks(nodes: seq<Node>): nat {
    if |nodes| == 0 then 0 else (if IsPlainBreak(nodes[0]) then 1 else 0) + CountPlainBreaks(nodes[1..])
  }

  /** No node copies a "\n" of its own into the extraction. */
  predicate NoEmbeddedNewlines(nodes: seq<Node>) {
    forall i :: 0 <= i < |nodes| ==>
      && (nodes[i].Span? && !IsBreakSpan(nodes[i]) ==> '\n' !in nodes[i].text)
      && (nodes[i].Img? ==> '\n' !in nodes[i].alt)
      && (nodes[i].TextNode? ==> '\n' !in nodes[i].content)
  }

  /** Newline fidelity: when no text run carries a newline itself, the
      extracted text has exactly one "\n" per break node, so its lines
      correspond to the visual lines of the message. */
  lemma {:induction false} ExtractNewlineFidelity(nodes: seq<Node>)
    requires NoEmbeddedNewlines(nodes)
    ensures HasRichSpan(nodes) ==> Occurrences(ExtractText(nodes), '\n') == CountBreakSpans(nodes)
    ensures !HasRichSpan(nodes) ==> Occurrences(ExtractText(nodes), '\n') == CountPlainBreaks(nodes)
  {
    RichNewlines(nodes);
    PlainNewlines(nodes);
  }

  lemma {:induction false} RichNewlines(nodes: seq<Node>)
    requires NoEmbeddedNewlines(nodes)
    ensures Occurrences(ExtractRich(nodes), '\n') == CountBreakSpans(nodes)
  {
    if |nodes| > 0 {
      assert NoEmbeddedNewlines(nodes[1..]) by {
        forall i | 0 <= i < |nodes[1..]| ensures nodes[1..][i] == nodes[i + 1] { }
      }
      RichNewlines(nodes[1..]);
      var n := nodes[0];
      assert Occurrences(RichPiece(n), '\n') == (if IsBreakSpan(n) then 1 else 0) by {
        if IsBreakSpan(n) {
          assert RichPiece(n) == "\n";
        } else if IsEmojiImg(n) {
          assert '\n' !in n.alt;
        } else if IsRichSpan(n) {
          assert '\n' !in n.text;
        }
      }
      assert multiset(RichPiece(n) + ExtractRich(nodes[1..])) == multiset(RichPiece(n)) + multiset(ExtractRich(nodes[1..]));
    }
  }

  lemma {:induction false} PlainNewlines(nodes: seq<Node>)
    requires NoEmbeddedNewlines(nodes)
    ensures Occurrences(ExtractPlain(nodes), '\n') == CountPlainBreaks(nodes)
  {
    if |nodes| > 0 {
      assert NoEmbeddedNewlines(nodes[1..]) by {
        forall i | 0 <= i < |nodes[1..]| ensures nodes[1..][i] == nodes[i + 1] { }
      }
      PlainNewlines(nodes[1..]);
      var n := nodes[0];
      assert Occurrences(PlainPiece(n), '\n') == (if IsPlainBreak(n) then 1 else 0) by {
        if n.TextNode? {
          assert '\n' !in n.content;
        } else if n.Img? {
          assert '\n' !in n.alt;
        }
      }
      assert multiset(PlainPiece(n) + ExtractPlain(nodes[1..])) == multiset(PlainPiece(n)) + multiset(ExtractPlain(nodes[1..]));
    }
  }

  /** An emoji image between two text runs contributes its label, in place. */
  lemma EmojiLabelInPlace(a: string, alt: string, b: string)
    requires a != "" && a != "\n" && b != "" && b != "\n"
    ensures ExtractText([Span({TextRunClass}, a, false), Img({EmojiClass}, alt), Span({TextRunClass}, b, false)])
         == a + alt + b
  {
    var nodes := [Span({TextRunClass}, a, false), Img({EmojiClass}, alt), Span({TextRunClass}, b, false)];
    assert IsRichSpan(nodes[0]);
    assert nodes[1..][1..] == [nodes[2]];
    assert ExtractRich([nodes[2]]) == b by {
      assert [nodes[2]][1..] == [];
    }
    calc {
      ExtractRich(nodes);
      a + ExtractRich(nodes[1..]);
      a + (alt + ExtractRich([nodes[2]]));
    }
  }

  // ---------------------------------------------------------------------
  // Write-back of a translation
  // ---------------------------------------------------------------------

  /** A text-run span that receives a translated line: no nested emoji, no
      decorative class, and text that is not blank after trimming. */
  predicate IsEligible(n: Node) {
    && IsTextRunSpan(n)
    && !n.hasEmojiImg
    && MarkerB38 !in n.classes
    && MarkerB85 !in n.classes
    && !IsBlank(n.text)
  }

  function EligibleCount(nodes: seq<Node>): nat {
    if |nodes| == 0 then 0 else (if IsEligible(nodes[0]) then 1 else 0) + EligibleCount(nodes[1..])
  }

  function Min(a: nat, b: nat): nat {
    if a <= b then a else b
  }

  /** The node at position `i` after line assignment: the k-th eligible span
      (k counted from 0) gets line k when there is one; every other node keeps
      what it had. */
  function AfterAssignment(nodes: seq<Node>, i: nat, lines: seq<string>): Node
    requires i < |nodes|
  {
    var k := EligibleCount(nodes[..i]);
    if IsEligible(nodes[i]) && k < |lines| then nodes[i].(text := lines[k]) else nodes[i]
  }

  lemma EligibleCountPrefix(nodes: seq<Node>, i: nat)
    requires 0 < i <= |nodes|
    ensures EligibleCount(nodes[..i]) == (if IsEligible(nodes[0]) then 1 else 0) + EligibleCount(nodes[1..][..i - 1])
  {
    assert nodes[..i][1..] == nodes[1..][..i - 1];
  }

  /** The loop over the text-run spans: walks the nodes in order and gives
      each eligible span the next unconsumed line, as long as lines remain.
      Returns the rewritten nodes and the number of lines consumed. */
  function AssignLines(nodes: seq<Node>, lines: seq<string>): (r: (seq<Node>, nat))
    ensures |r.0| == |nodes|
    ensures r.1 == Min(EligibleCount(nodes), |lines|)
    ensures forall i :: 0 <= i < |nodes| ==> r.0[i] == AfterAssignment(nodes, i, lines)
  {
    if |nodes| == 0 then ([], 0)
    else
      var n := nodes[0];
      var take := IsEligible(n) && |lines| > 0;
      var rest := if take then AssignLines(nodes[1..], lines[1..]) else AssignLines(nodes[1..], lines);
      var head := if take then n.(text := lines[0]) else n;
      var r := ([head] + rest.0, if take then rest.1 + 1 else rest.1);
      assert forall i :: 0 <= i < |nodes| ==> r.0[i] == AfterAssignment(nodes, i, lines) by {
        forall i | 0 <= i < |nodes|
          ensures r.0[i] == AfterAssignment(nodes, i, lines)
        {
          if i == 0 {
            assert nodes[..0] == [];
          } else {
            EligibleCountPrefix(nodes, i);
            assert nodes[1..][i - 1] == nodes[i];
          }
        }
      }
      r
  }

  /** The span the applier creates for a leftover line. */
  function NewTextRunSpan(line: string): Node {
    Span({TextRunClass}, line, false)
  }

  /** The lines that are not blank after trimming, in order. */
  function NonBlankLines(lines: seq<string>): seq<string> {
    if |lines| == 0 then []
    else if IsBlank(lines[0]) then NonBlankLines(lines[1..])
    else [lines[0]] + NonBlankLines(lines[1..])
  }

  /** Filtering keeps only non-blank lines taken from the input, keeps every
      non-blank line of the input, and keeps all of them when none is blank. */
  lemma {:induction false} NonBlankLinesFilter(lines: seq<string>)
    ensures |NonBlankLines(lines)| <= |lines|
    ensures forall j :: 0 <= j < |NonBlankLines(lines)| ==>
      !IsBlank(NonBlankLines(lines)[j]) && NonBlankLines(lines)[j] in lines
    ensures forall k :: 0 <= k < |lines| && !IsBlank(lines[k]) ==> lines[k] in NonBlankLines(lines)
    ensures (forall k :: 0 <= k < |lines| ==> !IsBlank(lines[k])) ==> NonBlankLines(lines) == lines
  {
    if |lines| > 0 {
      var rest := NonBlankLines(lines[1..]);
      NonBlankLinesFilter(lines[1..]);
      assert lines == [lines[0]] + lines[1..];
      forall j | 0 <= j < |rest|
        ensures rest[j] in lines
      {
        assert rest[j] in lines[1..];
      }
      forall k | 1 <= k < |lines| && !IsBlank(lines[k])
        ensures lines[k] in NonBlankLines(lines)
      {
        assert lines[1..][k - 1] == lines[k];
      }
    }
  }

  /** Filtering a single line keeps it exactly when it is not blank, and
      filtering distributes over concatenation. Together these fix
      `NonBlankLines` as the order-preserving filter of the non-blank lines. */
  lemma {:induction false} NonBlankLinesAppend(a: seq<string>, b: seq<string>)
    ensures |a| == 1 ==> NonBlankLines(a) == (if IsBlank(a[0]) then [] else a)
    ensures NonBlankLines(a + b) == NonBlankLines(a) + NonBlankLines(b)
  {
    if |a| == 0 {
      assert a + b == b;
    } else {
      assert (a + b)[0] == a[0] && (a + b)[1..] == a[1..] + b;
      NonBlankLinesAppend(a[1..], b);
      if |a| == 1 {
        assert a[1..] == [];
      }
    }
  }

  /** One new text-run span per non-blank leftover line, in order. */
  function AppendedSpans(lines: seq<string>): (r: seq<Node>)
    ensures |r| == |NonBlankLines(lines)|
    ensures forall j :: 0 <= j < |r| ==> r[j] == NewTextRunSpan(NonBlankLines(lines)[j])
  {
    if |lines| == 0 then []
    else if IsBlank(lines[0]) then AppendedSpans(lines[1..])
    else [NewTextRunSpan(lines[0])] + AppendedSpans(lines[1..])
  }

  /** The rich-text branch of `applyTranslation` for the lines of the translation. */
  function WriteLines(nodes: seq<Node>, lines: seq<string>): (r: seq<Node>)
    ensures var used := Min(EligibleCount(nodes), |lines|);
      && |r| == |nodes| + |NonBlankLines(lines[used..])|
      && (forall i :: 0 <= i < |nodes| ==> r[i] == AfterAssignment(nodes, i, lines))
      && (forall j :: |nodes| <= j < |r| ==> r[j] == NewTextRunSpan(NonBlankLines(lines[used..])[j - |nodes|]))
  {
    var assignment := AssignLines(nodes, lines);
    var leftover := lines[assignment.1..];
    var appended := AppendedSpans(leftover);
    var r := assignment.0 + appended;
    assert forall i :: 0 <= i < |nodes| ==> r[i] == assignment.0[i];
    assert forall j :: |nodes| <= j < |r| ==> r[j] == appended[j - |nodes|];
    r
  }

  /** `applyTranslation`. An empty translation changes nothing. Without a
      text-run span the whole body becomes the translation as one text node.
      Otherwise the lines of the translation go, in order, into the eligible
      spans; every other node is left as it was; and the lines left over once
      the eligible spans are used up are appended as new spans, blank ones
      dropped. */
  function ApplyTranslation(nodes: seq<Node>, translation: string): (r: seq<Node>)
    ensures translation == "" ==> r == nodes
    ensures translation != "" && !HasTextRunSpan(nodes) ==> r == [TextNode(translation)]
    ensures translation != "" && HasTextRunSpan(nodes) ==>
      var lines := SplitLines(translation);
      var used := Min(EligibleCount(nodes), |lines|);
      && |r| == |nodes| + |NonBlankLines(lines[used..])|
      && (forall i :: 0 <= i < |nodes| ==> r[i] == AfterAssignment(nodes, i, lines))
      && (forall i :: 0 <= i < |nodes| && !IsEligible(nodes[i]) ==> r[i] == nodes[i])
      && (forall j :: |nodes| <= j < |r| ==> r[j] == NewTextRunSpan(NonBlankLines(lines[used..])[j - |nodes|]))
  {
    if translation == "" then nodes
    else if HasRichSpan(nodes) then
      if !HasTextRunSpan(nodes) then [TextNode(translation)]
      else WriteLines(nodes, SplitLines(translation))
    else
      [TextNode(translation)]
  }

  /** No span is appended when the translation has no more lines than there are eligible spans. */
  lemma NothingAppendedWhenLinesFit(nodes: seq<Node>, translation: string)
    requires translation != "" && HasTextRunSpan(nodes)
    requires |SplitLines(translation)| <= EligibleCount(nodes)
    ensures |ApplyTranslation(nodes, translation)| == |nodes|
  {
    var lines := SplitLines(translation);
    assert lines[|lines|..] == [];
  }

  // ---------------------------------------------------------------------
  // Line-for-line messages
  // ---------------------------------------------------------------------

  /** A text-run span holding one whole visual line. */
  predicate IsLineSpan(n: Node) {
    IsEligible(n) && '\n' !in n.text
  }

  /** The common shape of a multi-line message: line spans separated by
      single break spans (line, break, line, ..., line). */
  predicate IsLineLayout(nodes: seq<Node>)
    decreases |nodes|
  {
    && |nodes| >= 1
    && IsLineSpan(nodes[0])
    && (|nodes| == 1 || (|nodes| >= 3 && IsBreakSpan(nodes[1]) && IsLineLayout(nodes[2..])))
  }

  /** The texts of the line spans of a layout, top to bottom. */
  function LayoutLines(nodes: seq<Node>): seq<string>
    requires IsLineLayout(nodes)
    decreases |nodes|
  {
    [nodes[0].text] + (if |nodes| == 1 then [] else LayoutLines(nodes[2..]))
  }

  /** The layout with its k-th line span holding `lines[k]` and its break spans kept. */
  function Relabel(nodes: seq<Node>, lines: seq<string>): seq<Node>
    requires IsLineLayout(nodes) && |lines| == |LayoutLines(nodes)|
    decreases |nodes|
  {
    [nodes[0].(text := lines[0])] + (if |nodes| == 1 then [] else [nodes[1]] + Relabel(nodes[2..], lines[1..]))
  }

  /** Facts about a layout: its extraction joins its lines with "\n", and it
      has one eligible span per line. */
  lemma {:induction false} LayoutFacts(nodes: seq<Node>)
    requires IsLineLayout(nodes)
    ensures ExtractRich(nodes) == JoinLines(LayoutLines(nodes))
    ensures EligibleCount(nodes) == |LayoutLines(nodes)|
    ensures forall k :: 0 <= k < |LayoutLines(nodes)| ==> '\n' !in LayoutLines(nodes)[k] && !IsBlank(LayoutLines(nodes)[k])
  {
    var n := nodes[0];
    assert RichPiece(n) == n.text;
    if |nodes| == 1 {
      assert nodes[1..] == [];
    } else {
      var tail := nodes[2..];
      LayoutFacts(tail);
      assert nodes[1..][1..] == tail;
      assert IsBlank(nodes[1].text) && RichPiece(nodes[1]) == "\n";
      assert ExtractRich(nodes) == n.text + ("\n" + ExtractRich(tail));
      assert LayoutLines(nodes)[1..] == LayoutLines(tail);
    }
  }

  /** Line assignment on a layout puts line k in the k-th line span. */
  lemma {:induction false} LayoutAssign(nodes: seq<Node>, lines: seq<string>)
    requires IsLineLayout(nodes) && |lines| == |LayoutLines(nodes)|
    ensures AssignLines(nodes, lines).0 == Relabel(nodes, lines)
  {
    if |nodes| > 1 {
      var tail := nodes[2..];
      LayoutAssign(tail, lines[1..]);
      assert nodes[1..][1..] == tail;
      assert !IsEligible(nodes[1]);
      assert AssignLines(nodes[1..], lines[1..]).0 == [nodes[1]] + AssignLines(tail, lines[1..]).0;
    } else {
      assert nodes[1..] == [];
    }
  }

  /** A translation with exactly as many lines as a layout has line spans
      rewrites the message line for line and keeps its break spans. */
  lemma {:induction false} ApplyLineForLine(nodes: seq<Node>, lines: seq<string>)
    requires IsLineLayout(nodes) && |lines| == |LayoutLines(nodes)|
    requires forall k :: 0 <= k < |lines| ==> '\n' !in lines[k]
    requires JoinLines(lines) != ""
    ensures ApplyTranslation(nodes, JoinLines(lines)) == Relabel(nodes, lines)
  {
    LayoutFacts(nodes);
    SplitJoin(lines);
    LayoutAssign(nodes, lines);
    assert IsTextRunSpan(nodes[0]) && IsRichSpan(nodes[0]);
    assert lines[|lines|..] == [];
  }

  /** Relabelling a layout with its own lines gives it back. */
  lemma {:induction false} RelabelOwnLines(nodes: seq<Node>)
    requires IsLineLayout(nodes)
    ensures Relabel(nodes, LayoutLines(nodes)) == nodes
  {
    if |nodes| > 1 {
      RelabelOwnLines(nodes[2..]);
      assert LayoutLines(nodes)[1..] == LayoutLines(nodes[2..]);
      assert nodes == [nodes[0]] + [nodes[1]] + nodes[2..];
    }
  }

  /** Writing a message's own extraction back into it changes nothing: the
      extractor and the applier agree on where the lines of a message are. */
  lemma {:induction false} ExtractApplyRoundTrip(nodes: seq<Node>)
    requires IsLineLayout(nodes)
    ensures ApplyTranslation(nodes, ExtractText(nodes)) == nodes
  {
    LayoutFacts(nodes);
    assert IsRichSpan(nodes[0]);
    var lines := LayoutLines(nodes);
    assert JoinLines(lines) != "" by {
      assert !IsBlank(lines[0]);
      if |lines| > 1 {
        assert |JoinLines(lines)| >= |lines[0]|;
      }
    }
    ApplyLineForLine(nodes, lines);
    RelabelOwnLines(nodes);
  }

  /** The two-line case: a message "a" / "b" translated as "c\nd" becomes
      "c" / "d" with its break span kept (e.g. "Hello" / "world" and
      "Bonjour\nmonde"). */
  lemma TwoLineMessage(a: string, b: string, c: string, d: string)
    requires !IsBlank(a) && !IsBlank(b) && '\n' !in a && '\n' !in b
    requires '\n' !in c && '\n' !in d
    ensures
      var brk := Span({TextRunClass}, "\n", false);
      ApplyTranslation([NewTextRunSpan(a), brk, NewTextRunSpan(b)], c + "\n" + d)
        == [NewTextRunSpan(c), brk, NewTextRunSpan(d)]
  {
    var brk := Span({TextRunClass}, "\n", false);
    var last := [NewTextRunSpan(b)];
    var nodes := [NewTextRunSpan(a), brk, NewTextRunSpan(b)];
    var lines := [c, d];
    assert IsLineLayout(nodes) && |LayoutLines(nodes)| == 2 by {
      assert IsLineLayout(last) && LayoutLines(last) == [b];
      assert nodes[2..] == last;
      assert IsBreakSpan(brk);
    }
    assert JoinLines(lines) == c + "\n" + d by {
      assert lines[1..] == [d];
    }
    assert Relabel(nodes, lines) == [NewTextRunSpan(c), brk, NewTextRunSpan(d)] by {
      assert nodes[2..] == last;
      assert Relabel(last, lines[1..]) == [NewTextRunSpan(d)];
    }
    ApplyLineForLine(nodes, lines);
  }
}
