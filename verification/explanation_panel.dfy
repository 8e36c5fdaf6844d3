/** The explanation panel's light markup: the detailed text is cut at newlines and
    each line becomes one block, chosen by its first characters. */
module ExplanationPanel {
  import Text

  datatype Block =
    | Heading(text: string)       // `## ` line, shown as h4
    | Subheading(text: string)    // `### ` line, shown as h5
    | Bullet(text: string)        // `- ` line
    | Formula(text: string)       // `$$…$$` line, dollars removed
    | TableRow(text: string)      // `|` line, verbatim in monospace
    | Paragraph(text: string)     // any other non-empty line
    | Break                       // empty line

  predicate IsFormulaLine(line: string) {
    Text.StartsWith(line, "$$") && Text.EndsWith(line, "$$")
  }

  /** The block for one line; the checks run in this order and the first that
      matches wins. A marker is removed with a first-occurrence replace, which
      for a prefix is the prefix itself. */
  function Classify(line: string): (b: Block)
    ensures b.Heading? <==> Text.StartsWith(line, "## ")
    ensures b.Heading? ==> b.text == line[3..]
    ensures b.Subheading? <==> Text.StartsWith(line, "### ")
    ensures b.Subheading? ==> b.text == line[4..]
    ensures b.Bullet? <==> Text.StartsWith(line, "- ")
    ensures b.Bullet? ==> b.text == line[2..]
    ensures b.Formula? <==> IsFormulaLine(line)
    ensures b.Formula? ==> b.text == Text.RemoveAll(line, '$') && '$' !in b.text
    ensures b.TableRow? <==> Text.StartsWith(line, "|")
    ensures b.TableRow? || b.Paragraph? ==> b.text == line
    ensures b.Break? <==> line == ""
  {
    MarkerChars(line);
    if Text.StartsWith(line, "## ") then Heading(Text.ReplaceFirst(line, "## ", ""))
    else if Text.StartsWith(line, "### ") then Subheading(Text.ReplaceFirst(line, "### ", ""))
    else if Text.StartsWith(line, "- ") then Bullet(Text.ReplaceFirst(line, "- ", ""))
    else if IsFormulaLine(line) then Formula(Text.RemoveAll(line, '$'))
    else if Text.StartsWith(line, "|") then TableRow(line)
    else if line != "" then Paragraph(line)
    else Break
  }

  /** The markers are told apart by their first and third characters, so at most
      one prefix test can succeed. */
  lemma MarkerChars(line: string)
    ensures Text.StartsWith(line, "## ") ==> line[0] == '#' && line[2] == ' '
    ensures Text.StartsWith(line, "### ") ==> line[0] == '#' && line[2] == '#'
    ensures Text.StartsWith(line, "- ") ==> line[0] == '-'
    ensures Text.StartsWith(line, "$$") ==> line[0] == '$'
    ensures Text.StartsWith(line, "|") ==> line[0] == '|'
  {
    if |line| > 0 {
      assert forall p :: Text.StartsWith(line, p) && |p| > 0 ==> line[0] == line[..|p|][0] == p[0];
    }
    if |line| > 2 {
      assert forall p :: Text.StartsWith(line, p) && |p| > 2 ==> line[2] == line[..|p|][2] == p[2];
    }
  }

  /** The blocks of the whole detailed text, one per line. */
  function Render(detailedText: string): (blocks: seq<Block>)
    ensures |blocks| == |Text.Split(detailedText, '\n')| == Text.Count(detailedText, '\n') + 1
    ensures forall i :: 0 <= i < |blocks| ==> blocks[i] == Classify(Text.Split(detailedText, '\n')[i])
  {
    Text.SplitCount(detailedText, '\n');
    var lines := Text.Split(detailedText, '\n');
    seq(|lines|, i requires 0 <= i < |lines| => Classify(lines[i]))
  }

  /** The markup that produces a block: the inverse of `Classify` for every block
      but a formula, whose dollar signs are gone. */
  function Markup(b: Block): string
  {
    match b
    case Heading(t) => "## " + t
    case Subheading(t) => "### " + t
    case Bullet(t) => "- " + t
    case Formula(t) => "$$" + t + "$$"
    case TableRow(t) => t
    case Paragraph(t) => t
    case Break => ""
  }

  /** Writing a block back as markup gives the line it came from, unless the line
      was a formula. */
  lemma ClassifyRoundTrip(line: string)
    requires !IsFormulaLine(line)
    ensures Markup(Classify(line)) == line
  {
    var b := Classify(line);
    match b
    case Heading(t) => assert line == line[..3] + line[3..];
    case Subheading(t) => assert line == line[..4] + line[4..];
    case Bullet(t) => assert line == line[..2] + line[2..];
    case _ =>
  }

  /** A formula line whose body has no dollar sign is written back exactly. */
  lemma FormulaRoundTrip(body: string)
    requires '$' !in body
    requires !Text.StartsWith("$$" + body + "$$", "## ") && !Text.StartsWith("$$" + body + "$$", "- ")
    ensures Classify("$$" + body + "$$") == Formula(body)
  {
    var line := "$$" + body + "$$";
    assert Text.StartsWith(line, "$$");
    assert line[|line| - 2..] == "$$";
    NoDollar(body);
    RemoveAllConcat("$$", body);
    RemoveAllConcat("$$" + body, "$$");
  }

  lemma {:induction false} NoDollar(s: string)
    requires '$' !in s
    ensures Text.RemoveAll(s, '$') == s
    decreases |s|
  {
    if |s| > 0 {
      assert s[0] in s;
      assert forall k :: 0 <= k < |s[1..]| ==> s[1..][k] == s[k + 1];
      NoDollar(s[1..]);
    }
  }

  lemma {:induction false} RemoveAllConcat(a: string, b: string)
    ensures Text.RemoveAll(a + b, '$') == Text.RemoveAll(a, '$') + Text.RemoveAll(b, '$')
    decreases |a|
  {
    if |a| > 0 {
      assert (a + b)[1..] == a[1..] + b;
      RemoveAllConcat(a[1..], b);
    } else {
      assert a + b == b;
    }
  }

  function MarkupAll(blocks: seq<Block>): (lines: seq<string>)
    ensures |lines| == |blocks|
    ensures forall i :: 0 <= i < |blocks| ==> lines[i] == Markup(blocks[i])
  {
    seq(|blocks|, i requires 0 <= i < |blocks| => Markup(blocks[i]))
  }

  /** Text without formula lines is rendered losslessly: writing the blocks back
      and joining them with newlines gives the text again. */
  lemma RenderRoundTrip(detailedText: string)
    requires forall line :: line in Text.Split(detailedText, '\n') ==> !IsFormulaLine(line)
    ensures Text.Join(MarkupAll(Render(detailedText)), '\n') == detailedText
  {
    var lines := Text.Split(detailedText, '\n');
    var back := MarkupAll(Render(detailedText));
    forall i | 0 <= i < |lines|
      ensures back[i] == lines[i]
    {
      assert lines[i] in lines;
      ClassifyRoundTrip(lines[i]);
    }
    assert back == lines;
    Text.JoinSplit(detailedText, '\n');
  }
}
