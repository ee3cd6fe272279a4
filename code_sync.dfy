/**
 * The indentation helpers of the clipboard code-replacement assistant: adding and removing
 * a fixed indent on every line, the average indent of a block, the alignment of a
 * replacement block to the indent of the block it replaces, and the decision to indent
 * both blocks when the original has no four-space indent at all.
 *
 * Text is a string of lines joined by '\n', split and joined as Python's str.split('\n')
 * and '\n'.join do; "blank" means what `not line.strip()` means.
 */
module CodeSync {
  import opened PyText

  // ---------------------------------------------------------------------------
  // Lines

  /** ' ' * n. */
  function Spaces(n: nat): (r: string)
    ensures |r| == n && forall i :: 0 <= i < n ==> r[i] == ' '
  {
    if n == 0 then [] else [' '] + Spaces(n - 1)
  }

  /** line.strip() is non-empty. */
  predicate HasText(line: string) {
    Strip(line) != []
  }

  /** line.startswith(prefix). */
  predicate StartsWith(line: string, prefix: string) {
    |prefix| <= |line| && line[..|prefix|] == prefix
  }

  lemma {:induction false} LStripEmpty(s: string)
    ensures LStrip(s) == [] <==> forall i :: 0 <= i < |s| ==> IsSpace(s[i])
  {
    if s != [] && IsSpace(s[0]) {
      LStripEmpty(s[1..]);
      assert forall i :: 1 <= i < |s| ==> s[i] == s[1..][i - 1];
    }
  }

  lemma {:induction false} RStripKeeps(s: string)
    requires s != [] && !IsSpace(s[0])
    ensures RStrip(s) != []
  {
    if |s| > 1 && IsSpace(s[|s| - 1]) {
      RStripKeeps(s[..|s| - 1]);
    }
  }

  /** A line has text exactly when it holds a character that is not white space. */
  lemma HasTextIff(line: string)
    ensures HasText(line) <==> exists i :: 0 <= i < |line| && !IsSpace(line[i])
  {
    LStripEmpty(line);
    if LStrip(line) != [] {
      RStripKeeps(LStrip(line));
    }
  }

  /** A line with text keeps it behind any spaces put in front. */
  lemma SpacesKeepText(n: nat, line: string)
    requires HasText(line)
    ensures HasText(Spaces(n) + line)
  {
    HasTextIff(line);
    var i :| 0 <= i < |line| && !IsSpace(line[i]);
    assert (Spaces(n) + line)[n + i] == line[i];
    HasTextIff(Spaces(n) + line);
  }

  /** The number of white-space characters a line starts with:
      len(line) - len(line.lstrip()). */
  function Leading(line: string): nat {
    |line| - |LStrip(line)|
  }

  /** White space in front of a text that starts with none is stripped exactly. */
  lemma {:induction false} LStripPrefix(p: string, body: string)
    requires forall i :: 0 <= i < |p| ==> IsSpace(p[i])
    requires body == [] || !IsSpace(body[0])
    ensures LStrip(p + body) == body
  {
    var t := p + body;
    if p == [] {
      assert t == body;
    } else {
      assert t[0] == p[0];
      assert t[1..] == p[1..] + body;
      LStripPrefix(p[1..], body);
    }
  }

  /** In particular spaces in front of such a text are stripped exactly. */
  lemma LStripSpaces(n: nat, body: string)
    requires body == [] || !IsSpace(body[0])
    ensures LStrip(Spaces(n) + body) == body
  {
    assert IsSpace(' ');
    LStripPrefix(Spaces(n), body);
  }

  // ---------------------------------------------------------------------------
  // add_indentation and remove_indentation

  /** One line of add_indentation: the indent in front of a line with text; a blank line
      stays as it is. */
  function IndentLine(line: string, level: nat): string {
    if HasText(line) then Spaces(level) + line else line
  }

  function IndentLines(lines: seq<string>, level: nat): (r: seq<string>)
    ensures |r| == |lines| && forall k :: 0 <= k < |lines| ==> r[k] == IndentLine(lines[k], level)
  {
    seq(|lines|, k requires 0 <= k < |lines| => IndentLine(lines[k], level))
  }

  /** add_indentation(text, indent_level): empty text is returned as it is. It keeps the
      number of lines, puts the indent in front of each line with text and leaves each
      blank line as it was. */
  function AddIndentation(text: string, level: nat): (r: string)
    ensures Split(r, '\n') == IndentLines(Split(text, '\n'), level)
  {
    if text == [] then text
    else
      var lines := Split(text, '\n');
      SplitParts(text, '\n');
      NoBreaks(lines, level);
      SplitJoined(IndentLines(lines, level), '\n');
      Join(IndentLines(lines, level), '\n')
  }

  /** One line of remove_indentation: the indent is cut from a line that starts with it. */
  function UnindentLine(line: string, level: nat): string {
    if StartsWith(line, Spaces(level)) then line[level..] else line
  }

  function UnindentLines(lines: seq<string>, level: nat): (r: seq<string>)
    ensures |r| == |lines| && forall k :: 0 <= k < |lines| ==> r[k] == UnindentLine(lines[k], level)
  {
    seq(|lines|, k requires 0 <= k < |lines| => UnindentLine(lines[k], level))
  }

  /** What remove_indentation(text, indent_level) returns. */
  function Unindented(text: string, level: nat): string {
    if text == [] then text else Join(UnindentLines(Split(text, '\n'), level), '\n')
  }

  /** remove_indentation: the cleaned lines are collected one by one, then joined. */
  method RemoveIndentation(text: string, level: nat) returns (r: string)
    ensures r == Unindented(text, level)
  {
    if text == [] {
      return text;
    }
    var indent := Spaces(level);
    var lines := Split(text, '\n');
    var cleaned: seq<string> := [];
    var i := 0;
    while i < |lines|
      invariant 0 <= i <= |lines| && |cleaned| == i
      invariant forall k :: 0 <= k < i ==> cleaned[k] == UnindentLine(lines[k], level)
    {
      if StartsWith(lines[i], indent) {
        cleaned := cleaned + [lines[i][level..]];
      } else {
        cleaned := cleaned + [lines[i]];
      }
      i := i + 1;
    }
    assert cleaned == UnindentLines(lines, level);
    r := Join(cleaned, '\n');
  }

  /** Neither transformation puts a line break into a line. */
  lemma NoBreaks(lines: seq<string>, level: nat)
    requires forall k :: 0 <= k < |lines| ==> '\n' !in lines[k]
    ensures forall k :: 0 <= k < |lines| ==> '\n' !in IndentLine(lines[k], level) && '\n' !in UnindentLine(lines[k], level)
  {
    forall k | 0 <= k < |lines|
      ensures '\n' !in IndentLine(lines[k], level) && '\n' !in UnindentLine(lines[k], level)
    {
      var line := lines[k];
      if HasText(line) {
        assert forall j :: 0 <= j < |Spaces(level) + line| ==>
          (Spaces(level) + line)[j] == if j < level then ' ' else line[j - level];
      }
      if StartsWith(line, Spaces(level)) {
        assert forall j :: 0 <= j < |line| - level ==> line[level..][j] == line[j + level];
      }
    }
  }

  /** remove_indentation keeps the number of lines, cuts the indent from each line that
      starts with it and leaves every other line as it was. */
  lemma RemoveIndentationLines(text: string, level: nat)
    ensures Split(Unindented(text, level), '\n') == UnindentLines(Split(text, '\n'), level)
  {
    var lines := Split(text, '\n');
    if text != [] {
      SplitParts(text, '\n');
      NoBreaks(lines, level);
      SplitJoined(UnindentLines(lines, level), '\n');
    } else {
      assert lines == [[]];
      assert UnindentLine([], level) == [];
    }
  }

  /** A line survives having the indent added and then removed, unless it is blank and
      already starts with the indent. */
  lemma LineRoundTrip(line: string, level: nat)
    requires HasText(line) || !StartsWith(line, Spaces(level))
    ensures UnindentLine(IndentLine(line, level), level) == line
  {
    if HasText(line) {
      assert (Spaces(level) + line)[..level] == Spaces(level);
      assert (Spaces(level) + line)[level..] == line;
    }
  }

  /** remove_indentation undoes add_indentation on a text none of whose blank lines already
      starts with the indent. */
  lemma RoundTrip(text: string, level: nat)
    requires forall k :: 0 <= k < |Split(text, '\n')| ==>
      HasText(Split(text, '\n')[k]) || !StartsWith(Split(text, '\n')[k], Spaces(level))
    ensures Unindented(AddIndentation(text, level), level) == text
  {
    var lines := Split(text, '\n');
    var added := AddIndentation(text, level);
    RemoveIndentationLines(added, level);
    var back := UnindentLines(IndentLines(lines, level), level);
    forall k | 0 <= k < |lines|
      ensures back[k] == lines[k]
    {
      LineRoundTrip(lines[k], level);
    }
    assert back == lines;
    JoinSplit(text, '\n');
    JoinSplit(Unindented(added, level), '\n');
  }

  // ---------------------------------------------------------------------------
  // get_avg_indent

  /** The indent get_avg_indent collects from one line: its leading white space when the
      line has text and the count is positive. */
  function IndentOf(line: string): seq<nat> {
    if HasText(line) && Leading(line) > 0 then [Leading(line)] else []
  }

  /** The list `indents`, in line order. */
  function Indents(lines: seq<string>): seq<nat> {
    if lines == [] then [] else Indents(lines[..|lines| - 1]) + IndentOf(lines[|lines| - 1])
  }

  function Sum(xs: seq<nat>): nat {
    if xs == [] then 0 else Sum(xs[..|xs| - 1]) + xs[|xs| - 1]
  }

  /** sum(xs) // len(xs), or 0 for no numbers. */
  function Mean(xs: seq<nat>): nat {
    if xs == [] then 0 else Sum(xs) / |xs|
  }

  /** get_avg_indent(lines): the integer mean of the collected indents. It is 0 exactly
      when no line with text is indented, and at least 1 otherwise. */
  function AvgIndent(lines: seq<string>): (r: nat)
    ensures r == 0 <==> Indents(lines) == []
  {
    IndentsFrom(lines);
    MeanPositive(Indents(lines));
    Mean(Indents(lines))
  }

  /** get_avg_indent: the indents are collected in a loop and averaged. */
  method GetAvgIndent(lines: seq<string>) returns (avg: nat)
    ensures avg == AvgIndent(lines)
  {
    var indents: seq<nat> := [];
    var i := 0;
    while i < |lines|
      invariant 0 <= i <= |lines|
      invariant indents == Indents(lines[..i])
    {
      var line := lines[i];
      IndentsStep(lines, i);
      if HasText(line) {
        var indent := |line| - |LStrip(line)|;
        if indent > 0 {
          indents := indents + [indent];
        }
      }
      i := i + 1;
    }
    assert lines[..i] == lines;
    avg := Mean(indents);
  }

  lemma IndentsStep(lines: seq<string>, i: int)
    requires 0 <= i < |lines|
    ensures Indents(lines[..i + 1]) == Indents(lines[..i]) + IndentOf(lines[i])
  {
    assert lines[..i + 1][..i] == lines[..i];
  }

  /** Every collected indent is the positive leading white space of a line with text. */
  lemma {:induction false} IndentsFrom(lines: seq<string>)
    ensures forall j :: 0 <= j < |Indents(lines)| ==> Indents(lines)[j] > 0
    ensures |Indents(lines)| <= |lines|
  {
    if lines != [] {
      IndentsFrom(lines[..|lines| - 1]);
    }
  }

  /** A line with text indented by k > 0 gives the indent k; any other line gives none. */
  lemma IndentOfUniform(line: string, k: nat)
    requires k > 0 && (HasText(line) ==> Leading(line) == k)
    ensures IndentOf(line) == if HasText(line) then [k] else []
  {
  }

  /** When every line with text starts with exactly k > 0 white-space characters, all the
      collected indents are k. */
  lemma {:induction false} IndentsUniform(lines: seq<string>, k: nat)
    requires k > 0 && forall j :: 0 <= j < |lines| && HasText(lines[j]) ==> Leading(lines[j]) == k
    ensures forall j :: 0 <= j < |Indents(lines)| ==> Indents(lines)[j] == k
  {
    if lines != [] {
      var init, last := lines[..|lines| - 1], lines[|lines| - 1];
      assert forall j :: 0 <= j < |init| ==> init[j] == lines[j];
      IndentsUniform(init, k);
      IndentOfUniform(last, k);
      assert Indents(lines) == Indents(init) + IndentOf(last);
    }
  }

  /** A line with text and a positive indent puts an indent into the list. */
  lemma {:induction false} IndentsNonEmpty(lines: seq<string>, i: int)
    requires 0 <= i < |lines| && HasText(lines[i]) && Leading(lines[i]) > 0
    ensures Indents(lines) != []
  {
    var init, last := lines[..|lines| - 1], lines[|lines| - 1];
    assert Indents(lines) == Indents(init) + IndentOf(last);
    if i < |init| {
      assert init[i] == lines[i];
      IndentsNonEmpty(init, i);
    } else {
      assert IndentOf(last) == [Leading(last)];
    }
  }

  lemma {:induction false} SumAtLeast(xs: seq<nat>)
    requires forall j :: 0 <= j < |xs| ==> xs[j] > 0
    ensures Sum(xs) >= |xs|
  {
    if xs != [] {
      SumAtLeast(xs[..|xs| - 1]);
    }
  }

  lemma {:induction false} SumUniform(xs: seq<nat>, k: nat)
    requires forall j :: 0 <= j < |xs| ==> xs[j] == k
    ensures Sum(xs) == k * |xs|
  {
    if xs != [] {
      SumUniform(xs[..|xs| - 1], k);
    }
  }

  /** The mean of positive numbers is 0 only when there are none. */
  lemma MeanPositive(xs: seq<nat>)
    requires forall j :: 0 <= j < |xs| ==> xs[j] > 0
    ensures Mean(xs) == 0 <==> xs == []
  {
    if xs != [] {
      SumAtLeast(xs);
      var n := |xs|;
      assert Sum(xs) / n >= n / n;
    }
  }

  /** The mean of copies of k is k. */
  lemma MeanUniform(xs: seq<nat>, k: nat)
    requires xs != [] && forall j :: 0 <= j < |xs| ==> xs[j] == k
    ensures Mean(xs) == k
  {
    SumUniform(xs, k);
    MulDiv(k, |xs|);
  }

  /** When every line with text is indented by the same k > 0 and one has text, the
      average is k. */
  lemma AvgIndentUniform(lines: seq<string>, k: nat)
    requires k > 0 && forall j :: 0 <= j < |lines| && HasText(lines[j]) ==> Leading(lines[j]) == k
    requires exists j :: 0 <= j < |lines| && HasText(lines[j])
    ensures AvgIndent(lines) == k
  {
    var i :| 0 <= i < |lines| && HasText(lines[i]);
    IndentsUniform(lines, k);
    IndentsNonEmpty(lines, i);
    MeanUniform(Indents(lines), k);
  }

  lemma MulDiv(k: nat, n: nat)
    requires n > 0
    ensures (k * n) / n == k
  {
    var q, r := (k * n) / n, (k * n) % n;
    assert q * n + r == k * n;
    assert (k - q) * n == r;
    MulSign(k - q, n);
  }

  lemma MulSign(a: int, n: int)
    requires n > 0
    ensures a >= 1 ==> a * n >= n
    ensures a <= -1 ==> a * n <= -n
  {
  }

  // ---------------------------------------------------------------------------
  // smart_align_code

  /** A line of the modified block re-indented to the original's average indent. */
  function RealignLine(line: string, indent: nat): string {
    if HasText(line) then Spaces(indent) + LStrip(line) else line
  }

  /** The modified lines after alignment to an original average indent `orig` that differs
      from the modified one `mod`. */
  function AlignLines(lines: seq<string>, orig: nat, mod: nat): (r: seq<string>)
    ensures |r| == |lines|
  {
    if orig != mod && orig > 0 then
      if orig == 4 then
        seq(|lines|, k requires 0 <= k < |lines| => if HasText(lines[k]) then AddIndentation(lines[k], 4) else lines[k])
      else
        seq(|lines|, k requires 0 <= k < |lines| => RealignLine(lines[k], orig))
    else lines
  }

  /** smart_align_code(original, modified). The original block comes back unchanged, and so
      does the modified one when either is empty, when the averages agree, or when the
      original is not indented at all. */
  function SmartAlign(original: string, modified: string): (r: (string, string))
    ensures r.0 == original
    ensures (original == [] || modified == [] ||
      AvgIndent(Split(original, '\n')) == AvgIndent(Split(modified, '\n')) ||
      AvgIndent(Split(original, '\n')) == 0) ==> r.1 == modified
  {
    if original == [] || modified == [] then (original, modified)
    else
      var origLines, modLines := Split(original, '\n'), Split(modified, '\n');
      var orig, mod := AvgIndent(origLines), AvgIndent(modLines);
      JoinSplit(original, '\n');
      JoinSplit(modified, '\n');
      (Join(origLines, '\n'), Join(AlignLines(modLines, orig, mod), '\n'))
  }

  /** add_indentation of one line with text and no line break is the indent in front. */
  lemma IndentOneLine(line: string, level: nat)
    requires HasText(line) && '\n' !in line
    ensures AddIndentation(line, level) == Spaces(level) + line
  {
    assert Split(line, '\n') == [line];
  }

  /** Spaces put in front of a line bring no line break. */
  lemma SpacesNoBreak(n: nat, body: string)
    requires '\n' !in body
    ensures '\n' !in Spaces(n) + body
  {
    assert forall j :: 0 <= j < |Spaces(n) + body| ==>
      (Spaces(n) + body)[j] == if j < n then ' ' else body[j - n];
  }

  /** One modified line after alignment, when the averages differ and the original's is
      positive: 4 more spaces for an original average of 4, otherwise exactly the original
      average in place of its own leading white space; a blank line stays. */
  lemma AlignedLine(lines: seq<string>, orig: nat, mod: nat, k: int)
    requires orig != mod && orig > 0 && 0 <= k < |lines| && '\n' !in lines[k]
    ensures AlignLines(lines, orig, mod)[k] ==
      if !HasText(lines[k]) then lines[k]
      else if orig == 4 then Spaces(4) + lines[k]
      else Spaces(orig) + LStrip(lines[k])
    ensures '\n' !in AlignLines(lines, orig, mod)[k]
  {
    var line := lines[k];
    if HasText(line) {
      if orig == 4 {
        IndentOneLine(line, 4);
        SpacesNoBreak(4, line);
      } else {
        var body := LStrip(line);
        assert forall j :: 0 <= j < |body| ==> body[j] == line[|line| - |body| + j];
        SpacesNoBreak(orig, body);
      }
    }
  }

  /** When the averages differ and the original's is positive, the modified block keeps its
      line count and each of its lines is aligned as AlignedLine states. */
  lemma SmartAlignLines(original: string, modified: string)
    requires original != [] && modified != []
    requires AvgIndent(Split(original, '\n')) != AvgIndent(Split(modified, '\n'))
    requires AvgIndent(Split(original, '\n')) > 0
    ensures var orig, lines := AvgIndent(Split(original, '\n')), Split(modified, '\n');
      var out := Split(SmartAlign(original, modified).1, '\n');
      |out| == |lines| &&
      forall k :: 0 <= k < |lines| ==>
        out[k] == if !HasText(lines[k]) then lines[k]
          else if orig == 4 then Spaces(4) + lines[k]
          else Spaces(orig) + LStrip(lines[k])
  {
    var orig, mod := AvgIndent(Split(original, '\n')), AvgIndent(Split(modified, '\n'));
    var lines := Split(modified, '\n');
    var aligned := AlignLines(lines, orig, mod);
    SplitParts(modified, '\n');
    forall k | 0 <= k < |lines|
      ensures '\n' !in aligned[k]
      ensures aligned[k] == if !HasText(lines[k]) then lines[k]
          else if orig == 4 then Spaces(4) + lines[k]
          else Spaces(orig) + LStrip(lines[k])
    {
      AlignedLine(lines, orig, mod, k);
    }
    SplitJoined(aligned, '\n');
  }

  /** Aligning to an average other than 4 achieves it: afterwards the modified block's
      average indent is the original's. */
  lemma SmartAlignReachesAverage(original: string, modified: string)
    requires original != [] && modified != []
    requires AvgIndent(Split(original, '\n')) != AvgIndent(Split(modified, '\n'))
    requires AvgIndent(Split(original, '\n')) > 0 && AvgIndent(Split(original, '\n')) != 4
    requires exists k :: 0 <= k < |Split(modified, '\n')| && HasText(Split(modified, '\n')[k])
    ensures AvgIndent(Split(SmartAlign(original, modified).1, '\n')) == AvgIndent(Split(original, '\n'))
  {
    var orig := AvgIndent(Split(original, '\n'));
    var lines := Split(modified, '\n');
    var out := Split(SmartAlign(original, modified).1, '\n');
    SmartAlignLines(original, modified);
    forall k | 0 <= k < |out|
      ensures HasText(out[k]) <==> HasText(lines[k])
      ensures HasText(out[k]) ==> Leading(out[k]) == orig
    {
      if HasText(lines[k]) {
        var body := LStrip(lines[k]);
        assert Strip(lines[k]) == RStrip(body);
        assert HasText(body) by {
          StripClean(Strip(lines[k]));
          assert LStrip(body) == body;
        }
        SpacesKeepText(orig, body);
        LStripSpaces(orig, body);
      }
    }
    var j :| 0 <= j < |lines| && HasText(lines[j]);
    assert HasText(out[j]);
    AvgIndentUniform(out, orig);
  }

  // ---------------------------------------------------------------------------
  // advanced_parse: the indentation decision

  /** Some line with text starts with four spaces. */
  predicate SomeLineIndented(lines: seq<string>) {
    exists k :: 0 <= k < |lines| && HasText(lines[k]) && StartsWith(lines[k], Spaces(4))
  }

  /** The original block needs indenting when it is non-empty and no line with text starts
      with four spaces: that is, when remove_indentation(original, 4) would leave every
      line with text as it is. */
  predicate NeedsIndentation(original: string)
    ensures NeedsIndentation(original) <==> original != [] && TextLinesKept(Split(original, '\n'))
  {
    var lines := Split(original, '\n');
    UnindentKeeps(lines);
    original != [] && !SomeLineIndented(lines)
  }

  /** remove_indentation(·, 4) leaves every line with text as it is. */
  predicate TextLinesKept(lines: seq<string>) {
    forall k :: 0 <= k < |lines| && HasText(lines[k]) ==> UnindentLine(lines[k], 4) == lines[k]
  }

  /** No line with text starts with the indent exactly when remove_indentation leaves
      every line with text as it is. */
  lemma UnindentKeeps(lines: seq<string>)
    ensures !SomeLineIndented(lines) <==> TextLinesKept(lines)
  {
    forall k | 0 <= k < |lines|
      ensures UnindentLine(lines[k], 4) == lines[k] <==> !StartsWith(lines[k], Spaces(4))
    {
      if StartsWith(lines[k], Spaces(4)) {
        assert |UnindentLine(lines[k], 4)| == |lines[k]| - 4;
      }
    }
  }

  /** What advanced_parse returns. */
  datatype Parsed = Parsed(filename: string, original: string, modified: string, needsIndentation: bool)

  /** The blocks advanced_parse works on, stripped: the fenced A and B blocks, or the
      unfenced ones when the fenced A block is empty and both unfenced blocks matched. */
  function Chosen(fencedA: Option<string>, fencedB: Option<string>,
                  plainA: Option<string>, plainB: Option<string>): (r: (string, string))
    ensures Stripped(r.0) && Stripped(r.1)
  {
    var a := StripOr(fencedA);
    var b := StripOr(fencedB);
    if a == [] && plainA.Some? && plainB.Some? then (Strip(plainA.value), Strip(plainB.value)) else (a, b)
  }

  /** Neither end of s is white space. */
  predicate Stripped(s: string) {
    s == [] || (!IsSpace(s[0]) && !IsSpace(s[|s| - 1]))
  }

  /** A captured group, stripped, or the empty string when the group did not match. */
  function StripOr(group: Option<string>): (r: string)
    ensures Stripped(r)
  {
    if group.Some? then Strip(group.value) else []
  }

  /** advanced_parse, given what its regular expressions captured: the file name group, the
      fenced A and B blocks, and the unfenced A and B blocks tried when the fenced A block
      is empty. Both blocks are indented exactly when the A block needs it, and are
      otherwise returned as captured; the original block it returns never needs indenting
      again, and without a file name the name is unknown.py. */
  function AdvancedParse(filename: Option<string>, fencedA: Option<string>, fencedB: Option<string>,
                         plainA: Option<string>, plainB: Option<string>): (r: Parsed)
    ensures !NeedsIndentation(r.original)
    ensures filename.None? ==> r.filename == "unknown.py"
    ensures r.needsIndentation <==> NeedsIndentation(Chosen(fencedA, fencedB, plainA, plainB).0)
    ensures !r.needsIndentation ==> (r.original, r.modified) == Chosen(fencedA, fencedB, plainA, plainB)
  {
    var name := if filename.Some? then Strip(filename.value) else "unknown.py";
    var (a, b) := Chosen(fencedA, fencedB, plainA, plainB);
    if NeedsIndentation(a) then
      FirstLineText(a);
      IndentationSettles(a);
      Parsed(name, AddIndentation(a, 4), AddIndentation(b, 4), true)
    else Parsed(name, a, b, false)
  }

  /** Once indented, a block with text needs no further indentation: every line with text
      of add_indentation(text, 4) starts with four spaces. */
  lemma IndentationSettles(text: string)
    requires exists k :: 0 <= k < |Split(text, '\n')| && HasText(Split(text, '\n')[k])
    ensures !NeedsIndentation(AddIndentation(text, 4))
  {
    var lines := Split(text, '\n');
    var k :| 0 <= k < |lines| && HasText(lines[k]);
    var out := Split(AddIndentation(text, 4), '\n');
    assert out[k] == Spaces(4) + lines[k];
    SpacesKeepText(4, lines[k]);
    assert out[k][..4] == Spaces(4);
    assert StartsWith(out[k], Spaces(4));
  }

  /** A text that starts with a character other than white space has text on its first
      line. */
  lemma FirstLineText(s: string)
    requires s != [] && !IsSpace(s[0])
    ensures HasText(Split(s, '\n')[0])
  {
    var first := Split(s, '\n')[0];
    if '\n' in s {
      var i := IndexOf(s, '\n');
      assert first == s[..i] && first[0] == s[0];
    }
    HasTextIff(first);
  }

  /** remove_indentation(text, 4) undoes what advanced_parse added: when the blocks were
      indented, unindenting them gives back the blocks captured, provided none of their
      blank lines already starts with four spaces; otherwise they are returned as captured. */
  lemma AdvancedParseUndo(filename: Option<string>, fencedA: Option<string>, fencedB: Option<string>,
                          plainA: Option<string>, plainB: Option<string>, a: string, b: string)
    requires (a, b) == Chosen(fencedA, fencedB, plainA, plainB)
    requires forall k :: 0 <= k < |Split(a, '\n')| ==> HasText(Split(a, '\n')[k]) || !StartsWith(Split(a, '\n')[k], Spaces(4))
    requires forall k :: 0 <= k < |Split(b, '\n')| ==> HasText(Split(b, '\n')[k]) || !StartsWith(Split(b, '\n')[k], Spaces(4))
    ensures var p := AdvancedParse(filename, fencedA, fencedB, plainA, plainB);
      (if p.needsIndentation then Unindented(p.original, 4) else p.original) == a &&
      (if p.needsIndentation then Unindented(p.modified, 4) else p.modified) == b
  {
    if NeedsIndentation(a) {
      RoundTrip(a, 4);
      RoundTrip(b, 4);
    }
  }

  /** The unfenced blocks are only a fallback: with text in the fenced A block they are not
      consulted, and once they are used the fenced blocks play no part. */
  lemma AdvancedParseSources(filename: Option<string>, fencedA: Option<string>, fencedB: Option<string>,
                             plainA: Option<string>, plainB: Option<string>)
    ensures fencedA.Some? && Strip(fencedA.value) != [] ==>
      AdvancedParse(filename, fencedA, fencedB, plainA, plainB) == AdvancedParse(filename, fencedA, fencedB, None, None)
    ensures (fencedA.None? || Strip(fencedA.value) == []) && plainA.Some? && plainB.Some? ==>
      AdvancedParse(filename, fencedA, fencedB, plainA, plainB) == AdvancedParse(filename, None, None, plainA, plainB)
  {
  }
}
