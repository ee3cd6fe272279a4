/**
 * The pinyin input method that sits between the terminal and a child shell: its
 * dictionary file (`pinyin=word word ...` lines), the candidate list looked up for the
 * typed pinyin, and the key handling that types letters, pages and moves through the
 * candidates, and commits a candidate, the raw pinyin or the key itself to the child.
 *
 * A character of the model stands for one byte of the C++ program. What is written to
 * the child's pseudo-terminal is kept as the list `sent` of strings sent, in order. The
 * two bytes read after ESC are an input of the step: None when either read fails.
 */
module Ime {
  import opened PyText

  // ---------------------------------------------------------------------------
  // Keys

  const CTRL_Z: char := '\U{1A}'
  const ESC: char := '\U{1B}'
  const BACKSPACE: char := '\U{08}'
  const DEL: char := '\U{7F}'
  const CR: char := '\r'
  const LF: char := '\n'

  /** isalpha in the C locale. */
  predicate IsAlpha(c: char) {
    'a' <= c <= 'z' || 'A' <= c <= 'Z'
  }

  /** isspace in the C locale, which `istream >> word` skips. */
  predicate IsCSpace(c: char) {
    c == ' ' || '\t' <= c <= '\r'
  }

  /** A size_t from an int, as C++ converts the int operand of a comparison with a
      size_t: a negative value wraps to 2^64 plus the value. */
  function ToSize(x: int): int {
    if x < 0 then x + 0x1_0000_0000_0000_0000 else x
  }

  // ---------------------------------------------------------------------------
  // The dictionary file

  /** The longest prefix free of white space. */
  function WordAt(s: string): (w: string)
    ensures |w| <= |s| && w == s[..|w|]
    ensures forall k :: 0 <= k < |w| ==> !IsCSpace(w[k])
    ensures |w| == |s| || IsCSpace(s[|w|])
  {
    if s == [] || IsCSpace(s[0]) then [] else [s[0]] + WordAt(s[1..])
  }

  /** What repeated `iss >> word` reads from s: its maximal runs free of white space. */
  function Words(s: string): seq<string>
    decreases |s|
  {
    if s == [] then []
    else if IsCSpace(s[0]) then Words(s[1..])
    else
      var w := WordAt(s);
      [w] + Words(s[|w|..])
  }

  /** Every word read is non-empty and free of white space. */
  lemma {:induction false} WordsAreWords(s: string)
    ensures forall k :: 0 <= k < |Words(s)| ==> Words(s)[k] != [] && forall j :: 0 <= j < |Words(s)[k]| ==> !IsCSpace(Words(s)[k][j])
    decreases |s|
  {
    if s != [] {
      if IsCSpace(s[0]) {
        WordsAreWords(s[1..]);
      } else {
        var w := WordAt(s);
        WordsAreWords(s[|w|..]);
        assert Words(s) == [w] + Words(s[|w|..]);
      }
    }
  }

  /** A word followed by the end or by white space is read whole. */
  lemma {:induction false} WordAtRun(s: string, n: nat)
    requires n <= |s| && forall k :: 0 <= k < n ==> !IsCSpace(s[k])
    requires n == |s| || IsCSpace(s[n])
    ensures WordAt(s) == s[..n]
  {
    if n > 0 {
      WordAtRun(s[1..], n - 1);
      assert s[..n] == [s[0]] + s[1..][..n - 1];
    }
  }

  /** Words written out with single spaces are read back as they were. */
  lemma {:induction false} WordsJoin(ws: seq<string>)
    requires forall k :: 0 <= k < |ws| ==> ws[k] != [] && forall j :: 0 <= j < |ws[k]| ==> !IsCSpace(ws[k][j])
    ensures Words(Join(ws, ' ')) == ws
  {
    if ws != [] {
      var w := ws[0];
      var s := Join(ws, ' ');
      if |ws| == 1 {
        WordsTake(s, 0, |w|);
        assert s[0..] == s && s[0..|w|] == w && s[|w|..] == [];
      } else {
        var rest := Join(ws[1..], ' ');
        assert s == w + [' '] + rest;
        assert forall k :: 0 <= k < |w| ==> s[k] == w[k];
        WordsTake(s, 0, |w|);
        WordsSkip(s, |w|);
        assert s[0..] == s && s[0..|w|] == w && s[|w| + 1..] == rest;
        WordsJoin(ws[1..]);
      }
    }
  }

  /** White space before the words is skipped. */
  lemma WordsSkip(s: string, i: nat)
    requires i < |s| && IsCSpace(s[i])
    ensures Words(s[i..]) == Words(s[i + 1..])
  {
    assert s[i..][1..] == s[i + 1..];
  }

  /** A run free of white space, ended by white space or the end, is the next word. */
  lemma WordsTake(s: string, i: nat, j: nat)
    requires i < j <= |s| && forall k :: i <= k < j ==> !IsCSpace(s[k])
    requires j == |s| || IsCSpace(s[j])
    ensures Words(s[i..]) == [s[i..j]] + Words(s[j..])
  {
    var t := s[i..];
    WordAtRun(t, j - i);
    assert t[..j - i] == s[i..j] && t[j - i..] == s[j..];
    assert t[0] == s[i];
  }

  /** `iss >> word` in a loop: the words of s, in order. */
  method ReadWords(s: string) returns (words: seq<string>)
    ensures words == Words(s)
  {
    words := [];
    var i := 0;
    while i < |s|
      invariant 0 <= i <= |s|
      invariant words + Words(s[i..]) == Words(s)
    {
      if IsCSpace(s[i]) {
        WordsSkip(s, i);
        i := i + 1;
      } else {
        var j := i;
        while j < |s| && !IsCSpace(s[j])
          invariant i <= j <= |s| && forall k :: i <= k < j ==> !IsCSpace(s[k])
        {
          j := j + 1;
        }
        WordsTake(s, i, j);
        words := words + [s[i..j]];
        i := j;
      }
    }
    assert s[i..] == [];
  }

  type Dictionary = map<string, seq<string>>

  /** One line of the file: skipped when empty, a comment (`#` first) or without `=`;
      otherwise the key is the text before the first `=` and the candidates are the words
      after it, so a key never holds `=` and the line starts with the key and `=`. */
  function ParseLine(line: string): (r: Option<(string, seq<string>)>)
    ensures r.Some? ==> line != [] && line[0] != '#'
    ensures r.Some? ==> var key := r.value.0;
      '=' !in key && |key| < |line| && line[..|key|] == key && line[|key|] == '='
  {
    if line == [] || line[0] == '#' || '=' !in line then None
    else
      var pos := IndexOf(line, '=');
      Some((line[..pos], Words(line[pos + 1..])))
  }

  /** The dictionary after the lines are read into d, a later line replacing the entry of
      an earlier one with the same key. Loading never removes an entry. */
  function Loaded(d: Dictionary, lines: seq<string>): (r: Dictionary)
    ensures d.Keys <= r.Keys
  {
    if lines == [] then d
    else
      var before := Loaded(d, lines[..|lines| - 1]);
      match ParseLine(lines[|lines| - 1])
      case None => before
      case Some((key, words)) => before[key := words]
  }

  /** A well-formed line `key=w1 w2 ...` gives its key the words. */
  lemma ParseLineShow(key: string, ws: seq<string>)
    requires key != [] && key[0] != '#' && '=' !in key
    requires forall k :: 0 <= k < |ws| ==> ws[k] != [] && forall j :: 0 <= j < |ws[k]| ==> !IsCSpace(ws[k][j])
    ensures ParseLine(key + ['='] + Join(ws, ' ')) == Some((key, ws))
  {
    var line := key + ['='] + Join(ws, ' ');
    assert line[|key|] == '=';
    assert forall j :: 0 <= j < |key| ==> line[j] == key[j];
    var pos := IndexOf(line, '=');
    assert pos == |key|;
    assert line[..pos] == key && line[pos + 1..] == Join(ws, ' ');
    WordsJoin(ws);
  }

  /** A key no line has keeps the entry it had. */
  lemma {:induction false} LoadedUntouched(d: Dictionary, lines: seq<string>, key: string)
    requires forall i :: 0 <= i < |lines| ==> ParseLine(lines[i]).None? || ParseLine(lines[i]).value.0 != key
    ensures key in Loaded(d, lines) <==> key in d
    ensures key in d ==> Loaded(d, lines)[key] == d[key]
  {
    if lines != [] {
      var init := lines[..|lines| - 1];
      assert forall i :: 0 <= i < |init| ==> init[i] == lines[i];
      LoadedUntouched(d, init, key);
    }
  }

  /** The last line with a key decides its entry. */
  lemma {:induction false} LoadedLast(d: Dictionary, lines: seq<string>, key: string, i: nat)
    requires i < |lines| && ParseLine(lines[i]).Some? && ParseLine(lines[i]).value.0 == key
    requires forall j :: i < j < |lines| ==> ParseLine(lines[j]).None? || ParseLine(lines[j]).value.0 != key
    ensures key in Loaded(d, lines) && Loaded(d, lines)[key] == ParseLine(lines[i]).value.1
  {
    var init := lines[..|lines| - 1];
    assert forall j :: 0 <= j < |init| ==> init[j] == lines[j];
    if i < |lines| - 1 {
      LoadedLast(d, init, key, i);
    }
  }

  // ---------------------------------------------------------------------------
  // The input method state and one key

  datatype State = State(isChinese: bool, buffer: string, candidates: seq<string>,
                         selectedIndex: int, pageStart: int, pageSize: int)

  /** The state main sets up: Chinese mode, pages of 8, everything else zero. */
  function Initial(): State {
    State(true, [], [], 0, 0, 8)
  }

  /** a is a whole number of pages of size p: 0, p, 2p, ... */
  predicate WholePages(a: int, p: int)
    requires p > 0
    decreases a
  {
    if a <= 0 then a == 0 else WholePages(a - p, p)
  }

  /** What every key keeps: the selection lies on the current page, the page starts at a
      whole number of pages, and with candidates shown the selection is one of them. */
  predicate Valid(s: State) {
    s.pageSize > 0 && 0 <= s.pageStart <= s.selectedIndex < s.pageStart + s.pageSize &&
    WholePages(s.pageStart, s.pageSize) &&
    (s.candidates != [] ==> s.selectedIndex < |s.candidates|)
  }

  /** update_candidates: the dictionary's list for the buffer, or none, from the first. Only
      the candidates, the selection and the page change, and the result is valid whenever
      the page size is positive. */
  function Update(s: State, dict: Dictionary): (r: State)
    ensures r.isChinese == s.isChinese && r.buffer == s.buffer && r.pageSize == s.pageSize
    ensures s.pageSize > 0 ==> Valid(r)
  {
    s.(candidates := if s.buffer in dict then dict[s.buffer] else [], selectedIndex := 0, pageStart := 0)
  }

  /** A key's effect: the new state and the strings sent to the child, in order. */
  datatype Outcome = Outcome(state: State, sent: seq<string>)

  /** Commit a candidate: send it, clear the buffer and the candidates. */
  function Commit(s: State, word: string): Outcome {
    Outcome(s.(buffer := [], candidates := []), [word])
  }

  /** handle_input(ch), with esc the two bytes read after ESC. Only Ctrl+Z switches the
      language, no key changes the page size, and at most two strings are sent. */
  function Step(s: State, dict: Dictionary, ch: char, esc: Option<(char, char)>): (r: Outcome)
    requires Valid(s)
    ensures r.state.isChinese == (s.isChinese != (ch == CTRL_Z))
    ensures r.state.pageSize == s.pageSize && |r.sent| <= 2
  {
    if ch == CTRL_Z then Outcome(s.(isChinese := !s.isChinese, buffer := [], candidates := []), [])
    else if !s.isChinese then Outcome(s, [[ch]])
    else if ch == CR || ch == LF then
      if s.buffer != [] then Outcome(s.(buffer := [], candidates := []), [s.buffer, [CR]])
      else Outcome(s, [[CR]])
    else if ch == DEL || ch == BACKSPACE then
      if s.buffer != [] then Outcome(Update(s.(buffer := s.buffer[..|s.buffer| - 1]), dict), [])
      else Outcome(s, [])
    else if ch == ' ' then
      if s.candidates != [] then Commit(s, s.candidates[s.selectedIndex]) else Outcome(s, [" "])
    else if '1' <= ch <= '9' || ch == '0' then
      var index := s.pageStart + (if ch == '0' then 9 else ch as int - '1' as int);
      if ToSize(index) < |s.candidates| then Commit(s, s.candidates[index]) else Outcome(s, [])
    else if ch == ESC then
      if esc.None? || esc.value.0 != '[' then Outcome(s, [])
      else Outcome(Arrow(s, esc.value.1), [])
    else if IsAlpha(ch) then Outcome(Update(s.(buffer := s.buffer + [ch]), dict), [])
    else Outcome(s, [[ch]])
  }

  /** The arrow keys after `ESC [`: A up and B down a page, C right and D left one
      candidate, paging at the edges; any other key does nothing. Only the selection and
      the page move: the mode, the buffer, the candidates and the page size stay. */
  function Arrow(s: State, key: char): (r: State)
    ensures r.isChinese == s.isChinese && r.buffer == s.buffer && r.candidates == s.candidates
    ensures r.pageSize == s.pageSize
  {
    if key == 'A' then
      if s.pageStart >= s.pageSize then s.(pageStart := s.pageStart - s.pageSize, selectedIndex := s.pageStart - s.pageSize)
      else s
    else if key == 'B' then
      if ToSize(s.pageStart + s.pageSize) < |s.candidates| then
        s.(pageStart := s.pageStart + s.pageSize, selectedIndex := s.pageStart + s.pageSize)
      else s
    else if key == 'C' then
      if ToSize(s.selectedIndex) < ToSize(|s.candidates| - 1) then
        var i := s.selectedIndex + 1;
        s.(selectedIndex := i, pageStart := if i >= s.pageStart + s.pageSize then s.pageStart + s.pageSize else s.pageStart)
      else s
    else if key == 'D' then
      if s.selectedIndex > 0 then
        var i := s.selectedIndex - 1;
        s.(selectedIndex := i, pageStart := if i < s.pageStart then s.pageStart - s.pageSize else s.pageStart)
      else s
    else s
  }

  // ---------------------------------------------------------------------------
  // What the keys do

  lemma InitialValid()
    ensures Valid(Initial()) && Initial().isChinese && Initial().pageSize == 8
  {
  }

  /** update_candidates shows the dictionary's list for the buffer, or nothing for an
      unknown buffer, with the first candidate selected; it keeps the invariant. */
  lemma UpdateShows(s: State, dict: Dictionary)
    requires s.pageSize > 0
    ensures var u := Update(s, dict);
      Valid(u) && u.selectedIndex == 0 && u.pageStart == 0 &&
      (s.buffer in dict ==> u.candidates == dict[s.buffer]) && (s.buffer !in dict ==> u.candidates == [])
  {
  }

  /** Every key keeps the invariant, so whenever candidates are shown the selected one
      exists and lies on the page shown. */
  lemma StepValid(s: State, dict: Dictionary, ch: char, esc: Option<(char, char)>)
    requires Valid(s)
    ensures Valid(Step(s, dict, ch, esc).state)
    ensures Step(s, dict, ch, esc).state.pageSize == s.pageSize
  {
    if ch != CTRL_Z && s.isChinese && ch == ESC && esc.Some? && esc.value.0 == '[' {
      ArrowValid(s, esc.value.1);
    }
  }

  /** A page forward or back from a page start is a page start, and a page start other
      than the first is at least a page in. */
  lemma PageStep(a: int, p: int)
    requires p > 0 && WholePages(a, p)
    ensures WholePages(a + p, p)
    ensures a > 0 ==> a >= p && WholePages(a - p, p)
  {
    assert WholePages(a + p, p) == WholePages(a, p);
    if a > 0 {
      assert a - p >= 0;
    }
  }

  lemma ArrowValid(s: State, key: char)
    requires Valid(s)
    ensures Valid(Arrow(s, key)) && Arrow(s, key).pageSize == s.pageSize
  {
    PageStep(s.pageStart, s.pageSize);
  }

  /** Ctrl+Z switches the language and clears the buffer and the candidates, sending
      nothing; in English mode every other key goes to the child unchanged. */
  lemma ToggleAndEnglish(s: State, dict: Dictionary, ch: char, esc: Option<(char, char)>)
    requires Valid(s)
    ensures var o := Step(s, dict, CTRL_Z, esc);
      o.state.isChinese == !s.isChinese && o.state.buffer == [] && o.state.candidates == [] && o.sent == []
    ensures ch != CTRL_Z && !s.isChinese ==> Step(s, dict, ch, esc) == Outcome(s, [[ch]])
  {
  }

  /** In Chinese mode a letter is typed into the buffer and looks up the candidates;
      backspace removes the last letter and looks up again, and does nothing to an empty
      buffer. */
  lemma TypingAndBackspace(s: State, dict: Dictionary, ch: char, esc: Option<(char, char)>)
    requires Valid(s) && s.isChinese
    ensures IsAlpha(ch) ==> Step(s, dict, ch, esc) == Outcome(Update(s.(buffer := s.buffer + [ch]), dict), [])
    ensures (ch == DEL || ch == BACKSPACE) && s.buffer != [] ==>
      Step(s, dict, ch, esc) == Outcome(Update(s.(buffer := s.buffer[..|s.buffer| - 1]), dict), [])
    ensures (ch == DEL || ch == BACKSPACE) && s.buffer == [] ==> Step(s, dict, ch, esc) == Outcome(s, [])
  {
  }

  /** Space sends the selected candidate and clears, or sends a space when there is none;
      digit k (0 for 10) sends the k-th candidate of the page when it exists and otherwise
      does nothing. */
  lemma Selection(s: State, dict: Dictionary, ch: char, esc: Option<(char, char)>)
    requires Valid(s) && s.isChinese
    ensures s.candidates != [] ==> Step(s, dict, ' ', esc) == Commit(s, s.candidates[s.selectedIndex])
    ensures s.candidates == [] ==> Step(s, dict, ' ', esc) == Outcome(s, [" "])
    ensures '0' <= ch <= '9' ==>
      var index := s.pageStart + if ch == '0' then 9 else ch as int - '1' as int;
      (index < |s.candidates| ==> Step(s, dict, ch, esc) == Commit(s, s.candidates[index])) &&
      (index >= |s.candidates| ==> Step(s, dict, ch, esc) == Outcome(s, []))
  {
  }

  /** Enter sends the raw buffer, if any, then a carriage return, clearing the buffer and
      the candidates when the buffer was not empty. */
  lemma Enter(s: State, dict: Dictionary, esc: Option<(char, char)>)
    requires Valid(s) && s.isChinese
    ensures s.buffer != [] ==> Step(s, dict, CR, esc) == Outcome(s.(buffer := [], candidates := []), [s.buffer, "\r"])
    ensures s.buffer == [] ==> Step(s, dict, CR, esc) == Outcome(s, ["\r"])
  {
  }

  /** Up and down move a whole page and select its first candidate; right and left move
      one candidate, turning the page at its edges, and stop at the ends of the list. */
  lemma Paging(s: State)
    requires Valid(s) && s.candidates != []
    ensures var u := Arrow(s, 'A');
      if s.pageStart >= s.pageSize then u.pageStart == s.pageStart - s.pageSize && u.selectedIndex == u.pageStart else u == s
    ensures var d := Arrow(s, 'B');
      if s.pageStart + s.pageSize < |s.candidates| then d.pageStart == s.pageStart + s.pageSize && d.selectedIndex == d.pageStart
      else d == s
    ensures var r := Arrow(s, 'C');
      if s.selectedIndex < |s.candidates| - 1 then r.selectedIndex == s.selectedIndex + 1 else r == s
    ensures var l := Arrow(s, 'D');
      if s.selectedIndex > 0 then l.selectedIndex == s.selectedIndex - 1 else l == s
  {
  }

  /** With no candidates, `selected_index < candidates.size() - 1` compares with the
      largest size_t, so the right arrow still moves the selection; the invariant makes
      this harmless, since the selection is reset before candidates are shown again. */
  lemma RightArrowWithoutCandidates(s: State)
    requires Valid(s) && s.candidates == [] && s.selectedIndex < 0xFFFF_FFFF_FFFF_FFFF
    ensures Arrow(s, 'C').selectedIndex == s.selectedIndex + 1
  {
  }

  // ---------------------------------------------------------------------------
  // The global state

  /** The program's dictionary and im_state, with the strings written to the child. */
  class InputMethod {
    var isChinese: bool
    var inputBuffer: string
    var candidates: seq<string>
    var selectedIndex: int
    var pageStart: int
    var pageSize: int
    var dictionary: Dictionary
    var sent: seq<string>

    function Current(): State
      reads this
    {
      State(isChinese, inputBuffer, candidates, selectedIndex, pageStart, pageSize)
    }

    /** The start of main: Chinese mode, pages of 8, an empty dictionary. */
    constructor ()
      ensures Current() == Initial() && dictionary == map[] && sent == []
    {
      isChinese := true;
      inputBuffer := [];
      candidates := [];
      selectedIndex := 0;
      pageStart := 0;
      pageSize := 8;
      dictionary := map[];
      sent := [];
    }

    /** load_config over the lines of the file (none when it cannot be opened). */
    method LoadConfig(lines: seq<string>)
      modifies this
      ensures dictionary == Loaded(old(dictionary), lines)
      ensures Current() == old(Current()) && sent == old(sent)
    {
      var i := 0;
      while i < |lines|
        invariant 0 <= i <= |lines|
        invariant dictionary == Loaded(old(dictionary), lines[..i])
        invariant Current() == old(Current()) && sent == old(sent)
      {
        var line := lines[i];
        assert lines[..i + 1][..i] == lines[..i];
        if line == [] || line[0] == '#' || '=' !in line {
          i := i + 1;
          continue;
        }
        var pos := IndexOf(line, '=');
        var key := line[..pos];
        var candidateList := ReadWords(line[pos + 1..]);
        dictionary := dictionary[key := candidateList];
        i := i + 1;
      }
      assert lines[..i] == lines;
    }

    /** update_candidates. */
    method UpdateCandidates()
      modifies this
      ensures Current() == Update(old(Current()), dictionary)
      ensures dictionary == old(dictionary) && sent == old(sent)
    {
      candidates := [];
      if inputBuffer in dictionary {
        candidates := dictionary[inputBuffer];
      }
      selectedIndex := 0;
      pageStart := 0;
    }

    /** send_to_child. */
    method SendToChild(str: string)
      modifies this
      ensures sent == old(sent) + [str]
      ensures Current() == old(Current()) && dictionary == old(dictionary)
    {
      sent := sent + [str];
    }

    /** Send a candidate and clear the buffer and the candidates. */
    method CommitCandidate(word: string)
      modifies this
      ensures Current() == Commit(old(Current()), word).state
      ensures sent == old(sent) + Commit(old(Current()), word).sent
      ensures dictionary == old(dictionary)
    {
      SendToChild(word);
      inputBuffer := [];
      candidates := [];
    }

    /** The arrow keys of handle_input, after `ESC [`. */
    method HandleArrow(key: char)
      modifies this
      ensures Current() == Arrow(old(Current()), key)
      ensures dictionary == old(dictionary) && sent == old(sent)
    {
      if key == 'A' {
        if pageStart >= pageSize {
          pageStart := pageStart - pageSize;
          selectedIndex := pageStart;
        }
      } else if key == 'B' {
        if ToSize(pageStart + pageSize) < |candidates| {
          pageStart := pageStart + pageSize;
          selectedIndex := pageStart;
        }
      } else if key == 'C' {
        if ToSize(selectedIndex) < ToSize(|candidates| - 1) {
          selectedIndex := selectedIndex + 1;
          if selectedIndex >= pageStart + pageSize {
            pageStart := pageStart + pageSize;
          }
        }
      } else if key == 'D' {
        if selectedIndex > 0 {
          selectedIndex := selectedIndex - 1;
          if selectedIndex < pageStart {
            pageStart := pageStart - pageSize;
          }
        }
      }
    }

    /** handle_input(ch): the state and the strings sent are those of Step. */
    method HandleInput(ch: char, esc: Option<(char, char)>)
      requires Valid(Current())
      modifies this
      ensures Current() == Step(old(Current()), dictionary, ch, esc).state
      ensures sent == old(sent) + Step(old(Current()), dictionary, ch, esc).sent
      ensures dictionary == old(dictionary)
    {
      if ch == CTRL_Z {
        isChinese := !isChinese;
        inputBuffer := [];
        candidates := [];
        return;
      }
      if !isChinese {
        SendToChild([ch]);
        return;
      }
      if ch == CR || ch == LF {
        if inputBuffer != [] {
          SendToChild(inputBuffer);
          inputBuffer := [];
          candidates := [];
        }
        SendToChild([CR]);
      } else if ch == DEL || ch == BACKSPACE {
        if inputBuffer != [] {
          inputBuffer := inputBuffer[..|inputBuffer| - 1];
          UpdateCandidates();
        }
      } else if ch == ' ' {
        if candidates != [] {
          CommitCandidate(candidates[selectedIndex]);
        } else {
          SendToChild(" ");
        }
      } else if '1' <= ch <= '9' {
        var actualIndex := pageStart + (ch as int - '1' as int);
        if ToSize(actualIndex) < |candidates| {
          CommitCandidate(candidates[actualIndex]);
        }
      } else if ch == '0' {
        var actualIndex := pageStart + 9;
        if ToSize(actualIndex) < |candidates| {
          CommitCandidate(candidates[actualIndex]);
        }
      } else if ch == ESC {
        if esc.None? {
          return;
        }
        var (first, second) := esc.value;
        if first == '[' {
          HandleArrow(second);
        }
      } else if IsAlpha(ch) {
        inputBuffer := inputBuffer + [ch];
        UpdateCandidates();
      } else {
        SendToChild([ch]);
      }
    }
  }
}
