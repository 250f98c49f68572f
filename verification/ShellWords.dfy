/** ShellQuote and the curl command line of internal/runtime/runtime.go, read back by the quoting
    rules of section 2.2 of POSIX.1-2017 Shell Command Language. */
module ShellWords {
  import opened Text
  import Sorting

  // ----- The reader: quoting and field recognition -----------------------------------------

  datatype Mode = Outside | Bare | BareEscape | SingleQuoted | DoubleQuoted | DoubleEscape

  /** `Stuck` stands for text that is not a list of literal words: an operator, an expansion, a
      pattern, a comment or a newline outside quotes. */
  datatype State = Scanning(mode: Mode, word: string, words: seq<string>) | Stuck

  predicate Special(c: char) {
    c in "|&;<>()$`\n*?[#~=%"
  }

  function Step(st: State, c: char): State {
    if st.Stuck? then Stuck
    else match st.mode
      case Outside =>
        if c == ' ' || c == '\t' then st
        else StepBare(st.(mode := Bare), c)
      case Bare => StepBare(st, c)
      case BareEscape =>
        if c == '\n' then st.(mode := Bare) else st.(mode := Bare, word := st.word + [c])
      case SingleQuoted =>
        if c == '\'' then st.(mode := Bare) else st.(word := st.word + [c])
      case DoubleQuoted =>
        if c == '\"' then st.(mode := Bare)
        else if c == '\\' then st.(mode := DoubleEscape)
        else if c == '$' || c == '`' then Stuck
        else st.(word := st.word + [c])
      case DoubleEscape =>
        if c == '\n' then st.(mode := DoubleQuoted)
        else if c in "$`\"\\" then st.(mode := DoubleQuoted, word := st.word + [c])
        else st.(mode := DoubleQuoted, word := st.word + ['\\', c])
  }

  function StepBare(st: State, c: char): State
    requires st.Scanning?
  {
    if c == ' ' || c == '\t' then Scanning(Outside, "", st.words + [st.word])
    else if c == '\'' then st.(mode := SingleQuoted)
    else if c == '\"' then st.(mode := DoubleQuoted)
    else if c == '\\' then st.(mode := BareEscape)
    else if Special(c) then Stuck
    else st.(word := st.word + [c])
  }

  function Run(st: State, text: string): State {
    if text == "" then st else Step(Run(st, text[..|text| - 1]), text[|text| - 1])
  }

  /** The words of a command line; None when it is not a plain list of words. */
  function Words(text: string): Option<seq<string>> {
    match Run(Scanning(Outside, "", []), text)
    case Scanning(Outside, _, words) => Some(words)
    case Scanning(Bare, word, words) => Some(words + [word])
    case _ => None
  }

  lemma {:induction false} RunAppend(st: State, left: string, right: string)
    ensures Run(st, left + right) == Run(Run(st, left), right)
  {
    if right == "" {
      assert left + right == left;
    } else {
      var n := |right| - 1;
      assert (left + right)[..|left + right| - 1] == left + right[..n];
      RunAppend(st, left, right[..n]);
    }
  }

  lemma RunOne(st: State, c: char)
    ensures Run(st, [c]) == Step(st, c)
  {
    assert [c][..0] == "";
  }

  lemma RunMore(st: State, left: string, c: char)
    ensures Run(st, left + [c]) == Step(Run(st, left), c)
  {
    assert (left + [c])[..|left|] == left;
  }

  // ----- The printer -----------------------------------------------------------------------

  /** strings.ReplaceAll(value, "'", "'\"'\"'"). */
  function Escape(value: string): string {
    if value == "" then ""
    else
      var n := |value| - 1;
      Escape(value[..n]) + (if value[n] == '\'' then "'\"'\"'" else [value[n]])
  }

  function ShellQuote(value: string): string {
    "'" + Escape(value) + "'"
  }

  /** `'"'"'` inside single quotes adds one quote and returns to single quotes. */
  lemma EscapedQuote(st: State)
    requires st.Scanning? && st.mode == SingleQuoted
    ensures Run(st, "'\"'\"'") == st.(word := st.word + ['\''])
  {
    var one, two, three, four := ['\''], ['\'', '\"'], ['\'', '\"', '\''], ['\'', '\"', '\'', '\"'];
    RunOne(st, '\'');
    RunMore(st, one, '\"');
    assert one + ['\"'] == two;
    RunMore(st, two, '\'');
    assert two + ['\''] == three;
    RunMore(st, three, '\"');
    assert three + ['\"'] == four;
    RunMore(st, four, '\'');
    assert four + ['\''] == "'\"'\"'";
  }

  lemma {:induction false} EscapeReads(value: string, word: string, words: seq<string>)
    ensures Run(Scanning(SingleQuoted, word, words), Escape(value)) ==
            Scanning(SingleQuoted, word + value, words)
  {
    var st := Scanning(SingleQuoted, word, words);
    if value == "" {
      assert word + value == word;
    } else {
      var n := |value| - 1;
      var tail := if value[n] == '\'' then "'\"'\"'" else [value[n]];
      EscapeReads(value[..n], word, words);
      RunAppend(st, Escape(value[..n]), tail);
      var mid := Scanning(SingleQuoted, word + value[..n], words);
      assert word + value[..n] + [value[n]] == word + value;
      if value[n] == '\'' {
        EscapedQuote(mid);
      } else {
        RunOne(mid, value[n]);
      }
    }
  }

  /** A quoted value read at the start of a word, or inside one, adds exactly its value. */
  lemma QuoteReads(value: string, mode: Mode, word: string, words: seq<string>)
    requires mode == Bare || (mode == Outside && word == "")
    ensures Run(Scanning(mode, word, words), ShellQuote(value)) == Scanning(Bare, word + value, words)
  {
    var st := Scanning(mode, word, words);
    RunOne(st, '\'');
    RunAppend(st, "'", Escape(value));
    EscapeReads(value, word, words);
    RunAppend(st, "'" + Escape(value), "'");
    RunOne(Scanning(SingleQuoted, word + value, words), '\'');
  }

  // ----- Texts that spell lists of words ---------------------------------------------------

  /** Wherever a word may start, `text` and a space add exactly `words`. */
  ghost predicate Spells(text: string, words: seq<string>) {
    forall before ::
      Run(Scanning(Outside, "", before), text + " ") == Scanning(Outside, "", before + words)
  }

  lemma SpellsTwo(left: string, right: string, leftWords: seq<string>, rightWords: seq<string>)
    requires Spells(left, leftWords) && Spells(right, rightWords)
    ensures Spells(left + " " + right, leftWords + rightWords)
  {
    forall before
      ensures Run(Scanning(Outside, "", before), left + " " + right + " ")
           == Scanning(Outside, "", before + (leftWords + rightWords))
    {
      assert left + " " + right + " " == (left + " ") + (right + " ");
      RunAppend(Scanning(Outside, "", before), left + " ", right + " ");
      assert before + leftWords + rightWords == before + (leftWords + rightWords);
    }
  }

  lemma SpellsNothing()
    ensures Spells("", [])
  {
    forall before: seq<string>
      ensures Run(Scanning(Outside, "", before), "" + " ") == Scanning(Outside, "", before + [])
    {
      assert "" + " " == " " && before + [] == before;
      RunOne(Scanning(Outside, "", before), ' ');
    }
  }

  lemma SpellsQuoted(value: string)
    ensures Spells(ShellQuote(value), [value])
  {
    forall before
      ensures Run(Scanning(Outside, "", before), ShellQuote(value) + " ") == Scanning(Outside, "", before + [value])
    {
      var st := Scanning(Outside, "", before);
      QuoteReads(value, Outside, "", before);
      assert "" + value == value;
      RunAppend(st, ShellQuote(value), " ");
      RunOne(Scanning(Bare, value, before), ' ');
    }
  }

  /** Letters, digits and dashes stand for themselves. */
  predicate Ordinary(c: char) {
    'a' <= c <= 'z' || 'A' <= c <= 'Z' || '0' <= c <= '9' || c == '-'
  }

  predicate OrdinaryText(text: string) {
    forall i :: 0 <= i < |text| ==> Ordinary(text[i])
  }

  lemma OrdinaryStep(st: State, c: char)
    requires Ordinary(c) && st.Scanning? && (st.mode == Bare || st.mode == Outside)
    ensures Step(st, c) == st.(mode := Bare, word := st.word + [c])
  {
    assert !Special(c);
  }

  lemma {:induction false} OrdinaryReads(text: string, before: seq<string>)
    requires text != "" && OrdinaryText(text)
    ensures Run(Scanning(Outside, "", before), text) == Scanning(Bare, text, before)
  {
    var n := |text| - 1;
    assert Ordinary(text[n]);
    OrdinaryStep(Scanning(if n == 0 then Outside else Bare, text[..n], before), text[n]);
    assert text == text[..n] + [text[n]];
    if n > 0 {
      OrdinaryReads(text[..n], before);
    }
  }

  lemma SpellsOrdinary(text: string)
    requires text != "" && OrdinaryText(text)
    ensures Spells(text, [text])
  {
    forall before
      ensures Run(Scanning(Outside, "", before), text + " ") == Scanning(Outside, "", before + [text])
    {
      OrdinaryReads(text, before);
      RunAppend(Scanning(Outside, "", before), text, " ");
      RunOne(Scanning(Bare, text, before), ' ');
    }
  }

  function Concat(lists: seq<seq<string>>): seq<string> {
    if lists == [] then [] else Concat(lists[..|lists| - 1]) + lists[|lists| - 1]
  }

  lemma {:induction false} SpellsJoined(texts: seq<string>, lists: seq<seq<string>>)
    requires |texts| == |lists| && forall i :: 0 <= i < |texts| ==> Spells(texts[i], lists[i])
    ensures Spells(Join(texts, " "), Concat(lists))
  {
    if |texts| == 0 {
      SpellsNothing();
    } else {
      var n := |texts| - 1;
      if n == 0 {
        assert Concat(lists[..0]) == [];
        assert Concat(lists) == lists[0];
      } else {
        SpellsJoined(texts[..n], lists[..n]);
        SpellsTwo(Join(texts[..n], " "), texts[n], Concat(lists[..n]), lists[n]);
      }
    }
  }

  /** What a text spells is what the shell reads. */
  lemma SpellsIsRead(text: string, words: seq<string>)
    requires Spells(text, words)
    ensures Words(text) == Some(words)
  {
    var st := Scanning(Outside, "", []);
    RunAppend(st, text, " ");
    RunOne(Run(st, text), ' ');
    assert [] + words == words;
    assert Run(st, text + " ") == Scanning(Outside, "", words);
  }

  // ----- Main results ----------------------------------------------------------------------

  /** Each value becomes a list of one word. */
  function Singles(values: seq<string>): seq<seq<string>> {
    Sorting.Map((value: string) => [value], values)
  }

  lemma {:induction false} ConcatOfSingles(values: seq<string>)
    ensures Concat(Singles(values)) == values
  {
    if values != [] {
      var n := |values| - 1;
      ConcatOfSingles(values[..n]);
      Sorting.LastSplit(values);
      assert Singles(values)[..n] == Singles(values[..n]);
    }
  }

  /** Round trip: any list of values survives quoting, joining with spaces and word splitting. */
  lemma QuotedListReadsBack(values: seq<string>)
    ensures Words(Join(Sorting.Map(ShellQuote, values), " ")) == Some(values)
  {
    var quoted := Sorting.Map(ShellQuote, values);
    forall i | 0 <= i < |values| ensures Spells(quoted[i], Singles(values)[i]) {
      SpellsQuoted(values[i]);
    }
    SpellsJoined(quoted, Singles(values));
    ConcatOfSingles(values);
    SpellsIsRead(Join(quoted, " "), values);
  }

  // ----- The curl command line -------------------------------------------------------------

  function HeaderArg(line: string): string {
    "-H " + ShellQuote(line)
  }

  /** The header lines of a map: `key: value`. */
  function LineOf(headers: map<string, string>): string -> string {
    (key: string) => key + ": " + (if key in headers then headers[key] else "")
  }

  predicate LineLess(a: string, b: string) {
    LexLess(HeaderArg(a), HeaderArg(b))
  }

  /** The header lines in the order their arguments take after sort.Strings. */
  function SortedLines(keys: seq<string>, headers: map<string, string>): seq<string> {
    Sorting.SortBy(LineLess, Sorting.Map(LineOf(headers), keys))
  }

  function Seconds(timeout: int): nat {
    if timeout <= 0 then 5 else timeout
  }

  const STATUS_FORMAT := "\\nHTTP_STATUS=%{http_code}"

  /** The words of the Sprintf format before the headers, as they stand in the command. */
  function FixedTexts(seconds: nat): seq<string> {
    ["curl", "-k", "-sS", "-i", "-w", "'" + STATUS_FORMAT + "'",
     "--connect-timeout", Decimal(seconds), "--max-time", Decimal(seconds)]
  }

  /** The same words, as curl must receive them. */
  function FixedWords(seconds: nat): seq<string> {
    ["curl", "-k", "-sS", "-i", "-w", STATUS_FORMAT,
     "--connect-timeout", Decimal(seconds), "--max-time", Decimal(seconds)]
  }

  /** The Sprintf that assembles the command. */
  function CurlText(seconds: nat, headerArgs: seq<string>, url: string): string {
    Join(FixedTexts(seconds), " ") + " " + Join(headerArgs, " ") + " " + ShellQuote(url)
  }

  /** The argument vector curl must receive. */
  function Argv(seconds: nat, lines: seq<string>, url: string): seq<string> {
    FixedWords(seconds) + Concat(Sorting.Map((line: string) => ["-H", line], lines)) + [url]
  }

  lemma SpellsHeader(line: string)
    ensures Spells(HeaderArg(line), ["-H", line])
  {
    SpellsOrdinary("-H");
    SpellsQuoted(line);
    SpellsTwo("-H", ShellQuote(line), ["-H"], [line]);
    assert "-H" + " " + ShellQuote(line) == HeaderArg(line);
  }

  lemma SpellsHeaders(lines: seq<string>)
    ensures Spells(Join(Sorting.Map(HeaderArg, lines), " "),
                   Concat(Sorting.Map((line: string) => ["-H", line], lines)))
  {
    var texts := Sorting.Map(HeaderArg, lines);
    var lists := Sorting.Map((line: string) => ["-H", line], lines);
    forall i | 0 <= i < |lines| ensures Spells(texts[i], lists[i]) {
      SpellsHeader(lines[i]);
    }
    SpellsJoined(texts, lists);
  }

  lemma {:induction false} PlainEscape(value: string)
    requires '\'' !in value
    ensures Escape(value) == value
  {
    if value != "" {
      PlainEscape(value[..|value| - 1]);
      Sorting.LastSplit(value);
    }
  }

  lemma SpellsFixed(seconds: nat)
    ensures Spells(Join(FixedTexts(seconds), " "), FixedWords(seconds))
  {
    var texts, words := FixedTexts(seconds), FixedWords(seconds);
    forall i | 0 <= i < |texts| ensures Spells(texts[i], Singles(words)[i]) {
      SpellsFixedText(seconds, i);
    }
    SpellsJoined(texts, Singles(words));
    ConcatOfSingles(words);
  }

  lemma SpellsFixedText(seconds: nat, i: nat)
    requires i < |FixedTexts(seconds)|
    ensures Spells(FixedTexts(seconds)[i], [FixedWords(seconds)[i]])
  {
    if i == 5 {
      PlainEscape(STATUS_FORMAT);
      SpellsQuoted(STATUS_FORMAT);
    } else {
      assert OrdinaryText("curl") && OrdinaryText("-k") && OrdinaryText("-sS") && OrdinaryText("-i");
      assert OrdinaryText("-w") && OrdinaryText("--connect-timeout") && OrdinaryText("--max-time");
      DecimalDigits(seconds);
      SpellsOrdinary(FixedTexts(seconds)[i]);
    }
  }

  /** For any timeout, header lines and URL, the shell hands curl exactly the intended arguments. */
  lemma CurlTextReads(seconds: nat, lines: seq<string>, url: string)
    ensures Words(CurlText(seconds, Sorting.Map(HeaderArg, lines), url)) == Some(Argv(seconds, lines, url))
  {
    var fixed := Join(FixedTexts(seconds), " ");
    var headers := Join(Sorting.Map(HeaderArg, lines), " ");
    var headerWords := Concat(Sorting.Map((line: string) => ["-H", line], lines));
    SpellsFixed(seconds);
    SpellsHeaders(lines);
    SpellsQuoted(url);
    SpellsTwo(fixed, headers, FixedWords(seconds), headerWords);
    SpellsTwo(fixed + " " + headers, ShellQuote(url), FixedWords(seconds) + headerWords, [url]);
    SpellsIsRead(fixed + " " + headers + " " + ShellQuote(url), FixedWords(seconds) + headerWords + [url]);
  }

  /** The loop over the headers map, in any iteration order. */
  method CollectHeaderArgs(headers: map<string, string>) returns (headerArgs: seq<string>, ghost keys: seq<string>)
    ensures Sorting.Enumerates(keys, headers.Keys)
    ensures headerArgs == Sorting.Map(HeaderArg, Sorting.Map(LineOf(headers), keys))
    ensures |headerArgs| == |headers.Keys|
  {
    headerArgs, keys := [], [];
    var remaining := headers.Keys;
    while remaining != {}
      invariant remaining <= headers.Keys
      invariant Sorting.Enumerates(keys, headers.Keys - remaining)
      invariant headerArgs == Sorting.Map(HeaderArg, Sorting.Map(LineOf(headers), keys))
      invariant |headerArgs| + |remaining| == |headers.Keys|
      decreases |remaining|
    {
      var key :| key in remaining;
      headerArgs := headerArgs + ["-H " + ShellQuote(key + ": " + headers[key])];
      keys := keys + [key];
      remaining := remaining - {key};
    }
  }

  /** CurlURL's command: the header arguments are collected in the map's iteration order, then sorted. */
  method CurlCommand(url: string, timeout: int, headers: map<string, string>)
    returns (command: string, ghost keys: seq<string>)
    ensures Sorting.Enumerates(keys, headers.Keys)
    ensures Words(command) == Some(Argv(Seconds(timeout), SortedLines(keys, headers), url))
    ensures forall order :: Sorting.Enumerates(order, headers.Keys) ==>
              command == CurlText(Seconds(timeout), Sorting.Map(HeaderArg, SortedLines(order, headers)), url)
  {
    var seconds := timeout;
    if seconds <= 0 {
      seconds := 5;
    }
    var headerArgs;
    headerArgs, keys := CollectHeaderArgs(headers);
    Sorting.MapSort(HeaderArg, LineLess, LexLess, Sorting.Map(LineOf(headers), keys));
    headerArgs := Sorting.SortBy(LexLess, headerArgs);
    command := CurlText(seconds, headerArgs, url);
    CurlTextReads(seconds, SortedLines(keys, headers), url);
    forall order | Sorting.Enumerates(order, headers.Keys)
      ensures Sorting.Map(HeaderArg, SortedLines(order, headers)) == headerArgs
    {
      OrderIrrelevant(order, keys, headers);
    }
  }

  /** The arguments come out the same whatever order the map was walked in. */
  lemma OrderIrrelevant(left: seq<string>, right: seq<string>, headers: map<string, string>)
    requires Sorting.Enumerates(left, headers.Keys) && Sorting.Enumerates(right, headers.Keys)
    ensures Sorting.Map(HeaderArg, SortedLines(left, headers)) == Sorting.Map(HeaderArg, SortedLines(right, headers))
  {
    var linesL, linesR := Sorting.Map(LineOf(headers), left), Sorting.Map(LineOf(headers), right);
    Sorting.SameElements(left, right, headers.Keys);
    Sorting.MapPermutes(LineOf(headers), left, right);
    Sorting.MapPermutes(HeaderArg, linesL, linesR);
    Sorting.MapSort(HeaderArg, LineLess, LexLess, linesL);
    Sorting.MapSort(HeaderArg, LineLess, LexLess, linesR);
    Sorting.LexIsOrder(Sorting.Map(HeaderArg, linesL));
    Sorting.SortUnique(LexLess, Sorting.Map(HeaderArg, linesL), Sorting.Map(HeaderArg, linesR));
  }

  // ----- The command written out -----------------------------------------------------------

  /** Five seconds unless a positive time is given. */
  lemma SecondsExamples()
    ensures Seconds(0) == 5 && Seconds(-1) == 5 && Seconds(1) == 1 && Seconds(30) == 30
  {
  }

  /** curl's arguments for one header. */
  lemma ArgvExample()
    ensures Argv(5, ["A: b"], "http://x/") ==
            ["curl", "-k", "-sS", "-i", "-w", "\\nHTTP_STATUS=%{http_code}", "--connect-timeout", "5", "--max-time", "5"] +
            ["-H", "A: b"] + ["http://x/"]
  {
    assert Decimal(5) == "5";
    var one := Sorting.Map((line: string) => ["-H", line], ["A: b"]);
    assert one == [["-H", "A: b"]] && one[..0] == [];
    assert Concat(one) == ["-H", "A: b"];
  }

  /** The header arguments come in ascending order. */
  lemma SortedLinesAscend(keys: seq<string>, headers: map<string, string>, i: nat, j: nat)
    requires i < j < |SortedLines(keys, headers)|
    ensures var lines := SortedLines(keys, headers);
            !LexLess("-H " + ShellQuote(lines[j]), "-H " + ShellQuote(lines[i]))
  {
    var lines := Sorting.Map(LineOf(headers), keys);
    LinesAreOrdered(lines);
    Sorting.SortSorts(LineLess, lines);
  }

  lemma LinesAreOrdered(lines: seq<string>)
    ensures Sorting.WeakOrderOn(LineLess, lines)
  {
    forall a, b | a in lines && b in lines && LineLess(a, b) ensures !LineLess(b, a) {
      LexLessTotal(HeaderArg(a), HeaderArg(b));
    }
    forall a, b, c | a in lines && b in lines && c in lines && !LineLess(a, b) && !LineLess(b, c) ensures !LineLess(a, c) {
      NotLexLess(HeaderArg(a), HeaderArg(b), HeaderArg(c));
    }
  }

  lemma NotLexLess(a: string, b: string, c: string)
    requires !LexLess(a, b) && !LexLess(b, c)
    ensures !LexLess(a, c)
  {
    LexLessTotal(a, b);
    LexLessTotal(b, c);
    LexLessTotal(a, c);
    if LexLess(b, a) && LexLess(c, b) {
      LexLessTransitive(c, b, a);
    }
  }

  /** The header line of a key. */
  lemma LineExample()
    ensures LineOf(map["Host" := "a"])("Host") == "Host: a"
  {
  }

  lemma {:induction false} StuckStays(text: string)
    ensures Run(Stuck, text) == Stuck
  {
    if text != "" {
      StuckStays(text[..|text| - 1]);
    }
  }

  lemma SpecialSticks(st: State, c: char)
    requires c in "|&;<>()$`\n*?[#~=%"
    requires st.Scanning? && (st.mode == Outside || st.mode == Bare)
    ensures Step(st, c) == Stuck
  {
  }

  /** Outside quotes a character that POSIX gives a meaning of its own makes the text no plain list of words. */
  lemma UnquotedMeansMore(left: string, c: char, right: string)
    requires c in "|&;<>()$`\n*?[#~=%"
    requires var st := Run(Scanning(Outside, "", []), left); st.Scanning? && (st.mode == Outside || st.mode == Bare)
    ensures Words(left + [c] + right) == None
  {
    var start := Scanning(Outside, "", []);
    RunAppend(start, left + [c], right);
    RunMore(start, left, c);
    SpecialSticks(Run(start, left), c);
    StuckStays(right);
  }
}
