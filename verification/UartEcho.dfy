/** The terminal rules of the UART echo screen, on a log that never forgets a line. */
module TerminalLog {

  const LINES_ON_SCREEN := 6
  const COLUMNS_ON_SCREEN := 21
  const ESC := 27 as char

  predicate IsLetter(c: char) {
    'a' <= c <= 'z' || 'A' <= c <= 'Z'
  }

  predicate IsNewline(c: char) {
    c == '\n' || c == '\r'
  }

  predicate IsPrintable(c: char) {
    ' ' <= c <= '~'
  }

  datatype Log = Log(lines: seq<string>, escape: bool, last: char)

  predicate Started(log: Log) {
    log.lines != []
  }

  function Current(log: Log): string
    requires Started(log)
  {
    log.lines[|log.lines| - 1]
  }

  /** A new line starts when the current one is full, or at the first line break in a row. */
  predicate NeedsLine(log: Log, c: char)
    requires Started(log)
  {
    |Current(log)| >= COLUMNS_ON_SCREEN || (IsNewline(c) && !IsNewline(log.last))
  }

  function Push(log: Log, c: char): (r: Log)
    requires Started(log)
    ensures Started(r)
  {
    if log.escape then Log(log.lines, !IsLetter(c), c)
    else if c == '[' && log.last == ESC then Log(log.lines, true, c)
    else if IsPrintable(c) || IsNewline(c) then
      var lines := if NeedsLine(log, c) then log.lines + [""] else log.lines;
      var n := |lines| - 1;
      Log(if IsNewline(c) then lines else lines[n := lines[n] + [c]], false, c)
    else Log(log.lines, false, c)
  }

  /** The log with an empty line added. */
  function WithLine(log: Log): (r: Log)
    ensures Started(r)
  {
    log.(lines := log.lines + [""])
  }

  /** The log with a character added to its last line. */
  function WithChar(log: Log, c: char): (r: Log)
    requires Started(log)
    ensures Started(r)
  {
    var n := |log.lines| - 1;
    log.(lines := log.lines[n := log.lines[n] + [c]])
  }

  /** What pushing a printable character or a line break amounts to outside escape sequences. */
  lemma PrintSteps(log: Log, c: char)
    requires Started(log) && (IsPrintable(c) || IsNewline(c)) && !log.escape && !(c == '[' && log.last == ESC)
    ensures var l := if NeedsLine(log, c) then WithLine(log) else log;
      Push(log, c).(last := log.last) == if IsNewline(c) then l else WithChar(l, c)
  {
  }

  const Blank := Log([""], false, 0 as char)

  function LogOf(input: seq<char>): (r: Log)
    ensures Started(r)
  {
    if input == [] then Blank else Push(LogOf(input[..|input| - 1]), input[|input| - 1])
  }

  // ---------------------------------------------------------------- what was printed, without lines

  function LastOf(input: seq<char>): char {
    if input == [] then 0 as char else input[|input| - 1]
  }

  /** Inside an escape sequence: from "ESC [" up to the next letter. */
  predicate InEscape(input: seq<char>) {
    && input != []
    && var before, c := input[..|input| - 1], input[|input| - 1];
       if InEscape(before) then !IsLetter(c) else c == '[' && LastOf(before) == ESC
  }

  /** The printable characters outside escape sequences. */
  function Printed(input: seq<char>): string {
    if input == [] then ""
    else
      var before, c := input[..|input| - 1], input[|input| - 1];
      Printed(before) +
      if IsPrintable(c) && !InEscape(before) && !InEscape(input) then [c] else ""
  }

  function Joined(lines: seq<string>): string {
    if lines == [] then "" else Joined(lines[..|lines| - 1]) + lines[|lines| - 1]
  }

  lemma {:induction false} LogTracksEscapes(input: seq<char>)
    ensures LogOf(input).escape == InEscape(input) && LogOf(input).last == LastOf(input)
  {
    if input != [] {
      LogTracksEscapes(input[..|input| - 1]);
    }
  }

  lemma JoinedSnoc(lines: seq<string>, line: string)
    ensures Joined(lines + [line]) == Joined(lines) + line
  {
  }

  lemma PushPrints(log: Log, c: char)
    requires Started(log)
    ensures Joined(Push(log, c).lines) == Joined(log.lines) +
      if IsPrintable(c) && !log.escape && !(c == '[' && log.last == ESC) then [c] else ""
  {
  }

  /** The log loses nothing and invents nothing: its lines join to what was printed. */
  lemma {:induction false} LogKeepsEverything(input: seq<char>)
    ensures Joined(LogOf(input).lines) == Printed(input)
  {
    if input == [] {
      assert Joined([""]) == "" by { JoinedSnoc([], ""); assert [] + [""] == [""]; }
    } else {
      var before := input[..|input| - 1];
      LogKeepsEverything(before);
      LogTracksEscapes(before);
      LogTracksEscapes(input);
      PushPrints(LogOf(before), input[|input| - 1]);
    }
  }

  /** No line is longer than the screen is wide. */
  lemma {:induction false} LinesFit(input: seq<char>)
    ensures forall k :: 0 <= k < |LogOf(input).lines| ==> |LogOf(input).lines[k]| <= COLUMNS_ON_SCREEN
  {
    if input != [] {
      LinesFit(input[..|input| - 1]);
    }
  }

  // ---------------------------------------------------------------- the screen

  /** Six texts and a cursor show the last lines of the log. */
  predicate Shows(texts: seq<string>, line: nat, lines: seq<string>) {
    && |texts| == LINES_ON_SCREEN
    && if |lines| <= LINES_ON_SCREEN
       then line + 1 == |lines| && texts[..|lines|] == lines
            && forall k :: |lines| <= k < LINES_ON_SCREEN ==> texts[k] == ""
       else line + 1 == LINES_ON_SCREEN && texts == lines[|lines| - LINES_ON_SCREEN..]
  }

  lemma CursorLineIsCurrent(texts: seq<string>, line: nat, lines: seq<string>)
    requires Shows(texts, line, lines) && lines != []
    ensures line < LINES_ON_SCREEN && texts[line] == lines[|lines| - 1]
  {
  }

  /** A new line moves the cursor down, or scrolls the texts up by one. */
  lemma ShowsNewLine(texts: seq<string>, line: nat, lines: seq<string>)
    requires Shows(texts, line, lines) && lines != []
    ensures line + 1 < LINES_ON_SCREEN ==> Shows(texts, line + 1, lines + [""])
    ensures line + 1 == LINES_ON_SCREEN ==> Shows(texts[1..] + [""], line, lines + [""])
  {
  }

  lemma ShowsPushBack(texts: seq<string>, line: nat, lines: seq<string>, text: string)
    requires Shows(texts, line, lines) && lines != []
    ensures line < LINES_ON_SCREEN && Shows(texts[line := text], line, lines[|lines| - 1 := text])
  {
  }

  lemma LogSnoc(input: seq<char>, c: char)
    ensures LogOf(input + [c]) == Push(LogOf(input), c)
  {
  }
}

/** Which character stands where, told from the received characters alone. */
module TerminalText {
  import opened TerminalLog

  /** The input ends in an open escape sequence: ESC and a bracket, and no letter since. */
  predicate EscapeOpen(input: seq<char>) {
    exists k :: 0 <= k < |input| - 1 && EscapeOpenSince(input, k)
  }

  predicate EscapeOpenSince(input: seq<char>, k: nat)
    requires k < |input| - 1
  {
    && input[k] as int == 27 && input[k + 1] == '['
    && forall j :: k + 2 <= j < |input| ==> !('a' <= input[j] <= 'z') && !('A' <= input[j] <= 'Z')
  }

  lemma OpenOneMore(input: seq<char>, c: char)
    ensures EscapeOpen(input + [c]) <==>
      || (EscapeOpen(input) && !('a' <= c <= 'z') && !('A' <= c <= 'Z'))
      || (input != [] && input[|input| - 1] as int == 27 && c == '[')
  {
    var n, after := |input|, input + [c];
    if k :| 0 <= k < n && EscapeOpenSince(after, k) {
      if k < n - 1 {
        assert forall j :: 0 <= j < n ==> input[j] == after[j];
        assert after[n] == c && EscapeOpenSince(input, k);
      }
    }
    if k :| 0 <= k < n - 1 && EscapeOpenSince(input, k) && !('a' <= c <= 'z') && !('A' <= c <= 'Z') {
      assert EscapeOpenSince(after, k);
    }
    if input != [] && input[n - 1] as int == 27 && c == '[' {
      assert EscapeOpenSince(after, n - 1);
    }
  }

  lemma {:induction false} EscapesAreOpen(input: seq<char>)
    ensures InEscape(input) == EscapeOpen(input)
  {
    if input != [] {
      var before, c := input[..|input| - 1], input[|input| - 1];
      EscapesAreOpen(before);
      assert input == before + [c];
      OpenOneMore(before, c);
    }
  }

  /** After this input, this is a printable character outside escape sequences. */
  predicate Shown(before: seq<char>, c: char) {
    && 32 <= c as int <= 126 && !InEscape(before)
    && !(before != [] && before[|before| - 1] as int == 27 && c == '[')
  }

  /** After this input, this is the first line break of a run, outside escape sequences. */
  predicate Breaks(before: seq<char>, c: char) {
    && (c as int == 10 || c as int == 13) && !InEscape(before)
    && !(before != [] && (before[|before| - 1] as int == 10 || before[|before| - 1] as int == 13))
  }

  predicate ShownAt(input: seq<char>, i: nat)
    requires i < |input|
  {
    Shown(input[..i], input[i])
  }

  predicate BreakAt(input: seq<char>, i: nat)
    requires i < |input|
  {
    Breaks(input[..i], input[i])
  }

  function LinesOf(input: seq<char>): (r: seq<string>)
    ensures r != []
  {
    LogOf(input).lines
  }

  function LastLine(input: seq<char>): string {
    LinesOf(input)[|LinesOf(input)| - 1]
  }

  /** Right behind a line break the line is not full. */
  lemma RoomBehindBreak(input: seq<char>)
    requires input != [] && IsNewline(input[|input| - 1]) && !InEscape(input)
    ensures |LastLine(input)| < 21
  {
    LogTracksEscapes(input[..|input| - 1]);
    LogTracksEscapes(input);
  }

  /** A character added to the last line, or to a new one if that has 21 already. */
  function WithShown(lines: seq<string>, c: char): (r: seq<string>)
    requires lines != []
    ensures r != [] && |lines| <= |r| <= |lines| + 1
    ensures |r| == |lines| <==> |lines[|lines| - 1]| < 21
    ensures r[|r| - 1] == if |r| == |lines| then lines[|lines| - 1] + [c] else [c]
    ensures r[..|lines| - 1] == lines[..|lines| - 1] && lines[|lines| - 1] <= r[|lines| - 1]
  {
    var n := |lines| - 1;
    if |lines[n]| >= 21 then lines + [[c]] else lines[n := lines[n] + [c]]
  }

  lemma PushOnLines(log: Log, c: char)
    requires Started(log)
    ensures !log.escape && IsNewline(c) && !IsNewline(log.last) ==> Push(log, c).lines == log.lines + [""]
    ensures !log.escape && IsPrintable(c) && !(c == '[' && log.last == ESC) ==>
      Push(log, c).lines == WithShown(log.lines, c)
    ensures log.escape || (c == '[' && log.last == ESC) ==> Push(log, c).lines == log.lines
    ensures !IsPrintable(c) && !IsNewline(c) ==> Push(log, c).lines == log.lines
    ensures IsNewline(c) && IsNewline(log.last) && |Current(log)| < 21 ==> Push(log, c).lines == log.lines
  {
    assert (log.lines + [""])[|log.lines| := [c]] == log.lines + [[c]] && [] + [c] == [c];
  }

  /** What a received character does to the lines. */
  lemma LinesAfter(before: seq<char>, c: char)
    ensures Breaks(before, c) ==> LinesOf(before + [c]) == LinesOf(before) + [""]
    ensures Shown(before, c) ==> LinesOf(before + [c]) == WithShown(LinesOf(before), c)
    ensures !Breaks(before, c) && !Shown(before, c) ==> LinesOf(before + [c]) == LinesOf(before)
  {
    LogSnoc(before, c);
    LogTracksEscapes(before);
    PushOnLines(LogOf(before), c);
    if before != [] && IsNewline(before[|before| - 1]) && !InEscape(before) {
      RoomBehindBreak(before);
    }
  }

  lemma LineStep(input: seq<char>, i: nat)
    requires i < |input|
    ensures var lines := LinesOf(input[..i]);
      && (BreakAt(input, i) ==> LinesOf(input[..i + 1]) == lines + [""])
      && (ShownAt(input, i) ==> LinesOf(input[..i + 1]) == WithShown(lines, input[i]))
      && (!BreakAt(input, i) && !ShownAt(input, i) ==> LinesOf(input[..i + 1]) == lines)
  {
    assert input[..i + 1] == input[..i] + [input[i]];
    LinesAfter(input[..i], input[i]);
  }

  /** Printed are the characters shown and no others. */
  lemma PrintedAreShown(before: seq<char>, c: char)
    ensures Printed(before + [c]) == Printed(before) + if Shown(before, c) then [c] else []
  {
    assert (before + [c])[..|before|] == before;
  }

  /** The k-th text on a screen of six: the last six lines, or all of them and nothing below. */
  function TextOnScreen(lines: seq<string>, k: nat): string
    requires k < 6
  {
    if |lines| >= 6 then lines[|lines| - 6 + k] else if k < |lines| then lines[k] else ""
  }

  lemma LastSixLines(texts: seq<string>, line: nat, lines: seq<string>)
    requires lines != []
    ensures Shows(texts, line, lines) <==>
      && |texts| == 6 && line == (if |lines| < 6 then |lines| - 1 else 5)
      && forall k :: 0 <= k < 6 ==> texts[k] == TextOnScreen(lines, k)
  {
    if Shows(texts, line, lines) {
      forall k | 0 <= k < 6
        ensures texts[k] == TextOnScreen(lines, k)
      {
        assert |lines| > k && |lines| <= 6 ==> texts[..|lines|][k] == lines[k];
      }
    } else if |texts| == 6 && forall k :: 0 <= k < 6 ==> texts[k] == TextOnScreen(lines, k) {
      assert |lines| <= 6 ==> texts[..|lines|] == lines;
      assert |lines| > 6 ==> texts == lines[|lines| - 6..];
    }
  }

  /** The line and the column in which a character was put. */
  function LineAt(input: seq<char>, i: nat): nat
    requires i < |input|
  {
    |LinesOf(input[..i + 1])| - 1
  }

  function ColumnAt(input: seq<char>, i: nat): int
    requires i < |input|
  {
    |LastLine(input[..i + 1])| - 1
  }

  predicate Holds(lines: seq<string>, line: int, column: int, c: char) {
    0 <= line < |lines| && 0 <= column < |lines[line]| && lines[line][column] == c
  }

  lemma StillHolds(lines: seq<string>, line: int, column: int, c: char, x: char)
    requires lines != [] && Holds(lines, line, column, c)
    ensures Holds(lines + [""], line, column, c) && Holds(WithShown(lines, x), line, column, c)
  {
    var r, n := WithShown(lines, x), |lines| - 1;
    assert line < n ==> r[line] == r[..n][line] == lines[..n][line];
  }

  lemma StillStands(input: seq<char>, h: nat, line: int, column: int, c: char)
    requires h < |input| && Holds(LinesOf(input[..h]), line, column, c)
    ensures Holds(LinesOf(input[..h + 1]), line, column, c)
  {
    LineStep(input, h);
    StillHolds(LinesOf(input[..h]), line, column, c, input[h]);
  }

  lemma StandsAtFirst(input: seq<char>, i: nat)
    requires i < |input| && ShownAt(input, i)
    ensures Holds(LinesOf(input[..i + 1]), LineAt(input, i), ColumnAt(input, i), input[i])
  {
    LineStep(input, i);
  }

  /** It stands there as long as input comes in. */
  lemma {:induction false} StandsThere(input: seq<char>, i: nat, n: nat)
    requires i < n <= |input| && ShownAt(input, i)
    ensures Holds(LinesOf(input[..n]), LineAt(input, i), ColumnAt(input, i), input[i])
    decreases n
  {
    if n == i + 1 {
      StandsAtFirst(input, i);
    } else {
      StandsThere(input, i, n - 1);
      StillStands(input, n - 1, LineAt(input, i), ColumnAt(input, i), input[i]);
    }
  }

  /** Without printed characters in between, every break adds an empty line, and nothing else does. */
  lemma {:induction false} NothingShown(input: seq<char>, i: nat, j: nat)
    requires i <= j <= |input| && forall k :: i <= k < j ==> !ShownAt(input, k)
    ensures if exists k :: i <= k < j && BreakAt(input, k)
            then |LinesOf(input[..i])| < |LinesOf(input[..j])| && LastLine(input[..j]) == ""
            else LinesOf(input[..j]) == LinesOf(input[..i])
    decreases j
  {
    if i < j {
      NothingShown(input, i, j - 1);
      LineStep(input, j - 1);
    }
  }

  /** Two printed characters with none between them stand on different lines if and only if a line break
      came between them or the first one filled its line; the second starts its line then, and follows
      the first otherwise. */
  lemma NeighboursPart(input: seq<char>, i: nat, j: nat)
    requires i < j < |input| && ShownAt(input, i) && ShownAt(input, j)
    requires forall k :: i < k < j ==> !ShownAt(input, k)
    ensures LineAt(input, i) <= LineAt(input, j)
    ensures LineAt(input, i) != LineAt(input, j) <==>
      (exists k :: i < k < j && BreakAt(input, k)) || ColumnAt(input, i) == 20
    ensures ColumnAt(input, j) == if LineAt(input, i) == LineAt(input, j) then ColumnAt(input, i) + 1 else 0
  {
    LineStep(input, i);
    NothingShown(input, i + 1, j);
    LineStep(input, j);
    LinesFit(input[..i + 1]);
  }

  /** The first printed character starts its line. */
  lemma FirstStartsItsLine(input: seq<char>, j: nat)
    requires j < |input| && ShownAt(input, j) && forall k :: 0 <= k < j ==> !ShownAt(input, k)
    ensures ColumnAt(input, j) == 0
  {
    NothingShown(input, 0, j);
    LineStep(input, j);
  }

  /** Nothing was printed since this break, or since the start for -1. */
  predicate BlankSince(input: seq<char>, i: int, j: nat)
    requires j <= |input|
  {
    && -1 <= i < j && (0 <= i ==> BreakAt(input, i))
    && forall k :: i < k < j ==> !ShownAt(input, k)
  }

  /** The line written to is empty if and only if nothing was printed since the last break. */
  lemma {:induction false} LastLineBlank(input: seq<char>, j: nat)
    requires j <= |input|
    ensures LastLine(input[..j]) == "" <==> exists i :: BlankSince(input, i, j)
    decreases j
  {
    if j == 0 {
      assert BlankSince(input, -1, 0);
    } else {
      var h := j - 1;
      LastLineBlank(input, h);
      LineStep(input, h);
      BlankOneMore(input, h, j);
      if i :| BlankSince(input, i, h) {
        BlankOneMore(input, i, j);
      }
      if i :| BlankSince(input, i, j) {
        BlankOneMore(input, i, j);
      }
    }
  }

  lemma BlankOneMore(input: seq<char>, i: int, j: nat)
    requires 0 < j <= |input| && -1 <= i < j
    ensures BlankSince(input, i, j) <==>
      if i == j - 1 then BreakAt(input, i) else BlankSince(input, i, j - 1) && !ShownAt(input, j - 1)
  {
  }

  predicate BlankBetween(input: seq<char>, i: int, j: nat)
    requires j < |input|
  {
    BlankSince(input, i, j) && BreakAt(input, j)
  }

  predicate HasBlank(lines: seq<string>) {
    exists n :: 0 <= n < |lines| && lines[n] == ""
  }

  lemma OneMoreDone(lines: seq<string>, c: char)
    requires lines != []
    ensures var n := |lines| - 1;
      var r := WithShown(lines, c);
      && ((lines + [""])[..n + 1] == lines)
      && (HasBlank(lines) <==> HasBlank(lines[..n]) || lines[n] == "")
      && (HasBlank(r[..|r| - 1]) <==> HasBlank(lines[..n]))
  {
    var n := |lines| - 1;
    var r := WithShown(lines, c);
    assert lines == lines[..n] + [lines[n]];
    if |r| > |lines| {
      assert r[..|r| - 1] == lines[..n] + [lines[n]];
    }
  }

  function DoneLines(input: seq<char>): seq<string> {
    LinesOf(input)[..|LinesOf(input)| - 1]
  }

  lemma DoneStep(input: seq<char>, h: nat)
    requires h < |input|
    ensures HasBlank(DoneLines(input[..h + 1])) <==>
      HasBlank(DoneLines(input[..h])) || (BreakAt(input, h) && LastLine(input[..h]) == "")
  {
    LineStep(input, h);
    OneMoreDone(LinesOf(input[..h]), input[h]);
  }

  /** A line that is done is empty if and only if two breaks came with nothing printed between them, or
      one before anything was printed. */
  lemma {:induction false} DoneLineBlank(input: seq<char>, j: nat)
    requires j <= |input|
    ensures HasBlank(DoneLines(input[..j])) <==> exists i, k | 0 <= k < j :: BlankBetween(input, i, k)
    decreases j
  {
    if j > 0 {
      var h := j - 1;
      DoneLineBlank(input, h);
      DoneStep(input, h);
      LastLineBlank(input, h);
      if i :| BlankSince(input, i, h) && BreakAt(input, h) {
        assert BlankBetween(input, i, h);
      }
    }
  }
}

module UartEcho {
  import opened TerminalLog

  class ListElement {
    var text: string

    constructor ()
      ensures text == ""
    {
      text := "";
    }
  }

  ghost function TextsOf(es: seq<ListElement>): (ts: seq<string>)
    reads es
    ensures |ts| == |es| && forall k :: 0 <= k < |ts| ==> ts[k] == es[k].text
  {
    seq(|es|, i requires 0 <= i < |es| reads es => es[i].text)
  }

  lemma RotationPermutes(a: seq<ListElement>, b: seq<ListElement>)
    requires a != [] && (b == a || b == a[1..] + [a[0]])
    ensures multiset(a) == multiset(b)
  {
    assert a == [a[0]] + a[1..];
  }

  /** Six fresh elements with empty texts. */
  method NewList() returns (list: array<ListElement>)
    ensures fresh(list) && list.Length == LINES_ON_SCREEN
    ensures forall i :: 0 <= i < LINES_ON_SCREEN ==> fresh(list[i]) && list[i].text == ""
    ensures forall i, j :: 0 <= i < j < LINES_ON_SCREEN ==> list[i] != list[j]
  {
    var blank := new ListElement();
    list := new ListElement[LINES_ON_SCREEN](_ => blank);
    var k := 0;
    while k < LINES_ON_SCREEN
      invariant 0 <= k <= LINES_ON_SCREEN
      invariant forall i :: 0 <= i < k ==> fresh(list[i]) && list[i].text == ""
      invariant forall i, j :: 0 <= i < j < k ==> list[i] != list[j]
    {
      var e := new ListElement();
      list[k] := e;
      k := k + 1;
    }
  }

  class UartDumpModel {
    const list: array<ListElement>
    var line: nat
    var lastChar: char
    var escape: bool
    ghost const elements: set<ListElement>   // the elements allocated with the model
    ghost var log: Log

    ghost predicate Valid()
      reads this, list, elements
    {
      && Structured()
      && Started(log) && escape == log.escape && lastChar == log.last
      && Shows(Texts(), line, log.lines)
    }

    /** The array holds six different elements, all of them from the start. */
    ghost predicate Structured()
      reads list
    {
      && list.Length == LINES_ON_SCREEN
      && (forall i :: 0 <= i < LINES_ON_SCREEN ==> list[i] in elements)
      && forall i, j :: 0 <= i < j < LINES_ON_SCREEN ==> list[i] != list[j]
    }

    ghost function Texts(): (ts: seq<string>)
      requires Structured()
      reads list, elements
      ensures |ts| == LINES_ON_SCREEN && forall k :: 0 <= k < |ts| ==> ts[k] == list[k].text
    {
      TextsOf(list[..])
    }

    constructor ()
      ensures Valid() && fresh(list) && fresh(elements) && log == LogOf([])
    {
      var fresh6 := NewList();
      list := fresh6;
      elements := set e | e in fresh6[..];
      line, lastChar, escape := 0, 0 as char, false;
      log := Blank;
      new;
      assert Texts()[0] == "" && Texts()[..1] == [""];
    }

    /** Scrolls up: the first element moves to the end and is cleared. */
    method Rotate()
      requires Structured()
      modifies list, elements
      ensures Structured() && list[..] == old(list[1..]) + [old(list[0])]
      ensures Texts() == old(Texts())[1..] + [""]
    {
      ghost var before, texts := list[..], Texts();
      var first := list[0];
      ShiftDown();
      first.text := "";
      list[LINES_ON_SCREEN - 1] := first;
      assert list[..] == before[1..] + [first];
    }

    method ShiftDown()
      requires list.Length == LINES_ON_SCREEN
      modifies list
      ensures list[..] == old(list[1..]) + [old(list[LINES_ON_SCREEN - 1])]
    {
      var i := 1;
      while i < LINES_ON_SCREEN
        invariant 1 <= i <= LINES_ON_SCREEN
        invariant forall k :: 0 <= k < i - 1 ==> list[k] == old(list[k + 1])
        invariant forall k :: i - 1 <= k < LINES_ON_SCREEN ==> list[k] == old(list[k])
      {
        list[i - 1] := list[i];
        i := i + 1;
      }
    }

    method NewLine()
      requires Valid()
      modifies this`line, this`log, list, elements
      ensures Valid() && log == WithLine(old(log))
      ensures list[..] == old(list[..]) || list[..] == old(list[1..]) + [old(list[0])]
    {
      ghost var after := WithLine(log);
      ShowsNewLine(Texts(), line, log.lines);
      if line + 1 < LINES_ON_SCREEN {
        line := line + 1;
      } else {
        Rotate();
      }
      log := after;
    }

    method SetText(i: nat, text: string)
      requires Structured() && i < LINES_ON_SCREEN
      modifies list[i]
      ensures Structured() && list[..] == old(list[..])
      ensures Texts() == old(Texts())[i := text]
    {
      list[i].text := text;
    }

    method PushBack(data: char)
      requires Valid()
      modifies this`log, elements
      ensures Valid() && list[..] == old(list[..])
      ensures log == WithChar(old(log), data)
    {
      ghost var after := WithChar(log, data);
      ghost var text := log.lines[|log.lines| - 1] + [data];
      CursorLineIsCurrent(Texts(), line, log.lines);
      ShowsPushBack(Texts(), line, log.lines, text);
      SetText(line, list[line].text + [data]);
      assert Texts() == old(Texts())[line := text];
      log := after;
    }

    method NewStringNeeded(data: char) returns (needed: bool)
      requires Valid()
      ensures needed == NeedsLine(log, data)
    {
      needed := false;
      CursorLineIsCurrent(Texts(), line, log.lines);
      if |list[line].text| >= COLUMNS_ON_SCREEN {
        needed := true;
      } else if data == '\n' || data == '\r' {
        // pack line breaks
        if lastChar != '\n' && lastChar != '\r' {
          needed := true;
        }
      }
    }

    /** A printable character or a line break outside escape sequences. */
    method Print(data: char)
      requires Valid() && (IsPrintable(data) || IsNewline(data))
      requires !log.escape && !(data == '[' && log.last == ESC)
      modifies this`line, this`log, list, elements
      ensures Valid() && log == TerminalLog.Push(old(log), data).(last := old(log).last)
      ensures list[..] == old(list[..]) || list[..] == old(list[1..]) + [old(list[0])]
    {
      PrintSteps(log, data);
      var newStringNeeded := NewStringNeeded(data);
      if newStringNeeded {
        NewLine();
      }
      if data != '\n' && data != '\r' {
        PushBack(data);
      }
    }

    /** One received character; the array of elements stays put or is rotated by one. */
    method Push(data: char)
      requires Valid()
      modifies this`line, this`lastChar, this`escape, this`log, list, elements
      ensures Valid() && log == TerminalLog.Push(old(log), data)
      ensures list[..] == old(list[..]) || list[..] == old(list[1..]) + [old(list[0])]
    {
      if escape {
        // escape code ends with a letter
        Remember(data, !(('a' <= data <= 'z') || ('A' <= data <= 'Z')));
      } else if data == '[' && lastChar == ESC {
        // "Esc[" starts an escape code
        Remember(data, true);
      } else {
        if (' ' <= data <= '~') || (data == '\n' || data == '\r') {
          Print(data);
        }
        Remember(data, false);
      }
    }

    method Remember(data: char, inEscape: bool)
      requires Valid()
      modifies this`lastChar, this`escape, this`log
      ensures Valid() && log == Log(old(log).lines, inEscape, data)
    {
      escape, lastChar := inEscape, data;
      log := Log(log.lines, inEscape, data);
    }

    method ReceiveOne(c: char, ghost before: seq<char>)
      requires Valid() && log == LogOf(before)
      modifies this`line, this`lastChar, this`escape, this`log, list, elements
      ensures Valid() && log == LogOf(before + [c])
      ensures multiset(list[..]) == old(multiset(list[..]))
    {
      LogSnoc(before, c);
      ghost var was := list[..];
      Push(c);
      RotationPermutes(was, list[..]);
    }

    /** The worker's loop over a received block: after any input the screen shows the last six lines of
        the log of everything received so far, on the six elements it started with. */
    method Receive(data: seq<char>, ghost before: seq<char>)
      requires Valid() && log == LogOf(before)
      modifies this`line, this`lastChar, this`escape, this`log, list, elements
      ensures Valid() && log == LogOf(before + data)
      ensures Shows(Texts(), line, LogOf(before + data).lines)
      ensures multiset(list[..]) == old(multiset(list[..]))
    {
      var i := 0;
      assert before + data[..0] == before;
      while i < |data|
        invariant 0 <= i <= |data|
        invariant Valid() && log == LogOf(before + data[..i])
        invariant multiset(list[..]) == old(multiset(list[..]))
      {
        assert before + data[..i + 1] == before + data[..i] + [data[i]];
        ReceiveOne(data[i], before + data[..i]);
        i := i + 1;
      }
      assert data[..i] == data;
    }
  }
}
