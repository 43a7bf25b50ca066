/**
 The daemon's command line: framing of a reply (`Execute` in internal/otctl/client.go)
 and reading of its tables (`pipeTable` and `splitRow` in internal/otctl/scan.go).
 */
module Cli {
  import opened Wrappers
  import opened Text
  import opened TextFacts

  const MAX_LINES: nat := 2048

  datatype Failure = EmptyCommand | NotOneLine | Refused(line: string) | TooLong | Closed

  function DropLeading(s: string, c: char): string {
    if s != "" && s[0] == c then DropLeading(s[1..], c) else s
  }

  function DropTrailing(s: string, c: char): string {
    if s != "" && s[|s| - 1] == c then DropTrailing(s[..|s| - 1], c) else s
  }

  function DropPrompts(s: string): string {
    if |s| >= 2 && s[0] == '>' && s[1] == ' ' then DropPrompts(s[2..]) else s
  }

  /** A line without its carriage return and prompts. */
  function Clean(line: string): string {
    var rest := DropPrompts(DropTrailing(line, '\r'));
    if rest != "" && rest[0] == '>' then rest[1..] else rest
  }

  predicate IsError(trimmed: string) { |trimmed| >= 6 && trimmed[..6] == "Error " }

  /** What a line is to the reader. */
  datatype Role = Nothing | Finish | Refusal(why: string) | Output(text: string)

  /** The echo of the command can only come before any output. */
  function RoleOf(command: string, line: string, first: bool): Role {
    var text := Clean(line);
    var trimmed := TrimSpace(text);
    if trimmed == "" || (first && trimmed == command) then Nothing
    else if trimmed == "Done" then Finish
    else if IsError(trimmed) then Refusal(trimmed)
    else Output(text)
  }

  type Roles = (string, bool) -> Role

  function RolesIn(command: string): Roles { (line, first) => RoleOf(command, line, first) }

  /** The output among lines none of which ends the reply. */
  function Kept(roles: Roles, raw: seq<string>): seq<string> {
    if raw == [] then []
    else
      var before := Kept(roles, raw[..|raw| - 1]);
      var role := roles(raw[|raw| - 1], before == []);
      if role.Output? then before + [role.text] else before
  }

  /** The role line `i` plays in the reply. */
  function RoleAt(roles: Roles, raw: seq<string>, i: nat): Role
    requires i < |raw|
  {
    roles(raw[i], Kept(roles, raw[..i]) == [])
  }

  predicate EndsReply(role: Role) { role.Finish? || role.Refusal? }

  /** None of the first `n` lines ends the reply. */
  predicate StaysOpen(roles: Roles, raw: seq<string>, n: nat)
    requires n <= |raw|
  {
    forall j :: 0 <= j < n ==> !EndsReply(RoleAt(roles, raw, j))
  }

  /** Line `i` is "Done", nothing before it ends the reply, and the output before it is within the limit. */
  predicate Finishes(roles: Roles, raw: seq<string>, i: nat) {
    && i < |raw| && RoleAt(roles, raw, i).Finish? && StaysOpen(roles, raw, i)
    && |Kept(roles, raw[..i])| < MAX_LINES
  }

  ghost predicate Replied(roles: Roles, raw: seq<string>, lines: seq<string>) {
    exists i: nat :: Finishes(roles, raw, i) && lines == Kept(roles, raw[..i])
  }

  predicate OneLine(command: string) { '\r' !in command && '\n' !in command }

  /** How a reply that is no success ends: refused, too long, or never finished. */
  ghost predicate Ended(roles: Roles, raw: seq<string>, r: Result<seq<string>, Failure>) {
    match r
    case Ok(_) => true
    case Err(Refused(why)) =>
      exists i: nat :: i < |raw| && RoleAt(roles, raw, i) == Refusal(why) && StaysOpen(roles, raw, i)
                       && |Kept(roles, raw[..i])| < MAX_LINES
    case Err(TooLong) => exists n: nat :: n <= |raw| && StaysOpen(roles, raw, n) && |Kept(roles, raw[..n])| >= MAX_LINES
    case Err(Closed) => StaysOpen(roles, raw, |raw|) && |Kept(roles, raw[..|raw|])| < MAX_LINES
    case Err(_) => false
  }

  /**
   The reading loop: it succeeds exactly when the first line that ends the reply is "Done"
   and comes within the limit.
   */
  method ReadReply(roles: Roles, raw: seq<string>) returns (r: Result<seq<string>, Failure>)
    ensures r.Ok? ==> Replied(roles, raw, r.value)
    ensures r.Err? ==> forall lines :: !Replied(roles, raw, lines)
    ensures Ended(roles, raw, r)
  {
    var lines: seq<string> := [];
    for i := 0 to |raw|
      invariant lines == Kept(roles, raw[..i]) && |lines| < MAX_LINES
      invariant StaysOpen(roles, raw, i)
    {
      KeptStep(roles, raw, i);
      match roles(raw[i], lines == []) {
        case Nothing =>
        case Finish =>
          assert Finishes(roles, raw, i);
          return Ok(lines);
        case Refusal(why) =>
          return Err(Refused(why));
        case Output(text) =>
          lines := lines + [text];
      }
      if |lines| >= MAX_LINES {
        FullIsFinal(roles, raw, i + 1);
        return Err(TooLong);
      }
    }
    return Err(Closed);
  }

  method Execute(text: string, raw: seq<string>) returns (r: Result<seq<string>, Failure>)
    ensures TrimSpace(text) == "" <==> r == Err(EmptyCommand)
    ensures TrimSpace(text) != "" && ('\r' in TrimSpace(text) || '\n' in TrimSpace(text)) <==> r == Err(NotOneLine)
    ensures r.Ok? ==> Replied(RolesIn(TrimSpace(text)), raw, r.value)
    ensures TrimSpace(text) != "" && OneLine(TrimSpace(text)) && r.Err? ==>
              forall lines :: !Replied(RolesIn(TrimSpace(text)), raw, lines)
    ensures TrimSpace(text) != "" && OneLine(TrimSpace(text)) ==>
              Answers(TrimSpace(text), SaidAll(raw), CleanAll(raw), r)
  {
    var command := TrimSpace(text);
    if command == "" {
      return Err(EmptyCommand);
    }
    if !OneLine(command) {
      return Err(NotOneLine);
    }
    r := ReadReply(RolesIn(command), raw);
    RolesTell(command, raw);
    AnswerIsText(command, RolesIn(command), raw, SaidAll(raw), CleanAll(raw), r);
  }

  // ---------------------------------------------------------------- the reply told by the text of its lines

  /** The lines without carriage returns and prompts. */
  function CleanAll(raw: seq<string>): (texts: seq<string>)
    ensures |texts| == |raw| && forall i :: 0 <= i < |raw| ==> texts[i] == Clean(raw[i])
  {
    seq(|raw|, i requires 0 <= i < |raw| => Clean(raw[i]))
  }

  /** What they say: the same without outer space. */
  function SaidAll(raw: seq<string>): (says: seq<string>)
    ensures |says| == |raw| && forall i :: 0 <= i < |raw| ==> says[i] == TrimSpace(Clean(raw[i]))
  {
    seq(|raw|, i requires 0 <= i < |raw| => TrimSpace(Clean(raw[i])))
  }

  /** The first `n` lines say nothing or repeat the command. */
  predicate OnlyEchoes(command: string, says: seq<string>, n: nat)
    requires n <= |says|
  {
    forall i :: 0 <= i < n ==> says[i] == "" || says[i] == command
  }

  /** The command repeated before anything else is said. */
  predicate IsEcho(command: string, says: seq<string>, i: nat)
    requires i < |says|
  {
    says[i] == command && OnlyEchoes(command, says, i)
  }

  /** "Done", or an error of the daemon. */
  predicate IsEnd(command: string, says: seq<string>, i: nat)
    requires i < |says|
  {
    !IsEcho(command, says, i) && (says[i] == "Done" || (|says[i]| >= 6 && says[i][..6] == "Error "))
  }

  predicate NoEnd(command: string, says: seq<string>, n: nat)
    requires n <= |says|
  {
    forall i :: 0 <= i < n ==> !IsEnd(command, says, i)
  }

  predicate IsFirstEnd(command: string, says: seq<string>, i: nat) {
    i < |says| && IsEnd(command, says, i) && NoEnd(command, says, i)
  }

  /** The texts of the lines that say something, less the echoes in front. */
  function OutputOf(command: string, says: seq<string>, texts: seq<string>, n: nat): seq<string>
    requires n <= |says| == |texts|
  {
    if n == 0 then []
    else if says[n - 1] == "" || IsEcho(command, says, n - 1) then OutputOf(command, says, texts, n - 1)
    else OutputOf(command, says, texts, n - 1) + [texts[n - 1]]
  }

  /** What the first end makes of the output before it. */
  function AnswerAt(command: string, says: seq<string>, texts: seq<string>, i: nat): Result<seq<string>, Failure>
    requires i < |says| == |texts|
  {
    if |OutputOf(command, says, texts, i)| >= 2048 then Err(TooLong)
    else if says[i] == "Done" then Ok(OutputOf(command, says, texts, i))
    else Err(Refused(says[i]))
  }

  /** The answer to a command, for any lines: the output before "Done", or why there is none. */
  ghost predicate Answers(command: string, says: seq<string>, texts: seq<string>, r: Result<seq<string>, Failure>)
    requires |says| == |texts|
  {
    && (forall i: nat :: IsFirstEnd(command, says, i) ==> r == AnswerAt(command, says, texts, i))
    && (NoEnd(command, says, |says|) ==>
          r == Err(if |OutputOf(command, says, texts, |says|)| >= 2048 then TooLong else Closed))
  }

  /** The roles are told by what the lines say. */
  ghost predicate Tells(command: string, roles: Roles, raw: seq<string>, says: seq<string>, texts: seq<string>) {
    && |raw| == |says| == |texts|
    && forall i, first :: 0 <= i < |raw| ==> roles(raw[i], first) == Told(command, says[i], texts[i], first)
  }

  /** What a line is to the reader, by what it says. */
  function Told(command: string, said: string, text: string, first: bool): Role {
    if said == "" || (first && said == command) then Nothing
    else if said == "Done" then Finish
    else if |said| >= 6 && said[..6] == "Error " then Refusal(said)
    else Output(text)
  }

  lemma RolesTell(command: string, raw: seq<string>)
    ensures Tells(command, RolesIn(command), raw, SaidAll(raw), CleanAll(raw))
  {
  }

  lemma OpenStep(command: string, roles: Roles, raw: seq<string>, says: seq<string>, texts: seq<string>, n: nat)
    requires Tells(command, roles, raw, says, texts) && n < |raw|
    requires Kept(roles, raw[..n]) == [] <==> OnlyEchoes(command, says, n)
    ensures EndsReply(RoleAt(roles, raw, n)) <==> IsEnd(command, says, n)
    ensures RoleAt(roles, raw, n) ==
            if IsEnd(command, says, n) then (if says[n] == "Done" then Finish else Refusal(says[n]))
            else if says[n] == "" || IsEcho(command, says, n) then Nothing
            else Output(texts[n])
  {
  }

  /** As long as no line has ended the reply, what is kept is the output. */
  lemma {:induction false} KeptIsOutput(command: string, roles: Roles, raw: seq<string>, says: seq<string>,
                                        texts: seq<string>, n: nat)
    requires Tells(command, roles, raw, says, texts) && n <= |raw|
    requires NoEnd(command, says, n) || StaysOpen(roles, raw, n)
    ensures NoEnd(command, says, n) && StaysOpen(roles, raw, n)
    ensures Kept(roles, raw[..n]) == OutputOf(command, says, texts, n)
    ensures Kept(roles, raw[..n]) == [] <==> OnlyEchoes(command, says, n)
  {
    if n > 0 {
      KeptIsOutput(command, roles, raw, says, texts, n - 1);
      KeptStep(roles, raw, n - 1);
      OpenStep(command, roles, raw, says, texts, n - 1);
    }
  }

  lemma AnswerIsText(command: string, roles: Roles, raw: seq<string>, says: seq<string>, texts: seq<string>,
                     r: Result<seq<string>, Failure>)
    requires Tells(command, roles, raw, says, texts)
    requires r.Ok? ==> Replied(roles, raw, r.value)
    requires Ended(roles, raw, r)
    ensures Answers(command, says, texts, r)
  {
    forall i: nat | IsFirstEnd(command, says, i)
      ensures r == AnswerAt(command, says, texts, i)
    {
      AnswerAtEnd(command, roles, raw, says, texts, r, i);
    }
    if NoEnd(command, says, |says|) {
      AnswerWithoutEnd(command, roles, raw, says, texts, r);
    }
  }

  lemma AnswerAtEnd(command: string, roles: Roles, raw: seq<string>, says: seq<string>, texts: seq<string>,
                    r: Result<seq<string>, Failure>, i: nat)
    requires Tells(command, roles, raw, says, texts)
    requires r.Ok? ==> Replied(roles, raw, r.value)
    requires Ended(roles, raw, r) && IsFirstEnd(command, says, i)
    ensures r == AnswerAt(command, says, texts, i)
  {
    KeptIsOutput(command, roles, raw, says, texts, i);
    OpenStep(command, roles, raw, says, texts, i);
    EndIsOnce(roles, raw, i);
    if r.Err? && r.error.TooLong? {
      var n: nat :| n <= |raw| && StaysOpen(roles, raw, n) && |Kept(roles, raw[..n])| >= MAX_LINES;
      KeptGrows(roles, raw, n, i);
    }
  }

  /** Only one line ends the reply, and nothing stays open past it. */
  lemma EndIsOnce(roles: Roles, raw: seq<string>, i: nat)
    requires i < |raw| && EndsReply(RoleAt(roles, raw, i)) && StaysOpen(roles, raw, i)
    ensures forall n: nat :: n <= |raw| && StaysOpen(roles, raw, n) ==> n <= i
    ensures forall j: nat :: j < |raw| && EndsReply(RoleAt(roles, raw, j)) && StaysOpen(roles, raw, j) ==> j == i
  {
  }

  lemma AnswerWithoutEnd(command: string, roles: Roles, raw: seq<string>, says: seq<string>, texts: seq<string>,
                         r: Result<seq<string>, Failure>)
    requires Tells(command, roles, raw, says, texts)
    requires r.Ok? ==> Replied(roles, raw, r.value)
    requires Ended(roles, raw, r) && NoEnd(command, says, |says|)
    ensures r == Err(if |OutputOf(command, says, texts, |says|)| >= 2048 then TooLong else Closed)
  {
    KeptIsOutput(command, roles, raw, says, texts, |raw|);
    if r.Err? && r.error.TooLong? {
      var n: nat :| n <= |raw| && StaysOpen(roles, raw, n) && |Kept(roles, raw[..n])| >= MAX_LINES;
      KeptGrows(roles, raw, n, |raw|);
    }
  }

  // What cleaning takes away: prompts in front, one more angle bracket, carriage returns behind.

  function Prompts(n: nat): string { if n == 0 then "" else "> " + Prompts(n - 1) }

  lemma {:induction false} PromptsDrop(n: nat, text: string)
    requires !(|text| >= 2 && text[0] == '>' && text[1] == ' ')
    ensures DropPrompts(Prompts(n) + text) == text
  {
    if n == 0 {
      assert Prompts(0) + text == text;
    } else {
      PromptsDrop(n - 1, text);
      assert (Prompts(n) + text)[2..] == Prompts(n - 1) + text;
    }
  }

  function Returns(n: nat): string { seq(n, _ => '\r') }

  lemma {:induction false} ReturnsDrop(text: string, n: nat)
    requires text == "" || text[|text| - 1] != '\r'
    ensures DropTrailing(text + Returns(n), '\r') == text
  {
    if n == 0 {
      assert text + Returns(0) == text;
    } else {
      ReturnsDrop(text, n - 1);
      assert (text + Returns(n))[..|text| + n - 1] == text + Returns(n - 1);
    }
  }

  /** Any number of prompts, one bracket or none, and any number of returns. */
  lemma CleanStrips(n: nat, bracket: bool, text: string, m: nat)
    requires text == "" || (text[0] != '>' && text[|text| - 1] != '\r')
    requires bracket && text != "" ==> text[0] != ' '
    ensures Clean(Prompts(n) + (if bracket then ">" else "") + text + Returns(m)) == text
  {
    var rest := (if bracket then ">" else "") + text;
    var line := Prompts(n) + (if bracket then ">" else "") + text;
    assert line == Prompts(n) + rest;
    PromptsEnd(n);
    ReturnsDrop(line, m);
    PromptsDrop(n, rest);
    assert bracket ==> rest[1..] == text;
    assert !bracket ==> rest == text;
  }

  lemma {:induction false} PromptsEnd(n: nat)
    ensures Prompts(n) == "" || Prompts(n)[|Prompts(n)| - 1] == ' '
  {
    if n > 0 {
      PromptsEnd(n - 1);
    }
  }

  lemma KeptStep(roles: Roles, raw: seq<string>, n: nat)
    requires n < |raw|
    ensures |Kept(roles, raw[..n])| <= |Kept(roles, raw[..n + 1])|
    ensures var role := RoleAt(roles, raw, n);
            Kept(roles, raw[..n + 1]) == Kept(roles, raw[..n]) + if role.Output? then [role.text] else []
  {
    assert raw[..n + 1][..n] == raw[..n];
  }

  lemma {:induction false} KeptGrows(roles: Roles, raw: seq<string>, i: nat, j: nat)
    requires i <= j <= |raw|
    ensures |Kept(roles, raw[..i])| <= |Kept(roles, raw[..j])|
  {
    if i < j {
      KeptGrows(roles, raw, i, j - 1);
      KeptStep(roles, raw, j - 1);
    }
  }

  lemma FullIsFinal(roles: Roles, raw: seq<string>, n: nat)
    requires n <= |raw| && |Kept(roles, raw[..n])| >= MAX_LINES && StaysOpen(roles, raw, n)
    ensures forall k: nat :: !Finishes(roles, raw, k)
  {
    forall k: nat
      ensures !Finishes(roles, raw, k)
    {
      if k < |raw| && n <= k {
        KeptGrows(roles, raw, n, k);
      }
      if k < |raw| && k < n {
        assert !EndsReply(RoleAt(roles, raw, k));
      }
    }
  }

  lemma FinishIsFirst(roles: Roles, raw: seq<string>, i: nat, j: nat)
    requires Finishes(roles, raw, i) && Finishes(roles, raw, j)
    ensures j <= i
  {
    if i < j {
      assert EndsReply(RoleAt(roles, raw, i));
    }
  }

  /** A reply has one reading. */
  lemma ReplyIsDetermined(roles: Roles, raw: seq<string>, a: seq<string>, b: seq<string>)
    requires Replied(roles, raw, a) && Replied(roles, raw, b)
    ensures a == b
  {
    var i: nat :| Finishes(roles, raw, i) && a == Kept(roles, raw[..i]);
    var j: nat :| Finishes(roles, raw, j) && b == Kept(roles, raw[..j]);
    FinishIsFirst(roles, raw, i, j);
    FinishIsFirst(roles, raw, j, i);
  }

  // ---------------------------------------------------------------- tables

  predicate IsRule(trimmed: string) {
    && (exists i :: 0 <= i < |trimmed| && (trimmed[i] == '+' || trimmed[i] == '-'))
    && (forall i :: 0 <= i < |trimmed| ==> IsRuleChar(trimmed[i]))
  }

  predicate IsRuleChar(c: char) { c == '+' || c == '-' || c == '|' || c == ' ' }

  function TrimAll(parts: seq<string>): (cells: seq<string>)
    ensures |cells| == |parts|
  {
    seq(|parts|, i requires 0 <= i < |parts| => TrimSpace(parts[i]))
  }

  /** The cells of a table row; rules and other output have none. */
  function SplitRow(line: string): Option<seq<string>> {
    var trimmed := TrimSpace(line);
    if trimmed == "" || trimmed[0] != '|' || IsRule(trimmed) then None
    else Some(TrimAll(Split(DropTrailing(DropLeading(trimmed, '|'), '|'), '|')))
  }

  /** The rows among the lines. */
  function RowsOf(lines: seq<string>): seq<seq<string>> {
    if lines == [] then []
    else
      var before, row := RowsOf(lines[..|lines| - 1]), SplitRow(lines[|lines| - 1]);
      if row.None? then before else before + [row.value]
  }

  function Lowered(cells: seq<string>): (columns: seq<string>)
    ensures |columns| == |cells|
  {
    seq(|cells|, i requires 0 <= i < |cells| => ToLower(cells[i]))
  }

  /** Cells under their headers; cells without a header are dropped, and of equal headers the last wins. */
  function Keyed(columns: seq<string>, cells: seq<string>): map<string, string> {
    if cells == [] then map[]
    else
      var n := |cells| - 1;
      var before := Keyed(columns, cells[..n]);
      if n < |columns| then before[columns[n] := cells[n]] else before
  }

  /** `pipeTable`: the first row names the columns of the others. */
  method PipeTable(lines: seq<string>) returns (rows: seq<map<string, string>>)
    ensures var found := RowsOf(lines);
            if found == [] then rows == []
            else |rows| == |found| - 1 && forall k :: 0 <= k < |rows| ==>
                                            rows[k] == Keyed(Lowered(found[0]), found[k + 1])
  {
    var columns: Option<seq<string>> := None;
    rows := [];
    for i := 0 to |lines|
      invariant columns.None? <==> RowsOf(lines[..i]) == []
      invariant columns.None? ==> rows == []
      invariant columns.Some? ==> columns.value == Lowered(RowsOf(lines[..i])[0]) && |rows| == |RowsOf(lines[..i])| - 1
      invariant columns.Some? ==> forall k :: 0 <= k < |rows| ==>
                                    rows[k] == Keyed(columns.value, RowsOf(lines[..i])[k + 1])
    {
      assert lines[..i + 1][..i] == lines[..i];
      var cells := SplitRow(lines[i]);
      if cells.None? {
        continue;
      }
      if columns.None? {
        var lowered := LowerAll(cells.value);
        columns := Some(lowered);
        continue;
      }
      var row := ReadRow(columns.value, cells.value);
      rows := rows + [row];
    }
    assert lines[..|lines|] == lines;
  }

  method LowerAll(cells: seq<string>) returns (columns: seq<string>)
    ensures columns == Lowered(cells)
  {
    columns := [];
    for i := 0 to |cells|
      invariant columns == Lowered(cells[..i])
    {
      columns := columns + [ToLower(cells[i])];
    }
    assert cells[..|cells|] == cells;
  }

  /** A line is no row unless it begins with a pipe, and a rule of corners and dashes is none either. */
  lemma RowIff(line: string)
    ensures SplitRow(line).Some? <==>
            && TrimSpace(line) != "" && TrimSpace(line)[0] == '|'
            && (('+' !in TrimSpace(line) && '-' !in TrimSpace(line))
                || exists i :: 0 <= i < |TrimSpace(line)| && TrimSpace(line)[i] !in {'+', '-', '|', ' '})
  {
    RuleIff(TrimSpace(line));
  }

  lemma RuleIff(text: string)
    ensures IsRule(text) <==>
            && ('+' in text || '-' in text)
            && forall i :: 0 <= i < |text| ==> text[i] in {'+', '-', '|', ' '}
  {
    if '+' in text {
      var i :| 0 <= i < |text| && text[i] == '+';
    }
    if '-' in text {
      var i :| 0 <= i < |text| && text[i] == '-';
    }
    assert forall i :: 0 <= i < |text| ==> (IsRuleChar(text[i]) <==> text[i] in {'+', '-', '|', ' '});
  }

  method ReadRow(columns: seq<string>, cells: seq<string>) returns (row: map<string, string>)
    ensures row == Keyed(columns, cells)
  {
    row := map[];
    for i := 0 to |cells|
      invariant row == Keyed(columns, cells[..i])
    {
      assert cells[..i + 1][..i] == cells[..i];
      if i < |columns| {
        row := row[columns[i] := cells[i]];
      }
    }
    assert cells[..|cells|] == cells;
  }

  // ---------------------------------------------------------------- what the daemon prints

  /** A cell with the spaces around it. */
  datatype Cell = Cell(left: nat, text: string, right: nat)

  function Spaces(n: nat): string { seq(n, _ => ' ') }

  function Segment(cell: Cell): string { Spaces(cell.left) + cell.text + Spaces(cell.right) }

  /** Text without space around it or a pipe in it, printed at least one character wide. */
  predicate Printable(cell: Cell) {
    && '|' !in cell.text && Segment(cell) != ""
    && (cell.text != "" ==> !IsSpace(cell.text[0]) && !IsSpace(cell.text[|cell.text| - 1]))
  }

  function JoinCells(cells: seq<Cell>): string {
    if cells == [] then "" else Segment(cells[0]) + "|" + JoinCells(cells[1..])
  }

  function RowText(cells: seq<Cell>): string { "|" + JoinCells(cells) }

  function Texts(cells: seq<Cell>): (texts: seq<string>)
    ensures |texts| == |cells|
  {
    seq(|cells|, i requires 0 <= i < |cells| => cells[i].text)
  }

  predicate AllPrintable(cells: seq<Cell>) { cells != [] && forall i :: 0 <= i < |cells| ==> Printable(cells[i]) }

  lemma {:induction false} TrimLeftSpaces(n: nat, s: string)
    requires s == "" || !IsSpace(s[0])
    ensures TrimLeft(Spaces(n) + s) == s
  {
    if n == 0 {
      assert Spaces(0) + s == s;
    } else {
      assert (Spaces(n) + s)[1..] == Spaces(n - 1) + s;
      TrimLeftSpaces(n - 1, s);
    }
  }

  lemma {:induction false} TrimRightSpaces(s: string, n: nat)
    requires s == "" || !IsSpace(s[|s| - 1])
    ensures TrimRight(s + Spaces(n)) == s
  {
    if n == 0 {
      assert s + Spaces(0) == s;
    } else {
      var t := s + Spaces(n);
      assert t[..|t| - 1] == s + Spaces(n - 1);
      TrimRightSpaces(s, n - 1);
    }
  }

  lemma SegmentTrims(cell: Cell)
    requires Printable(cell)
    ensures TrimSpace(Segment(cell)) == cell.text
  {
    if cell.text == "" {
      assert Segment(cell) == Spaces(cell.left + cell.right) + "";
      TrimLeftSpaces(cell.left + cell.right, "");
    } else {
      var rest := cell.text + Spaces(cell.right);
      assert rest[0] == cell.text[0] && Segment(cell) == Spaces(cell.left) + rest;
      TrimLeftSpaces(cell.left, rest);
      TrimRightSpaces(cell.text, cell.right);
    }
  }

  lemma NoPipeInSegment(cell: Cell)
    requires Printable(cell)
    ensures '|' !in Segment(cell)
  {
    assert '|' !in Spaces(cell.left) && '|' !in Spaces(cell.right);
  }

  /** Printed cells begin with no pipe and end with exactly one. */
  lemma {:induction false} JoinedEnds(cells: seq<Cell>)
    requires AllPrintable(cells)
    ensures var s := JoinCells(cells);
            |s| >= 2 && s[|s| - 1] == '|' && s[0] != '|' && s[|s| - 2] != '|'
  {
    var s, first := JoinCells(cells), Segment(cells[0]);
    NoPipeInSegment(cells[0]);
    assert s[0] == first[0];
    if |cells| == 1 {
      assert JoinCells(cells[1..]) == "" && s == first + "|";
    } else {
      JoinedEnds(cells[1..]);
      var rest := JoinCells(cells[1..]);
      assert s[|s| - 2] == rest[|rest| - 2] && s[|s| - 1] == rest[|rest| - 1];
    }
  }

  lemma CellSplitsOff(cell: Cell, inner: string)
    requires Printable(cell)
    ensures TrimAll(Split(Segment(cell) + "|" + inner, '|')) == [cell.text] + TrimAll(Split(inner, '|'))
    ensures TrimAll(Split(Segment(cell), '|')) == [cell.text]
  {
    NoPipeInSegment(cell);
    SegmentTrims(cell);
    SplitAt(Segment(cell), inner, '|');
    SplitWhole(Segment(cell), '|');
    FirstOfAll(Segment(cell), Split(inner, '|'));
  }

  lemma JoinedInner(cells: seq<Cell>)
    requires AllPrintable(cells) && |cells| > 1 && JoinCells(cells[1..]) != ""
    ensures var s, rest := JoinCells(cells), JoinCells(cells[1..]);
            s != "" && s[..|s| - 1] == Segment(cells[0]) + "|" + rest[..|rest| - 1]
  {
  }

  lemma JoinedOne(cells: seq<Cell>)
    requires AllPrintable(cells) && |cells| == 1
    ensures var s := JoinCells(cells);
            s != "" && s[..|s| - 1] == Segment(cells[0])
  {
    assert JoinCells(cells) == Segment(cells[0]) + "|";
  }

  /** What is between the outer pipes, read back. */
  lemma {:induction false} JoinedSplit(cells: seq<Cell>)
    requires AllPrintable(cells)
    ensures JoinCells(cells) != "" && TrimAll(Split(JoinCells(cells)[..|JoinCells(cells)| - 1], '|')) == Texts(cells)
  {
    if |cells| == 1 {
      JoinedOne(cells);
      CellSplitsOff(cells[0], "");
    } else {
      JoinedSplit(cells[1..]);
      JoinedInner(cells);
      var rest := JoinCells(cells[1..]);
      CellSplitsOff(cells[0], rest[..|rest| - 1]);
      assert Texts(cells) == [cells[0].text] + Texts(cells[1..]);
    }
  }

  lemma FirstOfAll(part: string, parts: seq<string>)
    ensures TrimAll([part] + parts) == [TrimSpace(part)] + TrimAll(parts)
  {
  }

  /** A printed row is read back cell by cell, unless it looks like a rule. */
  lemma RowReadsBack(cells: seq<Cell>)
    requires AllPrintable(cells)
    ensures SplitRow(RowText(cells)) == if IsRule(RowText(cells)) then None else Some(Texts(cells))
  {
    var row, s := RowText(cells), JoinCells(cells);
    JoinedEnds(cells);
    JoinedSplit(cells);
    assert row[0] == '|' && row[|row| - 1] == '|' && row[1..] == s;
    assert TrimLeft(row) == row && TrimRight(row) == row;
    assert DropLeading(s, '|') == s && DropLeading(row, '|') == s;
    assert s[..|s| - 1] == "" || s[..|s| - 1][|s| - 2] == s[|s| - 2];
    assert DropTrailing(s[..|s| - 1], '|') == s[..|s| - 1];
  }

  // ---------------------------------------------------------------- from the daemon to the rows

  /** A line of a printed table: a row, or a rule between rows. */
  datatype Line = Rule(text: string) | Row(cells: seq<Cell>)

  /** Rules are drawn from a corner; rows are printable and not mistaken for rules. */
  predicate WellPrinted(line: Line) {
    match line
    case Rule(text) => text != "" && text[0] == '+' && text[|text| - 1] == '+'
    case Row(cells) => AllPrintable(cells) && !IsRule(RowText(cells))
  }

  predicate AllWellPrinted(table: seq<Line>) { forall i :: 0 <= i < |table| ==> WellPrinted(table[i]) }

  function LineText(line: Line): string {
    match line case Rule(text) => text case Row(cells) => RowText(cells)
  }

  function LineTexts(table: seq<Line>): (lines: seq<string>)
    ensures |lines| == |table|
  {
    seq(|table|, i requires 0 <= i < |table| => LineText(table[i]))
  }

  /** The rows of the table as the texts in their cells. */
  function TableRows(table: seq<Line>): seq<seq<string>> {
    if table == [] then []
    else
      var before, line := TableRows(table[..|table| - 1]), table[|table| - 1];
      if line.Row? then before + [Texts(line.cells)] else before
  }

  /**
   What the daemon sends: prompt and echo, the table, "Done", and whatever follows. Every
   line may end in carriage returns.
   */
  predicate IsTranscript(command: string, table: seq<Line>, raw: seq<string>) {
    && |raw| >= |table| + 2
    && DropTrailing(raw[0], '\r') == "> " + command
    && (forall i :: 0 <= i < |table| ==> DropTrailing(raw[i + 1], '\r') == LineText(table[i]))
    && DropTrailing(raw[|table| + 1], '\r') == "Done"
  }

  /** A command is trimmed, and starts neither like a prompt nor like a table. */
  predicate IsCommand(command: string) {
    command != "" && TrimSpace(command) == command && command[0] !in ">+|"
  }

  /** Text that begins and ends with a corner or a pipe. */
  predicate Framed(text: string) {
    text != "" && (text[0] == '+' || text[0] == '|') && (text[|text| - 1] == '+' || text[|text| - 1] == '|')
  }

  lemma LineIsFramed(line: Line)
    requires WellPrinted(line)
    ensures Framed(LineText(line))
  {
    if line.Row? {
      JoinedEnds(line.cells);
    }
  }

  lemma FramedIsOutput(command: string, text: string, raw: string, first: bool)
    requires IsCommand(command) && Framed(text) && DropTrailing(raw, '\r') == text
    ensures RoleOf(command, raw, first) == Output(text)
  {
    assert Clean(raw) == text;
    assert TrimLeft(text) == text && TrimRight(text) == text;
    assert text[0] != command[0];
    assert |text| >= 6 ==> text[..6][0] == text[0];
  }

  lemma EchoIsNothing(command: string, raw: string)
    requires IsCommand(command) && DropTrailing(raw, '\r') == "> " + command
    ensures RoleOf(command, raw, true).Nothing?
  {
    var line := "> " + command;
    assert line[2..] == command;
    assert DropPrompts(line) == DropPrompts(command) == command;
  }

  lemma DoneFinishes(command: string, raw: string)
    requires DropTrailing(raw, '\r') == "Done"
    ensures RoleOf(command, raw, false).Finish?
  {
    assert Clean(raw) == "Done" && TrimSpace("Done") == "Done";
  }

  predicate AlwaysOutput(roles: Roles, line: string, text: string) {
    roles(line, true) == Output(text) && roles(line, false) == Output(text)
  }

  /** After an echo, lines that are output wherever they come are kept as they are. */
  lemma {:induction false} OutputIsKept(roles: Roles, lines: seq<string>, raw: seq<string>)
    requires |raw| > |lines| && roles(raw[0], true).Nothing?
    requires forall i :: 0 <= i < |lines| ==> AlwaysOutput(roles, raw[i + 1], lines[i])
    ensures StaysOpen(roles, raw, |lines| + 1) && Kept(roles, raw[..|lines| + 1]) == lines
  {
    KeptStep(roles, raw, 0);
    if lines != [] {
      var n := |lines| - 1;
      OutputIsKept(roles, lines[..n], raw);
      assert AlwaysOutput(roles, raw[n + 1], lines[n]);
      KeptStep(roles, raw, n + 1);
      assert lines == lines[..n] + [lines[n]];
    }
  }

  lemma PrintedIsOutput(command: string, line: Line, raw: string)
    requires IsCommand(command) && WellPrinted(line) && DropTrailing(raw, '\r') == LineText(line)
    ensures AlwaysOutput(RolesIn(command), raw, LineText(line))
  {
    LineIsFramed(line);
    FramedIsOutput(command, LineText(line), raw, true);
    FramedIsOutput(command, LineText(line), raw, false);
  }

  /** An echo, lines that are output, and the line that finishes make a reply of those lines. */
  lemma OutputReplies(roles: Roles, lines: seq<string>, raw: seq<string>)
    requires |raw| >= |lines| + 2 && 0 < |lines| < MAX_LINES && roles(raw[0], true).Nothing?
    requires forall i :: 0 <= i < |lines| ==> AlwaysOutput(roles, raw[i + 1], lines[i])
    requires roles(raw[|lines| + 1], false).Finish?
    ensures Replied(roles, raw, lines)
  {
    OutputIsKept(roles, lines, raw);
    assert Finishes(roles, raw, |lines| + 1);
  }

  /** The table comes out of the reply as it was printed. */
  lemma TranscriptReplies(command: string, table: seq<Line>, raw: seq<string>)
    requires IsCommand(command) && AllWellPrinted(table) && IsTranscript(command, table, raw) && 0 < |table| < MAX_LINES
    ensures Replied(RolesIn(command), raw, LineTexts(table))
  {
    EchoIsNothing(command, raw[0]);
    forall i | 0 <= i < |table|
      ensures AlwaysOutput(RolesIn(command), raw[i + 1], LineTexts(table)[i])
    {
      PrintedIsOutput(command, table[i], raw[i + 1]);
    }
    DoneFinishes(command, raw[|table| + 1]);
    OutputReplies(RolesIn(command), LineTexts(table), raw);
  }

  lemma RuleIsNoRow(text: string)
    requires text != "" && text[0] == '+' && text[|text| - 1] == '+'
    ensures SplitRow(text) == None
  {
    assert TrimLeft(text) == text && TrimRight(text) == text;
  }

  lemma LineReadsBack(line: Line)
    requires WellPrinted(line)
    ensures SplitRow(LineText(line)) == match line case Rule(_) => None case Row(cells) => Some(Texts(cells))
  {
    match line {
      case Rule(text) => RuleIsNoRow(text);
      case Row(cells) => RowReadsBack(cells);
    }
  }

  lemma {:induction false} RowsReadBack(table: seq<Line>)
    requires AllWellPrinted(table)
    ensures RowsOf(LineTexts(table)) == TableRows(table)
  {
    if table != [] {
      var n := |table| - 1;
      RowsReadBack(table[..n]);
      assert LineTexts(table)[..n] == LineTexts(table[..n]);
      LineReadsBack(table[n]);
    }
  }

  /** With distinct columns, every cell is found under its own. */
  lemma {:induction false} KeyedFindsCells(columns: seq<string>, cells: seq<string>)
    requires Distinct(columns) && |cells| <= |columns|
    ensures forall i :: 0 <= i < |cells| ==>
              columns[i] in Keyed(columns, cells) && Keyed(columns, cells)[columns[i]] == cells[i]
    ensures forall key :: key in Keyed(columns, cells) <==> key in columns[..|cells|]
  {
    if cells != [] {
      var n := |cells| - 1;
      KeyedFindsCells(columns, cells[..n]);
      assert columns[..n + 1] == columns[..n] + [columns[n]];
    }
  }

  /** The rows a reader should get from a table: each cell under its column's header in lower case. */
  ghost predicate HeaderKeyed(found: seq<seq<string>>, rows: seq<map<string, string>>) {
    && found != [] && |rows| == |found| - 1
    && forall k :: 0 <= k < |rows| ==> IsKeyed(Lowered(found[0]), found[k + 1], rows[k])
  }

  ghost predicate IsKeyed(columns: seq<string>, cells: seq<string>, row: map<string, string>) {
    && |cells| == |columns| && row.Keys == (set i | 0 <= i < |columns| :: columns[i])
    && forall i :: 0 <= i < |columns| ==> columns[i] in row && row[columns[i]] == cells[i]
  }

  lemma KeyedIsKeyed(columns: seq<string>, cells: seq<string>)
    requires Distinct(columns) && |cells| == |columns|
    ensures IsKeyed(columns, cells, Keyed(columns, cells))
  {
    KeyedFindsCells(columns, cells);
    assert columns[..|cells|] == columns;
  }

  /** A table printed by the daemon arrives as its rows, in order and keyed by its headers. */
  method ReadTable(command: string, ghost table: seq<Line>, raw: seq<string>) returns (rows: seq<map<string, string>>)
    requires IsCommand(command) && OneLine(command)
    requires AllWellPrinted(table) && IsTranscript(command, table, raw) && |table| < MAX_LINES
    requires TableRows(table) != [] && Distinct(Lowered(TableRows(table)[0]))
    requires forall k :: 0 <= k < |TableRows(table)| ==> |TableRows(table)[k]| == |TableRows(table)[0]|
    ensures HeaderKeyed(TableRows(table), rows)
  {
    TranscriptReplies(command, table, raw);
    var reply := Execute(command, raw);
    ReplyIsDetermined(RolesIn(command), raw, reply.value, LineTexts(table));
    RowsReadBack(table);
    rows := PipeTable(reply.value);
    forall k | 0 <= k < |rows|
      ensures IsKeyed(Lowered(TableRows(table)[0]), TableRows(table)[k + 1], rows[k])
    {
      KeyedIsKeyed(Lowered(TableRows(table)[0]), TableRows(table)[k + 1]);
    }
  }
}
