/** The block loop of the Markdown converter (internal/exporter/notion/converter.go, with the
    patterns of internal/exporter/notion/util.go): which lines form which block, and when the
    loop comes to an end. */
module MarkdownBlocks {
  import opened Common

  // ----- the patterns -----

  /** `\s` of Go's regular expressions; it matches fewer characters than TrimSpace removes. */
  predicate PatternSpace(c: char) {
    c == ' ' || c == '\t' || c == '\n' || c == '\r' || c == 12 as char
  }

  predicate Digit(c: char) {
    '0' <= c <= '9'
  }

  /** How many characters at the front satisfy the test. */
  function Leading(s: string, test: char -> bool): (n: nat)
    ensures n <= |s| && (forall i | 0 <= i < n :: test(s[i])) && (n < |s| ==> !test(s[n]))
  {
    if s != "" && test(s[0]) then 1 + Leading(s[1..], test) else 0
  }

  function Indent(s: string): (n: nat)
    ensures n <= |s|
  {
    Leading(s, PatternSpace)
  }

  predicate Hash(c: char) {
    c == '#'
  }

  predicate IsHeading(s: string) {
    var n := Indent(s);
    var level := Leading(s[n..], Hash);
    n <= 3 && 1 <= level <= 6 && n + level < |s| && PatternSpace(s[n + level])
  }

  function Count(s: string, c: char): nat {
    if s == "" then 0 else (if s[0] == c then 1 else 0) + Count(s[1..], c)
  }

  predicate Rule(s: string, c: char) {
    s != "" && s[0] == c && Count(s, c) >= 3 && forall i | 0 <= i < |s| :: s[i] == c || PatternSpace(s[i])
  }

  predicate IsDivider(s: string) {
    var n := Indent(s);
    n <= 3 && (Rule(s[n..], '*') || Rule(s[n..], '-') || Rule(s[n..], '_'))
  }

  predicate IsUnordered(s: string) {
    var n := Indent(s);
    n + 1 < |s| && s[n] in "-+*" && PatternSpace(s[n + 1])
  }

  predicate IsOrdered(s: string) {
    var n := Indent(s);
    var digits := Leading(s[n..], Digit);
    digits > 0 && n + digits + 1 < |s| && s[n + digits] in ".)" && PatternSpace(s[n + digits + 1])
  }

  predicate IsQuote(s: string) {
    var n := Indent(s);
    n < |s| && s[n] == '>'
  }

  predicate IsFence(trimmed: string) {
    HasPrefix(trimmed, "```") || HasPrefix(trimmed, "~~~")
  }

  // ----- what the patterns match, position by position -----

  /** The first `n` characters are blanks, tabs, line ends or form feeds, and more follows. */
  predicate BlankUpTo(s: string, n: nat) {
    n < |s| && forall i | 0 <= i < n :: s[i] as int in {9, 10, 12, 13, 32}
  }

  predicate HeadingAt(s: string, n: nat, m: nat) {
    && n <= 3 && 1 <= m <= 6 && n + m < |s| && BlankUpTo(s, n)
    && (forall i | n <= i < n + m :: s[i] == '#') && s[n + m] as int in {9, 10, 12, 13, 32}
  }

  predicate UnorderedAt(s: string, n: nat) {
    n + 1 < |s| && BlankUpTo(s, n) && s[n] in {'-', '+', '*'} && s[n + 1] as int in {9, 10, 12, 13, 32}
  }

  predicate OrderedAt(s: string, n: nat, m: nat) {
    && m >= 1 && n + m + 1 < |s| && BlankUpTo(s, n) && (forall i | n <= i < n + m :: '0' <= s[i] <= '9')
    && s[n + m] in {'.', ')'} && s[n + m + 1] as int in {9, 10, 12, 13, 32}
  }

  predicate QuoteAt(s: string, n: nat) {
    BlankUpTo(s, n) && s[n] == '>'
  }

  /** Where the character is, from `n` on. */
  function Places(s: string, n: nat, c: char): set<int> {
    set i | n <= i < |s| && s[i] == c
  }

  /** At least three of the same mark, with nothing but white space between and behind them. */
  predicate DividerAt(s: string, n: nat, c: char) {
    && n <= 3 && c in {'*', '-', '_'} && BlankUpTo(s, n) && s[n] == c
    && (forall i | n <= i < |s| :: s[i] == c || s[i] as int in {9, 10, 12, 13, 32})
    && |Places(s, n, c)| >= 3
  }

  lemma {:induction false} LeadingIs(s: string, test: char -> bool, n: nat)
    requires n <= |s| && (forall i | 0 <= i < n :: test(s[i])) && (n < |s| ==> !test(s[n]))
    ensures Leading(s, test) == n
    decreases |s|
  {
    if n > 0 {
      LeadingIs(s[1..], test, n - 1);
    }
  }

  lemma IndentIs(s: string, n: nat)
    requires BlankUpTo(s, n) && !PatternSpace(s[n])
    ensures Indent(s) == n
  {
    LeadingIs(s, PatternSpace, n);
  }

  lemma HeadingMeans(s: string)
    ensures IsHeading(s) <==> exists n: nat, m: nat :: HeadingAt(s, n, m)
  {
    if IsHeading(s) {
      var n := Indent(s);
      var m := Leading(s[n..], Hash);
      assert forall i | n <= i < n + m :: s[i] == s[n..][i - n];
      assert HeadingAt(s, n, m);
    }
    if n: nat, m: nat :| HeadingAt(s, n, m) {
      IndentIs(s, n);
      LeadingIs(s[n..], Hash, m);
    }
  }

  lemma UnorderedMeans(s: string)
    ensures IsUnordered(s) <==> exists n: nat :: UnorderedAt(s, n)
  {
    if IsUnordered(s) {
      assert UnorderedAt(s, Indent(s));
    }
    if n: nat :| UnorderedAt(s, n) {
      IndentIs(s, n);
    }
  }

  lemma OrderedMeans(s: string)
    ensures IsOrdered(s) <==> exists n: nat, m: nat :: OrderedAt(s, n, m)
  {
    if IsOrdered(s) {
      var n := Indent(s);
      var m := Leading(s[n..], Digit);
      assert forall i | n <= i < n + m :: s[i] == s[n..][i - n];
      assert OrderedAt(s, n, m);
    }
    if n: nat, m: nat :| OrderedAt(s, n, m) {
      OrderedIs(s, n, m);
    }
  }

  lemma OrderedIs(s: string, n: nat, m: nat)
    requires OrderedAt(s, n, m)
    ensures IsOrdered(s)
  {
    IndentIs(s, n);
    LeadingIs(s[n..], Digit, m);
    hide Leading, Indent;
  }

  lemma QuoteMeans(s: string)
    ensures IsQuote(s) <==> exists n: nat :: QuoteAt(s, n)
  {
    if IsQuote(s) {
      assert QuoteAt(s, Indent(s));
    }
    if n: nat :| QuoteAt(s, n) {
      IndentIs(s, n);
    }
  }

  lemma {:induction false} CountIsSize(s: string, n: nat, c: char)
    requires n <= |s|
    ensures Count(s[n..], c) == |Places(s, n, c)|
    decreases |s| - n
  {
    if n < |s| {
      CountIsSize(s, n + 1, c);
      assert s[n..][1..] == s[n + 1..];
      assert Places(s, n, c) == if s[n] == c then {n} + Places(s, n + 1, c) else Places(s, n + 1, c);
    } else {
      assert Places(s, n, c) == {};
    }
  }

  lemma RuleMeans(s: string, n: nat, c: char)
    requires n < |s|
    ensures Rule(s[n..], c) <==>
              && s[n] == c && |Places(s, n, c)| >= 3
              && forall i | n <= i < |s| :: s[i] == c || s[i] as int in {9, 10, 12, 13, 32}
  {
    CountIsSize(s, n, c);
    hide Count, Places;
    assert forall i | n <= i < |s| :: s[i] == s[n..][i - n];
  }

  lemma DividerMeans(s: string)
    ensures IsDivider(s) <==> exists n: nat, c :: DividerAt(s, n, c)
  {
    if IsDivider(s) {
      var n := Indent(s);
      var c :| c in {'*', '-', '_'} && Rule(s[n..], c);
      assert BlankUpTo(s, n);
      RuleMeans(s, n, c);
      assert DividerAt(s, n, c);
    }
    if n: nat, c :| DividerAt(s, n, c) {
      IndentIs(s, n);
      RuleMeans(s, n, c);
    }
  }

  predicate IsSeparator(s: string) {
    var cells := SplitOn(Unbarred(Stripped(s, PatternSpace)), '|');
    |cells| >= 2 && forall i | 0 <= i < |cells| :: IsDashes(Stripped(cells[i], PatternSpace))
  }

  function Stripped(s: string, test: char -> bool): string {
    var front := s[Leading(s, test)..];
    StrippedRight(front, test)
  }

  function StrippedRight(s: string, test: char -> bool): string {
    if s != "" && test(s[|s| - 1]) then StrippedRight(s[..|s| - 1], test) else s
  }

  function SplitOn(s: string, c: char): (parts: seq<string>)
    ensures parts != []
  {
    if s == "" then [""]
    else
      var rest := SplitOn(s[1..], c);
      if s[0] == c then [""] + rest else [[s[0]] + rest[0]] + rest[1..]
  }

  /** The colons at both ends are taken off. */
  function Uncoloned(cell: string): string {
    var open := if HasPrefix(cell, ":") then cell[1..] else cell;
    if open != "" && open[|open| - 1] == ':' then open[..|open| - 1] else open
  }

  predicate IsDashes(cell: string) {
    var dashes := Uncoloned(cell);
    |dashes| >= 3 && forall i | 0 <= i < |dashes| :: dashes[i] == '-'
  }

  // ----- what the pattern for the second line of a table matches -----

  predicate White(s: string) {
    forall i | 0 <= i < |s| :: s[i] as int in {9, 10, 12, 13, 32}
  }

  /** `s` from `n` to `m`, with nothing but white space around it. */
  predicate Core(s: string, n: nat, m: nat) {
    && n <= m <= |s| && White(s[..n]) && White(s[m..])
    && (n < m ==> s[n] as int !in {9, 10, 12, 13, 32} && s[m - 1] as int !in {9, 10, 12, 13, 32})
  }

  /** At least three dashes, perhaps with a colon in front of or behind them. */
  predicate CellAt(s: string, n: nat, m: nat) {
    && Core(s, n, m) && n < m
    && var from, to := if s[n] == ':' then n + 1 else n, if s[m - 1] == ':' then m - 1 else m;
       to - from >= 3 && forall i | from <= i < to :: s[i] == '-'
  }

  predicate IsCell(s: string) {
    exists n: nat, m: nat | n <= m <= |s| :: CellAt(s, n, m)
  }

  function Joined(cells: seq<string>): string
    requires cells != []
  {
    if |cells| == 1 then cells[0] else cells[0] + "|" + Joined(cells[1..])
  }

  /** At least two cells with bars between them; more bars may stand at both ends. */
  ghost predicate SeparatorAt(s: string, n: nat, m: nat, cells: seq<string>) {
    && Core(s, n, m) && |cells| >= 2 && (forall i | 0 <= i < |cells| :: IsCell(cells[i]))
    && (s[n..m] == Joined(cells) || s[n..m] == "|" + Joined(cells)
        || s[n..m] == Joined(cells) + "|" || s[n..m] == "|" + Joined(cells) + "|")
  }

  lemma {:induction false} StrippedRightIs(s: string, m: nat)
    requires m <= |s| && White(s[m..]) && (m > 0 ==> !PatternSpace(s[m - 1]))
    ensures StrippedRight(s, PatternSpace) == s[..m]
    decreases |s|
  {
    if m < |s| {
      assert s[m..][|s| - m - 1] == s[|s| - 1];
      assert s[..|s| - 1][m..] == s[m..][..|s| - m - 1] && s[..|s| - 1][..m] == s[..m];
      StrippedRightIs(s[..|s| - 1], m);
    } else {
      assert s[..m] == s;
    }
  }

  lemma StrippedIs(s: string, n: nat, m: nat)
    requires Core(s, n, m) && n < m
    ensures Stripped(s, PatternSpace) == s[n..m]
  {
    assert forall i | 0 <= i < n :: s[i] == s[..n][i];
    LeadingIs(s, PatternSpace, n);
    assert s[n..][m - n..] == s[m..] && s[n..][..m - n] == s[n..m];
    StrippedRightIs(s[n..], m - n);
  }

  lemma {:induction false} StrippedRightParts(s: string)
    ensures var t := StrippedRight(s, PatternSpace);
      t <= s && White(s[|t|..]) && (t != "" ==> !PatternSpace(t[|t| - 1]))
    decreases |s|
  {
    if s != "" && PatternSpace(s[|s| - 1]) {
      StrippedRightParts(s[..|s| - 1]);
      var t := StrippedRight(s, PatternSpace);
      assert s[|t|..] == s[..|s| - 1][|t|..] + [s[|s| - 1]];
    }
  }

  /** What is left of a string between white space. */
  lemma StrippedParts(s: string) returns (n: nat, m: nat)
    ensures Core(s, n, m) && Stripped(s, PatternSpace) == s[n..m]
  {
    n := Leading(s, PatternSpace);
    var t := Stripped(s, PatternSpace);
    StrippedRightParts(s[n..]);
    m := n + |t|;
    assert s[n..][|t|..] == s[m..] && s[n..m] == s[n..][..|t|];
    if n < m {
      assert s[n] == t[0] && s[m - 1] == t[|t| - 1] && s[n] == s[n..][0];
    }
  }

  lemma CellMeans(s: string)
    ensures IsDashes(Stripped(s, PatternSpace)) <==> IsCell(s)
  {
    if n: nat, m: nat :| n <= m <= |s| && CellAt(s, n, m) {
      StrippedIs(s, n, m);
      CoreIsDashes(s, n, m);
    }
    if IsDashes(Stripped(s, PatternSpace)) {
      var n, m := StrippedParts(s);
      CoreIsDashes(s, n, m);
      assert CellAt(s, n, m);
    }
  }

  lemma Shortened(s: string, from: nat, to: nat, m: nat)
    requires from <= to <= m <= |s|
    ensures s[from..m][..to - from] == s[from..to]
  {
  }

  lemma CoreIsDashes(s: string, n: nat, m: nat)
    requires Core(s, n, m)
    ensures IsDashes(s[n..m]) <==> CellAt(s, n, m)
  {
    var cell := s[n..m];
    var open := if HasPrefix(cell, ":") then cell[1..] else cell;
    var dashes := Uncoloned(cell);
    if n < m {
      var from, to := if s[n] == ':' then n + 1 else n, if s[m - 1] == ':' then m - 1 else m;
      assert cell[0] == s[n] && cell[..1] == [s[n]];
      if from <= to {
        assert open == s[from..m];
        assert dashes == open[..to - from];
        Shortened(s, from, to, m);
        assert forall i | from <= i < to :: s[i] == dashes[i - from];
        assert forall i | 0 <= i < |dashes| :: dashes[i] == s[from + i];
      }
    }
  }

  lemma NoBarInCell(s: string)
    requires IsCell(s)
    ensures '|' !in s && s != ""
  {
    var n: nat, m: nat :| n <= m <= |s| && CellAt(s, n, m);
    forall i | 0 <= i < |s| ensures s[i] != '|' {
      if i < n {
        assert s[i] == s[..n][i];
      } else if i >= m {
        assert s[i] == s[m..][i - m];
      }
    }
  }

  lemma {:induction false} JoinedSplits(cells: seq<string>)
    requires cells != [] && forall i | 0 <= i < |cells| :: '|' !in cells[i] && cells[i] != ""
    ensures SplitOn(Joined(cells), '|') == cells
    ensures var s := Joined(cells); s != "" && s[0] != '|' && s[|s| - 1] != '|'
  {
    if |cells| == 1 {
      NoBarStays(cells[0], "");
      assert cells[0] + "" == cells[0];
      assert [cells[0]] == cells && cells[0][0] in cells[0];
    } else {
      JoinedSplits(cells[1..]);
      NoBarStays(cells[0], "|" + Joined(cells[1..]));
      assert cells[0] + "|" + Joined(cells[1..]) == cells[0] + ("|" + Joined(cells[1..]));
      assert ("|" + Joined(cells[1..]))[1..] == Joined(cells[1..]);
      assert cells[0] + "" == cells[0] && cells[0][0] in cells[0];
      assert [cells[0]] + cells[1..] == cells;
    }
  }

  lemma {:induction false} NoBarStays(a: string, b: string)
    requires '|' !in a
    ensures var rest := SplitOn(b, '|'); SplitOn(a + b, '|') == [a + rest[0]] + rest[1..]
    decreases |a|
  {
    if a == "" {
      var rest := SplitOn(b, '|');
      assert a + b == b && a + rest[0] == rest[0] && [rest[0]] + rest[1..] == rest;
    } else {
      assert (a + b)[1..] == a[1..] + b && a[0] in a;
      NoBarStays(a[1..], b);
      assert [a[0]] + (a[1..] + SplitOn(b, '|')[0]) == a + SplitOn(b, '|')[0];
    }
  }

  lemma {:induction false} SplitsJoin(s: string)
    ensures Joined(SplitOn(s, '|')) == s
    decreases |s|
  {
    if s != "" {
      var rest := SplitOn(s[1..], '|');
      SplitsJoin(s[1..]);
      if s[0] == '|' {
        assert ([""] + rest)[1..] == rest && "" + "|" + s[1..] == s;
      } else {
        assert ([[s[0]] + rest[0]] + rest[1..])[1..] == rest[1..] && [s[0]] + s[1..] == s;
      }
    }
  }

  /** The bars at both ends are taken off. */
  function Unbarred(inner: string): string {
    var open := if HasPrefix(inner, "|") then inner[1..] else inner;
    if open != "" && open[|open| - 1] == '|' then open[..|open| - 1] else open
  }

  lemma UnbarredJoined(inner: string, joined: string)
    requires joined != "" && joined[0] != '|' && joined[|joined| - 1] != '|'
    requires inner == joined || inner == "|" + joined || inner == joined + "|" || inner == "|" + joined + "|"
    ensures Unbarred(inner) == joined
  {
  }

  lemma UnbarredParts(inner: string)
    ensures var joined := Unbarred(inner);
      inner == joined || inner == "|" + joined || inner == joined + "|" || inner == "|" + joined + "|"
  {
  }

  lemma SeparatorMeans(s: string)
    ensures IsSeparator(s) <==> exists n: nat, m: nat, cells :: SeparatorAt(s, n, m, cells)
  {
    hide Joined, SplitOn, IsCell, IsDashes, Stripped, Unbarred, White;
    if n: nat, m: nat, cells :| SeparatorAt(s, n, m, cells) {
      forall i | 0 <= i < |cells|
        ensures '|' !in cells[i] && cells[i] != "" && IsDashes(Stripped(cells[i], PatternSpace))
      {
        NoBarInCell(cells[i]);
        CellMeans(cells[i]);
      }
      JoinedSplits(cells);
      UnbarredJoined(s[n..m], Joined(cells));
      StrippedIs(s, n, m);
    }
    if IsSeparator(s) {
      var n, m := StrippedParts(s);
      var cells := SplitOn(Unbarred(s[n..m]), '|');
      SplitsJoin(Unbarred(s[n..m]));
      UnbarredParts(s[n..m]);
      forall i | 0 <= i < |cells| ensures IsCell(cells[i]) {
        CellMeans(cells[i]);
      }
      assert SeparatorAt(s, n, m, cells);
    }
  }

  // ----- lines -----

  type Lines = seq<string>

  predicate IsTableStart(lines: Lines, i: nat)
    requires i < |lines|
  {
    i + 1 < |lines| && '|' in lines[i] && IsSeparator(lines[i + 1])
  }

  /** isBlockBoundary: the patterns are tried on the trimmed line. */
  predicate IsBlockBoundary(lines: Lines, i: nat)
    requires i < |lines|
  {
    var line := TrimSpace(lines[i]);
    line == "" || IsFence(line) || IsHeading(line) || IsDivider(line) || IsQuote(line)
    || IsUnordered(line) || IsOrdered(line) || IsTableStart(lines, i)
  }

  datatype Kind = Blank | Fence | Heading | Divider | Table | Item(ordered: bool) | Quote | Paragraph

  /** What Convert takes a line for; apart from fences it tries the patterns on the line as it is. */
  function KindAt(lines: Lines, i: nat): Kind
    requires i < |lines|
  {
    var line := lines[i];
    if TrimSpace(line) == "" then Blank
    else if IsFence(TrimSpace(line)) then Fence
    else if IsHeading(line) then Heading
    else if IsDivider(line) then Divider
    else if IsTableStart(lines, i) then Table
    else if IsUnordered(line) || IsOrdered(line) then Item(IsOrdered(line))
    else if IsQuote(line) then Quote
    else Paragraph
  }

  /** Whether a block that is being collected takes the line. */
  predicate Takes(kind: Kind, lines: Lines, i: nat)
    requires i < |lines|
  {
    match kind
    case Table => '|' in lines[i] && TrimSpace(lines[i]) != ""
    case Item(ordered) => if ordered then IsOrdered(lines[i]) else IsUnordered(lines[i])
    case Quote => IsQuote(lines[i])
    case Paragraph => TrimSpace(lines[i]) != "" && !IsBlockBoundary(lines, i)
    case _ => false
  }

  /** The first line from `i` on that the block does not take. */
  function RunEnd(kind: Kind, lines: Lines, i: nat): (end: nat)
    requires i <= |lines|
    ensures i <= end <= |lines| && forall j | i <= j < end :: Takes(kind, lines, j)
    ensures end < |lines| ==> !Takes(kind, lines, end)
    decreases |lines| - i
  {
    if i < |lines| && Takes(kind, lines, i) then RunEnd(kind, lines, i + 1) else i
  }

  function FenceOf(trimmed: string): string {
    if HasPrefix(trimmed, "```") then "```" else "~~~"
  }

  /** The line after the closing fence, or the end. */
  function FenceEnd(fence: string, lines: Lines, i: nat): (end: nat)
    requires i <= |lines|
    ensures i <= end <= |lines| && forall j | i <= j < end - 1 :: !HasPrefix(TrimSpace(lines[j]), fence)
    ensures end < |lines| ==> i < end && HasPrefix(TrimSpace(lines[end - 1]), fence)
    decreases |lines| - i
  {
    if i == |lines| then i
    else if HasPrefix(TrimSpace(lines[i]), fence) then i + 1
    else FenceEnd(fence, lines, i + 1)
  }

  /** Where one turn of the loop leaves the index. */
  function Next(lines: Lines, i: nat): (next: nat)
    requires i < |lines|
    ensures i <= next <= |lines|
  {
    var kind := KindAt(lines, i);
    match kind
    case Blank | Heading | Divider => i + 1
    case Fence => FenceEnd(FenceOf(TrimSpace(lines[i])), lines, i + 1)
    case _ => RunEnd(kind, lines, i)
  }

  /** Convert decides by the first of these that a line meets; only for the first two it is trimmed. */
  lemma KindMeans(lines: Lines, i: nat)
    requires i < |lines|
    ensures var line := lines[i];
      KindAt(lines, i) ==
        if TrimSpace(line) == "" then Blank
        else if "```" <= TrimSpace(line) || "~~~" <= TrimSpace(line) then Fence
        else if exists n: nat, m: nat :: HeadingAt(line, n, m) then Heading
        else if exists n: nat, c :: DividerAt(line, n, c) then Divider
        else if i + 1 < |lines| && '|' in line && IsSeparator(lines[i + 1]) then Table
        else if exists n: nat, m: nat :: OrderedAt(line, n, m) then Item(true)
        else if exists n: nat :: UnorderedAt(line, n) then Item(false)
        else if exists n: nat :: QuoteAt(line, n) then Quote
        else Paragraph
  {
    var line := lines[i];
    PatternsMean(line);
    hide TrimSpace, IsHeading, IsDivider, IsOrdered, IsUnordered, IsQuote, IsSeparator;
    hide HeadingAt, DividerAt, OrderedAt, UnorderedAt, QuoteAt;
  }

  /** A block goes on with the lines that have its mark; a paragraph ends where the next line,
      trimmed, looks like the beginning of another block. */
  lemma TakesMeans(kind: Kind, lines: Lines, i: nat)
    requires i < |lines|
    ensures var line := lines[i]; var text := TrimSpace(line);
      Takes(kind, lines, i) <==>
        match kind
        case Table => '|' in line && text != ""
        case Item(ordered) =>
          if ordered then exists n: nat, m: nat :: OrderedAt(line, n, m) else exists n: nat :: UnorderedAt(line, n)
        case Quote => exists n: nat :: QuoteAt(line, n)
        case Paragraph =>
          && text != "" && !("```" <= text) && !("~~~" <= text)
          && !(exists n: nat, m: nat :: HeadingAt(text, n, m)) && !(exists n: nat, c :: DividerAt(text, n, c))
          && !(exists n: nat :: QuoteAt(text, n)) && !(exists n: nat :: UnorderedAt(text, n))
          && !(exists n: nat, m: nat :: OrderedAt(text, n, m))
          && !(i + 1 < |lines| && '|' in line && IsSeparator(lines[i + 1]))
        case _ => false
  {
    var line := lines[i];
    PatternsMean(line);
    PatternsMean(TrimSpace(line));
    hide TrimSpace, IsHeading, IsDivider, IsOrdered, IsUnordered, IsQuote, IsSeparator;
    hide HeadingAt, DividerAt, OrderedAt, UnorderedAt, QuoteAt;
  }

  lemma PatternsMean(s: string)
    ensures IsHeading(s) <==> exists n: nat, m: nat :: HeadingAt(s, n, m)
    ensures IsDivider(s) <==> exists n: nat, c :: DividerAt(s, n, c)
    ensures IsOrdered(s) <==> exists n: nat, m: nat :: OrderedAt(s, n, m)
    ensures IsUnordered(s) <==> exists n: nat :: UnorderedAt(s, n)
    ensures IsQuote(s) <==> exists n: nat :: QuoteAt(s, n)
  {
    HeadingMeans(s);
    DividerMeans(s);
    OrderedMeans(s);
    UnorderedMeans(s);
    QuoteMeans(s);
    hide IsHeading, IsDivider, IsOrdered, IsUnordered, IsQuote;
    hide HeadingAt, DividerAt, OrderedAt, UnorderedAt, QuoteAt;
  }

  // ----- progress -----

  predicate Stuck(lines: Lines, i: nat) {
    i < |lines| && KindAt(lines, i).Paragraph? && IsBlockBoundary(lines, i)
  }

  /** A turn leaves the index where it is exactly on a line that only its trimmed form makes a boundary. */
  lemma StuckIsExact(lines: Lines, i: nat)
    requires i < |lines|
    ensures Next(lines, i) == i <==> Stuck(lines, i)
  {
    hide TrimSpace, IsHeading, IsDivider, IsQuote, IsUnordered, IsOrdered, IsFence, IsTableStart;
    TableLine(lines, i);
  }

  lemma TableLine(lines: Lines, i: nat)
    requires i < |lines|
    ensures IsTableStart(lines, i) ==> '|' in lines[i]
  {
  }

  /** Lines without white space around them never hold the loop up. */
  lemma TrimmedIsNotStuck(lines: Lines, i: nat)
    requires i < |lines| && TrimSpace(lines[i]) == lines[i]
    ensures !Stuck(lines, i)
  {
  }

  function Turns(lines: Lines, i: nat, k: nat): (end: nat)
    requires i <= |lines|
    ensures end <= |lines|
    decreases k
  {
    if k == 0 || i == |lines| then i else Turns(lines, Next(lines, i), k - 1)
  }

  ghost predicate Terminates(lines: Lines, i: nat)
    requires i <= |lines|
  {
    exists k: nat :: Turns(lines, i, k) == |lines|
  }

  /** The loop ends exactly when none of its first turns, as many as there are lines left, meets a stuck line. */
  lemma TerminationIsExact(lines: Lines, i: nat)
    requires i <= |lines|
    ensures Terminates(lines, i) <==> forall k: nat | k < |lines| - i :: !Stuck(lines, Turns(lines, i, k))
  {
    hide Stuck, Next;
    if k: nat :| k < |lines| - i && Stuck(lines, Turns(lines, i, k)) {
      forall n: nat ensures Turns(lines, i, n) != |lines| {
        StaysStuck(lines, i, k, n);
      }
      assert !Terminates(lines, i);
      assert exists m: nat :: m < |lines| - i && Stuck(lines, Turns(lines, i, m));
    } else {
      Ends(lines, i);
    }
  }

  lemma StuckIsInside(lines: Lines, i: nat)
    ensures Stuck(lines, i) ==> i < |lines|
  {
  }

  lemma {:induction false} StaysStuck(lines: Lines, i: nat, k: nat, n: nat)
    requires i <= |lines| && Stuck(lines, Turns(lines, i, k))
    ensures Turns(lines, i, n) < |lines|
    decreases n
  {
    hide Stuck, Next;
    StuckIsInside(lines, i);
    if n > 0 && i < |lines| {
      StuckIsExact(lines, i);
      if k > 0 {
        StaysStuck(lines, Next(lines, i), k - 1, n - 1);
      } else {
        StaysStuck(lines, i, 0, n - 1);
      }
    }
  }

  lemma {:induction false} Ends(lines: Lines, i: nat)
    requires i <= |lines| && forall k: nat | k < |lines| - i :: !Stuck(lines, Turns(lines, i, k))
    ensures Terminates(lines, i)
    decreases |lines| - i
  {
    hide Stuck, Next;
    if i == |lines| {
      assert Turns(lines, i, 0) == |lines|;
    } else {
      assert !Stuck(lines, Turns(lines, i, 0));
      StuckIsExact(lines, i);
      forall k: nat | k < |lines| - Next(lines, i) ensures !Stuck(lines, Turns(lines, Next(lines, i), k)) {
        assert Turns(lines, i, k + 1) == Turns(lines, Next(lines, i), k);
      }
      Ends(lines, Next(lines, i));
      var k: nat :| Turns(lines, Next(lines, i), k) == |lines|;
      assert Turns(lines, i, k + 1) == |lines|;
    }
  }

  /** Lines that were trimmed before. */
  lemma TrimmedTerminates(lines: Lines)
    requires forall j | 0 <= j < |lines| :: TrimSpace(lines[j]) == lines[j]
    ensures Terminates(lines, 0)
  {
    hide IsBlockBoundary, KindAt, Next;
    forall k: nat ensures !Stuck(lines, Turns(lines, 0, k)) {
      var i := Turns(lines, 0, k);
      if i < |lines| {
        TrimmedIsNotStuck(lines, i);
      }
    }
    TerminationIsExact(lines, 0);
  }

  // ----- from text to lines -----

  /** strings.ReplaceAll(s, "\r\n", "\n"). */
  function WithoutPairs(s: string): string {
    if s == "" then ""
    else if HasPrefix(s, "\r\n") then "\n" + WithoutPairs(s[2..])
    else [s[0]] + WithoutPairs(s[1..])
  }

  /** strings.ReplaceAll(s, "\r", "\n"). */
  function WithoutReturns(s: string): string {
    if s == "" then ""
    else [if s[0] == '\r' then '\n' else s[0]] + WithoutReturns(s[1..])
  }

  /** The lines that Convert goes through. */
  function LinesOf(text: string): Lines {
    Split(WithoutReturns(WithoutPairs(text)))
  }

  predicate AllTrimmed(lines: Lines) {
    forall j | 0 <= j < |lines| :: TrimSpace(lines[j]) == lines[j]
  }

  lemma {:induction false} NothingToReplace(s: string)
    requires '\r' !in s
    ensures WithoutPairs(s) == s && WithoutReturns(s) == s
    decreases |s|
  {
    if s != "" {
      NothingToReplace(s[1..]);
    }
  }

  /** Texts of trimmed lines without carriage returns, which the fetchers produce. */
  lemma TrimmedTextTerminates(text: string)
    requires '\r' !in text && AllTrimmed(Split(text))
    ensures Terminates(LinesOf(text), 0)
  {
    hide TrimSpace, Split, WithoutPairs, WithoutReturns, Terminates;
    NothingToReplace(text);
    TrimmedTerminates(Split(text));
  }

  // ----- which lines hold the loop up -----

  /** The line has no white space that the patterns do not know. */
  predicate PlainSpaces(line: string) {
    forall i | 0 <= i < |line| && IsSpace(line[i]) :: PatternSpace(line[i])
  }

  lemma {:induction false} TrimRightParts(s: string)
    ensures TrimRight(s) <= s && forall i | |TrimRight(s)| <= i < |s| :: IsSpace(s[i])
    decreases |s|
  {
    if s != "" && IsSpace(s[|s| - 1]) {
      TrimRightParts(s[..|s| - 1]);
    }
  }

  lemma {:induction false} TrimLeftParts(s: string)
    ensures var n := |s| - |TrimLeft(s)|;
      && n >= 0 && TrimLeft(s) == s[n..] && (forall i | 0 <= i < n :: IsSpace(s[i])) && (n < |s| ==> !IsSpace(s[n]))
    decreases |s|
  {
    if s != "" && IsSpace(s[0]) {
      TrimLeftParts(s[1..]);
    }
  }

  /** White space, the trimmed line, white space. */
  lemma TrimParts(s: string) returns (front: string, back: string)
    ensures s == front + TrimSpace(s) + back
    ensures (forall c :: c in front ==> IsSpace(c)) && forall c :: c in back ==> IsSpace(c)
    ensures TrimSpace(s) != "" ==> !IsSpace(TrimSpace(s)[0])
  {
    TrimLeftParts(s);
    var rest := TrimLeft(s);
    TrimRightParts(rest);
    var n := |s| - |rest|;
    front, back := s[..n], rest[|TrimRight(rest)|..];
    assert rest == TrimRight(rest) + back && s == front + rest;
    assert TrimSpace(s) == TrimRight(rest);
  }

  lemma {:induction false} LeadingAfter(front: string, s: string, test: char -> bool)
    requires forall c :: c in front ==> test(c)
    ensures Leading(front + s, test) == |front| + Leading(s, test)
    decreases |front|
  {
    if front == "" {
      assert front + s == s;
    } else {
      assert (front + s)[1..] == front[1..] + s && front[0] in front;
      LeadingAfter(front[1..], s, test);
    }
  }

  lemma {:induction false} LeadingBefore(s: string, back: string, test: char -> bool)
    requires Leading(s, test) < |s|
    ensures Leading(s + back, test) == Leading(s, test)
    decreases |s|
  {
    assert (s + back)[1..] == s[1..] + back;
    if test(s[0]) {
      LeadingBefore(s[1..], back, test);
    }
  }

  lemma {:induction false} CountGrows(s: string, back: string, c: char)
    ensures Count(s + back, c) >= Count(s, c)
    decreases |s|
  {
    if s != "" {
      assert (s + back)[1..] == s[1..] + back;
      CountGrows(s[1..], back, c);
    }
  }

  lemma RuleBefore(s: string, back: string, c: char)
    requires Rule(s, c) && forall x :: x in back ==> PatternSpace(x)
    ensures Rule(s + back, c)
  {
    CountGrows(s, back, c);
  }

  /** `t` stands in the line behind an indentation. */
  predicate Indented(line: string, t: string, back: string) {
    && Indent(t) == 0 && line[Indent(line)..] == t + back && t != ""
    && forall c :: c in back ==> PatternSpace(c)
  }

  lemma IndentedLine(line: string, front: string, t: string, back: string)
    requires line == front + t + back && t != "" && !PatternSpace(t[0])
    requires (forall c :: c in front ==> PatternSpace(c)) && forall c :: c in back ==> PatternSpace(c)
    ensures Indented(line, t, back)
  {
    assert line == front + (t + back);
    LeadingAfter(front, t + back, PatternSpace);
    assert Leading(t + back, PatternSpace) == 0;
    assert line[|front|..] == t + back;
  }

  lemma HeadingAgrees(line: string, t: string, back: string)
    requires Indented(line, t, back) && IsHeading(t)
    ensures IsHeading(line) <==> Indent(line) <= 3
  {
    hide Indent;
    assert t[0..] == t;
    LeadingBefore(t, back, Hash);
    var level := Leading(t, Hash);
    assert line[Indent(line) + level] == (t + back)[level] == t[level];
  }

  lemma DividerAgrees(line: string, t: string, back: string)
    requires Indented(line, t, back) && IsDivider(t)
    ensures IsDivider(line) <==> Indent(line) <= 3
  {
    hide Indent, Rule;
    assert t[0..] == t;
    forall c | Rule(t, c) ensures Rule(t + back, c) {
      RuleBefore(t, back, c);
    }
  }

  lemma OrderedAgrees(line: string, t: string, back: string)
    requires Indented(line, t, back) && IsOrdered(t)
    ensures IsOrdered(line)
  {
    hide Indent;
    assert t[0..] == t;
    LeadingBefore(t, back, Digit);
    var n, digits := Indent(line), Leading(t, Digit);
    assert line[n + digits] == (t + back)[digits] == t[digits];
    assert line[n + digits + 1] == (t + back)[digits + 1] == t[digits + 1];
  }

  /** What a pattern says of the trimmed line it says of the line, but for the indentation of headings and dividers. */
  lemma PatternsAgree(line: string, t: string, back: string)
    requires Indented(line, t, back)
    ensures IsHeading(t) ==> (IsHeading(line) <==> Indent(line) <= 3)
    ensures IsDivider(t) ==> (IsDivider(line) <==> Indent(line) <= 3)
    ensures IsUnordered(t) ==> IsUnordered(line)
    ensures IsOrdered(t) ==> IsOrdered(line)
    ensures (IsQuote(t) <==> IsQuote(line)) && Indent(line) < |line| && line[Indent(line)] == t[0]
  {
    var n := Indent(line);
    assert line[n] == line[n..][0] == t[0];
    assert |t| > 1 ==> line[n + 1] == line[n..][1] == t[1];
    hide Indent, IsHeading, IsDivider, IsOrdered;
    if IsHeading(t) {
      HeadingAgrees(line, t, back);
    }
    if IsDivider(t) {
      DividerAgrees(line, t, back);
    }
    if IsOrdered(t) {
      OrderedAgrees(line, t, back);
    }
  }

  /** With ordinary white space only, the loop is held up by headings and dividers that are
      indented too far, unless something else claims the line. */
  lemma StuckByIndentation(lines: Lines, i: nat)
    requires i < |lines| && PlainSpaces(lines[i])
    ensures var t := TrimSpace(lines[i]);
      Stuck(lines, i)
      <==> Indent(lines[i]) > 3 && (IsHeading(t) || IsDivider(t)) && !IsUnordered(lines[i]) && !IsTableStart(lines, i)
  {
    var line := lines[i];
    var t := TrimSpace(line);
    var front, back := TrimParts(line);
    if t == "" {
      assert !IsHeading(t) && !IsDivider(t);
    } else {
      assert forall c :: c in line && IsSpace(c) ==> PatternSpace(c);
      assert forall c :: c in front || c in back ==> c in line;
      IndentedLine(line, front, t, back);
      PatternsAgree(line, t, back);
      FirstCharacter(t);
      FirstCharacter(line);
      hide Indent, TrimSpace, IsHeading, IsDivider, IsUnordered, IsOrdered, IsQuote, IsTableStart, IsFence;
    }
  }

  /** Headings and dividers begin unlike fences, numbered items and quotes. */
  lemma FirstCharacter(t: string)
    ensures var n := Indent(t);
      && (IsHeading(t) ==> n < |t| && t[n] == '#') && (IsDivider(t) ==> n < |t| && t[n] in "*-_")
      && (IsOrdered(t) ==> n < |t| && Digit(t[n])) && (IsQuote(t) ==> t[n] == '>')
      && (IsFence(t) ==> t[0] in "`~")
  {
  }

  lemma {:induction false} TrimLeftAfter(front: string, s: string)
    requires forall c :: c in front ==> IsSpace(c)
    ensures TrimLeft(front + s) == TrimLeft(s)
    decreases |front|
  {
    if front == "" {
      assert front + s == s;
    } else {
      assert (front + s)[1..] == front[1..] + s && front[0] in front;
      TrimLeftAfter(front[1..], s);
    }
  }

  lemma FourBlanks()
    ensures TrimSpace("    # x") == "# x" && Indent("    # x") == 4 && Indent("# x") == 0
  {
    var front, a := "    ", "# x";
    assert "    # x" == front + a && forall c :: c in front ==> c == ' ';
    TrimLeftAfter(front, a);
    assert TrimLeft(a) == a && TrimRight(a) == a;
    LeadingAfter(front, a, PatternSpace);
    assert Leading(a, PatternSpace) == 0;
  }

  lemma HeadingX()
    ensures IsHeading("# x")
  {
    var a := "# x";
    assert a[0..] == a && a[1..] == " x";
    assert Indent(a) == 0 && Leading(a, Hash) == 1;
  }

  /** A heading indented by four blanks keeps the converter busy for ever. */
  lemma IndentedHeadingNeverEnds()
    ensures !Terminates(["    # x"], 0)
  {
    var lines := ["    # x"];
    FourBlanks();
    HeadingX();
    hide TrimSpace, Indent, IsHeading, Terminates, Stuck, IsDivider, Next;
    assert lines[0][Indent(lines[0])] == '#';
    StuckByIndentation(lines, 0);
    assert Stuck(lines, Turns(lines, 0, 0));
    TerminationIsExact(lines, 0);
  }

  lemma BlankInFront()
    ensures TrimSpace("\U{00A0}# x") == "# x" && TrimSpace("a") == "a"
    ensures TrimSpace("a\r\U{00A0}# x") == "a\r\U{00A0}# x"
  {
    var front, a := "\U{00A0}", "# x";
    assert front + a == "\U{00A0}# x" && forall c :: c in front ==> c == '\U{00A0}';
    TrimLeftAfter(front, a);
    assert TrimLeft(a) == a && TrimRight(a) == a;
  }

  /** A lone carriage return becomes a newline. */
  lemma {:induction false} LoneReturn(front: string, rest: string)
    requires '\r' !in front && '\r' !in rest && (rest != "" ==> rest[0] != '\n')
    ensures WithoutReturns(WithoutPairs(front + "\r" + rest)) == front + "\n" + rest
    decreases |front|
  {
    var text := front + "\r" + rest;
    NothingToReplace(rest);
    if front == "" {
      assert text == "\r" + rest && text[1..] == rest && !HasPrefix(text, "\r\n");
    } else {
      LoneReturn(front[1..], rest);
      assert text[0] == front[0] && front[0] in front && text[1..] == front[1..] + "\r" + rest;
      assert WithoutPairs(text) == [text[0]] + WithoutPairs(text[1..]);
    }
  }

  lemma ReturnSplits(front: string, rest: string)
    requires '\r' !in front && '\r' !in rest && '\n' !in front && '\n' !in rest
    ensures Split(front + "\r" + rest) == [front + "\r" + rest]
    ensures LinesOf(front + "\r" + rest) == [front, rest]
  {
    hide Split, WithoutPairs, WithoutReturns;
    assert rest != "" ==> rest[0] in rest;
    LoneReturn(front, rest);
    OneLine(front + "\r" + rest);
    OneLine(front);
    OneLine(rest);
    SplitConcat(front, rest);
  }

  /** `a`, a carriage return, a no-break space and `# x`: one trimmed line for the Markdown
      processor, but two for the converter, and the second one holds it up for ever. */
  lemma ReturnNeverEnds()
    ensures var text := "a\r\U{00A0}# x"; AllTrimmed(Split(text)) && !Terminates(LinesOf(text), 0)
  {
    hide TrimSpace, Split, WithoutPairs, WithoutReturns, Terminates;
    var front, rest := "a", "\U{00A0}# x";
    assert front + "\r" + rest == "a\r\U{00A0}# x";
    ReturnSplits(front, rest);
    BlankInFront();
    HeldUpAtOne(["a", "\U{00A0}# x"]);
  }

  lemma HeldUpAtOne(lines: Lines)
    requires lines == ["a", "\U{00A0}# x"]
    ensures !Terminates(lines, 0)
  {
    hide TrimSpace, Terminates;
    BlankInFront();
    HeadingX();
    assert Indent("a") == 0 && Indent(lines[1]) == 0 && lines[1][0..] == lines[1] && "a"[0..] == "a";
    assert Leading("a", Hash) == 0 && Leading("a", Digit) == 0;
    assert Leading(lines[1], Hash) == 0 && Leading(lines[1], Digit) == 0;
    hide Indent, Leading;
    assert Stuck(lines, 1) && Takes(Paragraph, lines, 0) && !Takes(Paragraph, lines, 1);
    assert KindAt(lines, 0) == Paragraph && RunEnd(Paragraph, lines, 1) == 1 && Next(lines, 0) == 1;
    hide Stuck, Next;
    assert Turns(lines, 1, 0) == 1 && Turns(lines, 0, 1) == 1;
    TerminationIsExact(lines, 0);
  }

  // ----- the conversion -----

  /** A block of the result and the lines it was made of. */
  datatype Group = Group(kind: Kind, from: nat, to: nat)

  lemma GoesOn(lines: Lines, i: nat)
    requires i < |lines| && Terminates(lines, i)
    ensures Next(lines, i) > i && Terminates(lines, Next(lines, i))
  {
    hide Stuck, Next;
    TerminationIsExact(lines, i);
    assert !Stuck(lines, Turns(lines, i, 0));
    StuckIsExact(lines, i);
    var k: nat :| Turns(lines, i, k) == |lines|;
    assert Turns(lines, Next(lines, i), k - 1) == |lines|;
  }

  /** The blocks from line `i` on. */
  ghost function Groups(lines: Lines, i: nat): seq<Group>
    requires i <= |lines| && Terminates(lines, i)
    decreases |lines| - i
  {
    if i == |lines| then []
    else
      GoesOn(lines, i);
      var rest := Groups(lines, Next(lines, i));
      if KindAt(lines, i).Blank? then rest else [Group(KindAt(lines, i), i, Next(lines, i))] + rest
  }

  ghost predicate InOrder(lines: Lines, from: nat, gs: seq<Group>) {
    && (forall g | 0 <= g < |gs| :: from <= gs[g].from < gs[g].to <= |lines| && Fits(lines, gs[g]))
    && forall g, h | 0 <= g < h < |gs| :: gs[g].to <= gs[h].from
  }

  ghost predicate Covers(gs: seq<Group>, j: nat) {
    exists g :: 0 <= g < |gs| && gs[g].from <= j < gs[g].to
  }

  lemma GroupsStep(lines: Lines, i: nat)
    requires i < |lines| && Terminates(lines, i)
    ensures Next(lines, i) > i && Terminates(lines, Next(lines, i))
    ensures Groups(lines, i)
            == (if KindAt(lines, i).Blank? then [] else [Group(KindAt(lines, i), i, Next(lines, i))])
               + Groups(lines, Next(lines, i))
  {
    hide KindAt, Next, Terminates;
    GoesOn(lines, i);
  }

  lemma OneMoreGroup(lines: Lines, from: nat, first: Group, rest: seq<Group>)
    requires from <= first.from && Fits(lines, first) && InOrder(lines, first.to, rest)
    ensures InOrder(lines, from, [first] + rest)
  {
    hide Fits;
    assert first.from < first.to <= |lines| by { FitsRange(lines, first); }
  }

  lemma FitsRange(lines: Lines, g: Group)
    requires Fits(lines, g)
    ensures g.from < g.to <= |lines|
  {
  }

  lemma StillCovered(first: seq<Group>, rest: seq<Group>, j: nat)
    requires Covers(rest, j)
    ensures Covers(first + rest, j)
  {
    var g :| 0 <= g < |rest| && rest[g].from <= j < rest[g].to;
    assert (first + rest)[g + |first|] == rest[g];
  }

  /** Every line that is not blank is in one block, the blocks are in order, and a block that
      collects lines ends only where it must. */
  lemma {:induction false} GroupsAreExact(lines: Lines, i: nat)
    requires i <= |lines| && Terminates(lines, i)
    ensures InOrder(lines, i, Groups(lines, i))
    ensures forall j: nat | i <= j < |lines| && TrimSpace(lines[j]) != "" :: Covers(Groups(lines, i), j)
    decreases |lines| - i
  {
    hide TrimSpace, Terminates, KindAt, Next, Fits, InOrder, Covers;
    if i == |lines| {
      assert InOrder(lines, i, Groups(lines, i)) by { NoGroups(lines, i); }
    } else {
      GroupsStep(lines, i);
      var next := Next(lines, i);
      var rest := Groups(lines, next);
      hide Groups;
      GroupsAreExact(lines, next);
      NextFits(lines, i);
      var first := Group(KindAt(lines, i), i, next);
      if !first.kind.Blank? {
        OneMoreGroup(lines, i, first, rest);
        CoversItsLines(first, rest);
      } else {
        assert [] + rest == rest;
        StartsEarlier(lines, i, next, rest);
      }
      forall j: nat | next <= j < |lines| && TrimSpace(lines[j]) != "" ensures Covers(Groups(lines, i), j) {
        StillCovered(if first.kind.Blank? then [] else [first], rest, j);
      }
    }
  }

  lemma NoGroups(lines: Lines, i: nat)
    ensures InOrder(lines, i, [])
  {
  }

  lemma StartsEarlier(lines: Lines, i: nat, next: nat, gs: seq<Group>)
    requires InOrder(lines, next, gs) && i <= next
    ensures InOrder(lines, i, gs)
  {
    hide Fits;
  }

  lemma CoversItsLines(first: Group, rest: seq<Group>)
    ensures forall j: nat | first.from <= j < first.to :: Covers([first] + rest, j)
  {
    assert ([first] + rest)[0] == first;
  }

  /** The line, trimmed, begins with the three characters. */
  predicate BeginsWith(line: string, three: string) {
    |TrimSpace(line)| >= 3 && TrimSpace(line)[..3] == three
  }

  /** A code block ends just behind the first later line that begins with the same three backticks
      or tildes as its first one, or where the text ends. */
  predicate Fenced(lines: Lines, g: Group)
    requires g.from < g.to <= |lines|
  {
    var open := if BeginsWith(lines[g.from], "```") then "```" else "~~~";
    && BeginsWith(lines[g.from], open)
    && (forall j | g.from < j < g.to - 1 :: !BeginsWith(lines[j], open))
    && (g.to < |lines| ==> g.from + 1 < g.to && BeginsWith(lines[g.to - 1], open))
  }

  /** The block begins with a line of its kind; headings and dividers are that line, and a block
      that collects lines has them all. */
  predicate Fits(lines: Lines, g: Group) {
    && g.from < g.to <= |lines| && KindAt(lines, g.from) == g.kind
    && (g.kind.Heading? || g.kind.Divider? ==> g.to == g.from + 1)
    && (g.kind.Fence? ==> Fenced(lines, g))
    && (g.kind.Table? || g.kind.Item? || g.kind.Quote? || g.kind.Paragraph? ==>
          (forall j | g.from <= j < g.to :: Takes(g.kind, lines, j))
          && (g.to < |lines| ==> !Takes(g.kind, lines, g.to)))
  }

  lemma NextFits(lines: Lines, i: nat)
    requires i < |lines| && Next(lines, i) > i
    ensures Fits(lines, Group(KindAt(lines, i), i, Next(lines, i)))
    ensures KindAt(lines, i).Blank? ==> Next(lines, i) == i + 1 && TrimSpace(lines[i]) == ""
  {
    FenceFits(lines, i);
    hide IsBlockBoundary, TrimSpace, IsFence, IsHeading, IsDivider, IsTableStart, IsOrdered, IsUnordered, IsQuote;
    hide Fenced, FenceEnd, FenceOf;
  }

  lemma FenceFits(lines: Lines, i: nat)
    requires i < |lines| && Next(lines, i) > i
    ensures KindAt(lines, i).Fence? ==> Fenced(lines, Group(Fence, i, Next(lines, i)))
  {
    hide IsHeading, IsDivider, IsTableStart, IsOrdered, IsUnordered, IsQuote, TrimSpace;
    forall line ensures BeginsWith(line, "```") <==> HasPrefix(TrimSpace(line), "```")
      ensures BeginsWith(line, "~~~") <==> HasPrefix(TrimSpace(line), "~~~")
    {
    }
  }

  lemma OnlySpace(s: string)
    ensures TrimSpace(s) == "" <==> forall i | 0 <= i < |s| :: IsSpace(s[i])
  {
    TrimLeftParts(s);
    TrimRightParts(TrimLeft(s));
  }

  lemma {:induction false} SpaceStays(s: string)
    requires forall i | 0 <= i < |s| :: IsSpace(s[i])
    ensures forall i | 0 <= i < |WithoutPairs(s)| :: IsSpace(WithoutPairs(s)[i])
    ensures forall i | 0 <= i < |WithoutReturns(s)| :: IsSpace(WithoutReturns(s)[i])
    decreases |s|
  {
    if s != "" {
      SpaceStays(s[1..]);
      if HasPrefix(s, "\r\n") {
        SpaceStays(s[2..]);
      }
    }
  }

  lemma {:induction false} SpaceSplits(s: string)
    requires forall i | 0 <= i < |s| :: IsSpace(s[i])
    ensures forall j, i | 0 <= j < |Split(s)| && 0 <= i < |Split(s)[j]| :: IsSpace(Split(s)[j][i])
    decreases |s|
  {
    if s != "" {
      SpaceSplits(s[1..]);
    }
  }

  /** A text of white space has no lines but blank ones. */
  lemma BlankText(text: string)
    requires TrimSpace(text) == ""
    ensures forall j | 0 <= j < |LinesOf(text)| :: TrimSpace(LinesOf(text)[j]) == ""
  {
    hide TrimSpace, Split, WithoutPairs, WithoutReturns, IsSpace;
    OnlySpace(text);
    SpaceStays(text);
    SpaceStays(WithoutPairs(text));
    SpaceSplits(WithoutReturns(WithoutPairs(text)));
    forall j | 0 <= j < |LinesOf(text)| ensures TrimSpace(LinesOf(text)[j]) == "" {
      OnlySpace(LinesOf(text)[j]);
    }
  }

  lemma {:induction false} NoBlocks(lines: Lines, i: nat)
    requires i <= |lines| && Terminates(lines, i) && forall j | 0 <= j < |lines| :: TrimSpace(lines[j]) == ""
    ensures Groups(lines, i) == []
    decreases |lines| - i
  {
    hide TrimSpace, Terminates;
    if i == |lines| {
      GroupsEnd(lines);
    } else {
      GroupsStep(lines, i);
      NoBlocks(lines, Next(lines, i));
    }
  }

  /** Convert, for texts on whose lines the loop ends. */
  method Convert(markdown: string) returns (groups: seq<Group>)
    requires Terminates(LinesOf(markdown), 0)
    ensures groups == Groups(LinesOf(markdown), 0)
  {
    hide Terminates, Groups, TrimSpace, LinesOf;
    if TrimSpace(markdown) == "" {
      BlankText(markdown);
      NoBlocks(LinesOf(markdown), 0);
      return [];
    }
    groups := ConvertLines(LinesOf(markdown));
  }

  /** The loop over the lines. */
  method ConvertLines(lines: Lines) returns (groups: seq<Group>)
    requires Terminates(lines, 0)
    ensures groups == Groups(lines, 0)
  {
    hide Terminates, KindAt, Groups, TrimSpace;
    GroupsEnd(lines);
    groups := [];
    var index: nat := 0;
    while index < |lines|
      invariant index <= |lines| && Terminates(lines, index)
      invariant groups + Groups(lines, index) == Groups(lines, 0)
      decreases |lines| - index
    {
      GroupsStep(lines, index);
      var start, kind := index, KindAt(lines, index);
      match kind {
        case Blank | Heading | Divider =>
          index := index + 1;
        case Fence =>
          index := SkipFence(FenceOf(TrimSpace(lines[index])), lines, index + 1);
        case _ =>
          index := CollectRun(kind, lines, index);
      }
      ghost var rest := Groups(lines, index);
      assert kind.Blank? ==> [] + rest == rest;
      if !kind.Blank? {
        assert groups + ([Group(kind, start, index)] + rest) == (groups + [Group(kind, start, index)]) + rest;
        groups := groups + [Group(kind, start, index)];
      }
    }
  }

  lemma GroupsEnd(lines: Lines)
    ensures Terminates(lines, |lines|) ==> Groups(lines, |lines|) == []
  {
  }

  /** The loop over the lines of a code block. */
  method SkipFence(fence: string, lines: Lines, from: nat) returns (index: nat)
    requires from <= |lines|
    ensures index == FenceEnd(fence, lines, from)
  {
    index := from;
    while index < |lines|
      invariant index <= |lines| && FenceEnd(fence, lines, index) == FenceEnd(fence, lines, from)
    {
      if HasPrefix(TrimSpace(lines[index]), fence) {
        return index + 1;
      }
      index := index + 1;
    }
  }

  /** The loops over the lines of tables, lists, quotes and paragraphs. */
  method CollectRun(kind: Kind, lines: Lines, from: nat) returns (index: nat)
    requires from <= |lines|
    ensures index == RunEnd(kind, lines, from)
  {
    index := from;
    while index < |lines|
      invariant index <= |lines| && RunEnd(kind, lines, index) == RunEnd(kind, lines, from)
    {
      if !Takes(kind, lines, index) {
        break;
      }
      index := index + 1;
    }
  }
}
