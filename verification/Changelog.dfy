/** Release notes (tools/changelog/main.go): parsing the [Unreleased] section and moving it,
    together with the fragments, into the section of a new version. */
module Changelog {
  import opened Common

  datatype Kind = Added | Changed | Fixed | Removed | Security

  const KINDS := [Added, Changed, Fixed, Removed, Security]
  const UNRELEASED := "## [Unreleased]"
  const NEXT := "\n## ["

  type Sections = map<Kind, seq<string>>

  function Entries(s: Sections, k: Kind): seq<string> {
    if k in s then s[k] else []
  }

  function Title(k: Kind): string {
    match k
    case Added => "### Added"
    case Changed => "### Changed"
    case Fixed => "### Fixed"
    case Removed => "### Removed"
    case Security => "### Security"
  }

  function KindOf(line: string): Option<Kind> {
    if line == "### Added" then Some(Added)
    else if line == "### Changed" then Some(Changed)
    else if line == "### Fixed" then Some(Fixed)
    else if line == "### Removed" then Some(Removed)
    else if line == "### Security" then Some(Security)
    else None
  }

  // ----- lines -----

  /** strings.TrimRight(line, " \t\r"). */
  function TrimEnd(s: string): (t: string)
    ensures t <= s && forall i | |t| <= i < |s| :: s[i] in " \t\r"
    ensures t != "" ==> t[|t| - 1] !in " \t\r"
  {
    if s != [] && s[|s| - 1] in " \t\r" then TrimEnd(s[..|s| - 1]) else s
  }

  /** A line that starts with a prefix is where the prefix occurs after a newline. */
  lemma {:induction false} FirstLineStarts(s: string, p: string)
    requires HasPrefix(s, p) && '\n' !in p
    ensures HasPrefix(Split(s)[0], p)
    decreases |p|
  {
    if p != [] {
      assert s[0] == p[0] && p[0] in p;
      FirstLineStarts(s[1..], p[1..]);
    }
  }

  lemma LineStarts(s: string, p: string, i: nat)
    requires OccursAt(s, "\n" + p, i) && '\n' !in p
    ensures exists j | 1 <= j < |Split(s)| :: HasPrefix(Split(s)[j], p)
  {
    assert s[i..i + 1 + |p|] == "\n" + p;
    var rest := s[i + 1..];
    assert s[i] == (s[i..i + 1 + |p|])[0] && rest[..|p|] == s[i..i + 1 + |p|][1..];
    assert s == s[..i] + "\n" + rest;
    SplitConcat(s[..i], rest);
    FirstLineStarts(rest, p);
    assert Split(s)[|Split(s[..i])|] == Split(rest)[0];
  }

  /** Lines that follow another one, each with the newline before it. */
  function Following(lines: seq<string>): string {
    if lines == [] then "" else "\n" + lines[0] + Following(lines[1..])
  }

  lemma {:induction false} SplitIsExact(s: string)
    ensures s == Split(s)[0] + Following(Split(s)[1..])
    decreases |s|
  {
    if s != [] {
      SplitIsExact(s[1..]);
      var rest := Split(s[1..]);
      if s[0] == '\n' {
        assert Split(s)[1..] == rest && s == "\n" + s[1..];
      } else {
        assert Split(s)[1..] == rest[1..] && s == [s[0]] + s[1..];
      }
    }
  }

  // ----- parsing -----

  datatype State = State(section: Option<Kind>, entry: string, sections: Sections)

  const START := State(None, "", map[])

  /** flush: the current entry goes to the end of its section. */
  function Flushed(st: State): Sections
  {
    if st.entry == "" || st.section.None? then st.sections
    else st.sections[st.section.value := Entries(st.sections, st.section.value) + [st.entry]]
  }

  function Line(raw: string, st: State): Result<State> {
    var line := TrimEnd(raw);
    if line == "" then Success(st)
    else if KindOf(line).Some? then Success(State(KindOf(line), "", Flushed(st)))
    else if HasPrefix(line, "### ") then Failure("unsupported section")
    else if st.section.None? then Failure("content outside a supported section")
    else if HasPrefix(line, "- ") then Success(State(st.section, line, Flushed(st)))
    else if st.entry == "" then Failure("invalid entry")
    else Success(st.(entry := st.entry + "\n" + line))
  }

  function Feed(lines: seq<string>, st: State): Result<State> {
    if lines == [] then Success(st)
    else
      var next := Line(lines[0], st);
      if next.Failure? then next else Feed(lines[1..], next.value)
  }

  /** What parseSections makes of a body. */
  function Parsed(body: string): Result<Sections> {
    var end := Feed(Split(TrimSpace(body)), START);
    if end.Failure? then Failure(end.message) else Success(Flushed(end.value))
  }

  lemma {:induction false} FeedConcat(a: seq<string>, b: seq<string>, st: State)
    ensures Feed(a + b, st) == (if Feed(a, st).Failure? then Feed(a, st) else Feed(b, Feed(a, st).value))
    decreases |a|
  {
    if a == [] {
      assert a + b == b;
    } else {
      assert (a + b)[1..] == a[1..] + b;
      if Line(a[0], st).Success? {
        FeedConcat(a[1..], b, Line(a[0], st).value);
      }
    }
  }

  // ----- which bodies are accepted -----

  predicate IsTitle(line: string) {
    line in {"### Added", "### Changed", "### Fixed", "### Removed", "### Security"}
  }

  lemma TitlesAre(line: string)
    ensures KindOf(line).Some? <==> IsTitle(line)
  {
  }

  /** A title comes before the line. */
  ghost predicate Titled(lines: seq<string>, i: nat)
    requires i <= |lines|
  {
    exists j :: 0 <= j < i && IsTitle(TrimEnd(lines[j]))
  }

  /** An item comes before the line, in the same section. */
  ghost predicate Listed(lines: seq<string>, i: nat)
    requires i <= |lines|
  {
    exists j :: 0 <= j < i && HasPrefix(TrimEnd(lines[j]), "- ") && forall k | j < k < i :: !IsTitle(TrimEnd(lines[k]))
  }

  /** The line is blank, or one of the five titles, or no title at all, in a section, and an item or
      the continuation of one. */
  ghost predicate LineIsFine(lines: seq<string>, i: nat)
    requires i < |lines|
  {
    var line := TrimEnd(lines[i]);
    || line == "" || IsTitle(line)
    || (!HasPrefix(line, "### ") && Titled(lines, i) && (HasPrefix(line, "- ") || Listed(lines, i)))
  }

  ghost predicate AllFine(lines: seq<string>, n: nat)
    requires n <= |lines|
  {
    forall i | 0 <= i < n :: LineIsFine(lines, i)
  }

  lemma OneLineMore(lines: seq<string>, i: nat)
    requires i < |lines|
    ensures var line := TrimEnd(lines[i]);
      && (Titled(lines, i + 1) <==> IsTitle(line) || Titled(lines, i))
      && (Listed(lines, i + 1) <==> HasPrefix(line, "- ") || (!IsTitle(line) && Listed(lines, i)))
  {
    var line := TrimEnd(lines[i]);
    hide TrimEnd, IsTitle;
    if Listed(lines, i + 1) && !HasPrefix(line, "- ") {
      var j :| 0 <= j < i + 1 && HasPrefix(TrimEnd(lines[j]), "- ")
               && forall k | j < k < i + 1 :: !IsTitle(TrimEnd(lines[k]));
      assert j != i;
    }
    if Listed(lines, i) && !IsTitle(line) {
      var j :| 0 <= j < i && HasPrefix(TrimEnd(lines[j]), "- ")
               && forall k | j < k < i :: !IsTitle(TrimEnd(lines[k]));
      assert forall k | j < k < i + 1 :: !IsTitle(TrimEnd(lines[k]));
    }
  }

  lemma {:induction false} FeedIsExact(lines: seq<string>, i: nat)
    requires i <= |lines|
    ensures var fed := Feed(lines[..i], START);
      && (fed.Success? <==> AllFine(lines, i))
      && (fed.Success? ==>
            && (fed.value.section.Some? <==> Titled(lines, i))
            && (fed.value.section.Some? ==> (fed.value.entry != "" <==> Listed(lines, i)))
            && (fed.value.section.None? ==> fed.value.entry == "" && !Listed(lines, i)))
    decreases i
  {
    if i > 0 {
      FeedIsExact(lines, i - 1);
      FeedConcat(lines[..i - 1], [lines[i - 1]], START);
      assert lines[..i] == lines[..i - 1] + [lines[i - 1]];
      OneLineMore(lines, i - 1);
      var before := Feed(lines[..i - 1], START);
      if before.Success? {
        LineIsExact(lines, i - 1, before.value);
        FeedOne(lines[i - 1], before.value);
      }
      hide Feed, Line, Titled, Listed, LineIsFine;
    }
  }

  lemma FeedOne(line: string, st: State)
    ensures Feed([line], st) == Line(line, st)
  {
  }

  lemma TitleIsNoItem(line: string)
    ensures IsTitle(line) ==> !HasPrefix(line, "- ")
  {
    assert IsTitle(line) ==> line[0] == '#';
    assert HasPrefix(line, "- ") ==> line[0] == "- "[0];
  }

  lemma LineIsExact(lines: seq<string>, i: nat, st: State)
    requires i < |lines| && (st.section.Some? <==> Titled(lines, i))
    requires st.section.Some? ==> (st.entry != "" <==> Listed(lines, i))
    requires st.section.None? ==> st.entry == "" && !Listed(lines, i)
    ensures var next := Line(lines[i], st); var line := TrimEnd(lines[i]);
      && (next.Success? <==> LineIsFine(lines, i))
      && (next.Success? ==>
            && (next.value.section.Some? <==> IsTitle(line) || Titled(lines, i))
            && (next.value.entry != "" <==> HasPrefix(line, "- ") || (!IsTitle(line) && Listed(lines, i))))
  {
    var line := TrimEnd(lines[i]);
    TitlesAre(line);
    TitleIsNoItem(line);
    hide TrimEnd, KindOf, Titled, Listed, IsTitle, Flushed;
  }

  /** A body is accepted exactly when every line of it is fine. */
  lemma AcceptedIsExact(body: string)
    ensures var lines := Split(TrimSpace(body));
      Parsed(body).Success? <==> AllFine(lines, |lines|)
  {
    var lines := Split(TrimSpace(body));
    hide TrimSpace, Split;
    FeedIsExact(lines, |lines|);
    assert lines[..|lines|] == lines;
    assert Feed(lines, START).Success? <==> Parsed(body).Success?;
  }

  /** parseSections. */
  method ParseSections(body: string) returns (r: Result<Sections>)
    ensures r == Parsed(body)
  {
    var lines := Split(TrimSpace(body));
    var section: Option<Kind>, entry, sections := None, "", map[];
    for i := 0 to |lines|
      invariant Feed(lines, START) == Feed(lines[i..], State(section, entry, sections))
      invariant entry != "" ==> section.Some?
    {
      assert lines[i..][1..] == lines[i + 1..];
      var line := TrimEnd(lines[i]);
      if line == "" {
        continue;
      }
      if KindOf(line).Some? {
        if entry != "" {
          sections := sections[section.value := Entries(sections, section.value) + [entry]];
          entry := "";
        }
        section := KindOf(line);
        continue;
      }
      if HasPrefix(line, "### ") {
        return Failure("unsupported section");
      }
      if section == None {
        return Failure("content outside a supported section");
      }
      if HasPrefix(line, "- ") {
        if entry != "" {
          sections := sections[section.value := Entries(sections, section.value) + [entry]];
        }
        entry := line;
        continue;
      }
      if entry == "" {
        return Failure("invalid entry");
      }
      entry := entry + "\n" + line;
    }
    if entry != "" {
      sections := sections[section.value := Entries(sections, section.value) + [entry]];
    }
    r := Success(sections);
  }

  // ----- rendering -----

  function EntryText(entries: seq<string>): string {
    if entries == [] then "" else entries[0] + "\n" + EntryText(entries[1..])
  }

  function SectionText(k: Kind, entries: seq<string>): string {
    if entries == [] then "" else "\n" + Title(k) + "\n" + EntryText(entries)
  }

  /** The sections in the fixed order. */
  function Rendered(s: Sections, kinds: seq<Kind>): string {
    if kinds == [] then "" else SectionText(kinds[0], Entries(s, kinds[0])) + Rendered(s, kinds[1..])
  }

  /** A heading and the entries under it, one to a line, or nothing. */
  function Under(heading: string, entries: seq<string>): string {
    if entries == [] then "" else heading + EntryText(entries)
  }

  /** The order of the sections and what each of them is called. */
  lemma SectionsInOrder(s: Sections)
    ensures Rendered(s, KINDS)
         == Under("\n### Added\n", Entries(s, Added)) + (Under("\n### Changed\n", Entries(s, Changed))
            + (Under("\n### Fixed\n", Entries(s, Fixed)) + (Under("\n### Removed\n", Entries(s, Removed))
               + Under("\n### Security\n", Entries(s, Security)))))
  {
    HeadingsAre();
    hide Rendered, Under, Entries, Title;
    var k3, k2, k1 := [Fixed, Removed, Security], [Removed, Security], [Security];
    assert KINDS == [Added] + ([Changed] + k3) && k3 == [Fixed] + k2 && k2 == [Removed] + k1 && k1 == [Security] + [];
    OneSection(s, Added, [Changed] + k3, "\n### Added\n");
    OneSection(s, Changed, k3, "\n### Changed\n");
    OneSection(s, Fixed, k2, "\n### Fixed\n");
    OneSection(s, Removed, k1, "\n### Removed\n");
    OneSection(s, Security, [], "\n### Security\n");
    NothingToRender(s);
    assert Under("\n### Security\n", Entries(s, Security)) + "" == Under("\n### Security\n", Entries(s, Security));
  }

  lemma HeadingsAre()
    ensures "\n" + Title(Added) + "\n" == "\n### Added\n" && "\n" + Title(Changed) + "\n" == "\n### Changed\n"
    ensures "\n" + Title(Fixed) + "\n" == "\n### Fixed\n" && "\n" + Title(Removed) + "\n" == "\n### Removed\n"
    ensures "\n" + Title(Security) + "\n" == "\n### Security\n"
  {
  }

  lemma OneSection(s: Sections, k: Kind, rest: seq<Kind>, heading: string)
    requires heading == "\n" + Title(k) + "\n"
    ensures Rendered(s, [k] + rest) == Under(heading, Entries(s, k)) + Rendered(s, rest)
  {
    assert ([k] + rest)[1..] == rest;
  }

  lemma NothingToRender(s: Sections)
    ensures Rendered(s, []) == ""
  {
  }

  predicate MoreLine(line: string) {
    && line != "" && TrimEnd(line) == line
    && !HasPrefix(line, "- ") && !HasPrefix(line, "### ") && !HasPrefix(line, "## [")
  }

  /** An entry as the parser produces them: a list item and the lines that continue it. */
  predicate WellFormed(entry: string) {
    var lines := Split(entry);
    && HasPrefix(lines[0], "- ") && TrimEnd(lines[0]) == lines[0]
    && forall i | 1 <= i < |lines| :: MoreLine(lines[i])
  }

  predicate AllWellFormed(entries: seq<string>) {
    forall i | 0 <= i < |entries| :: WellFormed(entries[i])
  }

  /** Lines that continue an entry are added to it one after the other. */
  lemma {:induction false} FeedMore(lines: seq<string>, st: State)
    requires st.section.Some? && st.entry != "" && forall i | 0 <= i < |lines| :: MoreLine(lines[i])
    ensures Feed(lines, st) == Success(st.(entry := st.entry + Following(lines)))
    decreases |lines|
  {
    if lines == [] {
      assert st.entry + "" == st.entry;
    } else {
      assert MoreLine(lines[0]);
      assert KindOf(lines[0]).None?;
      var next := st.(entry := st.entry + "\n" + lines[0]);
      FeedMore(lines[1..], next);
      assert st.entry + ("\n" + lines[0] + Following(lines[1..])) == next.entry + Following(lines[1..]);
    }
  }

  lemma FeedEntry(e: string, st: State)
    requires WellFormed(e) && st.section.Some?
    ensures Feed(Split(e), st) == Success(State(st.section, e, Flushed(st))) && e != ""
  {
    var lines := Split(e);
    SplitIsExact(e);
    assert lines[0][0] == '-';
    FeedMore(lines[1..], State(st.section, lines[0], Flushed(st)));
  }

  function Add(s: Sections, k: Kind, entries: seq<string>): Sections {
    if entries == [] then s else s[k := Entries(s, k) + entries]
  }

  lemma AddOneMore(s: Sections, k: Kind, entries: seq<string>)
    requires entries != []
    ensures Add(Add(s, k, entries[..1]), k, entries[1..]) == Add(s, k, entries)
    ensures Add(s, k, entries[..1]) == s[k := Entries(s, k) + [entries[0]]]
  {
    var all, a, b := Entries(s, k), entries[..1], entries[1..];
    assert a + b == entries && a == [entries[0]];
    assert (all + a) + b == all + entries;
    if b == [] {
      assert entries == a;
    } else {
      assert s[k := all + a][k := all + entries] == s[k := all + entries];
    }
  }

  /** Feeding a text that consists of lines before another text. */
  lemma FeedText(line: string, rest: string, st: State)
    ensures var after := Feed(Split(line), st);
      Feed(Split(line + "\n" + rest), st) == if after.Failure? then after else Feed(Split(rest), after.value)
  {
    SplitConcat(line, rest);
    FeedConcat(Split(line), Split(rest), st);
  }

  lemma {:induction false} FeedEntries(entries: seq<string>, rest: string, st: State) returns (after: State)
    requires AllWellFormed(entries) && st.section.Some?
    ensures Feed(Split(EntryText(entries) + rest), st) == Feed(Split(rest), after)
    ensures after.section == st.section && Flushed(after) == Add(Flushed(st), st.section.value, entries)
    decreases |entries|
  {
    hide Split, Feed, WellFormed;
    if entries == [] {
      assert EntryText(entries) + rest == rest;
      after := st;
    } else {
      var e, more := entries[0], EntryText(entries[1..]) + rest;
      assert EntryText(entries) + rest == e + "\n" + more;
      FeedText(e, more, st);
      FeedEntry(e, st);
      after := FeedEntries(entries[1..], rest, State(st.section, e, Flushed(st)));
      AddOneMore(Flushed(st), st.section.value, entries);
    }
  }

  lemma FeedSection(k: Kind, entries: seq<string>, rest: string, st: State) returns (after: State)
    requires AllWellFormed(entries)
    ensures Feed(Split(SectionText(k, entries) + rest), st) == Feed(Split(rest), after)
    ensures Flushed(after) == Add(Flushed(st), k, entries)
  {
    hide Split, Feed, Title, EntryText, AllWellFormed;
    if entries == [] {
      assert SectionText(k, entries) + rest == rest;
      return st;
    }
    var more := EntryText(entries) + rest;
    assert SectionText(k, entries) + rest == "" + "\n" + (Title(k) + "\n" + more);
    FeedText("", Title(k) + "\n" + more, st);
    EmptyLine(st);
    FeedText(Title(k), more, st);
    TitleLine(k, st);
    after := FeedEntries(entries, rest, State(Some(k), "", Flushed(st)));
  }

  lemma EmptyLine(st: State)
    ensures Split("") == [""] && Feed(Split(""), st) == Success(st)
  {
  }

  lemma TitleLine(k: Kind, st: State)
    ensures Feed(Split(Title(k)), st) == Success(State(Some(k), "", Flushed(st)))
  {
    OneLine(Title(k));
    TitleIsTrimmed(k);
    hide Split, TrimEnd, Flushed;
    assert Feed([Title(k)], st) == Line(Title(k), st);
  }

  lemma TitleIsTrimmed(k: Kind)
    ensures TrimEnd(Title(k)) == Title(k)
  {
  }

  function AddAll(s: Sections, more: Sections, kinds: seq<Kind>): Sections
    decreases |kinds|
  {
    if kinds == [] then s else AddAll(Add(s, kinds[0], Entries(more, kinds[0])), more, kinds[1..])
  }

  lemma {:induction false} FeedRendered(s: Sections, kinds: seq<Kind>, st: State)
    requires forall k :: AllWellFormed(Entries(s, k))
    ensures var after := Feed(Split(Rendered(s, kinds)), st);
      after.Success? && Flushed(after.value) == AddAll(Flushed(st), s, kinds)
    decreases |kinds|
  {
    if kinds == [] {
      assert Feed([""], st) == Success(st);
    } else {
      var after := FeedSection(kinds[0], Entries(s, kinds[0]), Rendered(s, kinds[1..]), st);
      FeedRendered(s, kinds[1..], after);
    }
  }

  lemma {:induction false} AddAllEntries(s: Sections, more: Sections, kinds: seq<Kind>, k: Kind)
    requires forall i, j | 0 <= i < j < |kinds| :: kinds[i] != kinds[j]
    ensures Entries(AddAll(s, more, kinds), k) == Entries(s, k) + (if k in kinds then Entries(more, k) else [])
    decreases |kinds|
  {
    if kinds != [] {
      AddAllEntries(Add(s, kinds[0], Entries(more, kinds[0])), more, kinds[1..], k);
    }
  }

  // ----- the round trip -----

  predicate EndsVisibly(s: string) {
    s != "" && !IsSpace(s[|s| - 1])
  }

  lemma TrimInner(c: string)
    requires EndsVisibly(c) && !IsSpace(c[0])
    ensures TrimSpace("\n" + c + "\n") == c
  {
    var s := "\n" + c + "\n";
    assert s[1..] == c + "\n" && (c + "\n")[..|c|] == c;
    assert TrimLeft(s) == TrimLeft(s[1..]) == c + "\n";
    assert TrimRight(c + "\n") == TrimRight(c) == c;
  }

  /** Newlines around a body do not matter to the parser. */
  lemma FeedInner(c: string, st: State)
    ensures Feed(Split("\n" + c + "\n"), st) == Feed(Split(c), st)
  {
    hide Split, Feed;
    assert "\n" + c + "\n" == "" + "\n" + (c + "\n") && c + "\n" == c + "\n" + "";
    FeedText("", c + "\n", st);
    EmptyLine(st);
    FeedText(c, "", st);
    if Feed(Split(c), st).Success? {
      EmptyLine(Feed(Split(c), st).value);
    }
  }

  lemma {:induction false} EntryTextEnds(entries: seq<string>)
    requires entries != [] && forall i | 0 <= i < |entries| :: EndsVisibly(entries[i])
    ensures var t := EntryText(entries); |t| >= 2 && t[|t| - 1] == '\n' && !IsSpace(t[|t| - 2])
    decreases |entries|
  {
    if |entries| > 1 {
      EntryTextEnds(entries[1..]);
    }
  }

  predicate Framed(t: string) {
    |t| >= 3 && t[0] == '\n' && t[1] == '#' && t[|t| - 1] == '\n' && !IsSpace(t[|t| - 2])
  }

  lemma {:induction false} RenderedIsFramed(s: Sections, kinds: seq<Kind>)
    requires forall k, i | 0 <= i < |Entries(s, k)| :: EndsVisibly(Entries(s, k)[i])
    ensures Rendered(s, kinds) == "" || Framed(Rendered(s, kinds))
    decreases |kinds|
  {
    if kinds != [] {
      RenderedIsFramed(s, kinds[1..]);
      SectionIsFramed(kinds[0], Entries(s, kinds[0]));
      FramedConcat(SectionText(kinds[0], Entries(s, kinds[0])), Rendered(s, kinds[1..]));
    }
  }

  lemma SectionIsFramed(k: Kind, entries: seq<string>)
    requires forall i | 0 <= i < |entries| :: EndsVisibly(entries[i])
    ensures SectionText(k, entries) == "" || Framed(SectionText(k, entries))
  {
    if entries != [] {
      EntryTextEnds(entries);
      var head := "\n" + Title(k) + "\n";
      assert head[1] == '#' && |head| > 3;
      hide EntryText, Title;
      assert SectionText(k, entries) == head + EntryText(entries);
    }
  }

  lemma FramedConcat(a: string, b: string)
    requires (a == "" || Framed(a)) && (b == "" || Framed(b))
    ensures a + b == "" || Framed(a + b)
  {
    assert a == "" ==> a + b == b;
    assert b == "" ==> a + b == a;
  }

  lemma EveryKind(k: Kind)
    ensures k in KINDS
  {
    assert KINDS[0] == Added && KINDS[1] == Changed && KINDS[2] == Fixed && KINDS[3] == Removed && KINDS[4] == Security;
  }

  /** Every entry can be printed and read again. */
  ghost predicate Printable(s: Sections) {
    forall k :: AllWellFormed(Entries(s, k)) && forall i | 0 <= i < |Entries(s, k)| :: EndsVisibly(Entries(s, k)[i])
  }

  ghost predicate SameEntries(a: Sections, b: Sections) {
    forall k :: Entries(a, k) == Entries(b, k)
  }

  /** Parsing what was rendered gives the same entries in the same order. */
  lemma RoundTrip(s: Sections)
    requires Printable(s)
    ensures var r := Parsed(Rendered(s, KINDS)); r.Success? && SameEntries(r.value, s)
  {
    hide Feed, Split, Rendered, AddAll, AllWellFormed, TrimSpace, Flushed, Framed;
    var text := Rendered(s, KINDS);
    FeedRendered(s, KINDS, START);
    forall k ensures Entries(AddAll(map[], s, KINDS), k) == Entries(s, k) {
      EveryKind(k);
      AddAllEntries(map[], s, KINDS, k);
    }
    RenderedIsFramed(s, KINDS);
    FramedFeed(text, START);
    assert Flushed(START) == map[] by { NothingFlushed(); }
  }

  lemma NothingFlushed()
    ensures Flushed(START) == map[]
  {
  }

  lemma FramedFeed(text: string, st: State)
    requires text == "" || Framed(text)
    ensures Feed(Split(TrimSpace(text)), st) == Feed(Split(text), st)
  {
    hide Feed, Split;
    if text == "" {
      assert TrimSpace(text) == text;
    } else {
      var c := text[1..|text| - 1];
      assert text == "\n" + c + "\n";
      TrimInner(c);
      FeedInner(c, st);
    }
  }

  // ----- what the parser accepts -----

  ghost predicate Tidy(st: State) {
    && (st.entry != "" ==> WellFormed(st.entry) && st.section.Some?)
    && forall k :: AllWellFormed(Entries(st.sections, k))
  }

  lemma {:induction false} TrimEndIsPrefix(s: string)
    ensures TrimEnd(s) <= s && TrimEnd(TrimEnd(s)) == TrimEnd(s)
    decreases |s|
  {
    if s != [] && s[|s| - 1] in " \t\r" {
      TrimEndIsPrefix(s[..|s| - 1]);
    }
  }

  lemma FlushedIsTidy(st: State)
    requires Tidy(st)
    ensures forall k :: AllWellFormed(Entries(Flushed(st), k))
  {
    forall k ensures AllWellFormed(Entries(Flushed(st), k)) {
      assert AllWellFormed(Entries(st.sections, k));
    }
  }

  lemma LineKeepsTidy(raw: string, st: State)
    requires Tidy(st) && '\n' !in raw && (st.section.Some? ==> !HasPrefix(raw, "## ["))
    ensures Line(raw, st).Success? ==> Tidy(Line(raw, st).value)
  {
    var line := TrimEnd(raw);
    TrimEndIsPrefix(raw);
    FlushedIsTidy(st);
    OneLine(line);
    SplitConcat(st.entry, line);
    hide Split, TrimEnd, Flushed;
    assert HasPrefix(line, "## [") ==> HasPrefix(raw, "## [");
    if st.entry != "" && MoreLine(line) {
      assert WellFormed(st.entry + "\n" + line) by {
        SplitConcat(st.entry, line);
      }
    }
  }

  lemma {:induction false} FeedKeepsTidy(lines: seq<string>, st: State)
    requires Tidy(st)
    requires forall i | 0 <= i < |lines| ::
               '\n' !in lines[i] && ((i == 0 ==> st.section.Some?) ==> !HasPrefix(lines[i], "## ["))
    ensures Feed(lines, st).Success? ==> Tidy(Feed(lines, st).value)
    decreases |lines|
  {
    hide Tidy, Line;
    if lines != [] {
      LineKeepsTidy(lines[0], st);
      if Line(lines[0], st).Success? {
        FeedKeepsTidy(lines[1..], Line(lines[0], st).value);
      }
    }
  }

  lemma {:induction false} LinesHaveNoNewline(s: string)
    ensures forall i | 0 <= i < |Split(s)| :: '\n' !in Split(s)[i]
    decreases |s|
  {
    if s != [] {
      LinesHaveNoNewline(s[1..]);
    }
  }

  /** The converse of LineStarts. */
  lemma {:induction false} LineOccurs(s: string, p: string, j: nat)
    requires 1 <= j < |Split(s)| && HasPrefix(Split(s)[j], p)
    ensures Contains(s, "\n" + p)
    decreases |s|
  {
    var rest := s[1..];
    if s[0] == '\n' && j == 1 {
      SplitIsExact(rest);
      assert Split(s) == [""] + Split(rest) && p <= rest;
      assert s == "\n" + rest && s[..1 + |p|] == "\n" + p;
      assert OccursAt(s, "\n" + p, 0);
    } else {
      LineOccurs(rest, p, if s[0] == '\n' then j - 1 else j);
      var i :| 0 <= i <= |rest| && OccursAt(rest, "\n" + p, i);
      assert OccursAt(s, "\n" + p, i + 1);
    }
  }

  lemma OccursInside(s: string, part: string, i: nat, p: string, j: nat)
    requires i + |part| <= |s| && part == s[i..i + |part|] && OccursAt(part, p, j)
    ensures OccursAt(s, p, i + j)
  {
    forall x | 0 <= x < |p| ensures s[i + j + x] == p[x] {
      assert p[x] == part[j..j + |p|][x] == part[j + x];
    }
  }

  lemma {:induction false} TrimSpaceIsInside(s: string) returns (i: nat)
    ensures i + |TrimSpace(s)| <= |s| && TrimSpace(s) == s[i..i + |TrimSpace(s)|]
    decreases |s|
  {
    if s != [] && IsSpace(s[0]) {
      i := TrimSpaceIsInside(s[1..]);
      i := i + 1;
    } else {
      TrimRightIsPrefix(s);
      i := 0;
    }
  }

  lemma {:induction false} TrimRightIsPrefix(s: string)
    ensures TrimRight(s) <= s
    decreases |s|
  {
    if s != [] && IsSpace(s[|s| - 1]) {
      TrimRightIsPrefix(s[..|s| - 1]);
    }
  }

  /** Every entry that the parser returns is well formed, so it survives being printed. */
  lemma ParsedIsWellFormed(body: string)
    requires !Contains(body, NEXT)
    ensures Parsed(body).Success? ==> forall k :: AllWellFormed(Entries(Parsed(body).value, k))
  {
    var inner := TrimSpace(body);
    var lines := Split(inner);
    LinesHaveNoNewline(inner);
    forall i | 1 <= i < |lines| ensures !HasPrefix(lines[i], "## [") {
      if HasPrefix(lines[i], "## [") {
        LineOccurs(inner, "## [", i);
        assert "\n" + "## [" == NEXT;
        var at := TrimSpaceIsInside(body);
        var j :| 0 <= j <= |inner| && OccursAt(inner, NEXT, j);
        OccursInside(body, inner, at, NEXT, j);
        assert Contains(body, NEXT);
      }
    }
    FeedKeepsTidy(lines, START);
    if Feed(lines, START).Success? {
      FlushedIsTidy(Feed(lines, START).value);
    }
  }
}
