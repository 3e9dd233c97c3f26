/** Building the changelog of a release (tools/changelog/main.go). */
module ChangelogRelease {
  import opened Common
  import opened Changelog

  datatype Fragment = Fragment(section: Kind, entry: string)

  /** An entry as readFragments makes it: one line of words. */
  predicate OneLiner(f: Fragment) {
    HasPrefix(f.entry, "- ") && EndsVisibly(f.entry) && '\n' !in f.entry
  }

  // ----- searching -----

  /** A text without newlines that begins before a newline also ends before it. */
  lemma EndsBeforeNewline(a: string, b: string, p: string, j: nat)
    requires OccursAt(a + b, p, j) && '\n' !in p && j < |a| && a[|a| - 1] == '\n'
    ensures OccursAt(a, p, j)
  {
    var s := a + b;
    assert forall k | 0 <= k < |p| :: s[j + k] == s[j..j + |p|][k] == p[k];
    assert s[j + (|a| - 1 - j)] == '\n';
    assert a[j..j + |p|] == s[j..j + |p|];
  }

  lemma FirstAfterNewline(a: string, p: string, b: string)
    requires forall j: nat | j < |a| :: !OccursAt(a, p, j)
    requires a != "" && a[|a| - 1] == '\n' && '\n' !in p
    ensures FirstAt(a + p + b, p, |a|)
  {
    var s := a + p + b;
    assert s == a + (p + b) && s[|a|..|a| + |p|] == p;
    forall j: nat | j < |a| ensures !OccursAt(s, p, j) {
      if OccursAt(s, p, j) {
        EndsBeforeNewline(a, p + b, p, j);
      }
    }
  }

  // ----- the release -----

  function TrimNewlinesRight(s: string): string {
    if s != [] && s[|s| - 1] == '\n' then TrimNewlinesRight(s[..|s| - 1]) else s
  }

  function TrimNewlinesLeft(s: string): string {
    if s != [] && s[0] == '\n' then TrimNewlinesLeft(s[1..]) else s
  }

  function Heading(version: string): string {
    "## [" + version + "]"
  }

  function VersionTitle(version: string, date: string): string {
    Heading(version) + (" - " + date)
  }

  predicate HasVersion(text: string, version: string) {
    Contains(text, Heading(version) + " ") || Contains(text, Heading(version) + "\n")
  }

  /** Where the [Unreleased] section starts, where its body starts, and where the next section does. */
  datatype Layout = Layout(start: nat, body: nat, next: nat)

  function Located(text: string): (r: Option<Layout>)
    ensures r.Some? ==> r.value.start <= r.value.body <= r.value.next <= |text|
  {
    var start := Index(text, UNRELEASED);
    if start.None? then None
    else
      var body := start.value + |UNRELEASED|;
      var offset := Index(text[body..], NEXT);
      if offset.None? then None else Some(Layout(start.value, body, body + offset.value))
  }

  /** What an [Unreleased] section says. */
  function Unreleased(text: string): Result<Sections> {
    var at := Located(text);
    if at.None? then Failure("no [Unreleased] section with a version section after it")
    else Parsed(text[at.value.body..at.value.next])
  }

  function Merged(s: Sections, fragments: seq<Fragment>): Sections {
    if fragments == [] then s
    else
      var front, last := Merged(s, fragments[..|fragments| - 1]), fragments[|fragments| - 1];
      front[last.section := Entries(front, last.section) + [last.entry]]
  }

  function NewText(text: string, at: Layout, title: string, sections: Sections): string
    requires at.start <= at.next <= |text|
  {
    TrimNewlinesRight(text[..at.start]) + "\n\n" + UNRELEASED + "\n\n" + title + "\n"
    + Rendered(sections, KINDS) + "\n" + TrimNewlinesLeft(text[at.next..])
  }

  function Released(text: string, version: string, date: string, fragments: seq<Fragment>): Result<string> {
    if HasVersion(text, version) then Failure("changelog already contains the version")
    else
      var existing := Unreleased(text);
      if existing.Failure? then Failure(existing.message)
      else Success(NewText(text, Located(text).value, VersionTitle(version, date), Merged(existing.value, fragments)))
  }

  /** The first [Unreleased] heading is at `start`, the next section `next` characters behind it,
      and what is between can be parsed. */
  ghost predicate LaidOut(text: string, start: nat, next: nat) {
    && FirstAt(text, "## [Unreleased]", start) && FirstAt(text[start + 15..], "\n## [", next)
    && Parsed(text[start + 15..start + 15 + next]).Success?
  }

  lemma UnreleasedMeans(text: string)
    ensures Unreleased(text).Success? <==> exists start: nat, next: nat :: LaidOut(text, start, next)
  {
    hide Parsed, Index, Contains;
    if start: nat, next: nat :| LaidOut(text, start, next) {
      IndexIsFirst(text, "## [Unreleased]", start);
      IndexIsFirst(text[start + 15..], "\n## [", next);
    }
    if Unreleased(text).Success? {
      var at := Located(text).value;
      assert LaidOut(text, at.start, at.next - at.body);
    }
  }

  /** A release goes through exactly when the version has no section yet and there is an
      [Unreleased] section, with another one behind it, that can be parsed. */
  lemma ReleaseSucceeds(text: string, version: string, date: string, fragments: seq<Fragment>)
    ensures Released(text, version, date, fragments).Success? <==>
              && !Contains(text, "## [" + version + "] ") && !Contains(text, "## [" + version + "]\n")
              && exists start: nat, next: nat :: LaidOut(text, start, next)
  {
    UnreleasedMeans(text);
    assert Heading(version) + " " == "## [" + version + "] ";
    assert Heading(version) + "\n" == "## [" + version + "]\n";
    hide Contains, Heading, Unreleased, Merged, NewText, Located, LaidOut;
  }

  /** buildChangelog. */
  method BuildChangelog(current: string, version: string, date: string, fragments: seq<Fragment>)
    returns (r: Result<string>)
    ensures r == Released(current, version, date, fragments)
  {
    if HasVersion(current, version) {
      return Failure("changelog already contains the version");
    }
    var at := Located(current);
    if at.None? {
      return Failure("no [Unreleased] section with a version section after it");
    }
    var parsed := ParseSections(current[at.value.body..at.value.next]);
    if parsed.Failure? {
      return Failure(parsed.message);
    }
    var existing := parsed.value;
    assert fragments[..0] == [];
    for i := 0 to |fragments|
      invariant existing == Merged(parsed.value, fragments[..i])
    {
      assert fragments[..i + 1][..i] == fragments[..i];
      existing := existing[fragments[i].section := Entries(existing, fragments[i].section) + [fragments[i].entry]];
    }
    assert fragments[..|fragments|] == fragments;
    var section := Render(existing);
    r := Success(TrimNewlinesRight(current[..at.value.start]) + "\n\n" + UNRELEASED + "\n\n"
                 + VersionTitle(version, date) + "\n" + section + "\n" + TrimNewlinesLeft(current[at.value.next..]));
  }

  /** The loops that print the sections. */
  method Render(sections: Sections) returns (text: string)
    ensures text == Rendered(sections, KINDS)
  {
    hide Rendered, SectionText, KINDS;
    RenderedEnds(sections);
    text := "";
    for i := 0 to |KINDS|
      invariant text + Rendered(sections, KINDS[i..]) == Rendered(sections, KINDS)
    {
      RenderedStep(sections, i);
      var section := RenderSection(KINDS[i], Entries(sections, KINDS[i]));
      assert text + (section + Rendered(sections, KINDS[i + 1..]))
          == (text + section) + Rendered(sections, KINDS[i + 1..]);
      text := text + section;
    }
  }

  lemma RenderedStep(s: Sections, i: nat)
    requires i < |KINDS|
    ensures Rendered(s, KINDS[i..]) == SectionText(KINDS[i], Entries(s, KINDS[i])) + Rendered(s, KINDS[i + 1..])
  {
    assert KINDS[i..][1..] == KINDS[i + 1..];
  }

  lemma RenderedEnds(s: Sections)
    ensures Rendered(s, KINDS[0..]) == Rendered(s, KINDS) && Rendered(s, KINDS[|KINDS|..]) == ""
  {
    assert KINDS[0..] == KINDS;
  }

  method RenderSection(k: Kind, entries: seq<string>) returns (text: string)
    ensures text == SectionText(k, entries)
  {
    text := "";
    if |entries| == 0 {
      return;
    }
    text := "\n" + Title(k) + "\n";
    ghost var head := text;
    for j := 0 to |entries|
      invariant text + EntryText(entries[j..]) == head + EntryText(entries)
    {
      assert entries[j..][1..] == entries[j + 1..];
      assert text + (entries[j] + "\n" + EntryText(entries[j + 1..]))
          == (text + entries[j] + "\n") + EntryText(entries[j + 1..]);
      text := text + entries[j] + "\n";
    }
    assert text + "" == text;
  }

  // ----- theorems -----

  function Newlines(n: nat): string {
    seq(n, _ => '\n')
  }

  lemma {:induction false} OnlyNewlinesCut(s: string) returns (n: nat)
    ensures s == TrimNewlinesRight(s) + Newlines(n)
    decreases |s|
  {
    if s != [] && s[|s| - 1] == '\n' {
      n := OnlyNewlinesCut(s[..|s| - 1]);
      assert s == s[..|s| - 1] + "\n" && Newlines(n + 1) == Newlines(n) + "\n";
      n := n + 1;
    } else {
      n := 0;
    }
  }

  /** Where the next section starts there is one newline and then its heading. */
  lemma NextSection(text: string, at: Layout)
    requires Located(text) == Some(at)
    ensures HasPrefix(text[at.next..], NEXT) && "\n" + TrimNewlinesLeft(text[at.next..]) == text[at.next..]
    ensures FirstAt(text, UNRELEASED, at.start) && !Contains(text[at.body..at.next], NEXT)
  {
    var rest := text[at.body..];
    var n := at.next - at.body;
    assert FirstAt(rest, NEXT, n) && text[at.next..] == rest[n..];
    assert rest[n..n + |NEXT|] == NEXT;
    var suffix := text[at.next..];
    assert suffix[..|NEXT|] == NEXT && suffix[0] == '\n' && suffix[1] == '#';
    assert TrimNewlinesLeft(suffix) == TrimNewlinesLeft(suffix[1..]) == suffix[1..];
    var body := text[at.body..at.next];
    forall j | 0 <= j <= |body| ensures !OccursAt(body, NEXT, j) {
      if OccursAt(body, NEXT, j) {
        assert body == rest[0..0 + |body|];
        OccursInside(rest, body, 0, NEXT, j);
      }
    }
  }

  /** What follows the emptied [Unreleased] heading. */
  function Below(version: string, date: string, sections: Sections, rest: string): string {
    "\n\n" + VersionTitle(version, date) + "\n" + (Rendered(sections, KINDS) + rest)
  }

  lemma Regrouped(a: string, b: string, c: string, d: string, e: string, f: string, g: string, h: string, i: string)
    ensures a + b + c + d + e + f + g + h + i == (a + b) + c + (d + e + f + (g + (h + i)))
  {
  }

  /** Outside the [Unreleased] section the text stays, up to newlines in front of it; all that
      comes after it stays as it is. */
  lemma RestIsKept(text: string, version: string, date: string, fragments: seq<Fragment>) returns (kept: string, n: nat)
    requires Released(text, version, date, fragments).Success?
    ensures var at := Located(text).value; var merged := Merged(Unreleased(text).value, fragments);
      && text[..at.start] == kept + Newlines(n) && (kept != "" ==> kept[|kept| - 1] != '\n')
      && Released(text, version, date, fragments).value
         == (kept + "\n\n") + UNRELEASED + Below(version, date, merged, text[at.next..])
  {
    hide Parsed, Rendered, Located, Index, Contains;
    var at := Located(text).value;
    kept := TrimNewlinesRight(text[..at.start]);
    n := OnlyNewlinesCut(text[..at.start]);
    NoNewlineLeft(text[..at.start]);
    NextSection(text, at);
    var sections := Merged(Unreleased(text).value, fragments);
    hide Merged, Unreleased, TrimNewlinesRight, TrimNewlinesLeft;
    Regrouped(kept, "\n\n", UNRELEASED, "\n\n", VersionTitle(version, date), "\n", Rendered(sections, KINDS), "\n",
              TrimNewlinesLeft(text[at.next..]));
  }

  lemma {:induction false} NoNewlineLeft(s: string)
    ensures var kept := TrimNewlinesRight(s); kept != "" ==> kept[|kept| - 1] != '\n'
    decreases |s|
  {
    if s != [] {
      NoNewlineLeft(s[..|s| - 1]);
    }
  }

  /** The old heading is still the first one. */
  lemma StillFirst(text: string, start: nat, kept: string, n: nat)
    requires FirstAt(text, UNRELEASED, start) && text[..start] == kept + Newlines(n)
    ensures forall j: nat | j < |kept| + 2 :: !OccursAt(kept + "\n\n", UNRELEASED, j)
  {
    var a := kept + "\n\n";
    forall j: nat | j < |a| ensures !OccursAt(a, UNRELEASED, j) {
      if OccursAt(a, UNRELEASED, j) {
        assert a == (kept + "\n") + "\n" && kept + "\n" + "" == kept + "\n";
        if j <= |kept| {
          EndsBeforeNewline(kept + "\n", "\n", UNRELEASED, j);
          var s := kept + "\n";
          assert s[j..j + |UNRELEASED|] == UNRELEASED && s[|kept|] == '\n';
          assert text == text[..start] + text[start..];
          if j + |UNRELEASED| <= |kept| {
            assert text[j..j + |UNRELEASED|] == s[j..j + |UNRELEASED|];
            assert OccursAt(text, UNRELEASED, j);
          }
        }
      }
    }
  }

  lemma PartAt(a: string, p: string, b: string)
    ensures OccursAt(a + p + b, p, |a|) && (a + p + b)[|a| + |p|..] == b
  {
  }

  lemma BelowStarts(version: string, date: string, sections: Sections, rest: string)
    ensures var b := Below(version, date, sections, rest); FirstAt(b, NEXT, 1) && b[..1] == "\n"
  {
    hide Rendered;
    var tail := (version + "]") + (" - " + date) + ("\n" + (Rendered(sections, KINDS) + rest));
    var b := Below(version, date, sections, rest);
    assert b == "\n" + NEXT + tail;
    PartAt("\n", NEXT, tail);
    assert b[0..5][1] == '\n';
  }

  lemma BelowNames(version: string, date: string, sections: Sections, rest: string)
    ensures OccursAt(Below(version, date, sections, rest), Heading(version) + " ", 2)
  {
    hide Rendered, Heading;
    var tail := ("- " + date) + ("\n" + (Rendered(sections, KINDS) + rest));
    assert " - " + date == " " + ("- " + date);
    assert Below(version, date, sections, rest) == "\n\n" + (Heading(version) + " ") + tail;
    PartAt("\n\n", Heading(version) + " ", tail);
  }

  /** After a release the [Unreleased] section is there and empty. */
  lemma UnreleasedIsEmptied(text: string, version: string, date: string, fragments: seq<Fragment>)
    requires Released(text, version, date, fragments).Success?
    ensures Unreleased(Released(text, version, date, fragments).value) == Success(map[])
  {
    var out := Released(text, version, date, fragments).value;
    var kept, n := RestIsKept(text, version, date, fragments);
    var at := Located(text).value;
    var merged := Merged(Unreleased(text).value, fragments);
    NextSection(text, at);
    hide Released, Merged, Parsed, Located;
    StillFirst(text, at.start, kept, n);
    EmptySection(kept + "\n\n", version, date, merged, text[at.next..]);
    assert Unreleased(out) == Parsed("\n");
    NothingInNewline();
  }

  lemma NothingInNewline()
    ensures Parsed("\n") == Success(map[])
  {
  }

  lemma EmptySection(a: string, version: string, date: string, sections: Sections, rest: string)
    requires a != "" && a[|a| - 1] == '\n' && forall j: nat | j < |a| :: !OccursAt(a, UNRELEASED, j)
    ensures var out := a + UNRELEASED + Below(version, date, sections, rest); var b := |a| + |UNRELEASED|;
      Located(out) == Some(Layout(|a|, b, b + 1)) && out[b..b + 1] == "\n"
  {
    var below := Below(version, date, sections, rest);
    BelowStarts(version, date, sections, rest);
    hide Below, Index;
    FirstAfterNewline(a, UNRELEASED, below);
    PartAt(a, UNRELEASED, below);
    var out := a + UNRELEASED + below;
    IndexIsFirst(out, UNRELEASED, |a|);
    IndexIsFirst(below, NEXT, 1);
  }

  /** A version cannot be released twice. */
  lemma RefusedAgain(text: string, version: string, date: string, fragments: seq<Fragment>,
                     date': string, fragments': seq<Fragment>)
    requires Released(text, version, date, fragments).Success?
    ensures Released(Released(text, version, date, fragments).value, version, date', fragments').Failure?
  {
    var out := Released(text, version, date, fragments).value;
    var kept, n := RestIsKept(text, version, date, fragments);
    var at := Located(text).value;
    var merged := Merged(Unreleased(text).value, fragments);
    hide Merged, Unreleased, Located, Released, Below, OccursAt, Contains, UNRELEASED, Heading;
    BelowNames(version, date, merged, text[at.next..]);
    FoundInside((kept + "\n\n") + UNRELEASED, Below(version, date, merged, text[at.next..]), Heading(version) + " ", 2);
    AlreadyThere(out, version, date', fragments');
  }

  lemma FoundInside(a: string, b: string, p: string, i: nat)
    requires OccursAt(b, p, i)
    ensures Contains(a + b, p)
  {
    assert (a + b)[|a|..|a| + |b|] == b;
    OccursInside(a + b, b, |a|, p, i);
  }

  lemma AlreadyThere(text: string, version: string, date: string, fragments: seq<Fragment>)
    requires HasVersion(text, version)
    ensures Released(text, version, date, fragments).Failure?
  {
  }

  // ----- the new version's section -----

  /** No line starts a version section. */
  ghost predicate Quiet(lines: seq<string>) {
    forall i | 0 <= i < |lines| :: !HasPrefix(lines[i], "## [")
  }

  lemma EntryIsQuiet(e: string)
    requires WellFormed(e)
    ensures Quiet(Split(e))
  {
    var lines := Split(e);
    assert lines[0][0] == '-';
    forall i | 0 <= i < |lines| ensures !HasPrefix(lines[i], "## [") {
      assert i > 0 ==> MoreLine(lines[i]);
    }
  }

  lemma {:induction false} EntriesAreQuiet(entries: seq<string>, rest: string)
    requires AllWellFormed(entries) && Quiet(Split(rest))
    ensures Quiet(Split(EntryText(entries) + rest))
    decreases |entries|
  {
    hide Split, WellFormed;
    if entries == [] {
      assert EntryText(entries) + rest == rest;
    } else {
      var more := EntryText(entries[1..]) + rest;
      EntriesAreQuiet(entries[1..], rest);
      assert EntryText(entries) + rest == entries[0] + "\n" + more;
      SplitConcat(entries[0], more);
      EntryIsQuiet(entries[0]);
    }
  }

  lemma TitleIsQuiet(k: Kind)
    ensures Quiet(Split(Title(k))) && Quiet(Split(""))
  {
    OneLine(Title(k));
    assert Title(k)[2] == '#' && Split("") == [""];
  }

  lemma SectionIsQuiet(k: Kind, entries: seq<string>, rest: string)
    requires AllWellFormed(entries) && Quiet(Split(rest))
    ensures Quiet(Split(SectionText(k, entries) + rest))
  {
    hide Split, AllWellFormed, Title, EntryText, Quiet;
    if entries == [] {
      assert SectionText(k, entries) + rest == rest;
    } else {
      EntriesAreQuiet(entries, rest);
      TitleIsQuiet(k);
      var more := EntryText(entries) + rest;
      assert SectionText(k, entries) + rest == "" + "\n" + (Title(k) + "\n" + more);
      SplitConcat("", Title(k) + "\n" + more);
      SplitConcat(Title(k), more);
      QuietConcat(Split(Title(k)), Split(more));
      QuietConcat(Split(""), Split(Title(k)) + Split(more));
    }
  }

  lemma QuietConcat(a: seq<string>, b: seq<string>)
    requires Quiet(a) && Quiet(b)
    ensures Quiet(a + b)
  {
  }

  lemma {:induction false} RenderedIsQuiet(s: Sections, kinds: seq<Kind>)
    requires forall k :: AllWellFormed(Entries(s, k))
    ensures Quiet(Split(Rendered(s, kinds)))
    decreases |kinds|
  {
    if kinds != [] {
      RenderedIsQuiet(s, kinds[1..]);
      SectionIsQuiet(kinds[0], Entries(s, kinds[0]), Rendered(s, kinds[1..]));
    }
  }

  lemma QuietHasNoHeading(text: string, j: nat)
    requires Quiet(Split(text))
    ensures !OccursAt(text, NEXT, j)
  {
    if OccursAt(text, NEXT, j) {
      assert NEXT == "\n" + "## [";
      LineStarts(text, "## [", j);
    }
  }

  /** The text of the sections ends where the next version starts. */
  lemma SectionEnds(text: string, suffix: string)
    requires Quiet(Split(text)) && HasPrefix(suffix, NEXT)
    ensures FirstAt(text + suffix, NEXT, |text|)
  {
    hide Split, OccursAt, Quiet;
    PrefixOccurs(text, suffix);
    forall j: nat | j < |text| ensures !OccursAt(text + suffix, NEXT, j) {
      QuietHasNoHeading(text, j);
      if OccursAt(text + suffix, NEXT, j) {
        HeadingInside(text, suffix, j);
      }
    }
  }

  lemma PrefixOccurs(text: string, suffix: string)
    requires HasPrefix(suffix, NEXT)
    ensures OccursAt(text + suffix, NEXT, |text|)
  {
    assert (text + suffix)[|text|..|text| + |NEXT|] == suffix[..|NEXT|];
  }

  lemma HeadingInside(text: string, suffix: string, j: nat)
    requires OccursAt(text + suffix, NEXT, j) && j < |text| && HasPrefix(suffix, NEXT)
    ensures OccursAt(text, NEXT, j)
  {
    var s := text + suffix;
    assert forall k | 0 <= k < |NEXT| :: s[j + k] == s[j..j + |NEXT|][k] == NEXT[k];
    assert s[j + (|text| - j)] == suffix[0] == NEXT[0] == '\n';
    assert text[j..j + |NEXT|] == s[j..j + |NEXT|];
  }

  /** The fragments of one kind, in order. */
  function Of(fragments: seq<Fragment>, k: Kind): seq<string> {
    if fragments == [] then []
    else
      var front, last := Of(fragments[..|fragments| - 1], k), fragments[|fragments| - 1];
      if last.section == k then front + [last.entry] else front
  }

  lemma {:induction false} MergedAppends(s: Sections, fragments: seq<Fragment>, k: Kind)
    ensures Entries(Merged(s, fragments), k) == Entries(s, k) + Of(fragments, k)
    decreases |fragments|
  {
    if fragments != [] {
      MergedAppends(s, fragments[..|fragments| - 1], k);
    }
  }

  lemma FragmentIsWellFormed(f: Fragment)
    requires OneLiner(f)
    ensures WellFormed(f.entry)
  {
    OneLine(f.entry);
  }

  lemma {:induction false} MergedIsPrintable(s: Sections, fragments: seq<Fragment>)
    requires Printable(s) && forall f :: f in fragments ==> OneLiner(f)
    ensures Printable(Merged(s, fragments))
    decreases |fragments|
  {
    if fragments != [] {
      var front, last := fragments[..|fragments| - 1], fragments[|fragments| - 1];
      MergedIsPrintable(s, front);
      FragmentIsWellFormed(last);
      var m := Merged(s, front);
      forall k ensures AllWellFormed(Entries(Merged(s, fragments), k))
                    && forall i | 0 <= i < |Entries(Merged(s, fragments), k)| ::
                        EndsVisibly(Entries(Merged(s, fragments), k)[i]) {
        assert AllWellFormed(Entries(m, k));
      }
    }
  }

  /** The text stands below its heading, and reaches to the next version. */
  ghost predicate StandsBelow(out: string, title: string, body: string) {
    exists i: nat :: i + |title| + 2 <= |out| && OccursAt(out, "\n" + title + "\n", i)
      && var rest := out[i + |title| + 2..]; Index(rest, NEXT) == Some(|body|) && rest[..|body|] == body
  }

  /** The section of the new version, read again, holds what was unreleased and then the
      fragments, kind by kind and in order. */
  lemma ReleaseIsComplete(text: string, version: string, date: string, fragments: seq<Fragment>) returns (body: string)
    requires Released(text, version, date, fragments).Success? && forall f :: f in fragments ==> OneLiner(f)
    requires forall k, i | 0 <= i < |Entries(Unreleased(text).value, k)| ::
          EndsVisibly(Entries(Unreleased(text).value, k)[i])
    ensures StandsBelow(Released(text, version, date, fragments).value, VersionTitle(version, date), body)
    ensures Parsed(body).Success?
    ensures forall k :: Entries(Parsed(body).value, k) == Entries(Unreleased(text).value, k) + Of(fragments, k)
  {
    var existing := Unreleased(text).value;
    var kept, n := RestIsKept(text, version, date, fragments);
    var at := Located(text).value;
    NextSection(text, at);
    ParsedIsWellFormed(text[at.body..at.next]);
    hide Unreleased, Released, Located;
    assert Printable(existing);
    var merged := Merged(existing, fragments);
    MergedIsPrintable(existing, fragments);
    body := Rendered(merged, KINDS);
    RoundTrip(merged);
    RenderedIsQuiet(merged, KINDS);
    hide Parsed, Printable, WellFormed, Rendered, Split;
    forall k ensures Entries(Parsed(body).value, k) == Entries(existing, k) + Of(fragments, k) {
      MergedAppends(existing, fragments, k);
    }
    Standing((kept + "\n\n") + UNRELEASED, VersionTitle(version, date), body, text[at.next..]);
  }

  lemma Standing(front: string, title: string, body: string, suffix: string)
    requires Quiet(Split(body)) && HasPrefix(suffix, NEXT)
    ensures StandsBelow(front + ("\n\n" + title + "\n" + (body + suffix)), title, body)
  {
    hide Split, Quiet, Index, OccursAt, FirstAt, NEXT;
    SectionEnds(body, suffix);
    IndexIsFirst(body + suffix, NEXT, |body|);
    assert (body + suffix)[..|body|] == body;
    PartAt(front + "\n", "\n" + title + "\n", body + suffix);
    TitleRegrouped(front, title, body + suffix);
  }

  lemma TitleRegrouped(front: string, title: string, rest: string)
    ensures front + ("\n\n" + title + "\n" + rest) == (front + "\n") + ("\n" + title + "\n") + rest
  {
    assert "\n\n" == "\n" + "\n";
  }
}
