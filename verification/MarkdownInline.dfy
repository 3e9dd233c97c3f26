/** Inline Markdown to Notion rich text (internal/exporter/notion/converter.go). */
module MarkdownInline {
  import opened Common

  const MAX_TEXT_LENGTH: nat := 2000
  const MAX_RICH_TEXT_ITEMS: nat := 100
  const SPECIAL := "`[*_~!"

  datatype Style = Style(bold: bool, italic: bool, strikethrough: bool, code: bool)

  datatype Segment = Segment(content: string, style: Style, link: Option<string>)

  datatype Block = Block(kind: string, items: seq<Segment>)

  // ----- pieces of at most 2000 characters -----

  function Pieces(text: string, style: Style): seq<Segment> {
    if text == "" then []
    else if |text| <= MAX_TEXT_LENGTH then [Segment(text, style, None)]
    else [Segment(text[..MAX_TEXT_LENGTH], style, None)] + Pieces(text[MAX_TEXT_LENGTH..], style)
  }

  /** splitTextToRichText; every caller passes no link. */
  method SplitTextToRichText(text: string, style: Style) returns (items: seq<Segment>)
    ensures items == Pieces(text, style)
  {
    items := [];
    var rest := text;
    while |rest| > 0
      invariant items + Pieces(rest, style) == Pieces(text, style)
      decreases |rest|
    {
      var length := |rest|;
      if length > MAX_TEXT_LENGTH {
        length := MAX_TEXT_LENGTH;
      }
      ghost var head := [Segment(rest[..length], style, None)];
      assert Pieces(rest, style) == head + Pieces(rest[length..], style) by {
        assert length == |rest| ==> rest[..length] == rest && rest[length..] == "";
      }
      assert items + (head + Pieces(rest[length..], style)) == (items + head) + Pieces(rest[length..], style);
      items := items + [Segment(rest[..length], style, None)];
      rest := rest[length..];
    }
  }

  /** The text that the segments show. */
  function Shown(items: seq<Segment>): string {
    if items == [] then "" else items[0].content + Shown(items[1..])
  }

  predicate Bounded(items: seq<Segment>) {
    forall i | 0 <= i < |items| :: 0 < |items[i].content| <= 2000
  }

  lemma {:induction false} ShownConcat(a: seq<Segment>, b: seq<Segment>)
    ensures Shown(a + b) == Shown(a) + Shown(b)
    decreases |a|
  {
    if a == [] {
      assert a + b == b;
    } else {
      assert (a + b)[1..] == a[1..] + b;
      ShownConcat(a[1..], b);
    }
  }

  /** Cutting a text loses nothing, and there are as few pieces as possible, none empty or too long. */
  lemma {:induction false} PiecesShowTheText(text: string, style: Style)
    ensures Shown(Pieces(text, style)) == text && Bounded(Pieces(text, style))
    ensures |Pieces(text, style)| == (|text| + 1999) / 2000
    ensures forall i | 0 <= i < |Pieces(text, style)| ::
              Pieces(text, style)[i].style == style && Pieces(text, style)[i].link == None
    decreases |text|
  {
    if |text| > MAX_TEXT_LENGTH {
      PiecesShowTheText(text[MAX_TEXT_LENGTH..], style);
    }
  }

  // ----- blocks of at most 100 segments -----

  function Chunks(kind: string, items: seq<Segment>): seq<Block> {
    if items == [] then []
    else if |items| <= MAX_RICH_TEXT_ITEMS then [Block(kind, items)]
    else [Block(kind, items[..MAX_RICH_TEXT_ITEMS])] + Chunks(kind, items[MAX_RICH_TEXT_ITEMS..])
  }

  /** makeRichTextBlocks. */
  method MakeRichTextBlocks(kind: string, items: seq<Segment>) returns (blocks: seq<Block>)
    ensures blocks == Chunks(kind, items)
  {
    hide Chunks, From;
    ChunksEnd(kind, items);
    blocks := [];
    var start := 0;
    while start < |items|
      invariant 0 <= start && blocks + Chunks(kind, From(items, start)) == Chunks(kind, items)
      decreases |items| - start
    {
      var end := start + MAX_RICH_TEXT_ITEMS;
      if end > |items| {
        end := |items|;
      }
      ChunksStep(kind, items, start);
      Regroup(blocks, [Block(kind, items[start..end])], Chunks(kind, From(items, start + MAX_RICH_TEXT_ITEMS)));
      blocks := blocks + [Block(kind, items[start..end])];
      start := start + MAX_RICH_TEXT_ITEMS;
    }
  }

  function From(items: seq<Segment>, start: nat): seq<Segment> {
    if start <= |items| then items[start..] else []
  }

  lemma Regroup<T>(a: seq<T>, b: seq<T>, c: seq<T>)
    ensures a + (b + c) == (a + b) + c
  {
  }

  lemma ChunksEnd(kind: string, items: seq<Segment>)
    ensures From(items, 0) == items && forall n: nat | n >= |items| :: Chunks(kind, From(items, n)) == []
  {
  }

  lemma ChunksStep(kind: string, items: seq<Segment>, start: nat)
    requires start < |items|
    ensures var next := start + MAX_RICH_TEXT_ITEMS; var end := if next > |items| then |items| else next;
      Chunks(kind, From(items, start)) == [Block(kind, items[start..end])] + Chunks(kind, From(items, next))
  {
    var rest := items[start..];
    if |rest| <= MAX_RICH_TEXT_ITEMS {
      assert items[start..|items|] == rest;
    } else {
      assert items[start..start + MAX_RICH_TEXT_ITEMS] == rest[..MAX_RICH_TEXT_ITEMS];
      assert items[start + MAX_RICH_TEXT_ITEMS..] == rest[MAX_RICH_TEXT_ITEMS..];
    }
  }

  function AllItems(blocks: seq<Block>): seq<Segment> {
    if blocks == [] then [] else blocks[0].items + AllItems(blocks[1..])
  }

  /** The blocks hold all segments in order, as few blocks as possible, none empty or too long. */
  lemma {:induction false} ChunksHoldEverything(kind: string, items: seq<Segment>)
    ensures var blocks := Chunks(kind, items);
      && AllItems(blocks) == items && |blocks| == (|items| + 99) / 100
      && forall i | 0 <= i < |blocks| :: blocks[i].kind == kind && 0 < |blocks[i].items| <= 100
    decreases |items|
  {
    if |items| > MAX_RICH_TEXT_ITEMS {
      ChunksHoldEverything(kind, items[MAX_RICH_TEXT_ITEMS..]);
    }
  }

  // ----- tokens -----

  datatype Mark = Bold | Strikethrough | Italic

  datatype Token =
    | Marked(mark: Mark, delimiter: string, inner: string, rest: string)
    | Code(inner: string, rest: string)
    | Link(caption: string, url: string, rest: string)
    | Plain(piece: string, rest: string)

  function IndexAny(s: string, chars: string): (i: nat)
    ensures i <= |s| && forall j | 0 <= j < i :: s[j] !in chars
    ensures i < |s| ==> s[i] in chars
  {
    if s == "" || s[0] in chars then 0 else 1 + IndexAny(s[1..], chars)
  }

  /** Text up to the next special character, or that character itself. */
  function PlainToken(text: string): Token
    requires text != ""
  {
    var n := IndexAny(text, SPECIAL);
    var length := if n == 0 then 1 else n;
    Plain(text[..length], text[length..])
  }

  function MarkedToken(text: string, mark: Mark, length: nat): Token
    requires 0 < length <= |text|
  {
    var delimiter := text[..length];
    var end := Index(text[length..], delimiter);
    if end.Some? then Marked(mark, delimiter, text[length..length + end.value], text[length + end.value + length..])
    else PlainToken(text)
  }

  function LinkToken(text: string): Token
    requires text != ""
  {
    var bracket := Index(text, "](");
    if bracket.Some? && bracket.value > 0 then
      var paren := Index(text[bracket.value + 2..], ")");
      if paren.Some? then
        Link(text[1..bracket.value], text[bracket.value + 2..bracket.value + 2 + paren.value],
             text[bracket.value + 2 + paren.value + 1..])
      else PlainToken(text)
    else PlainToken(text)
  }

  /** What the text begins with. */
  function First(text: string): Token
    requires text != ""
  {
    assert HasPrefix(text, "*") || HasPrefix(text, "_") ==> text[..1] == "*" || text[..1] == "_";
    if HasPrefix(text, "**") || HasPrefix(text, "__") then MarkedToken(text, Bold, 2)
    else if HasPrefix(text, "~~") then MarkedToken(text, Strikethrough, 2)
    else if HasPrefix(text, "`") then
      var end := Index(text[1..], "`");
      if end.Some? then Code(text[1..1 + end.value], text[1 + end.value + 1..]) else PlainToken(text)
    else if HasPrefix(text, "[") then LinkToken(text)
    else if HasPrefix(text, "*") || HasPrefix(text, "_") then MarkedToken(text, Italic, 1)
    else PlainToken(text)
  }

  /** The token as it was written. */
  function Spelling(t: Token): string {
    match t
    case Marked(_, delimiter, inner, rest) => delimiter + inner + delimiter + rest
    case Code(inner, rest) => "`" + inner + "`" + rest
    case Link(caption, url, rest) => "[" + caption + "](" + url + ")" + rest
    case Plain(piece, rest) => piece + rest
  }

  /** The characters that are not Markdown marks. */
  function Ordinary(s: string): string {
    if s == "" then "" else (if s[0] in "*_~`" then "" else [s[0]]) + Ordinary(s[1..])
  }

  /** The token is read off the text and takes something of it. */
  predicate Reads(t: Token, text: string) {
    && Spelling(t) == text
    && (t.Plain? ==> t.piece != "") && (t.Marked? ==> t.delimiter != "" && Ordinary(t.delimiter) == "")
  }

  lemma Cut(s: string, p: string, i: nat)
    requires OccursAt(s, p, i)
    ensures s == s[..i] + p + s[i + |p|..]
  {
    assert s == s[..i] + s[i..i + |p|] + s[i + |p|..];
  }

  lemma MarkedSpelling(text: string, length: nat, e: nat)
    requires length <= |text| && OccursAt(text[length..], text[..length], e)
    ensures text == text[..length] + text[length..length + e] + text[..length] + text[length + e + length..]
  {
    var d, tail := text[..length], text[length..];
    Cut(tail, d, e);
    assert tail[..e] == text[length..length + e] && tail[e + |d|..] == text[length + e + length..];
    assert text == d + tail;
  }

  lemma MarkedReads(text: string, mark: Mark, length: nat)
    requires 0 < length <= |text| && Ordinary(text[..length]) == ""
    ensures Reads(MarkedToken(text, mark, length), text)
  {
    hide *;
    PlainReads(text);
    MarkedIs(text, mark, length);
    var end := Index(text[length..], text[..length]);
    if end.Some? {
      MarkedSpelling(text, length, end.value);
      MarkedFits(text, mark, length, end.value);
    }
  }

  lemma MarkedIs(text: string, mark: Mark, length: nat)
    requires 0 < length <= |text|
    ensures var end := Index(text[length..], text[..length]);
      && (end.None? ==> MarkedToken(text, mark, length) == PlainToken(text))
      && (end.Some? ==>
            && OccursAt(text[length..], text[..length], end.value) && length + end.value + length <= |text|
            && MarkedToken(text, mark, length)
               == Marked(mark, text[..length], text[length..length + end.value], text[length + end.value + length..]))
  {
  }

  lemma MarkedFits(text: string, mark: Mark, length: nat, e: nat)
    requires 0 < length <= |text| && length + e + length <= |text| && Ordinary(text[..length]) == ""
    requires text == text[..length] + text[length..length + e] + text[..length] + text[length + e + length..]
    ensures Reads(Marked(mark, text[..length], text[length..length + e], text[length + e + length..]), text)
  {
    hide Ordinary;
  }

  lemma PlainReads(text: string)
    requires text != ""
    ensures Reads(PlainToken(text), text)
  {
  }

  lemma CodeReads(text: string)
    requires HasPrefix(text, "`")
    ensures var end := Index(text[1..], "`");
      end.Some? ==> Reads(Code(text[1..1 + end.value], text[1 + end.value + 1..]), text)
  {
    var tail := text[1..];
    var end := Index(tail, "`");
    if end.Some? {
      Cut(tail, "`", end.value);
      assert text == "`" + tail && text[1..1 + end.value] == tail[..end.value];
    }
  }

  lemma LinkSpelling(text: string, b: nat, p: nat)
    requires HasPrefix(text, "[") && 0 < b && OccursAt(text, "](", b) && OccursAt(text[b + 2..], ")", p)
    ensures text == "[" + text[1..b] + "](" + text[b + 2..b + 2 + p] + ")" + text[b + 2 + p + 1..]
  {
    var tail := text[b + 2..];
    Cut(text, "](", b);
    Cut(tail, ")", p);
    assert text[..b] == "[" + text[1..b];
    assert tail[..p] == text[b + 2..b + 2 + p] && tail[p + 1..] == text[b + 2 + p + 1..];
  }

  lemma LinkReads(text: string)
    requires HasPrefix(text, "[")
    ensures Reads(LinkToken(text), text)
  {
    hide *;
    LinkIs(text);
    PlainReads(text);
    if LinkToken(text).Link? {
      var b := Index(text, "](").value;
      LinkSpelling(text, b, Index(text[b + 2..], ")").value);
      SpelledReads(LinkToken(text), text);
    }
  }

  lemma SpelledReads(t: Token, text: string)
    requires t.Link? && text == "[" + t.caption + "](" + t.url + ")" + t.rest
    ensures Reads(t, text)
  {
  }

  lemma LinkIs(text: string)
    requires HasPrefix(text, "[")
    ensures text != "" && (!LinkToken(text).Link? ==> LinkToken(text) == PlainToken(text))
    ensures LinkToken(text).Link? ==>
              && Index(text, "](").Some?
              && var b := Index(text, "](").value;
              && 0 < b && OccursAt(text, "](", b) && b + 2 <= |text| && Index(text[b + 2..], ")").Some?
              && var p := Index(text[b + 2..], ")").value;
              && OccursAt(text[b + 2..], ")", p) && b + 2 + p + 1 <= |text|
              && LinkToken(text) == Link(text[1..b], text[b + 2..b + 2 + p], text[b + 2 + p + 1..])
  {
  }

  lemma MarksAreNotOrdinary()
    ensures Ordinary("*") == "" && Ordinary("_") == "" && Ordinary("~") == "" && Ordinary("`") == ""
    ensures Ordinary("**") == "" && Ordinary("__") == "" && Ordinary("~~") == ""
  {
    assert "**"[1..] == "*" && "__"[1..] == "_" && "~~"[1..] == "~";
  }

  /** Reading a token loses nothing. */
  lemma FirstReads(text: string)
    requires text != ""
    ensures Reads(First(text), text) && |First(text).rest| < |text|
    ensures First(text).Marked? || First(text).Code? ==> |First(text).inner| < |text|
    ensures First(text).Link? ==> |First(text).caption| < |text|
  {
    hide Index, MarkedToken, LinkToken, PlainToken, Ordinary;
    PlainReads(text);
    MarksAreNotOrdinary();
    if HasPrefix(text, "**") {
      PrefixIs(text, "**");
      MarkedReads(text, Bold, 2);
    } else if HasPrefix(text, "__") {
      PrefixIs(text, "__");
      MarkedReads(text, Bold, 2);
    } else if HasPrefix(text, "~~") {
      PrefixIs(text, "~~");
      MarkedReads(text, Strikethrough, 2);
    } else if HasPrefix(text, "`") {
      CodeReads(text);
    } else if HasPrefix(text, "[") {
      LinkReads(text);
    } else if HasPrefix(text, "*") {
      PrefixIs(text, "*");
      MarkedReads(text, Italic, 1);
    } else if HasPrefix(text, "_") {
      PrefixIs(text, "_");
      MarkedReads(text, Italic, 1);
    }
  }

  lemma PrefixIs(text: string, p: string)
    requires HasPrefix(text, p)
    ensures |p| <= |text| && text[..|p|] == p
  {
  }

  // ----- rendering -----

  function Restyled(style: Style, mark: Mark): Style {
    match mark
    case Bold => style.(bold := true)
    case Strikethrough => style.(strikethrough := true)
    case Italic => style.(italic := true)
  }

  /** applyLink: a usable address replaces whatever link the segments had. */
  function Linked(items: seq<Segment>, link: Option<string>): seq<Segment> {
    if link.None? then items else seq(|items|, i requires 0 <= i < |items| => items[i].(link := link))
  }

  /** What renderInline makes of a text; `usable` is the judgement of sanitizeURL. */
  function Rendered(text: string, style: Style, usable: string -> Option<string>): seq<Segment>
    decreases |text|
  {
    if text == "" then []
    else
      var t := First(text);
      FirstReads(text);
      (match t
       case Marked(mark, _, inner, _) => Rendered(inner, Restyled(style, mark), usable)
       case Code(inner, _) => Pieces(inner, style.(code := true))
       case Link(caption, url, _) => Linked(Rendered(caption, style, usable), usable(url))
       case Plain(piece, _) => Pieces(piece, style))
      + Rendered(t.rest, style, usable)
  }

  /** renderInline. */
  method RenderInline(text: string, style: Style, usable: string -> Option<string>) returns (items: seq<Segment>)
    ensures items == Rendered(text, style, usable)
    decreases |text|, 1
  {
    hide Rendered;
    items := [];
    var rest := text;
    while |rest| > 0
      invariant |rest| <= |text| && items + Rendered(rest, style, usable) == Rendered(text, style, usable)
      decreases |rest|
    {
      var more, left := RenderToken(rest, style, usable);
      assert items + (more + Rendered(left, style, usable)) == (items + more) + Rendered(left, style, usable);
      items := items + more;
      rest := left;
    }
    NothingRendered(style, usable);
  }

  lemma NothingRendered(style: Style, usable: string -> Option<string>)
    ensures Rendered("", style, usable) == []
  {
  }

  /** One turn of the loop. */
  method RenderToken(text: string, style: Style, usable: string -> Option<string>)
    returns (items: seq<Segment>, rest: string)
    requires text != ""
    ensures |rest| < |text| && Rendered(text, style, usable) == items + Rendered(rest, style, usable)
    decreases |text|, 0
  {
    hide First, Reads, Pieces, Linked, Restyled;
    FirstReads(text);
    var t := First(text);
    match t {
      case Marked(mark, _, inner, _) =>
        items := RenderInline(inner, Restyled(style, mark), usable);
      case Code(inner, _) =>
        items := SplitTextToRichText(inner, style.(code := true));
      case Link(caption, url, _) =>
        items := RenderInline(caption, style, usable);
        items := Linked(items, usable(url));
      case Plain(piece, _) =>
        items := SplitTextToRichText(piece, style);
    }
    rest := t.rest;
  }

  lemma {:induction false} LinkedShowsTheSame(items: seq<Segment>, link: Option<string>)
    ensures Shown(Linked(items, link)) == Shown(items)
    decreases |items|
  {
    if items != [] && link.Some? {
      LinkedShowsTheSame(items[1..], link);
      assert Linked(items, link)[1..] == Linked(items[1..], link);
    }
  }

  /** No segment is empty or longer than Notion allows. */
  lemma {:induction false} RenderedIsBounded(text: string, style: Style, usable: string -> Option<string>)
    ensures Bounded(Rendered(text, style, usable))
    decreases |text|
  {
    if text != "" {
      var t := First(text);
      FirstReads(text);
      RenderedIsBounded(t.rest, style, usable);
      match t
      case Marked(mark, _, inner, _) => RenderedIsBounded(inner, Restyled(style, mark), usable);
      case Code(inner, _) => PiecesShowTheText(inner, style.(code := true));
      case Link(caption, url, _) => RenderedIsBounded(caption, style, usable);
      case Plain(piece, _) => PiecesShowTheText(piece, style);
    }
  }

  // ----- what is shown -----

  /** The first text can be had from the second by leaving out characters. */
  predicate Within(a: string, b: string)
    decreases |b|
  {
    a == "" || (b != "" && ((a[0] == b[0] && Within(a[1..], b[1..])) || Within(a, b[1..])))
  }

  lemma {:induction false} WithinConcat(a: string, b: string, c: string, d: string)
    requires Within(a, b) && Within(c, d)
    ensures Within(a + c, b + d)
    decreases |b|
  {
    if b == "" {
      assert a + c == c && b + d == d;
    } else {
      assert (b + d)[1..] == b[1..] + d;
      if a == "" || !(a[0] == b[0] && Within(a[1..], b[1..])) {
        WithinConcat(a, b[1..], c, d);
      } else {
        assert (a + c)[1..] == a[1..] + c;
        WithinConcat(a[1..], b[1..], c, d);
      }
    }
  }

  lemma {:induction false} WithinItself(a: string)
    ensures Within(a, a)
    decreases |a|
  {
    if a != "" {
      WithinItself(a[1..]);
    }
  }

  /** Text between two others. */
  lemma WithinMiddle(a: string, before: string, b: string, after: string, c: string, d: string)
    requires Within(a, b) && Within(c, d)
    ensures Within(a + c, before + b + after + d)
  {
    assert "" + a == a && a + "" == a;
    WithinConcat("", before, a, b);
    WithinConcat(a, before + b, "", after);
    WithinConcat(a, before + b + after, c, d);
  }

  lemma NothingShown(text: string)
    ensures Shown([]) == "" && Within("", text)
  {
  }

  /** Rendering shows characters of the text in their order and invents none. */
  lemma {:induction false} ShownIsWithinText(text: string, style: Style, usable: string -> Option<string>)
    ensures Within(Shown(Rendered(text, style, usable)), text)
    decreases |text|
  {
    hide First, Within, Pieces, Linked, Restyled, Shown, Bounded;
    assert Shown([]) == "" && Within("", text) by { NothingShown(text); }
    if text != "" {
      var t := First(text);
      FirstReads(text);
      var rest := Rendered(t.rest, style, usable);
      ShownIsWithinText(t.rest, style, usable);
      match t
      case Marked(mark, delimiter, inner, _) =>
        var items := Rendered(inner, Restyled(style, mark), usable);
        ShownIsWithinText(inner, Restyled(style, mark), usable);
        ShownConcat(items, rest);
        WithinMiddle(Shown(items), delimiter, inner, delimiter, Shown(rest), t.rest);
      case Code(inner, _) =>
        var items := Pieces(inner, style.(code := true));
        PiecesShowTheText(inner, style.(code := true));
        ShownConcat(items, rest);
        WithinItself(inner);
        WithinMiddle(Shown(items), "`", inner, "`", Shown(rest), t.rest);
      case Link(caption, url, _) =>
        var items := Linked(Rendered(caption, style, usable), usable(url));
        ShownIsWithinText(caption, style, usable);
        LinkedShowsTheSame(Rendered(caption, style, usable), usable(url));
        ShownConcat(items, rest);
        assert Spelling(t) == "[" + caption + ("](" + url + ")") + t.rest;
        WithinMiddle(Shown(items), "[", caption, "](" + url + ")", Shown(rest), t.rest);
      case Plain(piece, _) =>
        var items := Pieces(piece, style);
        PiecesShowTheText(piece, style);
        ShownConcat(items, rest);
        WithinItself(piece);
        WithinConcat(piece, piece, Shown(rest), t.rest);
    }
  }

  lemma {:induction false} OrdinaryConcat(a: string, b: string)
    ensures Ordinary(a + b) == Ordinary(a) + Ordinary(b)
    decreases |a|
  {
    if a == "" {
      assert a + b == b;
    } else {
      assert (a + b)[1..] == a[1..] + b;
      OrdinaryConcat(a[1..], b);
    }
  }

  lemma NoLinkInside(t: Token)
    requires '[' !in Spelling(t)
    ensures !t.Link? && '[' !in t.rest && ((t.Marked? || t.Code?) ==> '[' !in t.inner)
    ensures Ordinary("`") == ""
  {
    LinkHasBracket(t);
    assert forall c :: c in t.rest ==> c in Spelling(t);
    assert t.Marked? || t.Code? ==> forall c :: c in t.inner ==> c in Spelling(t);
    MarksAreNotOrdinary();
  }

  lemma LinkHasBracket(t: Token)
    ensures t.Link? ==> '[' in Spelling(t)
  {
    if t.Link? {
      assert Spelling(t)[0] == '[';
    }
  }

  /** Without links, nothing but marks is left out. */
  lemma {:induction false} OnlyMarksAreDropped(text: string, style: Style, usable: string -> Option<string>)
    requires '[' !in text
    ensures Ordinary(Shown(Rendered(text, style, usable))) == Ordinary(text)
    decreases |text|
  {
    NothingShown(text);
    hide First, Pieces, Linked, Restyled, Shown, Bounded, Ordinary;
    if text != "" {
      var t := First(text);
      FirstReads(text);
      NoLinkInside(t);
      OnlyMarksAreDropped(t.rest, style, usable);
      var rest := Rendered(t.rest, style, usable);
      match t
      case Marked(mark, delimiter, inner, _) =>
        var items := Rendered(inner, Restyled(style, mark), usable);
        OnlyMarksAreDropped(inner, Restyled(style, mark), usable);
        ShownConcat(items, rest);
        OrdinaryMiddle(Shown(items), delimiter, inner, Shown(rest), t.rest);
      case Code(inner, _) =>
        var items := Pieces(inner, style.(code := true));
        PiecesShowTheText(inner, style.(code := true));
        ShownConcat(items, rest);
        OrdinaryMiddle(Shown(items), "`", inner, Shown(rest), t.rest);
      case Plain(piece, _) =>
        PiecesShowTheText(piece, style);
        ShownConcat(Pieces(piece, style), rest);
        OrdinaryConcat(piece, Shown(rest));
        OrdinaryConcat(piece, t.rest);
    }
  }

  lemma OrdinaryMiddle(a: string, delimiter: string, b: string, c: string, d: string)
    requires Ordinary(a) == Ordinary(b) && Ordinary(c) == Ordinary(d) && Ordinary(delimiter) == ""
    ensures Ordinary(a + c) == Ordinary(delimiter + b + delimiter + d)
  {
    OrdinaryConcat(a, c);
    OrdinaryConcat(delimiter, b);
    OrdinaryConcat(delimiter + b, delimiter);
    OrdinaryConcat(delimiter + b + delimiter, d);
  }

  // ----- styles -----

  predicate Includes(a: Style, b: Style) {
    (b.bold ==> a.bold) && (b.italic ==> a.italic) && (b.strikethrough ==> a.strikethrough) && (b.code ==> a.code)
  }

  predicate AllInclude(items: seq<Segment>, style: Style) {
    forall i | 0 <= i < |items| :: Includes(items[i].style, style)
  }

  lemma {:induction false} PiecesHaveStyle(text: string, style: Style)
    ensures forall i | 0 <= i < |Pieces(text, style)| :: Pieces(text, style)[i].style == style
    decreases |text|
  {
    if |text| > MAX_TEXT_LENGTH {
      PiecesHaveStyle(text[MAX_TEXT_LENGTH..], style);
    }
  }

  /** Whatever is nested in marked text carries its style, at any depth. */
  lemma {:induction false} StylesNest(text: string, style: Style, usable: string -> Option<string>)
    ensures AllInclude(Rendered(text, style, usable), style)
    decreases |text|
  {
    hide First, Pieces;
    if text != "" {
      var t := First(text);
      FirstReads(text);
      StylesNest(t.rest, style, usable);
      match t
      case Marked(mark, _, inner, _) => StylesNest(inner, Restyled(style, mark), usable);
      case Code(inner, _) => PiecesHaveStyle(inner, style.(code := true));
      case Link(caption, url, _) => StylesNest(caption, style, usable);
      case Plain(piece, _) => PiecesHaveStyle(piece, style);
    }
  }

  function MarkOf(delimiter: string): Option<Mark> {
    if delimiter == "**" || delimiter == "__" then Some(Bold)
    else if delimiter == "~~" then Some(Strikethrough)
    else if delimiter == "*" || delimiter == "_" then Some(Italic)
    else None
  }

  /** Text between two equal marks is rendered in the style of the mark, up to the first mark
      that closes it; the rest follows in the style there was. */
  lemma MarksMean(delimiter: string, inner: string, rest: string, style: Style, usable: string -> Option<string>)
    requires delimiter in {"**", "__", "~~", "*", "_"} && FirstAt(inner + delimiter + rest, delimiter, |inner|)
    requires |delimiter| == 1 ==> (inner + delimiter)[0] != delimiter[0]
    ensures var marked := if delimiter == "**" || delimiter == "__" then style.(bold := true)
                          else if delimiter == "~~" then style.(strikethrough := true)
                          else style.(italic := true);
      Rendered(delimiter + inner + delimiter + rest, style, usable)
      == Rendered(inner, marked, usable) + Rendered(rest, style, usable)
  {
    assert MarkOf(delimiter).Some?;
    Restyling(style, MarkOf(delimiter).value);
    hide Rendered, Restyled, First, Index, MarkedToken;
    var text, tail := delimiter + inner + delimiter + rest, inner + delimiter + rest;
    IndexIsFirst(tail, delimiter, |inner|);
    Spelled(delimiter, inner, rest);
    MarkedIs(text, MarkOf(delimiter).value, |delimiter|);
    FirstIsMarked(text, delimiter);
    RenderedMarked(text, MarkOf(delimiter).value, delimiter, inner, rest, style, usable);
  }

  lemma Restyling(style: Style, mark: Mark)
    ensures Restyled(style, mark) == match mark
                                     case Bold => style.(bold := true)
                                     case Strikethrough => style.(strikethrough := true)
                                     case Italic => style.(italic := true)
  {
  }

  /** Text between two backticks is code as it stands. */
  lemma CodeMeans(inner: string, rest: string, style: Style, usable: string -> Option<string>)
    requires '`' !in inner
    ensures Rendered("`" + inner + "`" + rest, style, usable)
         == Pieces(inner, style.(code := true)) + Rendered(rest, style, usable)
  {
    var text, tail := "`" + inner + "`" + rest, inner + "`" + rest;
    assert text[1..] == tail && tail[..|inner|] == inner && tail[|inner| + 1..] == rest;
    assert OccursAt(tail, "`", |inner|);
    forall j: nat | j < |inner| ensures !OccursAt(tail, "`", j) {
      assert tail[j] in inner && tail[j..j + 1] == [tail[j]];
    }
    IndexIsFirst(tail, "`", |inner|);
    FirstIsCode(text, inner, rest);
    FirstReads(text);
    hide First, Index, Pieces;
  }

  lemma FirstIsCode(text: string, inner: string, rest: string)
    requires text != "" && text[0] == '`' && Index(text[1..], "`") == Some(|inner|)
    requires text == "`" + inner + "`" + rest
    ensures First(text) == Code(inner, rest)
  {
    hide MarkedToken, LinkToken, PlainToken, Index;
    assert text[1..1 + |inner|] == inner && text[1 + |inner| + 1..] == rest;
    assert text[..1] == "`";
  }

  /** A caption in brackets with an address behind it is rendered like any text, with the address
      as the link of all its segments if it is usable. */
  lemma LinkMeans(caption: string, url: string, rest: string, style: Style, usable: string -> Option<string>)
    requires FirstAt("[" + caption + "](" + url + ")" + rest, "](", 1 + |caption|) && ')' !in url
    ensures var shown, all := Rendered(caption, style, usable),
                              Rendered("[" + caption + "](" + url + ")" + rest, style, usable);
      && |all| >= |shown| && all[|shown|..] == Rendered(rest, style, usable)
      && forall i | 0 <= i < |shown| ::
           all[i] == if usable(url).Some? then shown[i].(link := usable(url)) else shown[i]
  {
    var text, tail := "[" + caption + "](" + url + ")" + rest, url + ")" + rest;
    assert text[1..1 + |caption|] == caption && text[1 + |caption| + 2..] == tail;
    assert tail[..|url|] == url && tail[|url| + 1..] == rest;
    assert OccursAt(tail, ")", |url|);
    forall j: nat | j < |url| ensures !OccursAt(tail, ")", j) {
      assert tail[j] in url && tail[j..j + 1] == [tail[j]];
    }
    IndexIsFirst(text, "](", 1 + |caption|);
    IndexIsFirst(tail, ")", |url|);
    FirstIsLink(text, caption, url, rest);
    FirstReads(text);
    hide First, Index;
  }

  lemma FirstIsLink(text: string, caption: string, url: string, rest: string)
    requires text == "[" + caption + "](" + url + ")" + rest && Index(text, "](") == Some(1 + |caption|)
    requires Index(text[1 + |caption| + 2..], ")") == Some(|url|)
    ensures First(text) == Link(caption, url, rest)
  {
    hide MarkedToken, PlainToken, Index;
    var n := 1 + |caption|;
    assert text[1..n] == caption && text[n + 2..n + 2 + |url|] == url && text[n + 2 + |url| + 1..] == rest;
    assert text[0] == '[';
  }

  /** The text in front of the first special character keeps the style there is, and what begins
      with that character is rendered like any text. */
  lemma PlainMeans(text: string, rest: string, style: Style, usable: string -> Option<string>)
    requires (forall c | c in text :: c !in "`[*_~!") && (rest != "" ==> rest[0] in "`[*_~!")
    ensures Rendered(text + rest, style, usable) == Pieces(text, style) + Rendered(rest, style, usable)
  {
    if text == "" {
      assert text + rest == rest;
    } else {
      FirstIsPlain(text, rest);
      FirstReads(text + rest);
      hide First, Pieces;
    }
  }

  lemma FirstIsPlain(text: string, rest: string)
    requires text != "" && (forall c | c in text :: c !in "`[*_~!") && (rest != "" ==> rest[0] in "`[*_~!")
    ensures First(text + rest) == Plain(text, rest)
  {
    var all := text + rest;
    var n := IndexAny(all, SPECIAL);
    assert forall i | 0 <= i < |text| :: all[i] == text[i] && text[i] in text;
    assert rest != "" ==> all[|text|] == rest[0];
    assert text[0] in text && n == |text| && all[..n] == text && all[n..] == rest;
  }

  lemma Spelled(delimiter: string, inner: string, rest: string)
    requires delimiter != ""
    ensures var text, d, n := delimiter + inner + delimiter + rest, |delimiter|, |inner|;
      && text[..d] == delimiter && text[d..] == inner + delimiter + rest && HasPrefix(text, delimiter)
      && text[d..d + n] == inner && text[d + n + d..] == rest
      && (d == 1 && (inner + delimiter)[0] != delimiter[0] ==> !HasPrefix(text, delimiter + delimiter))
  {
    var text := delimiter + inner + delimiter + rest;
    assert text == delimiter + (inner + delimiter) + rest;
    assert |delimiter| == 1 ==> text[1] == (inner + delimiter)[0] && (delimiter + delimiter)[1] == delimiter[0];
  }

  lemma RenderedMarked(text: string, mark: Mark, delimiter: string, inner: string, rest: string,
                       style: Style, usable: string -> Option<string>)
    requires text != "" && First(text) == Marked(mark, delimiter, inner, rest)
    ensures Rendered(text, style, usable)
            == Rendered(inner, Restyled(style, mark), usable) + Rendered(rest, style, usable)
  {
    FirstReads(text);
  }

  lemma FirstIsMarked(text: string, delimiter: string)
    requires MarkOf(delimiter).Some? && HasPrefix(text, delimiter)
    requires |delimiter| == 1 ==> !HasPrefix(text, delimiter + delimiter)
    ensures First(text) == MarkedToken(text, MarkOf(delimiter).value, |delimiter|)
  {
    hide MarkedToken, LinkToken, PlainToken, Index;
    PrefixIs(text, delimiter);
    assert text[0] == delimiter[0];
    assert |delimiter| == 1 && |text| > 1 ==>
        text[..2] == [text[0], text[1]] && delimiter + delimiter == [text[0], text[0]];
  }
}
