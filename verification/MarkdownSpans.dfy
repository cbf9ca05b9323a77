/** Printing spans as inline Markdown and reading them back (`lib/src/document_markdown.rs`): words, code,
    emphasis and links, nested and one after another in any way that keeps delimiters apart. */
module MarkdownSpans {
  import opened Basics
  import opened MarkdownInline

  datatype Span =
    | Words(text: string)
    | Verbatim(text: string)
    | Emph(e: Emphasis, kids: seq<Span>)
    | Anchor(href: string, kids: seq<Span>)

  // ---- Printing -----------------------------------------------------------------------------

  /** Which characters have to be escaped. */
  function MarkupFlags(s: string): (r: seq<bool>)
    ensures EscapesMarkup(s, r)
  {
    seq(|s|, k requires 0 <= k < |s| => IsMarkup(s[k]))
  }

  function PrintedOne(span: Span): string
    decreases span, 0
  {
    match span
    case Words(text) => Escaped(text, MarkupFlags(text))
    case Verbatim(text) => "`" + text + "`"
    case Emph(e, kids) => Delimiter(e) + Printed(kids) + Delimiter(e)
    case Anchor(href, kids) => "[" + Printed(kids) + "](" + href + ")"
  }

  function Printed(spans: seq<Span>): string
    decreases spans
  {
    if spans == [] then "" else PrintedOne(spans[0]) + Printed(spans[1..])
  }

  /** The runs that spans stand for. */
  function RunsOfOne(span: Span, marks: Marks): seq<Run>
    decreases span, 0
  {
    match span
    case Words(text) => [Run(text, marks)]
    case Verbatim(text) => [Run(text, marks["code" := Plain])]
    case Emph(e, kids) => RunsOf(kids, marks[MarkName(e) := Plain])
    case Anchor(href, kids) => RunsOf(kids, marks["link" := Link(href)])
  }

  function RunsOf(spans: seq<Span>, marks: Marks): seq<Run>
    decreases spans
  {
    if spans == [] then [] else RunsOfOne(spans[0], marks) + RunsOf(spans[1..], marks)
  }

  // ---- Which spans can be read back -----------------------------------------------------------

  predicate EndsInWord(word: Alphabet, s: string) {
    s != "" && (word(s[|s| - 1]) || s[|s| - 1] == '_')
  }

  /** The closing delimiter shows no earlier than where it stands. */
  predicate Unbroken(inner: string, delim: string) {
    inner != "" && forall k | 0 <= k < |inner| :: !At(inner + delim, k, delim)
  }

  /** What a link's name and address must not hold. */
  predicate IsAnchor(inner: string, href: string) {
    inner != "" && ']' !in inner && href != "" && forall c :: c in href ==> c != ')' && !IsSpace(c)
  }

  predicate ReadableOne(word: Alphabet, span: Span, before: string)
    decreases span, 0
  {
    match span
    case Words(text) => text != ""
    case Verbatim(text) => text != "" && '`' !in text
    case Emph(e, kids) =>
      && (e.Underscore? ==> !EndsInWord(word, before))
      && Unbroken(Printed(kids), Delimiter(e)) && Readable(word, kids, "")
    case Anchor(href, kids) => IsAnchor(Printed(kids), href) && Readable(word, kids, "")
  }

  /** After the text before them, the spans keep their delimiters apart, and no two neighbours are words. */
  predicate Readable(word: Alphabet, spans: seq<Span>, before: string)
    decreases spans
  {
    spans == []
    || (&& ReadableOne(word, spans[0], before)
        && (spans[0].Words? && |spans| > 1 ==> !spans[1].Words?)
        && Readable(word, spans[1..], before + PrintedOne(spans[0])))
  }

  // ---- What starts where a span was printed ---------------------------------------------------

  lemma VerbatimStarts(word: Alphabet, before: string, text: string, tail: string)
    requires text != "" && '`' !in text
    ensures ConstructAt(word, before + ("`" + text + "`") + tail, |before|) == Code(|before| + 1 + |text|)
  {
    var chars, i := before + ("`" + text + "`") + tail, |before|;
    var end := i + 1 + |text|;
    assert chars[end..end + 1] == "`";
    forall k | i + 1 <= k < end ensures !At(chars, k, "`") {
      assert chars[k] == text[k - i - 1];
      assert chars[k..k + 1] == [chars[k]];
    }
    FoundAt(chars, "`", i + 1, end);
  }

  lemma FoundAt(chars: string, pat: string, from: nat, at: nat)
    requires from <= at && At(chars, at, pat) && forall k | from <= k < at :: !At(chars, k, pat)
    ensures Find(chars, pat, from) == Some(at)
  {
  }

  /** A pattern shows in the middle of a text exactly where it shows in the middle alone. */
  lemma AtWithin(a: string, mid: string, b: string, k: nat, pat: string)
    requires k + |pat| <= |mid|
    ensures At(a + mid + b, |a| + k, pat) <==> At(mid, k, pat)
  {
    assert (a + mid + b)[|a| + k..|a| + k + |pat|] == mid[k..k + |pat|];
  }

  lemma ClosingAt(before: string, inner: string, delim: string, tail: string)
    requires Unbroken(inner, delim) && delim != ""
    ensures Find(before + (delim + inner + delim) + tail, delim, |before| + |delim|) == Some(|before| + |delim| + |inner|)
  {
    hide Find, At;
    var chars, a := before + (delim + inner + delim) + tail, before + delim;
    assert chars == a + (inner + delim) + tail;
    AtWithin(a, inner + delim, tail, |inner|, delim);
    assert At(inner + delim, |inner|, delim) by { EndsWith(inner + delim, |inner|, delim); }
    forall k: nat | |a| <= k < |a| + |inner| ensures !At(chars, k, delim) {
      assert !At(inner + delim, k - |a|, delim);
      AtWithin(a, inner + delim, tail, k - |a|, delim);
    }
    FoundAt(chars, delim, |a|, |a| + |inner|);
  }

  lemma EmphStarts(word: Alphabet, before: string, e: Emphasis, inner: string, tail: string)
    requires Unbroken(inner, Delimiter(e)) && (e.Underscore? ==> !EndsInWord(word, before))
    ensures var w := |Delimiter(e)|;
            ConstructAt(word, before + (Delimiter(e) + inner + Delimiter(e)) + tail, |before|) ==
            Marked(MarkName(e), Plain, |before| + w, |before| + w + |inner|, |before| + 2 * w + |inner|)
  {
    hide Find, At, Unbroken;
    var d, i := Delimiter(e), |before|;
    var chars := before + (d + inner + d) + tail;
    assert "**" == ['*', '*'] && "~~" == ['~', '~'];
    assert |inner| > 0 by { NotEmpty(inner, d); }
    ClosingAt(before, inner, d, tail);
    assert chars[i] == d[0] && chars[i + 1] == (d + inner)[1];
    assert forall pat: string | |pat| == 2 :: At(chars, i, pat) <==> [chars[i], chars[i + 1]] == pat by {
      PairAt(chars, i);
    }
    if e.Star? { assert inner[0] != '*' by { FirstIsOther(inner, d); } }
    if i > 0 { assert chars[i - 1] == before[i - 1]; }
  }

  lemma NotEmpty(inner: string, d: string)
    requires Unbroken(inner, d)
    ensures inner != ""
  {
  }

  lemma PairAt(chars: string, i: nat)
    requires i + 2 <= |chars|
    ensures forall pat: string | |pat| == 2 :: At(chars, i, pat) <==> [chars[i], chars[i + 1]] == pat
  {
    assert chars[i..i + 2] == [chars[i], chars[i + 1]];
  }

  lemma FirstIsOther(inner: string, d: string)
    requires Unbroken(inner, d) && |d| == 1
    ensures inner[0] != d[0]
  {
    assert !At(inner + d, 0, d);
    assert (inner + d)[0..1] == [inner[0]];
  }

  lemma AddressStopsAt(chars: string, from: nat, stop: nat)
    requires from <= stop < |chars| && chars[stop] == ')'
    requires forall k | from <= k < stop :: chars[k] != ')' && !IsSpace(chars[k])
    ensures AddressEnd(chars, from) == stop
  {
    hide IsSpace;
  }

  lemma AnchorStarts(word: Alphabet, before: string, inner: string, href: string, tail: string)
    requires IsAnchor(inner, href)
    ensures ConstructAt(word, before + ("[" + inner + "](" + href + ")") + tail, |before|) ==
            Marked("link", Link(href), |before| + 1, |before| + 1 + |inner|, |before| + 4 + |inner| + |href|)
  {
    hide Find, AddressEnd, IsSpace;
    assert "](" == [']', '('];
    var i := |before|;
    var chars := before + ("[" + inner + "](" + href + ")") + tail;
    var close := i + 1 + |inner|;
    assert chars[close..close + 1] == "]";
    forall k | i + 1 <= k < close ensures !At(chars, k, "]") {
      assert chars[k] == inner[k - i - 1];
      assert chars[k..k + 1] == [chars[k]];
    }
    FoundAt(chars, "]", i + 1, close);
    assert chars[close + 1] == '(';
    var stop := close + 2 + |href|;
    assert chars[stop] == ')' && chars[close + 2..stop] == href;
    forall k | close + 2 <= k < stop ensures chars[k] != ')' && !IsSpace(chars[k]) {
      assert chars[k] == href[k - close - 2] && href[k - close - 2] in href;
    }
    AddressStopsAt(chars, close + 2, stop);
    assert chars[i] == '[' && chars[i..i + 2] == ['[', chars[i + 1]];
    assert "**"[0] == '*' && "~~"[0] == '~';
  }

  // ---- And only there ---------------------------------------------------------------------------

  lemma AtJoin(chars: string, i: nat, a: string, b: string)
    requires At(chars, i, a) && At(chars, i + |a|, b)
    ensures At(chars, i, a + b)
  {
    assert chars[i..i + |a + b|] == chars[i..i + |a|] + chars[i + |a|..i + |a| + |b|];
  }

  lemma AtSplits(chars: string, i: nat, one: string, open: string, inner: string, close: string)
    requires one == open + inner + close && At(chars, i, one)
    ensures chars == chars[..i] + one + chars[i + |one|..] && At(chars, i + |open|, inner) && |chars[..i]| == i
  {
    assert chars[i..i + |one|][|open|..|open| + |inner|] == inner;
  }

  lemma NoneInside(chars: string, i: nat, text: string, c: char)
    requires At(chars, i, text) && forall k | i <= k < i + |text| :: !At(chars, k, [c])
    ensures c !in text
  {
    forall k | 0 <= k < |text| ensures text[k] != c {
      assert !At(chars, i + k, [c]);
      assert chars[i + k..i + k + 1] == [chars[i + k]] && chars[i + k] == chars[i..i + |text|][k];
    }
  }

  /** A link is read exactly where one is written: a name without a closing bracket, and an address without
      a closing parenthesis or white space, neither empty. */
  lemma AnchorIff(word: Alphabet, chars: string, i: nat, inner: string, href: string)
    requires i < |chars| && chars[i] == '['
    ensures At(chars, i, "[" + inner + "](" + href + ")") && IsAnchor(inner, href) <==>
            ConstructAt(word, chars, i) == Marked("link", Link(href), i + 1, i + 1 + |inner|, i + 4 + |inner| + |href|)
            && At(chars, i + 1, inner)
  {
    hide Find, AddressEnd, ConstructAt, IsSpace, At, IsAnchor;
    var one, close := "[" + inner + "](" + href + ")", "](" + href + ")";
    assert one == "[" + inner + close;
    if At(chars, i, one) && IsAnchor(inner, href) {
      AtSplits(chars, i, one, "[", inner, close);
      AnchorStarts(word, chars[..i], inner, href, chars[i + |one|..]);
    }
    if ConstructAt(word, chars, i) == Marked("link", Link(href), i + 1, i + 1 + |inner|, i + 4 + |inner| + |href|)
       && At(chars, i + 1, inner)
    {
      AnchorRead(word, chars, i, inner, href);
    }
  }

  lemma BracketStartsLink(word: Alphabet, chars: string, i: nat)
    requires i < |chars| && chars[i] == '['
    ensures ConstructAt(word, chars, i) == LinkAt(chars, i)
  {
    hide LinkAt, WrappedAt;
    assert "**"[0] == '*' && "~~"[0] == '~';
    assert i + 2 <= |chars| ==> chars[i..i + 2][0] == '[';
  }

  lemma AnchorRead(word: Alphabet, chars: string, i: nat, inner: string, href: string)
    requires i < |chars| && chars[i] == '[' && At(chars, i + 1, inner)
    requires ConstructAt(word, chars, i) == Marked("link", Link(href), i + 1, i + 1 + |inner|, i + 4 + |inner| + |href|)
    ensures At(chars, i, "[" + inner + "](" + href + ")") && IsAnchor(inner, href)
  {
    hide IsSpace, ConstructAt;
    BracketStartsLink(word, chars, i);
    var close := i + 1 + |inner|;
    var end := close + 2 + |href|;
    assert chars[close + 2..end] == href;
    NoneInside(chars, i + 1, inner, ']');
    forall k | 0 <= k < |href| ensures href[k] != ')' && !IsSpace(href[k]) { assert href[k] == chars[close + 2 + k]; }
    AnchorPieces(chars, i, inner, href);
  }

  lemma AnchorPieces(chars: string, i: nat, inner: string, href: string)
    requires i + 4 + |inner| + |href| <= |chars| && chars[i] == '[' && At(chars, i + 1, inner)
    requires At(chars, i + 1 + |inner|, "]") && chars[i + 2 + |inner|] == '('
    requires At(chars, i + 3 + |inner|, href) && chars[i + 3 + |inner| + |href|] == ')'
    ensures At(chars, i, "[" + inner + "](" + href + ")")
  {
    AtJoin(chars, i, "[", inner);
    AtJoin(chars, i, "[" + inner, "]");
    AtJoin(chars, i, "[" + inner + "]", "(");
    AtJoin(chars, i, "[" + inner + "]" + "(", href);
    AtJoin(chars, i, "[" + inner + "]" + "(" + href, ")");
    assert "[" + inner + "]" + "(" + href + ")" == "[" + inner + "](" + href + ")";
  }

  /** Code is read exactly where it is written, without a backquote inside. */
  lemma VerbatimIff(word: Alphabet, chars: string, i: nat, text: string)
    requires i < |chars| && chars[i] == '`'
    ensures At(chars, i, "`" + text + "`") && text != "" && '`' !in text <==>
            ConstructAt(word, chars, i) == Code(i + 1 + |text|) && At(chars, i + 1, text)
  {
    hide Find, At, ConstructAt;
    var one := "`" + text + "`";
    if At(chars, i, one) && text != "" && '`' !in text {
      AtSplits(chars, i, one, "`", text, "`");
      VerbatimStarts(word, chars[..i], text, chars[i + |one|..]);
    }
    if ConstructAt(word, chars, i) == Code(i + 1 + |text|) && At(chars, i + 1, text) { VerbatimRead(word, chars, i, text); }
  }

  lemma VerbatimRead(word: Alphabet, chars: string, i: nat, text: string)
    requires i < |chars| && chars[i] == '`' && ConstructAt(word, chars, i) == Code(i + 1 + |text|) && At(chars, i + 1, text)
    ensures At(chars, i, "`" + text + "`") && text != "" && '`' !in text
  {
    hide Find;
    NoneInside(chars, i + 1, text, '`');
    AtJoin(chars, i, "`", text);
    AtJoin(chars, i, "`" + text, "`");
  }

  /** Emphasis is read exactly where it is written, up to the first place its delimiter shows again. */
  lemma WrappedIff(chars: string, i: nat, delim: string, name: string, inner: string)
    requires At(chars, i, delim) && delim != ""
    ensures At(chars, i, delim + inner + delim) && Unbroken(inner, delim) <==>
            WrappedAt(chars, i, delim, name) == Marked(name, Plain, i + |delim|, i + |delim| + |inner|, i + 2 * |delim| + |inner|)
            && At(chars, i + |delim|, inner)
  {
    hide Find, At, Unbroken;
    var one, w := delim + inner + delim, |delim|;
    if At(chars, i, one) && Unbroken(inner, delim) {
      AtSplits(chars, i, one, delim, inner, delim);
      ClosingAt(chars[..i], inner, delim, chars[i + |one|..]);
      NotEmpty(inner, delim);
    }
    if WrappedAt(chars, i, delim, name) == Marked(name, Plain, i + w, i + w + |inner|, i + 2 * w + |inner|) && At(chars, i + w, inner) {
      WrappedRead(chars, i, delim, inner);
    }
  }

  lemma WrappedRead(chars: string, i: nat, delim: string, inner: string)
    requires At(chars, i, delim) && inner != "" && At(chars, i + |delim|, inner)
    requires Find(chars, delim, i + |delim|) == Some(i + |delim| + |inner|)
    ensures At(chars, i, delim + inner + delim) && Unbroken(inner, delim)
  {
    hide Find;
    var w := |delim|;
    AtJoin(chars, i, delim, inner);
    AtJoin(chars, i, delim + inner, delim);
    AtJoin(chars, i + w, inner, delim);
    var both := inner + delim;
    assert chars[i + w..i + w + |both|] == both;
    forall k | 0 <= k < |inner| ensures !At(both, k, delim) {
      assert !At(chars, i + w + k, delim);
      assert chars[i + w + k..i + w + k + w] == both[k..k + w];
    }
  }

  // ---- Spans read back ------------------------------------------------------------------------

  /** Reading a printed span that is not words: what it stands for goes to the runs. */
  lemma ScanVerbatim(word: Alphabet, before: string, text: string, tail: string, literal: string, runs: seq<Run>, marks: Marks)
    requires text != "" && '`' !in text
    ensures var one := "`" + text + "`";
            Scan(word, before + one + tail, |before|, literal, runs, marks) ==
            Scan(word, before + one + tail, |before + one|, "", Flushed(runs, literal, marks) + [Run(text, marks["code" := Plain])], marks)
  {
    hide Scan, ConstructAt, Flushed;
    VerbatimStarts(word, before, text, tail);
    InnerSlice(before, "`", text, "`", tail);
    ScanCode(word, before + ("`" + text + "`") + tail, |before|, |before| + 1 + |text|, literal, runs, marks);
  }

  /** The same of a span around others, given what starts there. */
  lemma ScanAround(word: Alphabet, before: string, open: string, inner: string, close: string, tail: string, name: string, mark: Mark,
      literal: string, runs: seq<Run>, marks: Marks)
    requires open != "" && open[0] != '\\'
    requires ConstructAt(word, before + (open + inner + close) + tail, |before|) ==
             Marked(name, mark, |before + open|, |before + open + inner|, |before + open + inner + close|)
    ensures var one := open + inner + close;
            Scan(word, before + one + tail, |before|, literal, runs, marks) ==
            Scan(word, before + one + tail, |before + one|, "", Flushed(runs, literal, marks) + Inline(word, inner, marks[name := mark]), marks)
  {
    hide Scan, ConstructAt, Inline, Flushed;
    var chars := before + (open + inner + close) + tail;
    InnerSlice(before, open, inner, close, tail);
    ScanMarked(word, chars, |before|, ConstructAt(word, chars, |before|), literal, runs, marks);
  }

  lemma {:induction false} ScanOneSpan(word: Alphabet, before: string, span: Span, tail: string, literal: string, runs: seq<Run>, marks: Marks)
    requires !span.Words? && ReadableOne(word, span, before)
    ensures var one := PrintedOne(span);
            Scan(word, before + one + tail, |before|, literal, runs, marks) ==
            Scan(word, before + one + tail, |before + one|, "", Flushed(runs, literal, marks) + RunsOfOne(span, marks), marks)
    decreases span
  {
    hide Scan, ConstructAt, Inline, Flushed, Readable, Printed, IsSpace, Unbroken, RunsOf;
    match span
    case Verbatim(text) =>
      ScanVerbatim(word, before, text, tail, literal, runs, marks);
    case Emph(e, kids) =>
      EmphStarts(word, before, e, Printed(kids), tail);
      ScanAround(word, before, Delimiter(e), Printed(kids), Delimiter(e), tail, MarkName(e), Plain, literal, runs, marks);
      SpansReadBack(word, kids, marks[MarkName(e) := Plain]);
    case Anchor(href, kids) =>
      AnchorStarts(word, before, Printed(kids), href, tail);
      var close := "](" + href + ")";
      assert PrintedOne(span) == "[" + Printed(kids) + close;
      ScanAround(word, before, "[", Printed(kids), close, tail, "link", Link(href), literal, runs, marks);
      SpansReadBack(word, kids, marks["link" := Link(href)]);
  }

  /** Reading on from where the spans were printed, whatever was read before. */
  lemma {:induction false} ScanSpans(word: Alphabet, before: string, spans: seq<Span>, literal: string, runs: seq<Run>, marks: Marks)
    requires Readable(word, spans, before) && (literal != "" && spans != [] ==> !spans[0].Words?)
    ensures Scan(word, before + Printed(spans), |before|, literal, runs, marks) == Flushed(runs, literal, marks) + RunsOf(spans, marks)
    decreases spans, 1
  {
    hide Scan, ReadableOne, Readable, PrintedOne, Printed, RunsOfOne, RunsOf, Flushed;
    Unfold(word, spans, before, marks);
    if spans == [] {
      ScanAtEnd(word, before, literal, runs, marks);
    } else {
      var span, tail := spans[0], Printed(spans[1..]);
      var one, rest := PrintedOne(span), RunsOf(spans[1..], marks);
      assert before + (one + tail) == before + one + tail;
      if span.Words? {
        ScanWords(word, before, span, tail, runs, marks);
        ScanSpans(word, before + one, spans[1..], span.text, runs, marks);
        FlushedOnce(runs, span.text, marks);
        assert runs + [Run(span.text, marks)] + rest == runs + ([Run(span.text, marks)] + rest);
      } else {
        var runs', mine := Flushed(runs, literal, marks), RunsOfOne(span, marks);
        ScanOneSpan(word, before, span, tail, literal, runs, marks);
        ScanSpans(word, before + one, spans[1..], "", runs' + mine, marks);
        FlushedOnce(runs' + mine, "", marks);
        assert runs' + mine + rest == runs' + (mine + rest);
      }
    }
  }

  lemma Unfold(word: Alphabet, spans: seq<Span>, before: string, marks: Marks)
    requires Readable(word, spans, before)
    ensures spans == [] ==> Printed(spans) == "" && RunsOf(spans, marks) == []
    ensures spans != [] ==>
              && ReadableOne(word, spans[0], before) && Readable(word, spans[1..], before + PrintedOne(spans[0]))
              && (spans[0].Words? && |spans| > 1 ==> !spans[1].Words?)
              && Printed(spans) == PrintedOne(spans[0]) + Printed(spans[1..])
              && RunsOf(spans, marks) == RunsOfOne(spans[0], marks) + RunsOf(spans[1..], marks)
  {
  }

  lemma FlushedOnce(runs: seq<Run>, literal: string, marks: Marks)
    ensures Flushed(runs, "", marks) == runs
    ensures literal != "" ==> Flushed(runs, literal, marks) == runs + [Run(literal, marks)]
  {
  }

  lemma ScanWords(word: Alphabet, before: string, span: Span, tail: string, runs: seq<Run>, marks: Marks)
    requires span.Words? && ReadableOne(word, span, before)
    ensures span.text != "" && RunsOfOne(span, marks) == [Run(span.text, marks)]
    ensures Scan(word, before + PrintedOne(span) + tail, |before|, "", runs, marks) ==
            Scan(word, before + PrintedOne(span) + tail, |before + PrintedOne(span)|, span.text, runs, marks)
  {
    hide Scan, Escaped, EscapesMarkup;
    ScanEscaped(word, before, span.text, MarkupFlags(span.text), tail, "", runs, marks);
    assert "" + span.text == span.text;
  }

  lemma InnerSlice(before: string, open: string, inner: string, close: string, tail: string)
    ensures (before + (open + inner + close) + tail)[|before| + |open|..|before| + |open| + |inner|] == inner
    ensures open != "" ==> (before + (open + inner + close) + tail)[|before|] == open[0]
  {
  }

  lemma ScanAtEnd(word: Alphabet, before: string, literal: string, runs: seq<Run>, marks: Marks)
    ensures Scan(word, before + "", |before|, literal, runs, marks) == Flushed(runs, literal, marks) + []
  {
    assert before + "" == before;
  }

  lemma ScanCode(word: Alphabet, chars: string, i: nat, end: nat, literal: string, runs: seq<Run>, marks: Marks)
    requires i < |chars| && ConstructAt(word, chars, i) == Code(end) && chars[i] != '\\'
    ensures i + 1 <= end < |chars|
    ensures Scan(word, chars, i, literal, runs, marks) ==
            Scan(word, chars, end + 1, "", Flushed(runs, literal, marks) + [Run(chars[i + 1..end], marks["code" := Plain])], marks)
  {
    hide ConstructAt;
  }

  lemma ScanMarked(word: Alphabet, chars: string, i: nat, c: Construct, literal: string, runs: seq<Run>, marks: Marks)
    requires i < |chars| && ConstructAt(word, chars, i) == c && c.Marked? && chars[i] != '\\'
    ensures i < c.from < c.to < c.next <= |chars|
    ensures Scan(word, chars, i, literal, runs, marks) ==
            Scan(word, chars, c.next, "", Flushed(runs, literal, marks) + Inline(word, chars[c.from..c.to], marks[c.name := c.mark]), marks)
  {
    hide ConstructAt;
  }

  /** Spans that keep their delimiters apart read back as themselves: every mark, every link's address and
      every character. */
  lemma SpansReadBack(word: Alphabet, spans: seq<Span>, marks: Marks)
    requires Readable(word, spans, "")
    ensures Inline(word, Printed(spans), marks) == RunsOf(spans, marks)
    decreases spans, 2
  {
    hide Readable, RunsOf, Scan;
    ScanSpans(word, "", spans, "", [], marks);
    assert "" + Printed(spans) == Printed(spans);
  }
}
