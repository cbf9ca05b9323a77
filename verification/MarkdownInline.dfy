/** Inline Markdown (`lib/src/document_markdown.rs`): text with marks, read by one scan that recurses into
    delimited slices. */
module MarkdownInline {
  import opened Basics

  datatype Mark = Plain | Link(href: string)
  type Marks = map<string, Mark>
  datatype Run = Run(text: string, marks: Marks)

  /** Which characters besides `_` make up words. */
  type Alphabet = char -> bool

  predicate IsSpace(c: char) {
    || '\t' <= c <= '\r' || c == ' ' || c == '\U{85}' || c == '\U{A0}' || c == '\U{1680}' || '\U{2000}' <= c <= '\U{200A}'
    || c == '\U{2028}' || c == '\U{2029}' || c == '\U{202F}' || c == '\U{205F}' || c == '\U{3000}'
  }

  // ---- Finding delimiters -------------------------------------------------------------------

  predicate At(chars: string, at: nat, pat: string) {
    at + |pat| <= |chars| && chars[at..at + |pat|] == pat
  }

  /** The first place a pattern stands, at or after `from`. */
  function Find(chars: string, pat: string, from: nat): (r: Option<nat>)
    ensures r.Some? ==> from <= r.value && At(chars, r.value, pat) && forall k | from <= k < r.value :: !At(chars, k, pat)
    ensures r.None? ==> forall k | from <= k :: !At(chars, k, pat)
    decreases |chars| - from
  {
    if from + |pat| > |chars| then None
    else if At(chars, from, pat) then Some(from)
    else if from == |chars| then None
    else Find(chars, pat, from + 1)
  }

  /** The first character that ends a link's address. */
  function AddressEnd(chars: string, from: nat): (r: nat)
    requires from <= |chars|
    ensures from <= r <= |chars| && (r < |chars| ==> chars[r] == ')' || IsSpace(chars[r]))
    ensures forall k | from <= k < r :: chars[k] != ')' && !IsSpace(chars[k])
    decreases |chars| - from
  {
    if from == |chars| || chars[from] == ')' || IsSpace(chars[from]) then from else AddressEnd(chars, from + 1)
  }

  /** What starts at a position: the slice it marks, whether that slice is read for marks itself, and where
      reading goes on. */
  datatype Construct =
    | Nothing
    | Code(end: nat)
    | Marked(name: string, mark: Mark, from: nat, to: nat, next: nat)

  /** A delimiter pair around a non-empty slice. */
  function WrappedAt(chars: string, i: nat, delim: string, name: string): Construct {
    match Find(chars, delim, i + |delim|)
    case Some(end) => if end > i + |delim| then Marked(name, Plain, i + |delim|, end, end + |delim|) else Nothing
    case None => Nothing
  }

  function LinkAt(chars: string, i: nat): Construct
    requires i < |chars|
  {
    match Find(chars, "]", i + 1)
    case None => Nothing
    case Some(close) =>
      if close > i + 1 && close + 1 < |chars| && chars[close + 1] == '(' then
        var end := AddressEnd(chars, close + 2);
        if end > close + 2 && end < |chars| && chars[end] == ')' then
          Marked("link", Link(chars[close + 2..end]), i + 1, close, end + 1)
        else Nothing
      else Nothing
  }

  function ConstructAt(word: Alphabet, chars: string, i: nat): (r: Construct)
    requires i < |chars|
    ensures match r
            case Nothing => true
            case Code(end) => i + 1 < end < |chars|
            case Marked(_, _, from, to, next) => i < from < to < next <= |chars|
  {
    var c := chars[i];
    if c == '`' then
      (match Find(chars, "`", i + 1) case Some(end) => if end > i + 1 then Code(end) else Nothing case None => Nothing)
    else if At(chars, i, "**") then WrappedAt(chars, i, "**", "bold")
    else if At(chars, i, "~~") then WrappedAt(chars, i, "~~", "strike")
    else if c == '*' || (c == '_' && (i == 0 || !(word(chars[i - 1]) || chars[i - 1] == '_'))) then WrappedAt(chars, i, [c], "italic")
    else if c == '[' then LinkAt(chars, i)
    else Nothing
  }

  // ---- Reading ------------------------------------------------------------------------------

  function Flushed(runs: seq<Run>, literal: string, marks: Marks): seq<Run> {
    if literal == "" then runs else runs + [Run(literal, marks)]
  }

  function Inline(word: Alphabet, text: string, marks: Marks): seq<Run>
    decreases |text|, |text| + 1
  {
    Scan(word, text, 0, "", [], marks)
  }

  /** The runs of the text, from position `i` on, after the runs and the literal read so far. */
  function Scan(word: Alphabet, chars: string, i: nat, literal: string, runs: seq<Run>, marks: Marks): seq<Run>
    requires i <= |chars|
    decreases |chars|, |chars| - i
  {
    if i == |chars| then Flushed(runs, literal, marks)
    else if chars[i] == '\\' && i + 1 < |chars| then Scan(word, chars, i + 2, literal + [chars[i + 1]], runs, marks)
    else
      match ConstructAt(word, chars, i)
      case Nothing => Scan(word, chars, i + 1, literal + [chars[i]], runs, marks)
      case Code(end) =>
        Scan(word, chars, end + 1, "", Flushed(runs, literal, marks) + [Run(chars[i + 1..end], marks["code" := Plain])], marks)
      case Marked(name, mark, from, to, next) =>
        Scan(word, chars, next, "", Flushed(runs, literal, marks) + Inline(word, chars[from..to], marks[name := mark]), marks)
  }

  /** `parse_inline`: the loop over the characters. */
  method ParseInline(word: Alphabet, text: string, marks: Marks) returns (runs: seq<Run>)
    ensures runs == Inline(word, text, marks)
    decreases |text|
  {
    hide ConstructAt, Flushed;
    runs := [];
    var literal := "";
    var i := 0;
    while i < |text|
      invariant 0 <= i <= |text|
      invariant Scan(word, text, i, literal, runs, marks) == Inline(word, text, marks)
      decreases |text| - i
    {
      if text[i] == '\\' && i + 1 < |text| {
        literal := literal + [text[i + 1]];
        i := i + 2;
      } else {
        match ConstructAt(word, text, i) {
          case Nothing =>
            literal := literal + [text[i]];
            i := i + 1;
          case Code(end) =>
            runs := Flushed(runs, literal, marks) + [Run(text[i + 1..end], marks["code" := Plain])];
            literal := "";
            i := end + 1;
          case Marked(name, mark, from, to, next) =>
            var inner := ParseInline(word, text[from..to], marks[name := mark]);
            runs := Flushed(runs, literal, marks) + inner;
            literal := "";
            i := next;
        }
      }
    }
    runs := Flushed(runs, literal, marks);
  }

  // ---- Escaped text reads back ----------------------------------------------------------------

  /** The characters that can start a construct or an escape. */
  predicate IsMarkup(c: char) { c in {'\\', '`', '*', '~', '_', '['} }

  /** Text with a backslash before every character the flags select. */
  function Escaped(s: string, flags: seq<bool>): string
    requires |flags| == |s|
  {
    if s == "" then "" else (if flags[0] then ['\\', s[0]] else [s[0]]) + Escaped(s[1..], flags[1..])
  }

  predicate EscapesMarkup(s: string, flags: seq<bool>) {
    |flags| == |s| && forall k | 0 <= k < |s| :: IsMarkup(s[k]) ==> flags[k]
  }

  lemma ScanOne(word: Alphabet, chars: string, i: nat, c: char, flag: bool, literal: string, runs: seq<Run>, marks: Marks)
    requires i < |chars| && (if flag then i + 1 < |chars| && chars[i] == '\\' && chars[i + 1] == c else chars[i] == c && !IsMarkup(c))
    ensures Scan(word, chars, i, literal, runs, marks) == Scan(word, chars, if flag then i + 2 else i + 1, literal + [c], runs, marks)
  {
    hide ConstructAt;
    if !flag { PlainStartsNothing(word, chars, i); }
  }

  /** Reading escaped text takes all of it into the literal, whatever follows. */
  lemma {:induction false} ScanEscaped(word: Alphabet, before: string, s: string, flags: seq<bool>, tail: string, literal: string, runs: seq<Run>, marks: Marks)
    requires |flags| == |s| && EscapesMarkup(s, flags)
    ensures var chars := before + Escaped(s, flags) + tail;
            Scan(word, chars, |before|, literal, runs, marks) == Scan(word, chars, |before| + |Escaped(s, flags)|, literal + s, runs, marks)
    decreases |s|
  {
    hide Scan;
    var chars := before + Escaped(s, flags) + tail;
    if s == "" {
      assert literal + s == literal;
    } else {
      var head := if flags[0] then ['\\', s[0]] else [s[0]];
      var rest := Escaped(s[1..], flags[1..]);
      assert Escaped(s, flags) == head + rest;
      assert chars == (before + head) + rest + tail;
      assert chars[|before|..|before| + |head|] == head;
      assert chars[|before|] == head[0] && (flags[0] ==> chars[|before| + 1] == head[1]);
      ScanOne(word, chars, |before|, s[0], flags[0], literal, runs, marks);
      assert literal + s == (literal + [s[0]]) + s[1..];
      ScanEscaped(word, before + head, s[1..], flags[1..], tail, literal + [s[0]], runs, marks);
    }
  }

  lemma PlainStartsNothing(word: Alphabet, chars: string, i: nat)
    requires i < |chars| && !IsMarkup(chars[i])
    ensures ConstructAt(word, chars, i) == Nothing
  {
    assert "**"[0] == '*' && "~~"[0] == '~';
    assert chars[i..i + 1] == [chars[i]];
  }

  lemma ScanToEnd(word: Alphabet, s: string, flags: seq<bool>, tail: string, marks: Marks)
    requires |flags| == |s| && EscapesMarkup(s, flags)
    ensures Inline(word, Escaped(s, flags) + tail, marks) == Scan(word, Escaped(s, flags) + tail, |Escaped(s, flags)|, s, [], marks)
  {
    hide Scan, Escaped, EscapesMarkup;
    ScanEscaped(word, "", s, flags, tail, "", [], marks);
    assert "" + Escaped(s, flags) + tail == Escaped(s, flags) + tail && "" + s == s;
  }

  /** Text whose markup characters are escaped, whichever others are too, reads back as one run of that
      text. */
  lemma EscapedReadsBack(word: Alphabet, s: string, flags: seq<bool>, marks: Marks)
    requires |flags| == |s| && EscapesMarkup(s, flags)
    ensures Inline(word, Escaped(s, flags), marks) == if s == "" then [] else [Run(s, marks)]
  {
    hide Escaped, EscapesMarkup;
    ScanToEnd(word, s, flags, "", marks);
    assert Escaped(s, flags) + "" == Escaped(s, flags);
  }

  /** No character starts markup, except underscores that follow a character of a word. */
  predicate OnlyInsideWords(word: Alphabet, s: string) {
    forall k | 0 <= k < |s| :: IsMarkup(s[k]) ==> s[k] == '_' && k > 0 && (word(s[k - 1]) || s[k - 1] == '_')
  }

  /** Underscores inside words are not emphasis. */
  lemma InsideWordsReadsBack(word: Alphabet, s: string, marks: Marks)
    requires OnlyInsideWords(word, s) && s != ""
    ensures Inline(word, s, marks) == [Run(s, marks)]
  {
    hide Scan;
    ScanInsideWords(word, s, 0, "", marks);
    assert "" + s[0..] == s && [] + [Run(s, marks)] == [Run(s, marks)];
  }

  lemma {:induction false} ScanInsideWords(word: Alphabet, s: string, i: nat, literal: string, marks: Marks)
    requires OnlyInsideWords(word, s) && i <= |s|
    ensures Scan(word, s, i, literal, [], marks) == Flushed([], literal + s[i..], marks)
    decreases |s| - i
  {
    hide ConstructAt;
    if i == |s| {
      assert literal + s[i..] == literal;
    } else {
      InsideWordStartsNothing(word, s, i);
      assert literal + s[i..] == (literal + [s[i]]) + s[i + 1..];
      ScanInsideWords(word, s, i + 1, literal + [s[i]], marks);
    }
  }

  lemma InsideWordStartsNothing(word: Alphabet, s: string, i: nat)
    requires OnlyInsideWords(word, s) && i < |s|
    ensures ConstructAt(word, s, i) == Nothing
  {
    assert "**"[0] == '*' && "~~"[0] == '~';
    assert i + 2 <= |s| ==> s[i..i + 2][0] == s[i];
  }

  // ---- Delimited text reads back exactly when no delimiter shows early ---------------------------

  function AllOf(n: nat): (r: seq<bool>)
    ensures |r| == n && forall k | 0 <= k < n :: r[k]
  {
    seq(n, i => true)
  }

  /** Text with a backslash before every character. */
  function Fully(s: string): string {
    Escaped(s, AllOf(|s|))
  }

  lemma {:induction false} EscapedChars(s: string, flags: seq<bool>)
    requires |flags| == |s| && forall k | 0 <= k < |s| :: flags[k]
    ensures |Escaped(s, flags)| == 2 * |s|
    ensures forall k | 0 <= k < |s| :: Escaped(s, flags)[2 * k] == '\\' && Escaped(s, flags)[2 * k + 1] == s[k]
  {
    if s != "" {
      EscapedChars(s[1..], flags[1..]);
      var tail := Escaped(s[1..], flags[1..]);
      assert Escaped(s, flags) == ['\\', s[0]] + tail;
      forall k | 0 <= k < |s| ensures Escaped(s, flags)[2 * k] == '\\' && Escaped(s, flags)[2 * k + 1] == s[k] {
        if k > 0 { assert tail[2 * (k - 1)] == '\\' && tail[2 * (k - 1) + 1] == s[1..][k - 1]; }
      }
    }
  }

  lemma FullyChars(s: string)
    ensures |Fully(s)| == 2 * |s|
    ensures forall k | 0 <= k < |s| :: Fully(s)[2 * k] == '\\' && Fully(s)[2 * k + 1] == s[k]
  {
    EscapedChars(s, AllOf(|s|));
  }

  lemma FullyPrefix(s: string, k: nat)
    requires k < |s|
    ensures 2 * k + 1 <= |Fully(s)| && Fully(s)[..2 * k + 1] == Fully(s[..k]) + ['\\']
  {
    hide Fully;
    FullyChars(s);
    FullyChars(s[..k]);
    var cut := Fully(s)[..2 * k + 1];
    forall i | 0 <= i < 2 * k ensures cut[i] == Fully(s[..k])[i] {
      var j := i / 2;
      assert i == 2 * j || i == 2 * j + 1;
      assert s[..k][j] == s[j];
    }
    assert cut[2 * k] == '\\';
  }

  /** Escaped text cut inside an escape keeps the lone backslash. */
  lemma CutEscape(word: Alphabet, s: string, k: nat, marks: Marks)
    requires k < |s|
    ensures 2 * k + 1 <= |Fully(s)| && Inline(word, Fully(s)[..2 * k + 1], marks) == [Run(s[..k] + ['\\'], marks)]
  {
    hide Inline, Escaped, EscapesMarkup;
    FullyPrefix(s, k);
    var t := s[..k];
    assert EscapesMarkup(t, AllOf(|t|)) by { AllEscapes(t); }
    ScanToEnd(word, t, AllOf(|t|), ['\\'], marks);
    var chars := Fully(t) + ['\\'];
    assert chars[|Fully(t)|] == '\\';
    assert ConstructAt(word, chars, |Fully(t)|) == Nothing by { BackslashStartsNothing(word, chars, |Fully(t)|); }
  }

  lemma AllEscapes(s: string)
    ensures EscapesMarkup(s, AllOf(|s|))
  {
  }

  lemma BackslashStartsNothing(word: Alphabet, chars: string, i: nat)
    requires i < |chars| && chars[i] == '\\'
    ensures ConstructAt(word, chars, i) == Nothing
  {
    assert "**"[0] == '*' && "~~"[0] == '~';
  }

  lemma {:induction false} ScanExtends(word: Alphabet, chars: string, i: nat, literal: string, runs: seq<Run>, marks: Marks)
    requires i <= |chars|
    ensures runs <= Scan(word, chars, i, literal, runs, marks)
    decreases |chars| - i
  {
    hide ConstructAt, Inline;
    if i < |chars| {
      if chars[i] == '\\' && i + 1 < |chars| { ScanExtends(word, chars, i + 2, literal + [chars[i + 1]], runs, marks); } else {
        match ConstructAt(word, chars, i)
        case Nothing => ScanExtends(word, chars, i + 1, literal + [chars[i]], runs, marks);
        case Code(end) => ScanExtends(word, chars, end + 1, "", Flushed(runs, literal, marks) + [Run(chars[i + 1..end], marks["code" := Plain])], marks);
        case Marked(name, mark, from, to, next) =>
          ScanExtends(word, chars, next, "", Flushed(runs, literal, marks) + Inline(word, chars[from..to], marks[name := mark]), marks);
      }
    }
  }

  datatype Emphasis = Bold | Strike | Star | Underscore

  function Delimiter(e: Emphasis): string {
    match e case Bold => "**" case Strike => "~~" case Star => "*" case Underscore => "_"
  }

  function MarkName(e: Emphasis): string {
    match e case Bold => "bold" case Strike => "strike" case _ => "italic"
  }

  /** The closing delimiter shows inside the escaped text: escapes do not hide it. */
  predicate Collides(e: Emphasis, s: string) {
    var c := Delimiter(e)[0];
    if e.Bold? || e.Strike? then s != "" && s[|s| - 1] == c else c in s
  }

  function Delimited(e: Emphasis, s: string): string {
    Delimiter(e) + Fully(s) + Delimiter(e)
  }

  lemma DelimitedChars(e: Emphasis, s: string)
    ensures var chars, w := Delimited(e, s), |Delimiter(e)|;
            && 1 <= w <= 2 && |chars| == 2 * |s| + 2 * w
            && chars[..w] == Delimiter(e) && chars[w + 2 * |s|..] == Delimiter(e)
            && (forall k | 0 <= k < |s| :: chars[w + 2 * k] == '\\' && chars[w + 2 * k + 1] == s[k])
            && chars[w..w + 2 * |s|] == Fully(s)
    ensures Delimiter(e)[0] != '\\' && (|Delimiter(e)| == 2 <==> e.Bold? || e.Strike?)
  {
    FullyChars(s);
    hide Fully;
    assert "**" == ['*', '*'] && "~~" == ['~', '~'];
    var chars := Delimited(e, s);
    assert forall k | 0 <= k < |s| :: chars[|Delimiter(e)| + 2 * k] == Fully(s)[2 * k] && chars[|Delimiter(e)| + 2 * k + 1] == Fully(s)[2 * k + 1];
  }
  /** Where the delimiter stands inside the escaped text. */
  lemma DelimiterAt(e: Emphasis, s: string, p: nat)
    requires |Delimiter(e)| <= p < |Delimiter(e)| + 2 * |s|
    ensures var q := p - |Delimiter(e)|;
            At(Delimited(e, s), p, Delimiter(e)) <==>
            q % 2 == 1 && s[q / 2] == Delimiter(e)[0] && (|Delimiter(e)| == 2 ==> q / 2 == |s| - 1)
  {
    hide Delimited, Fully;
    DelimitedChars(e, s);
    assert "**" == ['*', '*'] && "~~" == ['~', '~'];
    var chars, d, w := Delimited(e, s), Delimiter(e), |Delimiter(e)|;
    var q := p - w;
    var j := q / 2;
    assert At(chars, p, d) <==> chars[p] == d[0] && (w == 2 ==> chars[p + 1] == d[0]) by {
      assert chars[p..p + w][0] == chars[p];
      if w == 2 { assert d == [d[0], d[0]] && chars[p..p + w] == [chars[p], chars[p + 1]]; } else { assert d == [d[0]] && chars[p..p + w] == [chars[p]]; }
    }
    if q % 2 == 0 {
      assert chars[w + 2 * j] == '\\';
    } else {
      assert chars[w + 2 * j + 1] == s[j];
      if j + 1 < |s| { assert chars[w + 2 * (j + 1)] == '\\'; }
      else { assert chars[w + 2 * |s|..][0] == d[0]; }
    }
  }

  lemma ClosingFound(e: Emphasis, s: string)
    requires s != ""
    ensures var found, w := Find(Delimited(e, s), Delimiter(e), |Delimiter(e)|), |Delimiter(e)|;
            && (!Collides(e, s) ==> found == Some(w + 2 * |s|))
            && (Collides(e, s) ==> found.Some? && exists k | 0 <= k < |s| :: found.value == w + 2 * k + 1 && s[k] == Delimiter(e)[0])
  {
    hide Delimited, Fully, Find, At;
    DelimitedChars(e, s);
    var chars, d, w := Delimited(e, s), Delimiter(e), |Delimiter(e)|;
    var found := Find(chars, d, w);
    assert At(chars, w + 2 * |s|, d) by { EndsWith(chars, w + 2 * |s|, d); }
    var p := found.value;
    if p < w + 2 * |s| { DelimiterAt(e, s, p); }
    if Collides(e, s) {
      var k: nat :| k < |s| && s[k] == d[0] && (w == 2 ==> k == |s| - 1);
      DelimiterAt(e, s, w + 2 * k + 1);
    }
  }

  lemma EndsWith(chars: string, p: nat, d: string)
    requires p <= |chars| && chars[p..] == d
    ensures At(chars, p, d)
  {
    assert chars[p..p + |d|] == chars[p..];
  }

  lemma StartsEmphasis(word: Alphabet, e: Emphasis, s: string)
    requires s != ""
    ensures |Delimited(e, s)| > 0 && ConstructAt(word, Delimited(e, s), 0) == WrappedAt(Delimited(e, s), 0, Delimiter(e), MarkName(e))
    ensures Delimited(e, s)[0] == Delimiter(e)[0]
  {
    hide Delimited, Fully, Find;
    DelimitedChars(e, s);
    assert "**" == ['*', '*'] && "~~" == ['~', '~'];
    var chars, w := Delimited(e, s), |Delimiter(e)|;
    assert chars[..w][0] == Delimiter(e)[0];
    assert chars[w + 2 * 0] == '\\';
    assert chars[0..2] == [chars[0], chars[1]];
    assert chars[0..w] == chars[..w];
  }

  /** Reading delimited text, given where the closing delimiter was found. */
  lemma ReadsDelimited(word: Alphabet, e: Emphasis, s: string, end: nat, marks: Marks)
    requires s != "" && Find(Delimited(e, s), Delimiter(e), |Delimiter(e)|) == Some(end) && end > |Delimiter(e)|
    ensures end + |Delimiter(e)| <= |Delimited(e, s)|
    ensures var marks' := marks[MarkName(e) := Plain];
            Inline(word, Delimited(e, s), marks) ==
            Scan(word, Delimited(e, s), end + |Delimiter(e)|, "", Inline(word, Delimited(e, s)[|Delimiter(e)|..end], marks'), marks)
  {
    hide Delimited, Fully, Find, ConstructAt;
    DelimitedChars(e, s);
    StartsEmphasis(word, e, s);
    var chars, w := Delimited(e, s), |Delimiter(e)|;
    assert ConstructAt(word, chars, 0) == Marked(MarkName(e), Plain, w, end, end + w);
    var inner := Inline(word, chars[w..end], marks[MarkName(e) := Plain]);
    assert [] + inner == inner;
  }

  lemma SliceFront(chars: string, a: nat, n: nat, m: nat)
    requires a + n <= |chars| && m <= n
    ensures chars[a..a + n][..m] == chars[a..a + m]
  {
  }

  lemma CollisionMisreads(word: Alphabet, e: Emphasis, s: string, k: nat, marks: Marks)
    requires k < |s| && s[k] == Delimiter(e)[0]
    requires Find(Delimited(e, s), Delimiter(e), |Delimiter(e)|) == Some(|Delimiter(e)| + 2 * k + 1)
    ensures Inline(word, Delimited(e, s), marks) != [Run(s, marks[MarkName(e) := Plain])]
  {
    hide Delimited, Fully, Find, ConstructAt, Inline, Scan;
    var chars, w, marks' := Delimited(e, s), |Delimiter(e)|, marks[MarkName(e) := Plain];
    var end := w + 2 * k + 1;
    DelimitedChars(e, s);
    ReadsDelimited(word, e, s, end, marks);
    SliceFront(chars, w, 2 * |s|, 2 * k + 1);
    CutEscape(word, s, k, marks');
    var text := s[..k] + ['\\'];
    assert text[k] == '\\';
    assert chars[w..end] == Fully(s)[..2 * k + 1];
    assert Inline(word, chars[w..end], marks') == [Run(text, marks')];
    ScanExtends(word, chars, end + w, "", [Run(text, marks')], marks);
    assert Inline(word, chars, marks)[0].text == text;
  }

  /** Escaped text between delimiters reads back as that text with the mark, exactly when the closing
      delimiter does not show inside it: the search for it ignores escapes. */
  lemma DelimitedReadsBackIff(word: Alphabet, e: Emphasis, s: string, marks: Marks)
    requires s != ""
    ensures Inline(word, Delimited(e, s), marks) == [Run(s, marks[MarkName(e) := Plain])] <==> !Collides(e, s)
  {
    hide Delimited, Fully, Find, ConstructAt, Collides, Inline;
    var w := |Delimiter(e)|;
    ClosingFound(e, s);
    if !Collides(e, s) {
      DelimitedChars(e, s);
      ReadsDelimited(word, e, s, w + 2 * |s|, marks);
      FullyReadsBack(word, s, marks[MarkName(e) := Plain]);
    } else {
      var k: nat :| k < |s| && Find(Delimited(e, s), Delimiter(e), w).value == w + 2 * k + 1 && s[k] == Delimiter(e)[0];
      CollisionMisreads(word, e, s, k, marks);
    }
  }

  lemma FullyReadsBack(word: Alphabet, s: string, marks: Marks)
    ensures Inline(word, Fully(s), marks) == if s == "" then [] else [Run(s, marks)]
  {
    AllEscapes(s);
    EscapedReadsBack(word, s, AllOf(|s|), marks);
  }

  // ---- Nothing is invented ----------------------------------------------------------------------

  function TextOf(runs: seq<Run>): string {
    if runs == [] then "" else runs[0].text + TextOf(runs[1..])
  }

  predicate Subsequence(a: string, b: string) {
    a == "" || (b != "" && ((a[0] == b[0] && Subsequence(a[1..], b[1..])) || Subsequence(a, b[1..])))
  }

  lemma {:induction false} TextOfConcat(a: seq<Run>, b: seq<Run>)
    ensures TextOf(a + b) == TextOf(a) + TextOf(b)
  {
    if a == [] { assert a + b == b; } else {
      assert (a + b)[1..] == a[1..] + b;
      TextOfConcat(a[1..], b);
      assert a[0].text + (TextOf(a[1..]) + TextOf(b)) == (a[0].text + TextOf(a[1..])) + TextOf(b);
    }
  }

  lemma {:induction false} SubsequenceConcat(a: string, b: string, c: string, d: string)
    requires Subsequence(a, b) && Subsequence(c, d)
    ensures Subsequence(a + c, b + d)
    decreases |b|
  {
    if b == "" {
      assert a + c == c && b + d == d;
    } else {
      assert (b + d)[1..] == b[1..] + d && (b + d)[0] == b[0];
      if a != "" && a[0] == b[0] && Subsequence(a[1..], b[1..]) {
        assert (a + c)[1..] == a[1..] + c && (a + c)[0] == a[0];
        SubsequenceConcat(a[1..], b[1..], c, d);
      } else {
        assert Subsequence(a, b[1..]);
        SubsequenceConcat(a, b[1..], c, d);
      }
    }
  }

  lemma {:induction false} SubsequenceSelf(a: string)
    ensures Subsequence(a, a)
  {
    if a != "" { SubsequenceSelf(a[1..]); }
  }

  lemma NothingSubsequence(b: string)
    ensures Subsequence("", b)
  {
  }

  /** A subsequence of a slice of the text from `i` to `j` continues one of the text before. */
  lemma Continue(chars: string, i: nat, from: nat, to: nat, j: nat, done: string, more: string)
    requires i <= from <= to <= j <= |chars|
    requires Subsequence(done, chars[..i]) && Subsequence(more, chars[from..to])
    ensures Subsequence(done + more, chars[..j])
  {
    NothingSubsequence(chars[i..from]);
    NothingSubsequence(chars[to..j]);
    SubsequenceConcat(done, chars[..i], "", chars[i..from]);
    assert chars[..i] + chars[i..from] == chars[..from] && done + "" == done;
    SubsequenceConcat(done, chars[..from], more, chars[from..to]);
    assert chars[..from] + chars[from..to] == chars[..to];
    SubsequenceConcat(done + more, chars[..to], "", chars[to..j]);
    assert chars[..to] + chars[to..j] == chars[..j] && (done + more) + "" == done + more;
  }

  lemma TextOfFlushed(runs: seq<Run>, literal: string, marks: Marks, more: seq<Run>)
    ensures TextOf(Flushed(runs, literal, marks) + more) == TextOf(runs) + literal + TextOf(more)
    ensures TextOf(Flushed(runs, literal, marks)) == TextOf(runs) + literal
  {
    TextOfConcat(Flushed(runs, literal, marks), more);
    if literal != "" {
      TextOfConcat(runs, [Run(literal, marks)]);
      assert TextOf([Run(literal, marks)]) == literal + TextOf([]);
    }
  }

  lemma {:induction false} ScanSubsequence(word: Alphabet, chars: string, i: nat, literal: string, runs: seq<Run>, marks: Marks)
    requires i <= |chars| && Subsequence(TextOf(runs) + literal, chars[..i])
    ensures Subsequence(TextOf(Scan(word, chars, i, literal, runs, marks)), chars)
    decreases |chars|, |chars| - i
  {
    hide ConstructAt, Subsequence, TextOf;
    if i == |chars| {
      TextOfFlushed(runs, literal, marks, []);
      assert chars[..i] == chars;
    } else if chars[i] == '\\' && i + 1 < |chars| {
      ScanLiteral(word, chars, i, i + 1, literal, runs, marks);
    } else {
      match ConstructAt(word, chars, i)
      case Nothing =>
        ScanLiteral(word, chars, i, i, literal, runs, marks);
      case Code(end) =>
        SubsequenceSelf(chars[i + 1..end]);
        var inner := [Run(chars[i + 1..end], marks["code" := Plain])];
        OneRunText(inner[0]);
        ScanInner(word, chars, i, i + 1, end, end + 1, literal, runs, marks, inner);
      case Marked(name, mark, from, to, next) =>
        TextIsSubsequence(word, chars[from..to], marks[name := mark]);
        ScanInner(word, chars, i, from, to, next, literal, runs, marks, Inline(word, chars[from..to], marks[name := mark]));
    }
  }

  /** Taking one character into the literal. */
  lemma {:induction false} ScanLiteral(word: Alphabet, chars: string, i: nat, at: nat, literal: string, runs: seq<Run>, marks: Marks)
    requires i <= at < |chars| && Subsequence(TextOf(runs) + literal, chars[..i])
    ensures Subsequence(TextOf(Scan(word, chars, at + 1, literal + [chars[at]], runs, marks)), chars)
    decreases |chars|, |chars| - i, 0
  {
    hide Subsequence, TextOf, Scan;
    var done := TextOf(runs) + literal;
    var more := chars[at..at + 1];
    SubsequenceSelf(more);
    Continue(chars, i, at, at + 1, at + 1, done, more);
    assert TextOf(runs) + (literal + [chars[at]]) == done + more;
    ScanSubsequence(word, chars, at + 1, literal + [chars[at]], runs, marks);
  }

  lemma OneRunText(run: Run)
    ensures TextOf([run]) == run.text
  {
    assert TextOf([run]) == run.text + TextOf([]);
  }

  /** Reading on after a delimited slice. */
  lemma {:induction false} ScanInner(word: Alphabet, chars: string, i: nat, from: nat, to: nat, j: nat, literal: string, runs: seq<Run>, marks: Marks, inner: seq<Run>)
    requires i < from <= to <= j <= |chars| && i < j
    requires Subsequence(TextOf(runs) + literal, chars[..i]) && Subsequence(TextOf(inner), chars[from..to])
    ensures Subsequence(TextOf(Scan(word, chars, j, "", Flushed(runs, literal, marks) + inner, marks)), chars)
    decreases |chars|, |chars| - i, 0
  {
    hide Subsequence, TextOf, Scan;
    TextOfFlushed(runs, literal, marks, inner);
    Continue(chars, i, from, to, j, TextOf(runs) + literal, TextOf(inner));
    var after := Flushed(runs, literal, marks) + inner;
    assert TextOf(after) + "" == TextOf(after);
    ScanSubsequence(word, chars, j, "", after, marks);
  }

  /** The text of the runs is a subsequence of the input: markup is dropped, nothing is added or moved. */
  lemma {:induction false} TextIsSubsequence(word: Alphabet, text: string, marks: Marks)
    ensures Subsequence(TextOf(Inline(word, text, marks)), text)
    decreases |text|, |text| + 1
  {
    hide Scan;
    assert TextOf([]) + "" == "";
    NothingSubsequence(text[..0]);
    ScanSubsequence(word, text, 0, "", [], marks);
  }
}
