/** Markdown lists (`lib/src/document_markdown.rs`): lines at the shallowest indent become items, deeper
    lines are read again as the lists nested in the item before them. */
module MarkdownLists {
  import opened Basics
  import opened MarkdownInline

  // ---- Lines --------------------------------------------------------------------------------

  function TrimStart(line: string): (r: string)
    ensures |r| <= |line| && (r != "" ==> !IsSpace(r[0]))
  {
    if line == "" || !IsSpace(line[0]) then line else TrimStart(line[1..])
  }

  /** Bytes of a character in UTF-8. */
  function Bytes(c: char): (n: nat)
    ensures n >= 1
  {
    if c < '\U{80}' then 1 else if c < '\U{800}' then 2 else if c < '\U{10000}' then 3 else 4
  }

  function Pow2(n: nat): nat { if n == 0 then 1 else 2 * Pow2(n - 1) }

  /** What `n` bytes hold: seven bits, or five for each byte and one more (section 3 of RFC 3629). */
  function Capacity(n: nat): nat { Pow2(if n == 1 then 7 else 5 * n + 1) }

  /** A character takes the fewest bytes that hold it, four at most. */
  lemma BytesFit(c: char)
    ensures Bytes(c) <= 4 && (c as int) < Capacity(Bytes(c)) && (Bytes(c) > 1 ==> Capacity(Bytes(c) - 1) <= c as int)
  {
    assert Pow2(7) == 0x80 && Pow2(11) == 0x800;
    assert Pow2(16) == 32 * Pow2(11) && Pow2(21) == 32 * Pow2(16);
  }

  /** `indent_of`: the bytes of leading white space. */
  function Indent(line: string): nat {
    if line == "" || !IsSpace(line[0]) then 0 else Bytes(line[0]) + Indent(line[1..])
  }

  function ByteLength(s: string): nat {
    if s == "" then 0 else Bytes(s[0]) + ByteLength(s[1..])
  }

  /** The indent is what trimming takes off, in bytes. */
  lemma {:induction false} IndentIsTrimmed(line: string)
    ensures Indent(line) + ByteLength(TrimStart(line)) == ByteLength(line)
  {
    if line != "" && IsSpace(line[0]) { IndentIsTrimmed(line[1..]); }
  }

  function Digits(s: string): (n: nat)
    ensures n <= |s| && (n < |s| ==> !('0' <= s[n] <= '9')) && forall k | 0 <= k < n :: '0' <= s[k] <= '9'
  {
    if s == "" || !('0' <= s[0] <= '9') then 0 else 1 + Digits(s[1..])
  }

  /** The marker and content of a list line: a bullet or a number, white space, and the rest. */
  function ItemOf(line: string): Option<(string, string)> {
    var rest := TrimStart(line);
    var n := Digits(rest);
    var width := if rest != "" && rest[0] in {'-', '*', '+'} then 1 else if 0 < n < |rest| && rest[n] in {'.', ')'} then n + 1 else 0;
    if 0 < width < |rest| && IsSpace(rest[width]) && '\n' !in TrimStart(rest[width..]) then
      Some((rest[..width], TrimStart(rest[width..])))
    else None
  }

  /** The state and text of a task's content. */
  function TaskOf(content: string): Option<(bool, string)> {
    if |content| > 3 && content[0] == '[' && content[1] in {' ', 'x', 'X'} && content[2] == ']' && IsSpace(content[3])
       && '\n' !in TrimStart(content[3..])
    then Some((content[1] != ' ', TrimStart(content[3..])))
    else None
  }

  datatype Kind = Bullet | Ordered | Task

  function KindOf(marker: string, content: string): Kind {
    if exists c | c in marker :: '0' <= c <= '9' then Ordered else if TaskOf(content).Some? then Task else Bullet
  }

  /** The text is Markdown, still to be read for inline marks. */
  datatype Item = Item(checked: Option<bool>, text: string, children: seq<List>)
  datatype List = List(kind: Kind, items: seq<Item>)

  function ItemFrom(marker: string, content: string): Item {
    if KindOf(marker, content) == Task && TaskOf(content).Some? then Item(Some(TaskOf(content).value.0), TaskOf(content).value.1, [])
    else Item(None, content, [])
  }

  // ---- What an item's line is -----------------------------------------------------------------

  predicate AllSpace(s: string) {
    forall k | 0 <= k < |s| :: IsSpace(s[k])
  }

  /** The text of an item or a task runs to the end of one line, without the white space before it. */
  predicate IsContent(text: string) {
    '\n' !in text && (text != "" ==> !IsSpace(text[0]))
  }

  predicate IsBullet(marker: string) { |marker| == 1 && marker[0] in {'-', '*', '+'} }

  predicate IsNumber(marker: string) {
    |marker| >= 2 && marker[|marker| - 1] in {'.', ')'} && forall k | 0 <= k < |marker| - 1 :: '0' <= marker[k] <= '9'
  }

  /** The line is white space, a marker, more white space, and the content. */
  ghost predicate IsItemLine(line: string, marker: string, content: string) {
    && (IsBullet(marker) || IsNumber(marker)) && IsContent(content)
    && exists lead: string, gap: string :: AllSpace(lead) && AllSpace(gap) && gap != "" && line == lead + marker + gap + content
  }

  /** The content is a box, white space, and the text. */
  ghost predicate IsTaskContent(content: string, box: char, text: string) {
    && box in {' ', 'x', 'X'} && IsContent(text)
    && exists gap: string :: AllSpace(gap) && gap != "" && content == "[" + [box] + "]" + gap + text
  }

  lemma {:induction false} TrimSplits(s: string) returns (lead: string)
    ensures AllSpace(lead) && s == lead + TrimStart(s)
    ensures s != "" && IsSpace(s[0]) ==> lead != ""
  {
    if s == "" || !IsSpace(s[0]) {
      lead := "";
    } else {
      var rest := TrimSplits(s[1..]);
      lead := [s[0]] + rest;
    }
  }

  lemma {:induction false} TrimsLead(lead: string, rest: string)
    requires AllSpace(lead) && (rest != "" ==> !IsSpace(rest[0]))
    ensures TrimStart(lead + rest) == rest
  {
    if lead == "" {
      assert lead + rest == rest;
    } else {
      assert (lead + rest)[1..] == lead[1..] + rest;
      TrimsLead(lead[1..], rest);
    }
  }

  lemma {:induction false} DigitsAre(s: string, n: nat)
    requires n < |s| && !('0' <= s[n] <= '9') && forall k | 0 <= k < n :: '0' <= s[k] <= '9'
    ensures Digits(s) == n
  {
  }

  /** A line is read as an item exactly when it is one, with that marker and content. */
  lemma ItemOfIff(line: string, marker: string, content: string)
    ensures ItemOf(line) == Some((marker, content)) <==> IsItemLine(line, marker, content)
  {
    hide IsSpace, TrimStart, Digits, ItemOf;
    if ItemOf(line) == Some((marker, content)) { ItemIsLine(line, marker, content); }
    if IsItemLine(line, marker, content) {
      var lead: string, gap: string :| AllSpace(lead) && AllSpace(gap) && gap != "" && line == lead + marker + gap + content;
      LineIsItem(lead, marker, gap, content);
      assert lead + (marker + gap + content) == line;
    }
  }

  lemma ItemIsLine(line: string, marker: string, content: string)
    requires ItemOf(line) == Some((marker, content))
    ensures IsItemLine(line, marker, content)
  {
    hide TrimStart, Digits;
    var lead := TrimSplits(line);
    var rest := TrimStart(line);
    var gap := TrimSplits(rest[|marker|..]);
    assert rest == marker + rest[|marker|..] == marker + (gap + content);
    assert line == lead + marker + gap + content;
  }

  lemma LineIsItem(lead: string, marker: string, gap: string, content: string)
    requires AllSpace(lead) && (IsBullet(marker) || IsNumber(marker)) && AllSpace(gap) && gap != "" && IsContent(content)
    ensures ItemOf(lead + (marker + gap + content)) == Some((marker, content))
  {
    hide TrimStart, Digits;
    var rest, w := marker + gap + content, |marker|;
    assert rest[0] == marker[0] && rest[w] == gap[0];
    TrimsLead(lead, rest);
    TrimsLead(gap, content);
    assert rest[..w] == marker && rest[w..] == gap + content;
    if IsNumber(marker) {
      assert forall k | 0 <= k < w :: rest[k] == marker[k];
      DigitsAre(rest, w - 1);
    }
  }

  /** A task's box and text are read exactly when they are there. */
  lemma TaskOfIff(content: string, checked: bool, text: string)
    ensures TaskOf(content) == Some((checked, text)) <==> exists box :: IsTaskContent(content, box, text) && checked == (box != ' ')
  {
    hide IsSpace, TrimStart;
    if TaskOf(content) == Some((checked, text)) {
      var gap := TrimSplits(content[3..]);
      assert content == "[" + [content[1]] + "]" + gap + text;
      TrimmedStart(content[3..]);
      assert IsTaskContent(content, content[1], text);
    }
    if exists box :: IsTaskContent(content, box, text) && checked == (box != ' ') {
      var box :| IsTaskContent(content, box, text) && checked == (box != ' ');
      var gap: string :| AllSpace(gap) && gap != "" && content == "[" + [box] + "]" + gap + text;
      TrimsLead(gap, text);
      assert content[3..] == gap + text && content[3] == gap[0];
    }
  }

  lemma TrimmedStart(s: string)
    ensures TrimStart(s) != "" ==> !IsSpace(TrimStart(s)[0])
  {
  }

  /** Numbers make ordered lists; a bullet makes a task where there is a box, and else a bullet. */
  lemma KindMeans(marker: string, content: string)
    requires IsBullet(marker) || IsNumber(marker)
    ensures KindOf(marker, content) == Ordered <==> IsNumber(marker)
    ensures KindOf(marker, content) == Task <==> IsBullet(marker) && exists box, text :: IsTaskContent(content, box, text)
    ensures forall box, text :: IsTaskContent(content, box, text) && IsBullet(marker) ==>
              ItemFrom(marker, content) == Item(Some(box != ' '), text, [])
    ensures KindOf(marker, content) != Task ==> ItemFrom(marker, content) == Item(None, content, [])
  {
    hide TaskOf, IsTaskContent;
    if IsNumber(marker) { assert marker[0] in marker; }
    forall box, text | IsTaskContent(content, box, text) ensures TaskOf(content) == Some((box != ' ', text)) {
      TaskOfIff(content, box != ' ', text);
    }
    if TaskOf(content).Some? { TaskOfIff(content, TaskOf(content).value.0, TaskOf(content).value.1); }
  }

  // ---- The shallowest indent ------------------------------------------------------------------

  function Base(lines: seq<string>): (base: nat)
    ensures forall l :: l in lines ==> base <= Indent(l)
    ensures lines != [] ==> exists l :: l in lines && base == Indent(l)
  {
    if lines == [] then 0
    else if |lines| == 1 then Indent(lines[0])
    else var rest := Base(lines[1..]); if Indent(lines[0]) < rest then Indent(lines[0]) else rest
  }

  // ---- Reading lines into lists ---------------------------------------------------------------

  /** Lists already complete, the one being filled, and the lines nested under its last item. */
  datatype Reading = Reading(finished: seq<List>, current: Option<List>, nested: seq<string>)

  /** A list being filled has an item, whose own line the nested lines do not hold; none is complete before
      one was being filled. */
  predicate Sane(s: Reading) {
    if s.current.Some? then s.current.value.items != [] else s.finished == []
  }

  function Load(s: Reading): nat { |s.nested| + if s.current.Some? then 1 else 0 }

  function WithChildren(list: List, children: seq<List>): List
    requires list.items != []
  {
    var last := |list.items| - 1;
    List(list.kind, list.items[..last] + [list.items[last].(children := list.items[last].children + children)])
  }

  /** The list being filled once the lines nested under its last item are read: fewer than all lines, since
      that item's line is not among them. */
  function Closed(s: Reading, n: nat): (r: Option<List>)
    requires Sane(s) && Load(s) <= n
    ensures r.Some? <==> s.current.Some?
    ensures r.Some? ==> r.value.kind == s.current.value.kind && r.value.items != []
    decreases n, 0
  {
    if s.current.Some? && s.nested != [] then Some(WithChildren(s.current.value, ParseLists(s.nested))) else s.current
  }

  function ListsOf(list: Option<List>): seq<List> {
    match list case Some(l) => [l] case None => []
  }

  function Next(s: Reading, base: nat, line: string, n: nat): (r: Reading)
    requires Sane(s) && Load(s) < n
    ensures Sane(r) && Load(r) <= Load(s) + 1
    decreases n, 1
  {
    match ItemOf(line)
    case Some(m) =>
      if Indent(line) == base then
        var current := Closed(s, n);
        var kind, item := KindOf(m.0, m.1), ItemFrom(m.0, m.1);
        if current.Some? && current.value.kind == kind then Reading(s.finished, Some(List(kind, current.value.items + [item])), [])
        else Reading(s.finished + ListsOf(current), Some(List(kind, [item])), [])
      else s.(nested := s.nested + [line])
    case None => s.(nested := s.nested + [line])
  }

  function ReadAll(s: Reading, base: nat, lines: seq<string>, n: nat): (r: Reading)
    requires Sane(s) && Load(s) + |lines| <= n
    ensures Sane(r) && Load(r) <= Load(s) + |lines|
    decreases n, 2, |lines|
  {
    if lines == [] then s else ReadAll(Next(s, base, lines[0], n), base, lines[1..], n)
  }

  /** The lists if the lines ended here. */
  function Settled(s: Reading, n: nat): seq<List>
    requires Sane(s) && Load(s) <= n
    decreases n, 1
  {
    s.finished + ListsOf(Closed(s, n))
  }

  function ParseLists(lines: seq<string>): seq<List>
    decreases |lines|, 3
  {
    Settled(ReadAll(Reading([], None, []), Base(lines), lines, |lines|), |lines|)
  }

  /** `flush`: reads the nested lines into the last item. */
  method Flush(current: Option<List>, nested: seq<string>, ghost n: nat) returns (r: Option<List>)
    requires Sane(Reading([], current, nested)) && Load(Reading([], current, nested)) <= n
    ensures forall finished | Sane(Reading(finished, current, nested)) :: r == Closed(Reading(finished, current, nested), n)
    decreases n, 0
  {
    r := current;
    if current.Some? && nested != [] {
      var children := ReadLists(nested);
      r := Some(WithChildren(current.value, children));
    }
  }

  /** `parse_lists`: the loop over the lines, with its recursion on the nested ones. */
  method ReadLists(lines: seq<string>) returns (lists: seq<List>)
    ensures lists == ParseLists(lines)
    decreases |lines|, 1
  {
    hide ItemOf, Indent, KindOf, ItemFrom, Closed, Base;
    var base := Base(lines);
    var finished: seq<List>, current: Option<List>, nested: seq<string> := [], None, [];
    var i := 0;
    assert lines[0..] == lines;
    while i < |lines|
      invariant 0 <= i <= |lines|
      invariant Sane(Reading(finished, current, nested)) && Load(Reading(finished, current, nested)) <= i
      invariant ReadAll(Reading(finished, current, nested), base, lines[i..], |lines|)
             == ReadAll(Reading([], None, []), base, lines, |lines|)
    {
      var line := lines[i];
      ghost var before := Reading(finished, current, nested);
      assert lines[i..][1..] == lines[i + 1..];
      var matched := ItemOf(line);
      if matched.Some? && Indent(line) == base {
        current := Flush(current, nested, |lines|);
        assert current == Closed(before, |lines|);
        nested := [];
        var kind := KindOf(matched.value.0, matched.value.1);
        if current.None? || current.value.kind != kind {
          finished := finished + ListsOf(current);
          current := Some(List(kind, []));
        }
        var item := ItemFrom(matched.value.0, matched.value.1);
        assert [] + [item] == [item];
        current := Some(List(kind, current.value.items + [item]));
      } else {
        nested := nested + [line];
      }
      assert Reading(finished, current, nested) == Next(before, base, line, |lines|);
      i := i + 1;
    }
    var last := Flush(current, nested, |lines|);
    assert last == Closed(Reading(finished, current, nested), |lines|);
    return finished + ListsOf(last);
  }

  // ---- Writing lists as lines -----------------------------------------------------------------

  function Spaces(n: nat): (s: string)
    ensures |s| == n && forall k | 0 <= k < n :: s[k] == ' '
  {
    seq(n, i => ' ')
  }

  function Marker(kind: Kind, checked: Option<bool>): string {
    match kind
    case Bullet => "- "
    case Ordered => "1. "
    case Task => if checked == Some(true) then "- [x] " else "- [ ] "
  }

  function ItemLine(kind: Kind, item: Item, depth: nat): string {
    Spaces(2 * depth) + Marker(kind, item.checked) + item.text
  }

  function Lines(lists: seq<List>, depth: nat): seq<string>
    decreases lists
  {
    if lists == [] then [] else ItemLines(lists[0].kind, lists[0].items, depth) + Lines(lists[1..], depth)
  }

  function ItemLines(kind: Kind, items: seq<Item>, depth: nat): seq<string>
    decreases items
  {
    if items == [] then []
    else [ItemLine(kind, items[0], depth)] + Lines(items[0].children, depth + 1) + ItemLines(kind, items[1..], depth)
  }

  /** The text can stand on an item's line: no newline, no leading white space, and no task box on a bullet. */
  predicate TextFits(kind: Kind, text: string) {
    && '\n' !in text && (text != "" ==> !IsSpace(text[0]))
    && (kind == Bullet ==> TaskOf(text) == None)
  }

  predicate Renderable(lists: seq<List>)
    decreases lists
  {
    forall i | 0 <= i < |lists| :: lists[i].items != [] && RenderableItems(lists[i].kind, lists[i].items)
  }

  predicate RenderableItems(kind: Kind, items: seq<Item>)
    decreases items
  {
    forall i | 0 <= i < |items| ::
      TextFits(kind, items[i].text) && (kind == Task <==> items[i].checked.Some?) && Renderable(items[i].children)
  }

  // ---- What a rendered line reads as -----------------------------------------------------------

  lemma {:induction false} SpacesTrimmed(n: nat, rest: string)
    requires rest != "" && !IsSpace(rest[0])
    ensures TrimStart(Spaces(n) + rest) == rest && Indent(Spaces(n) + rest) == n
  {
    if n == 0 {
      assert Spaces(0) + rest == rest;
    } else {
      assert (Spaces(n) + rest)[1..] == Spaces(n - 1) + rest;
      SpacesTrimmed(n - 1, rest);
    }
  }

  lemma OneSpace(text: string)
    requires text != "" ==> !IsSpace(text[0])
    ensures TrimStart(" " + text) == text
  {
    assert (" " + text)[1..] == text;
  }

  /** A rendered item line is an item at its depth, of its kind, with its state and text. */
  lemma LineReads(kind: Kind, item: Item, depth: nat)
    requires TextFits(kind, item.text) && (kind == Task <==> item.checked.Some?)
    ensures var line := ItemLine(kind, item, depth);
            && Indent(line) == 2 * depth && ItemOf(line).Some?
            && KindOf(ItemOf(line).value.0, ItemOf(line).value.1) == kind
            && ItemFrom(ItemOf(line).value.0, ItemOf(line).value.1) == Item(item.checked, item.text, [])
  {
    hide ItemOf, Indent, TaskOf, KindOf, ItemFrom, TrimStart;
    match kind
    case Bullet =>
      LineMatches(depth, "-", item.text);
      MarkerReads("-", item.text);
      assert ItemLine(kind, item, depth) == Spaces(2 * depth) + ("-" + (" " + item.text));
    case Ordered =>
      LineMatches(depth, "1.", item.text);
      MarkerReads("1.", item.text);
      assert ItemLine(kind, item, depth) == Spaces(2 * depth) + ("1." + (" " + item.text));
    case Task =>
      var on := item.checked.value;
      assert item.checked == Some(on);
      var content := Boxed(on, item.text);
      TaskReads(on, item.text);
      LineMatches(depth, "-", content);
      MarkerReads("-", content);
      assert ItemLine(kind, item, depth) == Spaces(2 * depth) + ("-" + (" " + content));
  }

  function Boxed(checked: bool, text: string): string {
    (if checked then "[x]" else "[ ]") + (" " + text)
  }

  lemma TaskReads(checked: bool, text: string)
    requires '\n' !in text && (text != "" ==> !IsSpace(text[0]))
    ensures var content := Boxed(checked, text);
            TaskOf(content) == Some((checked, text)) && '\n' !in content && content != "" && !IsSpace(content[0])
  {
    var content := Boxed(checked, text);
    OneSpace(text);
    assert content[3..] == " " + text;
  }

  lemma MarkerReads(marker: string, content: string)
    requires marker == "-" || marker == "1."
    ensures marker == "1." ==> KindOf(marker, content) == Ordered
    ensures marker == "-" ==> KindOf(marker, content) == (if TaskOf(content).Some? then Task else Bullet)
    ensures ItemFrom(marker, content) ==
            if marker == "-" && TaskOf(content).Some? then Item(Some(TaskOf(content).value.0), TaskOf(content).value.1, [])
            else Item(None, content, [])
  {
    hide TaskOf;
    if marker == "1." { assert marker[0] == '1' && '1' in marker; }
  }

  lemma LineMatches(depth: nat, marker: string, content: string)
    requires marker == "-" || marker == "1."
    requires '\n' !in content && (content != "" ==> !IsSpace(content[0]))
    ensures var line := Spaces(2 * depth) + (marker + (" " + content));
            Indent(line) == 2 * depth && ItemOf(line) == Some((marker, content))
  {
    hide ItemOf, Indent, TrimStart;
    var rest := marker + (" " + content);
    assert rest[0] == marker[0];
    SpacesTrimmed(2 * depth, rest);
    MarkerFound(Spaces(2 * depth) + rest, marker, content);
  }

  lemma MarkerFound(line: string, marker: string, content: string)
    requires marker == "-" || marker == "1."
    requires TrimStart(line) == marker + (" " + content)
    requires '\n' !in content && (content != "" ==> !IsSpace(content[0]))
    ensures ItemOf(line) == Some((marker, content))
  {
    hide TrimStart;
    var rest := marker + (" " + content);
    OneSpace(content);
    var w := |marker|;
    assert rest[w..] == " " + content && rest[..w] == marker && rest[w] == ' ';
    if marker == "1." { NumberDigits(rest); }
  }

  lemma NumberDigits(rest: string)
    requires |rest| > 2 && rest[0] == '1' && rest[1] == '.'
    ensures Digits(rest) == 1
  {
    assert rest[1..][0] == '.';
    assert Digits(rest[1..]) == 0;
  }
}
