/** Rendering a tree of lists and reading it back. */
module MarkdownTrees {
  import opened Basics
  import opened MarkdownInline
  import opened MarkdownLists

  // ---- What reading a rendered tree gives -------------------------------------------------------

  /** An item joins the last list when it is of that kind, and starts a list otherwise. */
  function JoinItem(lists: seq<List>, kind: Kind, item: Item): seq<List> {
    var n := |lists| - 1;
    if lists != [] && lists[n].kind == kind then lists[..n] + [List(kind, lists[n].items + [item])]
    else lists + [List(kind, [item])]
  }

  function JoinItems(lists: seq<List>, kind: Kind, items: seq<Item>): seq<List>
    decreases items, 0
  {
    if items == [] then lists
    else JoinItems(JoinItem(lists, kind, items[0].(children := Joined([], items[0].children))), kind, items[1..])
  }

  /** The lists, neighbours of one kind run together, at every level. */
  function Joined(before: seq<List>, lists: seq<List>): seq<List>
    decreases lists, 1
  {
    if lists == [] then before else Joined(JoinItems(before, lists[0].kind, lists[0].items), lists[1..])
  }

  // ---- The fold over lines ------------------------------------------------------------------------

  lemma {:induction false} ReadConcat(s: Reading, base: nat, a: seq<string>, b: seq<string>, n: nat)
    requires Sane(s) && Load(s) + |a| + |b| <= n
    ensures ReadAll(s, base, a + b, n) == ReadAll(ReadAll(s, base, a, n), base, b, n)
    decreases |a|
  {
    hide Next, Closed;
    if a == [] {
      assert a + b == b;
    } else {
      assert (a + b)[1..] == a[1..] + b && (a + b)[0] == a[0];
      ReadConcat(Next(s, base, a[0], n), base, a[1..], b, n);
    }
  }

  /** Lines off the base indent gather under the last item. */
  lemma {:induction false} ReadDeeper(s: Reading, base: nat, lines: seq<string>, n: nat)
    requires Sane(s) && Load(s) + |lines| <= n
    requires forall l :: l in lines ==> Indent(l) > base
    ensures ReadAll(s, base, lines, n) == s.(nested := s.nested + lines)
    decreases |lines|
  {
    hide ItemOf, Closed;
    if lines == [] {
      assert s.nested + [] == s.nested;
    } else {
      ReadDeeper(s.(nested := s.nested + [lines[0]]), base, lines[1..], n);
      assert s.nested + [lines[0]] + lines[1..] == s.nested + lines;
    }
  }

  lemma {:induction false} ItemLinesDeep(kind: Kind, items: seq<Item>, depth: nat)
    requires RenderableItems(kind, items)
    ensures forall l :: l in ItemLines(kind, items, depth) ==> Indent(l) >= 2 * depth
    ensures items != [] ==> ItemLines(kind, items, depth) != [] && Indent(ItemLines(kind, items, depth)[0]) == 2 * depth
    decreases items
  {
    hide Indent, ItemLine;
    if items != [] {
      ItemFits(kind, items);
      LineReads(kind, items[0], depth);
      LinesDeep(items[0].children, depth + 1);
      ItemLinesDeep(kind, items[1..], depth);
    }
  }

  lemma {:induction false} LinesDeep(lists: seq<List>, depth: nat)
    requires Renderable(lists)
    ensures forall l :: l in Lines(lists, depth) ==> Indent(l) >= 2 * depth
    ensures lists != [] ==> Lines(lists, depth) != [] && Indent(Lines(lists, depth)[0]) == 2 * depth
    decreases lists
  {
    hide Indent;
    if lists != [] {
      ListFits(lists);
      ItemLinesDeep(lists[0].kind, lists[0].items, depth);
      LinesDeep(lists[1..], depth);
    }
  }

  lemma ItemFits(kind: Kind, items: seq<Item>)
    requires RenderableItems(kind, items) && items != []
    ensures TextFits(kind, items[0].text) && (kind == Task <==> items[0].checked.Some?) && Renderable(items[0].children)
    ensures RenderableItems(kind, items[1..])
  {
  }

  lemma ListFits(lists: seq<List>)
    requires Renderable(lists) && lists != []
    ensures lists[0].items != [] && RenderableItems(lists[0].kind, lists[0].items) && Renderable(lists[1..])
  {
  }

  lemma {:induction false} BaseIs(lines: seq<string>, base: nat)
    requires lines != [] && Indent(lines[0]) == base && forall l :: l in lines ==> Indent(l) >= base
    ensures Base(lines) == base
  {
    BaseAtLeast(lines, base);
  }

  lemma {:induction false} BaseAtLeast(lines: seq<string>, base: nat)
    requires lines != [] && forall l :: l in lines ==> Indent(l) >= base
    ensures Base(lines) >= base && Base(lines) <= Indent(lines[0])
  {
    if |lines| > 1 { BaseAtLeast(lines[1..], base); }
  }

  /** Lines nested under the last item become its children. */
  lemma FillLast(finished: seq<List>, kind: Kind, items: seq<Item>, item: Item, nested: seq<string>, n: nat)
    requires item.children == [] && 1 + |nested| <= n
    ensures Settled(Reading(finished, Some(List(kind, items + [item])), nested), n)
         == finished + [List(kind, items + [item.(children := if nested == [] then [] else ParseLists(nested))])]
  {
    hide ParseLists;
    var list := List(kind, items + [item]);
    assert list.items[..|items|] == items;
    assert item.(children := []) == item;
    if nested != [] { assert [] + ParseLists(nested) == ParseLists(nested); }
  }

  lemma JoinLast(finished: seq<List>, kind: Kind, items: seq<Item>, item: Item)
    ensures JoinItem(finished + [List(kind, items)], kind, item) == finished + [List(kind, items + [item])]
  {
    var lists := finished + [List(kind, items)];
    assert lists[..|lists| - 1] == finished;
  }

  /** An item's own line, then the lines nested under it. */
  lemma NextSettles(s: Reading, base: nat, line: string, kind: Kind, item: Item, nested: seq<string>, n: nat)
    requires Sane(s) && Load(s) + 1 + |nested| <= n
    requires ItemOf(line).Some? && Indent(line) == base
    requires KindOf(ItemOf(line).value.0, ItemOf(line).value.1) == kind && ItemFrom(ItemOf(line).value.0, ItemOf(line).value.1) == item
    requires item.children == []
    ensures var s' := Next(s, base, line, n);
            && Load(s') == 1 && s'.nested == []
            && Settled(s'.(nested := nested), n)
            == JoinItem(Settled(s, n), kind, item.(children := if nested == [] then [] else ParseLists(nested)))
  {
    hide ItemOf, Indent, KindOf, ItemFrom, ParseLists, Closed;
    var before := Closed(s, n);
    var s' := Next(s, base, line, n);
    var filled := item.(children := if nested == [] then [] else ParseLists(nested));
    if before.Some? && before.value.kind == kind {
      FillLast(s.finished, kind, before.value.items, item, nested, n);
      JoinLast(s.finished, kind, before.value.items, filled);
    } else {
      var finished := s.finished + ListsOf(before);
      assert finished == Settled(s, n);
      assert [] + [item] == [item] && [] + [filled] == [filled];
      FillLast(finished, kind, [], item, nested, n);
    }
  }

  /** Reading the lines of rendered items adds those items. */
  lemma {:induction false} ReadItems(s: Reading, kind: Kind, items: seq<Item>, depth: nat, n: nat)
    requires RenderableItems(kind, items) && Sane(s) && Load(s) + |ItemLines(kind, items, depth)| <= n
    ensures Settled(ReadAll(s, 2 * depth, ItemLines(kind, items, depth), n), n) == JoinItems(Settled(s, n), kind, items)
    decreases items, 0
  {
    hide ItemOf, Indent, KindOf, ItemFrom, ItemLine, Closed, Next, Settled, JoinItem, RenderableItems, Renderable, TextFits, ParseLists;
    if items != [] {
      ItemFits(kind, items);
      var base, line, nested, rest := 2 * depth, ItemLine(kind, items[0], depth), Lines(items[0].children, depth + 1), ItemLines(kind, items[1..], depth);
      LineReads(kind, items[0], depth);
      LinesDeep(items[0].children, depth + 1);
      LinesRead(items[0].children, depth + 1);
      var s1 := Next(s, base, line, n);
      NextSettles(s, base, line, kind, Item(items[0].checked, items[0].text, []), nested, n);
      var s2 := s1.(nested := nested);
      assert ItemLines(kind, items, depth) == [line] + (nested + rest);
      assert ([line] + (nested + rest))[1..] == nested + rest;
      ReadConcat(s1, base, nested, rest, n);
      ReadDeeper(s1, base, nested, n);
      assert [] + nested == nested;
      ReadItems(s2, kind, items[1..], depth, n);
      assert items[0].(children := Joined([], items[0].children))
          == Item(items[0].checked, items[0].text, if nested == [] then [] else ParseLists(nested));
    }
  }

  lemma {:induction false} ReadTree(s: Reading, lists: seq<List>, depth: nat, n: nat)
    requires Renderable(lists) && Sane(s) && Load(s) + |Lines(lists, depth)| <= n
    ensures Settled(ReadAll(s, 2 * depth, Lines(lists, depth), n), n) == Joined(Settled(s, n), lists)
    decreases lists, 1
  {
    hide ItemLines, Closed, Next, Settled, JoinItems, RenderableItems, Renderable, ReadAll;
    if lists != [] {
      ListFits(lists);
      var first, rest := ItemLines(lists[0].kind, lists[0].items, depth), Lines(lists[1..], depth);
      ReadConcat(s, 2 * depth, first, rest, n);
      ReadItems(s, lists[0].kind, lists[0].items, depth, n);
      ReadTree(ReadAll(s, 2 * depth, first, n), lists[1..], depth, n);
    } else {
      assert ReadAll(s, 2 * depth, [], n) == s by { ReadNothing(s, 2 * depth, n); }
    }
  }

  lemma ReadNothing(s: Reading, base: nat, n: nat)
    requires Sane(s) && Load(s) <= n
    ensures ReadAll(s, base, [], n) == s
  {
  }

  /** Reading a rendered tree gives the tree with neighbouring lists of one kind run together. */
  lemma {:induction false} LinesRead(lists: seq<List>, depth: nat)
    requires Renderable(lists)
    ensures ParseLists(Lines(lists, depth)) == Joined([], lists)
    ensures Lines(lists, depth) == [] <==> lists == []
    decreases lists, 2
  {
    hide ItemLines, Closed, Next, JoinItems, RenderableItems, Renderable, ReadAll, Joined, Indent, Base;
    var lines := Lines(lists, depth);
    var start := Reading([], None, []);
    LinesDeep(lists, depth);
    ReadTree(start, lists, depth, |lines|);
    assert Settled(start, |lines|) == [] by { NothingRead(|lines|); }
    if lines != [] {
      BaseIs(lines, 2 * depth);
    } else {
      assert lists == [];
      ReadNothing(start, Base(lines), 0);
      ReadNothing(start, 2 * depth, 0);
    }
  }

  lemma NothingRead(n: nat)
    ensures Settled(Reading([], None, []), n) == []
  {
  }

  // ---- When the tree comes back ------------------------------------------------------------------

  /** Neighbouring lists differ in kind, at every level. */
  predicate Alternating(lists: seq<List>)
    decreases lists
  {
    && (forall i | 0 <= i < |lists| - 1 :: lists[i].kind != lists[i + 1].kind)
    && forall i | 0 <= i < |lists| :: AlternatingItems(lists[i].items)
  }

  predicate AlternatingItems(items: seq<Item>)
    decreases items
  {
    forall i | 0 <= i < |items| :: Alternating(items[i].children)
  }

  function JoinedItem(item: Item): Item {
    item.(children := Joined([], item.children))
  }

  function JoinedItems(items: seq<Item>): (r: seq<Item>)
    ensures |r| == |items|
    ensures forall i | 0 <= i < |items| :: r[i] == JoinedItem(items[i])
  {
    if items == [] then [] else [JoinedItem(items[0])] + JoinedItems(items[1..])
  }

  predicate EndsIn(lists: seq<List>, kind: Kind) {
    lists != [] && lists[|lists| - 1].kind == kind
  }

  function JoinMany(lists: seq<List>, kind: Kind, items: seq<Item>): seq<List> {
    if EndsIn(lists, kind) then lists[..|lists| - 1] + [List(kind, lists[|lists| - 1].items + items)]
    else lists + [List(kind, items)]
  }

  lemma JoinManyTwice(lists: seq<List>, kind: Kind, a: seq<Item>, b: seq<Item>)
    ensures JoinMany(JoinMany(lists, kind, a), kind, b) == JoinMany(lists, kind, a + b)
  {
    if EndsIn(lists, kind) {
      var front, last := lists[..|lists| - 1], lists[|lists| - 1];
      assert (front + [List(kind, last.items + a)])[..|front|] == front;
      assert last.items + a + b == last.items + (a + b);
    } else {
      assert (lists + [List(kind, a)])[..|lists|] == lists;
    }
  }

  /** Joining items to a list of their kind extends it; otherwise they make a list. */
  lemma {:induction false} JoinItemsIs(lists: seq<List>, kind: Kind, items: seq<Item>)
    requires items != []
    ensures JoinItems(lists, kind, items) == JoinMany(lists, kind, JoinedItems(items))
    decreases |items|
  {
    hide Joined, JoinMany;
    var first, rest := JoinedItem(items[0]), items[1..];
    assert JoinedItems(items) == [first] + JoinedItems(rest);
    assert JoinItem(lists, kind, first) == JoinMany(lists, kind, [first]) by { JoinOne(lists, kind, first); }
    if rest == [] {
      assert JoinedItems(items) == [first];
    } else {
      JoinItemsIs(JoinItem(lists, kind, first), kind, rest);
      JoinManyTwice(lists, kind, [first], JoinedItems(rest));
    }
  }

  lemma JoinOne(lists: seq<List>, kind: Kind, item: Item)
    ensures JoinItem(lists, kind, item) == JoinMany(lists, kind, [item])
  {
  }

  lemma JoinManyLength(lists: seq<List>, kind: Kind, items: seq<Item>)
    ensures |JoinMany(lists, kind, items)| == |lists| + (if EndsIn(lists, kind) then 0 else 1)
    ensures EndsIn(JoinMany(lists, kind, items), kind)
    ensures !EndsIn(lists, kind) ==> JoinMany(lists, kind, items) == lists + [List(kind, items)]
  {
  }

  ghost predicate NonEmpty(lists: seq<List>) { forall i | 0 <= i < |lists| :: lists[i].items != [] }

  predicate Differ(lists: seq<List>) { forall i | 0 <= i < |lists| - 1 :: lists[i].kind != lists[i + 1].kind }

  function JoinedEach(lists: seq<List>): (r: seq<List>)
    ensures |r| == |lists|
    ensures forall i | 0 <= i < |lists| :: r[i] == List(lists[i].kind, JoinedItems(lists[i].items))
  {
    if lists == [] then [] else [List(lists[0].kind, JoinedItems(lists[0].items))] + JoinedEach(lists[1..])
  }

  /** Joining keeps the number of lists exactly when no two neighbours are of one kind, and then keeps them
      apart. */
  lemma {:induction false} JoinedCount(before: seq<List>, lists: seq<List>)
    requires NonEmpty(lists)
    ensures |Joined(before, lists)| <= |before| + |lists|
    ensures |Joined(before, lists)| == |before| + |lists| <==>
            Differ(lists) && (lists != [] ==> !EndsIn(before, lists[0].kind))
    ensures |Joined(before, lists)| == |before| + |lists| ==> Joined(before, lists) == before + JoinedEach(lists)
    decreases |lists|
  {
    hide JoinItems, JoinedItems, JoinMany, Differ;
    if lists == [] {
      assert before + JoinedEach(lists) == before;
      assert Differ(lists) by { NoneDiffer(); }
    } else {
      var kind, items, rest := lists[0].kind, lists[0].items, lists[1..];
      var step := JoinMany(before, kind, JoinedItems(items));
      JoinItemsIs(before, kind, items);
      JoinManyLength(before, kind, JoinedItems(items));
      JoinedCount(step, rest);
      DifferStep(lists);
      assert [List(kind, JoinedItems(items))] + JoinedEach(rest) == JoinedEach(lists);
      assert before + [List(kind, JoinedItems(items))] + JoinedEach(rest) == before + ([List(kind, JoinedItems(items))] + JoinedEach(rest));
    }
  }

  lemma NoneDiffer()
    ensures Differ([])
  {
  }

  lemma DifferStep(lists: seq<List>)
    requires lists != []
    ensures Differ(lists) <==> Differ(lists[1..]) && (|lists| > 1 ==> lists[0].kind != lists[1].kind)
  {
    if Differ(lists[1..]) && (|lists| > 1 ==> lists[0].kind != lists[1].kind) {
      forall i | 0 <= i < |lists| - 1 ensures lists[i].kind != lists[i + 1].kind {
        if i > 0 { assert lists[1..][i - 1].kind != lists[1..][i].kind; }
      }
    }
  }

  lemma JoinedEachSame(lists: seq<List>)
    ensures JoinedEach(lists) == lists <==> forall i | 0 <= i < |lists| :: JoinedItems(lists[i].items) == lists[i].items
  {
    hide JoinedItems, JoinedEach;
    if forall i | 0 <= i < |lists| :: JoinedItems(lists[i].items) == lists[i].items {
      assert forall i | 0 <= i < |lists| :: JoinedEach(lists)[i] == lists[i];
    }
    if JoinedEach(lists) == lists {
      forall i | 0 <= i < |lists| ensures JoinedItems(lists[i].items) == lists[i].items { assert JoinedEach(lists)[i] == lists[i]; }
    }
  }

  lemma RenderableNonEmpty(lists: seq<List>)
    requires Renderable(lists)
    ensures NonEmpty(lists)
  {
    hide RenderableItems;
  }

  /** Joining changes nothing exactly in an alternating tree. */
  lemma {:induction false} JoinedIff(lists: seq<List>)
    requires Renderable(lists)
    ensures Joined([], lists) == lists <==> Alternating(lists)
    decreases lists
  {
    hide Joined, JoinedItems, JoinedEach, RenderableItems, AlternatingItems;
    RenderableNonEmpty(lists);
    JoinedCount([], lists);
    assert [] + JoinedEach(lists) == JoinedEach(lists);
    JoinedEachSame(lists);
    forall i | 0 <= i < |lists| ensures JoinedItems(lists[i].items) == lists[i].items <==> AlternatingItems(lists[i].items) {
      JoinedItemsIff(lists[i].kind, lists[i].items);
    }
  }

  lemma {:induction false} JoinedItemsIff(kind: Kind, items: seq<Item>)
    requires RenderableItems(kind, items)
    ensures JoinedItems(items) == items <==> AlternatingItems(items)
    decreases items
  {
    hide Joined, JoinedItems;
    forall i | 0 <= i < |items| ensures JoinedItem(items[i]) == items[i] <==> Alternating(items[i].children) {
      JoinedIff(items[i].children);
    }
    if AlternatingItems(items) {
      assert forall i | 0 <= i < |items| :: JoinedItems(items)[i] == items[i];
    }
  }

  /** Reading inverts rendering, kinds, order, texts and states included, exactly for trees whose
      neighbouring lists differ in kind. */
  lemma RenderedReadsBackIff(lists: seq<List>, depth: nat)
    requires Renderable(lists)
    ensures ParseLists(Lines(lists, depth)) == lists <==> Alternating(lists)
  {
    LinesRead(lists, depth);
    JoinedIff(lists);
  }

  // ---- Trees of plain text ------------------------------------------------------------------------

  /** The tree with every text escaped. */
  function EscapedTree(lists: seq<List>): (r: seq<List>)
    ensures |r| == |lists|
    decreases lists
  {
    if lists == [] then [] else [List(lists[0].kind, EscapedItems(lists[0].items))] + EscapedTree(lists[1..])
  }

  function EscapedItems(items: seq<Item>): (r: seq<Item>)
    ensures |r| == |items|
    decreases items
  {
    if items == [] then []
    else [Item(items[0].checked, Fully(items[0].text), EscapedTree(items[0].children))] + EscapedItems(items[1..])
  }

  predicate PlainTree(lists: seq<List>)
    decreases lists
  {
    lists == [] || (lists[0].items != [] && PlainItems(lists[0].kind, lists[0].items) && PlainTree(lists[1..]))
  }

  predicate PlainItems(kind: Kind, items: seq<Item>)
    decreases items
  {
    items == [] || ('\n' !in items[0].text && (kind == Task <==> items[0].checked.Some?) && PlainTree(items[0].children)
                    && PlainItems(kind, items[1..]))
  }

  /** Escaped text fits on the line of any item. */
  lemma EscapedFits(kind: Kind, text: string)
    requires '\n' !in text
    ensures TextFits(kind, Fully(text))
  {
    hide Fully;
    FullyChars(text);
    var t := Fully(text);
    forall i | 0 <= i < |t| ensures t[i] != '\n' {
      var j := i / 2;
      assert i == 2 * j || i == 2 * j + 1;
      assert t[2 * j] == '\\' && t[2 * j + 1] == text[j];
    }
    if text != "" { assert t[2 * 0] == '\\'; }
  }

  lemma {:induction false} EscapedRenderable(lists: seq<List>)
    requires PlainTree(lists)
    ensures Renderable(EscapedTree(lists))
    ensures Alternating(lists) <==> Alternating(EscapedTree(lists))
    decreases lists
  {
    hide TextFits, Fully;
    if lists != [] {
      var head, rest := EscapedItems(lists[0].items), EscapedTree(lists[1..]);
      EscapedItemsRenderable(lists[0].kind, lists[0].items);
      EscapedRenderable(lists[1..]);
      var all := EscapedTree(lists);
      assert all == [List(lists[0].kind, head)] + rest;
      AlternatingStep(lists);
      AlternatingStep(all);
      assert all[1..] == rest;
      assert |lists| > 1 ==> rest[0].kind == lists[1..][0].kind;
      forall i | 0 <= i < |all| ensures all[i].items != [] && RenderableItems(all[i].kind, all[i].items) {
        if i > 0 { assert all[i] == rest[i - 1]; }
      }
    }
  }

  lemma {:induction false} EscapedItemsRenderable(kind: Kind, items: seq<Item>)
    requires PlainItems(kind, items)
    ensures RenderableItems(kind, EscapedItems(items))
    ensures AlternatingItems(items) <==> AlternatingItems(EscapedItems(items))
    decreases items
  {
    hide TextFits, Fully;
    if items != [] {
      EscapedFits(kind, items[0].text);
      EscapedRenderable(items[0].children);
      EscapedItemsRenderable(kind, items[1..]);
      var all, rest := EscapedItems(items), EscapedItems(items[1..]);
      assert all[1..] == rest;
      AlternatingItemsStep(items);
      AlternatingItemsStep(all);
      forall i | 0 <= i < |all|
        ensures TextFits(kind, all[i].text) && (kind == Task <==> all[i].checked.Some?) && Renderable(all[i].children)
      {
        if i > 0 { assert all[i] == rest[i - 1]; }
      }
    }
  }

  lemma AlternatingStep(lists: seq<List>)
    requires lists != []
    ensures Alternating(lists) <==>
            AlternatingItems(lists[0].items) && Alternating(lists[1..]) && (|lists| > 1 ==> lists[0].kind != lists[1].kind)
  {
    hide AlternatingItems;
    DifferStep(lists);
    assert forall i | 0 < i < |lists| :: lists[1..][i - 1] == lists[i];
    assert forall i | 0 <= i < |lists| - 1 :: lists[1..][i] == lists[i + 1];
  }

  lemma AlternatingItemsStep(items: seq<Item>)
    requires items != []
    ensures AlternatingItems(items) <==> Alternating(items[0].children) && AlternatingItems(items[1..])
  {
    hide Alternating;
    assert forall i | 0 < i < |items| :: items[1..][i - 1] == items[i];
    assert forall i | 0 <= i < |items| - 1 :: items[1..][i] == items[i + 1];
  }

  /** Any tree of plain texts, escaped, rendered and read, comes back whole when its neighbouring lists
      differ in kind, and each text then reads as one unmarked run. */
  lemma PlainTreeReadsBack(word: Alphabet, lists: seq<List>, depth: nat)
    requires PlainTree(lists)
    ensures ParseLists(Lines(EscapedTree(lists), depth)) == EscapedTree(lists) <==> Alternating(lists)
    ensures forall text :: Inline(word, Fully(text), map[]) == if text == "" then [] else [Run(text, map[])]
  {
    hide Inline, Fully, ParseLists;
    EscapedRenderable(lists);
    RenderedReadsBackIff(EscapedTree(lists), depth);
    forall text ensures Inline(word, Fully(text), map[]) == if text == "" then [] else [Run(text, map[])] {
      FullyReadsBack(word, text, map[]);
    }
  }
}
