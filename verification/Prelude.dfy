/** `packages/core/src/prelude.js` and its twin `services/repair-api/src/repair_api/compose.py`. */
module Prelude {
  import opened Seqs
  import opened Text

  const MARKER_START := "/* ===== C Repair inferred context ===== */"
  const MARKER_END := "/* ===== Original source ===== */"
  const PRELUDE_NOTE := "/* Auto-generated provisional context. " + "Not part of Original source. */"

  /** `contract/types.ts` ContextAugmentationItem, as far as composition and review read it. */
  datatype Item = Item(
    id: string, kind: string, generatedText: string, currentText: string, provenance: string, userEdited: bool)

  function ItemLines(items: seq<Item>): seq<string> {
    if items == [] then [] else ItemLines(items[..|items| - 1]) + Split(items[|items| - 1].currentText)
  }

  function PreludeLines(items: seq<Item>): seq<string> {
    [MARKER_START, PRELUDE_NOTE] + ItemLines(items) + [MARKER_END, ""]
  }

  method BuildPreludeLines(items: seq<Item>) returns (lines: seq<string>)
    ensures lines == PreludeLines(items)
  {
    lines := [MARKER_START, PRELUDE_NOTE];
    for i := 0 to |items|
      invariant lines == [MARKER_START, PRELUDE_NOTE] + ItemLines(items[..i])
    {
      var text := Split(items[i].currentText);
      assert items[..i + 1][..i] == items[..i];
      for j := 0 to |text|
        invariant lines == [MARKER_START, PRELUDE_NOTE] + ItemLines(items[..i]) + text[..j]
      {
        lines := lines + [text[j]];
      }
      assert text[..|text|] == text;
    }
    assert items[..|items|] == items;
    lines := lines + [MARKER_END];
    lines := lines + [""];
  }

  function SynthesizedLineCount(items: seq<Item>): nat {
    |PreludeLines(items)|
  }

  function ComposeAugmentedC(items: seq<Item>, original: string): string {
    Join(PreludeLines(items)) + "\n" + original
  }

  lemma {:induction false} ItemLinesOneLiners(items: seq<Item>)
    ensures OneLiners(ItemLines(items))
  {
    if items == [] {
    } else {
      ItemLinesOneLiners(items[..|items| - 1]);
      SplitIsOneLiners(items[|items| - 1].currentText);
    }
  }

  lemma PreludeOneLiners(items: seq<Item>)
    ensures OneLiners(PreludeLines(items))
  {
    ItemLinesOneLiners(items);
    FixedLines();
    OneLinersAppend([MARKER_START, PRELUDE_NOTE], ItemLines(items));
    OneLinersAppend([MARKER_START, PRELUDE_NOTE] + ItemLines(items), [MARKER_END, ""]);
  }

  lemma FixedLines()
    ensures OneLiners([MARKER_START, PRELUDE_NOTE]) && OneLiners([MARKER_END, ""])
  {
    NoteHasNoNewline();
  }

  lemma NoteHasNoNewline()
    ensures '\n' !in PRELUDE_NOTE
  {
    assert '\n' !in "/* Auto-generated provisional context. " && '\n' !in "Not part of Original source. */";
  }

  lemma OneLinersAppend(a: seq<string>, b: seq<string>)
    requires OneLiners(a) && OneLiners(b)
    ensures OneLiners(a + b)
  {
  }

  /** The composed text splits into the prelude lines followed by the lines of the Original. */
  lemma ComposedLines(items: seq<Item>, original: string)
    ensures Split(ComposeAugmentedC(items, original)) == PreludeLines(items) + Split(original)
  {
    var lines := PreludeLines(items);
    PreludeOneLiners(items);
    SplitIsOneLiners(original);
    FlattenIsJoin(lines);
    JoinSplit(original);
    JoinAppend(lines, Split(original));
    SplitJoin(lines + Split(original));
  }

  /** Line `n` of the Original is line `n + prelude` of the composed text, and the other way round. */
  lemma CoordinateLaw(items: seq<Item>, original: string, augmentedLine: int)
    ensures var remapped := augmentedLine - SynthesizedLineCount(items);
            var composed := Split(ComposeAugmentedC(items, original));
            && |composed| == SynthesizedLineCount(items) + |Split(original)|
            && (1 <= augmentedLine <= |composed| ==>
                 composed[augmentedLine - 1]
                 == if remapped >= 1 then Split(original)[remapped - 1] else PreludeLines(items)[augmentedLine - 1])
  {
    ComposedLines(items, original);
    JoinedAt(PreludeLines(items), Split(original), augmentedLine - 1);
  }

  lemma JoinedAt(a: seq<string>, b: seq<string>, i: int)
    ensures 0 <= i < |a| + |b| ==> (a + b)[i] == if i < |a| then a[i] else b[i - |a|]
  {
  }

  // --- the composed text, item by item -----------------------------------------------------

  /** The declarations in the order of the items, each followed by a newline. */
  function Declarations(items: seq<Item>): string {
    if items == [] then "" else items[0].currentText + "\n" + Declarations(items[1..])
  }

  function DeclaredLines(items: seq<Item>): nat {
    if items == [] then 0 else |Split(items[0].currentText)| + DeclaredLines(items[1..])
  }

  lemma {:induction false} ItemLinesAppend(a: seq<Item>, b: seq<Item>)
    ensures ItemLines(a + b) == ItemLines(a) + ItemLines(b)
  {
    if b == [] {
      assert a + b == a;
    } else {
      var init, last := b[..|b| - 1], b[|b| - 1];
      ItemLinesAppend(a, init);
      assert a + b == (a + init) + [last] && (a + b)[..|a + b| - 1] == a + init;
      Associates(ItemLines(a), ItemLines(init), Split(last.currentText));
    }
  }

  lemma ItemLinesFirst(items: seq<Item>)
    requires items != []
    ensures ItemLines(items) == Split(items[0].currentText) + ItemLines(items[1..])
  {
    assert items == [items[0]] + items[1..] && [items[0]][..0] == [];
    ItemLinesAppend([items[0]], items[1..]);
    NothingFirst(ItemLines([]), Split(items[0].currentText));
  }

  lemma {:induction false} ItemLinesText(items: seq<Item>)
    ensures Flatten(ItemLines(items)) == Declarations(items) && |ItemLines(items)| == DeclaredLines(items)
  {
    if items == [] {
    } else {
      ItemLinesText(items[1..]);
      ItemLinesFirst(items);
      FlattenAppend(Split(items[0].currentText), ItemLines(items[1..]));
      TerminatedLines(items[0].currentText);
    }
  }

  lemma TwoLines(a: string, b: string)
    ensures Flatten([a, b]) == (a + "\n") + (b + "\n") && Join([a, b]) == (a + "\n") + b
  {
    assert [a, b][1..] == [b] && [b][1..] == [];
    NothingLast(b + "\n", Flatten([]));
  }

  /**
   The composed text is the two opening lines, the declarations in order, the marker, one
   blank line, and the Original; the prelude has four lines more than the declarations.
   */
  lemma ComposedText(items: seq<Item>, original: string)
    ensures ComposeAugmentedC(items, original)
         == (MARKER_START + "\n") + (PRELUDE_NOTE + "\n") + Declarations(items) + (MARKER_END + "\n") + "\n" + original
    ensures SynthesizedLineCount(items) == 4 + DeclaredLines(items)
  {
    hide ItemLines, Declarations, Flatten, Join, MARKER_START, PRELUDE_NOTE, MARKER_END;
    JoinAppend([MARKER_START, PRELUDE_NOTE] + ItemLines(items), [MARKER_END, ""]);
    FlattenAppend([MARKER_START, PRELUDE_NOTE], ItemLines(items));
    ItemLinesText(items);
    TwoLines(MARKER_START, PRELUDE_NOTE);
    TwoLines(MARKER_END, "");
    NothingLast(MARKER_END + "\n", "");
  }
}
