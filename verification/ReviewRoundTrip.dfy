/** What parsing a review document guarantees, and what it recovers. */
module ReviewRoundTrip {
  import opened DedupeIncludes
  import opened Options
  import opened Prelude
  import opened ReviewDoc
  import opened Seqs
  import opened StripComments
  import opened Text

  // --- soundness -----------------------------------------------------------------

  ghost predicate DistinctIds(items: seq<Item>) {
    forall i, j | 0 <= i < j < |items| :: items[i].id != items[j].id
  }

  /** The sections a text has in front of its first marker line. */
  function SectionsOf(text: string): seq<Section> {
    SectionsFrom(Split(Join(Split(text)[..MarkerIndex(Split(text))])), None, [])
  }

  lemma {:induction false} NoObjection(sections: seq<Section>, k: nat, drafts: seq<Item>)
    requires k <= |sections|
    ensures Objection(sections, k, drafts) == None
       <==> forall i | k <= i < |sections| ::
              HasId(drafts, sections[i].id) && !Seen(sections[..i], sections[i].id) && Trim(sections[i].body) != ""
    decreases |sections| - k
  {
    if k >= |sections| {
    } else {
      NoObjection(sections, k + 1, drafts);
    }
  }

  lemma {:induction false} NothingMissing(sections: seq<Section>, drafts: seq<Item>)
    ensures Missing(sections, drafts) == None <==> forall i | 0 <= i < |drafts| :: Seen(sections, drafts[i].id)
  {
    if drafts == [] {
    } else {
      NothingMissing(sections, drafts[1..]);
      if Missing(sections, drafts) == None {
        forall i | 0 <= i < |drafts| ensures Seen(sections, drafts[i].id) {
          assert i > 0 ==> drafts[i] == drafts[1..][i - 1];
        }
      }
    }
  }

  lemma {:induction false} BodyOfSeen(sections: seq<Section>, id: string)
    ensures BodyOf(sections, id).Some? <==> Seen(sections, id)
    ensures BodyOf(sections, id).Some? ==>
              exists k | 0 <= k < |sections| :: sections[k].id == id && sections[k].body == BodyOf(sections, id).value
  {
    if sections == [] {
    } else {
      var n := |sections| - 1;
      BodyOfSeen(sections[..n], id);
      if Seen(sections, id) && sections[n].id != id {
        var i :| 0 <= i < |sections| && sections[i].id == id;
        assert sections[..n][i].id == id;
      }
      if BodyOf(sections[..n], id).Some? {
        var k :| 0 <= k < n && sections[..n][k].id == id && sections[..n][k].body == BodyOf(sections[..n], id).value;
        assert sections[k] == sections[..n][k];
      }
    }
  }

  /** A section of the document that the parse put into an item. */
  ghost predicate Supplies(sec: Section, draft: Item, item: Item) {
    && sec.id == draft.id == item.id && item.currentText == sec.body && Trim(sec.body) != ""
    && item.kind == draft.kind && item.generatedText == draft.generatedText
    && (item.userEdited <==> draft.userEdited || sec.body != draft.generatedText)
    && item.provenance == if sec.body != draft.generatedText then "user_corrected" else draft.provenance
  }

  lemma ParsedMeans(text: string, drafts: seq<Item>, original: string)
    ensures var lines, r := Split(text), Parse(text, drafts, original);
            (r.Parsed? <==>
              && MarkerIndex(lines) < |lines|
              && Join(lines[MarkerIndex(lines) + 1..]) == CodeTail(drafts, original)
              && SectionsOf(text) != []
              && Objection(SectionsOf(text), 0, drafts) == None && Missing(SectionsOf(text), drafts) == None)
            && (r.Parsed? ==> r.items == UpdatedAll(drafts, SectionsOf(text)))
  {
  }

  lemma SectionsBiject(sections: seq<Section>, drafts: seq<Item>)
    requires Objection(sections, 0, drafts) == None && Missing(sections, drafts) == None
    ensures forall i, j | 0 <= i < j < |sections| :: sections[i].id != sections[j].id
    ensures forall i | 0 <= i < |sections| :: HasId(drafts, sections[i].id)
    ensures forall i | 0 <= i < |drafts| :: Seen(sections, drafts[i].id)
    ensures forall i | 0 <= i < |sections| :: Trim(sections[i].body) != ""
  {
    NoObjection(sections, 0, drafts);
    NothingMissing(sections, drafts);
    forall i, j | 0 <= i < j < |sections| ensures sections[i].id != sections[j].id {
      assert !Seen(sections[..j], sections[j].id);
      assert sections[..j][i] == sections[i];
    }
  }

  lemma SectionSupplies(sections: seq<Section>, drafts: seq<Item>, i: nat)
    requires i < |drafts| && Seen(sections, drafts[i].id)
    requires forall k | 0 <= k < |sections| :: Trim(sections[k].body) != ""
    ensures exists k | 0 <= k < |sections| :: Supplies(sections[k], drafts[i], UpdatedAll(drafts, sections)[i])
  {
    BodyOfSeen(sections, drafts[i].id);
    var k :| 0 <= k < |sections| && sections[k].id == drafts[i].id
          && sections[k].body == BodyOf(sections, drafts[i].id).value;
    assert UpdatedAll(drafts, sections)[i] == Updated(drafts[i], sections[k].body);
    assert Supplies(sections[k], drafts[i], UpdatedAll(drafts, sections)[i]);
  }

  /**
   An accepted text has exactly the expected code tail, one section for each draft
   and no other, and yields the drafts in their order, each with its section's body.
   */
  lemma ParseIsSound(text: string, drafts: seq<Item>, original: string)
    requires Parse(text, drafts, original).Parsed?
    ensures MarkerIndex(Split(text)) < |Split(text)|
    ensures Join(Split(text)[MarkerIndex(Split(text)) + 1..]) == CodeTail(drafts, original)
    ensures forall i, j | 0 <= i < j < |SectionsOf(text)| :: SectionsOf(text)[i].id != SectionsOf(text)[j].id
    ensures forall i | 0 <= i < |SectionsOf(text)| :: HasId(drafts, SectionsOf(text)[i].id)
    ensures |Parse(text, drafts, original).items| == |drafts|
    ensures forall i | 0 <= i < |drafts| ::
              exists k | 0 <= k < |SectionsOf(text)| ::
                Supplies(SectionsOf(text)[k], drafts[i], Parse(text, drafts, original).items[i])
  {
    ParsedMeans(text, drafts, original);
    var sections := SectionsOf(text);
    SectionsBiject(sections, drafts);
    forall i | 0 <= i < |drafts|
      ensures exists k | 0 <= k < |sections| :: Supplies(sections[k], drafts[i], UpdatedAll(drafts, sections)[i])
    {
      SectionSupplies(sections, drafts, i);
    }
  }

  // --- the code tail ---------------------------------------------------------------------

  const SEP := "\n" + MARKER_END + "\n"

  /** The lines in front of the composition's own marker line. */
  function Head(items: seq<Item>): seq<string> {
    [MARKER_START, PRELUDE_NOTE] + ItemLines(items)
  }

  lemma ComposedParts(items: seq<Item>, rest: string)
    ensures ComposeAugmentedC(items, rest) == Join(Head(items)) + (SEP + ("\n" + rest))
  {
    var head := Head(items);
    FlattenIsJoin(head);
    JoinAppend(head, [MARKER_END, ""]);
    assert [MARKER_END, ""] == [MARKER_END] + [""];
    JoinAppend([MARKER_END], [""]);
    FlattenIsJoin([MARKER_END]);
    Reassociate(Join(head), MARKER_END, rest);
  }

  lemma Reassociate(a: string, m: string, rest: string)
    ensures (a + "\n") + (m + "\n") + "\n" + rest == a + (("\n" + m + "\n") + ("\n" + rest))
  {
  }

  lemma {:induction false} SkipLine(line: string, rest: string, sub: string)
    requires '\n' !in line && sub != "" && sub[0] == '\n' && IndexOf(rest, sub) != -1
    ensures IndexOf(line + rest, sub) == |line| + IndexOf(rest, sub)
  {
    if line == "" {
      assert line + rest == rest;
    } else {
      assert (line + rest)[0] == line[0] && (line + rest)[1..] == line[1..] + rest;
      SkipLine(line[1..], rest, sub);
    }
  }

  lemma SameLine(a: string, b: string, rest: string)
    requires '\n' !in a && '\n' !in b && (a + "\n") <= (b + "\n" + rest)
    ensures a == b
  {
    var s := b + "\n" + rest;
    assert forall i | 0 <= i < |b| :: s[i] == b[i];
    assert forall i | 0 <= i < |a| :: s[i] == (a + "\n")[i] == a[i];
    assert s[|b|] == '\n' && s[|a|] == (a + "\n")[|a|] == '\n';
    assert |a| < |b| ==> '\n' in b;
    assert |b| < |a| ==> '\n' in a;
  }

  /** The first marker line after the first line is where the text is cut. */
  lemma {:induction false} CutAt(head: seq<string>, rest: string)
    requires head != [] && OneLiners(head) && forall i | 1 <= i < |head| :: head[i] != MARKER_END
    ensures IndexOf(Join(head) + (SEP + rest), SEP) == |Join(head)|
  {
    var t := SEP + rest;
    assert SEP[0] == '\n';
    if |head| == 1 {
      assert Join(head) == head[0];
      assert IndexOf(t, SEP) == 0;
      SkipLine(head[0], t, SEP);
    } else {
      CutAt(head[1..], rest);
      var below := Join(head[1..]) + t;
      BelowIsNoMarker(head[1..], rest);
      Regrouped(head[0], "\n", Join(head[1..]), t);
      assert ("\n" + below)[1..] == below;
      SkipLine(head[0], "\n" + below, SEP);
    }
  }

  lemma Regrouped(a: string, b: string, c: string, d: string)
    ensures (a + b + c) + d == a + (b + (c + d))
  {
  }

  lemma BelowIsNoMarker(lines: seq<string>, rest: string)
    requires lines != [] && OneLiners(lines) && lines[0] != MARKER_END
    ensures !(SEP <= "\n" + (Join(lines) + (SEP + rest)))
  {
    var s := Join(lines) + (SEP + rest);
    if SEP <= "\n" + s {
      var after := s[|lines[0]| + 1..];
      assert s == lines[0] + "\n" + after;
      assert (MARKER_END + "\n") <= s by {
        assert SEP[1..] == MARKER_END + "\n" && ("\n" + s)[1..] == s;
      }
      FixedLines();
      assert '\n' !in MARKER_END by { assert [MARKER_END, ""][0] == MARKER_END; }
      SameLine(MARKER_END, lines[0], after);
      assert false;
    }
  }

  lemma {:induction false} IndexOfLeast(s: string, sub: string, k: nat)
    requires k <= |s| && sub <= s[k..]
    ensures 0 <= IndexOf(s, sub) <= k
  {
    if sub <= s {
    } else {
      IndexOfLeast(s[1..], sub, k - 1);
    }
  }

  /**
   The code that a review must leave alone is the blank line and the stripped Original
   exactly when no declaration has a line equal to the marker; otherwise it is longer.
   */
  lemma CodeTailIsOriginal(items: seq<Item>, original: string)
    ensures CodeTail(items, original) == "\n" + Blank(Code, original) <==> MARKER_END !in ItemLines(items)
  {
    var rest := "\n" + Blank(Code, original);
    var head := Head(items);
    ComposedParts(items, Blank(Code, original));
    if MARKER_END !in ItemLines(items) {
      HeadOneLiners(items);
      CutAt(head, rest);
      assert (Join(head) + (SEP + rest))[|Join(head)| + |SEP|..] == rest;
    } else {
      var j :| 0 <= j < |ItemLines(items)| && ItemLines(items)[j] == MARKER_END;
      EarlierMarker(head, j + 2, rest);
    }
  }

  lemma HeadOneLiners(items: seq<Item>)
    ensures OneLiners(Head(items)) && PRELUDE_NOTE != MARKER_END
  {
    FixedLines();
    ItemLinesOneLiners(items);
    OneLinersAppend([MARKER_START, PRELUDE_NOTE], ItemLines(items));
    NoteIsPlain();
  }

  lemma EarlierMarker(head: seq<string>, j: nat, rest: string)
    requires 1 <= j < |head| && head[j] == MARKER_END
    ensures 0 <= IndexOf(Join(head) + (SEP + rest), SEP) < |Join(head)|
  {
    var a, b := head[..j], head[j..];
    assert Join(head) == (Join(a) + "\n") + Join(b) by {
      assert head == a + b;
      FlattenIsJoin(a);
      JoinAppend(a, b);
    }
    var below := Join(b) + (SEP + rest);
    StartsWithLine(b, SEP + rest);
    MarkerInside(Join(a), Join(b), SEP + rest, MARKER_END);
    IndexOfLeast(Join(head) + (SEP + rest), SEP, |Join(a)|);
  }

  lemma MarkerInside(a: string, b: string, rest: string, m: string)
    requires m + "\n" <= b + rest
    ensures "\n" + m + "\n" <= (((a + "\n") + b) + rest)[|a|..]
  {
    assert (((a + "\n") + b) + rest)[|a|..] == "\n" + (b + rest);
    assert "\n" + m + "\n" == "\n" + (m + "\n");
  }

  lemma StartsWithLine(lines: seq<string>, rest: string)
    requires lines != [] && rest != "" && rest[0] == '\n'
    ensures lines[0] + "\n" <= Join(lines) + rest
  {
  }

  // --- the delimiter of an item carries its id ------------------------------------------

  /** Ids that survive the delimiter: no white space, and a word character at the end. */
  predicate GoodId(id: string) {
    id != "" && IsWord(id[|id| - 1]) && forall i | 0 <= i < |id| :: !IsSpace(id[i])
  }

  predicate Unbroken(s: string) {
    forall i | 0 <= i < |s| :: !IsTerminator(s[i])
  }

  predicate GoodItem(item: Item) {
    GoodId(item.id) && Unbroken(item.kind) && Unbroken(item.provenance)
  }

  lemma {:induction false} RunOfId(id: string, rest: string)
    requires forall i | 0 <= i < |id| :: !IsSpace(id[i])
    requires rest != "" && IsSpace(rest[0])
    ensures Run(id + rest) == |id|
  {
    if id == "" {
      assert id + rest == rest;
    } else {
      RunOfId(id[1..], rest);
      assert (id + rest)[1..] == id[1..] + rest;
    }
  }

  /** The part of the delimiter after the id: ` [kind] (provenance) --- *` and a slash. */
  function Decoration(item: Item): string {
    " [" + item.kind + "] (" + item.provenance + ")"
  }

  lemma DecorationCloses(item: Item)
    requires GoodItem(item)
    ensures ClosesDelimiter(Decoration(item) + " --- */")
  {
    var d := Decoration(item);
    var s := d + " --- */";
    assert TrimEnd(s) == s;
    assert s[|s| - 2..] == "*/";
    var c := s[..|s| - 2];
    assert c == d + " --- ";
    assert c[..|c| - 1] == d + " ---";
    assert IsSpace(c[|c| - 1]) && TrimEnd(c) == TrimEnd(c[..|c| - 1]);
    var e := d + " ---";
    assert e[|e| - 1] == '-' && TrimEnd(e) == e;
    assert e[|e| - 3..] == "---";
    forall i | 0 <= i < |e| - 3 ensures !IsTerminator(e[i]) {
      DecorationUnbroken(item);
      assert i < |d| ==> e[i] == d[i];
    }
  }

  lemma DecorationUnbroken(item: Item)
    requires GoodItem(item)
    ensures Unbroken(Decoration(item))
  {
    UnbrokenAppend(" [", item.kind);
    UnbrokenAppend(" [" + item.kind, "] (");
    UnbrokenAppend(" [" + item.kind + "] (", item.provenance);
    UnbrokenAppend(" [" + item.kind + "] (" + item.provenance, ")");
  }

  lemma UnbrokenAppend(a: string, b: string)
    requires Unbroken(a) && Unbroken(b)
    ensures Unbroken(a + b)
  {
  }

  lemma DelimiterShape(item: Item)
    ensures DelimiterFor(item) == "/* --- item " + (item.id + (Decoration(item) + " --- */"))
  {
  }

  lemma AfterItemOfDelimiter(rest: string)
    requires rest != "" && !IsSpace(rest[0])
    ensures AfterItem("/* --- item " + rest) == Some(rest)
  {
    var line := "/* --- item " + rest;
    assert line[..2] == "/*" && line[2..] == " --- item " + rest;
    var a := " --- item " + rest;
    assert a[1..] == "--- item " + rest;
    var dashes := "--- item " + rest;
    assert TrimStart(a) == TrimStart(dashes) == dashes;
    assert dashes[..3] == "---" && dashes[3..] == " item " + rest;
    var b := " item " + rest;
    assert b[1..] == "item " + rest;
    var word := "item " + rest;
    assert TrimStart(b) == TrimStart(word) == word;
    assert word[..4] == "item" && word[4..] == " " + rest;
    assert (" " + rest)[1..] == rest;
    assert TrimStart(" " + rest) == TrimStart(rest) == rest;
  }

  /** Parsing the delimiter of an item gives back its id. */
  lemma DelimiterRoundTrip(item: Item)
    requires GoodItem(item)
    ensures DelimiterId(DelimiterFor(item)) == Some(item.id)
  {
    var tail := Decoration(item) + " --- */";
    var s := item.id + tail;
    DelimiterShape(item);
    assert s[0] == item.id[0];
    AfterItemOfDelimiter(s);
    assert tail[0] == ' ';
    RunOfId(item.id, tail);
    DecorationCloses(item);
    assert s[|item.id|..] == tail && s[..|item.id|] == item.id;
    assert s[|item.id|] == ' ' && s[|item.id| - 1] == item.id[|item.id| - 1];
  }

  // --- rendering with permuted sections and edited bodies --------------------------------------

  /** A draft as the user left it in the document. */
  datatype Edited = Edited(item: Item, body: seq<string>)

  function Rendered(eds: seq<Edited>): seq<string> {
    if eds == [] then [] else [DelimiterFor(eds[0].item)] + eds[0].body + Rendered(eds[1..])
  }

  function RenderedDoc(eds: seq<Edited>, tail: string): string {
    Join(BANNER + Rendered(eds)) + "\n" + MARKER_END + "\n" + tail
  }

  /** No line of the body is a marker or a delimiter, and it is not blank. */
  ghost predicate GoodBody(body: seq<string>) {
    && OneLiners(body) && Trim(Trimmed(body)) != ""
    && forall i | 0 <= i < |body| :: body[i] != MARKER_END && DelimiterId(body[i]) == None
  }

  ghost predicate Editing(eds: seq<Edited>, drafts: seq<Item>) {
    && drafts != [] && DistinctIds(drafts)
    && (forall i, j | 0 <= i < j < |eds| :: eds[i].item.id != eds[j].item.id)
    && (forall i | 0 <= i < |eds| :: eds[i].item in drafts && GoodItem(eds[i].item) && GoodBody(eds[i].body))
    && (forall d | d in drafts :: exists i | 0 <= i < |eds| :: eds[i].item == d)
  }

  function SectionsWanted(eds: seq<Edited>): seq<Section> {
    seq(|eds|, i requires 0 <= i < |eds| => Section(eds[i].item.id, Trimmed(eds[i].body)))
  }

  lemma {:induction false} BodyLines(body: seq<string>, rest: seq<string>, id: string, acc: seq<string>)
    requires forall i | 0 <= i < |body| :: DelimiterId(body[i]) == None
    ensures SectionsFrom(body + rest, Some(id), acc) == SectionsFrom(rest, Some(id), acc + body)
    decreases |body|
  {
    if body == [] {
      assert body + rest == rest && acc + body == acc;
    } else {
      assert (body + rest)[1..] == body[1..] + rest;
      BodyLines(body[1..], rest, id, acc + [body[0]]);
      assert acc + [body[0]] + body[1..] == acc + body;
    }
  }

  lemma {:induction false} BannerLines(banner: seq<string>, rest: seq<string>)
    requires forall i | 0 <= i < |banner| :: DelimiterId(banner[i]) == None
    ensures SectionsFrom(banner + rest, None, []) == SectionsFrom(rest, None, [])
    decreases |banner|
  {
    if banner == [] {
      assert banner + rest == rest;
    } else {
      assert (banner + rest)[1..] == banner[1..] + rest;
      BannerLines(banner[1..], rest);
    }
  }

  lemma {:induction false} SectionsOfRendered(eds: seq<Edited>, current: Option<string>, acc: seq<string>)
    requires forall i | 0 <= i < |eds| :: GoodItem(eds[i].item) && GoodBody(eds[i].body)
    ensures SectionsFrom(Rendered(eds), current, acc) == Flushed(current, acc) + SectionsWanted(eds)
    decreases |eds|
  {
    if eds == [] {
      NothingLast(Flushed(current, acc), SectionsWanted(eds));
    } else {
      var e, rest := eds[0], Rendered(eds[1..]);
      var lines := [DelimiterFor(e.item)] + (e.body + rest);
      Associates([DelimiterFor(e.item)], e.body, rest);
      assert Rendered(eds) == lines && lines[1..] == e.body + rest;
      DelimiterRoundTrip(e.item);
      BodyLines(e.body, rest, e.item.id, []);
      NothingFirst([], e.body);
      SectionsOfRendered(eds[1..], Some(e.item.id), e.body);
      WantedHead(eds);
    }
  }

  lemma WantedHead(eds: seq<Edited>)
    requires eds != []
    ensures SectionsWanted(eds) == Flushed(Some(eds[0].item.id), eds[0].body) + SectionsWanted(eds[1..])
  {
  }

  predicate Plain(line: string) {
    DelimiterId(line) == None && line != MARKER_END
  }

  lemma BannerIsPlain()
    ensures forall i | 0 <= i < |BANNER| :: Plain(BANNER[i])
  {
    StartIsPlain();
    NoteIsPlain();
    EditNoteIsPlain();
    KeepNoteIsPlain();
    DoNotNoteIsPlain();
    FivePlain(MARKER_START, PRELUDE_NOTE, EDIT_NOTE, KEEP_NOTE, DO_NOT_NOTE);
  }

  lemma FivePlain(a: string, b: string, c: string, d: string, e: string)
    requires Plain(a) && Plain(b) && Plain(c) && Plain(d) && Plain(e)
    ensures forall i | 0 <= i < 5 :: Plain(([a, b] + [c, d, e])[i])
  {
  }

  lemma StartIsPlain()
    ensures Plain(MARKER_START)
  {
    PlainLine(MARKER_START);
    assert |MARKER_START| != |MARKER_END|;
  }

  lemma NoteIsPlain()
    ensures Plain(PRELUDE_NOTE)
  {
    PlainLine(PRELUDE_NOTE);
    assert PRELUDE_NOTE[3] != MARKER_END[3];
  }

  lemma EditNoteIsPlain()
    ensures Plain(EDIT_NOTE)
  {
    PlainLine(EDIT_NOTE);
    assert EDIT_NOTE[3] != MARKER_END[3];
  }

  lemma KeepNoteIsPlain()
    ensures Plain(KEEP_NOTE)
  {
    PlainLine(KEEP_NOTE);
    assert KEEP_NOTE[3] != MARKER_END[3];
  }

  lemma DoNotNoteIsPlain()
    ensures Plain(DO_NOT_NOTE)
  {
    PlainLine(DO_NOT_NOTE);
    assert DO_NOT_NOTE[3] != MARKER_END[3];
  }

  /** A comment whose text starts with neither a blank nor a dash is no delimiter. */
  lemma PlainLine(line: string)
    requires |line| > 3 && line[2] == ' ' && !IsSpace(line[3]) && line[3] != '-'
    ensures DelimiterId(line) == None
  {
    var text := line[3..];
    assert line[2..][1..] == text;
    assert TrimStart(line[2..]) == TrimStart(text) == text;
    assert text[0] == line[3] && !("---" <= text);
  }

  lemma DelimiterIsNoMarker(item: Item)
    ensures DelimiterFor(item) != MARKER_END
  {
    DelimiterShape(item);
    assert "/* --- item "[3] != MARKER_END[3];
  }

  lemma {:induction false} RenderedIsPlain(eds: seq<Edited>)
    requires forall i | 0 <= i < |eds| :: GoodItem(eds[i].item) && GoodBody(eds[i].body)
    ensures forall i | 0 <= i < |Rendered(eds)| :: Rendered(eds)[i] != MARKER_END
    ensures OneLiners(Rendered(eds))
  {
    if eds == [] {
    } else {
      RenderedIsPlain(eds[1..]);
      DelimiterIsNoMarker(eds[0].item);
      DelimiterIsOneLine(eds[0].item);
      var head := [DelimiterFor(eds[0].item)];
      OneLinersAppend(head, eds[0].body);
      OneLinersAppend(head + eds[0].body, Rendered(eds[1..]));
    }
  }

  lemma DelimiterIsOneLine(item: Item)
    requires GoodItem(item)
    ensures '\n' !in DelimiterFor(item)
  {
    DelimiterShape(item);
    DecorationUnbroken(item);
    assert Unbroken("/* --- item ") && Unbroken(" --- */");
    forall i | 0 <= i < |item.id| ensures !IsTerminator(item.id[i]) {
      assert !IsSpace(item.id[i]);
    }
    UnbrokenAppend(Decoration(item), " --- */");
    UnbrokenAppend(item.id, Decoration(item) + " --- */");
    UnbrokenAppend("/* --- item ", item.id + (Decoration(item) + " --- */"));
  }

  lemma {:induction false} MarkerAfter(pre: seq<string>, rest: seq<string>)
    requires forall i | 0 <= i < |pre| :: pre[i] != MARKER_END
    ensures MarkerIndex(pre + [MARKER_END] + rest) == |pre|
  {
    var lines := pre + [MARKER_END] + rest;
    assert lines[|pre|] == MARKER_END;
    assert forall i | 0 <= i < |pre| :: lines[i] == pre[i];
  }

  lemma BannerOneLiners()
    ensures OneLiners(BANNER)
  {
    NoteHasNoNewline();
    NotesHaveNoNewline();
    FixedLines();
    OneLinersAppend([MARKER_START, PRELUDE_NOTE], REVIEW_NOTE_LINES);
  }

  lemma NotesHaveNoNewline()
    ensures OneLiners(REVIEW_NOTE_LINES)
  {
    FirstNote();
    SecondNote();
    ThirdNote();
  }

  lemma FirstNote()
    ensures '\n' !in EDIT_NOTE
  {
    assert '\n' !in "/* Edit the declarations below, then run ";
    assert '\n' !in "\"C Repair: Confirm Context & Scan\". */";
  }

  lemma SecondNote()
    ensures '\n' !in KEEP_NOTE
  {
    assert '\n' !in "/* Keep each /* --- item ... --- */ delimiter";
    assert '\n' !in " line intact \U{2014} they" && '\n' !in " map edits back to items. */";
  }

  lemma ThirdNote()
    ensures '\n' !in DO_NOT_NOTE
  {
    assert '\n' !in "/* Do NOT edit the Original source under the";
    assert '\n' !in " marker below \U{2014} edit" && '\n' !in " the file and rescan. */";
  }

  /** A rendered document splits into banner and sections, the marker, and its tail. */
  lemma RenderedLines(eds: seq<Edited>, tail: string)
    requires forall i | 0 <= i < |eds| :: GoodItem(eds[i].item) && GoodBody(eds[i].body)
    ensures Split(RenderedDoc(eds, tail)) == (BANNER + Rendered(eds)) + [MARKER_END] + Split(tail)
  {
    var pre := BANNER + Rendered(eds);
    BannerOneLiners();
    RenderedIsPlain(eds);
    OneLinersAppend(BANNER, Rendered(eds));
    FixedLines();
    OneLinersAppend(pre, [MARKER_END]) by {
      assert [MARKER_END, ""][0] == MARKER_END;
    }
    MarkedLines(pre, tail);
  }

  lemma MarkedLines(pre: seq<string>, tail: string)
    requires pre != [] && OneLiners(pre + [MARKER_END])
    ensures Split(Join(pre) + "\n" + MARKER_END + "\n" + tail) == pre + [MARKER_END] + Split(tail)
  {
    var head := pre + [MARKER_END];
    assert Flatten(head) == Join(pre) + "\n" + MARKER_END + "\n" by {
      FlattenIsJoin(pre);
      FlattenAppend(pre, [MARKER_END]);
      OneLine(MARKER_END);
      Associates(Join(pre) + "\n", MARKER_END, "\n");
    }
    SplitIsOneLiners(tail);
    OneLinersAppend(head, Split(tail));
    JoinSplit(tail);
    JoinAppend(head, Split(tail));
    SplitJoin(head + Split(tail));
  }

  lemma OneLine(line: string)
    ensures Flatten([line]) == line + "\n"
  {
    FlattenIsJoin([line]);
  }

  /** The body that the user left for a draft. */
  ghost function BodyFor(eds: seq<Edited>, d: Item): string
  {
    if exists i :: 0 <= i < |eds| && eds[i].item == d then
      var i :| 0 <= i < |eds| && eds[i].item == d;
      Trimmed(eds[i].body)
    else ""
  }

  lemma {:induction false} BodyOfWanted(eds: seq<Edited>, k: nat)
    requires k < |eds| && forall i, j | 0 <= i < j < |eds| :: eds[i].item.id != eds[j].item.id
    ensures BodyOf(SectionsWanted(eds), eds[k].item.id) == Some(Trimmed(eds[k].body))
  {
    var n := |eds| - 1;
    assert SectionsWanted(eds)[..n] == SectionsWanted(eds[..n]);
    if k >= n {
    } else {
      BodyOfWanted(eds[..n], k);
    }
  }

  lemma SectionIsGood(eds: seq<Edited>, drafts: seq<Item>, sections: seq<Section>, i: nat)
    requires Editing(eds, drafts) && sections == SectionsWanted(eds) && i < |sections|
    ensures HasId(drafts, sections[i].id) && !Seen(sections[..i], sections[i].id) && Trim(sections[i].body) != ""
  {
    assert eds[i].item in drafts && GoodBody(eds[i].body);
    var j :| 0 <= j < |drafts| && drafts[j] == eds[i].item;
  }

  lemma DraftIsSeen(eds: seq<Edited>, drafts: seq<Item>, sections: seq<Section>, i: nat)
    requires Editing(eds, drafts) && sections == SectionsWanted(eds) && i < |drafts|
    ensures Seen(sections, drafts[i].id)
  {
    assert drafts[i] in drafts;
    var k :| 0 <= k < |eds| && eds[k].item == drafts[i];
    assert sections[k].id == drafts[i].id;
  }

  lemma SomethingWanted(eds: seq<Edited>, drafts: seq<Item>)
    requires Editing(eds, drafts)
    ensures SectionsWanted(eds) != []
  {
    assert drafts[0] in drafts;
  }

  lemma WantedIsAccepted(eds: seq<Edited>, drafts: seq<Item>)
    requires Editing(eds, drafts)
    ensures SectionsWanted(eds) != []
    ensures Objection(SectionsWanted(eds), 0, drafts) == None && Missing(SectionsWanted(eds), drafts) == None
  {
    hide *;
    var sections := SectionsWanted(eds);
    SomethingWanted(eds, drafts);
    NoObjection(sections, 0, drafts);
    NothingMissing(sections, drafts);
    forall i | 0 <= i < |sections|
      ensures HasId(drafts, sections[i].id) && !Seen(sections[..i], sections[i].id) && Trim(sections[i].body) != ""
    {
      SectionIsGood(eds, drafts, sections, i);
    }
    forall i | 0 <= i < |drafts| ensures Seen(sections, drafts[i].id) {
      DraftIsSeen(eds, drafts, sections, i);
    }
  }

  /** The parser sees a rendered document as it was rendered. */
  lemma RenderedSections(eds: seq<Edited>, tail: string)
    requires forall i | 0 <= i < |eds| :: GoodItem(eds[i].item) && GoodBody(eds[i].body)
    ensures MarkerIndex(Split(RenderedDoc(eds, tail))) < |Split(RenderedDoc(eds, tail))|
    ensures Join(Split(RenderedDoc(eds, tail))[MarkerIndex(Split(RenderedDoc(eds, tail))) + 1..]) == tail
    ensures SectionsOf(RenderedDoc(eds, tail)) == SectionsWanted(eds)
  {
    var pre := BANNER + Rendered(eds);
    RenderedIsPlain(eds);
    RenderedLines(eds, tail);
    assert forall i | 0 <= i < |pre| :: pre[i] != MARKER_END by {
      BannerIsPlain();
      assert forall i | 0 <= i < |BANNER| :: Plain(BANNER[i]);
    }
    MarkerAfter(pre, Split(tail));
    JoinSplit(tail);
    MarkedParts(pre, Split(tail));
    assert Split(Join(pre)) == pre by {
      BannerOneLiners();
      OneLinersAppend(BANNER, Rendered(eds));
      SplitJoin(pre);
    }
    assert SectionsFrom(pre, None, []) == SectionsWanted(eds) by {
      BannerIsPlain();
      assert forall i | 0 <= i < |BANNER| :: Plain(BANNER[i]);
      BannerLines(BANNER, Rendered(eds));
      SectionsOfRendered(eds, None, []);
      NothingFirst(Flushed(None, []), SectionsWanted(eds));
    }
  }

  lemma MarkedParts(pre: seq<string>, rest: seq<string>)
    ensures var lines := pre + [MARKER_END] + rest; lines[..|pre|] == pre && lines[|pre| + 1..] == rest
  {
  }

  /** The drafts, in their order, with the bodies the user left. */
  ghost function AsEdited(eds: seq<Edited>, drafts: seq<Item>): seq<Item> {
    seq(|drafts|, i requires 0 <= i < |drafts| => Updated(drafts[i], BodyFor(eds, drafts[i])))
  }

  lemma UpdatedAsEdited(eds: seq<Edited>, drafts: seq<Item>)
    requires Editing(eds, drafts)
    ensures UpdatedAll(drafts, SectionsWanted(eds)) == AsEdited(eds, drafts)
  {
    forall i | 0 <= i < |drafts|
      ensures BodyOf(SectionsWanted(eds), drafts[i].id) == Some(BodyFor(eds, drafts[i]))
    {
      assert drafts[i] in drafts;
      EditedBody(eds, drafts[i]);
    }
  }

  lemma EditedBody(eds: seq<Edited>, d: Item)
    requires forall i, j | 0 <= i < j < |eds| :: eds[i].item.id != eds[j].item.id
    requires exists i | 0 <= i < |eds| :: eds[i].item == d
    ensures BodyOf(SectionsWanted(eds), d.id) == Some(BodyFor(eds, d))
  {
    var k :| 0 <= k < |eds| && eds[k].item == d && BodyFor(eds, d) == Trimmed(eds[k].body);
    BodyOfWanted(eds, k);
  }

  /** Whatever the section order, parsing gives each draft its edited body, blank edges trimmed. */
  lemma ReviewRoundTrip(eds: seq<Edited>, drafts: seq<Item>, original: string)
    requires Editing(eds, drafts)
    ensures Parse(RenderedDoc(eds, CodeTail(drafts, original)), drafts, original) == Parsed(AsEdited(eds, drafts))
  {
    var tail := CodeTail(drafts, original);
    var doc := RenderedDoc(eds, tail);
    RenderedSections(eds, tail);
    WantedIsAccepted(eds, drafts);
    ParsedMeans(doc, drafts, original);
    UpdatedAsEdited(eds, drafts);
  }

  // --- the built document is one of them ------------------------------------------------------

  function Unedited(items: seq<Item>): seq<Edited> {
    seq(|items|, i requires 0 <= i < |items| => Edited(items[i], Split(DropNewlines(items[i].currentText))))
  }

  lemma {:induction false} RenderedAppend(a: seq<Edited>, b: seq<Edited>)
    ensures Rendered(a + b) == Rendered(a) + Rendered(b)
  {
    if a == [] {
      assert a + b == b;
    } else {
      RenderedAppend(a[1..], b);
      assert (a + b)[1..] == a[1..] + b;
      Associates([DelimiterFor(a[0].item)] + a[0].body, Rendered(a[1..]), Rendered(b));
    }
  }

  lemma {:induction false} BuiltIsRendered(items: seq<Item>)
    ensures ItemSections(items) == Rendered(Unedited(items))
  {
    if items == [] {
    } else {
      var n := |items| - 1;
      BuiltIsRendered(items[..n]);
      var last := Unedited(items)[n];
      assert Unedited(items) == Unedited(items[..n]) + [last];
      RenderedAppend(Unedited(items[..n]), [last]);
      NothingLast([DelimiterFor(last.item)] + last.body, Rendered([last][1..]));
      Associates(ItemSections(items[..n]), [DelimiterFor(last.item)], last.body);
    }
  }

  /** Confirming a review document unedited keeps every declaration, blank edges trimmed. */
  lemma BuiltDocParses(items: seq<Item>, original: string)
    requires Editing(Unedited(items), items)
    ensures Parse(BuiltDoc(items, original), items, original) == Parsed(AsEdited(Unedited(items), items))
    ensures forall i | 0 <= i < |items| ::
              AsEdited(Unedited(items), items)[i]
              == Updated(items[i], Trimmed(Split(DropNewlines(items[i].currentText))))
  {
    var eds := Unedited(items);
    assert BuiltDoc(items, original) == RenderedDoc(eds, CodeTail(items, original)) by {
      BuiltIsRendered(items);
    }
    ReviewRoundTrip(eds, items, original);
    forall i | 0 <= i < |items|
      ensures BodyFor(eds, items[i]) == Trimmed(Split(DropNewlines(items[i].currentText)))
    {
      UneditedBody(items, i);
    }
  }

  lemma UneditedBody(items: seq<Item>, i: nat)
    requires DistinctIds(items) && i < |items|
    ensures BodyFor(Unedited(items), items[i]) == Trimmed(Split(DropNewlines(items[i].currentText)))
  {
    var eds := Unedited(items);
    assert eds[i].item == items[i];
    var k :| 0 <= k < |eds| && eds[k].item == items[i] && BodyFor(eds, items[i]) == Trimmed(eds[k].body);
    assert k == i;
  }
}
