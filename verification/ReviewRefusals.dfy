/** Which review documents are refused and why, and what an unedited one looks like. */
module ReviewRefusals {
  import opened DedupeIncludes
  import opened Options
  import opened Prelude
  import opened ReviewDoc
  import opened ReviewMeaning
  import opened ReviewRoundTrip
  import opened Seqs
  import opened Text

  // --- refusals -----------------------------------------------------------------------------

  /** What can be wrong with a section: its id, a second section with it, or no declaration. */
  ghost predicate Faulty(sections: seq<Section>, k: nat, drafts: seq<Item>, failure: Failure)
    requires k < |sections|
  {
    match failure
    case UnknownItem(id) =>
      id == sections[k].id && forall i | 0 <= i < |drafts| :: drafts[i].id != id
    case DuplicateItem(id) =>
      && id == sections[k].id && (exists i | 0 <= i < |drafts| :: drafts[i].id == id)
      && exists i | 0 <= i < k :: sections[i].id == id
    case EmptyDeclaration(id) =>
      && id == sections[k].id && (exists i | 0 <= i < |drafts| :: drafts[i].id == id)
      && (forall i | 0 <= i < k :: sections[i].id != id) && AllSpaces(sections[k].body)
    case _ => false
  }

  ghost predicate Faultless(sections: seq<Section>, k: nat, drafts: seq<Item>)
    requires k < |sections|
  {
    && (exists i | 0 <= i < |drafts| :: drafts[i].id == sections[k].id)
    && (forall i | 0 <= i < k :: sections[i].id != sections[k].id) && !AllSpaces(sections[k].body)
  }

  /** The first section with a fault has this one; or all are fine, and this is the first draft without a section. */
  ghost predicate FirstFault(sections: seq<Section>, drafts: seq<Item>, failure: Failure) {
    if failure.MissingItem? then
      && (forall i | 0 <= i < |sections| :: Faultless(sections, i, drafts))
      && exists k | 0 <= k < |drafts| ::
           && drafts[k].id == failure.id && (forall i | 0 <= i < |sections| :: sections[i].id != failure.id)
           && forall j | 0 <= j < k :: Covered(sections, drafts[j].id)
    else
      exists k | 0 <= k < |sections| ::
        Faulty(sections, k, drafts, failure) && forall i | 0 <= i < k :: Faultless(sections, i, drafts)
  }

  ghost predicate Covered(sections: seq<Section>, id: string) {
    exists i | 0 <= i < |sections| :: sections[i].id == id
  }

  lemma SeenBefore(sections: seq<Section>, k: nat, id: string)
    requires k <= |sections|
    ensures Seen(sections[..k], id) <==> exists i | 0 <= i < k :: sections[i].id == id
  {
    if i :| 0 <= i < k && sections[i].id == id {
      assert sections[..k][i].id == id;
    }
  }

  lemma FaultlessMeaning(sections: seq<Section>, k: nat, drafts: seq<Item>)
    requires k < |sections|
    ensures Faultless(sections, k, drafts) <==>
              HasId(drafts, sections[k].id) && !Seen(sections[..k], sections[k].id) && Trim(sections[k].body) != ""
  {
    hide AllSpaces, Trim;
    SeenBefore(sections, k, sections[k].id);
    BlankMeaning(sections[k].body);
  }

  /** The objection to a section, if there is one. */
  lemma FaultyMeaning(sections: seq<Section>, k: nat, drafts: seq<Item>, failure: Failure)
    requires k < |sections|
    ensures Faulty(sections, k, drafts, failure) <==>
              !Faultless(sections, k, drafts) && Objection(sections, k, drafts) == Some(failure)
  {
    hide AllSpaces, Trim;
    SeenBefore(sections, k, sections[k].id);
    BlankMeaning(sections[k].body);
    FaultlessMeaning(sections, k, drafts);
  }

  lemma {:induction false} ObjectionMeaning(sections: seq<Section>, k: nat, drafts: seq<Item>, failure: Failure)
    requires k <= |sections|
    ensures Objection(sections, k, drafts) == Some(failure) <==>
              exists n | k <= n < |sections| ::
                Faulty(sections, n, drafts, failure) && forall i | k <= i < n :: Faultless(sections, i, drafts)
    decreases |sections| - k
  {
    hide Faulty, Faultless, HasId, Seen, Trim;
    if k < |sections| {
      ObjectionMeaning(sections, k + 1, drafts, failure);
      FaultyMeaning(sections, k, drafts, failure);
      FaultlessMeaning(sections, k, drafts);
    }
  }

  lemma {:induction false} MissingMeaning(sections: seq<Section>, drafts: seq<Item>, failure: Failure)
    ensures Missing(sections, drafts) == Some(failure) <==>
              && failure.MissingItem?
              && exists k | 0 <= k < |drafts| ::
                   && drafts[k].id == failure.id && (forall i | 0 <= i < |sections| :: sections[i].id != failure.id)
                   && forall j | 0 <= j < k :: Covered(sections, drafts[j].id)
  {
    if drafts == [] {
    } else {
      MissingMeaning(sections, drafts[1..], failure);
      assert Seen(sections, drafts[0].id) <==> Covered(sections, drafts[0].id);
      assert forall k | 1 <= k < |drafts| :: drafts[k] == drafts[1..][k - 1];
    }
  }

  /** Where the first marker line is. */
  ghost predicate FirstMarker(lines: seq<string>, k: nat) {
    k < |lines| && lines[k] == MARKER_END && forall i | 0 <= i < k :: lines[i] != MARKER_END
  }

  /** A text is refused for the first of these reasons, and for no other. */
  ghost predicate RefusedFor(text: string, drafts: seq<Item>, tail: string, failure: Failure) {
    var lines := Split(text);
    if failure.MarkerMissing? then MARKER_END !in lines
    else
      exists k: nat :: FirstMarker(lines, k) &&
        var sameCode, delimited := Join(lines[k + 1..]) == tail, !Undelimited(lines[..k]);
        match failure
        case CodeEdited => !sameCode
        case NoDelimiter => sameCode && !delimited
        case _ => sameCode && delimited && FirstFault(SectionsFrom(lines[..k], None, []), drafts, failure)
  }

  lemma AllFaultless(sections: seq<Section>, drafts: seq<Item>)
    ensures Objection(sections, 0, drafts) == None <==>
              forall i | 0 <= i < |sections| :: Faultless(sections, i, drafts)
  {
    hide Faultless, HasId, Seen, Trim, Objection;
    NoObjection(sections, 0, drafts);
    forall i | 0 <= i < |sections|
      ensures Faultless(sections, i, drafts) <==>
                HasId(drafts, sections[i].id) && !Seen(sections[..i], sections[i].id) && Trim(sections[i].body) != ""
    {
      FaultlessMeaning(sections, i, drafts);
    }
  }

  lemma MissingIsNoFault(sections: seq<Section>, drafts: seq<Item>, failure: Failure)
    requires Objection(sections, 0, drafts) == Some(failure)
    ensures !failure.MissingItem?
  {
    hide Faultless;
    ObjectionMeaning(sections, 0, drafts, failure);
  }

  lemma FirstFaultMeaning(sections: seq<Section>, drafts: seq<Item>, failure: Failure)
    ensures FirstFault(sections, drafts, failure) <==>
              match Objection(sections, 0, drafts)
              case Some(f) => f == failure
              case None => Missing(sections, drafts) == Some(failure)
  {
    hide Faulty, Faultless, Objection, Missing, Covered;
    AllFaultless(sections, drafts);
    MissingMeaning(sections, drafts, failure);
    if failure.MissingItem? {
      if Objection(sections, 0, drafts).Some? {
        MissingIsNoFault(sections, drafts, Objection(sections, 0, drafts).value);
      }
    } else {
      ObjectionMeaning(sections, 0, drafts, failure);
    }
  }

  lemma MarkerIsFirst(lines: seq<string>, k: nat)
    ensures FirstMarker(lines, k) <==> k == MarkerIndex(lines) && k < |lines|
    ensures MARKER_END !in lines <==> MarkerIndex(lines) == |lines|
  {
    hide MARKER_END;
    var at := MarkerIndex(lines);
    if FirstMarker(lines, k) {
      assert at <= k;
    }
  }

  lemma NoSections(lines: seq<string>)
    ensures SectionsFrom(lines, None, []) == [] <==> Undelimited(lines)
  {
    hide DelimiterId, SectionsFrom;
    var preface, cuts := LinesAreCuts(lines);
    SectionsMeaning(lines, preface, cuts);
    if cuts == [] {
      NothingLast(preface, Uncut(cuts));
    } else {
      assert lines[|preface|] == cuts[0].delimiter;
    }
  }

  /** Lines in front of the marker, joined and split again. */
  lemma SameSections(lines: seq<string>)
    requires OneLiners(lines)
    ensures SectionsFrom(Split(Join(lines)), None, []) == SectionsFrom(lines, None, [])
  {
    hide DelimiterId, SectionsFrom;
    if lines == [] {
      NoLine();
      NoSections([""]);
      NoSections([]);
    } else {
      SplitJoin(lines);
    }
  }

  lemma NoLine()
    ensures Split(Join([])) == [""] && Undelimited([""]) && Undelimited([])
  {
  }

  lemma RefusalAt(text: string, drafts: seq<Item>, original: string, failure: Failure, sections: seq<Section>)
    requires var lines := Split(text);
             MarkerIndex(lines) < |lines| && sections == SectionsFrom(lines[..MarkerIndex(lines)], None, [])
    ensures var lines, at := Split(text), MarkerIndex(Split(text));
            Parse(text, drafts, original) == Refused(failure) <==>
              if Join(lines[at + 1..]) != CodeTail(drafts, original) then failure == CodeEdited
              else if Undelimited(lines[..at]) then failure == NoDelimiter
              else FirstFault(sections, drafts, failure)
  {
    hide Split, Join, CodeTail, SectionsFrom, Objection, Missing, MarkerIndex, FirstFault, Undelimited;
    var lines := Split(text);
    SplitIsOneLiners(text);
    SameSections(lines[..MarkerIndex(lines)]);
    NoSections(lines[..MarkerIndex(lines)]);
    FirstFaultMeaning(sections, drafts, failure);
  }

  lemma NoOtherFault(sections: seq<Section>, drafts: seq<Item>, failure: Failure)
    requires FirstFault(sections, drafts, failure)
    ensures !failure.MarkerMissing? && !failure.CodeEdited? && !failure.NoDelimiter?
  {
    hide Faultless;
  }

  /** A text is refused exactly for the first reason there is. */
  lemma RefusalMeaning(text: string, drafts: seq<Item>, original: string, failure: Failure)
    ensures Parse(text, drafts, original) == Refused(failure)
       <==> RefusedFor(text, drafts, CodeTail(drafts, original), failure)
  {
    hide Split, Join, CodeTail, SectionsFrom, FirstFault, Undelimited, FirstMarker, MarkerIndex;
    var lines := Split(text);
    var at := MarkerIndex(lines);
    forall k: nat ensures FirstMarker(lines, k) <==> k == at && k < |lines| {
      MarkerIsFirst(lines, k);
    }
    MarkerIsFirst(lines, 0);
    if at < |lines| {
      var sections := SectionsFrom(lines[..at], None, []);
      RefusalAt(text, drafts, original, failure, sections);
      if FirstFault(sections, drafts, failure) {
        NoOtherFault(sections, drafts, failure);
      }
    }
  }

  // --- the built document --------------------------------------------------------------------

  /** Exactly the newlines at the end go. */
  lemma {:induction false} DropNewlinesMeaning(s: string)
    ensures |DropNewlines(s)| <= |s| && DropNewlines(s) == s[..|DropNewlines(s)|]
    ensures forall i | |DropNewlines(s)| <= i < |s| :: s[i] == '\n'
    ensures var t := DropNewlines(s); t != "" ==> t[|t| - 1] != '\n'
  {
    if s != "" && s[|s| - 1] == '\n' {
      DropNewlinesMeaning(s[..|s| - 1]);
    }
  }

  /** Each declaration below its delimiter, without the newlines at its end. */
  function Listing(items: seq<Item>): string {
    if items == [] then ""
    else
      (DelimiterFor(items[0]) + "\n") + (DropNewlines(items[0].currentText) + "\n") + Listing(items[1..])
  }

  lemma {:induction false} SectionsAppend(a: seq<Item>, b: seq<Item>)
    ensures ItemSections(a + b) == ItemSections(a) + ItemSections(b)
  {
    hide DelimiterFor, DropNewlines, Split;
    if b == [] {
      assert a + b == a;
    } else {
      var init, last := b[..|b| - 1], b[|b| - 1];
      SectionsAppend(a, init);
      assert (a + b)[..|a + b| - 1] == a + init;
      var head, body := [DelimiterFor(last)], Split(DropNewlines(last.currentText));
      Associates(ItemSections(a), ItemSections(init) + head, body);
      Associates(ItemSections(a), ItemSections(init), head);
    }
  }

  lemma SectionOfOne(item: Item)
    ensures ItemSections([item]) == [DelimiterFor(item)] + Split(DropNewlines(item.currentText))
  {
    hide DelimiterFor, DropNewlines, Split;
    assert [item][..0] == [];
    NothingFirst(ItemSections([]), [DelimiterFor(item)]);
  }

  lemma {:induction false} SectionsText(items: seq<Item>)
    ensures Flatten(ItemSections(items)) == Listing(items)
  {
    hide DelimiterFor, DropNewlines, Split;
    if items == [] {
    } else {
      var text := DropNewlines(items[0].currentText);
      assert items == [items[0]] + items[1..];
      SectionsAppend([items[0]], items[1..]);
      SectionOfOne(items[0]);
      FlattenAppend([DelimiterFor(items[0])] + Split(text), ItemSections(items[1..]));
      FlattenAppend([DelimiterFor(items[0])], Split(text));
      OneLine(DelimiterFor(items[0]));
      TerminatedLines(text);
      SectionsText(items[1..]);
    }
  }

  /** The document is the banner, the items in order, the marker line and the code. */
  lemma BuiltDocText(items: seq<Item>, original: string)
    ensures BuiltDoc(items, original)
         == Flatten(BANNER) + Listing(items) + (MARKER_END + "\n") + CodeTail(items, original)
  {
    hide Flatten, Join, Listing, ItemSections, CodeTail, BANNER, MARKER_END;
    FlattenIsJoin(BANNER + ItemSections(items)) by {
      BannerIsSome();
    }
    FlattenAppend(BANNER, ItemSections(items));
    SectionsText(items);
    var head, tail := Flatten(BANNER) + Listing(items), CodeTail(items, original);
    Associates(head, MARKER_END, "\n");
  }

  lemma BannerIsSome()
    ensures |BANNER| == 5
  {
  }
}
