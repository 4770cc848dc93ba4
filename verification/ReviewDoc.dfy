/** `apps/vscode/src/session/contextReviewDoc.ts`: rendering and parsing the review document. */
module ReviewDoc {
  import opened DedupeIncludes
  import opened Options
  import opened Prelude
  import opened Seqs
  import opened StripComments
  import opened Text

  // --- the delimiter line ---------------------------------------------------------

  /** `\w` */
  predicate IsWord(c: char) {
    'a' <= c <= 'z' || 'A' <= c <= 'Z' || '0' <= c <= '9' || c == '_'
  }

  /** What `.` does not match. */
  predicate IsTerminator(c: char) {
    c == '\n' || c == '\r' || c as int == 0x2028 || c as int == 0x2029
  }

  /** `^\/\*\s*---\s*item\s+`: the rest of the line from the id on. */
  function AfterItem(line: string): Option<string> {
    if !("/*" <= line) then None
    else
      var dashes := TrimStart(line[2..]);
      if !("---" <= dashes) then None
      else
        var word := TrimStart(dashes[3..]);
        if "item" <= word && |word| > 4 && IsSpace(word[4]) then Some(TrimStart(word[4..])) else None
  }

  /** `.*---\s*\*\/\s*$` */
  predicate ClosesDelimiter(s: string) {
    var comment := TrimEnd(s);
    |comment| >= 2 && comment[|comment| - 2..] == "*/" &&
    var dashes := TrimEnd(comment[..|comment| - 2]);
    |dashes| >= 3 && dashes[|dashes| - 3..] == "---" &&
    forall i | 0 <= i < |dashes| - 3 :: !IsTerminator(dashes[i])
  }

  /** `\b` after the first `k` characters of `s`. */
  predicate WordBoundary(s: string, k: nat)
    requires 1 <= k <= |s|
  {
    IsWord(s[k - 1]) != (k < |s| && IsWord(s[k]))
  }

  /** `\S+`, as many as there are. */
  function Run(s: string): (n: nat)
    ensures n <= |s|
  {
    if s == "" || IsSpace(s[0]) then 0 else 1 + Run(s[1..])
  }

  /** `(\S+)\b.*---\s*\*\/\s*$`: the longest capture of at most `k` characters that lets the rest match. */
  function Capture(s: string, k: nat): Option<string>
    requires k <= |s|
  {
    if k == 0 then None
    else if WordBoundary(s, k) && ClosesDelimiter(s[k..]) then Some(s[..k])
    else Capture(s, k - 1)
  }

  /** `DELIMITER_RE.exec(line)`, reduced to its group 1. */
  function DelimiterId(line: string): Option<string> {
    match AfterItem(line)
    case None => None
    case Some(s) => Capture(s, Run(s))
  }

  function DelimiterFor(item: Item): string {
    "/* --- item " + item.id + " [" + item.kind + "] (" + item.provenance + ") --- */"
  }

  // --- building -----------------------------------------------------------------------

  const EDIT_NOTE := "/* Edit the declarations below, then run " + "\"C Repair: Confirm Context & Scan\". */"
  const KEEP_NOTE :=
    "/* Keep each /* --- item ... --- */ delimiter" + (" line intact \U{2014} they" + " map edits back to items. */")
  const DO_NOT_NOTE :=
    "/* Do NOT edit the Original source under the" + (" marker below \U{2014} edit" + " the file and rescan. */")

  const REVIEW_NOTE_LINES := [EDIT_NOTE, KEEP_NOTE, DO_NOT_NOTE]

  const BANNER := [MARKER_START, PRELUDE_NOTE] + REVIEW_NOTE_LINES

  function IndexOf(s: string, sub: string): (i: int)
    ensures -1 <= i <= |s|
  {
    if sub <= s then 0
    else if s == "" then -1
    else
      var rest := IndexOf(s[1..], sub);
      if rest == -1 then -1 else rest + 1
  }

  /** What composition puts after the first marker line: a blank line and the stripped Original. */
  function CodeTail(items: seq<Item>, original: string): string {
    var composed := ComposeAugmentedC(items, Blank(Code, original));
    var sep := "\n" + MARKER_END + "\n";
    var at := IndexOf(composed, sep) + |sep|;
    composed[if at <= |composed| then at else |composed|..]
  }

  /** `current_text.replace(/\n+$/, '')` */
  function DropNewlines(s: string): string {
    if s != "" && s[|s| - 1] == '\n' then DropNewlines(s[..|s| - 1]) else s
  }

  function ItemSections(items: seq<Item>): seq<string> {
    if items == [] then []
    else
      var last := items[|items| - 1];
      ItemSections(items[..|items| - 1]) + [DelimiterFor(last)] + Split(DropNewlines(last.currentText))
  }

  function BuiltDoc(items: seq<Item>, original: string): string {
    Join(BANNER + ItemSections(items)) + "\n" + MARKER_END + "\n" + CodeTail(items, original)
  }

  method BuildReviewDoc(items: seq<Item>, original: string) returns (doc: string)
    ensures doc == BuiltDoc(items, original)
  {
    var lines := BANNER;
    for i := 0 to |items|
      invariant lines == BANNER + ItemSections(items[..i])
    {
      lines := lines + [DelimiterFor(items[i])];
      lines := lines + Split(DropNewlines(items[i].currentText));
      assert items[..i + 1][..i] == items[..i];
    }
    assert items[..|items|] == items;
    doc := Join(lines) + "\n" + MARKER_END + "\n" + CodeTail(items, original);
  }

  // --- splitting ------------------------------------------------------------------------

  /** The index of the first line equal to the marker, or the number of lines. */
  function MarkerIndex(lines: seq<string>): (k: nat)
    ensures k <= |lines| && (k < |lines| ==> lines[k] == MARKER_END)
    ensures forall i | 0 <= i < k :: lines[i] != MARKER_END
  {
    if lines == [] || lines[0] == MARKER_END then 0 else 1 + MarkerIndex(lines[1..])
  }

  datatype Section = Section(id: string, body: string)

  predicate BlankLine(line: string) {
    Trim(line) == ""
  }

  function DropBlankStart(lines: seq<string>): seq<string> {
    if lines != [] && BlankLine(lines[0]) then DropBlankStart(lines[1..]) else lines
  }

  function DropBlankEnd(lines: seq<string>): seq<string> {
    if lines != [] && BlankLine(lines[|lines| - 1]) then DropBlankEnd(lines[..|lines| - 1]) else lines
  }

  function Trimmed(lines: seq<string>): string {
    Join(DropBlankEnd(DropBlankStart(lines)))
  }

  method TrimBlankEdges(lines: seq<string>) returns (text: string)
    ensures text == Trimmed(lines)
  {
    var start, end := 0, |lines|;
    assert lines[0..] == lines;
    while start < end && BlankLine(lines[start])
      invariant 0 <= start <= end == |lines| && DropBlankStart(lines[start..]) == DropBlankStart(lines)
    {
      start := start + 1;
    }
    assert DropBlankStart(lines) == lines[start..] == lines[start..end];
    while end > start && BlankLine(lines[end - 1])
      invariant start <= end <= |lines| && DropBlankEnd(lines[start..end]) == DropBlankEnd(lines[start..])
    {
      assert lines[start..end][..end - start - 1] == lines[start..end - 1];
      end := end - 1;
    }
    text := Join(lines[start..end]);
  }

  /** The section being read, if any, as it would be pushed now. */
  function Flushed(current: Option<string>, body: seq<string>): seq<Section> {
    match current { case None => [] case Some(id) => [Section(id, Trimmed(body))] }
  }

  function SectionsFrom(lines: seq<string>, current: Option<string>, body: seq<string>): seq<Section>
    decreases |lines|
  {
    if lines == [] then Flushed(current, body)
    else
      match DelimiterId(lines[0])
      case Some(id) => Flushed(current, body) + SectionsFrom(lines[1..], Some(id), [])
      case None => SectionsFrom(lines[1..], current, if current.Some? then body + [lines[0]] else body)
  }

  method SplitSections(lines: seq<string>) returns (sections: seq<Section>, sawDelimiter: bool)
    ensures sections == SectionsFrom(lines, None, [])
    ensures sawDelimiter <==> sections != []
  {
    sections, sawDelimiter := [], false;
    var current: Option<string>, body: seq<string> := None, [];
    var k := 0;
    while k < |lines|
      invariant 0 <= k <= |lines|
      invariant sections + SectionsFrom(lines[k..], current, body) == SectionsFrom(lines, None, [])
      invariant sawDelimiter <==> current.Some?
      invariant current.None? ==> sections == []
    {
      assert lines[k..][1..] == lines[k + 1..];
      var m := DelimiterId(lines[k]);
      if m.Some? {
        sawDelimiter := true;
        Associates(sections, Flushed(current, body), SectionsFrom(lines[k + 1..], m, []));
        if current.Some? {
          var text := TrimBlankEdges(body);
          sections := sections + [Section(current.value, text)];
        } else {
          NothingLast(sections, Flushed(current, body));
        }
        current, body := m, [];
      } else if current.Some? {
        body := body + [lines[k]];
      }
      k := k + 1;
    }
    assert lines[k..] == [];
    if current.Some? {
      var text := TrimBlankEdges(body);
      sections := sections + [Section(current.value, text)];
    } else {
      NothingLast(sections, Flushed(current, body));
    }
  }

  // --- parsing --------------------------------------------------------------------------------

  datatype Failure =
    | MarkerMissing
    | CodeEdited
    | NoDelimiter
    | UnknownItem(id: string)
    | DuplicateItem(id: string)
    | EmptyDeclaration(id: string)
    | MissingItem(id: string)

  datatype ParseResult = Parsed(items: seq<Item>) | Refused(failure: Failure)

  predicate HasId(items: seq<Item>, id: string) {
    exists i | 0 <= i < |items| :: items[i].id == id
  }

  predicate Seen(sections: seq<Section>, id: string) {
    exists i | 0 <= i < |sections| :: sections[i].id == id
  }

  /** The first objection to the sections from the `k`-th on. */
  function Objection(sections: seq<Section>, k: nat, drafts: seq<Item>): Option<Failure>
    requires k <= |sections|
    decreases |sections| - k
  {
    if k == |sections| then None
    else if !HasId(drafts, sections[k].id) then Some(UnknownItem(sections[k].id))
    else if Seen(sections[..k], sections[k].id) then Some(DuplicateItem(sections[k].id))
    else if Trim(sections[k].body) == "" then Some(EmptyDeclaration(sections[k].id))
    else Objection(sections, k + 1, drafts)
  }

  function Missing(sections: seq<Section>, drafts: seq<Item>): Option<Failure> {
    if drafts == [] then None
    else if !Seen(sections, drafts[0].id) then Some(MissingItem(drafts[0].id))
    else Missing(sections, drafts[1..])
  }

  /** `bodyById.get(id)`: the last section with that id wins. */
  function BodyOf(sections: seq<Section>, id: string): Option<string> {
    if sections == [] then None
    else if sections[|sections| - 1].id == id then Some(sections[|sections| - 1].body)
    else BodyOf(sections[..|sections| - 1], id)
  }

  function Updated(it: Item, body: string): Item {
    if body != it.generatedText then it.(currentText := body, userEdited := true, provenance := "user_corrected")
    else it.(currentText := body)
  }

  function UpdatedAll(drafts: seq<Item>, sections: seq<Section>): seq<Item> {
    seq(|drafts|, i requires 0 <= i < |drafts| =>
      match BodyOf(sections, drafts[i].id) { case Some(body) => Updated(drafts[i], body) case None => drafts[i] })
  }

  function Parse(text: string, drafts: seq<Item>, original: string): ParseResult {
    var lines := Split(text);
    var at := MarkerIndex(lines);
    if at == |lines| then Refused(MarkerMissing)
    else if Join(lines[at + 1..]) != CodeTail(drafts, original) then Refused(CodeEdited)
    else
      var sections := SectionsFrom(Split(Join(lines[..at])), None, []);
      if sections == [] then Refused(NoDelimiter)
      else
        match Objection(sections, 0, drafts)
        case Some(f) => Refused(f)
        case None =>
          match Missing(sections, drafts)
          case Some(f) => Refused(f)
          case None => Parsed(UpdatedAll(drafts, sections))
  }

  method CheckSections(sections: seq<Section>, drafts: seq<Item>) returns (failure: Option<Failure>)
    ensures failure
         == match Objection(sections, 0, drafts) { case Some(f) => Some(f) case None => Missing(sections, drafts) }
  {
    var byId: set<string> := set i | 0 <= i < |drafts| :: drafts[i].id;
    var seen: set<string> := {};
    for k := 0 to |sections|
      invariant seen == set i | 0 <= i < k :: sections[i].id
      invariant Objection(sections, 0, drafts) == Objection(sections, k, drafts)
    {
      assert Seen(sections[..k], sections[k].id) <==> sections[k].id in seen by {
        if sections[k].id in seen {
          var i :| 0 <= i < k && sections[i].id == sections[k].id;
          assert sections[..k][i].id == sections[k].id;
        }
      }
      if sections[k].id !in byId {
        return Some(UnknownItem(sections[k].id));
      }
      if sections[k].id in seen {
        return Some(DuplicateItem(sections[k].id));
      }
      seen := seen + {sections[k].id};
      if Trim(sections[k].body) == "" {
        return Some(EmptyDeclaration(sections[k].id));
      }
    }
    for k := 0 to |drafts|
      invariant Missing(sections, drafts) == Missing(sections, drafts[k..])
    {
      assert drafts[k..][1..] == drafts[k + 1..];
      if drafts[k].id !in seen {
        return Some(MissingItem(drafts[k].id));
      }
    }
    return None;
  }

  method BodiesById(sections: seq<Section>) returns (bodies: map<string, string>)
    ensures forall id :: (id in bodies <==> BodyOf(sections, id).Some?)
                      && (id in bodies ==> BodyOf(sections, id) == Some(bodies[id]))
  {
    bodies := map[];
    for k := 0 to |sections|
      invariant forall id :: (id in bodies <==> BodyOf(sections[..k], id).Some?)
                          && (id in bodies ==> BodyOf(sections[..k], id) == Some(bodies[id]))
    {
      assert sections[..k + 1][..k] == sections[..k];
      bodies := bodies[sections[k].id := sections[k].body];
    }
    assert sections[..|sections|] == sections;
  }

  method ParseReviewDoc(text: string, drafts: seq<Item>, original: string) returns (r: ParseResult)
    ensures r == Parse(text, drafts, original)
  {
    hide Split, Join, MarkerIndex, CodeTail, SectionsFrom;
    var lines := Split(text);
    var at := MarkerIndex(lines);
    if at == |lines| {
      return Refused(MarkerMissing);
    }
    var prelude, code := Join(lines[..at]), Join(lines[at + 1..]);
    if code != CodeTail(drafts, original) {
      return Refused(CodeEdited);
    }
    var sections, sawDelimiter := SplitSections(Split(prelude));
    if !sawDelimiter {
      return Refused(NoDelimiter);
    }
    var failure := CheckSections(sections, drafts);
    if failure.Some? {
      return Refused(failure.value);
    }
    var bodies := BodiesById(sections);
    return Parsed(seq(|drafts|, i requires 0 <= i < |drafts| =>
      if drafts[i].id in bodies then Updated(drafts[i], bodies[drafts[i].id]) else drafts[i]));
  }
}
