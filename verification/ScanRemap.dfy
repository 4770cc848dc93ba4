/** `run_scan` of `services/repair-api/src/repair_api/adapter/certfix_adapter.py`, steps 2b to 5. */
module ScanRemap {
  import opened Options
  import opened Prelude
  import opened Seqs
  import opened Sorting
  import opened Text

  const UNKNOWN_RULE := "UNKNOWN-CERT-C"

  datatype Violation = Violation(ruleId: string, line: int)

  datatype FunctionInfo = FunctionInfo(id: string, startLine: int, endLine: int)

  datatype Finding =
    | ViolationFinding(ruleId: string, line: int)
    | UncertainFinding(line: int)
    | DetectionFailed(line: int)

  datatype ScanFunction = ScanFunction(id: string, findings: seq<Finding>)

  predicate Within(line: int, fn: FunctionInfo) {
    fn.startLine <= line <= fn.endLine
  }

  function Attribute(line: int, inventory: seq<FunctionInfo>): Option<FunctionInfo> {
    if inventory == [] then None
    else if Within(line, inventory[0]) then Some(inventory[0])
    else Attribute(line, inventory[1..])
  }

  method AttributeLine(line: int, inventory: seq<FunctionInfo>) returns (fn: Option<FunctionInfo>)
    ensures fn == Attribute(line, inventory)
  {
    var i := 0;
    while i < |inventory|
      invariant 0 <= i <= |inventory| && Attribute(line, inventory) == Attribute(line, inventory[i..])
    {
      if Within(line, inventory[i]) {
        return Some(inventory[i]);
      }
      i := i + 1;
    }
    return None;
  }

  /** Augmented to Original coordinates; prelude violations are dropped. */
  function Remapped(vs: seq<Violation>, preludeLines: int): seq<Violation> {
    if vs == [] then []
    else
      var last := vs[|vs| - 1];
      Remapped(vs[..|vs| - 1], preludeLines)
      + if last.line - preludeLines < 1 then [] else [last.(line := last.line - preludeLines)]
  }

  predicate BelongsTo(v: Violation, inventory: seq<FunctionInfo>, id: string) {
    var fn := Attribute(v.line, inventory);
    fn.Some? && fn.value.id == id
  }

  function AttributedTo(mapped: seq<Violation>, inventory: seq<FunctionInfo>, id: string): seq<Violation> {
    if mapped == [] then []
    else
      AttributedTo(mapped[..|mapped| - 1], inventory, id)
      + if BelongsTo(mapped[|mapped| - 1], inventory, id) then [mapped[|mapped| - 1]] else []
  }

  predicate LineBefore(a: Violation, b: Violation) {
    a.line < b.line
  }

  /** `sorted(..., key=lambda m: m.line)`. */
  function SortByLine(vs: seq<Violation>): seq<Violation> {
    Sort(vs, LineBefore)
  }

  function ToFinding(v: Violation): Finding {
    if v.ruleId == UNKNOWN_RULE then UncertainFinding(v.line) else ViolationFinding(v.ruleId, v.line)
  }

  function FindingsOf(fn: FunctionInfo, vs: seq<Violation>, failed: set<string>): seq<Finding> {
    var sorted := SortByLine(vs);
    if |sorted| > 0 then [ToFinding(sorted[0])]
    else if fn.id in failed then [DetectionFailed(fn.startLine)]
    else []
  }

  function Attributions(failures: seq<Option<FunctionInfo>>): set<string> {
    set i | 0 <= i < |failures| && failures[i].Some? :: failures[i].value.id
  }

  method CollectFailures(failures: seq<Option<FunctionInfo>>) returns (failed: set<string>)
    ensures failed == Attributions(failures)
  {
    failed := {};
    for i := 0 to |failures|
      invariant failed == set j | 0 <= j < i && failures[j].Some? :: failures[j].value.id
    {
      if failures[i].Some? {
        failed := failed + {failures[i].value.id};
      }
    }
  }

  method RemapAll(vs: seq<Violation>, preludeLines: int) returns (mapped: seq<Violation>)
    ensures mapped == Remapped(vs, preludeLines)
  {
    mapped := [];
    for i := 0 to |vs|
      invariant mapped == Remapped(vs[..i], preludeLines)
    {
      assert vs[..i + 1][..i] == vs[..i];
      var line := vs[i].line - preludeLines;
      if line >= 1 {
        mapped := mapped + [vs[i].(line := line)];
      }
    }
    assert vs[..|vs|] == vs;
  }

  method GroupByFunction(mapped: seq<Violation>, inventory: seq<FunctionInfo>)
    returns (perFunction: map<string, seq<Violation>>)
    ensures forall k | 0 <= k < |inventory| :: inventory[k].id in perFunction
    ensures forall id | id in perFunction :: perFunction[id] == AttributedTo(mapped, inventory, id)
  {
    perFunction := map k | 0 <= k < |inventory| :: inventory[k].id := [];
    for i := 0 to |mapped|
      invariant forall k | 0 <= k < |inventory| :: inventory[k].id in perFunction
      invariant forall id | id in perFunction :: perFunction[id] == AttributedTo(mapped[..i], inventory, id)
    {
      assert mapped[..i + 1][..i] == mapped[..i];
      var fn := AttributeLine(mapped[i].line, inventory);
      if fn.Some? {
        AttributeIsListed(mapped[i].line, inventory);
        perFunction := perFunction[fn.value.id := perFunction[fn.value.id] + [mapped[i]]];
      }
    }
    assert mapped[..|mapped|] == mapped;
  }

  /** `failures` holds the function each failed chunk was attributed to, if any. */
  method RunScan(
      vs: seq<Violation>, preludeLines: int, inventory: seq<FunctionInfo>, failures: seq<Option<FunctionInfo>>)
    returns (functions: seq<ScanFunction>)
    ensures |functions| == |inventory|
    ensures forall k | 0 <= k < |inventory| :: functions[k] == ScanFunction(inventory[k].id,
              FindingsOf(inventory[k], AttributedTo(Remapped(vs, preludeLines), inventory, inventory[k].id),
                         Attributions(failures)))
  {
    var failed := CollectFailures(failures);
    var mapped := RemapAll(vs, preludeLines);
    var perFunction := GroupByFunction(mapped, inventory);
    functions := [];
    for k := 0 to |inventory|
      invariant |functions| == k
      invariant forall j | 0 <= j < k :: functions[j] == ScanFunction(inventory[j].id,
                  FindingsOf(inventory[j], AttributedTo(mapped, inventory, inventory[j].id), failed))
    {
      var sorted := SortByLine(perFunction[inventory[k].id]);
      var findings: seq<Finding> := [];
      if |sorted| > 0 {
        findings := [ToFinding(sorted[0])];
      } else if inventory[k].id in failed {
        findings := [DetectionFailed(inventory[k].startLine)];
      }
      functions := functions + [ScanFunction(inventory[k].id, findings)];
    }
  }

  lemma {:induction false} AttributeIsListed(line: int, inventory: seq<FunctionInfo>)
    ensures var fn := Attribute(line, inventory);
            if fn.Some? then fn.value in inventory && Within(line, fn.value)
            else forall k | 0 <= k < |inventory| :: !Within(line, inventory[k])
  {
    if inventory == [] || Within(line, inventory[0]) {
    } else {
      AttributeIsListed(line, inventory[1..]);
      if Attribute(line, inventory).None? {
        forall k | 0 <= k < |inventory| ensures !Within(line, inventory[k]) {
          assert k > 0 ==> inventory[k] == inventory[1..][k - 1];
        }
      }
    }
  }

  // --- what a scan result means ---------------------------------------------------------

  function Shifted(v: Violation, lines: int): Violation {
    v.(line := v.line + lines)
  }

  /** Function `k` has the line in its range, and none before it does. */
  ghost predicate FirstAt(line: int, inventory: seq<FunctionInfo>, k: nat) {
    && k < |inventory| && inventory[k].startLine <= line <= inventory[k].endLine
    && forall i | 0 <= i < k :: !(inventory[i].startLine <= line <= inventory[i].endLine)
  }

  /** The first function whose range has the line. */
  ghost predicate FirstAround(line: int, inventory: seq<FunctionInfo>, fn: FunctionInfo) {
    exists k | 0 <= k < |inventory| :: inventory[k] == fn && FirstAt(line, inventory, k)
  }

  lemma {:induction false} AttributeIsFirst(line: int, inventory: seq<FunctionInfo>, fn: FunctionInfo)
    ensures Attribute(line, inventory) == Some(fn) <==> FirstAround(line, inventory, fn)
  {
    if inventory == [] || Within(line, inventory[0]) {
    } else {
      AttributeIsFirst(line, inventory[1..], fn);
      AroundRest(line, inventory, fn);
    }
  }

  lemma AroundRest(line: int, inventory: seq<FunctionInfo>, fn: FunctionInfo)
    requires inventory != [] && !(inventory[0].startLine <= line <= inventory[0].endLine)
    ensures FirstAround(line, inventory, fn) <==> FirstAround(line, inventory[1..], fn)
  {
    if k :| 0 <= k < |inventory[1..]| && inventory[1..][k] == fn && FirstAt(line, inventory[1..], k) {
      LaterIsFirst(line, inventory, k);
      assert inventory[k + 1] == fn;
    }
    if k :| 0 <= k < |inventory| && inventory[k] == fn && FirstAt(line, inventory, k) {
      LaterIsFirst(line, inventory, k - 1);
      assert inventory[1..][k - 1] == fn;
    }
  }

  lemma LaterIsFirst(line: int, inventory: seq<FunctionInfo>, k: nat)
    requires inventory != [] && !(inventory[0].startLine <= line <= inventory[0].endLine)
    ensures FirstAt(line, inventory, k + 1) <==> FirstAt(line, inventory[1..], k)
  {
    assert forall i | 0 < i < |inventory| :: inventory[i] == inventory[1..][i - 1];
  }

  /** A violation of the Augmented C that lands in function `fn`. */
  ghost predicate Lands(v: Violation, preludeLines: int, inventory: seq<FunctionInfo>, fn: FunctionInfo) {
    v.line - preludeLines >= 1 && FirstAround(v.line - preludeLines, inventory, fn)
  }

  /** The violations that land in the function, as the detector listed them. */
  ghost function Landing(vs: seq<Violation>, preludeLines: int, inventory: seq<FunctionInfo>, fn: FunctionInfo)
    : seq<Violation>
  {
    Filter(vs, v => Lands(v, preludeLines, inventory, fn))
  }

  function AllShifted(vs: seq<Violation>, lines: int): seq<Violation> {
    if vs == [] then [] else AllShifted(vs[..|vs| - 1], lines) + [Shifted(vs[|vs| - 1], lines)]
  }

  lemma {:induction false} AllShiftedAt(vs: seq<Violation>, lines: int)
    ensures |AllShifted(vs, lines)| == |vs|
    ensures forall i | 0 <= i < |vs| :: AllShifted(vs, lines)[i] == Shifted(vs[i], lines)
  {
    if vs == [] {
    } else {
      AllShiftedAt(vs[..|vs| - 1], lines);
    }
  }

  lemma OwnId(line: int, inventory: seq<FunctionInfo>, k: nat)
    requires k < |inventory|
    requires forall i, j | 0 <= i < j < |inventory| :: inventory[i].id != inventory[j].id
    ensures Attribute(line, inventory) == Some(inventory[k])
       <==> Attribute(line, inventory).Some? && Attribute(line, inventory).value.id == inventory[k].id
  {
    AttributeIsListed(line, inventory);
    if Attribute(line, inventory).Some? {
      var i :| 0 <= i < |inventory| && inventory[i] == Attribute(line, inventory).value;
    }
  }

  lemma AttributedAppend(a: seq<Violation>, b: seq<Violation>, inventory: seq<FunctionInfo>, id: string)
    requires |b| <= 1
    ensures AttributedTo(a + b, inventory, id)
         == AttributedTo(a, inventory, id) + if b != [] && BelongsTo(b[0], inventory, id) then b else []
  {
    if b == [] {
      assert a + b == a;
    } else {
      assert (a + b)[..|a|] == a && b == [b[0]];
    }
  }

  /** What a function gets are the violations that land in it, in order, at their Original lines. */
  lemma {:induction false} MineAreLanding(vs: seq<Violation>, preludeLines: int, inventory: seq<FunctionInfo>, k: nat)
    requires k < |inventory|
    requires forall i, j | 0 <= i < j < |inventory| :: inventory[i].id != inventory[j].id
    ensures AttributedTo(Remapped(vs, preludeLines), inventory, inventory[k].id)
         == AllShifted(Landing(vs, preludeLines, inventory, inventory[k]), -preludeLines)
  {
    var fn := inventory[k];
    if vs == [] {
    } else {
      var init, v := vs[..|vs| - 1], vs[|vs| - 1];
      var more := if v.line - preludeLines < 1 then [] else [Shifted(v, -preludeLines)];
      MineAreLanding(init, preludeLines, inventory, k);
      FilterLast(vs, x => Lands(x, preludeLines, inventory, fn));
      AttributeIsFirst(v.line - preludeLines, inventory, fn);
      OwnId(v.line - preludeLines, inventory, k);
      AttributedAppend(Remapped(init, preludeLines), more, inventory, fn.id);
      ShiftedLast(Landing(init, preludeLines, inventory, fn), v, -preludeLines);
    }
  }

  lemma ShiftedLast(vs: seq<Violation>, v: Violation, lines: int)
    ensures AllShifted(vs + [v], lines) == AllShifted(vs, lines) + [Shifted(v, lines)]
    ensures vs + [] == vs
  {
    assert (vs + [v])[..|vs|] == vs;
  }

  /** One finding, of the kind its rule says, at the least line, from the first violation there. */
  ghost predicate LeastFinding(landing: seq<Violation>, preludeLines: int, findings: seq<Finding>) {
    exists i | 0 <= i < |landing| ::
      && (forall j | 0 <= j < |landing| :: landing[i].line <= landing[j].line)
      && (forall j | 0 <= j < i :: landing[i].line < landing[j].line)
      && findings == [FindingFor(landing[i].ruleId, landing[i].line - preludeLines)]
  }

  function FindingFor(ruleId: string, line: int): Finding {
    if ruleId == "UNKNOWN-CERT-C" then UncertainFinding(line) else ViolationFinding(ruleId, line)
  }

  lemma LeastShifted(landing: seq<Violation>, lines: int) returns (i: nat)
    requires landing != []
    ensures i < |landing| && SortByLine(AllShifted(landing, lines)) != []
    ensures SortByLine(AllShifted(landing, lines))[0] == Shifted(landing[i], lines)
    ensures forall j | 0 <= j < |landing| :: landing[i].line <= landing[j].line
    ensures forall j | 0 <= j < i :: landing[i].line < landing[j].line
  {
    var shifted := AllShifted(landing, lines);
    AllShiftedAt(landing, lines);
    i := SortFirst(shifted, LineBefore);
    forall j | 0 <= j < |landing| ensures landing[i].line <= landing[j].line {
      assert !LineBefore(shifted[j], shifted[i]);
    }
    forall j | 0 <= j < i ensures landing[i].line < landing[j].line {
      assert LineBefore(shifted[i], shifted[j]);
    }
  }

  lemma LeastDecides(fn: FunctionInfo, landing: seq<Violation>, preludeLines: int, failed: set<string>)
    requires landing != []
    ensures LeastFinding(landing, preludeLines, FindingsOf(fn, AllShifted(landing, -preludeLines), failed))
  {
    hide AllShifted, SortByLine;
    var i := LeastShifted(landing, -preludeLines);
    assert FindingsOf(fn, AllShifted(landing, -preludeLines), failed)
        == [FindingFor(landing[i].ruleId, landing[i].line - preludeLines)];
  }

  ghost predicate HasFailed(fn: FunctionInfo, failures: seq<Option<FunctionInfo>>) {
    exists i | 0 <= i < |failures| :: failures[i].Some? && failures[i].value.id == fn.id
  }

  lemma NothingLanded(fn: FunctionInfo, failures: seq<Option<FunctionInfo>>, preludeLines: int)
    ensures FindingsOf(fn, AllShifted([], -preludeLines), Attributions(failures))
         == if HasFailed(fn, failures) then [DetectionFailed(fn.startLine)] else []
  {
  }

  /**
   Exactly one finding for a function in which a violation landed, at the least line, from the
   first one there, and of the kind its rule says.  Else a failed detection is reported,
   exactly when one was attributed to the function.
   */
  lemma FindingMeaning(vs: seq<Violation>, preludeLines: int, inventory: seq<FunctionInfo>,
                       failures: seq<Option<FunctionInfo>>, k: nat)
    requires k < |inventory|
    requires forall i, j | 0 <= i < j < |inventory| :: inventory[i].id != inventory[j].id
    ensures var fn := inventory[k];
            var mine := AttributedTo(Remapped(vs, preludeLines), inventory, fn.id);
            var findings := FindingsOf(fn, mine, Attributions(failures));
            var landing := Landing(vs, preludeLines, inventory, fn);
            if landing != [] then LeastFinding(landing, preludeLines, findings)
            else findings == if HasFailed(fn, failures) then [DetectionFailed(fn.startLine)] else []
  {
    hide *;
    var fn := inventory[k];
    MineAreLanding(vs, preludeLines, inventory, k);
    if Landing(vs, preludeLines, inventory, fn) != [] {
      LeastDecides(fn, Landing(vs, preludeLines, inventory, fn), preludeLines, Attributions(failures));
    } else {
      NothingLanded(fn, failures, preludeLines);
    }
  }

  /** No line lies in both ranges. */
  predicate NoneInBoth(a: FunctionInfo, b: FunctionInfo) {
    a.endLine < b.startLine || b.endLine < a.startLine || a.endLine < a.startLine || b.endLine < b.startLine
  }

  /** With disjoint function ranges, landing in a function is lying in its range. */
  lemma LandsIsWithin(v: Violation, preludeLines: int, inventory: seq<FunctionInfo>, k: nat)
    requires k < |inventory|
    requires forall i, j | 0 <= i < j < |inventory| ::
               NoneInBoth(inventory[i], inventory[j])
    requires v.line - preludeLines >= 1
    ensures Lands(v, preludeLines, inventory, inventory[k])
       <==> inventory[k].startLine <= v.line - preludeLines <= inventory[k].endLine
  {
    var line := v.line - preludeLines;
    if inventory[k].startLine <= line <= inventory[k].endLine {
      assert FirstAt(line, inventory, k);
    }
  }

  /** A remapped violation names the very line of the Original that the detector saw. */
  lemma RemapNamesTheLine(items: seq<Item>, original: string, v: Violation)
    requires 1 <= v.line <= |Split(ComposeAugmentedC(items, original))|
    requires v.line - SynthesizedLineCount(items) >= 1
    ensures var line := v.line - SynthesizedLineCount(items);
            && line <= |Split(original)|
            && Split(ComposeAugmentedC(items, original))[v.line - 1] == Split(original)[line - 1]
  {
    CoordinateLaw(items, original, v.line);
  }
}
