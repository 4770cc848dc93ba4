/**
 The metadata part of a GGUF file as the format describes it ("File Structure" of the GGUF
 specification), encoded with its own widths and tags, and read back.
 */
module GgufEncoding {
  import opened Gguf

  // --- the encoder --------------------------------------------------------------------

  /** The fixed-size types of metadata values. */
  datatype ScalarType =
    | UInt8
    | Int8
    | UInt16
    | Int16
    | UInt32
    | Int32
    | Float32
    | Bool
    | UInt64
    | Int64
    | Float64

  /** The type tags of `gguf_metadata_value_type`. */
  function Tag(t: ScalarType): nat {
    match t
    case UInt8 => 0
    case Int8 => 1
    case UInt16 => 2
    case Int16 => 3
    case UInt32 => 4
    case Int32 => 5
    case Float32 => 6
    case Bool => 7
    case UInt64 => 10
    case Int64 => 11
    case Float64 => 12
  }

  /** How many bytes a value of the type takes. */
  function Width(t: ScalarType): nat {
    match t
    case UInt8 => 1
    case Int8 => 1
    case UInt16 => 2
    case Int16 => 2
    case UInt32 => 4
    case Int32 => 4
    case Float32 => 4
    case Bool => 1
    case UInt64 => 8
    case Int64 => 8
    case Float64 => 8
  }

  /** The tag of a fixed-size type. */
  ghost predicate Flat(tag: nat) {
    exists t: ScalarType :: Tag(t) == tag
  }

  /** The reader's table is that of the format. */
  lemma SizesAgree(t: ScalarType)
    ensures Size(Tag(t)) == Width(t) > 0
  {
  }

  lemma OnlyFlatHaveSizes(tag: nat)
    ensures Size(tag) != 0 <==> Flat(tag)
  {
    if Size(tag) != 0 {
      var t :=
        if tag == 0 then UInt8 else if tag == 1 then Int8 else if tag == 2 then UInt16 else if tag == 3 then Int16
        else if tag == 4 then UInt32 else if tag == 5 then Int32 else if tag == 6 then Float32
        else if tag == 7 then Bool else if tag == 10 then UInt64 else if tag == 11 then Int64 else Float64;
      assert Tag(t) == tag;
    }
  }

  // What the reader promises to cope with.
  const SIZE_LIMIT: nat := 134217728
  const TEMPLATE_LIMIT: nat := 2097152
  const KEY_LIMIT: nat := 4096
  const ENTRY_LIMIT: nat := 100000
  const NESTING_LIMIT: nat := 8
  const VALUE_LIMIT: nat := 2000000
  const SAFE_LIMIT: nat := 0x1F_FFFF_FFFF_FFFF

  /** The letters of a text that has no others. */
  function Ascii(s: string): (bytes: seq<byte>)
    requires forall i | 0 <= i < |s| :: s[i] as int < 128
  {
    seq(|s|, i requires 0 <= i < |s| => s[i] as byte)
  }

  const SIGNATURE := Ascii("GGUF")
  const CHAT_TEMPLATE := Ascii("tokenizer.chat_template")

  lemma Letters()
    ensures SIGNATURE == MAGIC && CHAT_TEMPLATE == TEMPLATE_KEY
  {
  }

  /** A value; the bits of a scalar are read as an unsigned number. */
  datatype Value =
    | Scalar(t: ScalarType, bits: nat)
    | String(text: seq<byte>)
    | Array(sub: nat, elements: seq<Value>)

  function Kind(v: Value): nat {
    match v case Scalar(t, _) => Tag(t) case String(_) => 8 case Array(_, _) => 9
  }

  /** Scalars fit their width, arrays are homogeneous, type tags fit 32 bits. */
  predicate WellTyped(v: Value) {
    match v
    case Scalar(t, bits) => bits < Range(Width(t))
    case String(_) => true
    case Array(sub, es) =>
      sub < 0x1_0000_0000 && forall i | 0 <= i < |es| :: Kind(es[i]) == sub && WellTyped(es[i])
  }

  /** 256 to the power of `width`. */
  function Range(width: nat): (range: nat)
    ensures range > 0
  {
    if width == 0 then 1 else 256 * Range(width - 1)
  }

  function ToLittleEndian(n: nat, width: nat): (s: seq<byte>)
    ensures |s| == width
  {
    if width == 0 then [] else [(n % 256) as byte] + ToLittleEndian(n / 256, width - 1)
  }

  function Encode(v: Value): seq<byte> {
    match v
    case Scalar(t, bits) => ToLittleEndian(bits, Width(t))
    case String(text) => ToLittleEndian(|text|, 8) + text
    case Array(sub, es) => ToLittleEndian(sub, 4) + (ToLittleEndian(|es|, 8) + EncodeAll(es))
  }

  function EncodeAll(vs: seq<Value>): seq<byte> {
    if |vs| == 0 then [] else Encode(vs[0]) + EncodeAll(vs[1..])
  }

  datatype Entry = Entry(key: seq<byte>, value: Value)

  function EncodeEntry(e: Entry): seq<byte> {
    (ToLittleEndian(|e.key|, 8) + e.key) + (ToLittleEndian(Kind(e.value), 4) + Encode(e.value))
  }

  function EncodeEntries(es: seq<Entry>): seq<byte> {
    if |es| == 0 then [] else EncodeEntry(es[0]) + EncodeEntries(es[1..])
  }

  function EncodeHeader(version: nat, tensors: nat, entries: nat): seq<byte> {
    SIGNATURE + (ToLittleEndian(version, 4) + (ToLittleEndian(tensors, 8) + ToLittleEndian(entries, 8)))
  }

  // --- values laid out in a file ----------------------------------------------------------

  function Length(x: Value): nat {
    match x
    case Scalar(t, _) => Width(t)
    case String(text) => 8 + |text|
    case Array(_, es) => 12 + LengthAll(es)
  }

  function LengthAll(xs: seq<Value>): nat {
    if |xs| == 0 then 0 else Length(xs[0]) + LengthAll(xs[1..])
  }

  /** How much budget skipping the value takes: one a value, a flat array counting as one. */
  ghost function Cost(v: Value): nat {
    if v.Array? && !Flat(v.sub) then 1 + CostAll(v.elements) else 1
  }

  ghost function CostAll(vs: seq<Value>): nat {
    if |vs| == 0 then 0 else Cost(vs[0]) + CostAll(vs[1..])
  }

  /** How many calls of `skipValue` are active at most below the first. */
  ghost function Depth(v: Value): nat {
    if v.Array? && !Flat(v.sub) && |v.elements| > 0 then 1 + DepthAll(v.elements) else 0
  }

  ghost function DepthAll(vs: seq<Value>): nat {
    if |vs| == 0 then 0
    else if Depth(vs[0]) >= DepthAll(vs[1..]) then Depth(vs[0]) else DepthAll(vs[1..])
  }

  /** The value lies at `pos`, as far as reading can tell. */
  ghost predicate Holds(v: View, pos: nat, x: Value)
    decreases x
  {
    && pos + Length(x) <= v.limit
    && match x
       case Scalar(_, _) => true
       case String(text) => v.number(pos, 8) == |text| && v.slice(pos + 8, |text|) == text
       case Array(sub, es) => v.number(pos, 4) == sub && v.number(pos + 4, 8) == |es| && HoldsAll(v, pos + 12, es)
  }

  ghost predicate HoldsAll(v: View, pos: nat, xs: seq<Value>)
    decreases xs
  {
    |xs| > 0 ==> Holds(v, pos, xs[0]) && HoldsAll(v, pos + Length(xs[0]), xs[1..])
  }

  lemma {:induction false} NotEmpty(xs: seq<Value>)
    requires forall i | 0 <= i < |xs| :: WellTyped(xs[i])
    ensures LengthAll(xs) >= |xs| && CostAll(xs) >= |xs|
  {
    if |xs| == 0 {
    } else {
      NotEmpty(xs[1..]);
    }
  }

  lemma {:induction false} FlatLength(xs: seq<Value>, kind: nat)
    requires Flat(kind)
    requires forall i | 0 <= i < |xs| :: Kind(xs[i]) == kind && WellTyped(xs[i])
    ensures LengthAll(xs) == Size(kind) * |xs|
  {
    if |xs| == 0 {
    } else {
      FlatLength(xs[1..], kind);
      assert xs[0].Scalar?;
      SizesAgree(xs[0].t);
    }
  }

  /** Whether the budget and the depth bound allow skipping. */
  predicate Allows(cost: nat, below: nat, budget: nat, depth: nat) {
    cost <= budget && depth + below <= NESTING_LIMIT
  }

  ghost predicate SkipsTo(r: Read<nat>, at: nat, cost: nat, budget: nat, allowed: bool) {
    if allowed then cost <= budget && r == Got(budget - cost, at)
    else r == Bad(TooDeepOrMany) || r == Bad(ArrayTooLong)
  }

  /**
   Skipping a value ends exactly behind it and takes exactly its cost, if the budget and
   the nesting bound allow it, and fails otherwise.
   */
  lemma {:induction false} SkipHeld(v: View, pos: nat, budget: nat, x: Value, depth: nat)
    requires v.limit <= MAX_METADATA && WellTyped(x) && Holds(v, pos, x)
    ensures SkipsTo(SkipValue(v, pos, budget, Kind(x), depth), pos + Length(x), Cost(x), budget,
                    Allows(Cost(x), Depth(x), budget, depth))
    decreases x, 1
  {
    if budget > 0 && depth <= MAX_DEPTH && x.Array? {
      SkipHeldArray(v, pos, budget, x, depth);
    }
  }

  lemma {:induction false} SkipHeldArray(v: View, pos: nat, budget: nat, x: Value, depth: nat)
    requires v.limit <= MAX_METADATA && WellTyped(x) && Holds(v, pos, x)
    requires x.Array? && budget > 0 && depth <= MAX_DEPTH
    ensures SkipsTo(SkipValue(v, pos, budget, ARRAY, depth), pos + Length(x), Cost(x), budget,
                    Allows(Cost(x), Depth(x), budget, depth))
    decreases x, 0
  {
    var xs := x.elements;
    NotEmpty(xs);
    OnlyFlatHaveSizes(x.sub);
    if Flat(x.sub) {
      FlatLength(xs, x.sub);
    } else {
      SkipHeldAll(v, pos + 12, budget - 1, xs, x.sub, depth + 1);
    }
  }

  lemma {:induction false} SkipHeldAll(v: View, pos: nat, budget: nat, xs: seq<Value>, kind: nat, depth: nat)
    requires v.limit <= MAX_METADATA && HoldsAll(v, pos, xs)
    requires forall i | 0 <= i < |xs| :: Kind(xs[i]) == kind && WellTyped(xs[i])
    ensures SkipsTo(SkipElements(v, pos, budget, kind, depth, |xs|), pos + LengthAll(xs), CostAll(xs), budget,
                    |xs| == 0 || Allows(CostAll(xs), DepthAll(xs), budget, depth))
    decreases xs
  {
    if |xs| == 0 {
    } else {
      SkipHeld(v, pos, budget, xs[0], depth);
      if Allows(Cost(xs[0]), Depth(xs[0]), budget, depth) {
        SkipHeldAll(v, pos + Length(xs[0]), budget - Cost(xs[0]), xs[1..], kind, depth);
      }
    }
  }

  // --- the template ------------------------------------------------------------------------

  predicate IsTemplate(e: Entry, wanted: seq<byte>) {
    e.key == wanted && e.value.String?
  }

  /** The entry is within the limits and not the template, so reading goes on behind it. */
  ghost predicate Passed(e: Entry, budget: nat, wanted: seq<byte>) {
    |e.key| <= KEY_LIMIT && !IsTemplate(e, wanted) && Allows(Cost(e.value), Depth(e.value), budget, 0)
  }

  /** What an entry that is not passed leads to. */
  function Verdict(e: Entry, wanted: seq<byte>): Read<seq<byte>> {
    if |e.key| > KEY_LIMIT then Bad(StringTooLarge)
    else if !IsTemplate(e, wanted) then Bad(TooDeepOrMany)
    else if |e.value.text| > TEMPLATE_LIMIT then Bad(StringTooLarge)
    else Got(e.value.text, 0)
  }

  /** What reading should give: the first template, unless an entry up to it is beyond the limits. */
  ghost function FirstTemplate(es: seq<Entry>, budget: nat, wanted: seq<byte>): Read<seq<byte>> {
    if |es| == 0 then Bad(NoTemplate)
    else if Passed(es[0], budget, wanted) then FirstTemplate(es[1..], budget - Cost(es[0].value), wanted)
    else Verdict(es[0], wanted)
  }

  /** Reading stops at one of the entries. */
  ghost predicate Stops(es: seq<Entry>, budget: nat, wanted: seq<byte>) {
    |es| > 0 && (Passed(es[0], budget, wanted) ==> Stops(es[1..], budget - Cost(es[0].value), wanted))
  }

  /** The same template or the same failure; an array too long for the budget has a failure of its own. */
  ghost predicate SameOutcome(r: Read<seq<byte>>, wanted: Read<seq<byte>>) {
    match wanted
    case Got(text, _) => r.Got? && r.value == text
    case Bad(f) => r == Bad(f) || (f == TooDeepOrMany && r == Bad(ArrayTooLong))
  }

  function EntryLength(e: Entry): nat {
    |e.key| + 12 + Length(e.value)
  }

  function EntriesLength(es: seq<Entry>): nat {
    if |es| == 0 then 0 else EntryLength(es[0]) + EntriesLength(es[1..])
  }

  ghost predicate EntryHolds(v: View, pos: nat, e: Entry) {
    && WellTyped(e.value) && pos + EntryLength(e) <= v.limit
    && v.number(pos, 8) == |e.key| && v.slice(pos + 8, |e.key|) == e.key
    && v.number(pos + 8 + |e.key|, 4) == Kind(e.value) && Holds(v, pos + 12 + |e.key|, e.value)
  }

  ghost predicate EntriesHold(v: View, pos: nat, es: seq<Entry>)
    decreases |es|
  {
    |es| > 0 ==> EntryHolds(v, pos, es[0]) && EntriesHold(v, pos + EntryLength(es[0]), es[1..])
  }

  /** Each round does with its entry what it should. */
  ghost predicate RoundsHold(round: (nat, nat) -> Step, pos: nat, budget: nat, es: seq<Entry>, wanted: seq<byte>)
    decreases |es|
  {
    |es| > 0 ==>
      if Passed(es[0], budget, wanted) then
        var left := budget - Cost(es[0].value);
        round(pos, budget) == Next(pos + EntryLength(es[0]), left)
        && RoundsHold(round, pos + EntryLength(es[0]), left, es[1..], wanted)
      else round(pos, budget).Last? && SameOutcome(round(pos, budget).result, Verdict(es[0], wanted))
  }

  lemma {:induction false} LoopHeld(
      round: (nat, nat) -> Step, pos: nat, budget: nat, n: nat, es: seq<Entry>, wanted: seq<byte>)
    requires RoundsHold(round, pos, budget, es, wanted)
    requires n == |es| || (n > |es| && Stops(es, budget, wanted))
    ensures SameOutcome(Loop(round, pos, budget, n), FirstTemplate(es, budget, wanted))
    decreases |es|
  {
    if |es| == 0 || !Passed(es[0], budget, wanted) {
    } else {
      LoopHeld(round, pos + EntryLength(es[0]), budget - Cost(es[0].value), n - 1, es[1..], wanted);
    }
  }

  lemma {:induction false} RoundsAreHeld(v: View, pos: nat, budget: nat, es: seq<Entry>, wanted: seq<byte>)
    requires v.limit <= MAX_METADATA && EntriesHold(v, pos, es)
    ensures RoundsHold(RoundOf(v, wanted), pos, budget, es, wanted)
    decreases |es|
  {
    hide RoundOf, EntryHolds, ReadEntry;
    if |es| == 0 {
    } else {
      RoundHeld(v, RoundOf(v, wanted), pos, budget, es[0], wanted);
      if Passed(es[0], budget, wanted) {
        RoundsAreHeld(v, pos + EntryLength(es[0]), budget - Cost(es[0].value), es[1..], wanted);
      }
    }
  }

  lemma RoundHeld(v: View, round: (nat, nat) -> Step, pos: nat, budget: nat, e: Entry, wanted: seq<byte>)
    requires v.limit <= MAX_METADATA && EntryHolds(v, pos, e) && round == RoundOf(v, wanted)
    ensures if Passed(e, budget, wanted) then
              Cost(e.value) <= budget && round(pos, budget) == Next(pos + EntryLength(e), budget - Cost(e.value))
            else round(pos, budget).Last? && SameOutcome(round(pos, budget).result, Verdict(e, wanted))
  {
    EntryHeld(v, pos, budget, e, wanted);
  }

  /** One round of the loop on an entry that lies at the cursor. */
  lemma EntryHeld(v: View, pos: nat, budget: nat, e: Entry, wanted: seq<byte>)
    requires v.limit <= MAX_METADATA && EntryHolds(v, pos, e)
    ensures var step := ReadEntry(v, pos, budget, wanted);
            if Passed(e, budget, wanted) then
              Cost(e.value) <= budget && step == Next(pos + EntryLength(e), budget - Cost(e.value))
            else step.Last? && SameOutcome(step.result, Verdict(e, wanted))
  {
    hide Cost, Depth, SkipValue;
    KeyHeld(v, pos, e);
    if |e.key| <= MAX_KEY {
      if IsTemplate(e, wanted) {
        TemplateHeld(v, pos + 12 + |e.key|, e.value);
      } else {
        SkipHeld(v, pos + 12 + |e.key|, budget, e.value, 0);
      }
    }
  }

  lemma KeyHeld(v: View, pos: nat, e: Entry)
    requires v.limit <= MAX_METADATA && EntryHolds(v, pos, e)
    ensures Text(v, pos, MAX_KEY) == if |e.key| <= MAX_KEY then Got(e.key, pos + 8 + |e.key|) else Bad(StringTooLarge)
    ensures U32(v, pos + 8 + |e.key|) == Got(Kind(e.value), pos + 12 + |e.key|)
    ensures Kind(e.value) == STRING <==> e.value.String?
  {
    KindTells(e.value);
  }

  lemma TemplateHeld(v: View, pos: nat, x: Value)
    requires v.limit <= MAX_METADATA && Holds(v, pos, x) && x.String?
    ensures Text(v, pos, MAX_TEMPLATE)
            == if |x.text| <= MAX_TEMPLATE then Got(x.text, pos + 8 + |x.text|) else Bad(StringTooLarge)
  {
  }

  lemma KindTells(x: Value)
    requires WellTyped(x)
    ensures Kind(x) == STRING <==> x.String?
  {
  }

  // --- what is encoded is laid out --------------------------------------------------------------

  /** `s` lies in the readable part of the file at `pos`. */
  predicate At(file: seq<byte>, pos: nat, s: seq<byte>) {
    pos + |s| <= Limit(file) && file[pos..pos + |s|] == s
  }

  lemma AtParts(file: seq<byte>, pos: nat, a: seq<byte>, b: seq<byte>)
    requires At(file, pos, a + b)
    ensures At(file, pos, a) && At(file, pos + |a|, b)
  {
    var s := file[pos..pos + |a + b|];
    assert s[..|a|] == a && s[|a|..] == b;
    assert s[..|a|] == file[pos..pos + |a|] && s[|a|..] == file[pos + |a|..pos + |a| + |b|];
  }

  lemma {:induction false} LittleEndianRoundTrip(n: nat, width: nat)
    requires n < Range(width)
    ensures LittleEndian(ToLittleEndian(n, width)) == n
  {
    if width == 0 {
    } else {
      var s := ToLittleEndian(n, width);
      LittleEndianRoundTrip(n / 256, width - 1);
      assert s[1..] == ToLittleEndian(n / 256, width - 1);
    }
  }

  lemma Ranges()
    ensures Range(4) == 0x1_0000_0000 && Range(8) == 0x1_0000_0000_0000_0000
  {
    assert Range(1) == 256;
    assert Range(2) == 65536;
    assert Range(3) == 16777216;
    assert Range(4) == 0x1_0000_0000;
    assert Range(5) == 0x100_0000_0000;
    assert Range(6) == 0x1_0000_0000_0000;
    assert Range(7) == 0x100_0000_0000_0000;
  }

  lemma NumberAt(file: seq<byte>, pos: nat, n: nat, width: nat)
    requires n < Range(width) && At(file, pos, ToLittleEndian(n, width))
    ensures ViewOf(file).number(pos, width) == n && pos + width <= Limit(file)
  {
    LittleEndianRoundTrip(n, width);
  }

  lemma SliceAt(file: seq<byte>, pos: nat, s: seq<byte>)
    requires At(file, pos, s)
    ensures ViewOf(file).slice(pos, |s|) == s && pos + |s| <= Limit(file)
  {
  }

  /** A length and as many bytes. */
  lemma TextAt(file: seq<byte>, pos: nat, n: nat, s: seq<byte>)
    requires n == |s| && At(file, pos, ToLittleEndian(n, 8) + s)
    ensures ViewOf(file).number(pos, 8) == n && ViewOf(file).slice(pos + 8, n) == s
    ensures pos + 8 + n <= Limit(file)
  {
    AtParts(file, pos, ToLittleEndian(n, 8), s);
    SliceAt(file, pos + 8, s);
    Ranges();
    NumberAt(file, pos, n, 8);
  }

  lemma {:induction false} EncodeLength(x: Value)
    ensures |Encode(x)| == Length(x)
  {
    if x.Array? {
      EncodeAllLength(x.elements);
    }
  }

  lemma {:induction false} EncodeAllLength(xs: seq<Value>)
    ensures |EncodeAll(xs)| == LengthAll(xs)
  {
    if |xs| == 0 {
    } else {
      EncodeLength(xs[0]);
      EncodeAllLength(xs[1..]);
    }
  }

  lemma {:induction false} EncodedHolds(file: seq<byte>, pos: nat, x: Value)
    requires WellTyped(x) && At(file, pos, Encode(x))
    ensures Holds(ViewOf(file), pos, x)
    decreases x
  {
    EncodeLength(x);
    match x
    case Scalar(_, _) =>
    case String(text) => TextAt(file, pos, |text|, text);
    case Array(sub, es) =>
      ArrayHead(file, pos, sub, es);
      EncodedAllHold(file, pos + 12, es);
  }

  lemma ArrayHead(file: seq<byte>, pos: nat, sub: nat, xs: seq<Value>)
    requires sub < 0x1_0000_0000 && forall i | 0 <= i < |xs| :: WellTyped(xs[i])
    requires At(file, pos, Encode(Array(sub, xs)))
    ensures ViewOf(file).number(pos, 4) == sub && ViewOf(file).number(pos + 4, 8) == |xs|
    ensures At(file, pos + 12, EncodeAll(xs))
  {
    var body := ToLittleEndian(|xs|, 8) + EncodeAll(xs);
    NotEmpty(xs);
    EncodeAllLength(xs);
    Ranges();
    AtParts(file, pos, ToLittleEndian(sub, 4), body);
    AtParts(file, pos + 4, ToLittleEndian(|xs|, 8), EncodeAll(xs));
    NumberAt(file, pos, sub, 4);
    NumberAt(file, pos + 4, |xs|, 8);
  }

  lemma {:induction false} EncodedAllHold(file: seq<byte>, pos: nat, xs: seq<Value>)
    requires forall i | 0 <= i < |xs| :: WellTyped(xs[i])
    requires At(file, pos, EncodeAll(xs))
    ensures HoldsAll(ViewOf(file), pos, xs)
    decreases xs
  {
    if |xs| == 0 {
    } else {
      AtParts(file, pos, Encode(xs[0]), EncodeAll(xs[1..]));
      EncodeLength(xs[0]);
      EncodedHolds(file, pos, xs[0]);
      EncodedAllHold(file, pos + Length(xs[0]), xs[1..]);
    }
  }

  /** A well-typed value whose type tag fits 32 bits. */
  predicate GoodEntry(e: Entry) {
    WellTyped(e.value) && Kind(e.value) < 0x1_0000_0000
  }

  lemma EncodedEntryHolds(file: seq<byte>, pos: nat, e: Entry)
    requires GoodEntry(e) && At(file, pos, EncodeEntry(e))
    ensures EntryHolds(ViewOf(file), pos, e) && |EncodeEntry(e)| == EntryLength(e)
  {
    var key, value := ToLittleEndian(|e.key|, 8) + e.key, ToLittleEndian(Kind(e.value), 4) + Encode(e.value);
    AtParts(file, pos, key, value);
    TextAt(file, pos, |e.key|, e.key);
    EncodedTail(file, pos + 8 + |e.key|, e.value);
    EncodeLength(e.value);
  }

  lemma EncodedTail(file: seq<byte>, pos: nat, x: Value)
    requires WellTyped(x) && Kind(x) < 0x1_0000_0000
    requires At(file, pos, ToLittleEndian(Kind(x), 4) + Encode(x))
    ensures ViewOf(file).number(pos, 4) == Kind(x) && Holds(ViewOf(file), pos + 4, x)
  {
    AtParts(file, pos, ToLittleEndian(Kind(x), 4), Encode(x));
    Ranges();
    NumberAt(file, pos, Kind(x), 4);
    EncodedHolds(file, pos + 4, x);
  }

  lemma {:induction false} EncodedEntriesHold(file: seq<byte>, v: View, pos: nat, es: seq<Entry>, bytes: seq<byte>)
    requires forall i | 0 <= i < |es| :: GoodEntry(es[i])
    requires bytes == EncodeEntries(es) && At(file, pos, bytes) && v == ViewOf(file)
    ensures EntriesHold(v, pos, es)
    decreases |es|
  {
    hide EntryHolds, EncodeEntry, GoodEntry, ViewOf, At;
    if |es| == 0 {
    } else {
      var rest := EntriesBehind(file, v, pos, es, bytes);
      EncodedEntriesHold(file, v, pos + EntryLength(es[0]), es[1..], rest);
      HoldTogether(v, pos, es);
    }
  }

  lemma EntriesBehind(file: seq<byte>, v: View, pos: nat, es: seq<Entry>, bytes: seq<byte>) returns (rest: seq<byte>)
    requires |es| > 0 && GoodEntry(es[0]) && bytes == EncodeEntries(es) && At(file, pos, bytes) && v == ViewOf(file)
    ensures rest == EncodeEntries(es[1..]) && At(file, pos + EntryLength(es[0]), rest) && EntryHolds(v, pos, es[0])
  {
    var head;
    head, rest := EntriesParts(es, bytes);
    FirstEntryHolds(file, pos, es[0], head, rest, bytes);
  }

  lemma EntriesParts(es: seq<Entry>, bytes: seq<byte>) returns (head: seq<byte>, rest: seq<byte>)
    requires |es| > 0 && bytes == EncodeEntries(es)
    ensures head == EncodeEntry(es[0]) && rest == EncodeEntries(es[1..]) && bytes == head + rest
  {
    head, rest := EncodeEntry(es[0]), EncodeEntries(es[1..]);
  }

  lemma FirstEntryHolds(file: seq<byte>, pos: nat, e: Entry, head: seq<byte>, rest: seq<byte>, bytes: seq<byte>)
    requires GoodEntry(e) && head == EncodeEntry(e) && bytes == head + rest && At(file, pos, bytes)
    ensures EntryHolds(ViewOf(file), pos, e) && At(file, pos + EntryLength(e), rest)
  {
    AtParts(file, pos, head, rest);
    EncodedEntryHolds(file, pos, e);
  }

  lemma HoldTogether(v: View, pos: nat, es: seq<Entry>)
    requires |es| > 0 && EntryHolds(v, pos, es[0]) && EntriesHold(v, pos + EntryLength(es[0]), es[1..])
    ensures EntriesHold(v, pos, es)
  {
  }

  /** What the reader makes of an encoded header, whatever numbers are in it. */
  ghost function HeaderVerdict(version: nat, tensors: nat, entries: nat): Read<nat> {
    if version != 2 && version != 3 then Bad(Unsupported)
    else if tensors > SAFE_LIMIT || entries > SAFE_LIMIT then Bad(BadLength)
    else Got(entries, 24)
  }

  lemma HeaderAt(file: seq<byte>, version: nat, tensors: nat, entries: nat)
    requires version < Range(4) && tensors < Range(8) && entries < Range(8)
    requires At(file, 0, EncodeHeader(version, tensors, entries))
    ensures ReadHeader(ViewOf(file)) == HeaderVerdict(version, tensors, entries)
  {
    var c := ToLittleEndian(tensors, 8) + ToLittleEndian(entries, 8);
    Letters();
    AtParts(file, 0, SIGNATURE, ToLittleEndian(version, 4) + c);
    AtParts(file, 4, ToLittleEndian(version, 4), c);
    NumberAt(file, 4, version, 4);
    AtParts(file, 8, ToLittleEndian(tensors, 8), ToLittleEndian(entries, 8));
    NumberAt(file, 8, tensors, 8);
    NumberAt(file, 16, entries, 8);
    HeaderRead(ViewOf(file), version, tensors, entries);
  }

  lemma HeaderRead(v: View, version: nat, tensors: nat, entries: nat)
    requires v.limit >= 24 && v.slice(0, 4) == MAGIC && v.number(4, 4) == version
    requires v.number(8, 8) == tensors && v.number(16, 8) == entries
    ensures ReadHeader(v) == HeaderVerdict(version, tensors, entries)
  {
  }

  /** A file with another signature is no GGUF file. */
  lemma OtherSignature(file: seq<byte>)
    requires |file| >= 4 && file[..4] != SIGNATURE
    ensures ReadTemplate(ViewOf(file)) == Bad(Unsupported)
  {
    Letters();
    assert Slice(file, 0, 4) == file[..4];
  }

  /** Unsupported versions, unsafe counts and too many entries are refused. */
  lemma HeaderRefused(version: nat, tensors: nat, entries: nat, rest: seq<byte>)
    requires version < Range(4) && tensors < Range(8) && entries < Range(8)
    ensures var r := ReadTemplate(ViewOf(EncodeHeader(version, tensors, entries) + rest));
            && (HeaderVerdict(version, tensors, entries).Bad? ==>
                  r == Bad(HeaderVerdict(version, tensors, entries).failure))
            && (HeaderVerdict(version, tensors, entries).Got? && entries > ENTRY_LIMIT ==> r == Bad(TooDeepOrMany))
  {
    var header := EncodeHeader(version, tensors, entries);
    assert (header + rest)[0..|header|] == header;
    HeaderAt(header + rest, version, tensors, entries);
  }

  /** A type tag that the format does not have is refused where a value of it would be skipped. */
  lemma UnknownTag(v: View, pos: nat, budget: nat, tag: nat, depth: nat)
    requires !Flat(tag) && tag != 8 && tag != 9 && budget > 0 && depth <= NESTING_LIMIT
    ensures SkipValue(v, pos, budget, tag, depth) == Bad(UnknownType)
  {
    OnlyFlatHaveSizes(tag);
  }

  /** Byte `i` of a number is its digit to the base 256, least first. */
  lemma {:induction false} ByteOf(n: nat, width: nat, i: nat)
    requires i < width
    ensures ToLittleEndian(n, width)[i] as nat == n / Range(i) % 256
    decreases width
  {
    if i > 0 {
      ByteOf(n / 256, width - 1, i - 1);
      DivideTwice(n, Range(i - 1));
    }
  }

  lemma DivideTwice(n: nat, m: nat)
    requires m > 0
    ensures n / 256 / m == n / (256 * m)
  {
    var q, r := n / 256 / m, n / 256 % m;
    assert n == 256 * (n / 256) + n % 256;
    assert n / 256 == q * m + r && r <= m - 1;
    assert n == (256 * m) * q + (256 * r + n % 256);
    Quotient(n, 256 * m, q, 256 * r + n % 256);
  }

  lemma Quotient(n: nat, d: nat, q: nat, r: nat)
    requires n == d * q + r && r < d
    ensures n / d == q
  {
    assert d * (n / d) <= n < d * (n / d) + d;
    Multiples(d, q + 1, n / d);
    Multiples(d, n / d + 1, q);
  }

  lemma Multiples(d: nat, a: int, b: int)
    ensures a <= b ==> d * a <= d * b
  {
  }

  /**
   Parse after encode: of a file that announces `n` entries and starts with some of them, all
   or so many that reading stops among them, reading succeeds exactly when the first template
   and all before it are within the limits, and then gives that template.  What lies behind
   them can be anything.
   */
  lemma TemplateRoundTrip(version: nat, tensors: nat, n: nat, es: seq<Entry>, rest: seq<byte>)
    requires version in {2, 3} && tensors <= SAFE_LIMIT && n <= ENTRY_LIMIT
    requires n == |es| || (n > |es| && Stops(es, VALUE_LIMIT, CHAT_TEMPLATE))
    requires forall i | 0 <= i < |es| :: GoodEntry(es[i])
    requires |EncodeHeader(version, tensors, n)| + |EncodeEntries(es)| <= SIZE_LIMIT
    ensures SameOutcome(ReadTemplate(ViewOf((EncodeHeader(version, tensors, n) + EncodeEntries(es)) + rest)),
                        FirstTemplate(es, VALUE_LIMIT, CHAT_TEMPLATE))
  {
    hide Loop, EncodeEntries, GoodEntry, Stops, FirstTemplate, RoundsHold, EntriesHold, LittleEndian;
    var header := EncodeHeader(version, tensors, n);
    var metadata := header + EncodeEntries(es);
    var file := metadata + rest;
    assert At(file, 0, metadata) by {
      assert file[..|metadata|] == metadata;
    }
    AtParts(file, 0, header, EncodeEntries(es));
    Letters();
    Ranges();
    HeaderAt(file, version, tensors, n);
    EncodedEntriesHold(file, ViewOf(file), 24, es, EncodeEntries(es));
    RoundsAreHeld(ViewOf(file), 24, VALUE_LIMIT, es, CHAT_TEMPLATE);
    LoopHeld(RoundOf(ViewOf(file), CHAT_TEMPLATE), 24, VALUE_LIMIT, n, es, CHAT_TEMPLATE);
  }

  ghost function TotalCost(es: seq<Entry>): nat {
    if |es| == 0 then 0 else Cost(es[0].value) + TotalCost(es[1..])
  }

  /** Reading passes what is before the template, and stops there. */
  lemma {:induction false} FirstTemplateWins(before: seq<Entry>, template: Entry, budget: nat, wanted: seq<byte>)
    requires IsTemplate(template, wanted) && |template.value.text| <= TEMPLATE_LIMIT && |wanted| <= KEY_LIMIT
    requires forall i | 0 <= i < |before| ::
               !IsTemplate(before[i], wanted) && |before[i].key| <= KEY_LIMIT && Depth(before[i].value) <= NESTING_LIMIT
    requires TotalCost(before) <= budget
    ensures FirstTemplate(before + [template], budget, wanted) == Got(template.value.text, 0)
    ensures Stops(before + [template], budget, wanted)
    decreases |before|
  {
    var es := before + [template];
    if |before| == 0 {
      assert es[0] == template;
    } else {
      FirstTemplateWins(before[1..], template, budget - Cost(before[0].value), wanted);
      assert es[0] == before[0] && es[1..] == before[1..] + [template];
    }
  }

  lemma {:induction false} NoTemplateNoOutcome(es: seq<Entry>, budget: nat, wanted: seq<byte>)
    requires forall i | 0 <= i < |es| :: !IsTemplate(es[i], wanted)
    ensures FirstTemplate(es, budget, wanted).Bad?
    decreases |es|
  {
    if |es| == 0 || !Passed(es[0], budget, wanted) {
    } else {
      NoTemplateNoOutcome(es[1..], budget - Cost(es[0].value), wanted);
    }
  }

  /** A file whose metadata has no chat template is refused, whatever else it holds. */
  lemma NoTemplateNoResult(version: nat, tensors: nat, es: seq<Entry>, rest: seq<byte>)
    requires version in {2, 3} && tensors <= SAFE_LIMIT && |es| <= ENTRY_LIMIT
    requires forall i | 0 <= i < |es| :: GoodEntry(es[i]) && !IsTemplate(es[i], CHAT_TEMPLATE)
    requires |EncodeHeader(version, tensors, |es|)| + |EncodeEntries(es)| <= SIZE_LIMIT
    ensures ReadTemplate(ViewOf((EncodeHeader(version, tensors, |es|) + EncodeEntries(es)) + rest)).Bad?
  {
    NoTemplateNoOutcome(es, VALUE_LIMIT, CHAT_TEMPLATE);
    TemplateRoundTrip(version, tensors, |es|, es, rest);
  }

  /** The first chat template within the limits is read, whatever bytes follow it. */
  lemma TemplateIsRead(
      version: nat, tensors: nat, n: nat, before: seq<Entry>, template: Entry, es: seq<Entry>, rest: seq<byte>)
    requires es == before + [template] && |es| <= n <= ENTRY_LIMIT
    requires version in {2, 3} && tensors <= SAFE_LIMIT && forall i | 0 <= i < |es| :: GoodEntry(es[i])
    requires |EncodeHeader(version, tensors, n)| + |EncodeEntries(es)| <= SIZE_LIMIT
    requires IsTemplate(template, CHAT_TEMPLATE) && |template.value.text| <= TEMPLATE_LIMIT
    requires TotalCost(before) <= VALUE_LIMIT
    requires forall i | 0 <= i < |before| ::
               && !IsTemplate(before[i], CHAT_TEMPLATE)
               && |before[i].key| <= KEY_LIMIT && Depth(before[i].value) <= NESTING_LIMIT
    ensures var r := ReadTemplate(ViewOf((EncodeHeader(version, tensors, n) + EncodeEntries(es)) + rest));
            (r.Got? && r.value == template.value.text)
  {
    FirstTemplateWins(before, template, VALUE_LIMIT, CHAT_TEMPLATE);
    TemplateRoundTrip(version, tensors, n, es, rest);
  }
}
