/**
 The metadata part of a GGUF file ("File Structure" of the GGUF specification) as
 `apps/vscode/src/bridge/ggufTemplate.ts` reads it, on plain slices of the file.
 */
module Gguf {

  newtype byte = b: int | 0 <= b < 256

  const MAX_METADATA: nat := 128 * 1024 * 1024
  const MAX_TEMPLATE: nat := 2 * 1024 * 1024
  const MAX_KEY: nat := 4096
  const MAX_ENTRIES: nat := 100000
  const MAX_DEPTH: nat := 8
  const BUDGET: nat := 2000000
  /** `Number.MAX_SAFE_INTEGER` */
  const MAX_SAFE: nat := 9007199254740991

  const STRING: nat := 8
  const ARRAY: nat := 9

  datatype Failure =
    | BadMetadata
    | BadLength
    | StringTooLarge
    | TooDeepOrMany
    | ArrayTooLong
    | UnknownType
    | Unsupported
    | NoTemplate

  /** A value and the position after it. */
  datatype Read<T> = Got(value: T, at: nat) | Bad(failure: Failure)

  function Limit(file: seq<byte>): nat {
    if |file| <= MAX_METADATA then |file| else MAX_METADATA
  }

  /** `sizes[type]`, 0 where the table has no entry. */
  function Size(kind: nat): nat {
    if kind in {0, 1, 7} then 1
    else if kind in {2, 3} then 2
    else if kind in {4, 5, 6} then 4
    else if kind in {10, 11, 12} then 8
    else 0
  }

  function LittleEndian(s: seq<byte>): nat {
    if |s| == 0 then 0 else s[0] as nat + 256 * LittleEndian(s[1..])
  }

  /** What the parser can see of a file: the readable length, the numbers and the slices in it. */
  datatype View = View(limit: nat, number: (nat, nat) -> nat, slice: (nat, nat) -> seq<byte>)

  function Slice(file: seq<byte>, pos: nat, n: nat): seq<byte> {
    if pos + n <= |file| then file[pos..pos + n] else []
  }

  function ViewOf(file: seq<byte>): View {
    View(Limit(file),
         (pos: nat, width: nat) => LittleEndian(Slice(file, pos, width)), (pos: nat, n: nat) => Slice(file, pos, n))
  }

  function Skip(v: View, pos: nat, n: nat): Read<()> {
    if n > MAX_SAFE || pos + n > v.limit then Bad(BadMetadata) else Got((), pos + n)
  }

  function U32(v: View, pos: nat): Read<nat> {
    if pos + 4 > v.limit then Bad(BadMetadata) else Got(v.number(pos, 4), pos + 4)
  }

  function U64(v: View, pos: nat): Read<nat> {
    if pos + 8 > v.limit then Bad(BadMetadata)
    else if v.number(pos, 8) > MAX_SAFE then Bad(BadLength)
    else Got(v.number(pos, 8), pos + 8)
  }

  function Bytes(v: View, pos: nat, n: nat): Read<seq<byte>> {
    if n > MAX_SAFE || pos + n > v.limit then Bad(BadMetadata) else Got(v.slice(pos, n), pos + n)
  }

  function Text(v: View, pos: nat, max: nat): Read<seq<byte>> {
    match U64(v, pos)
    case Bad(f) => Bad(f)
    case Got(n, at) => if n > max then Bad(StringTooLarge) else Bytes(v, at, n)
  }

  /** The value of a `Got` is the budget that is left. */
  function SkipValue(v: View, pos: nat, budget: nat, kind: nat, depth: nat): (r: Read<nat>)
    ensures r.Got? ==> r.value < budget
    decreases budget, 0
  {
    if budget == 0 || depth > MAX_DEPTH then Bad(TooDeepOrMany)
    else if kind == STRING then
      match U64(v, pos)
      case Bad(f) => Bad(f)
      case Got(n, at) => Spend(Skip(v, at, n), budget - 1)
    else if kind == ARRAY then
      match U32(v, pos)
      case Bad(f) => Bad(f)
      case Got(sub, at) =>
        match U64(v, at)
        case Bad(f) => Bad(f)
        case Got(count, from) =>
          if Size(sub) != 0 then Spend(Skip(v, from, Size(sub) * count), budget - 1)
          else if count > budget - 1 then Bad(ArrayTooLong)
          else SkipElements(v, from, budget - 1, sub, depth + 1, count)
    else if Size(kind) != 0 then Spend(Skip(v, pos, Size(kind)), budget - 1)
    else Bad(UnknownType)
  }

  function Spend(r: Read<()>, budget: nat): Read<nat> {
    match r case Bad(f) => Bad(f) case Got(_, at) => Got(budget, at)
  }

  function SkipElements(v: View, pos: nat, budget: nat, kind: nat, depth: nat, count: nat): (r: Read<nat>)
    ensures r.Got? ==> r.value <= budget
    decreases budget, 1 + count
  {
    if count == 0 then Got(budget, pos)
    else
      match SkipValue(v, pos, budget, kind, depth)
      case Bad(f) => Bad(f)
      case Got(b, at) => SkipElements(v, at, b, kind, depth, count - 1)
  }

  /** The letters `GGUF`. */
  const MAGIC: seq<byte> := [0x47, 0x47, 0x55, 0x46]

  /** The letters `tokenizer.chat_template`. */
  const TEMPLATE_KEY: seq<byte> := [
    0x74, 0x6f, 0x6b, 0x65, 0x6e, 0x69, 0x7a, 0x65, 0x72, 0x2e, 0x63, 0x68,
    0x61, 0x74, 0x5f, 0x74, 0x65, 0x6d, 0x70, 0x6c, 0x61, 0x74, 0x65]

  /** What one round of the loop over the entries does. */
  datatype Step = Last(result: Read<seq<byte>>) | Next(at: nat, left: nat)

  function ReadEntry(v: View, pos: nat, budget: nat, wanted: seq<byte>): Step {
    match Text(v, pos, MAX_KEY)
    case Bad(f) => Last(Bad(f))
    case Got(key, at) =>
      match U32(v, at)
      case Bad(f) => Last(Bad(f))
      case Got(kind, from) =>
        if key == wanted && kind == STRING then Last(Text(v, from, MAX_TEMPLATE))
        else
          match SkipValue(v, from, budget, kind, 0)
          case Bad(f) => Last(Bad(f))
          case Got(left, next) => Next(next, left)
  }

  /** At most `count` rounds, each going on from where the one before it stopped. */
  function Loop(round: (nat, nat) -> Step, pos: nat, budget: nat, count: nat): Read<seq<byte>>
    decreases count
  {
    if count == 0 then Bad(NoTemplate)
    else
      match round(pos, budget)
      case Last(r) => r
      case Next(at, left) => Loop(round, at, left, count - 1)
  }

  function RoundOf(v: View, wanted: seq<byte>): (nat, nat) -> Step {
    (pos: nat, budget: nat) => ReadEntry(v, pos, budget, wanted)
  }

  function ReadHeader(v: View): Read<nat> {
    match Bytes(v, 0, 4)
    case Bad(f) => Bad(f)
    case Got(magic, at) =>
      if magic != MAGIC then Bad(Unsupported)
      else
        match U32(v, at)
        case Bad(f) => Bad(f)
        case Got(version, from) =>
          if version !in {2, 3} then Bad(Unsupported)
          else
            match U64(v, from)
            case Bad(f) => Bad(f)
            case Got(_, counts) => U64(v, counts)
  }

  function ReadTemplate(v: View): Read<seq<byte>> {
    match ReadHeader(v)
    case Bad(f) => Bad(f)
    case Got(count, at) =>
      if count > MAX_ENTRIES then Bad(TooDeepOrMany) else Loop(RoundOf(v, TEMPLATE_KEY), at, BUDGET, count)
  }
}
