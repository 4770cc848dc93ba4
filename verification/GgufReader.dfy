/** The reader of `apps/vscode/src/bridge/ggufTemplate.ts:8-50`: a cursor over a sliding buffer. */
module GgufReader {
  import opened Gguf
  import opened Options

  const CHUNK: nat := 65536

  /** `Truncated` is the error for an OS read that delivered too little. */
  datatype Result<T> = Ok(value: T) | Threw(failure: Failure) | Truncated

  function Min(a: int, b: int): int {
    if a <= b then a else b
  }

  /** The same error, for a caller that returns something else. */
  function Failed<T, U>(r: Result<T>): Result<U>
    requires !r.Ok?
  {
    if r.Truncated? then Truncated else Threw(r.failure)
  }

  lemma InWindow(file: seq<byte>, base: nat, window: seq<byte>, pos: nat, n: nat)
    requires base <= pos && pos + n <= base + |window| <= |file| && window == file[base..base + |window|]
    ensures window[pos - base..pos - base + n] == file[pos..pos + n]
  {
    assert forall i | pos <= i < pos + n :: window[i - base] == file[i];
  }

  class Reader {
    const file: seq<byte>
    const limit: nat
    /** How many bytes the operating system delivers for its `k`-th read of `n` bytes. */
    const delivered: (nat, nat) -> nat
    var calls: nat
    var pos: nat
    var base: int
    var cache: seq<byte>
    var budget: int

    /** What is buffered is what the file holds there, and the cursor is in the metadata. */
    ghost predicate Valid()
      reads this
    {
      && limit == Limit(file) && pos <= limit && -1 <= base
      && (base == -1 ==> cache == [])
      && (base >= 0 ==> base <= pos && base + |cache| <= limit && cache == file[base..base + |cache|])
    }

    /** Reads at the OS level return everything that was asked for. */
    ghost predicate FullReads() {
      forall k: nat, n: nat :: delivered(k, n) >= n
    }

    /** A read either went as on the plain file or stopped at a short OS read. */
    ghost predicate Went<T>(r: Result<T>, plain: Read<T>)
      reads this
    {
      || (r.Truncated? && !FullReads())
      || (match plain
          case Got(value, at) => r == Ok(value) && pos == at
          case Bad(f) => r == Threw(f))
    }

    constructor (file: seq<byte>, delivered: (nat, nat) -> nat)
      ensures Valid() && this.file == file && this.delivered == delivered && pos == 0 && budget == BUDGET
    {
      this.file, this.delivered, this.limit := file, delivered, Limit(file);
      calls, pos, base, cache, budget := 0, 0, -1, [], BUDGET;
    }

    predicate Check(n: int)
      reads this
    {
      0 <= n <= MAX_SAFE && pos + n <= limit
    }

    /** The buffer starts over at the cursor. */
    method Refill(n: nat)
      requires Valid() && pos + n <= limit
      modifies this
      ensures Valid() && budget == old(budget) && pos == old(pos) && base == pos
      ensures FullReads() ==> pos + n <= base + |cache|
    {
      var size := Min(if CHUNK >= n then CHUNK else n, limit - pos);
      base := pos;
      cache := file[base..base + Min(delivered(calls, size), size)];
      calls := calls + 1;
    }

    method Window(n: nat) returns (window: seq<byte>)
      requires Valid() && base <= pos && pos + n <= base + |cache|
      ensures window == file[pos..pos + n]
    {
      InWindow(file, base, cache, pos, n);
      return cache[pos - base..pos - base + n];
    }

    method Bytes(n: nat) returns (r: Result<seq<byte>>)
      requires Valid()
      modifies this
      ensures Valid() && budget == old(budget) && old(pos) <= pos
      ensures Went(r, Gguf.Bytes(ViewOf(file), old(pos), n))
      ensures r.Ok? ==> r.value == file[old(pos)..pos]
    {
      if !Check(n) {
        return Threw(BadMetadata);
      }
      if pos < base || pos + n > base + |cache| {
        Refill(n);
      }
      if pos + n > base + |cache| {
        return Truncated;
      }
      var result := Window(n);
      pos := pos + n;
      return Ok(result);
    }

    method U32() returns (r: Result<nat>)
      requires Valid()
      modifies this
      ensures Valid() && budget == old(budget) && old(pos) <= pos
      ensures Went(r, Gguf.U32(ViewOf(file), old(pos)))
    {
      var b := Bytes(4);
      if !b.Ok? {
        return Failed(b);
      }
      return Ok(LittleEndian(b.value));
    }

    method U64() returns (r: Result<nat>)
      requires Valid()
      modifies this
      ensures Valid() && budget == old(budget) && old(pos) <= pos
      ensures Went(r, Gguf.U64(ViewOf(file), old(pos)))
    {
      var b := Bytes(8);
      if !b.Ok? {
        return Failed(b);
      }
      var n := LittleEndian(b.value);
      if n > MAX_SAFE {
        return Threw(BadLength);
      }
      return Ok(n);
    }

    method Skip(n: nat) returns (r: Result<()>)
      requires Valid()
      modifies this
      ensures Valid() && budget == old(budget) && old(pos) <= pos
      ensures Went(r, Gguf.Skip(ViewOf(file), old(pos), n))
    {
      if !Check(n) {
        return Threw(BadMetadata);
      }
      pos := pos + n;
      return Ok(());
    }

    method Text(max: nat) returns (r: Result<seq<byte>>)
      requires Valid()
      modifies this
      ensures Valid() && budget == old(budget) && old(pos) <= pos
      ensures Went(r, Gguf.Text(ViewOf(file), old(pos), max))
    {
      var n := U64();
      if !n.Ok? {
        return Failed(n);
      }
      if n.value > max {
        return Threw(StringTooLarge);
      }
      r := Bytes(n.value);
    }

    /** As `Went`, where the value is the budget that is left. */
    ghost predicate Skipped(r: Result<()>, plain: Read<nat>)
      reads this
    {
      || (r.Truncated? && !FullReads())
      || (match plain
          case Got(left, at) => r == Ok(()) && pos == at && budget == left
          case Bad(f) => r == Threw(f))
    }

    method SkipValue(kind: nat, depth: nat) returns (r: Result<()>)
      requires Valid() && budget >= 0
      modifies this
      ensures Valid() && old(pos) <= pos && budget < old(budget)
      ensures Skipped(r, Gguf.SkipValue(ViewOf(file), old(pos), old(budget), kind, depth))
      decreases budget, 0
    {
      budget := budget - 1;
      if budget < 0 || depth > MAX_DEPTH {
        return Threw(TooDeepOrMany);
      }
      if kind == STRING {
        var n := U64();
        if !n.Ok? {
          return Failed(n);
        }
        r := Skip(n.value);
      } else if kind == ARRAY {
        r := SkipArray(depth);
      } else if Size(kind) != 0 {
        r := Skip(Size(kind));
      } else {
        return Threw(UnknownType);
      }
    }

    /** The array branch of `skipValue`. */
    method SkipArray(depth: nat) returns (r: Result<()>)
      requires Valid() && budget >= 0 && depth <= MAX_DEPTH
      modifies this
      ensures Valid() && old(pos) <= pos && budget <= old(budget)
      ensures Skipped(r, Gguf.SkipValue(ViewOf(file), old(pos), old(budget) + 1, ARRAY, depth))
      decreases budget, 2
    {
      var sub := U32();
      if !sub.Ok? {
        return Failed(sub);
      }
      var count := U64();
      if !count.Ok? {
        return Failed(count);
      }
      if Size(sub.value) != 0 {
        r := Skip(Size(sub.value) * count.value);
        return;
      }
      if count.value > budget {
        return Threw(ArrayTooLong);
      }
      r := SkipElements(sub.value, depth + 1, count.value);
    }

    /** The loop over the elements. */
    method SkipElements(kind: nat, depth: nat, count: nat) returns (r: Result<()>)
      requires Valid() && budget >= 0
      modifies this
      ensures Valid() && old(pos) <= pos && budget <= old(budget)
      ensures Skipped(r, Gguf.SkipElements(ViewOf(file), old(pos), old(budget), kind, depth, count))
      decreases budget, 1
    {
      ghost var v := ViewOf(file);
      for i := 0 to count
        invariant Valid() && old(pos) <= pos && 0 <= budget <= old(budget)
        invariant Gguf.SkipElements(v, pos, budget, kind, depth, count - i)
               == Gguf.SkipElements(v, old(pos), old(budget), kind, depth, count)
      {
        var one := SkipValue(kind, depth);
        if !one.Ok? {
          return one;
        }
      }
      return Ok(());
    }

    method ReadHeader() returns (r: Result<nat>)
      requires Valid()
      modifies this
      ensures Valid() && budget == old(budget) && old(pos) <= pos
      ensures old(pos) == 0 ==> Went(r, Gguf.ReadHeader(ViewOf(file)))
    {
      var magic := Bytes(4);
      if !magic.Ok? {
        return Failed(magic);
      }
      if magic.value != MAGIC {
        return Threw(Unsupported);
      }
      var version := U32();
      if !version.Ok? {
        return Failed(version);
      }
      if version.value !in {2, 3} {
        return Threw(Unsupported);
      }
      var tensors := U64();
      if !tensors.Ok? {
        return Failed(tensors);
      }
      r := U64();
    }

    /** One round of the loop over the entries: the result, or none if the loop goes on. */
    method ReadEntry(wanted: seq<byte>) returns (r: Option<Result<seq<byte>>>)
      requires Valid() && budget >= 0
      modifies this
      ensures Valid() && old(pos) <= pos && budget <= old(budget)
      ensures Stepped(r, Gguf.ReadEntry(ViewOf(file), old(pos), old(budget), wanted))
    {
      var key := Text(MAX_KEY);
      if !key.Ok? {
        return Some(key);
      }
      var kind := U32();
      if !kind.Ok? {
        return Some(Failed(kind));
      }
      if key.value == wanted && kind.value == STRING {
        var text := Text(MAX_TEMPLATE);
        return Some(text);
      }
      var skipped := SkipValue(kind.value, 0);
      if !skipped.Ok? {
        return Some(Failed(skipped));
      }
      return None;
    }

    ghost predicate Stepped(r: Option<Result<seq<byte>>>, step: Step)
      reads this
    {
      || (r == Some(Truncated) && !FullReads())
      || (match step
          case Last(plain) => r.Some? && Went(r.value, plain)
          case Next(at, left) => r == None && pos == at && budget == left)
    }

    method ReadEntries(count: nat, wanted: seq<byte>, ghost round: (nat, nat) -> Step) returns (r: Result<seq<byte>>)
      requires Valid() && budget >= 0 && round == RoundOf(ViewOf(file), wanted)
      modifies this
      ensures Valid() && old(pos) <= pos
      ensures WentTo(r, Loop(round, old(pos), old(budget), count))
    {
      hide Valid, Gguf.ReadEntry, ViewOf;
      for i := 0 to count
        invariant Valid() && old(pos) <= pos && budget >= 0
        invariant Loop(round, pos, budget, count - i) == Loop(round, old(pos), old(budget), count)
      {
        var found := ReadEntry(wanted);
        if found.Some? {
          return found.value;
        }
      }
      return Threw(NoTemplate);
    }

    /** As `Went`, wherever the cursor is. */
    ghost predicate WentTo<T>(r: Result<T>, plain: Read<T>) {
      || (r.Truncated? && !FullReads())
      || (match plain
          case Got(value, _) => r == Ok(value)
          case Bad(f) => r == Threw(f))
    }
  }

  /** With full OS reads the sliding window gives what plain slicing of the file gives. */
  method ReadGgufTemplate(file: seq<byte>, delivered: (nat, nat) -> nat) returns (r: Result<seq<byte>>)
    ensures (forall k: nat, n: nat :: delivered(k, n) >= n) ==> !r.Truncated?
    ensures !r.Truncated? ==>
              match ReadTemplate(ViewOf(file)) { case Got(text, _) => r == Ok(text) case Bad(f) => r == Threw(f) }
  {
    var reader := new Reader(file, delivered);
    var count := reader.ReadHeader();
    if !count.Ok? {
      return Failed(count);
    }
    if count.value > MAX_ENTRIES {
      return Threw(TooDeepOrMany);
    }
    r := reader.ReadEntries(count.value, TEMPLATE_KEY, RoundOf(ViewOf(file), TEMPLATE_KEY));
  }
}
