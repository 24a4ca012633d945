/** Disassembly windows.

    The engine's decoder is an arbitrary function from addresses to the end of
    the instruction there.  The adapter builds a window of exactly
    `instructionCount` entries around an address from it: forward runs, a
    backward scan for a start that lands on the address, placeholders on either
    side, and a removal of repeated addresses. */
module Disassembly {
  import opened Wrappers

  type Address = a: int | 0 <= a < 0x1_0000_0000_0000_0000
  type Decoder = Address -> Option<Address>

  const INT_MAX: int := 0x7fff_ffff
  const MAX_INSTRUCTION_BYTES: nat := 15

  /** A decoded instruction (its text, bytes and symbol are functions of its address), or a placeholder. */
  datatype Entry = Decoded(address: Address) | Invalid(address: Address)

  /** Where the instruction at `a` ends, if there is one: an end not beyond the start counts as a failure. */
  function Next(decode: Decoder, a: Address): (r: Option<Address>)
    ensures r.Some? ==> r.value > a
  {
    match decode(a)
    case Some(next) => if next <= a then None else Some(next)
    case None => None
  }

  /** The last n elements. */
  function LastOf<T>(s: seq<T>, n: nat): (r: seq<T>)
    ensures |r| == if |s| > n then n else |s|
  {
    if |s| > n then s[|s| - n..] else s
  }

  predicate Increasing(s: seq<Entry>) {
    forall i, j :: 0 <= i < j < |s| ==> s[i].address < s[j].address
  }

  // ----- Forward -----

  function Forward(decode: Decoder, start: Address, count: nat): seq<Entry>
    decreases count
  {
    if count == 0 || Next(decode, start) == None then []
    else [Decoded(start)] + Forward(decode, Next(decode, start).value, count - 1)
  }

  method DisassembleRange(decode: Decoder, start: Address, count: int) returns (result: seq<Entry>)
    ensures result == Forward(decode, start, if count <= 0 then 0 else count)
  {
    result := [];
    if count <= 0 {
      return;
    }
    var address := start;
    for i := 0 to count
      invariant result + Forward(decode, address, count - i) == Forward(decode, start, count)
    {
      var next := Next(decode, address);
      if next == None {
        break;
      }
      ForwardStep(decode, result, address, count - i);
      result := result + [Decoded(address)];
      address := next.value;
    }
  }

  lemma {:induction false} ForwardStep(decode: Decoder, done: seq<Entry>, a: Address, count: nat)
    requires count > 0 && Next(decode, a).Some?
    ensures done + [Decoded(a)] + Forward(decode, Next(decode, a).value, count - 1) == done + Forward(decode, a, count)
  {
  }

  /** A decode chain moves: it starts at its start, and entry n is at least n bytes further on. */
  lemma {:induction false} ForwardMoves(decode: Decoder, start: Address, count: nat)
    ensures var s := Forward(decode, start, count);
            && |s| <= count
            && Increasing(s)
            && (s != [] ==> s[0] == Decoded(start))
            && (forall i :: 0 <= i < |s| ==> s[i].address >= start + i && s[i].Decoded?)
    decreases count
  {
    if count > 0 && Next(decode, start).Some? {
      ForwardMoves(decode, Next(decode, start).value, count - 1);
    }
  }

  /** Where k instructions from `a` on end, if there are that many. */
  function Reach(decode: Decoder, a: Address, k: nat): Option<Address>
    decreases k
  {
    if k == 0 then Some(a)
    else if decode(a).Some? && decode(a).value > a then Reach(decode, decode(a).value, k - 1)
    else None
  }

  /** Entry j of a decode chain is where j instructions end, and it is there exactly if there is one more. */
  lemma {:induction false} ForwardReaches(decode: Decoder, a: Address, n: nat, j: nat)
    requires j < n
    ensures j < |Forward(decode, a, n)| <==> Reach(decode, a, j + 1).Some?
    ensures j < |Forward(decode, a, n)| ==> Reach(decode, a, j).Some? && Forward(decode, a, n)[j] == Decoded(Reach(decode, a, j).value)
    decreases j
  {
    if Next(decode, a).Some? {
      if j > 0 {
        ForwardReaches(decode, Next(decode, a).value, n - 1, j - 1);
      } else {
        assert Reach(decode, a, 1) == Reach(decode, decode(a).value, 0);
      }
    }
  }

  // ----- Backward -----

  /** The decode run from `a` when it ends exactly on `end`. */
  function Landing(decode: Decoder, a: Address, end: Address): (r: Option<seq<Entry>>)
    requires a < end
    ensures r.Some? ==> r.value != [] && r.value[0] == Decoded(a)
    decreases end - a
  {
    match Next(decode, a)
    case None => None
    case Some(next) =>
      if next == end then Some([Decoded(a)])
      else if next > end then None
      else match Landing(decode, next, end)
           case None => None
           case Some(rest) => Some([Decoded(a)] + rest)
  }

  /** The first start from `probe` on whose run lands on `end`. */
  function FirstLanding(decode: Decoder, probe: Address, end: Address): Option<seq<Entry>>
    requires probe <= end
    decreases end - probe
  {
    if probe == end then None
    else if Landing(decode, probe, end).Some? then Landing(decode, probe, end)
    else FirstLanding(decode, probe + 1, end)
  }

  function ScanStart(end: Address, count: nat): (a: Address)
    ensures a <= end
  {
    var window := MAX_INSTRUCTION_BYTES * (count + 1) + MAX_INSTRUCTION_BYTES;
    if end < window then 0 else end - window
  }

  function Backward(decode: Decoder, end: Address, count: int): seq<Entry> {
    if count <= 0 || end == 0 then []
    else match FirstLanding(decode, ScanStart(end, count), end)
         case None => []
         case Some(run) => LastOf(run, count)
  }

  method DisassembleBackward(decode: Decoder, end: Address, count: int) returns (result: seq<Entry>)
    ensures result == Backward(decode, end, count)
  {
    result := [];
    if count <= 0 || end == 0 {
      return;
    }
    var window := MAX_INSTRUCTION_BYTES * (count + 1) + MAX_INSTRUCTION_BYTES;
    if end < window {
      window := end;
    }
    var scanStart: Address := end - window;
    var probe := scanStart;
    while probe < end
      invariant scanStart <= probe <= end
      invariant FirstLanding(decode, scanStart, end) == FirstLanding(decode, probe, end)
    {
      var aligned, decoded := Probe(decode, probe, end);
      if aligned {
        if |decoded| > count {
          decoded := decoded[|decoded| - count..];
        }
        return decoded;
      }
      probe := probe + 1;
    }
  }

  /** The inner loop: decode from `probe` until the run meets, misses or fails before `end`. */
  method Probe(decode: Decoder, probe: Address, end: Address) returns (aligned: bool, decoded: seq<Entry>)
    requires probe < end
    ensures aligned <==> Landing(decode, probe, end).Some?
    ensures aligned ==> decoded == Landing(decode, probe, end).value
  {
    decoded, aligned := [], false;
    var address := probe;
    while address < end
      invariant address < end && !aligned
      invariant Landing(decode, probe, end).Some? <==> Landing(decode, address, end).Some?
      invariant Landing(decode, probe, end).Some? ==>
                  Landing(decode, probe, end).value == decoded + Landing(decode, address, end).value
      decreases end - address
    {
      var next := Next(decode, address);
      if next == None {
        break;
      }
      decoded := decoded + [Decoded(address)];
      if next.value == end {
        aligned := true;
        break;
      }
      if next.value > end {
        break;
      }
      address := next.value;
    }
  }

  // ----- What the backward scan finds -----

  /** A decoded entry that ends at `b`. */
  predicate EndsAt(decode: Decoder, e: Entry, b: Address) {
    e.Decoded? && Next(decode, e.address).Some? && Next(decode, e.address).value == b
  }

  /** Each entry ends where the next begins, and the last one ends on `end`. */
  predicate ChainTo(decode: Decoder, s: seq<Entry>, end: Address) {
    && (forall i :: 0 <= i < |s| - 1 ==> EndsAt(decode, s[i], s[i + 1].address))
    && (s != [] ==> EndsAt(decode, s[|s| - 1], end))
  }

  lemma {:induction false} LandingIsChain(decode: Decoder, a: Address, end: Address)
    requires a < end && Landing(decode, a, end).Some?
    ensures ChainTo(decode, Landing(decode, a, end).value, end)
    decreases end - a
  {
    var next := Next(decode, a).value;
    if next != end {
      LandingIsChain(decode, next, end);
      ChainGrows(decode, a, Landing(decode, next, end).value, end);
    }
  }

  lemma {:induction false} ChainGrows(decode: Decoder, a: Address, s: seq<Entry>, end: Address)
    requires s != [] && ChainTo(decode, s, end) && Next(decode, a) == Some(s[0].address)
    ensures ChainTo(decode, [Decoded(a)] + s, end)
  {
    var t := [Decoded(a)] + s;
    forall i | 0 <= i < |t| - 1
      ensures EndsAt(decode, t[i], t[i + 1].address)
    {
      if i > 0 {
        assert t[i] == s[i - 1] && t[i + 1] == s[i];
      }
    }
  }

  lemma {:induction false} ChainTail(decode: Decoder, s: seq<Entry>, n: nat, end: Address)
    requires ChainTo(decode, s, end)
    ensures ChainTo(decode, LastOf(s, n), end)
  {
    var t := LastOf(s, n);
    forall i | 0 <= i < |t| - 1
      ensures EndsAt(decode, t[i], t[i + 1].address)
    {
      assert t[i] == s[|s| - |t| + i] && t[i + 1] == s[|s| - |t| + i + 1];
    }
  }

  /** The scan finds the earliest start that lands, or none does. */
  lemma {:induction false} FirstLandingIsEarliest(decode: Decoder, probe: Address, end: Address) returns (p: Address)
    requires probe <= end
    ensures probe <= p <= end
    ensures forall q: Address :: probe <= q < p ==> Landing(decode, q, end).None?
    ensures p == end ==> FirstLanding(decode, probe, end) == None
    ensures p < end ==> Landing(decode, p, end).Some? && FirstLanding(decode, probe, end) == Landing(decode, p, end)
    decreases end - probe
  {
    if probe == end || Landing(decode, probe, end).Some? {
      p := probe;
    } else {
      p := FirstLandingIsEarliest(decode, probe + 1, end);
    }
  }

  /** Any result is the tail of a run that ends exactly on `end`; the result is empty
      exactly when no start in the window has such a run. */
  lemma {:induction false} BackwardLands(decode: Decoder, end: Address, count: int)
    requires count > 0 && end > 0
    ensures var s := Backward(decode, end, count);
            && |s| <= count
            && ChainTo(decode, s, end)
            && (s == [] <==> forall q: Address :: ScanStart(end, count) <= q < end ==> Landing(decode, q, end).None?)
  {
    var p := FirstLandingIsEarliest(decode, ScanStart(end, count), end);
    if p < end {
      LandingIsChain(decode, p, end);
      ChainTail(decode, Landing(decode, p, end).value, count, end);
    }
  }

  ghost predicate LengthsWithin(decode: Decoder, bytes: nat) {
    forall a: Address :: Next(decode, a).Some? ==> Next(decode, a).value <= a + bytes
  }

  /** Instructions of at most 15 bytes: a run of n of them covers at most 15n bytes. */
  lemma {:induction false} LandingIsLong(decode: Decoder, a: Address, end: Address)
    requires a < end && Landing(decode, a, end).Some? && LengthsWithin(decode, MAX_INSTRUCTION_BYTES)
    ensures end - a <= MAX_INSTRUCTION_BYTES * |Landing(decode, a, end).value|
    decreases end - a
  {
    var next := Next(decode, a).value;
    if next != end {
      LandingIsLong(decode, next, end);
    }
  }

  /** A run that lands cannot jump over the start of the window: it has a start within its first 15 bytes. */
  lemma {:induction false} RunEntersWindow(decode: Decoder, a: Address, start: Address, end: Address) returns (p: Address)
    requires a <= start && start + MAX_INSTRUCTION_BYTES <= end
    requires a < end && Landing(decode, a, end).Some? && LengthsWithin(decode, MAX_INSTRUCTION_BYTES)
    ensures start <= p < start + MAX_INSTRUCTION_BYTES && p < end && Landing(decode, p, end).Some?
    decreases end - a
  {
    if a == start {
      p := a;
    } else {
      var next := Next(decode, a).value;
      if next <= start {
        p := RunEntersWindow(decode, next, start, end);
      } else {
        p := next;
      }
    }
  }

  /** With a whole window of 15 * (count + 2) bytes below `end`, one run from at or before it is enough for
      the scan to return exactly `count` instructions. */
  lemma {:induction false} BackwardIsComplete(decode: Decoder, end: Address, count: int, from: Address)
    requires count > 0 && LengthsWithin(decode, 15)
    requires from <= end - 15 * (count + 2) && Landing(decode, from, end).Some?
    ensures |Backward(decode, end, count)| == count
    ensures ChainTo(decode, Backward(decode, end, count), end)
  {
    var start := ScanStart(end, count);
    var p := FirstLandingIsEarliest(decode, start, end);
    var q := RunEntersWindow(decode, from, start, end);
    assert p <= q;
    LandingIsLong(decode, p, end);
    BackwardLands(decode, end, count);
  }

  /** Near address zero the window is cut off; a run from zero then gives all it has, up to `count`. */
  lemma {:induction false} BackwardFromZero(decode: Decoder, end: Address, count: int)
    requires count > 0 && 0 < end < MAX_INSTRUCTION_BYTES * (count + 1) + MAX_INSTRUCTION_BYTES
    requires Landing(decode, 0, end).Some?
    ensures Backward(decode, end, count) == LastOf(Landing(decode, 0, end).value, count)
  {
  }

  // ----- The window -----

  function Min(a: int, b: int): int {
    if a < b then a else b
  }

  function Below(s: seq<Entry>, limit: Address): seq<Entry> {
    if s == [] then []
    else Below(s[..|s| - 1], limit) + (if s[|s| - 1].address < limit then [s[|s| - 1]] else [])
  }

  /** How many instructions are fetched from the start of the enclosing symbol (64-bit sum, capped to an int). */
  function Requested(symbol: Address, at: Address, count: nat): nat
    requires symbol <= at
  {
    Min(INT_MAX, (at - symbol + count) % 0x1_0000_0000_0000_0000)
  }

  /** The instructions before `at`: from the symbol's start when there is one, else by the backward scan. */
  function Previous(decode: Decoder, symbol: Option<Address>, at: Address, wanted: nat, count: nat): seq<Entry> {
    if symbol.Some? && symbol.value <= at then
      LastOf(Below(Forward(decode, symbol.value, Requested(symbol.value, at, count)), at), wanted)
    else Backward(decode, at, wanted)
  }

  /** Placeholders right before `first`; from zero when there is no room for all of them. */
  function Leading(first: Address, n: nat): (s: seq<Entry>)
    requires n <= INT_MAX
    ensures |s| == n
  {
    var start := if first >= n then first - n else 0;
    seq(n, i requires 0 <= i < n => Invalid(start + i))
  }

  method InvalidLeading(first: Address, count: int) returns (s: seq<Entry>)
    requires count <= INT_MAX
    ensures s == Leading(first, if count <= 0 then 0 else count)
  {
    s := [];
    if count <= 0 {
      return;
    }
    var start := if first >= count then first - count else 0;
    for index := 0 to count
      invariant s == Leading(first, count)[..index]
    {
      s := s + [Invalid(start + index)];
    }
  }

  /** Placeholders from `next` on, wrapping at the top of the address space. */
  function Trailing(next: nat, n: nat): (s: seq<Entry>)
    ensures |s| == n
  {
    seq(n, i requires 0 <= i < n => Invalid((next + i) % 0x1_0000_0000_0000_0000))
  }

  function FirstAvailable(previous: seq<Entry>, at: Address): Address {
    if previous != [] then previous[0].address else at
  }

  function Wanted(offset: int, count: nat): nat
    requires offset < 0
  {
    Min(-offset, count)
  }

  /** Everything gathered for the window, before repeated addresses are removed. */
  function Collected(decode: Decoder, symbol: Option<Address>, at: Address, offset: int, count: nat): seq<Entry>
    requires count <= INT_MAX
  {
    if offset < 0 then
      var wanted := Wanted(offset, count);
      var previous := Previous(decode, symbol, at, wanted, count);
      PreviousFits(decode, symbol, at, wanted, count);
      Leading(FirstAvailable(previous, at), wanted - |previous|) + previous + Forward(decode, at, count - wanted)
    else
      var forward := Forward(decode, at, offset + count);
      if |forward| > offset then forward[offset..] else []
  }

  /** First occurrences of each address, at most `room` of them. */
  function Dedupe(s: seq<Entry>, seen: set<Address>, room: nat): seq<Entry> {
    if s == [] || room == 0 then []
    else if s[0].address in seen then Dedupe(s[1..], seen, room)
    else [s[0]] + Dedupe(s[1..], seen + {s[0].address}, room - 1)
  }

  function Core(decode: Decoder, symbol: Option<Address>, at: Address, offset: int, count: nat): seq<Entry>
    requires count <= INT_MAX
  {
    Dedupe(Collected(decode, symbol, at, offset, count), {}, count)
  }

  /** Where trailing placeholders start, before any wrap. */
  function TrailStart(core: seq<Entry>, at: Address): nat {
    if core != [] then core[|core| - 1].address + 1 else at
  }

  function Window(decode: Decoder, symbol: Option<Address>, at: Address, offset: int, count: nat): seq<Entry>
    requires count <= INT_MAX
  {
    var core := Core(decode, symbol, at, offset, count);
    core + Trailing(TrailStart(core, at), if |core| < count then count - |core| else 0)
  }

  lemma {:induction false} PreviousFits(decode: Decoder, symbol: Option<Address>, at: Address, wanted: nat, count: nat)
    ensures |Previous(decode, symbol, at, wanted, count)| <= wanted
  {
  }

  lemma {:induction false} DedupeFits(s: seq<Entry>, seen: set<Address>, room: nat)
    ensures |Dedupe(s, seen, room)| <= room
    decreases |s|
  {
    if s != [] && room > 0 {
      if s[0].address in seen {
        DedupeFits(s[1..], seen, room);
      } else {
        DedupeFits(s[1..], seen + {s[0].address}, room - 1);
      }
    }
  }

  /** `disassemble`: None stands for the exception on a negative count.  The bounds on the
      arguments are those under which the source's int arithmetic does not overflow. */
  method Disassemble(decode: Decoder, symbol: Option<Address>, at: Address, offset: int, count: int)
    returns (r: Option<seq<Entry>>)
    requires -INT_MAX <= offset && count <= INT_MAX && offset + count <= INT_MAX
    ensures r == if count < 0 then None else Some(Window(decode, symbol, at, offset, count))
    ensures r.Some? ==> |r.value| == count
  {
    if count < 0 {
      return None;
    }
    hide Dedupe, Collected;
    DedupeFits(Collected(decode, symbol, at, offset, count), {}, count);
    if count == 0 {
      assert Window(decode, symbol, at, offset, count) == [];
      return Some([]);
    }
    var instructions := Collect(decode, symbol, at, offset, count);
    instructions := RemoveRepeated(instructions, count);
    if |instructions| == count {
      assert instructions + Trailing(TrailStart(instructions, at), 0) == instructions;
      return Some(instructions);
    }
    instructions := Pad(instructions, at, count);
    return Some(instructions);
  }

  method Pad(core: seq<Entry>, at: Address, count: nat) returns (instructions: seq<Entry>)
    requires |core| <= count
    ensures instructions == core + Trailing(TrailStart(core, at), count - |core|)
  {
    hide Trailing;
    instructions := core;
    ghost var start := TrailStart(core, at);
    var next: nat := if instructions != [] then instructions[|instructions| - 1].address + 1 else at;
    next := next % 0x1_0000_0000_0000_0000;
    TrailingGrows(start, 0);
    while |instructions| < count
      invariant |core| <= |instructions| <= count
      invariant next == (start + |instructions| - |core|) % 0x1_0000_0000_0000_0000
      invariant instructions == core + Trailing(start, |instructions| - |core|)
    {
      TrailingGrows(start, |instructions| - |core|);
      OneMore(start + |instructions| - |core|);
      instructions := instructions + [Invalid(next)];
      next := (next + 1) % 0x1_0000_0000_0000_0000;
    }
  }

  lemma {:induction false} TrailingGrows(next: nat, n: nat)
    ensures Trailing(next, 0) == []
    ensures Trailing(next, n + 1) == Trailing(next, n) + [Invalid((next + n) % 0x1_0000_0000_0000_0000)]
  {
  }

  method Collect(decode: Decoder, symbol: Option<Address>, at: Address, offset: int, count: nat)
    returns (instructions: seq<Entry>)
    requires 0 < count <= INT_MAX
    ensures instructions == Collected(decode, symbol, at, offset, count)
  {
    hide Previous, Forward, Leading;
    if offset < 0 {
      var wanted := if -offset < count then -offset else count;
      instructions := LookBack(decode, symbol, at, wanted, count);
      NothingAskedFor(decode, at, at);
      var remaining := count - |instructions|;
      if remaining > 0 {
        var forward := DisassembleRange(decode, at, remaining);
        instructions := instructions + forward;
      }
    } else {
      instructions := DisassembleRange(decode, at, offset + count);
      if offset > 0 && |instructions| > offset {
        instructions := instructions[offset..];
      } else if offset > 0 {
        instructions := [];
      }
    }
  }

  /** The part of the window before the target: previous instructions, and placeholders for those missing. */
  method LookBack(decode: Decoder, symbol: Option<Address>, at: Address, wanted: nat, count: nat)
    returns (instructions: seq<Entry>)
    requires wanted <= count <= INT_MAX
    ensures var previous := Previous(decode, symbol, at, wanted, count);
            && |previous| <= wanted && |instructions| == wanted
            && instructions == Leading(FirstAvailable(previous, at), wanted - |previous|) + previous
  {
    hide Previous, Leading;
    var previous := FindPrevious(decode, symbol, at, wanted, count);
    PreviousFits(decode, symbol, at, wanted, count);
    instructions := [];
    var missing := wanted - |previous|;
    if missing > 0 {
      var first := if previous != [] then previous[0].address else at;
      var leading := InvalidLeading(first, missing);
      instructions := instructions + leading;
    }
    NothingAskedFor(decode, at, FirstAvailable(previous, at));
    assert instructions == Leading(FirstAvailable(previous, at), missing);
    instructions := instructions + previous;
  }

  lemma {:induction false} NothingAskedFor(decode: Decoder, at: Address, first: Address)
    ensures Leading(first, 0) == [] && Forward(decode, at, 0) == []
  {
  }

  method FindPrevious(decode: Decoder, symbol: Option<Address>, at: Address, wanted: nat, count: nat)
    returns (previous: seq<Entry>)
    ensures previous == Previous(decode, symbol, at, wanted, count)
  {
    hide Forward, Backward;
    if symbol.Some? && symbol.value <= at {
      var requested := (at - symbol.value + count) % 0x1_0000_0000_0000_0000;
      if INT_MAX < requested {
        requested := INT_MAX;
      }
      var fetched := DisassembleRange(decode, symbol.value, requested);
      var before := [];
      for i := 0 to |fetched|
        invariant before == Below(fetched[..i], at)
      {
        assert fetched[..i + 1][..i] == fetched[..i];
        if fetched[i].address < at {
          before := before + [fetched[i]];
        }
      }
      assert fetched[..|fetched|] == fetched;
      if |before| > wanted {
        before := before[|before| - wanted..];
      }
      previous := before;
    } else {
      previous := DisassembleBackward(decode, at, wanted);
    }
  }

  method RemoveRepeated(instructions: seq<Entry>, count: nat) returns (deduped: seq<Entry>)
    requires count > 0
    ensures deduped == Dedupe(instructions, {}, count)
  {
    deduped := [];
    var seen: set<Address> := {};
    for i := 0 to |instructions|
      invariant |deduped| < count
      invariant deduped + Dedupe(instructions[i..], seen, count - |deduped|) == Dedupe(instructions, {}, count)
    {
      var rest := instructions[i..];
      assert rest[1..] == instructions[i + 1..];
      if instructions[i].address !in seen {
        DedupeStep(deduped, rest, seen, count - |deduped|);
        seen := seen + {instructions[i].address};
        deduped := deduped + [instructions[i]];
        if |deduped| == count {
          return;
        }
      }
    }
  }

  lemma {:induction false} DedupeStep(done: seq<Entry>, s: seq<Entry>, seen: set<Address>, room: nat)
    requires s != [] && room > 0 && s[0].address !in seen
    ensures done + Dedupe(s, seen, room) == done + [s[0]] + Dedupe(s[1..], seen + {s[0].address}, room - 1)
  {
  }

  // ----- Order of the window -----

  lemma {:induction false} BelowIsPrefix(s: seq<Entry>, limit: Address)
    requires Increasing(s)
    ensures Below(s, limit) <= s
    ensures forall i :: 0 <= i < |Below(s, limit)| ==> s[i].address < limit
    ensures forall i :: |Below(s, limit)| <= i < |s| ==> s[i].address >= limit
  {
    if s != [] {
      var init, last := s[..|s| - 1], s[|s| - 1];
      BelowIsPrefix(init, limit);
      assert s == init + [last];
      assert Below(s, limit) == Below(init, limit) + (if last.address < limit then [last] else []);
      hide Below;
      if last.address < limit {
        assert forall i :: 0 <= i < |init| ==> init[i].address < last.address;
        assert |Below(init, limit)| == |init|;
      }
    }
  }

  lemma {:induction false} ChainIncreases(decode: Decoder, s: seq<Entry>, end: Address)
    requires ChainTo(decode, s, end)
    ensures Increasing(s)
    ensures forall i :: 0 <= i < |s| ==> s[i].Decoded? && s[i].address < end
    decreases |s|
  {
    if s != [] {
      var n := |s| - 1;
      var init := s[..n];
      ChainInit(decode, s, end);
      ChainIncreases(decode, init, s[n].address);
      hide ChainTo, EndsAt, Next;
      assert forall i :: 0 <= i < n ==> s[i] == init[i];
    }
  }

  lemma {:induction false} ChainInit(decode: Decoder, s: seq<Entry>, end: Address)
    requires s != [] && ChainTo(decode, s, end)
    ensures ChainTo(decode, s[..|s| - 1], s[|s| - 1].address)
    ensures s[|s| - 1].Decoded? && s[|s| - 1].address < end
  {
    var n := |s| - 1;
    assert EndsAt(decode, s[n], end);
    if n > 0 {
      assert EndsAt(decode, s[n - 1], s[n].address);
    }
  }

  /** Whatever way they were found, the previous instructions are decoded, in order and before `at`. */
  lemma {:induction false} PreviousIsOrdered(decode: Decoder, symbol: Option<Address>, at: Address, wanted: nat, count: nat)
    ensures var s := Previous(decode, symbol, at, wanted, count);
            Increasing(s) && forall i :: 0 <= i < |s| ==> s[i].Decoded? && s[i].address < at
  {
    hide Forward, Below, Backward;
    if symbol.Some? && symbol.value <= at {
      var all := Forward(decode, symbol.value, Requested(symbol.value, at, count));
      ForwardMoves(decode, symbol.value, Requested(symbol.value, at, count));
      BelowIsPrefix(all, at);
      LastOfPrefix(all, Below(all, at), at, wanted);
    } else if wanted > 0 && at > 0 {
      BackwardLands(decode, at, wanted);
      ChainIncreases(decode, Backward(decode, at, wanted), at);
    } else {
      assert Backward(decode, at, wanted) == [] by {
        BackwardOfNothing(decode, at, wanted);
      }
    }
  }

  lemma {:induction false} BackwardOfNothing(decode: Decoder, at: Address, wanted: nat)
    requires wanted == 0 || at == 0
    ensures Backward(decode, at, wanted) == []
  {
  }

  lemma {:induction false} LastOfPrefix(all: seq<Entry>, below: seq<Entry>, at: Address, wanted: nat)
    requires Increasing(all) && below <= all
    requires forall i :: 0 <= i < |all| ==> all[i].Decoded?
    requires forall i :: 0 <= i < |below| ==> all[i].address < at
    ensures Increasing(LastOf(below, wanted))
    ensures forall i :: 0 <= i < |LastOf(below, wanted)| ==> LastOf(below, wanted)[i].Decoded? && LastOf(below, wanted)[i].address < at
  {
    var s := LastOf(below, wanted);
    assert forall i :: 0 <= i < |s| ==> s[i] == all[|below| - |s| + i];
  }

  /** Previous and forward instructions together: one increasing run. */
  function Body(decode: Decoder, symbol: Option<Address>, at: Address, wanted: nat, count: nat): seq<Entry>
    requires wanted <= count
  {
    Previous(decode, symbol, at, wanted, count) + Forward(decode, at, count - wanted)
  }

  lemma {:induction false} BodyIsOrdered(decode: Decoder, symbol: Option<Address>, at: Address, wanted: nat, count: nat)
    requires wanted <= count
    ensures Increasing(Body(decode, symbol, at, wanted, count))
    ensures |Body(decode, symbol, at, wanted, count)| <= |Previous(decode, symbol, at, wanted, count)| + count - wanted
  {
    PreviousIsOrdered(decode, symbol, at, wanted, count);
    ForwardMoves(decode, at, count - wanted);
  }

  function Addresses(s: seq<Entry>): set<Address> {
    set i | 0 <= i < |s| :: s[i].address
  }

  /** A run of new addresses passes through the removal of repeats untouched. */
  lemma {:induction false} DedupeFresh(run: seq<Entry>, rest: seq<Entry>, seen: set<Address>, room: nat)
    requires Increasing(run) && |run| <= room
    requires forall i :: 0 <= i < |run| ==> run[i].address !in seen
    ensures Dedupe(run + rest, seen, room) == run + Dedupe(rest, seen + Addresses(run), room - |run|)
    decreases |run|
  {
    hide Addresses, Increasing, Dedupe;
    if run == [] {
      assert run + rest == rest;
      NoAddresses(seen);
    } else {
      var a := run[0].address;
      DedupeHead(run + rest, seen, room);
      assert (run + rest)[1..] == run[1..] + rest;
      TailIncreases(run);
      DedupeFresh(run[1..], rest, seen + {a}, room - 1);
      AddressesOf(run);
      UnionAssociates(seen, {a}, Addresses(run[1..]));
    }
  }

  lemma {:induction false} DedupeHead(s: seq<Entry>, seen: set<Address>, room: nat)
    requires s != [] && room > 0 && s[0].address !in seen
    ensures Dedupe(s, seen, room) == [s[0]] + Dedupe(s[1..], seen + {s[0].address}, room - 1)
  {
  }

  lemma {:induction false} NoAddresses(seen: set<Address>)
    ensures seen + Addresses([]) == seen
  {
  }

  lemma {:induction false} TailIncreases(s: seq<Entry>)
    requires s != [] && Increasing(s)
    ensures Increasing(s[1..])
    ensures forall i :: 0 <= i < |s[1..]| ==> s[1..][i] == s[i + 1] && s[1..][i].address > s[0].address
  {
  }

  lemma {:induction false} UnionAssociates(a: set<Address>, b: set<Address>, c: set<Address>)
    ensures a + b + c == a + (b + c)
  {
  }

  lemma {:induction false} AddressesOf(s: seq<Entry>)
    requires s != []
    ensures Addresses(s) == {s[0].address} + Addresses(s[1..])
  {
    forall i | 0 <= i < |s[1..]|
      ensures s[1..][i].address in Addresses(s)
    {
      assert s[1..][i] == s[i + 1];
    }
    forall i | 0 < i < |s|
      ensures s[i].address in Addresses(s[1..])
    {
      assert s[i] == s[1..][i - 1];
    }
  }

  function CountBelow(s: seq<Entry>, limit: nat): (k: nat)
    ensures k <= |s|
    ensures forall i :: 0 <= i < k ==> s[i].address < limit
    ensures k < |s| ==> s[k].address >= limit
  {
    if s == [] || s[0].address >= limit then 0 else 1 + CountBelow(s[1..], limit)
  }

  /** When exactly the addresses below `limit` have been seen, the removal drops exactly those. */
  lemma {:induction false} DedupeSeen(s: seq<Entry>, seen: set<Address>, limit: nat, room: nat)
    requires Increasing(s) && |s| <= room
    requires forall a: Address :: a in seen <==> a < limit
    ensures Dedupe(s, seen, room) == s[CountBelow(s, limit)..]
    decreases |s|
  {
    if s != [] {
      if s[0].address < limit {
        DedupeSeen(s[1..], seen, limit, room);
      } else {
        DedupeFresh(s, [], seen, room);
        assert s + [] == s;
      }
    }
  }

  function Missing(decode: Decoder, symbol: Option<Address>, at: Address, offset: int, count: nat): nat
    requires offset < 0
  {
    PreviousFits(decode, symbol, at, Wanted(offset, count), count);
    Wanted(offset, count) - |Previous(decode, symbol, at, Wanted(offset, count), count)|
  }

  /** The leading placeholders would start below address zero. */
  predicate Clamped(decode: Decoder, symbol: Option<Address>, at: Address, offset: int, count: nat) {
    && offset < 0
    && FirstAvailable(Previous(decode, symbol, at, Wanted(offset, count), count), at)
       < Missing(decode, symbol, at, offset, count)
  }

  lemma {:induction false} LeadingThenBody(first: Address, missing: nat, body: seq<Entry>)
    requires missing <= INT_MAX && missing <= first
    requires Increasing(body) && (body != [] ==> body[0].address >= first)
    ensures Increasing(Leading(first, missing) + body)
  {
  }

  lemma {:induction false} BodyStartsAtFirst(decode: Decoder, symbol: Option<Address>, at: Address, wanted: nat, count: nat)
    requires wanted <= count
    ensures var body := Body(decode, symbol, at, wanted, count);
            body != [] ==> body[0].address == FirstAvailable(Previous(decode, symbol, at, wanted, count), at)
  {
    ForwardMoves(decode, at, count - wanted);
  }

  /** Unless the leading placeholders are clamped at zero, the removal of repeats removes nothing. */
  lemma {:induction false} CoreIsCollected(decode: Decoder, symbol: Option<Address>, at: Address, offset: int, count: nat)
    requires count <= INT_MAX && !Clamped(decode, symbol, at, offset, count)
    ensures Core(decode, symbol, at, offset, count) == Collected(decode, symbol, at, offset, count)
    ensures Increasing(Collected(decode, symbol, at, offset, count))
  {
    hide Dedupe, Increasing, Collected, Addresses, Body, Leading, FirstAvailable, Forward;
    var s := Collected(decode, symbol, at, offset, count);
    if offset < 0 {
      var wanted := Wanted(offset, count);
      BodyIsOrdered(decode, symbol, at, wanted, count);
      BodyStartsAtFirst(decode, symbol, at, wanted, count);
      CollectedIsLeadingAndBody(decode, symbol, at, offset, count);
      LeadingThenBody(FirstAvailable(Previous(decode, symbol, at, wanted, count), at),
                      Missing(decode, symbol, at, offset, count), Body(decode, symbol, at, wanted, count));
    } else {
      CollectedForward(decode, symbol, at, offset, count);
    }
    DedupeAll(s, count);
  }

  lemma {:induction false} DedupeAll(s: seq<Entry>, room: nat)
    requires Increasing(s) && |s| <= room
    ensures Dedupe(s, {}, room) == s
  {
    DedupeFresh(s, [], {}, room);
    assert s + [] == s;
  }

  /** From `at` on, the window is a slice of the decode chain. */
  lemma {:induction false} CollectedForward(decode: Decoder, symbol: Option<Address>, at: Address, offset: int, count: nat)
    requires offset >= 0 && count <= INT_MAX
    ensures var s := Collected(decode, symbol, at, offset, count);
            var chain := Forward(decode, at, offset + count);
            && Increasing(s) && |s| <= count
            && |s| == (if |chain| > offset then |chain| - offset else 0)
            && (forall i :: 0 <= i < |s| ==> s[i] == chain[offset + i])
            && (offset == 0 && s != [] ==> s[0] == Decoded(at))
  {
    hide Forward;
    ForwardMoves(decode, at, offset + count);
  }

  /** When they are clamped, they cover 0, 1, ... and every real instruction below their count is dropped. */
  lemma {:induction false} CoreWhenClamped(decode: Decoder, symbol: Option<Address>, at: Address, offset: int, count: nat)
    requires count <= INT_MAX && Clamped(decode, symbol, at, offset, count)
    ensures var missing := Missing(decode, symbol, at, offset, count);
            var body := Body(decode, symbol, at, Wanted(offset, count), count);
            && Core(decode, symbol, at, offset, count) == Leading(0, missing) + body[CountBelow(body, missing)..]
            && Increasing(Core(decode, symbol, at, offset, count))
  {
    hide Dedupe, Increasing, Collected, Addresses, Body, CountBelow, Leading, FirstAvailable;
    var wanted := Wanted(offset, count);
    var first := FirstAvailable(Previous(decode, symbol, at, wanted, count), at);
    var body := Body(decode, symbol, at, wanted, count);
    var missing := Missing(decode, symbol, at, offset, count);
    BodyIsOrdered(decode, symbol, at, wanted, count);
    CollectedIsLeadingAndBody(decode, symbol, at, offset, count);
    LeadingFromZero(first, missing);
    DedupeFresh(Leading(first, missing), body, {}, count);
    assert {} + Addresses(Leading(0, missing)) == Addresses(Leading(0, missing));
    DedupeSeen(body, Addresses(Leading(0, missing)), missing, count - missing);
    LeadingThenRest(missing, body);
  }

  lemma {:induction false} LeadingThenRest(n: nat, body: seq<Entry>)
    requires n <= INT_MAX && Increasing(body)
    ensures Increasing(Leading(0, n) + body[CountBelow(body, n)..])
  {
    hide CountBelow;
    var k := CountBelow(body, n);
    var rest := body[k..];
    SuffixIncreases(body, k);
    hide Increasing;
    assert rest != [] ==> rest[0].address >= n;
    LeadingThenBody(n, n, rest);
    assert Leading(n, n) == Leading(0, n);
  }

  lemma {:induction false} SuffixIncreases(s: seq<Entry>, k: nat)
    requires Increasing(s) && k <= |s|
    ensures Increasing(s[k..])
  {
  }

  lemma {:induction false} CollectedIsLeadingAndBody(decode: Decoder, symbol: Option<Address>, at: Address, offset: int, count: nat)
    requires offset < 0 && count <= INT_MAX
    ensures var wanted := Wanted(offset, count);
            var first := FirstAvailable(Previous(decode, symbol, at, wanted, count), at);
            Collected(decode, symbol, at, offset, count)
            == Leading(first, Missing(decode, symbol, at, offset, count)) + Body(decode, symbol, at, wanted, count)
  {
    hide Forward, Previous, Leading;
  }

  lemma {:induction false} LeadingFromZero(first: Address, n: nat)
    requires first < n <= INT_MAX
    ensures Leading(first, n) == Leading(0, n)
    ensures Increasing(Leading(0, n))
    ensures forall i :: 0 <= i < n ==> Leading(0, n)[i] == Invalid(i)
    ensures forall a: Address :: a in Addresses(Leading(0, n)) <==> a < n
  {
    forall a: Address | a < n
      ensures a in Addresses(Leading(0, n))
    {
      assert Leading(0, n)[a].address == a;
    }
  }

  lemma {:induction false} CoreIsIncreasing(decode: Decoder, symbol: Option<Address>, at: Address, offset: int, count: nat)
    requires count <= INT_MAX
    ensures Increasing(Core(decode, symbol, at, offset, count))
  {
    hide Core, Increasing;
    if Clamped(decode, symbol, at, offset, count) {
      CoreWhenClamped(decode, symbol, at, offset, count);
    } else {
      CoreIsCollected(decode, symbol, at, offset, count);
    }
  }

  /** The trailing placeholders stay inside the address space. */
  predicate TrailFits(core: seq<Entry>, at: Address, count: nat) {
    |core| >= count || TrailStart(core, at) + count - |core| <= 0x1_0000_0000_0000_0000
  }

  lemma {:induction false} TrailIncreases(core: seq<Entry>, at: Address, count: nat)
    requires Increasing(core) && |core| <= count && TrailFits(core, at, count)
    ensures Increasing(core + Trailing(TrailStart(core, at), count - |core|))
  {
    var trail := Trailing(TrailStart(core, at), count - |core|);
    forall i | 0 <= i < |trail|
      ensures trail[i].address == TrailStart(core, at) + i
    {
      assert TrailStart(core, at) + i < 0x1_0000_0000_0000_0000;
    }
  }

  /** The first placeholder past the top of the address space is at zero, below the entry before it. */
  lemma {:induction false} TrailWraps(core: seq<Entry>, at: Address, count: nat)
    requires |core| <= count && !TrailFits(core, at, count)
    ensures !Increasing(core + Trailing(TrailStart(core, at), count - |core|))
  {
    var start := TrailStart(core, at);
    var s := core + Trailing(start, count - |core|);
    var k := 0x1_0000_0000_0000_0000 - start;
    assert s[|core| + k].address == (start + k) % 0x1_0000_0000_0000_0000 == 0;
    if k > 0 {
      assert s[|core| + k - 1].address == (start + k - 1) % 0x1_0000_0000_0000_0000;
    } else {
      assert s[|core| - 1] == core[|core| - 1];
    }
  }

  /** Addresses in the window strictly increase exactly when the trailing placeholders do not run past the
      top of the address space.  (Clamping at the bottom is harmless here: the removal of repeats repairs it.) */
  lemma {:induction false} WindowIsIncreasing(decode: Decoder, symbol: Option<Address>, at: Address, offset: int, count: nat)
    requires count <= INT_MAX
    ensures Increasing(Window(decode, symbol, at, offset, count))
       <==> TrailFits(Core(decode, symbol, at, offset, count), at, count)
  {
    var core := Core(decode, symbol, at, offset, count);
    DedupeFits(Collected(decode, symbol, at, offset, count), {}, count);
    CoreIsIncreasing(decode, symbol, at, offset, count);
    WindowIsCoreAndTrail(decode, symbol, at, offset, count);
    if TrailFits(core, at, count) {
      TrailIncreases(core, at, count);
    } else {
      TrailWraps(core, at, count);
    }
  }

  lemma {:induction false} WindowIsCoreAndTrail(decode: Decoder, symbol: Option<Address>, at: Address, offset: int, count: nat)
    requires count <= INT_MAX
    ensures var core := Core(decode, symbol, at, offset, count);
            |core| <= count && Window(decode, symbol, at, offset, count) == core + Trailing(TrailStart(core, at), count - |core|)
  {
    DedupeFits(Collected(decode, symbol, at, offset, count), {}, count);
  }

  // ----- Positions in the window -----

  /** Where the target sits in the body when the whole body is kept, and why it is missed otherwise. */
  lemma {:induction false} TargetInBody(decode: Decoder, symbol: Option<Address>, at: Address, wanted: nat, count: nat)
    requires wanted < count && Next(decode, at).Some?
    ensures var body := Body(decode, symbol, at, wanted, count);
            var k := |Previous(decode, symbol, at, wanted, count)|;
            k < |body| && body[k] == Decoded(at)
  {
    ForwardMoves(decode, at, count - wanted);
    assert Forward(decode, at, count - wanted) != [];
  }

  lemma {:induction false} TargetWhenClamped(decode: Decoder, symbol: Option<Address>, at: Address, offset: int, count: nat)
    requires count <= INT_MAX && offset < 0 < offset + count && Next(decode, at).Some?
    requires Clamped(decode, symbol, at, offset, count)
    ensures Window(decode, symbol, at, offset, count)[-offset] != Decoded(at)
  {
    hide Increasing, Body, Leading, Forward, Previous, Core, CountBelow;
    var wanted := Wanted(offset, count);
    var body := Body(decode, symbol, at, wanted, count);
    var k := |Previous(decode, symbol, at, wanted, count)|;
    var missing := Missing(decode, symbol, at, offset, count);
    var core := Core(decode, symbol, at, offset, count);
    CoreWhenClamped(decode, symbol, at, offset, count);
    TargetInBody(decode, symbol, at, wanted, count);
    BodyIsOrdered(decode, symbol, at, wanted, count);
    BodyStartsAtFirst(decode, symbol, at, wanted, count);
    var dropped := CountBelow(body, missing);
    WindowIsCoreAndTrail(decode, symbol, at, offset, count);
    SkippedPosition(body, k, dropped, missing, wanted, core, at);
  }

  /** Of the kept entries, the one at `wanted` comes after the target. */
  lemma {:induction false} SkippedPosition(body: seq<Entry>, k: nat, dropped: nat, missing: nat, wanted: nat,
                                           core: seq<Entry>, at: Address)
    requires missing <= INT_MAX && wanted == missing + k && 0 < dropped <= |body|
    requires k < |body| && body[k] == Decoded(at) && Increasing(body)
    requires core == Leading(0, missing) + body[dropped..]
    ensures wanted < |core| ==> core[wanted] != Decoded(at)
  {
    if wanted < |core| {
      assert core[wanted] == body[dropped + k];
    }
  }

  /** For a decodable target and -count < offset <= 0, entry number -offset is the target exactly
      when the leading placeholders are not clamped at address zero. */
  lemma {:induction false} TargetPosition(decode: Decoder, symbol: Option<Address>, at: Address, offset: int, count: nat)
    requires count <= INT_MAX && offset <= 0 < offset + count && Next(decode, at).Some?
    ensures |Window(decode, symbol, at, offset, count)| == count
    ensures Window(decode, symbol, at, offset, count)[-offset] == Decoded(at)
       <==> !Clamped(decode, symbol, at, offset, count)
  {
    WindowIsCoreAndTrail(decode, symbol, at, offset, count);
    if Clamped(decode, symbol, at, offset, count) {
      TargetWhenClamped(decode, symbol, at, offset, count);
    } else {
      CoreIsCollected(decode, symbol, at, offset, count);
      TargetInCollected(decode, symbol, at, offset, count);
    }
  }

  lemma {:induction false} TargetInCollected(decode: Decoder, symbol: Option<Address>, at: Address, offset: int, count: nat)
    requires count <= INT_MAX && offset <= 0 < offset + count && Next(decode, at).Some?
    ensures var s := Collected(decode, symbol, at, offset, count);
            -offset < |s| && s[-offset] == Decoded(at)
  {
    if offset < 0 {
      hide Leading, Body, Previous, Collected;
      TargetInBody(decode, symbol, at, Wanted(offset, count), count);
      CollectedIsLeadingAndBody(decode, symbol, at, offset, count);
    } else {
      ForwardMoves(decode, at, count);
    }
  }

  /** From the target on, whatever the offset, the window shows the instructions that follow one another from the
      target, and placeholders where there are none. */
  lemma {:induction false} WindowFromTarget(decode: Decoder, symbol: Option<Address>, at: Address, offset: int, count: nat, i: nat)
    requires count <= INT_MAX && 0 <= offset + count && !Clamped(decode, symbol, at, offset, count)
    requires i < count && 0 <= i + offset
    ensures var w, k := Window(decode, symbol, at, offset, count), i + offset;
            && |w| == count
            && (Reach(decode, at, k + 1).Some? ==> Reach(decode, at, k).Some? && w[i] == Decoded(Reach(decode, at, k).value))
            && (Reach(decode, at, k + 1).None? ==> w[i].Invalid?)
  {
    hide Window, Forward, Core, Collected, Leading, Previous, Reach, Clamped, TrailStart;
    WindowIsCoreAndTrail(decode, symbol, at, offset, count);
    CoreIsCollected(decode, symbol, at, offset, count);
    ForwardReaches(decode, at, offset + count, i + offset);
    ForwardMoves(decode, at, offset + count);
    CollectedFromTarget(decode, symbol, at, offset, count);
  }

  lemma {:induction false} CollectedFromTarget(decode: Decoder, symbol: Option<Address>, at: Address, offset: int, count: nat)
    requires count <= INT_MAX && 0 <= offset + count
    ensures var s, chain := Collected(decode, symbol, at, offset, count), Forward(decode, at, offset + count);
            && |s| == (if offset < 0 || |chain| > offset then |chain| - offset else 0)
            && forall i :: 0 <= i < |s| && 0 <= i + offset ==> s[i] == chain[i + offset]
  {
    hide Forward, Leading, Previous;
    if offset < 0 {
      PreviousFits(decode, symbol, at, -offset, count);
      assert Wanted(offset, count) == -offset;
    }
  }

  /** Decoding on through a run that lands: as many entries as are asked for, and beyond the run the chain
      from its end. */
  lemma {:induction false} ForwardThroughLanding(decode: Decoder, a: Address, end: Address, n: nat)
    requires a < end && Landing(decode, a, end).Some?
    ensures var run := Landing(decode, a, end).value;
            && |run| <= end - a
            && (n >= |run| ==> Forward(decode, a, n) == run + Forward(decode, end, n - |run|))
            && (n < |run| ==> Forward(decode, a, n) == run[..n])
    decreases end - a
  {
    var next := Next(decode, a).value;
    if n > 0 && next != end {
      ForwardThroughLanding(decode, next, end, n - 1);
    } else if next != end {
      ForwardThroughLanding(decode, next, end, 0);
    }
  }

  /** What is found before the target when decoding from the enclosing symbol's start lands on it: the tail
      of that run, or of as much of it as was fetched. */
  lemma {:induction false} PreviousOnRun(decode: Decoder, symbol: Address, at: Address, wanted: nat, count: nat)
    requires symbol < at && Landing(decode, symbol, at).Some?
    ensures var run, n := Landing(decode, symbol, at).value, Requested(symbol, at, count);
            Previous(decode, Some(symbol), at, wanted, count) == LastOf(if n < |run| then run[..n] else run, wanted)
  {
    hide Forward, Landing, Below, Increasing, ChainTo, Requested, LastOf;
    var run, n := Landing(decode, symbol, at).value, Requested(symbol, at, count);
    ForwardThroughLanding(decode, symbol, at, n);
    LandingIsChain(decode, symbol, at);
    ChainIncreases(decode, run, at);
    ForwardMoves(decode, symbol, n);
    if n < |run| {
      PrefixIncreases(run, n);
      BelowRun(run[..n], [], at);
      assert run[..n] + [] == run[..n];
    } else {
      ForwardMoves(decode, at, n - |run|);
      BelowRun(run, Forward(decode, at, n - |run|), at);
    }
  }

  lemma {:induction false} PrefixIncreases(s: seq<Entry>, n: nat)
    requires Increasing(s) && n <= |s|
    ensures Increasing(s[..n] + [])
  {
  }

  /** The fetch from the symbol's start reaches the target exactly when the run to it has no more entries
      than are fetched; then the previous instructions are its tail, and lead up to the target without gap or
      overlap.  Within the reach of an int, that is always so: each entry is at least one byte. */
  lemma {:induction false} SymbolRunReachesTarget(decode: Decoder, symbol: Address, at: Address, wanted: nat, count: nat)
    requires symbol < at && Landing(decode, symbol, at).Some? && wanted > 0
    ensures var run := Landing(decode, symbol, at).value;
            var previous := Previous(decode, Some(symbol), at, wanted, count);
            && (previous == LastOf(run, wanted) <==> |run| <= Requested(symbol, at, count))
            && (|run| <= Requested(symbol, at, count) ==> ChainTo(decode, previous, at))
            && (|run| > Requested(symbol, at, count) ==> previous == [] || !EndsAt(decode, previous[|previous| - 1], at))
            && (at - symbol + count <= INT_MAX ==> |run| <= Requested(symbol, at, count))
  {
    hide Landing, Previous, Requested;
    var run, n := Landing(decode, symbol, at).value, Requested(symbol, at, count);
    PreviousOnRun(decode, symbol, at, wanted, count);
    LandingIsChain(decode, symbol, at);
    ChainIncreases(decode, run, at);
    if n < |run| {
      CutRunMisses(decode, run, n, wanted, at);
    } else {
      ChainTail(decode, run, wanted, at);
    }
    if at - symbol + count <= INT_MAX {
      RequestedIsUncapped(symbol, at, count);
      ForwardThroughLanding(decode, symbol, at, 0);
    }
  }

  lemma {:induction false} CutRunMisses(decode: Decoder, run: seq<Entry>, n: nat, wanted: nat, at: Address)
    requires n < |run| && wanted > 0 && ChainTo(decode, run, at) && Increasing(run)
    requires forall i :: 0 <= i < |run| ==> run[i].address < at
    ensures var cut := LastOf(run[..n], wanted);
            && cut != LastOf(run, wanted)
            && (cut == [] || !EndsAt(decode, cut[|cut| - 1], at))
  {
    var cut, all := LastOf(run[..n], wanted), LastOf(run, wanted);
    assert all[|all| - 1] == run[|run| - 1];
    if n > 0 {
      assert cut[|cut| - 1] == run[n - 1];
      assert EndsAt(decode, run[n - 1], run[n].address);
    }
  }

  lemma {:induction false} RequestedIsUncapped(symbol: Address, at: Address, count: nat)
    requires symbol <= at && at - symbol + count <= INT_MAX
    ensures Requested(symbol, at, count) == at - symbol + count
  {
  }

  lemma {:induction false} BelowRun(run: seq<Entry>, rest: seq<Entry>, at: Address)
    requires Increasing(run + rest)
    requires forall i :: 0 <= i < |run| ==> run[i].address < at
    requires forall i :: 0 <= i < |rest| ==> rest[i].address >= at
    ensures Below(run + rest, at) == run
  {
    var s := run + rest;
    BelowIsPrefix(s, at);
    assert forall i :: 0 <= i < |run| ==> s[i] == run[i];
    assert forall i :: |run| <= i < |s| ==> s[i] == rest[i - |run|];
    var k := |Below(s, at)|;
    assert k < |s| ==> s[k].address >= at;
    assert |run| < |s| ==> s[|run|].address >= at;
  }

  /** What stands before the target: the previous instructions, all -offset of them, or else a placeholder first. */
  lemma {:induction false} WindowPrefix(decode: Decoder, symbol: Option<Address>, at: Address, offset: int, count: nat)
    requires count <= INT_MAX && offset < 0 <= offset + count
    ensures var w, previous := Window(decode, symbol, at, offset, count), Previous(decode, symbol, at, -offset, count);
            && |w| == count && |previous| <= -offset
            && (|previous| == -offset ==> w[..-offset] == previous)
            && (forall i :: 0 <= i < -offset - |previous| ==> w[i].Invalid?)
  {
    hide Forward, Core, Collected, Leading, Previous;
    assert Wanted(offset, count) == -offset;
    WindowIsCoreAndTrail(decode, symbol, at, offset, count);
    PreviousFits(decode, symbol, at, -offset, count);
    var previous := Previous(decode, symbol, at, -offset, count);
    var missing := Missing(decode, symbol, at, offset, count);
    LeadingIsInvalid(FirstAvailable(previous, at), missing);
    LeadingIsInvalid(0, missing);
    if Clamped(decode, symbol, at, offset, count) {
      CoreWhenClamped(decode, symbol, at, offset, count);
    } else {
      CoreIsCollected(decode, symbol, at, offset, count);
      CollectedIsLeadingAndBody(decode, symbol, at, offset, count);
      if missing == 0 {
        NothingAskedFor(decode, at, FirstAvailable(previous, at));
      }
    }
  }

  /** The window up to the target is one contiguous chain ending on it exactly when the run to it is long enough
      for the offset and the fetch reaches its end; it is then the tail of that run.  For offset == -count that is
      the whole window: one page up. */
  lemma {:induction false} WindowLeadsToTarget(decode: Decoder, symbol: Address, at: Address, offset: int, count: nat)
    requires count <= INT_MAX && offset < 0 <= offset + count
    requires symbol < at && Landing(decode, symbol, at).Some?
    ensures var w, run := Window(decode, Some(symbol), at, offset, count), Landing(decode, symbol, at).value;
            var reached := -offset <= |run| <= Requested(symbol, at, count);
            && |w| == count
            && (ChainTo(decode, w[..-offset], at) <==> reached)
            && (reached ==> w[..-offset] == LastOf(run, -offset))
            && (reached && offset + count > 0 && Next(decode, at).Some? ==> w[-offset] == Decoded(at))
  {
    hide Forward, Landing, Requested, Window, Previous, ChainTo, LastOf, Next, Clamped;
    var w := Window(decode, Some(symbol), at, offset, count);
    SymbolRunReachesTarget(decode, symbol, at, -offset, count);
    PreviousOnRun(decode, symbol, at, -offset, count);
    WindowPrefix(decode, Some(symbol), at, offset, count);
    var previous := Previous(decode, Some(symbol), at, -offset, count);
    if |previous| < -offset {
      FirstBreaksChain(decode, w[..-offset], at);
    } else {
      if |Landing(decode, symbol, at).value| > Requested(symbol, at, count) {
        LastBreaksChain(decode, previous, at);
      }
      NotClampedWhenFull(decode, Some(symbol), at, offset, count);
      if offset + count > 0 && Next(decode, at).Some? {
        TargetPosition(decode, Some(symbol), at, offset, count);
      }
    }
  }

  lemma {:induction false} LastBreaksChain(decode: Decoder, s: seq<Entry>, at: Address)
    requires s != [] && !EndsAt(decode, s[|s| - 1], at)
    ensures !ChainTo(decode, s, at)
  {
  }

  lemma {:induction false} NotClampedWhenFull(decode: Decoder, symbol: Option<Address>, at: Address, offset: int, count: nat)
    requires count <= INT_MAX && offset < 0 <= offset + count
    requires |Previous(decode, symbol, at, -offset, count)| == -offset
    ensures !Clamped(decode, symbol, at, offset, count)
  {
    hide Previous;
    assert Wanted(offset, count) == -offset;
  }

  /** Without a symbol the backward scan does the same: with instructions of at most 15 bytes, room below the
      target, and one landing run from before the scan, the window up to the target is one contiguous chain. */
  lemma {:induction false} WindowLeadsBackward(decode: Decoder, at: Address, offset: int, count: nat, from: Address)
    requires count <= INT_MAX && offset < 0 <= offset + count && LengthsWithin(decode, 15)
    requires from <= at - 15 * (2 - offset) && Landing(decode, from, at).Some?
    ensures var w := Window(decode, None, at, offset, count);
            && |w| == count && ChainTo(decode, w[..-offset], at)
            && (offset + count > 0 && Next(decode, at).Some? ==> w[-offset] == Decoded(at))
  {
    hide Forward, Landing, Core, Collected, Leading, Window, Backward;
    BackwardIsComplete(decode, at, -offset, from);
    WindowPrefix(decode, None, at, offset, count);
    assert Previous(decode, None, at, -offset, count) == Backward(decode, at, -offset);
    if offset + count > 0 && Next(decode, at).Some? {
      TargetPosition(decode, None, at, offset, count);
      NotClampedWhenFull(decode, None, at, offset, count);
    }
  }

  /** Looking back further than the window is long gives the window one page up. */
  lemma {:induction false} LookBackIsCapped(decode: Decoder, symbol: Option<Address>, at: Address, offset: int, count: nat)
    requires 0 < count <= INT_MAX && offset <= 0 - count
    ensures Window(decode, symbol, at, offset, count) == Window(decode, symbol, at, 0 - count, count)
  {
    hide Forward, Previous, Leading, Dedupe;
    assert Wanted(offset, count) == count == Wanted(0 - count, count);
  }

  /** A symbol that starts at the target has no instruction before it: placeholders take their place. */
  lemma {:induction false} SymbolAtTarget(decode: Decoder, at: Address, offset: int, count: nat)
    requires count <= INT_MAX && offset < 0 <= offset + count
    ensures var w := Window(decode, Some(at), at, offset, count);
            |w| == count && forall i :: 0 <= i < -offset ==> w[i].Invalid?
  {
    hide Window, Forward;
    var run := Forward(decode, at, Requested(at, at, count));
    ForwardMoves(decode, at, Requested(at, at, count));
    BelowIsPrefix(run, at);
    assert Below(run, at) == [];
    WindowPrefix(decode, Some(at), at, offset, count);
  }

  /** A symbol that starts after the target is no symbol. */
  lemma {:induction false} SymbolAfterTarget(decode: Decoder, symbol: Address, at: Address, offset: int, count: nat)
    requires count <= INT_MAX && at < symbol
    ensures Window(decode, Some(symbol), at, offset, count) == Window(decode, None, at, offset, count)
  {
    hide Forward, Leading, Dedupe, Backward;
  }

  lemma {:induction false} FirstBreaksChain(decode: Decoder, s: seq<Entry>, at: Address)
    requires s != [] && s[0].Invalid?
    ensures !ChainTo(decode, s, at)
  {
    assert |s| == 1 ==> !EndsAt(decode, s[|s| - 1], at);
    assert |s| > 1 ==> !EndsAt(decode, s[0], s[0 + 1].address);
  }

  lemma {:induction false} LeadingIsInvalid(first: Address, n: nat)
    requires n <= INT_MAX
    ensures forall i :: 0 <= i < n ==> Leading(first, n)[i].Invalid?
  {
  }

  // ----- Placeholders -----

  /** Each placeholder is one address on from the entry before it, wrapping at the top; and so is the first
      instruction after leading placeholders, if `close`. */
  predicate Adjacent(s: seq<Entry>, close: bool) {
    forall i :: 0 < i < |s| && (s[i].Invalid? || (close && s[i - 1].Invalid?)) ==>
      s[i].address == (s[i - 1].address + 1) % 0x1_0000_0000_0000_0000
  }

  lemma {:induction false} AdjacentConcat(a: seq<Entry>, b: seq<Entry>, close: bool)
    requires Adjacent(a, close) && Adjacent(b, close)
    requires a != [] && b != [] && (b[0].Invalid? || (close && a[|a| - 1].Invalid?)) ==>
               b[0].address == (a[|a| - 1].address + 1) % 0x1_0000_0000_0000_0000
    ensures Adjacent(a + b, close)
  {
    var s := a + b;
    forall i | 0 < i < |s| && (s[i].Invalid? || (close && s[i - 1].Invalid?))
      ensures s[i].address == (s[i - 1].address + 1) % 0x1_0000_0000_0000_0000
    {
      if i < |a| {
        assert s[i] == a[i] && s[i - 1] == a[i - 1];
      } else if i > |a| {
        assert s[i] == b[i - |a|] && s[i - 1] == b[i - |a| - 1];
      } else {
        assert s[i] == b[0] && s[i - 1] == a[|a| - 1];
      }
    }
  }

  lemma {:induction false} TrailingAdjacent(next: nat, n: nat)
    ensures Adjacent(Trailing(next, n), true)
  {
    forall i | 0 < i < n
      ensures Trailing(next, n)[i].address == (Trailing(next, n)[i - 1].address + 1) % 0x1_0000_0000_0000_0000
    {
      OneMore(next + i - 1);
    }
  }

  lemma {:induction false} OneMore(a: nat)
    ensures (a + 1) % 0x1_0000_0000_0000_0000 == (a % 0x1_0000_0000_0000_0000 + 1) % 0x1_0000_0000_0000_0000
  {
  }

  lemma {:induction false} LeadingAdjacent(first: Address, n: nat)
    requires n <= INT_MAX
    ensures Adjacent(Leading(first, n), true)
    ensures 0 < n <= first ==> Leading(first, n)[n - 1].address + 1 == first
  {
    forall i | 0 < i < n
      ensures Leading(first, n)[i].address == (Leading(first, n)[i - 1].address + 1) % 0x1_0000_0000_0000_0000
    {
      SmallModulo(Leading(first, n)[i].address);
    }
  }

  lemma {:induction false} SmallModulo(a: Address)
    ensures a % 0x1_0000_0000_0000_0000 == a
  {
  }

  /** Before the trailing placeholders come leading ones, right before the first instruction unless they are
      clamped, and then instructions only. */
  lemma {:induction false} CoreAdjacent(decode: Decoder, symbol: Option<Address>, at: Address, offset: int, count: nat)
    requires count <= INT_MAX
    ensures Adjacent(Core(decode, symbol, at, offset, count), !Clamped(decode, symbol, at, offset, count))
  {
    hide Forward, Core, Collected, Leading, Previous, Adjacent, CountBelow;
    if offset < 0 {
      var wanted := Wanted(offset, count);
      var body := Body(decode, symbol, at, wanted, count);
      var first := FirstAvailable(Previous(decode, symbol, at, wanted, count), at);
      var missing := Missing(decode, symbol, at, offset, count);
      BodyIsDecoded(decode, symbol, at, wanted, count);
      if Clamped(decode, symbol, at, offset, count) {
        CoreWhenClamped(decode, symbol, at, offset, count);
        LeadingAdjacent(0, missing);
        var rest := body[CountBelow(body, missing)..];
        DecodedAdjacent(rest);
        Weaken(Leading(0, missing));
        Weaken(rest);
        AdjacentConcat(Leading(0, missing), rest, false);
      } else {
        CoreIsCollected(decode, symbol, at, offset, count);
        CollectedIsLeadingAndBody(decode, symbol, at, offset, count);
        BodyStartsAtFirst(decode, symbol, at, wanted, count);
        LeadingAdjacent(first, missing);
        DecodedAdjacent(body);
        SmallModulo(first);
        AdjacentConcat(Leading(first, missing), body, true);
      }
    } else {
      CoreIsCollected(decode, symbol, at, offset, count);
      CollectedForward(decode, symbol, at, offset, count);
      ForwardMoves(decode, at, offset + count);
      DecodedAdjacent(Collected(decode, symbol, at, offset, count));
    }
  }

  lemma {:induction false} BodyIsDecoded(decode: Decoder, symbol: Option<Address>, at: Address, wanted: nat, count: nat)
    requires wanted <= count
    ensures forall i :: 0 <= i < |Body(decode, symbol, at, wanted, count)| ==> Body(decode, symbol, at, wanted, count)[i].Decoded?
  {
    hide Forward, Previous;
    PreviousIsOrdered(decode, symbol, at, wanted, count);
    ForwardMoves(decode, at, count - wanted);
  }

  lemma {:induction false} DecodedAdjacent(s: seq<Entry>)
    requires forall i :: 0 <= i < |s| ==> s[i].Decoded?
    ensures Adjacent(s, true)
  {
  }

  lemma {:induction false} Weaken(s: seq<Entry>)
    requires Adjacent(s, true)
    ensures Adjacent(s, false)
  {
  }

  /** Every placeholder of a window is one address on from the entry before it; with nothing before it, it is the
      target's own address, or a leading one. */
  lemma {:induction false} PlaceholdersAdjacent(decode: Decoder, symbol: Option<Address>, at: Address, offset: int, count: nat)
    requires count <= INT_MAX
    ensures var w := Window(decode, symbol, at, offset, count);
            && Adjacent(w, !Clamped(decode, symbol, at, offset, count))
            && (Core(decode, symbol, at, offset, count) == [] && count > 0 ==> w[0] == Invalid(at))
  {
    hide Core, Adjacent, Clamped;
    var core := Core(decode, symbol, at, offset, count);
    var close := !Clamped(decode, symbol, at, offset, count);
    WindowIsCoreAndTrail(decode, symbol, at, offset, count);
    CoreAdjacent(decode, symbol, at, offset, count);
    var trail := Trailing(TrailStart(core, at), count - |core|);
    TrailingAdjacent(TrailStart(core, at), count - |core|);
    if !close {
      Weaken(trail);
    }
    SmallModulo(at);
    AdjacentConcat(core, trail, close);
  }

  /** A window whose leading placeholder has no room: the target is at address zero, and is not at the position
      the offset says. */
  lemma {:induction false} ClampedAtZero(decode: Decoder)
    requires Next(decode, 0).Some?
    ensures Clamped(decode, None, 0, -1, 2)
    ensures Window(decode, None, 0, -1, 2)[1] != Decoded(0)
  {
    assert Backward(decode, 0, 1) == [];
    TargetPosition(decode, None, 0, -1, 2);
  }

  /** A decoder of one-byte instructions. */
  function OneByte(a: Address): Option<Address> {
    if a + 1 < 0x1_0000_0000_0000_0000 then Some(a + 1) else None
  }

  lemma {:induction false} OneByteRun(a: Address, end: Address)
    requires a < end
    ensures Landing(OneByte, a, end).Some? && |Landing(OneByte, a, end).value| == end - a
    decreases end - a
  {
    assert Next(OneByte, a) == Some(a + 1);
    if a + 1 < end {
      OneByteRun(a + 1, end);
    }
  }

  /** A symbol that starts 2^31 one-byte instructions before the target: the capped fetch misses it. */
  lemma {:induction false} CappedFetchMisses()
    ensures var run := Landing(OneByte, 0, 0x8000_0000);
            run.Some? && Previous(OneByte, Some(0), 0x8000_0000, 1, 2) != LastOf(run.value, 1)
  {
    hide Landing, Previous, LastOf;
    OneByteRun(0, 0x8000_0000);
    SymbolRunReachesTarget(OneByte, 0, 0x8000_0000, 1, 2);
  }
}
