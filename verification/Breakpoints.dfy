/** The session's breakpoint bookkeeping: which engine breakpoint ids belong to which source file and
    to which kind of request.

    The engine is a set of live ids.  A `bc` command removes one id; a set command may add any ids that
    were not live (an engine may reuse removed ids, refuse, or add several).  What the i-th set command
    of a call adds is given by an arbitrary function `answer`, from which the ids already live are taken
    away, so every engine behaviour of this kind is covered. */
module Breakpoints {
  import opened Wrappers
  import F = Framing

  datatype Spec = Spec(line: int, condition: Option<string>)

  datatype Note = Fine | Unresolved | BadLine

  datatype Outcome = Outcome(id: Option<int>, line: int, note: Note) {
    predicate Verified() { note == Fine }
  }

  datatype Kind = Function | Instruction | Data

  /** Who a tracked id list belongs to: a source file (by its normalized, upper-cased path) or a kind. */
  datatype Owner = Source(path: string) | Command(kind: Kind)

  function Ids(s: seq<int>): set<int> {
    set id | id in s
  }

  ghost predicate NoDuplicates(s: seq<int>) {
    forall i, j :: 0 <= i < j < |s| ==> s[i] != s[j]
  }

  // ----- What a run of set commands adds -----

  /** The live ids after the first n set commands of a call. */
  function LiveAfter(live: set<int>, answer: nat -> set<int>, n: nat): set<int> {
    if n == 0 then live else LiveAfter(live, answer, n - 1) + answer(n - 1)
  }

  /** The difference between the live ids after and before set command j. */
  function NewIds(live: set<int>, answer: nat -> set<int>, j: nat): set<int> {
    answer(j) - LiveAfter(live, answer, j)
  }

  lemma {:induction false} SingletonHasOne(s: set<int>)
    requires |s| == 1
    ensures exists x :: x in s
    ensures forall x, y :: x in s && y in s ==> x == y
    ensures forall x :: x in s ==> s == {x}
  {
    assert (forall x :: x !in s) ==> s == {};
    forall x, y | x in s && y in s ensures x == y {
      assert |s - {x}| == 0;
      assert y !in s - {x};
    }
  }

  function TheOne(s: set<int>): (x: int)
    requires |s| == 1
    ensures s == {x}
  {
    SingletonHasOne(s);
    var x :| x in s;
    x
  }

  /** The id that set command j is known by: the one new id, if exactly one is new. */
  function Fate(live: set<int>, answer: nat -> set<int>, j: nat): Option<int> {
    var added := NewIds(live, answer, j);
    if |added| == 1 then Some(TheOne(added)) else None
  }

  /** The ids a call of n set commands tracks. */
  function Tracked(live: set<int>, answer: nat -> set<int>, n: nat): seq<int> {
    if n == 0 then []
    else
      var fate := Fate(live, answer, n - 1);
      Tracked(live, answer, n - 1) + if fate.Some? then [fate.value] else []
  }

  lemma {:induction false} LiveGrows(live: set<int>, answer: nat -> set<int>, j: nat, k: nat)
    requires j <= k
    ensures LiveAfter(live, answer, j) <= LiveAfter(live, answer, k)
    decreases k
  {
    if j < k {
      LiveGrows(live, answer, j, k - 1);
    }
  }

  /** A tracked id was not live before its command and is live from then on. */
  lemma {:induction false} FateIsNew(live: set<int>, answer: nat -> set<int>, j: nat)
    requires Fate(live, answer, j).Some?
    ensures Fate(live, answer, j).value !in LiveAfter(live, answer, j)
    ensures Fate(live, answer, j).value in LiveAfter(live, answer, j + 1)
  {
    var added := NewIds(live, answer, j);
    assert TheOne(added) in added;
  }

  /** Two commands of one call never share an id. */
  lemma {:induction false} FatesDiffer(live: set<int>, answer: nat -> set<int>, j: nat, k: nat)
    requires j < k && Fate(live, answer, j).Some? && Fate(live, answer, k).Some?
    ensures Fate(live, answer, j) != Fate(live, answer, k)
  {
    hide Fate;
    FateIsNew(live, answer, j);
    FateIsNew(live, answer, k);
    LiveGrows(live, answer, j + 1, k);
  }

  lemma {:induction false} TrackedAreFates(live: set<int>, answer: nat -> set<int>, n: nat, id: int)
    ensures id in Tracked(live, answer, n) <==> exists j :: 0 <= j < n && Fate(live, answer, j) == Some(id)
  {
    hide Fate;
    if n > 0 {
      TrackedAreFates(live, answer, n - 1, id);
      assert id in Tracked(live, answer, n)
        <==> id in Tracked(live, answer, n - 1) || Fate(live, answer, n - 1) == Some(id);
    }
  }

  lemma {:induction false} TrackedIds(live: set<int>, answer: nat -> set<int>, n: nat)
    ensures NoDuplicates(Tracked(live, answer, n))
    ensures Ids(Tracked(live, answer, n)) <= LiveAfter(live, answer, n) - live
  {
    hide Fate;
    if n > 0 {
      var was, fate := Tracked(live, answer, n - 1), Fate(live, answer, n - 1);
      TrackedIds(live, answer, n - 1);
      LiveGrows(live, answer, 0, n - 1);
      assert forall id :: id in was ==> id in Ids(was);
      if fate.Some? {
        FateIsNew(live, answer, n - 1);
        assert fate.value !in Ids(was);
        assert Tracked(live, answer, n) == was + [fate.value];
      } else {
        assert Tracked(live, answer, n) == was;
      }
    }
  }

  // ----- The tracked lists -----

  datatype Book = Book(live: set<int>, byPath: map<string, seq<int>>,
                       functionIds: seq<int>, instructionIds: seq<int>, dataIds: seq<int>)

  function IdsOf(b: Book, o: Owner): seq<int> {
    match o
    case Source(path) => if path in b.byPath then b.byPath[path] else []
    case Command(Function) => b.functionIds
    case Command(Instruction) => b.instructionIds
    case Command(Data) => b.dataIds
  }

  function WithIds(b: Book, o: Owner, ids: seq<int>): (r: Book)
    ensures IdsOf(r, o) == ids && r.live == b.live
    ensures forall other :: other != o ==> IdsOf(r, other) == IdsOf(b, other)
  {
    match o
    case Source(path) => b.(byPath := b.byPath[path := ids])
    case Command(Function) => b.(functionIds := ids)
    case Command(Instruction) => b.(instructionIds := ids)
    case Command(Data) => b.(dataIds := ids)
  }

  /** Every tracked list is duplicate-free and live, and no two lists share an id. */
  ghost predicate Consistent(b: Book) {
    && (forall o :: NoDuplicates(IdsOf(b, o)) && Ids(IdsOf(b, o)) <= b.live)
    && (forall o, p :: o != p ==> Ids(IdsOf(b, o)) !! Ids(IdsOf(b, p)))
  }

  /** The engine's ids once an owner's list is cleared. */
  function Cleared(b: Book, o: Owner): set<int> {
    b.live - Ids(IdsOf(b, o))
  }

  /** Replace-all: clear the owner's list, run n set commands, track what they are known to have added. */
  function Replace(b: Book, o: Owner, n: nat, answer: nat -> set<int>): Book {
    WithIds(b, o, Tracked(Cleared(b, o), answer, n)).(live := LiveAfter(Cleared(b, o), answer, n))
  }

  /** A source file without any requested breakpoint loses its entry. */
  function Forget(b: Book, path: string): Book {
    b.(live := Cleared(b, Source(path)), byPath := b.byPath - {path})
  }

  lemma {:induction false} LiveAfterReplace(b: Book, o: Owner, n: nat, answer: nat -> set<int>, other: Owner)
    requires Consistent(b) && other != o
    ensures IdsOf(Replace(b, o, n, answer), other) == IdsOf(b, other)
    ensures Ids(IdsOf(b, other)) <= Cleared(b, o) <= Replace(b, o, n, answer).live
  {
    hide Tracked;
    LiveGrows(Cleared(b, o), answer, 0, n);
    assert Ids(IdsOf(b, o)) !! Ids(IdsOf(b, other));
    var w := WithIds(b, o, Tracked(Cleared(b, o), answer, n));
    assert IdsOf(w, other) == IdsOf(b, other);
    assert IdsOf(Replace(b, o, n, answer), other) == IdsOf(w, other);
  }

  lemma {:induction false} OwnAfterReplace(b: Book, o: Owner, n: nat, answer: nat -> set<int>)
    ensures var r := Replace(b, o, n, answer);
            && IdsOf(r, o) == Tracked(Cleared(b, o), answer, n)
            && NoDuplicates(IdsOf(r, o))
            && Ids(IdsOf(r, o)) <= r.live - Cleared(b, o)
  {
    TrackedIds(Cleared(b, o), answer, n);
    hide Tracked, LiveAfter;
    var w := WithIds(b, o, Tracked(Cleared(b, o), answer, n));
    assert IdsOf(Replace(b, o, n, answer), o) == IdsOf(w, o);
  }

  /** Replace-all keeps the bookkeeping consistent, whatever the engine answers, and leaves every
      other list and every other live id alone. */
  lemma {:induction false} ReplaceIsConsistent(b: Book, o: Owner, n: nat, answer: nat -> set<int>)
    requires Consistent(b)
    ensures var r := Replace(b, o, n, answer);
            && Consistent(r)
            && (forall other :: other != o ==> IdsOf(r, other) == IdsOf(b, other))
            && b.live - Ids(IdsOf(b, o)) <= r.live
  {
    var r := Replace(b, o, n, answer);
    OwnAfterReplace(b, o, n, answer);
    forall other | other != o
      ensures IdsOf(r, other) == IdsOf(b, other) && Ids(IdsOf(b, other)) <= Cleared(b, o) <= r.live
    {
      LiveAfterReplace(b, o, n, answer, other);
    }
    LiveGrows(Cleared(b, o), answer, 0, n);
    hide Replace;
    hide Cleared;
    hide IdsOf;
  }

  /** What is live after a replace-all: what was live and not on the owner's old list, and what the
      set commands added; so exactly the old list is removed. */
  lemma {:induction false} ReplaceRemovesOwnList(b: Book, o: Owner, n: nat, answer: nat -> set<int>, id: int)
    ensures id in Replace(b, o, n, answer).live
       <==> (id in b.live && id !in IdsOf(b, o)) || exists j :: 0 <= j < n && id in answer(j)
  {
    hide IdsOf;
    LiveAfterIs(Cleared(b, o), answer, n, id);
  }

  lemma {:induction false} LiveAfterIs(live: set<int>, answer: nat -> set<int>, n: nat, id: int)
    ensures id in LiveAfter(live, answer, n) <==> id in live || exists j :: 0 <= j < n && id in answer(j)
  {
    if n > 0 {
      LiveAfterIs(live, answer, n - 1, id);
    }
  }

  lemma {:induction false} ForgetIsConsistent(b: Book, path: string)
    requires Consistent(b)
    ensures var r := Forget(b, path);
            && Consistent(r) && IdsOf(r, Source(path)) == []
            && (forall other :: other != Source(path) ==> IdsOf(r, other) == IdsOf(b, other))
            && r.live == b.live - Ids(IdsOf(b, Source(path)))
  {
    var r := Forget(b, path);
    forall other | other != Source(path) ensures IdsOf(r, other) == IdsOf(b, other) {
    }
    forall o ensures NoDuplicates(IdsOf(r, o)) && Ids(IdsOf(r, o)) <= r.live {
      if o != Source(path) {
        assert Ids(IdsOf(b, o)) !! Ids(IdsOf(b, Source(path)));
      }
    }
  }

  // ----- Source breakpoint specs -----

  /** The text a spec is compared by. */
  function SpecKey(s: Spec): string
    requires s.line > 0
  {
    F.Decimal(s.line) + "\U{1F}" + if s.condition.Some? then s.condition.value else "\U{1E}"
  }

  lemma {:induction false} SplitAt(a: string, b: string, c: string, d: string, sep: char)
    requires sep !in a && sep !in c && a + [sep] + b == c + [sep] + d
    ensures a == c && b == d
  {
    var s := a + [sep] + b;
    var t := c + [sep] + d;
    assert s[|a|] == sep && t[|c|] == sep;
    assert |a| == |c| by {
      assert forall k :: 0 <= k < |a| ==> s[k] == a[k] && a[k] in a;
      assert forall k :: 0 <= k < |c| ==> t[k] == c[k] && c[k] in c;
    }
    assert a == s[..|a|] && c == t[..|c|];
    assert b == s[|a| + 1..] && d == t[|c| + 1..];
  }

  /** Specs share a key exactly when line and condition agree, except that a spec without a condition
      also shares its key with the one-character condition U+001E. */
  lemma {:induction false} SameKey(a: Spec, b: Spec)
    requires a.line > 0 && b.line > 0
    ensures SpecKey(a) == SpecKey(b)
       <==> a.line == b.line && (a.condition == b.condition
                                 || {a.condition, b.condition} == {None, Some("\U{1E}")})
  {
    hide F.Decimal;
    var ta := if a.condition.Some? then a.condition.value else "\U{1E}";
    var tb := if b.condition.Some? then b.condition.value else "\U{1E}";
    assert SpecKey(a) == F.Decimal(a.line) + ['\U{1F}'] + ta;
    assert SpecKey(b) == F.Decimal(b.line) + ['\U{1F}'] + tb;
    if SpecKey(a) == SpecKey(b) {
      SplitAt(F.Decimal(a.line), ta, F.Decimal(b.line), tb, '\U{1F}');
      F.NumberOfDecimal(a.line);
      F.NumberOfDecimal(b.line);
    }
    if {a.condition, b.condition} == {None, Some("\U{1E}")} {
      assert a.condition in {a.condition, b.condition} && b.condition in {a.condition, b.condition};
      assert None in {a.condition, b.condition};
    }
    if ta == tb && a.condition != b.condition {
      assert {a.condition, b.condition} == {None, Some("\U{1E}")};
    }
  }

  predicate HasKey(d: seq<Spec>, key: string)
    requires forall i :: 0 <= i < |d| ==> d[i].line > 0
  {
    exists i :: 0 <= i < |d| && SpecKey(d[i]) == key
  }

  /** The requested specs with a positive line, without repetitions, in order of first occurrence. */
  function Distinct(specs: seq<Spec>): (d: seq<Spec>)
    ensures forall i :: 0 <= i < |d| ==> d[i].line > 0
  {
    if specs == [] then []
    else
      var last := specs[|specs| - 1];
      var d := Distinct(specs[..|specs| - 1]);
      if last.line <= 0 || HasKey(d, SpecKey(last)) then d else d + [last]
  }

  lemma {:induction false} DistinctCovers(specs: seq<Spec>)
    ensures forall s :: s in Distinct(specs) ==> s in specs
    ensures forall s :: s in specs && s.line > 0 ==> HasKey(Distinct(specs), SpecKey(s))
  {
    hide SpecKey, HasKey;
    if specs != [] {
      var before, last := specs[..|specs| - 1], specs[|specs| - 1];
      DistinctCovers(before);
      assert specs == before + [last];
      if last.line > 0 {
        HasKeyAppend(Distinct(before), last);
      }
    }
  }

  ghost predicate KeysDiffer(d: seq<Spec>)
    requires forall i :: 0 <= i < |d| ==> d[i].line > 0
  {
    forall i, j :: 0 <= i < j < |d| ==> SpecKey(d[i]) != SpecKey(d[j])
  }

  lemma {:induction false} DistinctKeys(specs: seq<Spec>)
    ensures KeysDiffer(Distinct(specs))
  {
    hide SpecKey;
    if specs != [] {
      DistinctKeys(specs[..|specs| - 1]);
    }
  }

  /** The position of a key in a list of distinct specs. */
  function Position(d: seq<Spec>, key: string): (i: nat)
    requires forall i :: 0 <= i < |d| ==> d[i].line > 0
    requires HasKey(d, key)
    ensures i < |d| && SpecKey(d[i]) == key
  {
    if SpecKey(d[0]) == key then 0
    else
      assert HasKey(d[1..], key) by {
        var i :| 0 <= i < |d| && SpecKey(d[i]) == key;
        assert d[1..][i - 1] == d[i];
      }
      1 + Position(d[1..], key)
  }

  /** The command that serves a requested spec. */
  function CommandOf(specs: seq<Spec>, i: nat): (j: nat)
    requires i < |specs| && specs[i].line > 0
    ensures j < |Distinct(specs)| && SpecKey(Distinct(specs)[j]) == SpecKey(specs[i])
  {
    DistinctCovers(specs);
    Position(Distinct(specs), SpecKey(specs[i]))
  }

  function OutcomeOf(line: int, fate: Option<int>): Outcome {
    Outcome(fate, line, if fate.Some? then Fine else Unresolved)
  }

  /** The results of a call, in request order. */
  function SourceOutcomes(live: set<int>, specs: seq<Spec>, answer: nat -> set<int>): (r: seq<Outcome>)
    ensures |r| == |specs|
  {
    seq(|specs|, i requires 0 <= i < |specs| =>
      if specs[i].line <= 0 then Outcome(None, specs[i].line, BadLine)
      else OutcomeOf(specs[i].line, Fate(live, answer, CommandOf(specs, i))))
  }

  /** Equal specs share one result; different verified specs have different ids; and the verified ids
      are exactly the tracked ones. */
  lemma {:induction false} ResultsFollowRequests(live: set<int>, specs: seq<Spec>, answer: nat -> set<int>)
    ensures var r := SourceOutcomes(live, specs, answer);
            && (forall i :: 0 <= i < |r| ==> r[i].line == specs[i].line
                                             && (r[i].Verified() <==> r[i].id.Some?)
                                             && (specs[i].line <= 0 <==> r[i].note == BadLine))
            && (forall i, j :: 0 <= i < |r| && 0 <= j < |r| && specs[i].line > 0 && specs[j].line > 0 ==>
                  (SpecKey(specs[i]) == SpecKey(specs[j]) ==> r[i] == r[j])
                  && (SpecKey(specs[i]) != SpecKey(specs[j]) && r[i].Verified() ==> r[i].id != r[j].id))
  {
    hide SpecKey, Fate, Distinct;
    var r := SourceOutcomes(live, specs, answer);
    forall i, j | 0 <= i < |r| && 0 <= j < |r| && specs[i].line > 0 && specs[j].line > 0
      ensures SpecKey(specs[i]) == SpecKey(specs[j]) ==> r[i] == r[j]
      ensures SpecKey(specs[i]) != SpecKey(specs[j]) && r[i].Verified() ==> r[i].id != r[j].id
    {
      PairOfResults(live, specs, answer, i, j);
    }
  }

  lemma {:induction false} PairOfResults(live: set<int>, specs: seq<Spec>, answer: nat -> set<int>, i: nat, j: nat)
    requires i < |specs| && j < |specs| && specs[i].line > 0 && specs[j].line > 0
    ensures var r := SourceOutcomes(live, specs, answer);
            && (SpecKey(specs[i]) == SpecKey(specs[j]) ==> r[i] == r[j])
            && (SpecKey(specs[i]) != SpecKey(specs[j]) && r[i].Verified() ==> r[i].id != r[j].id)
  {
    SameKey(specs[i], specs[j]);
    hide SpecKey, Fate, Distinct;
    var a, b := CommandOf(specs, i), CommandOf(specs, j);
    if SpecKey(specs[i]) != SpecKey(specs[j]) {
      if Fate(live, answer, a).Some? && Fate(live, answer, b).Some? {
        if a < b {
          FatesDiffer(live, answer, a, b);
        } else {
          FatesDiffer(live, answer, b, a);
        }
      }
    }
  }

  /** The verified results name exactly the ids the call tracks. */
  lemma {:induction false} ResultsNameTrackedIds(live: set<int>, specs: seq<Spec>, answer: nat -> set<int>, id: int)
    ensures id in Tracked(live, answer, |Distinct(specs)|)
       <==> exists i :: 0 <= i < |specs| && SourceOutcomes(live, specs, answer)[i].id == Some(id)
  {
    hide SpecKey, Fate, Distinct, CommandOf, Tracked;
    var n := |Distinct(specs)|;
    var r := SourceOutcomes(live, specs, answer);
    TrackedAreFates(live, answer, n, id);
    if id in Tracked(live, answer, n) {
      var j :| 0 <= j < n && Fate(live, answer, j) == Some(id);
      var i := EveryCommandServes(specs, j);
      assert r[i].id == Some(id);
    }
    if i :| 0 <= i < |specs| && r[i].id == Some(id) {
      assert Fate(live, answer, CommandOf(specs, i)) == Some(id);
    }
  }

  lemma {:induction false} EveryCommandServes(specs: seq<Spec>, j: nat) returns (i: nat)
    requires j < |Distinct(specs)|
    ensures i < |specs| && specs[i].line > 0 && CommandOf(specs, i) == j
  {
    hide SpecKey, Distinct;
    var s := Distinct(specs)[j];
    DistinctCovers(specs);
    DistinctKeys(specs);
    assert s in specs;
    i :| 0 <= i < |specs| && specs[i] == s;
  }

  // ----- When a command is known by an id -----

  /** Exactly one id is new after set command k of a call, and it is x. */
  predicate AddsJust(live: set<int>, answer: nat -> set<int>, k: nat, x: int) {
    answer(k) - LiveAfter(live, answer, k) == {x}
  }

  lemma {:induction false} FateIs(live: set<int>, answer: nat -> set<int>, k: nat, x: int)
    ensures Fate(live, answer, k) == Some(x) <==> AddsJust(live, answer, k, x)
  {
    var added := NewIds(live, answer, k);
    if added == {x} {
      assert |{x}| == 1;
      assert TheOne(added) in {x};
    }
  }

  /** The list of a call holds x exactly when one of its commands added just x. */
  lemma {:induction false} TrackedExactly(live: set<int>, answer: nat -> set<int>, n: nat, x: int)
    ensures x in Tracked(live, answer, n) <==> exists k :: 0 <= k < n && AddsJust(live, answer, k, x)
  {
    hide Fate, AddsJust, Tracked;
    TrackedAreFates(live, answer, n, x);
    forall k: nat ensures Fate(live, answer, k) == Some(x) <==> AddsJust(live, answer, k, x) {
      FateIs(live, answer, k, x);
    }
    if k :| 0 <= k < n && AddsJust(live, answer, k, x) {
      assert Fate(live, answer, k) == Some(x);
    }
  }

  /** The result of a spec is verified with id x exactly when the command that serves it added just x. */
  lemma {:induction false} VerifiedExactly(live: set<int>, specs: seq<Spec>, answer: nat -> set<int>, i: nat, x: int)
    requires i < |specs| && specs[i].line > 0
    ensures SourceOutcomes(live, specs, answer)[i] == Outcome(Some(x), specs[i].line, Fine)
       <==> AddsJust(live, answer, CommandOf(specs, i), x)
  {
    hide Fate, AddsJust, CommandOf;
    FateIs(live, answer, CommandOf(specs, i), x);
  }

  lemma {:induction false} CommandsExactly(live: set<int>, answer: nat -> set<int>, n: nat)
    ensures forall k, x :: 0 <= k < n ==> (Fate(live, answer, k) == Some(x) <==> AddsJust(live, answer, k, x))
    ensures forall x :: x in Tracked(live, answer, n) <==> exists k :: 0 <= k < n && AddsJust(live, answer, k, x)
  {
    hide Fate, AddsJust, Tracked;
    forall k: nat, x ensures Fate(live, answer, k) == Some(x) <==> AddsJust(live, answer, k, x) {
      FateIs(live, answer, k, x);
    }
    forall x ensures x in Tracked(live, answer, n) <==> exists k :: 0 <= k < n && AddsJust(live, answer, k, x) {
      TrackedExactly(live, answer, n, x);
    }
  }

  lemma {:induction false} SourceExactly(live: set<int>, specs: seq<Spec>, answer: nat -> set<int>)
    ensures forall i, x :: 0 <= i < |specs| && specs[i].line > 0 ==>
              (SourceOutcomes(live, specs, answer)[i] == Outcome(Some(x), specs[i].line, Fine)
               <==> AddsJust(live, answer, CommandOf(specs, i), x))
  {
    hide Fate, AddsJust, CommandOf, SourceOutcomes;
    forall i, x | 0 <= i < |specs| && specs[i].line > 0
      ensures SourceOutcomes(live, specs, answer)[i] == Outcome(Some(x), specs[i].line, Fine)
         <==> AddsJust(live, answer, CommandOf(specs, i), x)
    {
      VerifiedExactly(live, specs, answer, i, x);
    }
  }

  // ----- Which command serves a spec -----

  /** The first request of its line and condition. */
  ghost predicate FirstOfKey(specs: seq<Spec>, i: nat)
    requires i < |specs|
  {
    specs[i].line > 0 && forall j :: 0 <= j < i && specs[j].line > 0 ==> SpecKey(specs[j]) != SpecKey(specs[i])
  }

  /** How many of the first n requests are first of their kind. */
  ghost function Firsts(specs: seq<Spec>, n: nat): nat
    requires n <= |specs|
  {
    if n == 0 then 0 else Firsts(specs, n - 1) + if FirstOfKey(specs, n - 1) then 1 else 0
  }

  lemma {:induction false} DistinctGrows(specs: seq<Spec>, n: nat)
    requires n < |specs|
    ensures Distinct(specs[..n + 1]) == Distinct(specs[..n]) + if FirstOfKey(specs, n) then [specs[n]] else []
  {
    hide SpecKey;
    assert specs[..n + 1][..n] == specs[..n];
    DistinctCovers(specs[..n]);
    var d := Distinct(specs[..n]);
    if specs[n].line > 0 {
      if HasKey(d, SpecKey(specs[n])) {
        var k :| 0 <= k < |d| && SpecKey(d[k]) == SpecKey(specs[n]);
        assert d[k] in specs[..n];
        var j :| 0 <= j < n && specs[j] == d[k];
      } else {
        forall j | 0 <= j < n && specs[j].line > 0 ensures SpecKey(specs[j]) != SpecKey(specs[n]) {
          assert specs[..n][j] == specs[j];
        }
      }
    }
  }

  lemma {:induction false} DistinctCount(specs: seq<Spec>, n: nat)
    requires n <= |specs|
    ensures |Distinct(specs[..n])| == Firsts(specs, n)
  {
    hide SpecKey, FirstOfKey, Distinct;
    if n == 0 {
      NoneDistinct();
      assert specs[..0] == [];
    } else {
      DistinctCount(specs, n - 1);
      DistinctGrows(specs, n - 1);
    }
  }

  lemma {:induction false} NoneDistinct()
    ensures Distinct([]) == []
  {
  }

  lemma {:induction false} FirstStays(specs: seq<Spec>, f: nat, n: nat)
    requires f < n <= |specs| && FirstOfKey(specs, f)
    ensures Firsts(specs, f) < |Distinct(specs[..n])| && Distinct(specs[..n])[Firsts(specs, f)] == specs[f]
    decreases n
  {
    hide SpecKey, Distinct;
    if f == n - 1 {
      DistinctCount(specs, f);
      DistinctGrows(specs, f);
    } else {
      FirstStays(specs, f, n - 1);
      DistinctGrows(specs, n - 1);
    }
  }

  /** Commands go out in the order of first requests: a spec is served by the command whose number is the count
      of first requests before the first request of its key. */
  lemma {:induction false} CommandIsInOrder(specs: seq<Spec>, i: nat, f: nat)
    requires i < |specs| && f < |specs| && specs[i].line > 0 && FirstOfKey(specs, f)
    requires SpecKey(specs[f]) == SpecKey(specs[i])
    ensures CommandOf(specs, i) == Firsts(specs, f)
    ensures |Distinct(specs)| == Firsts(specs, |specs|)
  {
    hide SpecKey, Distinct;
    assert specs[..|specs|] == specs;
    FirstStays(specs, f, |specs|);
    DistinctCount(specs, |specs|);
    DistinctKeys(specs);
  }

  function CommandOutcomes(live: set<int>, n: nat, answer: nat -> set<int>): (r: seq<Outcome>)
    ensures |r| == n
  {
    seq(n, i requires 0 <= i < n => OutcomeOf(0, Fate(live, answer, i)))
  }

  function SetSource(b: Book, path: string, specs: seq<Spec>, answer: nat -> set<int>): Book {
    if specs == [] then Forget(b, path) else Replace(b, Source(path), |Distinct(specs)|, answer)
  }

  // ----- The session -----

  class Session {
    /** The engine's ids. */
    var live: set<int>
    var byPath: map<string, seq<int>>
    var functionIds: seq<int>
    var instructionIds: seq<int>
    var dataIds: seq<int>

    ghost function State(): Book
      reads this
    {
      Book(live, byPath, functionIds, instructionIds, dataIds)
    }

    constructor (live: set<int>)
      ensures State() == Book(live, map[], [], [], []) && Consistent(State())
    {
      this.live := live;
      byPath := map[];
      functionIds, instructionIds, dataIds := [], [], [];
    }

    /** One `bc` command for each id. */
    method ClearIds(ids: seq<int>)
      modifies this`live
      ensures live == old(live) - Ids(ids)
    {
      for i := 0 to |ids|
        invariant live == old(live) - Ids(ids[..i])
      {
        live := live - {ids[i]};
        assert ids[..i + 1] == ids[..i] + [ids[i]];
      }
      assert ids[..|ids|] == ids;
    }

    method ClearSource(path: string)
      modifies this`live, this`byPath
      ensures State() == Forget(old(State()), path)
    {
      if path !in byPath {
        assert byPath - {path} == byPath;
        return;
      }
      var ids := byPath[path];
      byPath := byPath - {path};
      ClearIds(ids);
    }

    /** One set command: runs it and compares the ids after and before. */
    method SetOne(answer: nat -> set<int>, i: nat, ghost start: set<int>) returns (id: Option<int>)
      requires live == LiveAfter(start, answer, i)
      modifies this`live
      ensures live == LiveAfter(start, answer, i + 1)
      ensures id == Fate(start, answer, i)
    {
      var before := live;
      live := live + answer(i);
      var added := live - before;
      assert added == NewIds(start, answer, i);
      if |added| == 1 {
        return Some(TheOne(added));
      }
      return None;
    }

    method SetCommands(kind: Kind, count: nat, answer: nat -> set<int>) returns (results: seq<Outcome>)
      requires Consistent(State())
      modifies this
      ensures State() == Replace(old(State()), Command(kind), count, answer)
      ensures Consistent(State())
      ensures results == CommandOutcomes(Cleared(old(State()), Command(kind)), count, answer)
      ensures forall k, x :: 0 <= k < count ==>
                (results[k] == Outcome(Some(x), 0, Fine) <==> AddsJust(Cleared(old(State()), Command(kind)), answer, k, x))
      ensures forall x :: x in IdsOf(State(), Command(kind))
                <==> exists k :: 0 <= k < count && AddsJust(Cleared(old(State()), Command(kind)), answer, k, x)
    {
      hide Fate, LiveAfter;
      ghost var b := State();
      ghost var start := Cleared(b, Command(kind));
      var ids := match kind case Function => functionIds case Instruction => instructionIds case Data => dataIds;
      ClearIds(ids);
      ids := [];
      results := [];
      assert live == LiveAfter(start, answer, 0) by {
        StartOfCall(start, answer);
      }
      for i := 0 to count
        invariant live == LiveAfter(start, answer, i) && ids == Tracked(start, answer, i)
        invariant State() == b.(live := live)
        invariant |results| == i
        invariant forall k :: 0 <= k < i ==> results[k] == OutcomeOf(0, Fate(start, answer, k))
      {
        var id := SetOne(answer, i, start);
        if id.Some? {
          ids := ids + [id.value];
          results := results + [Outcome(id, 0, Fine)];
        } else {
          results := results + [Outcome(None, 0, Unresolved)];
        }
      }
      match kind {
        case Function => functionIds := ids;
        case Instruction => instructionIds := ids;
        case Data => dataIds := ids;
      }
      ReplaceIsConsistent(b, Command(kind), count, answer);
      OwnAfterReplace(b, Command(kind), count, answer);
      CommandsExactly(start, answer, count);
      hide AddsJust, Tracked;
    }

    method DistinctSpecs(specs: seq<Spec>) returns (d: seq<Spec>)
      ensures d == Distinct(specs)
    {
      hide SpecKey;
      d := [];
      var seen: set<string> := {};
      for i := 0 to |specs|
        invariant d == Distinct(specs[..i])
        invariant forall key :: key in seen <==> HasKey(d, key)
      {
        assert specs[..i + 1][..i] == specs[..i];
        if specs[i].line > 0 && SpecKey(specs[i]) !in seen {
          ghost var was := d;
          var key := SpecKey(specs[i]);
          seen := seen + {key};
          d := d + [specs[i]];
          HasKeyAppend(was, specs[i]);
        }
      }
      assert specs[..|specs|] == specs;
    }

    /** Runs the set command of each distinct spec. */
    method Configure(distinct: seq<Spec>, answer: nat -> set<int>)
      returns (configured: map<string, Outcome>, ids: seq<int>)
      requires forall k :: 0 <= k < |distinct| ==> distinct[k].line > 0
      requires KeysDiffer(distinct)
      modifies this`live
      ensures live == LiveAfter(old(live), answer, |distinct|) && ids == Tracked(old(live), answer, |distinct|)
      ensures forall k :: 0 <= k < |distinct| ==>
                && SpecKey(distinct[k]) in configured
                && configured[SpecKey(distinct[k])] == OutcomeOf(distinct[k].line, Fate(old(live), answer, k))
    {
      hide Fate, LiveAfter, SpecKey;
      ghost var start := live;
      configured := map[];
      ids := [];
      StartOfCall(start, answer);
      for i := 0 to |distinct|
        invariant live == LiveAfter(start, answer, i) && ids == Tracked(start, answer, i)
        invariant forall k :: 0 <= k < i ==>
                    && SpecKey(distinct[k]) in configured
                    && configured[SpecKey(distinct[k])] == OutcomeOf(distinct[k].line, Fate(start, answer, k))
      {
        var id := SetOne(answer, i, start);
        var key := SpecKey(distinct[i]);
        if id.Some? {
          ids := ids + [id.value];
          configured := configured[key := Outcome(id, distinct[i].line, Fine)];
        } else {
          configured := configured[key := Outcome(None, distinct[i].line, Unresolved)];
        }
      }
    }

    /** Results in the order of the request. */
    static method Project(specs: seq<Spec>, configured: map<string, Outcome>,
                          ghost live: set<int>, ghost answer: nat -> set<int>)
      returns (results: seq<Outcome>)
      requires forall k :: 0 <= k < |Distinct(specs)| ==>
                 var s := Distinct(specs)[k];
                 SpecKey(s) in configured && configured[SpecKey(s)] == OutcomeOf(s.line, Fate(live, answer, k))
      ensures results == SourceOutcomes(live, specs, answer)
    {
      hide Fate, SpecKey, Distinct;
      results := [];
      for i := 0 to |specs|
        invariant |results| == i
        invariant forall k :: 0 <= k < i ==> results[k] == SourceOutcomes(live, specs, answer)[k]
      {
        if specs[i].line <= 0 {
          results := results + [Outcome(None, specs[i].line, BadLine)];
        } else {
          ghost var k := CommandOf(specs, i);
          SameKey(Distinct(specs)[k], specs[i]);
          results := results + [configured[SpecKey(specs[i])]];
        }
      }
    }

    method SetSourceBreakpoints(path: string, specs: seq<Spec>, answer: nat -> set<int>)
      returns (results: seq<Outcome>)
      requires Consistent(State())
      modifies this
      ensures State() == SetSource(old(State()), path, specs, answer)
      ensures Consistent(State())
      ensures results == SourceOutcomes(Cleared(old(State()), Source(path)), specs, answer)
      ensures forall i, x :: 0 <= i < |specs| && specs[i].line > 0 ==>
                (results[i] == Outcome(Some(x), specs[i].line, Fine)
                 <==> AddsJust(Cleared(old(State()), Source(path)), answer, CommandOf(specs, i), x))
      ensures forall x :: x in IdsOf(State(), Source(path))
                <==> exists k :: 0 <= k < |Distinct(specs)| && AddsJust(Cleared(old(State()), Source(path)), answer, k, x)
      ensures specs == [] ==> path !in byPath
    {
      hide Fate, LiveAfter, SpecKey, Distinct, Tracked, Consistent;
      ghost var b := State();
      ClearSource(path);
      if specs == [] {
        ForgetIsConsistent(b, path);
        NoneDistinct();
        return [];
      }
      var distinct := DistinctSpecs(specs);
      DistinctKeys(specs);
      var configured, ids := Configure(distinct, answer);
      byPath := byPath[path := ids];
      assert (b.byPath - {path})[path := ids] == b.byPath[path := ids];
      ReplaceIsConsistent(b, Source(path), |distinct|, answer);
      results := Project(specs, configured, Cleared(b, Source(path)), answer);
      hide AddsJust, CommandOf, Replace;
      SourceExactly(Cleared(b, Source(path)), specs, answer);
      OwnAfterReplace(b, Source(path), |distinct|, answer);
      CommandsExactly(Cleared(b, Source(path)), answer, |distinct|);
    }
  }

  lemma {:induction false} StartOfCall(live: set<int>, answer: nat -> set<int>)
    ensures LiveAfter(live, answer, 0) == live
  {
  }

  lemma {:induction false} HasKeyAppend(d: seq<Spec>, s: Spec)
    requires s.line > 0 && forall i :: 0 <= i < |d| ==> d[i].line > 0
    ensures forall key :: HasKey(d + [s], key) <==> HasKey(d, key) || key == SpecKey(s)
  {
    hide SpecKey;
    var r := d + [s];
    assert r[|d|] == s;
    forall key | HasKey(d, key) ensures HasKey(r, key) {
      var i :| 0 <= i < |d| && SpecKey(d[i]) == key;
      assert r[i] == d[i];
    }
  }
}
