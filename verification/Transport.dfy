/** The outbound path: senders on any thread, one FIFO channel, one writer thread. */
module Transport {
  import opened Wrappers
  import F = Framing

  // ----- The channel -----

  /** The mutex-guarded queue; each method is one critical section. */
  class Channel<T> {
    var queue: seq<T>
    var closed: bool

    constructor ()
      ensures queue == [] && !closed
    {
      queue := [];
      closed := false;
    }

    method Push(value: T) returns (accepted: bool)
      modifies this
      ensures accepted == !old(closed) && closed == old(closed)
      ensures queue == if accepted then old(queue) + [value] else old(queue)
    {
      if closed {
        return false;
      }
      queue := queue + [value];
      return true;
    }

    /** The part of a blocking pop after its wait condition holds. */
    method Pop() returns (r: Option<T>)
      requires closed || queue != []
      modifies this
      ensures closed == old(closed)
      ensures r.None? <==> old(queue) == []
      ensures r.None? ==> closed && queue == []
      ensures r.Some? ==> [r.value] + queue == old(queue)
    {
      if queue == [] {
        return None;
      }
      var value := queue[0];
      queue := queue[1..];
      return Some(value);
    }

    method Close()
      modifies this
      ensures closed && queue == old(queue)
    {
      closed := true;
    }
  }

  // ----- Messages -----

  datatype SeqField = Missing | NotInteger(text: string) | Integer(n: int)

  /** A JSON message: its `seq` member and everything else. */
  datatype Message<J> = Message(seqField: SeqField, rest: J)

  /** `get<long long>` of a 64-bit integer, which wraps a large unsigned one. */
  function AsLong(n: int): int {
    if n >= 0x8000_0000_0000_0000 then n - 0x1_0000_0000_0000_0000 else n
  }

  predicate NeedsSequence<J>(m: Message<J>) {
    match m.seqField
    case Missing => true
    case NotInteger(_) => true
    case Integer(n) => AsLong(n) <= 0
  }

  function Numbered<J>(m: Message<J>, next: nat): Message<J> {
    if NeedsSequence(m) then m.(seqField := Integer(next)) else m
  }

  function After<J>(m: Message<J>, next: nat): nat {
    if NeedsSequence(m) then next + 1 else next
  }

  /** How many messages of `ms` leave their number to the writer. */
  function Unset<J>(ms: seq<Message<J>>): (n: nat)
    ensures n <= |ms|
  {
    if ms == [] then 0
    else Unset(ms[..|ms| - 1]) + if NeedsSequence(ms[|ms| - 1]) then 1 else 0
  }

  /** What goes on the wire for the messages `ms`: message i is numbered 1 plus the count of
      unnumbered messages before it, unless it has a number of its own. */
  function Wire<J>(ms: seq<Message<J>>): (r: seq<Message<J>>)
    ensures |r| == |ms|
  {
    seq(|ms|, i requires 0 <= i < |ms| => Numbered(ms[i], 1 + Unset(ms[..i])))
  }

  lemma {:induction false} WireAppend<J>(ms: seq<Message<J>>, m: Message<J>)
    ensures Wire(ms + [m]) == Wire(ms) + [Numbered(m, 1 + Unset(ms))]
    ensures 1 + Unset(ms + [m]) == After(m, 1 + Unset(ms))
  {
    var all := ms + [m];
    assert all[..|ms|] == ms && all[|ms|] == m;
    UnsetAppend(ms, m);
    hide Unset, Numbered;
    forall i | 0 <= i < |ms| ensures Wire(all)[i] == Wire(ms)[i] {
      assert all[..i] == ms[..i] && all[i] == ms[i];
    }
    assert Wire(all)[|ms|] == Numbered(m, 1 + Unset(ms));
  }

  lemma {:induction false} UnsetAppend<J>(ms: seq<Message<J>>, m: Message<J>)
    ensures Unset(ms + [m]) == Unset(ms) + if NeedsSequence(m) then 1 else 0
  {
    assert (ms + [m])[..|ms|] == ms;
  }

  lemma {:induction false} AllUnset<J>(ms: seq<Message<J>>)
    requires forall m :: m in ms ==> NeedsSequence(m)
    ensures Unset(ms) == |ms|
  {
    if ms != [] {
      AllUnset(ms[..|ms| - 1]);
    }
  }

  /** Senders that leave `seq` unset get 1, 2, 3, ... in the order of their sends. */
  lemma {:induction false} NumbersCountUp<J>(ms: seq<Message<J>>, i: nat)
    requires i < |ms|
    requires forall m :: m in ms ==> NeedsSequence(m)
    ensures Wire(ms)[i] == Message(Integer(i + 1), ms[i].rest)
  {
    AllUnset(ms[..i]);
  }

  /** Every message on the wire carries a positive number: its own if that is positive and fits 63 bits, and
      otherwise one more than the number of earlier messages that had none such. */
  lemma {:induction false} EveryMessageIsNumbered<J>(ms: seq<Message<J>>, i: nat)
    requires i < |ms| && forall k :: 0 <= k < |ms| && ms[k].seqField.Integer? ==> ms[k].seqField.n < 0x1_0000_0000_0000_0000
    ensures Wire(ms)[i].seqField.Integer? && Wire(ms)[i].seqField.n > 0 && Wire(ms)[i].rest == ms[i].rest
    ensures HasNumber(ms[i]) ==> Wire(ms)[i] == ms[i]
    ensures !HasNumber(ms[i]) ==> Wire(ms)[i].seqField == Integer(1 + |Unnumbered(ms[..i])|)
  {
    HasNumberIs(ms[i]);
    UnsetCounts(ms, i);
  }

  predicate HasNumber<J>(m: Message<J>) {
    m.seqField.Integer? && 0 < m.seqField.n < 0x8000_0000_0000_0000
  }

  lemma {:induction false} HasNumberIs<J>(m: Message<J>)
    requires m.seqField.Integer? ==> m.seqField.n < 0x1_0000_0000_0000_0000
    ensures NeedsSequence(m) <==> !HasNumber(m)
  {
  }

  /** The places of the messages without a number of their own. */
  ghost function Unnumbered<J>(ms: seq<Message<J>>): set<nat> {
    set k: nat | k < |ms| && !HasNumber(ms[k])
  }

  lemma {:induction false} UnsetCounts<J>(ms: seq<Message<J>>, n: nat)
    requires n <= |ms| && forall k :: 0 <= k < |ms| && ms[k].seqField.Integer? ==> ms[k].seqField.n < 0x1_0000_0000_0000_0000
    ensures Unset(ms[..n]) == |Unnumbered(ms[..n])|
  {
    if n == 0 {
      assert Unnumbered(ms[..0]) == {};
    } else {
      UnsetCounts(ms, n - 1);
      HasNumberIs(ms[n - 1]);
      assert ms[..n][..n - 1] == ms[..n - 1];
      assert Unnumbered(ms[..n]) == Unnumbered(ms[..n - 1]) + if HasNumber(ms[n - 1]) then {} else {(n - 1) as nat};
    }
  }

  function Dumps<J>(dump: Message<J> -> string, ms: seq<Message<J>>): (r: seq<string>)
    ensures |r| == |ms|
  {
    seq(|ms|, i requires 0 <= i < |ms| => dump(ms[i]))
  }

  /** The bytes that belong to the messages `ms`. */
  function Bytes<J>(dump: Message<J> -> string, ms: seq<Message<J>>): string {
    F.Frames(Dumps(dump, Wire(ms)))
  }

  lemma {:induction false} BytesAppend<J>(dump: Message<J> -> string, ms: seq<Message<J>>, m: Message<J>)
    ensures Bytes(dump, ms + [m]) == Bytes(dump, ms) + F.Frame(dump(Numbered(m, 1 + Unset(ms))))
  {
    hide F.Frame, F.Frames, Numbered, Unset;
    WireAppend(ms, m);
    var w := Numbered(m, 1 + Unset(ms));
    assert Dumps(dump, Wire(ms + [m])) == Dumps(dump, Wire(ms)) + [dump(w)];
    F.FramesAppend(Dumps(dump, Wire(ms)), dump(w));
  }

  // ----- The server's outbound side -----

  class IoStreamServer<J> {
    const dump: Message<J> -> string
    const outbound: Channel<Message<J>>
    var next: nat
    var output: string
    /** Every message `send` took, oldest first. */
    ghost var accepted: seq<Message<J>>
    /** Those of them that are on the wire. */
    ghost var written: seq<Message<J>>

    ghost predicate Valid()
      reads this, outbound
    {
      && accepted == written + outbound.queue
      && next == 1 + Unset(written)
      && output == Bytes(dump, written)
    }

    constructor (dump: Message<J> -> string)
      ensures Valid() && fresh(outbound) && this.dump == dump
      ensures accepted == [] && output == "" && !outbound.closed
    {
      this.dump := dump;
      outbound := new Channel();
      next := 1;
      output := "";
      accepted := [];
      written := [];
    }

    method Send(m: Message<J>)
      requires Valid()
      modifies this, outbound
      ensures Valid() && output == old(output) && outbound.closed == old(outbound.closed)
      ensures accepted == if old(outbound.closed) then old(accepted) else old(accepted) + [m]
    {
      var taken := outbound.Push(m);
      if taken {
        accepted := accepted + [m];
      }
    }

    /** One turn of the writer: false once the channel is closed and drained, and then every accepted
        message is on the wire. */
    method WriteOne() returns (more: bool)
      requires Valid() && (outbound.closed || outbound.queue != [])
      modifies this, outbound
      ensures Valid() && accepted == old(accepted) && outbound.closed == old(outbound.closed)
      ensures more ==> |outbound.queue| < |old(outbound.queue)|
      ensures !more ==> outbound.closed && written == accepted && output == old(output)
      ensures old(output) <= output
    {
      hide F.Frame, F.Frames, Wire, Unset, Dumps;
      var popped := outbound.Pop();
      if popped.None? {
        return false;
      }
      var message := popped.value;
      WireAppend(written, message);
      BytesAppend(dump, written, message);
      if NeedsSequence(message) {
        message := message.(seqField := Integer(next));
        next := next + 1;
      }
      var framed := F.Frame(dump(message));
      output := output + framed;
      written := written + [popped.value];
      return true;
    }

    /** The writer's loop once the channel has been closed: it drains the channel and ends. */
    method WriterLoop()
      requires Valid() && outbound.closed
      modifies this, outbound
      ensures Valid() && accepted == old(accepted) && outbound.queue == []
      ensures output == Bytes(dump, old(accepted))
    {
      var more := true;
      while more
        invariant Valid() && outbound.closed && accepted == old(accepted)
        invariant !more ==> written == accepted
        decreases more, |outbound.queue|
      {
        more := WriteOne();
      }
    }
  }

  // ----- Every interleaving of senders, writer and closing -----

  datatype Step<J> = Send(m: Message<J>) | Close | Write

  datatype State<J> = State(queue: seq<Message<J>>, closed: bool, next: nat, output: string)

  function Init<J>(): State<J> {
    State([], false, 1, "")
  }

  /** One critical section of some thread.  A `Write` with nothing queued is a writer that waits or has ended. */
  function Do<J>(dump: Message<J> -> string, s: State<J>, step: Step<J>): State<J> {
    match step
    case Send(m) => if s.closed then s else s.(queue := s.queue + [m])
    case Close => s.(closed := true)
    case Write =>
      if s.queue == [] then s
      else
        var m := s.queue[0];
        State(s.queue[1..], s.closed, After(m, s.next), s.output + F.Frame(dump(Numbered(m, s.next))))
  }

  function Run<J>(dump: Message<J> -> string, steps: seq<Step<J>>): State<J> {
    if steps == [] then Init() else Do(dump, Run(dump, steps[..|steps| - 1]), steps[|steps| - 1])
  }

  /** The messages sent before the first close, in order. */
  function Sent<J>(steps: seq<Step<J>>): seq<Message<J>> {
    if steps == [] || steps[0].Close? then []
    else (if steps[0].Send? then [steps[0].m] else []) + Sent(steps[1..])
  }

  lemma {:induction false} SentAppend<J>(steps: seq<Step<J>>, step: Step<J>)
    ensures Sent(steps + [step]) == Sent(steps) + if step.Send? && Close !in steps then [step.m] else []
  {
    var all := steps + [step];
    if steps == [] {
      assert all == [step] && all[1..] == [];
    } else {
      assert all[1..] == steps[1..] + [step];
      assert all[0] == steps[0];
      SentAppend(steps[1..], step);
      assert steps[0] != Close ==> (Close in steps <==> Close in steps[1..]);
    }
  }

  ghost predicate Progress<J>(dump: Message<J> -> string, s: State<J>, sent: seq<Message<J>>, written: seq<Message<J>>) {
    && sent == written + s.queue
    && s.next == 1 + Unset(written)
    && s.output == Bytes(dump, written)
  }

  lemma {:induction false} DoKeepsProgress<J>(dump: Message<J> -> string, s: State<J>, step: Step<J>,
                           sent: seq<Message<J>>, written: seq<Message<J>>)
    returns (written': seq<Message<J>>)
    requires Progress(dump, s, sent, written)
    ensures Progress(dump, Do(dump, s, step), sent + if step.Send? && !s.closed then [step.m] else [], written')
    ensures !step.Write? ==> written' == written
    ensures step.Write? ==> |written'| == |written| + if s.queue == [] then 0 else 1
  {
    hide F.Frame, Bytes, Unset, Numbered;
    written' := written;
    match step
    case Send(_) =>
    case Close =>
      assert sent + [] == sent;
    case Write =>
      assert sent + [] == sent;
      if s.queue != [] {
        var m := s.queue[0];
        WireAppend(written, m);
        BytesAppend(dump, written, m);
        written' := written + [m];
        assert written' + s.queue[1..] == sent;
      }
  }

  /** In every interleaving the output is the frames of a prefix of the accepted messages, each once
      and in order, and the channel holds exactly the rest. */
  lemma {:induction false} EveryRun<J>(dump: Message<J> -> string, steps: seq<Step<J>>)
    ensures var s := Run(dump, steps);
            && (s.closed <==> Close in steps)
            && |s.queue| <= |Sent(steps)|
            && var k := |Sent(steps)| - |s.queue|;
               && s.queue == Sent(steps)[k..]
               && s.output == Bytes(dump, Sent(steps)[..k])
               && s.next == 1 + Unset(Sent(steps)[..k])
  {
    hide F.Frame, Bytes, Unset, Numbered;
    var written := RunKeepsProgress(dump, steps);
    var s := Run(dump, steps);
    assert Sent(steps)[..|written|] == written && Sent(steps)[|written|..] == s.queue;
  }

  lemma {:induction false} RunKeepsProgress<J>(dump: Message<J> -> string, steps: seq<Step<J>>)
    returns (written: seq<Message<J>>)
    ensures Run(dump, steps).closed <==> Close in steps
    ensures Progress(dump, Run(dump, steps), Sent(steps), written)
  {
    hide Bytes, F.Frame, Numbered, Progress;
    if steps == [] {
      written := [];
      Start(dump);
    } else {
      var before, step := steps[..|steps| - 1], steps[|steps| - 1];
      written := RunKeepsProgress(dump, before);
      SentAppend(before, step);
      assert before + [step] == steps;
      written := DoKeepsProgress(dump, Run(dump, before), step, Sent(before), written);
    }
  }

  lemma {:induction false} Start<J>(dump: Message<J> -> string)
    ensures Progress(dump, Init(), [], [])
  {
    assert Dumps(dump, Wire([])) == [];
  }

  /** A writer that has ended (closed and drained) has written everything accepted, and nothing else. */
  lemma {:induction false} NothingIsLost<J>(dump: Message<J> -> string, steps: seq<Step<J>>)
    requires Run(dump, steps).queue == []
    ensures Run(dump, steps).output == Bytes(dump, Sent(steps))
  {
    EveryRun(dump, steps);
    assert Sent(steps)[..|Sent(steps)|] == Sent(steps);
  }

  /** What a reader makes of the bodies it finds. */
  function ParseAll<J>(parse: string -> Option<Message<J>>, bodies: seq<string>): (r: seq<Option<Message<J>>>)
    ensures |r| == |bodies|
  {
    seq(|bodies|, i requires 0 <= i < |bodies| => parse(bodies[i]))
  }

  /** End to end: the reader, fed with the drained output, sees the accepted messages, numbered, once
      each and in order, and then a clean end of input; only a body beyond the reader's 64-bit length
      breaks the stream. */
  lemma {:induction false} EndToEnd<J>(dump: Message<J> -> string, parse: string -> Option<Message<J>>,
                                       steps: seq<Step<J>>)
    requires forall m :: parse(dump(m)) == Some(m)
    requires Run(dump, steps).queue == []
    ensures var wire := Wire(Sent(steps));
            var received := F.ReadAll(Run(dump, steps).output);
            && (received.Some? <==> F.AllFit(Dumps(dump, wire)))
            && (received.Some? ==>
                  && |received.value| == |wire|
                  && forall i :: 0 <= i < |wire| ==> ParseAll(parse, received.value)[i] == Some(wire[i]))
  {
    hide F.ReadAll, F.Frames, Run, Sent;
    NothingIsLost(dump, steps);
    F.FramesRoundTrip(Dumps(dump, Wire(Sent(steps))));
  }

  /** Closing and then letting the writer run drains the channel, from wherever the run stands. */
  lemma {:induction false} ClosingDrains<J>(dump: Message<J> -> string, steps: seq<Step<J>>, n: nat)
    requires n >= |Run(dump, steps).queue|
    ensures var all := steps + [Close] + seq(n, _ => Write);
            && Run(dump, all).closed && Run(dump, all).queue == []
            && Run(dump, all).output == Bytes(dump, Sent(steps))
  {
    var all := steps + [Close] + seq(n, _ => Write);
    AfterClose(dump, steps, n);
    NothingIsLost(dump, all);
    SentStopsAtClose(steps, seq(n, _ => Write));
    assert steps + [Close] + seq(n, _ => Write) == steps + ([Close] + seq(n, _ => Write));
    EveryRun(dump, all);
  }

  lemma {:induction false} AfterClose<J>(dump: Message<J> -> string, steps: seq<Step<J>>, n: nat)
    ensures var s := Run(dump, steps + [Close] + seq(n, _ => Write));
            |s.queue| == if |Run(dump, steps).queue| <= n then 0 else |Run(dump, steps).queue| - n
  {
    hide F.Frame, Numbered;
    var all := steps + [Close] + seq(n, _ => Write);
    if n == 0 {
      assert all == steps + [Close] && all[..|all| - 1] == steps;
    } else {
      AfterClose(dump, steps, n - 1);
      assert all[..|all| - 1] == steps + [Close] + seq(n - 1, _ => Write);
    }
  }

  lemma {:induction false} SentStopsAtClose<J>(a: seq<Step<J>>, b: seq<Step<J>>)
    ensures Sent(a + ([Close] + b)) == Sent(a)
  {
    var all := a + ([Close] + b);
    if a == [] {
      assert all[0] == Close;
    } else {
      assert all[0] == a[0] && all[1..] == a[1..] + ([Close] + b);
      SentStopsAtClose(a[1..], b);
    }
  }
}
