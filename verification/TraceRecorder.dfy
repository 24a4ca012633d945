/** The trace recorder.

    Messages are buffered as they pass; an outbound console output is merged into
    a console output right before it.  The reference is a normal form of the whole
    sequence: every maximal run of adjacent outbound console outputs becomes one
    entry with the concatenated text.  The first launch or attach request decides
    whether the buffer is kept at all. */
module TraceRecorder {
  import opened Wrappers

  datatype Json =
    | Null
    | Number(n: int)
    | Text(text: string)
    | Array(items: seq<Json>)
    | Object(fields: map<string, Json>)

  datatype Direction = In | Out

  datatype Entry = Entry(direction: Direction, message: Json)

  predicate HasText(j: Json, key: string, text: string) {
    j.Object? && key in j.fields && j.fields[key] == Text(text)
  }

  /** The text of a console output event: an outbound `output` event whose body is exactly a console
      category and an output string. */
  function ConsoleText(e: Entry): Option<string> {
    if e.direction == Out && HasText(e.message, "type", "event") && HasText(e.message, "event", "output")
       && "body" in e.message.fields then
      var body := e.message.fields["body"];
      if body.Object? && |body.fields| == 2 && HasText(body, "category", "console")
         && "output" in body.fields && body.fields["output"].Text? then Some(body.fields["output"].text)
      else None
    else None
  }

  function ConsoleBody(text: string): Json {
    Object(map["category" := Text("console"), "output" := Text(text)])
  }

  /** The event with its text replaced; everything else, the sequence number included, stays. */
  function WithText(e: Entry, text: string): Entry
    requires ConsoleText(e).Some?
  {
    Entry(e.direction, Object(e.message.fields["body" := ConsoleBody(text)]))
  }

  lemma {:induction false} TextOfWithText(e: Entry, text: string)
    requires ConsoleText(e).Some?
    ensures ConsoleText(WithText(e, text)) == Some(text)
  {
    assert ConsoleBody(text).fields.Keys == {"category", "output"};
  }

  /** A console output already has exactly that body. */
  lemma {:induction false} WithOwnText(e: Entry)
    requires ConsoleText(e).Some?
    ensures WithText(e, ConsoleText(e).value) == e
  {
    var fields := e.message.fields["body"].fields;
    TwoKeys(fields.Keys, "category", "output");
    assert fields == ConsoleBody(ConsoleText(e).value).fields;
    assert e.message.fields["body" := ConsoleBody(ConsoleText(e).value)] == e.message.fields;
  }

  lemma {:induction false} TwoKeys(keys: set<string>, a: string, b: string)
    requires |keys| == 2 && a in keys && b in keys && a != b
    ensures keys == {a, b}
  {
    var rest := keys - {a} - {b};
    assert |keys - {a}| == 1;
    assert |rest| == 0;
    assert keys == rest + {a, b};
  }

  /** Exactly the outbound messages of this form are console outputs: an `output` event whose body has a console
      category, an output text, and nothing else. */
  lemma {:induction false} ConsoleTextIs(e: Entry, text: string)
    ensures ConsoleText(e) == Some(text)
       <==> && e.direction == Out && e.message.Object?
            && "type" in e.message.fields && e.message.fields["type"] == Text("event")
            && "event" in e.message.fields && e.message.fields["event"] == Text("output")
            && "body" in e.message.fields
            && e.message.fields["body"] == Object(map["category" := Text("console"), "output" := Text(text)])
  {
    assert ConsoleBody(text).fields.Keys == {"category", "output"};
    if ConsoleText(e) == Some(text) {
      var fields := e.message.fields["body"].fields;
      TwoKeys(fields.Keys, "category", "output");
      assert fields == ConsoleBody(text).fields;
    }
  }

  // ----- Recording -----

  function Record(buffer: seq<Entry>, e: Entry): seq<Entry> {
    if buffer != [] && ConsoleText(e).Some? && ConsoleText(buffer[|buffer| - 1]).Some? then
      buffer[..|buffer| - 1] + [WithText(e, ConsoleText(buffer[|buffer| - 1]).value + ConsoleText(e).value)]
    else buffer + [e]
  }

  /** Two console outputs in a row become one, which is the later event with both texts. */
  lemma {:induction false} ConsoleOutputsMerge(buffer: seq<Entry>, f: map<string, Json>, g: map<string, Json>,
                                               first: string, second: string)
    requires "type" in f && f["type"] == Text("event") && "event" in f && f["event"] == Text("output")
    requires "type" in g && g["type"] == Text("event") && "event" in g && g["event"] == Text("output")
    requires "body" in f && f["body"] == Object(map["category" := Text("console"), "output" := Text(first)])
    requires "body" in g && g["body"] == Object(map["category" := Text("console"), "output" := Text(second)])
    ensures Record(buffer + [Entry(Out, Object(f))], Entry(Out, Object(g)))
         == buffer + [Entry(Out, Object(g["body" := Object(map["category" := Text("console"), "output" := Text(first + second)])]))]
  {
    hide ConsoleText;
    ConsoleTextIs(Entry(Out, Object(f)), first);
    ConsoleTextIs(Entry(Out, Object(g)), second);
    var all := buffer + [Entry(Out, Object(f))];
    assert all[..|all| - 1] == buffer;
  }

  /** An inbound message is never merged, nor anything into it. */
  lemma {:induction false} InboundStandsAlone(buffer: seq<Entry>, message: Json, e: Entry)
    ensures Record(buffer, Entry(In, message)) == buffer + [Entry(In, message)]
    ensures Record(buffer + [Entry(In, message)], e) == buffer + [Entry(In, message)] + [e]
  {
  }

  // ----- The normal form -----

  /** The length of the run of console outputs at the front. */
  function RunLength(s: seq<Entry>): (k: nat)
    ensures k <= |s|
    ensures forall i :: 0 <= i < k ==> ConsoleText(s[i]).Some?
    ensures k < |s| ==> ConsoleText(s[k]).None?
  {
    if s == [] || ConsoleText(s[0]).None? then 0 else 1 + RunLength(s[1..])
  }

  function RunText(run: seq<Entry>): string
    requires forall i :: 0 <= i < |run| ==> ConsoleText(run[i]).Some?
  {
    if run == [] then "" else ConsoleText(run[0]).value + RunText(run[1..])
  }

  /** A run as one entry: its last event, carrying all the text. */
  function Collapse(run: seq<Entry>): Entry
    requires run != [] && forall i :: 0 <= i < |run| ==> ConsoleText(run[i]).Some?
  {
    WithText(run[|run| - 1], RunText(run))
  }

  function NormalForm(s: seq<Entry>): seq<Entry> {
    if s == [] then []
    else if RunLength(s) == 0 then [s[0]] + NormalForm(s[1..])
    else [Collapse(s[..RunLength(s)])] + NormalForm(s[RunLength(s)..])
  }

  lemma {:induction false} RunLengthIs(s: seq<Entry>, k: nat)
    requires k <= |s| && (forall i :: 0 <= i < k ==> ConsoleText(s[i]).Some?)
    requires k < |s| ==> ConsoleText(s[k]).None?
    ensures RunLength(s) == k
  {
    if k > 0 {
      RunLengthIs(s[1..], k - 1);
    }
  }

  lemma {:induction false} RunTextAppend(run: seq<Entry>, e: Entry)
    requires forall i :: 0 <= i < |run| ==> ConsoleText(run[i]).Some?
    requires ConsoleText(e).Some?
    ensures RunText(run + [e]) == RunText(run) + ConsoleText(e).value
  {
    if run == [] {
      assert run + [e] == [e];
      assert RunText([e]) == ConsoleText(e).value + "";
    } else {
      assert (run + [e])[1..] == run[1..] + [e];
      RunTextAppend(run[1..], e);
    }
  }

  lemma {:induction false} NormalFormOfOne(e: Entry)
    ensures NormalForm([e]) == [e]
  {
    hide ConsoleText, WithText;
    if ConsoleText(e).Some? {
      RunLengthIs([e], 1);
      assert [e][..1] == [e] && [e][1..] == [];
      assert RunText([e]) == ConsoleText(e).value + "" == ConsoleText(e).value;
      WithOwnText(e);
      assert NormalForm([e]) == [Collapse([e])] + NormalForm([]);
    }
  }

  lemma {:induction false} RecordAfter(head: Entry, rest: seq<Entry>, e: Entry)
    requires rest != [] || ConsoleText(head).None?
    ensures Record([head] + rest, e) == [head] + Record(rest, e)
  {
    hide ConsoleText;
    if rest != [] {
      var n := |rest| - 1;
      assert ([head] + rest)[..n + 1] == [head] + rest[..n];
    }
  }

  /** A buffer that is one whole run. */
  lemma {:induction false} RecordAfterRun(run: seq<Entry>, e: Entry)
    requires run != [] && forall i :: 0 <= i < |run| ==> ConsoleText(run[i]).Some?
    ensures NormalForm(run) == [Collapse(run)]
    ensures NormalForm(run + [e]) == Record([Collapse(run)], e)
  {
    hide ConsoleText, WithText;
    RunLengthIs(run, |run|);
    assert run[..|run|] == run && run[|run|..] == [];
    TextOfWithText(run[|run| - 1], RunText(run));
    var all := run + [e];
    if ConsoleText(e).Some? {
      RunLengthIs(all, |all|);
      assert all[..|all|] == all && all[|all|..] == [];
      RunTextAppend(run, e);
    } else {
      RunLengthIs(all, |run|);
      assert all[..|run|] == run && all[|run|..] == [e];
      NormalFormOfOne(e);
    }
  }

  /** Recording one more message keeps the buffer in normal form. */
  lemma {:induction false} RecordIsNormalForm(s: seq<Entry>, e: Entry)
    ensures NormalForm(s + [e]) == Record(NormalForm(s), e)
    decreases |s|
  {
    hide ConsoleText, Collapse, Record;
    if s == [] {
      assert s + [e] == [e];
      NormalFormOfOne(e);
      RecordFirst(e);
    } else if RunLength(s) == |s| {
      RecordAfterRun(s, e);
    } else {
      var k := RunLength(s);
      RunLengthIs(s + [e], k);
      var cut := if k == 0 then 1 else k;
      assert (s + [e])[..cut] == s[..cut] && (s + [e])[cut..] == s[cut..] + [e];
      RecordIsNormalForm(s[cut..], e);
      RecordAfter(NormalForm(s)[0], NormalForm(s[cut..]), e);
    }
  }

  lemma {:induction false} RecordFirst(e: Entry)
    ensures Record([], e) == [e]
  {
  }

  // ----- What the normal form keeps -----

  /** All the console text, in order. */
  function AllText(s: seq<Entry>): string {
    if s == [] then ""
    else (if ConsoleText(s[0]).Some? then ConsoleText(s[0]).value else "") + AllText(s[1..])
  }

  /** Everything else, in order. */
  function Others(s: seq<Entry>): seq<Entry> {
    if s == [] then []
    else (if ConsoleText(s[0]).Some? then [] else [s[0]]) + Others(s[1..])
  }

  ghost predicate NoAdjacentConsole(s: seq<Entry>) {
    forall i :: 0 <= i < |s| - 1 ==> ConsoleText(s[i]).None? || ConsoleText(s[i + 1]).None?
  }

  lemma {:induction false} AllTextOfRun(s: seq<Entry>, k: nat)
    requires k <= |s| && forall i :: 0 <= i < k ==> ConsoleText(s[i]).Some?
    ensures AllText(s) == RunText(s[..k]) + AllText(s[k..])
    ensures Others(s) == Others(s[k..])
    decreases k
  {
    hide ConsoleText, AllText, Others, RunText;
    if k == 0 {
      EmptyRunText();
      assert s[..0] == [] && s[0..] == s;
    } else {
      AllTextOfRun(s[1..], k - 1);
      assert s[..k][1..] == s[1..][..k - 1] && s[1..][k - 1..] == s[k..];
      ConsoleAtFront(s);
      RunTextHead(s[..k]);
      var text := ConsoleText(s[0]).value;
      assert text + (RunText(s[..k][1..]) + AllText(s[k..])) == text + RunText(s[..k][1..]) + AllText(s[k..]);
    }
  }

  lemma {:induction false} EmptyRunText()
    ensures RunText([]) == ""
  {
  }

  lemma {:induction false} ConsoleAtFront(s: seq<Entry>)
    requires s != [] && ConsoleText(s[0]).Some?
    ensures AllText(s) == ConsoleText(s[0]).value + AllText(s[1..]) && Others(s) == Others(s[1..])
  {
    hide ConsoleText;
  }

  lemma {:induction false} RunTextHead(run: seq<Entry>)
    requires run != [] && forall i :: 0 <= i < |run| ==> ConsoleText(run[i]).Some?
    ensures RunText(run) == ConsoleText(run[0]).value + RunText(run[1..])
  {
    hide ConsoleText;
  }

  /** The normal form starts with one entry for a first message or run, and goes on with the rest. */
  lemma {:induction false} NormalFormHead(s: seq<Entry>) returns (cut: nat)
    requires s != []
    ensures 0 < cut <= |s|
    ensures NormalForm(s) != [] && NormalForm(s)[1..] == NormalForm(s[cut..])
    ensures ConsoleText(s[0]).None? ==> cut == 1 && NormalForm(s)[0] == s[0]
    ensures ConsoleText(s[0]).Some? ==>
              && (forall i :: 0 <= i < cut ==> ConsoleText(s[i]).Some?)
              && (cut < |s| ==> ConsoleText(s[cut]).None?)
              && ConsoleText(NormalForm(s)[0]) == Some(RunText(s[..cut]))
  {
    hide ConsoleText, WithText, RunText, RunLength;
    var k := RunLength(s);
    cut := if k == 0 then 1 else k;
    NormalFormUnfolds(s);
    hide NormalForm;
    if k > 0 {
      TextOfWithText(s[k - 1], RunText(s[..k]));
    }
  }

  lemma {:induction false} NormalFormUnfolds(s: seq<Entry>)
    requires s != []
    ensures RunLength(s) == 0 ==> NormalForm(s) == [s[0]] + NormalForm(s[1..])
    ensures RunLength(s) > 0 ==> NormalForm(s) == [Collapse(s[..RunLength(s)])] + NormalForm(s[RunLength(s)..])
  {
    hide RunLength, Collapse;
  }

  /** No text and no other message is lost, repeated or reordered. */
  lemma {:induction false} NormalFormKeeps(s: seq<Entry>)
    ensures AllText(NormalForm(s)) == AllText(s)
    ensures Others(NormalForm(s)) == Others(s)
    decreases |s|
  {
    hide ConsoleText, NormalForm;
    if s == [] {
      assert NormalForm(s) == [] by { NormalFormOfNone(); }
    } else {
      var cut := NormalFormHead(s);
      NormalFormKeeps(s[cut..]);
      if ConsoleText(s[0]).Some? {
        AllTextOfRun(s, cut);
      }
    }
  }

  lemma {:induction false} NormalFormOfNone()
    ensures NormalForm([]) == []
  {
  }

  /** No two console entries are left next to each other. */
  lemma {:induction false} NormalFormSeparates(s: seq<Entry>)
    ensures NoAdjacentConsole(NormalForm(s))
    decreases |s|
  {
    hide ConsoleText, NormalForm;
    if s == [] {
      NormalFormOfNone();
    } else {
      var cut := NormalFormHead(s);
      NormalFormSeparates(s[cut..]);
      var n := NormalForm(s);
      if cut < |s| {
        var _ := NormalFormHead(s[cut..]);
      } else {
        NormalFormOfNone();
        assert s[cut..] == [];
      }
      forall i | 0 <= i < |n| - 1
        ensures ConsoleText(n[i]).None? || ConsoleText(n[i + 1]).None?
      {
        assert n[i + 1] == n[1..][i];
        if i > 0 {
          assert n[i] == n[1..][i - 1];
        }
      }
    }
  }

  // ----- The recorder -----

  predicate IsRequest(message: Json, command: string) {
    HasText(message, "type", "request") && HasText(message, "command", command)
  }

  predicate Decides(message: Json) {
    IsRequest(message, "launch") || IsRequest(message, "attach")
  }

  /** The trace path a launch or attach request carries. */
  function TracePath(message: Json): Option<string>
    requires message.Object?
  {
    if "arguments" in message.fields && message.fields["arguments"].Object?
       && "trace" in message.fields["arguments"].fields && message.fields["arguments"].fields["trace"].Text? then
      Some(message.fields["arguments"].fields["trace"].text)
    else None
  }

  /** A message passing the recorder.  For an inbound one, `preparable` says whether the file system
      would let the trace file of that message be prepared. */
  datatype Event = Input(message: Json, preparable: bool) | Output(message: Json)

  function EntryOf(ev: Event): Entry {
    Entry(if ev.Input? then In else Out, ev.message)
  }

  function Entries(events: seq<Event>): (s: seq<Entry>)
    ensures |s| == |events|
  {
    seq(|events|, i requires 0 <= i < |events| => EntryOf(events[i]))
  }

  predicate Deciding(ev: Event) {
    ev.Input? && Decides(ev.message)
  }

  predicate Usable(ev: Event)
    requires Deciding(ev)
  {
    var path := TracePath(ev.message);
    path.Some? && path.value != "" && ev.preparable
  }

  /** What the first launch or attach decided, if there was one. */
  function Decision(events: seq<Event>): Option<bool> {
    if events == [] then None
    else if Deciding(events[0]) then Some(Usable(events[0]))
    else Decision(events[1..])
  }

  lemma {:induction false} DecisionAppend(events: seq<Event>, ev: Event)
    ensures Decision(events + [ev]) ==
            if Decision(events).Some? then Decision(events)
            else if Deciding(ev) then Some(Usable(ev)) else None
  {
    if events == [] {
      assert events + [ev] == [ev] && [ev][1..] == [];
    } else {
      assert (events + [ev])[1..] == events[1..] + [ev];
      DecisionAppend(events[1..], ev);
    }
  }

  /** What the buffer must be after a history: nothing once tracing was refused, else the normal form. */
  function Expected(history: seq<Event>): seq<Entry> {
    if Decision(history) == Some(false) then [] else NormalForm(Entries(history))
  }

  /** The first launch or attach request decides, by the trace text among its arguments: with a usable path
      everything recorded is kept, with none the buffer is empty. */
  lemma {:induction false} FirstLaunchDecides(before: seq<Event>, f: map<string, Json>, preparable: bool, after: seq<Event>)
    requires forall i :: 0 <= i < |before| ==> before[i].Output? || !Decides(before[i].message)
    requires "type" in f && f["type"] == Text("request") && "command" in f
    requires f["command"] == Text("launch") || f["command"] == Text("attach")
    ensures var history := before + [Input(Object(f), preparable)] + after;
            var traced := && "arguments" in f && f["arguments"].Object? && "trace" in f["arguments"].fields
                          && f["arguments"].fields["trace"].Text? && f["arguments"].fields["trace"].text != "" && preparable;
            Expected(history) == if traced then NormalForm(Entries(history)) else []
  {
    hide NormalForm;
    var ev := Input(Object(f), preparable);
    Undecided(before);
    DecisionAppend(before, ev);
    DecisionStays(before + [ev], after);
  }

  lemma {:induction false} Undecided(events: seq<Event>)
    requires forall i :: 0 <= i < |events| ==> events[i].Output? || !Decides(events[i].message)
    ensures Decision(events) == None
  {
    if events != [] {
      Undecided(events[1..]);
    }
  }

  /** Only requests called launch or attach decide. */
  lemma {:induction false} DecidesIs(message: Json)
    ensures Decides(message)
       <==> && message.Object? && "type" in message.fields && message.fields["type"] == Text("request")
            && "command" in message.fields
            && (message.fields["command"] == Text("launch") || message.fields["command"] == Text("attach"))
  {
  }

  class Recorder {
    var messages: seq<Entry>
    var path: Option<string>
    var discarded: bool
    var resolved: bool
    ghost var history: seq<Event>

    /** The buffer is what the whole history calls for. */
    ghost predicate Valid()
      reads this
    {
      && resolved == Decision(history).Some?
      && discarded == (Decision(history) == Some(false))
      && (path.Some? <==> Decision(history) == Some(true))
      && messages == Expected(history)
    }

    constructor ()
      ensures Valid() && history == []
    {
      messages, path, discarded, resolved := [], None, false, false;
      history := [];
    }

    method RecordInput(message: Json, preparable: bool)
      requires Valid()
      modifies this
      ensures Valid() && history == old(history) + [Input(message, preparable)]
      ensures messages == if discarded then [] else old(messages) + [Entry(In, message)]
    {
      ghost var ev := Input(message, preparable);
      DecisionAppend(history, ev);
      AppendEntry(history, ev);
      history := history + [ev];
      ResolveOnce(message, preparable);
      if discarded {
        return;
      }
      RecordOne(In, message);
      InboundStandsAlone(old(messages), message, Entry(In, message));
    }

    /** Only the first launch or attach request decides. */
    method ResolveOnce(message: Json, preparable: bool)
      modifies this
      ensures history == old(history)
      ensures if old(resolved) || !Decides(message)
              then resolved == old(resolved) && discarded == old(discarded) && path == old(path) && messages == old(messages)
              else if Usable(Input(message, preparable))
              then resolved && discarded == old(discarded) && path.Some? && messages == old(messages)
              else resolved && discarded && path == old(path) && messages == []
    {
      if resolved || !(IsRequest(message, "launch") || IsRequest(message, "attach")) {
        return;
      }
      resolved := true;
      var tracePath := TracePath(message);
      if tracePath.Some? && tracePath.value != "" {
        if preparable {
          path := tracePath;
          return;
        }
      }
      discarded := true;
      messages := [];
    }

    method RecordOutput(message: Json)
      requires Valid()
      modifies this
      ensures Valid() && history == old(history) + [Output(message)]
      ensures messages == if discarded then [] else Record(old(messages), Entry(Out, message))
    {
      ghost var ev := Output(message);
      DecisionAppend(history, ev);
      AppendEntry(history, ev);
      history := history + [ev];
      if discarded {
        return;
      }
      RecordOne(Out, message);
    }

    /** Merge into a preceding console output, or append. */
    method RecordOne(direction: Direction, message: Json)
      modifies this`messages
      ensures messages == Record(old(messages), Entry(direction, message))
    {
      var e := Entry(direction, message);
      var output := ConsoleText(e);
      if messages != [] && output.Some? {
        var last := messages[|messages| - 1];
        var previous := ConsoleText(last);
        if previous.Some? {
          var merged := Object(message.fields["body" := ConsoleBody(previous.value + output.value)]);
          messages := messages[|messages| - 1 := Entry(direction, merged)];
          return;
        }
      }
      messages := messages + [e];
    }
  }

  lemma {:induction false} AppendEntry(history: seq<Event>, ev: Event)
    ensures NormalForm(Entries(history + [ev])) == Record(NormalForm(Entries(history)), EntryOf(ev))
  {
    assert Entries(history + [ev]) == Entries(history) + [EntryOf(ev)];
    RecordIsNormalForm(Entries(history), EntryOf(ev));
  }

  /** Once the first launch or attach has no usable trace path, the buffer stays empty whatever follows. */
  lemma {:induction false} RefusalIsForever(history: seq<Event>, later: seq<Event>)
    requires Decision(history) == Some(false)
    ensures Expected(history + later) == []
  {
    DecisionStays(history, later);
  }

  lemma {:induction false} DecisionStays(history: seq<Event>, later: seq<Event>)
    requires Decision(history).Some?
    ensures Decision(history + later) == Decision(history)
    decreases |history|
  {
    assert (history + later)[0] == history[0];
    if !Deciding(history[0]) {
      assert (history + later)[1..] == history[1..] + later;
      DecisionStays(history[1..], later);
    }
  }
}
