/**
 The assembler that turns a stream of SSE deltas into one response.  A delta is given by the fields the
 assembler looks at; an absent, empty or wrongly typed text field is "" (all three are ignored alike).
 JSON values that are only stored are represented by their text.
 */
module StreamAssembler {
  import opened Options
  import opened Sequences

  // ---------- tool calls ----------

  datatype FnDelta = FnDelta(name: Option<string>, arguments: Option<string>)

  /** `index` is the coerced integer. */
  datatype ToolDelta = ToolDelta(index: int, id: Option<string>, kind: Option<string>, fn: Option<FnDelta>)

  datatype Fn = Fn(name: Option<string>, arguments: Option<string>)

  datatype ToolCall = ToolCall(id: Option<string>, kind: Option<string>, fn: Option<Fn>)

  const NO_FN := Fn(None, None)
  const NO_CALL := ToolCall(None, None, None)

  function FirstOf(a: Option<string>, b: Option<string>): Option<string> {
    if a.Some? then a else b
  }

  function Joined(a: Option<string>, b: Option<string>): Option<string> {
    if b.None? then a else Some((if a.Some? then a.value else "") + b.value)
  }

  function MergeFn(f: Fn, d: FnDelta): Fn {
    Fn(FirstOf(f.name, d.name), Joined(f.arguments, d.arguments))
  }

  /** One delta into the entry at its index. */
  function MergeOne(c: ToolCall, d: ToolDelta): ToolCall {
    ToolCall(FirstOf(c.id, d.id), FirstOf(c.kind, d.kind),
      if d.fn.None? then c.fn else Some(MergeFn(if c.fn.Some? then c.fn.value else NO_FN, d.fn.value)))
  }

  function Padded(calls: seq<ToolCall>, n: int): (r: seq<ToolCall>)
    ensures |r| == if |calls| < n then n else |calls|
    ensures calls <= r
    ensures forall i :: |calls| <= i < |r| ==> r[i] == NO_CALL
    decreases n - |calls|
  {
    if |calls| >= n then calls else Padded(calls + [NO_CALL], n)
  }

  /** Where Python's indexing lands; a negative index counts from the end, or raises. */
  function Slot(length: nat, index: int): Option<nat> {
    if 0 <= index < length then Some(index)
    else if index < 0 <= length + index then Some(length + index)
    else None
  }

  function MergeDelta(calls: seq<ToolCall>, d: ToolDelta): (r: seq<ToolCall>) {
    var calls' := Padded(calls, d.index + 1);
    var slot := Slot(|calls'|, d.index);
    if slot.None? then calls' else calls'[slot.value := MergeOne(calls'[slot.value], d)]
  }

  function MergeAll(calls: seq<ToolCall>, ds: seq<ToolDelta>): seq<ToolCall> {
    if ds == [] then calls else MergeDelta(MergeAll(calls, ds[..|ds| - 1]), ds[|ds| - 1])
  }

  // ---------- what the merge computes, index by index ----------

  ghost predicate NonNegative(ds: seq<ToolDelta>) {
    forall i :: 0 <= i < |ds| ==> ds[i].index >= 0
  }

  /** The deltas addressed to index `k`, in order. */
  function At(ds: seq<ToolDelta>, k: nat): seq<ToolDelta> {
    if ds == [] then []
    else At(ds[..|ds| - 1], k) + (if ds[|ds| - 1].index == k then [ds[|ds| - 1]] else [])
  }

  function Slots(ds: seq<ToolDelta>): nat {
    if ds == [] then 0
    else
      var n, m := Slots(ds[..|ds| - 1]), ds[|ds| - 1].index + 1;
      if n < m then m else n
  }

  function Fold(ds: seq<ToolDelta>): ToolCall {
    if ds == [] then NO_CALL else MergeOne(Fold(ds[..|ds| - 1]), ds[|ds| - 1])
  }

  /** Each entry is the fold of its own deltas; other indices never touch it. */
  lemma {:induction false} MergeIsPerIndex(ds: seq<ToolDelta>)
    requires NonNegative(ds)
    ensures |MergeAll([], ds)| == Slots(ds)
    ensures forall k :: 0 <= k < Slots(ds) ==> MergeAll([], ds)[k] == Fold(At(ds, k))
    ensures forall k :: Slots(ds) <= k ==> At(ds, k) == []
    decreases |ds|
  {
    if ds != [] {
      var pre, d := ds[..|ds| - 1], ds[|ds| - 1];
      MergeIsPerIndex(pre);
      var r := MergeAll([], ds);
      forall k | 0 <= k < Slots(ds) ensures r[k] == Fold(At(ds, k)) {
        assert k >= Slots(pre) ==> At(pre, k) == [];
        if k == d.index {
          assert At(ds, k) == At(pre, k) + [d];
          assert At(ds, k)[..|At(pre, k)|] == At(pre, k);
        } else {
          assert At(ds, k) == At(pre, k);
        }
      }
    }
  }

  function Fragments(ds: seq<ToolDelta>): Option<string> {
    if ds == [] then None
    else
      var d := ds[|ds| - 1];
      Joined(Fragments(ds[..|ds| - 1]), if d.fn.Some? then d.fn.value.arguments else None)
  }

  function FirstId(ds: seq<ToolDelta>): Option<string> {
    if ds == [] then None else FirstOf(ds[0].id, FirstId(ds[1..]))
  }

  function FirstKind(ds: seq<ToolDelta>): Option<string> {
    if ds == [] then None else FirstOf(ds[0].kind, FirstKind(ds[1..]))
  }

  function FirstName(ds: seq<ToolDelta>): Option<string> {
    if ds == [] then None
    else FirstOf(if ds[0].fn.Some? then ds[0].fn.value.name else None, FirstName(ds[1..]))
  }

  lemma {:induction false} FirstsSnoc(ds: seq<ToolDelta>, d: ToolDelta)
    ensures FirstId(ds + [d]) == FirstOf(FirstId(ds), d.id)
    ensures FirstKind(ds + [d]) == FirstOf(FirstKind(ds), d.kind)
    ensures FirstName(ds + [d]) == FirstOf(FirstName(ds), if d.fn.Some? then d.fn.value.name else None)
    decreases |ds|
  {
    if ds == [] {
      assert ds + [d] == [d];
      assert [d][1..] == [];
    } else {
      assert (ds + [d])[1..] == ds[1..] + [d];
      FirstsSnoc(ds[1..], d);
    }
  }

  /** Arguments are the in-order concatenation of the fragments; id, type and name are the first reported. */
  lemma {:induction false} FoldParts(ds: seq<ToolDelta>)
    ensures Fold(ds).id == FirstId(ds) && Fold(ds).kind == FirstKind(ds)
    ensures Fold(ds).fn.Some? <==> exists i :: 0 <= i < |ds| && ds[i].fn.Some?
    ensures Fold(ds).fn.Some? ==> Fold(ds).fn.value == Fn(FirstName(ds), Fragments(ds))
    ensures Fold(ds).fn.None? ==> FirstName(ds).None? && Fragments(ds).None?
    decreases |ds|
  {
    if ds != [] {
      var pre, d := ds[..|ds| - 1], ds[|ds| - 1];
      FoldParts(pre);
      assert ds == pre + [d];
      FirstsSnoc(pre, d);
    }
  }

  /** Reordering deltas of different indices changes nothing. */
  lemma {:induction false} InterleavingInvariant(a: seq<ToolDelta>, b: seq<ToolDelta>)
    requires NonNegative(a) && NonNegative(b)
    requires forall k: nat :: At(a, k) == At(b, k)
    ensures MergeAll([], a) == MergeAll([], b)
  {
    MergeIsPerIndex(a);
    MergeIsPerIndex(b);
    assert Slots(a) == Slots(b) by {
      if Slots(a) > 0 {
        LastSlotUsed(a);
      }
      if Slots(b) > 0 {
        LastSlotUsed(b);
      }
    }
  }

  lemma {:induction false} LastSlotUsed(ds: seq<ToolDelta>)
    requires NonNegative(ds) && Slots(ds) > 0
    ensures At(ds, Slots(ds) - 1) != []
    decreases |ds|
  {
    var pre := ds[..|ds| - 1];
    if Slots(pre) == Slots(ds) {
      LastSlotUsed(pre);
    }
  }

  lemma {:induction false} MergeAllAppend(calls: seq<ToolCall>, a: seq<ToolDelta>, b: seq<ToolDelta>)
    ensures MergeAll(calls, a + b) == MergeAll(MergeAll(calls, a), b)
    decreases |b|
  {
    if b == [] {
      assert a + b == a;
    } else {
      assert (a + b)[..|a + b| - 1] == a + b[..|b| - 1];
      MergeAllAppend(calls, a, b[..|b| - 1]);
    }
  }

  /** The rest of a fragment, sent on its own. */
  function Continuation(index: int, arguments: string): ToolDelta {
    ToolDelta(index, None, None, Some(FnDelta(None, Some(arguments))))
  }

  function WithArguments(d: ToolDelta, arguments: string): ToolDelta
    requires d.fn.Some?
  {
    d.(fn := Some(d.fn.value.(arguments := Some(arguments))))
  }

  lemma {:induction false} SplitDelta(calls: seq<ToolCall>, d: ToolDelta, x: string, y: string)
    requires d.fn.Some?
    ensures MergeDelta(calls, WithArguments(d, x + y))
         == MergeDelta(MergeDelta(calls, WithArguments(d, x)), Continuation(d.index, y))
  {
    var padded := Padded(calls, d.index + 1);
    var slot := Slot(|padded|, d.index);
    if slot.Some? {
      var c := padded[slot.value];
      var args := if c.fn.Some? && c.fn.value.arguments.Some? then c.fn.value.arguments.value else "";
      assert args + (x + y) == args + x + y;
    }
  }

  /** Splitting an argument fragment anywhere, at any point of any stream, changes nothing. */
  lemma {:induction false} FragmentationInvariant(
    calls: seq<ToolCall>, pre: seq<ToolDelta>, d: ToolDelta, x: string, y: string, post: seq<ToolDelta>)
    requires d.fn.Some?
    ensures MergeAll(calls, pre + [WithArguments(d, x + y)] + post)
         == MergeAll(calls, pre + [WithArguments(d, x), Continuation(d.index, y)] + post)
  {
    var whole, first, second := WithArguments(d, x + y), WithArguments(d, x), Continuation(d.index, y);
    MergeAllAppend(calls, pre + [whole], post);
    MergeAllAppend(calls, pre + [first, second], post);
    assert (pre + [whole])[..|pre|] == pre;
    assert (pre + [first, second])[..|pre| + 1] == pre + [first];
    assert (pre + [first])[..|pre|] == pre;
    SplitDelta(MergeAll(calls, pre), d, x, y);
  }

  // ---------- token counters ----------

  /**
   A reported count: absent, no number (with its truth value), infinite or not-a-number, an integer no float can
   hold, or a number.
   */
  datatype Count = Absent | NotNumber(truthy: bool) | NonFinite | Huge | Number(value: real)

  /** `hugeMirror`: one of the mirrored native counters or the cost is an integer no float can hold. */
  datatype Usage = Usage(
    promptTokens: Count, inputTokens: Count, completionTokens: Count, outputTokens: Count, hugeMirror: bool)

  predicate Truthy(c: Count) {
    match c
    case Absent => false
    case NotNumber(t) => t
    case NonFinite => true
    case Huge => true
    case Number(v) => v != 0.0
  }

  /** Python's `int()`: truncation toward zero. */
  function Truncate(v: real): int {
    if v >= 0.0 then v.Floor else -((-v).Floor)
  }

  /** `first or second`. */
  function Picked(first: Count, second: Count): Count {
    if Truthy(first) then first else second
  }

  /** Kept only if it is a finite number. */
  function Report(first: Count, second: Count): Option<int> {
    var c := Picked(first, second);
    if c.Number? then Some(Truncate(c.value)) else None
  }

  /**
   A reported number is kept, cut off toward zero; the second field stands in only for a first one that is missing,
   zero or otherwise false.
   */
  lemma {:induction false} ReportExact(first: Count, second: Count)
    ensures first.Number? && first.value != 0.0 ==>
      Report(first, second).Some? && CutOff(first.value, Report(first, second).value)
    ensures first in {Absent, NotNumber(false), Number(0.0)} ==> Report(first, second) == Report(Absent, second)
    ensures first in {NotNumber(true), NonFinite} ==> Report(first, second) == None
    ensures second.Number? ==> Report(Absent, second).Some? && CutOff(second.value, Report(Absent, second).value)
    ensures !second.Number? ==> Report(Absent, second) == None
  {
  }

  /** The integer next to `v` on the side of zero. */
  predicate CutOff(v: real, n: int) {
    if v >= 0.0 then n as real <= v < (n + 1) as real else (n - 1) as real < v <= n as real
  }

  /** Asking whether an integer beyond every float is finite raises. */
  predicate UsageRaises(u: Option<Usage>) {
    && u.Some?
    && (|| Picked(u.value.promptTokens, u.value.inputTokens).Huge?
        || Picked(u.value.completionTokens, u.value.outputTokens).Huge?
        || u.value.hugeMirror)
  }

  function PromptReport(u: Usage): Option<int> {
    Report(u.promptTokens, u.inputTokens)
  }

  function CompletionReport(u: Usage): Option<int> {
    Report(u.completionTokens, u.outputTokens)
  }

  /** A counter never shrinks. */
  predicate Grows(before: Option<int>, after: Option<int>) {
    before.Some? ==> after.Some? && after.value >= before.value
  }

  function Raised(counter: Option<int>, report: Option<int>): Option<int> {
    if report.Some? && (counter.None? || report.value > counter.value) then report else counter
  }

  function CounterAfter(reports: seq<Option<int>>): Option<int> {
    if reports == [] then None else Raised(CounterAfter(reports[..|reports| - 1]), reports[|reports| - 1])
  }

  /** The counter is the maximum finite report, and absent only if there was none. */
  lemma {:induction false} CounterIsMaximum(reports: seq<Option<int>>)
    ensures CounterAfter(reports).Some? ==> CounterAfter(reports) in reports
    ensures forall r :: r in reports && r.Some? ==>
      CounterAfter(reports).Some? && r.value <= CounterAfter(reports).value
    decreases |reports|
  {
    if reports != [] {
      var pre := reports[..|reports| - 1];
      CounterIsMaximum(pre);
      assert reports == pre + [reports[|reports| - 1]];
    }
  }

  /** So neither the order nor the repetition of reports matters. */
  lemma {:induction false} CounterOrderFree(a: seq<Option<int>>, b: seq<Option<int>>)
    requires forall r: Option<int> :: r.Some? ==> (r in a <==> r in b)
    ensures CounterAfter(a) == CounterAfter(b)
  {
    CounterIsMaximum(a);
    CounterIsMaximum(b);
  }

  // ---------- one line of the stream ----------

  /** One entry of `tool_calls`: no object, an object whose index is infinite, or a delta. */
  datatype ToolEntry = NoObject | InfiniteIndex | Delta(d: ToolDelta)

  /** One entry of `choices`. */
  datatype Choice = Choice(
    content: string, text: string, reasoningContent: string, reasoning: string,
    tools: seq<ToolEntry>, finish: string, nativeFinish: string,
    messageContent: string, messageUsage: Option<Usage>)

  const NO_CHOICE := Choice("", "", "", "", [], "", "", "", None)

  /** The `message` of a message_start event; a missing one counts as an empty object. */
  datatype Message = NotObject | Object(usage: Option<Usage>)

  /** What the event type adds: Anthropic and Responses events. */
  datatype Kind =
    | Other
    | ContentBlockDelta(text: string, partialJson: string)
    | MessageDelta(text: string, stopReason: string)
    | MessageStart(message: Message)
    | OutputTextDelta(delta: string)
    | ReasoningTextDelta(delta: string)
    | FunctionCallDone(call: ToolCall)
    | ResponseDone(usage: Option<Usage>, finish: Option<string>)

  datatype Data = Data(provider: string, choices: seq<Choice>, kind: Kind, usage: Option<Usage>)

  /** What has been assembled so far. */
  datatype Response = Response(
    content: string, reasoning: string, tools: seq<ToolCall>,
    finish: Option<string>, nativeFinish: Option<string>, provider: Option<string>,
    promptTokens: Option<int>, completionTokens: Option<int>)

  const NOTHING := Response("", "", [], None, None, None, None, None)

  function Latest(last: Option<string>, text: string): Option<string> {
    if text == "" then last else Some(text)
  }

  function WithUsage(r: Response, u: Option<Usage>): Response {
    if u.None? then r
    else r.(promptTokens := Raised(r.promptTokens, PromptReport(u.value)),
            completionTokens := Raised(r.completionTokens, CompletionReport(u.value)))
  }

  function Deltas(tools: seq<ToolEntry>): seq<ToolDelta> {
    if tools == [] then []
    else Deltas(tools[..|tools| - 1]) + (if tools[|tools| - 1].Delta? then [tools[|tools| - 1].d] else [])
  }

  function WithChoice(r: Response, c: Choice): Response {
    var content := r.content + c.content + c.text;
    var r1 := r.(
      content := if content == "" then c.messageContent else content,
      reasoning := r.reasoning + (if c.reasoningContent == "" then c.reasoning else c.reasoningContent),
      tools := MergeAll(r.tools, Deltas(c.tools)),
      finish := Latest(r.finish, c.finish),
      nativeFinish := Latest(r.nativeFinish, c.nativeFinish));
    WithUsage(r1, c.messageUsage)
  }

  function WithChoices(r: Response, cs: seq<Choice>): Response {
    if cs == [] then r else WithChoice(WithChoices(r, cs[..|cs| - 1]), cs[|cs| - 1])
  }

  function WithKind(r: Response, k: Kind, usage: Option<Usage>): Response {
    match k
    case Other => r
    case ContentBlockDelta(text, json) => r.(content := r.content + text + json)
    case MessageDelta(text, stop) =>
      WithUsage(r.(content := r.content + text, finish := Latest(r.finish, stop)), usage)
    case MessageStart(m) => if m.Object? then WithUsage(r, m.usage) else r
    case OutputTextDelta(delta) => r.(content := r.content + delta)
    case ReasoningTextDelta(delta) => r.(reasoning := r.reasoning + delta)
    case FunctionCallDone(call) => r.(tools := r.tools + [call])
    case ResponseDone(u, finish) => WithUsage(r, u).(finish := finish)
  }

  function Named(r: Response, d: Data): Response {
    r.(provider := Latest(r.provider, d.provider))
  }

  function Absorb(r: Response, d: Data): Response {
    var r1 := WithChoices(Named(r, d), d.choices);
    WithUsage(WithKind(r1, d.kind, d.usage), d.usage)
  }

  function AbsorbAll(r: Response, ds: seq<Data>): Response {
    if ds == [] then r else Absorb(AbsorbAll(r, ds[..|ds| - 1]), ds[|ds| - 1])
  }

  // ---------- when a line raises ----------

  /** Some entry has an infinite index, or a negative one beyond the front of the list as it is by then. */
  predicate ToolsRaise(calls: seq<ToolCall>, tools: seq<ToolEntry>) {
    tools != [] &&
    var pre, t := tools[..|tools| - 1], tools[|tools| - 1];
    ToolsRaise(calls, pre) || t.InfiniteIndex? || (t.Delta? && |MergeAll(calls, Deltas(pre))| + t.d.index < 0)
  }

  predicate ChoiceRaises(r: Response, c: Choice) {
    ToolsRaise(r.tools, c.tools) || UsageRaises(c.messageUsage)
  }

  predicate ChoicesRaise(r: Response, cs: seq<Choice>) {
    cs != [] &&
    var pre := cs[..|cs| - 1];
    ChoicesRaise(r, pre) || ChoiceRaises(WithChoices(r, pre), cs[|cs| - 1])
  }

  predicate KindRaises(k: Kind, usage: Option<Usage>) {
    match k
    case MessageDelta(_, _) => UsageRaises(usage)
    case MessageStart(m) => m.NotObject? || UsageRaises(m.usage)
    case ResponseDone(u, _) => UsageRaises(u)
    case _ => false
  }

  predicate DataRaises(r: Response, d: Data) {
    ChoicesRaise(Named(r, d), d.choices) || KindRaises(d.kind, d.usage) || UsageRaises(d.usage)
  }

  predicate NoNegativeIndex(d: Data) {
    forall i, j :: 0 <= i < |d.choices| && 0 <= j < |d.choices[i].tools| ==>
      var t := d.choices[i].tools[j]; t.Delta? ==> t.d.index >= 0
  }

  /** The count that is looked at is an integer no float can hold. */
  predicate HugeCount(first: Count, second: Count) {
    first.Huge? || (second.Huge? && first in {Absent, NotNumber(false), Number(0.0)})
  }

  predicate HugeUsage(u: Usage) {
    HugeCount(u.promptTokens, u.inputTokens) || HugeCount(u.completionTokens, u.outputTokens) || u.hugeMirror
  }

  /**
   A shape the assembler cannot digest, whatever it has assembled: an infinite tool index, a message_start whose
   message is no object, or a usage report with a count no float can hold.
   */
  predicate BadShape(d: Data) {
    || (exists i, j :: 0 <= i < |d.choices| && 0 <= j < |d.choices[i].tools| && d.choices[i].tools[j].InfiniteIndex?)
    || d.kind == MessageStart(NotObject)
    || exists u :: u in ChoiceUsages(d.choices) + KindUsages(d.kind, d.usage) + Given(d.usage) && HugeUsage(u)
  }

  lemma {:induction false} UsageRaisesExact(u: Option<Usage>)
    ensures UsageRaises(u) <==> exists v :: v in Given(u) && HugeUsage(v)
  {
    if u.Some? {
      assert u.value in Given(u);
    }
  }

  lemma {:induction false} ChoiceUsagesRaise(cs: seq<Choice>)
    ensures (exists i :: 0 <= i < |cs| && UsageRaises(cs[i].messageUsage)) <==>
      exists v :: v in ChoiceUsages(cs) && HugeUsage(v)
    decreases |cs|
  {
    if cs != [] {
      var n := |cs| - 1;
      ChoiceUsagesRaise(cs[..n]);
      UsageRaisesExact(cs[n].messageUsage);
      assert forall i :: 0 <= i < n ==> cs[..n][i] == cs[i];
      assert forall v :: v in ChoiceUsages(cs) <==> v in ChoiceUsages(cs[..n]) || v in Given(cs[n].messageUsage);
      assert UsageRaises(cs[n].messageUsage) ==> exists i :: 0 <= i < |cs| && UsageRaises(cs[i].messageUsage);
    }
  }

  lemma {:induction false} KindRaisesExact(k: Kind, usage: Option<Usage>)
    ensures KindRaises(k, usage) <==>
      k == MessageStart(NotObject) || exists v :: v in KindUsages(k, usage) && HugeUsage(v)
  {
    UsageRaisesExact(usage);
    match k
    case MessageStart(m) => if m.Object? { UsageRaisesExact(m.usage); }
    case ResponseDone(u, _) => UsageRaisesExact(u);
    case _ =>
  }

  lemma {:induction false} ToolsRaiseExact(calls: seq<ToolCall>, tools: seq<ToolEntry>)
    requires forall j :: 0 <= j < |tools| && tools[j].Delta? ==> tools[j].d.index >= 0
    ensures ToolsRaise(calls, tools) <==> exists j :: 0 <= j < |tools| && tools[j].InfiniteIndex?
    decreases |tools|
  {
    if tools != [] {
      var pre := tools[..|tools| - 1];
      ToolsRaiseExact(calls, pre);
      assert forall j :: 0 <= j < |pre| ==> pre[j] == tools[j];
    }
  }

  lemma {:induction false} ChoicesRaiseExact(r: Response, cs: seq<Choice>)
    requires forall i, j :: 0 <= i < |cs| && 0 <= j < |cs[i].tools| ==>
      var t := cs[i].tools[j]; t.Delta? ==> t.d.index >= 0
    ensures ChoicesRaise(r, cs) <==>
      || (exists i, j :: 0 <= i < |cs| && 0 <= j < |cs[i].tools| && cs[i].tools[j].InfiniteIndex?)
      || (exists i :: 0 <= i < |cs| && UsageRaises(cs[i].messageUsage))
    decreases |cs|
  {
    if cs != [] {
      var pre, c := cs[..|cs| - 1], cs[|cs| - 1];
      assert forall i :: 0 <= i < |pre| ==> pre[i] == cs[i];
      ChoicesRaiseExact(r, pre);
      ToolsRaiseExact(WithChoices(r, pre).tools, c.tools);
    }
  }

  /** Without negative tool indices, a line raises exactly when its own shape is bad, whatever came before. */
  lemma {:induction false} RaisesExact(r: Response, d: Data)
    requires NoNegativeIndex(d)
    ensures DataRaises(r, d) <==> BadShape(d)
  {
    ChoicesRaiseExact(Named(r, d), d.choices);
    ChoiceUsagesRaise(d.choices);
    KindRaisesExact(d.kind, d.usage);
    UsageRaisesExact(d.usage);
    var a, b, c := ChoiceUsages(d.choices), KindUsages(d.kind, d.usage), Given(d.usage);
    assert forall v :: v in a + b + c <==> v in a || v in b || v in c;
  }

  function Join(parts: seq<string>): string {
    if parts == [] then "" else Join(parts[..|parts| - 1]) + parts[|parts| - 1]
  }

  class StreamResponseAssembler {
    var contentParts: seq<string>
    var reasoningParts: seq<string>
    var toolCalls: seq<ToolCall>
    var finishReason: Option<string>
    var nativeFinishReason: Option<string>
    var providerName: Option<string>
    var promptTokens: Option<int>
    var completionTokens: Option<int>
    var hasContent: bool

    /** Only nonempty parts are kept, so the flag says exactly whether there is content. */
    ghost predicate Valid()
      reads this
    {
      hasContent <==> Join(contentParts) != ""
    }

    function View(): Response
      reads this
    {
      Response(Join(contentParts), Join(reasoningParts), toolCalls, finishReason, nativeFinishReason,
        providerName, promptTokens, completionTokens)
    }

    constructor ()
      ensures Valid() && View() == NOTHING
    {
      contentParts, reasoningParts, toolCalls := [], [], [];
      finishReason, nativeFinishReason, providerName, promptTokens, completionTokens := None, None, None, None, None;
      hasContent := false;
    }

    method AddContent(text: string)
      requires Valid()
      modifies `contentParts, `hasContent
      ensures Valid() && View() == old(View()).(content := old(View()).content + text)
    {
      if text != "" {
        assert (contentParts + [text])[..|contentParts|] == contentParts;
        contentParts := contentParts + [text];
        hasContent := true;
      } else {
        assert Join(contentParts) + "" == Join(contentParts);
      }
    }

    method AddReasoning(text: string)
      modifies `reasoningParts
      ensures View() == old(View()).(reasoning := old(View()).reasoning + text)
    {
      if text != "" {
        assert (reasoningParts + [text])[..|reasoningParts|] == reasoningParts;
        reasoningParts := reasoningParts + [text];
      } else {
        assert Join(reasoningParts) + "" == Join(reasoningParts);
      }
    }

    /** Counters only grow, and only to a report; without an exception they are at least what was reported. */
    method ExtractUsage(u: Option<Usage>) returns (raised: bool)
      modifies `promptTokens, `completionTokens
      ensures raised == UsageRaises(u)
      ensures Grows(old(promptTokens), promptTokens) && Grows(old(completionTokens), completionTokens)
      ensures promptTokens == old(promptTokens) || (u.Some? && promptTokens == PromptReport(u.value))
      ensures completionTokens == old(completionTokens) || (u.Some? && completionTokens == CompletionReport(u.value))
      ensures !raised && u.Some? ==>
        Grows(PromptReport(u.value), promptTokens) && Grows(CompletionReport(u.value), completionTokens)
      ensures !raised ==> View() == WithUsage(old(View()), u)
    {
      if u.None? {
        return false;
      }
      var pt := Picked(u.value.promptTokens, u.value.inputTokens);
      var ct := Picked(u.value.completionTokens, u.value.outputTokens);
      if pt.Huge? {
        return true;
      }
      if pt.Number? && (promptTokens.None? || Truncate(pt.value) > promptTokens.value) {
        promptTokens := Some(Truncate(pt.value));
      }
      if ct.Huge? {
        return true;
      }
      if ct.Number? && (completionTokens.None? || Truncate(ct.value) > completionTokens.value) {
        completionTokens := Some(Truncate(ct.value));
      }
      return u.value.hugeMirror;
    }

    /** One delta: empty calls are appended up to its index, then its slot is merged in place. */
    method MergeOneDelta(d: ToolDelta) returns (raised: bool)
      modifies `toolCalls
      ensures raised <==> |old(toolCalls)| + d.index < 0
      ensures !raised ==> toolCalls == MergeDelta(old(toolCalls), d)
      ensures !raised ==>
        && |toolCalls| == (if |old(toolCalls)| <= d.index then d.index + 1 else |old(toolCalls)|)
        && var at := if d.index < 0 then |toolCalls| + d.index else d.index;
           && (forall i :: 0 <= i < |toolCalls| && i != at ==>
                 toolCalls[i] == if i < |old(toolCalls)| then old(toolCalls)[i] else NO_CALL)
           && toolCalls[at] == MergeOne(if at < |old(toolCalls)| then old(toolCalls)[at] else NO_CALL, d)
    {
      while |toolCalls| <= d.index
        invariant Padded(toolCalls, d.index + 1) == Padded(old(toolCalls), d.index + 1)
        invariant |toolCalls| >= |old(toolCalls)| && (d.index < 0 ==> toolCalls == old(toolCalls))
        decreases d.index - |toolCalls|
      {
        toolCalls := toolCalls + [NO_CALL];
      }
      var slot := Slot(|toolCalls|, d.index);
      if slot.None? {
        return true;
      }
      toolCalls := toolCalls[slot.value := MergeOne(toolCalls[slot.value], d)];
      return false;
    }

    /** `_merge_tool_calls`; an exception ends the call. */
    method MergeToolCalls(tools: seq<ToolEntry>) returns (raised: bool)
      modifies `toolCalls
      ensures raised == ToolsRaise(old(toolCalls), tools)
      ensures !raised ==> toolCalls == MergeAll(old(toolCalls), Deltas(tools))
    {
      raised := false;
      var i := 0;
      while i < |tools|
        invariant 0 <= i <= |tools| && !raised
        invariant toolCalls == MergeAll(old(toolCalls), Deltas(tools[..i])) && !ToolsRaise(old(toolCalls), tools[..i])
      {
        ToolsNext(old(toolCalls), tools, i);
        if tools[i].InfiniteIndex? {
          raised := true;
        } else if tools[i].Delta? {
          raised := MergeOneDelta(tools[i].d);
        }
        if raised {
          RaisesFrom(old(toolCalls), tools, i + 1);
          return;
        }
        i := i + 1;
      }
      assert tools[..i] == tools;
      return false;
    }

    method AddText(c: Choice)
      requires Valid()
      modifies `contentParts, `reasoningParts, `hasContent
      ensures Valid() && View() == old(View()).(
        content := old(View()).content + c.content + c.text,
        reasoning := old(View()).reasoning + (if c.reasoningContent == "" then c.reasoning else c.reasoningContent))
    {
      AddContent(c.content);
      AddContent(c.text);
      AddReasoning(if c.reasoningContent == "" then c.reasoning else c.reasoningContent);
    }

    /** The reasons for finishing, and a whole message's content if no content came before. */
    method AddFinish(c: Choice)
      requires Valid()
      modifies `contentParts, `hasContent, `finishReason, `nativeFinishReason
      ensures Valid() && View() == old(View()).(
        content := if old(View()).content == "" then c.messageContent else old(View()).content,
        finish := Latest(old(View()).finish, c.finish),
        nativeFinish := Latest(old(View()).nativeFinish, c.nativeFinish))
    {
      finishReason := Latest(finishReason, c.finish);
      nativeFinishReason := Latest(nativeFinishReason, c.nativeFinish);
      if c.messageContent != "" && !hasContent {
        assert "" + c.messageContent == c.messageContent;
        AddContent(c.messageContent);
      }
    }

    method AddChoice(c: Choice) returns (raised: bool)
      requires Valid()
      modifies this
      ensures Valid() && raised == ChoiceRaises(old(View()), c)
      ensures !raised ==> View() == WithChoice(old(View()), c)
    {
      AddText(c);
      raised := MergeToolCalls(c.tools);
      if raised {
        return;
      }
      AddFinish(c);
      raised := ExtractUsage(c.messageUsage);
    }

    method AddKind(k: Kind, usage: Option<Usage>) returns (raised: bool)
      requires Valid()
      modifies this
      ensures Valid() && raised == KindRaises(k, usage)
      ensures !raised ==> View() == WithKind(old(View()), k, usage)
    {
      raised := false;
      match k
      case Other =>
      case ContentBlockDelta(text, json) =>
        AddContent(text);
        AddContent(json);
      case MessageDelta(text, stop) =>
        AddContent(text);
        finishReason := Latest(finishReason, stop);
        raised := ExtractUsage(usage);
      case MessageStart(m) =>
        if m.NotObject? {
          return true;
        }
        raised := ExtractUsage(m.usage);
      case OutputTextDelta(delta) => AddContent(delta);
      case ReasoningTextDelta(delta) => AddReasoning(delta);
      case FunctionCallDone(call) => toolCalls := toolCalls + [call];
      case ResponseDone(u, finish) =>
        raised := ExtractUsage(u);
        if !raised {
          finishReason := finish;
        }
    }

    method AddChoices(cs: seq<Choice>) returns (raised: bool)
      requires Valid()
      modifies this
      ensures Valid() && raised == ChoicesRaise(old(View()), cs)
      ensures !raised ==> View() == WithChoices(old(View()), cs)
    {
      ghost var start := View();
      var i := 0;
      while i < |cs|
        invariant 0 <= i <= |cs|
        invariant Valid() && View() == WithChoices(start, cs[..i]) && !ChoicesRaise(start, cs[..i])
      {
        ChoicesNext(start, cs, i);
        raised := AddChoice(cs[i]);
        if raised {
          ChoicesRaiseFrom(start, cs, i + 1);
          return;
        }
        i := i + 1;
      }
      assert cs[..i] == cs;
      return false;
    }

    /** One parsed data line: when it raises, and otherwise what it adds. */
    method AddData(d: Data) returns (raised: bool)
      requires Valid()
      modifies this
      ensures Valid() && raised == DataRaises(old(View()), d)
      ensures !raised ==> View() == Absorb(old(View()), d)
    {
      providerName := Latest(providerName, d.provider);
      raised := AddChoices(d.choices);
      if raised {
        return;
      }
      raised := AddKind(d.kind, d.usage);
      if !raised {
        raised := ExtractUsage(d.usage);
      }
    }
  }

  lemma {:induction false} ChoicesNext(r: Response, cs: seq<Choice>, i: nat)
    requires i < |cs|
    ensures WithChoices(r, cs[..i + 1]) == WithChoice(WithChoices(r, cs[..i]), cs[i])
    ensures ChoicesRaise(r, cs[..i + 1]) <==> ChoicesRaise(r, cs[..i]) || ChoiceRaises(WithChoices(r, cs[..i]), cs[i])
  {
    NextPrefix(cs, i);
  }

  lemma {:induction false} ToolsNext(calls: seq<ToolCall>, tools: seq<ToolEntry>, i: nat)
    requires i < |tools|
    ensures
      var before, t := MergeAll(calls, Deltas(tools[..i])), tools[i];
      && MergeAll(calls, Deltas(tools[..i + 1])) == (if t.Delta? then MergeDelta(before, t.d) else before)
      && (ToolsRaise(calls, tools[..i + 1]) <==>
           ToolsRaise(calls, tools[..i]) || t.InfiniteIndex? || (t.Delta? && |before| + t.d.index < 0))
  {
    NextPrefix(tools, i);
    if tools[i].Delta? {
      LastOfAppend(Deltas(tools[..i]), tools[i].d);
    } else {
      assert Deltas(tools[..i + 1]) == Deltas(tools[..i]);
    }
  }

  lemma {:induction false} RaisesFrom(calls: seq<ToolCall>, tools: seq<ToolEntry>, i: nat)
    requires i <= |tools| && ToolsRaise(calls, tools[..i])
    ensures ToolsRaise(calls, tools)
    decreases |tools| - i
  {
    if i == |tools| {
      assert tools[..i] == tools;
    } else {
      NextPrefix(tools, i);
      RaisesFrom(calls, tools, i + 1);
    }
  }

  lemma {:induction false} ChoicesRaiseFrom(r: Response, cs: seq<Choice>, i: nat)
    requires i <= |cs| && ChoicesRaise(r, cs[..i])
    ensures ChoicesRaise(r, cs)
    decreases |cs| - i
  {
    if i == |cs| {
      assert cs[..i] == cs;
    } else {
      NextPrefix(cs, i);
      ChoicesRaiseFrom(r, cs, i + 1);
    }
  }

  // ---------- fragmentation of text ----------

  /** A content fragment cut in two chunks: everything else of the chunk travels with the second part. */
  lemma {:induction false} ContentFragmentation(r: Response, c: Choice, x: string, y: string)
    ensures WithChoice(r, c.(content := x + y))
         == WithChoice(WithChoice(r, NO_CHOICE.(content := x)), c.(content := y))
  {
    assert r.content + (x + y) + c.text == r.content + x + y + c.text;
    assert r.content + x + "" == r.content + x;
    assert r.reasoning + "" == r.reasoning;
  }

  lemma {:induction false} ReasoningFragmentation(r: Response, c: Choice, x: string, y: string)
    requires y != ""
    ensures WithChoice(r, c.(reasoningContent := x + y))
         == WithChoice(WithChoice(r, NO_CHOICE.(reasoningContent := x)), c.(reasoningContent := y))
  {
    assert r.reasoning + (x + y) == r.reasoning + x + y;
    assert r.content + "" + "" == r.content;
  }

  lemma {:induction false} AbsorbAllAppend(r: Response, a: seq<Data>, b: seq<Data>)
    ensures AbsorbAll(r, a + b) == AbsorbAll(AbsorbAll(r, a), b)
    decreases |b|
  {
    if b == [] {
      assert a + b == a;
    } else {
      assert (a + b)[..|a + b| - 1] == a + b[..|b| - 1];
      AbsorbAllAppend(r, a, b[..|b| - 1]);
    }
  }

  /** A chunk with choices and nothing else. */
  function Chunk(cs: seq<Choice>): Data {
    Data("", cs, Other, None)
  }

  lemma {:induction false} OneChoice(r: Response, c: Choice)
    ensures WithChoices(r, [c]) == WithChoice(r, c)
  {
    assert [c][..0] == [];
    assert WithChoices(r, [c][..0]) == r;
  }

  lemma {:induction false} WithChoicesAppend(r: Response, a: seq<Choice>, b: seq<Choice>)
    ensures WithChoices(r, a + b) == WithChoices(WithChoices(r, a), b)
    decreases |b|
  {
    if b == [] {
      assert a + b == a;
    } else {
      assert (a + b)[..|a + b| - 1] == a + b[..|b| - 1];
      WithChoicesAppend(r, a, b[..|b| - 1]);
    }
  }

  /** The provider name is independent of the choices. */
  lemma {:induction false} NamedLater(r: Response, d: Data, cs: seq<Choice>)
    ensures WithChoices(Named(r, d), cs) == Named(WithChoices(r, cs), d)
    decreases |cs|
  {
    if cs != [] {
      NamedLater(r, d, cs[..|cs| - 1]);
    }
  }

  /** Any chunk may be cut between two of its choices. */
  lemma {:induction false} ChunkCut(r: Response, d: Data, front: seq<Choice>, back: seq<Choice>)
    ensures Absorb(r, d.(choices := front + back)) == Absorb(Absorb(r, Chunk(front)), d.(choices := back))
  {
    WithChoicesAppend(Named(r, d), front, back);
    NamedLater(r, d, front);
  }

  /** Where one chunk does what two do, one may stand for the two in any stream. */
  lemma {:induction false} ReplaceChunk(
    r: Response, pre: seq<Data>, whole: Data, first: Data, second: Data, post: seq<Data>)
    requires var s := AbsorbAll(r, pre); Absorb(s, whole) == Absorb(Absorb(s, first), second)
    ensures AbsorbAll(r, pre + [whole] + post) == AbsorbAll(r, pre + [first, second] + post)
  {
    AbsorbAllAppend(r, pre + [whole], post);
    AbsorbAllAppend(r, pre + [first, second], post);
    LastOfAppend(pre, whole);
    LastOfAppend(pre + [first], second);
    LastOfAppend(pre, first);
    Regroup(pre, [first], [second]);
    assert [first] + [second] == [first, second];
  }

  /** Where one choice does what two do, a chunk may be cut there, whatever stands around it. */
  lemma {:induction false} SplitChunk(
    r: Response, d: Data, front: seq<Choice>, whole: Choice, first: Choice, second: Choice, back: seq<Choice>)
    requires var p := WithChoices(Named(r, d), front);
      WithChoice(p, whole) == WithChoice(WithChoice(p, first), second)
    ensures Absorb(r, d.(choices := front + [whole] + back))
         == Absorb(Absorb(r, Chunk(front + [first])), d.(choices := [second] + back))
  {
    var n := Named(r, d);
    var p := WithChoices(n, front);
    ChunkCut(r, d, front + [first], [second] + back);
    WithChoicesAppend(n, front + [whole], back);
    WithChoicesAppend(n, front, [whole]);
    OneChoice(p, whole);
    WithChoicesAppend(n, front + [first], [second] + back);
    WithChoicesAppend(n, front, [first]);
    OneChoice(p, first);
    WithChoicesAppend(WithChoice(p, first), [second], back);
    OneChoice(WithChoice(p, first), second);
  }

  /** In any stream, any choice's content may arrive in two chunks instead of one. */
  lemma {:induction false} StreamFragmentation(
    r: Response, pre: seq<Data>, d: Data, front: seq<Choice>, c: Choice, x: string, y: string, back: seq<Choice>,
    post: seq<Data>)
    ensures
      var whole := d.(choices := front + [c.(content := x + y)] + back);
      var first, second := Chunk(front + [NO_CHOICE.(content := x)]), d.(choices := [c.(content := y)] + back);
      AbsorbAll(r, pre + [whole] + post) == AbsorbAll(r, pre + [first, second] + post)
  {
    var s := AbsorbAll(r, pre);
    var whole := d.(choices := front + [c.(content := x + y)] + back);
    var first, second := Chunk(front + [NO_CHOICE.(content := x)]), d.(choices := [c.(content := y)] + back);
    ContentFragmentation(WithChoices(Named(s, d), front), c, x, y);
    SplitChunk(s, d, front, c.(content := x + y), NO_CHOICE.(content := x), c.(content := y), back);
    ReplaceChunk(r, pre, whole, first, second, post);
  }

  /** In any stream, any choice's reasoning may arrive in two chunks instead of one. */
  lemma {:induction false} ReasoningStreamFragmentation(
    r: Response, pre: seq<Data>, d: Data, front: seq<Choice>, c: Choice, x: string, y: string, back: seq<Choice>,
    post: seq<Data>)
    requires y != ""
    ensures
      var whole := d.(choices := front + [c.(reasoningContent := x + y)] + back);
      var first := Chunk(front + [NO_CHOICE.(reasoningContent := x)]);
      var second := d.(choices := [c.(reasoningContent := y)] + back);
      AbsorbAll(r, pre + [whole] + post) == AbsorbAll(r, pre + [first, second] + post)
  {
    var s := AbsorbAll(r, pre);
    var whole := d.(choices := front + [c.(reasoningContent := x + y)] + back);
    var first := Chunk(front + [NO_CHOICE.(reasoningContent := x)]);
    var second := d.(choices := [c.(reasoningContent := y)] + back);
    ReasoningFragmentation(WithChoices(Named(s, d), front), c, x, y);
    SplitChunk(
      s, d, front, c.(reasoningContent := x + y), NO_CHOICE.(reasoningContent := x), c.(reasoningContent := y), back);
    ReplaceChunk(r, pre, whole, first, second, post);
  }

  lemma {:induction false} DeltasAppend(a: seq<ToolEntry>, b: seq<ToolEntry>)
    ensures Deltas(a + b) == Deltas(a) + Deltas(b)
    decreases |b|
  {
    if b == [] {
      assert a + b == a;
    } else {
      assert (a + b)[..|a + b| - 1] == a + b[..|b| - 1];
      DeltasAppend(a, b[..|b| - 1]);
    }
  }

  lemma {:induction false} DeltasAround(front: seq<ToolEntry>, d: ToolDelta, back: seq<ToolEntry>)
    ensures Deltas(front + [Delta(d)]) == Deltas(front) + [d]
    ensures Deltas([Delta(d)] + back) == [d] + Deltas(back)
    ensures Deltas(front + [Delta(d)] + back) == Deltas(front) + [d] + Deltas(back)
  {
    LastOfAppend(front, Delta(d));
    assert [Delta(d)][..0] == [];
    assert Deltas([Delta(d)]) == [d];
    DeltasAppend([Delta(d)], back);
    DeltasAppend(front + [Delta(d)], back);
  }

  lemma {:induction false} PiecesMerged(
    calls: seq<ToolCall>, front: seq<ToolDelta>, t: ToolDelta, x: string, y: string, back: seq<ToolDelta>)
    requires t.fn.Some?
    ensures MergeAll(calls, front + [WithArguments(t, x + y)] + back)
         == MergeAll(MergeAll(calls, front + [WithArguments(t, x)]), [Continuation(t.index, y)] + back)
  {
    var first, second := WithArguments(t, x), Continuation(t.index, y);
    FragmentationInvariant(calls, front, t, x, y, back);
    MergeAllAppend(calls, front + [first], [second] + back);
    assert front + [first] + ([second] + back) == front + [first, second] + back;
  }

  /** The deltas of a choice, one of them cut in two: what is merged is the same. */
  lemma {:induction false} ArgumentsMerged(
    calls: seq<ToolCall>, front: seq<ToolEntry>, t: ToolDelta, x: string, y: string, back: seq<ToolEntry>)
    requires t.fn.Some?
    ensures MergeAll(calls, Deltas(front + [Delta(WithArguments(t, x + y))] + back))
         == MergeAll(MergeAll(calls, Deltas(front + [Delta(WithArguments(t, x))])),
              Deltas([Delta(Continuation(t.index, y))] + back))
  {
    DeltasAround(front, WithArguments(t, x + y), back);
    DeltasAround(front, WithArguments(t, x), back);
    DeltasAround(front, Continuation(t.index, y), back);
    PiecesMerged(calls, Deltas(front), t, x, y, Deltas(back));
  }

  /** A choice with deltas only. */
  lemma {:induction false} ToolsMerged(r: Response, tools: seq<ToolEntry>)
    ensures WithChoice(r, NO_CHOICE.(tools := tools)) == r.(tools := MergeAll(r.tools, Deltas(tools)))
  {
    assert r.content + "" + "" == r.content && r.reasoning + "" == r.reasoning;
  }

  /** In any stream, any argument fragment of any choice may arrive in two chunks instead of one. */
  lemma {:induction false} ArgumentStreamFragmentation(
    r: Response, pre: seq<Data>, d: Data, front: seq<Choice>, c: Choice,
    before: seq<ToolEntry>, t: ToolDelta, x: string, y: string, after: seq<ToolEntry>,
    back: seq<Choice>, post: seq<Data>)
    requires t.fn.Some?
    ensures
      var whole := d.(choices := front + [c.(tools := before + [Delta(WithArguments(t, x + y))] + after)] + back);
      var first := Chunk(front + [NO_CHOICE.(tools := before + [Delta(WithArguments(t, x))])]);
      var second := d.(choices := [c.(tools := [Delta(Continuation(t.index, y))] + after)] + back);
      AbsorbAll(r, pre + [whole] + post) == AbsorbAll(r, pre + [first, second] + post)
  {
    var s := AbsorbAll(r, pre);
    var whole := c.(tools := before + [Delta(WithArguments(t, x + y))] + after);
    var first := NO_CHOICE.(tools := before + [Delta(WithArguments(t, x))]);
    var second := c.(tools := [Delta(Continuation(t.index, y))] + after);
    var p := WithChoices(Named(s, d), front);
    ArgumentsMerged(p.tools, before, t, x, y, after);
    ToolsMerged(p, first.tools);
    SplitChunk(s, d, front, whole, first, second, back);
    ReplaceChunk(r, pre, d.(choices := front + [whole] + back), Chunk(front + [first]),
      d.(choices := [second] + back), post);
  }

  // ---------- interleaving, over streams ----------

  lemma {:induction false} DeltasCommute(calls: seq<ToolCall>, a: ToolDelta, b: ToolDelta)
    requires 0 <= a.index && 0 <= b.index && a.index != b.index
    ensures MergeDelta(MergeDelta(calls, a), b) == MergeDelta(MergeDelta(calls, b), a)
  {
    var ab, ba := MergeDelta(MergeDelta(calls, a), b), MergeDelta(MergeDelta(calls, b), a);
    assert |ab| == |ba|;
    forall k | 0 <= k < |ab| ensures ab[k] == ba[k] {
    }
  }

  function ChoiceDeltas(cs: seq<Choice>): seq<ToolDelta> {
    if cs == [] then [] else ChoiceDeltas(cs[..|cs| - 1]) + Deltas(cs[|cs| - 1].tools)
  }

  /** All tool-call deltas of a stream, in order. */
  function StreamDeltas(ds: seq<Data>): seq<ToolDelta> {
    if ds == [] then [] else StreamDeltas(ds[..|ds| - 1]) + ChoiceDeltas(ds[|ds| - 1].choices)
  }

  predicate OnlyChatTools(ds: seq<Data>) {
    forall i :: 0 <= i < |ds| ==> !ds[i].kind.FunctionCallDone?
  }

  lemma {:induction false} ChoicesTools(r: Response, cs: seq<Choice>)
    ensures WithChoices(r, cs).tools == MergeAll(r.tools, ChoiceDeltas(cs))
    decreases |cs|
  {
    if cs != [] {
      var pre, c := cs[..|cs| - 1], cs[|cs| - 1];
      ChoicesTools(r, pre);
      MergeAllAppend(r.tools, ChoiceDeltas(pre), Deltas(c.tools));
    }
  }

  lemma {:induction false} AbsorbTools(r: Response, d: Data)
    requires !d.kind.FunctionCallDone?
    ensures Absorb(r, d).tools == MergeAll(r.tools, ChoiceDeltas(d.choices))
  {
    ChoicesTools(Named(r, d), d.choices);
    KindTools(WithChoices(Named(r, d), d.choices), d.kind, d.usage);
    UsageTools(WithKind(WithChoices(Named(r, d), d.choices), d.kind, d.usage), d.usage);
  }

  lemma {:induction false} UsageTools(r: Response, u: Option<Usage>)
    ensures WithUsage(r, u).tools == r.tools
  {
  }

  lemma {:induction false} KindTools(r: Response, k: Kind, usage: Option<Usage>)
    requires !k.FunctionCallDone?
    ensures WithKind(r, k, usage).tools == r.tools
  {
  }

  /** A stream's tool calls are the merge of all its deltas, whatever chunks and choices they came in. */
  lemma {:induction false} StreamTools(r: Response, ds: seq<Data>)
    requires OnlyChatTools(ds)
    ensures AbsorbAll(r, ds).tools == MergeAll(r.tools, StreamDeltas(ds))
    decreases |ds|
  {
    if ds != [] {
      var pre, d := ds[..|ds| - 1], ds[|ds| - 1];
      StreamTools(r, pre);
      AbsorbTools(AbsorbAll(r, pre), d);
      MergeAllAppend(r.tools, StreamDeltas(pre), ChoiceDeltas(d.choices));
    }
  }

  /** A chunk without its deltas. */
  function Cleared(d: Data): Data {
    d.(choices := seq(|d.choices|, i requires 0 <= i < |d.choices| => d.choices[i].(tools := [])))
  }

  /** The streams differ in nothing but where their deltas stand. */
  ghost predicate SameButTools(a: seq<Data>, b: seq<Data>) {
    |a| == |b| && forall i :: 0 <= i < |a| ==> Cleared(a[i]) == Cleared(b[i])
  }

  predicate Alike(r: Response, s: Response) {
    r.(tools := []) == s.(tools := [])
  }

  lemma {:induction false} ChoicesAlike(r: Response, s: Response, a: seq<Choice>, b: seq<Choice>)
    requires Alike(r, s) && |a| == |b| && forall i :: 0 <= i < |a| ==> a[i].(tools := []) == b[i].(tools := [])
    ensures Alike(WithChoices(r, a), WithChoices(s, b))
    decreases |a|
  {
    if a != [] {
      var n := |a| - 1;
      ChoicesAlike(r, s, a[..n], b[..n]);
      assert a[n].(tools := []) == b[n].(tools := []);
    }
  }

  lemma {:induction false} KindAlike(r: Response, s: Response, k: Kind, usage: Option<Usage>)
    requires Alike(r, s) && !k.FunctionCallDone?
    ensures Alike(WithKind(r, k, usage), WithKind(s, k, usage))
  {
  }

  lemma {:induction false} AbsorbAlike(r: Response, s: Response, a: Data, b: Data)
    requires Alike(r, s) && Cleared(a) == Cleared(b) && !a.kind.FunctionCallDone?
    ensures Alike(Absorb(r, a), Absorb(s, b))
  {
    assert |a.choices| == |Cleared(a).choices| == |b.choices|;
    forall i | 0 <= i < |a.choices| ensures a.choices[i].(tools := []) == b.choices[i].(tools := []) {
      assert Cleared(a).choices[i] == Cleared(b).choices[i];
    }
    ChoicesAlike(Named(r, a), Named(s, b), a.choices, b.choices);
    KindAlike(WithChoices(Named(r, a), a.choices), WithChoices(Named(s, b), b.choices), a.kind, a.usage);
  }

  /** Where the deltas stand influences the tool calls only. */
  lemma {:induction false} StreamAlike(r: Response, a: seq<Data>, b: seq<Data>)
    requires SameButTools(a, b) && OnlyChatTools(a)
    ensures Alike(AbsorbAll(r, a), AbsorbAll(r, b))
    decreases |a|
  {
    if a != [] {
      var n := |a| - 1;
      StreamAlike(r, a[..n], b[..n]);
      AbsorbAlike(AbsorbAll(r, a[..n]), AbsorbAll(r, b[..n]), a[n], b[n]);
    }
  }

  /**
   In any stream, two neighbouring deltas of different calls may change places, wherever the bounds of chunks and
   choices lie around and between them; the whole response is the same.
   */
  lemma {:induction false} StreamSwap(
    r: Response, pre: seq<Data>, a: seq<Data>, b: seq<Data>, post: seq<Data>,
    before: seq<ToolDelta>, x: ToolDelta, y: ToolDelta, after: seq<ToolDelta>)
    requires SameButTools(a, b) && OnlyChatTools(a) && OnlyChatTools(b)
    requires StreamDeltas(a) == before + [x, y] + after && StreamDeltas(b) == before + [y, x] + after
    requires 0 <= x.index && 0 <= y.index && x.index != y.index
    ensures AbsorbAll(r, pre + a + post) == AbsorbAll(r, pre + b + post)
  {
    var s := AbsorbAll(r, pre);
    SwapMerged(s.tools, before, x, y, after);
    StreamTools(s, a);
    StreamTools(s, b);
    StreamAlike(s, a, b);
    AbsorbAllAppend(r, pre, a);
    AbsorbAllAppend(r, pre, b);
    AbsorbAllAppend(r, pre + a, post);
    AbsorbAllAppend(r, pre + b, post);
  }

  lemma {:induction false} SwapMerged(
    calls: seq<ToolCall>, before: seq<ToolDelta>, x: ToolDelta, y: ToolDelta, after: seq<ToolDelta>)
    requires 0 <= x.index && 0 <= y.index && x.index != y.index
    ensures MergeAll(calls, before + [x, y] + after) == MergeAll(calls, before + [y, x] + after)
  {
    MergeAllAppend(calls, before + [x, y], after);
    MergeAllAppend(calls, before + [y, x], after);
    MergePair(calls, before, x, y);
    MergePair(calls, before, y, x);
    DeltasCommute(MergeAll(calls, before), x, y);
  }

  lemma {:induction false} MergePair(calls: seq<ToolCall>, before: seq<ToolDelta>, x: ToolDelta, y: ToolDelta)
    ensures MergeAll(calls, before + [x, y]) == MergeDelta(MergeDelta(MergeAll(calls, before), x), y)
  {
    LastOfAppend(before + [x], y);
    LastOfAppend(before, x);
    assert before + [x] + [y] == before + [x, y];
  }

  /**
   Streams that agree on the deltas of each tool call assemble the same calls, each the fold of its own deltas,
   however they interleave them; and the same response if they agree on everything else.
   */
  lemma {:induction false} StreamInterleaving(a: seq<Data>, b: seq<Data>)
    requires OnlyChatTools(a) && OnlyChatTools(b) && NonNegative(StreamDeltas(a)) && NonNegative(StreamDeltas(b))
    requires forall k: nat :: At(StreamDeltas(a), k) == At(StreamDeltas(b), k)
    ensures AbsorbAll(NOTHING, a).tools == AbsorbAll(NOTHING, b).tools
    ensures |AbsorbAll(NOTHING, a).tools| == Slots(StreamDeltas(a))
    ensures forall k :: 0 <= k < Slots(StreamDeltas(a)) ==>
      AbsorbAll(NOTHING, a).tools[k] == Fold(At(StreamDeltas(a), k))
    ensures SameButTools(a, b) ==> AbsorbAll(NOTHING, a) == AbsorbAll(NOTHING, b)
  {
    StreamTools(NOTHING, a);
    StreamTools(NOTHING, b);
    InterleavingInvariant(StreamDeltas(a), StreamDeltas(b));
    MergeIsPerIndex(StreamDeltas(a));
    if SameButTools(a, b) {
      StreamAlike(NOTHING, a, b);
    }
  }

  // ---------- counters, over streams ----------

  function Given(u: Option<Usage>): seq<Usage> {
    if u.Some? then [u.value] else []
  }

  function ChoiceUsages(cs: seq<Choice>): seq<Usage> {
    if cs == [] then [] else ChoiceUsages(cs[..|cs| - 1]) + Given(cs[|cs| - 1].messageUsage)
  }

  function KindUsages(k: Kind, usage: Option<Usage>): seq<Usage> {
    match k
    case MessageDelta(_, _) => Given(usage)
    case MessageStart(m) => if m.Object? then Given(m.usage) else []
    case ResponseDone(u, _) => Given(u)
    case _ => []
  }

  /** Every usage report of a stream, in the order the assembler meets them. */
  function StreamUsages(ds: seq<Data>): seq<Usage> {
    if ds == [] then []
    else
      var d := ds[|ds| - 1];
      StreamUsages(ds[..|ds| - 1]) + (ChoiceUsages(d.choices) + KindUsages(d.kind, d.usage) + Given(d.usage))
  }

  function PromptReports(us: seq<Usage>): seq<Option<int>> {
    seq(|us|, i requires 0 <= i < |us| => PromptReport(us[i]))
  }

  function CompletionReports(us: seq<Usage>): seq<Option<int>> {
    seq(|us|, i requires 0 <= i < |us| => CompletionReport(us[i]))
  }

  /** The counters are what the reports so far make them. */
  predicate Counts(r: Response, us: seq<Usage>) {
    r.promptTokens == CounterAfter(PromptReports(us)) && r.completionTokens == CounterAfter(CompletionReports(us))
  }

  lemma {:induction false} UsageCounted(r: Response, us: seq<Usage>, u: Option<Usage>)
    requires Counts(r, us)
    ensures Counts(WithUsage(r, u), us + Given(u))
  {
    if u.Some? {
      var us' := us + [u.value];
      assert PromptReports(us')[..|us|] == PromptReports(us) && CompletionReports(us')[..|us|] == CompletionReports(us);
    } else {
      assert us + Given(u) == us;
    }
  }

  lemma {:induction false} ChoicesCounted(r: Response, us: seq<Usage>, cs: seq<Choice>)
    requires Counts(r, us)
    ensures Counts(WithChoices(r, cs), us + ChoiceUsages(cs))
    decreases |cs|
  {
    if cs == [] {
      assert us + ChoiceUsages(cs) == us;
    } else {
      var pre, c := cs[..|cs| - 1], cs[|cs| - 1];
      ChoicesCounted(r, us, pre);
      var before := WithChoices(r, pre);
      var r1 := WithChoice(before, c.(messageUsage := None));
      assert Counts(r1, us + ChoiceUsages(pre));
      UsageCounted(r1, us + ChoiceUsages(pre), c.messageUsage);
      Regroup(us, ChoiceUsages(pre), Given(c.messageUsage));
    }
  }

  lemma {:induction false} KindCounted(r: Response, us: seq<Usage>, k: Kind, usage: Option<Usage>)
    requires Counts(r, us)
    ensures Counts(WithKind(r, k, usage), us + KindUsages(k, usage))
  {
    UsageCounted(r, us, usage);
    match k
    case MessageDelta(text, stop) =>
      UsageCounted(r.(content := r.content + text, finish := Latest(r.finish, stop)), us, usage);
    case MessageStart(m) =>
      if m.Object? {
        UsageCounted(r, us, m.usage);
      } else {
        assert us + KindUsages(k, usage) == us;
      }
    case ResponseDone(u, _) => UsageCounted(r, us, u);
    case _ => assert us + KindUsages(k, usage) == us;
  }

  /** The assembled counters of any stream are those of its usage reports: the largest prompt and completion report. */
  lemma {:induction false} StreamCounters(ds: seq<Data>)
    ensures Counts(AbsorbAll(NOTHING, ds), StreamUsages(ds))
    decreases |ds|
  {
    if ds == [] {
      assert PromptReports([]) == [] && CompletionReports([]) == [];
    } else {
      var pre, d := ds[..|ds| - 1], ds[|ds| - 1];
      StreamCounters(pre);
      var us, s := StreamUsages(pre), Named(AbsorbAll(NOTHING, pre), d);
      ChoicesCounted(s, us, d.choices);
      KindCounted(WithChoices(s, d.choices), us + ChoiceUsages(d.choices), d.kind, d.usage);
      UsageCounted(WithKind(WithChoices(s, d.choices), d.kind, d.usage),
        us + ChoiceUsages(d.choices) + KindUsages(d.kind, d.usage), d.usage);
      Regroup(us, ChoiceUsages(d.choices), KindUsages(d.kind, d.usage));
      Regroup(us, ChoiceUsages(d.choices) + KindUsages(d.kind, d.usage), Given(d.usage));
    }
  }

  /** So streams with the same usage reports, in whatever order and however often, assemble the same counters. */
  lemma {:induction false} StreamCountersOrderFree(a: seq<Data>, b: seq<Data>)
    requires forall u :: u in StreamUsages(a) <==> u in StreamUsages(b)
    ensures AbsorbAll(NOTHING, a).promptTokens == AbsorbAll(NOTHING, b).promptTokens
    ensures AbsorbAll(NOTHING, a).completionTokens == AbsorbAll(NOTHING, b).completionTokens
  {
    var us, vs := StreamUsages(a), StreamUsages(b);
    StreamCounters(a);
    StreamCounters(b);
    forall r: Option<int> ensures r in PromptReports(us) <==> r in PromptReports(vs) {
      ReportsWithin(us, vs, r);
      ReportsWithin(vs, us, r);
    }
    forall r: Option<int> ensures r in CompletionReports(us) <==> r in CompletionReports(vs) {
      ReportsWithin(us, vs, r);
      ReportsWithin(vs, us, r);
    }
    CounterOrderFree(PromptReports(us), PromptReports(vs));
    CounterOrderFree(CompletionReports(us), CompletionReports(vs));
  }

  lemma {:induction false} ReportsWithin(us: seq<Usage>, vs: seq<Usage>, r: Option<int>)
    requires forall u :: u in us ==> u in vs
    ensures r in PromptReports(us) ==> r in PromptReports(vs)
    ensures r in CompletionReports(us) ==> r in CompletionReports(vs)
  {
    if r in PromptReports(us) {
      var i :| 0 <= i < |us| && PromptReports(us)[i] == r;
      assert us[i] in vs;
      var j :| 0 <= j < |vs| && vs[j] == us[i];
      assert PromptReports(vs)[j] == r;
    }
    if r in CompletionReports(us) {
      var i :| 0 <= i < |us| && CompletionReports(us)[i] == r;
      assert us[i] in vs;
      var j :| 0 <= j < |vs| && vs[j] == us[i];
      assert CompletionReports(vs)[j] == r;
    }
  }

  // ---------- text and reasons, over streams ----------

  /** The in-order concatenation of what each element contributes. */
  function Gather<A, B>(xs: seq<A>, f: A -> seq<B>): seq<B> {
    if xs == [] then [] else Gather(xs[..|xs| - 1], f) + f(xs[|xs| - 1])
  }

  /** A piece of content, or a whole message that counts only where nothing came before. */
  datatype Piece = Said(text: string) | Whole(text: string)

  function Told(before: string, pieces: seq<Piece>): string {
    if pieces == [] then before
    else
      var told, p := Told(before, pieces[..|pieces| - 1]), pieces[|pieces| - 1];
      if p.Said? then told + p.text else if told == "" then p.text else told
  }

  function ChoicePieces(c: Choice): seq<Piece> {
    [Said(c.content), Said(c.text), Whole(c.messageContent)]
  }

  function KindPieces(k: Kind): seq<Piece> {
    match k
    case ContentBlockDelta(text, json) => [Said(text), Said(json)]
    case MessageDelta(text, _) => [Said(text)]
    case OutputTextDelta(delta) => [Said(delta)]
    case Other => []
    case MessageStart(_) => []
    case ReasoningTextDelta(_) => []
    case FunctionCallDone(_) => []
    case ResponseDone(_, _) => []
  }

  /** The pieces of content of one chunk, in the order of the wire formats. */
  function DataPieces(d: Data): seq<Piece> {
    Gather(d.choices, ChoicePieces) + KindPieces(d.kind)
  }

  /** `reasoning_content`, or `reasoning` where that is missing; and the Responses deltas. */
  function ChoiceReasoning(c: Choice): seq<string> {
    [if c.reasoningContent != "" then c.reasoningContent else c.reasoning]
  }

  function DataReasoning(d: Data): seq<string> {
    Gather(d.choices, ChoiceReasoning) + (if d.kind.ReasoningTextDelta? then [d.kind.delta] else [])
  }

  /** A text is a report unless it is empty. */
  function Reported(text: string): seq<Option<string>> {
    if text == "" then [] else [Some(text)]
  }

  function ChoiceFinish(c: Choice): seq<Option<string>> {
    Reported(c.finish)
  }

  function ChoiceNative(c: Choice): seq<Option<string>> {
    Reported(c.nativeFinish)
  }

  /** A done response sets whatever its status says, even nothing. */
  function KindFinish(k: Kind): seq<Option<string>> {
    match k
    case MessageDelta(_, stop) => Reported(stop)
    case ResponseDone(_, finish) => [finish]
    case _ => []
  }

  function DataFinish(d: Data): seq<Option<string>> {
    Gather(d.choices, ChoiceFinish) + KindFinish(d.kind)
  }

  function DataNative(d: Data): seq<Option<string>> {
    Gather(d.choices, ChoiceNative)
  }

  function DataProvider(d: Data): seq<Option<string>> {
    Reported(d.provider)
  }

  function LastOf(before: Option<string>, reports: seq<Option<string>>): Option<string> {
    if reports == [] then before else reports[|reports| - 1]
  }

  lemma {:induction false} ToldAppend(before: string, a: seq<Piece>, b: seq<Piece>)
    ensures Told(before, a + b) == Told(Told(before, a), b)
    decreases |b|
  {
    if b == [] {
      assert a + b == a;
    } else {
      assert (a + b)[..|a + b| - 1] == a + b[..|b| - 1];
      ToldAppend(before, a, b[..|b| - 1]);
    }
  }

  lemma {:induction false} JoinAppend(a: seq<string>, b: seq<string>)
    ensures Join(a + b) == Join(a) + Join(b)
    decreases |b|
  {
    if b == [] {
      assert a + b == a && Join(a) + "" == Join(a);
    } else {
      assert (a + b)[..|a + b| - 1] == a + b[..|b| - 1];
      JoinAppend(a, b[..|b| - 1]);
      assert Join(a) + Join(b[..|b| - 1]) + b[|b| - 1] == Join(a) + (Join(b[..|b| - 1]) + b[|b| - 1]);
    }
  }

  lemma {:induction false} JoinOne(t: string)
    ensures Join([t]) == t
  {
    assert [t][..0] == [];
    assert "" + t == t;
  }

  lemma {:induction false} LastAppend(before: Option<string>, a: seq<Option<string>>, b: seq<Option<string>>)
    ensures LastOf(before, a + b) == LastOf(LastOf(before, a), b)
  {
  }

  lemma {:induction false} ToldOne(before: string, p: Piece)
    ensures Told(before, [p]) == if p.Said? then before + p.text else if before == "" then p.text else before
  {
    assert [p][..0] == [];
    assert Told(before, [p][..0]) == before;
  }

  /** Without whole messages the content is the plain concatenation. */
  lemma {:induction false} SaidIsJoined(before: string, texts: seq<string>)
    ensures Told(before, seq(|texts|, i requires 0 <= i < |texts| => Said(texts[i]))) == before + Join(texts)
    decreases |texts|
  {
    var pieces := seq(|texts|, i requires 0 <= i < |texts| => Said(texts[i]));
    if texts == [] {
      assert before + "" == before;
    } else {
      var n := |texts| - 1;
      SaidIsJoined(before, texts[..n]);
      assert pieces[..n] == seq(n, i requires 0 <= i < n => Said(texts[..n][i]));
      assert before + Join(texts[..n]) + texts[n] == before + (Join(texts[..n]) + texts[n]);
    }
  }

  /** A whole message counts where nothing came before, and only there. */
  lemma {:induction false} WholeOnlyFirst(before: string, a: seq<Piece>, t: string, b: seq<Piece>)
    ensures Told(before, a + [Whole(t)] + b) == Told(if Told(before, a) == "" then t else Told(before, a), b)
  {
    ToldAppend(before, a + [Whole(t)], b);
    ToldAppend(before, a, [Whole(t)]);
    ToldOne(Told(before, a), Whole(t));
  }

  lemma {:induction false} ChoiceTold(r: Response, c: Choice)
    ensures WithChoice(r, c).content == Told(r.content, ChoicePieces(c))
    ensures WithChoice(r, c).reasoning == r.reasoning + Join(ChoiceReasoning(c))
    ensures WithChoice(r, c).finish == LastOf(r.finish, ChoiceFinish(c))
    ensures WithChoice(r, c).nativeFinish == LastOf(r.nativeFinish, ChoiceNative(c))
    ensures WithChoice(r, c).provider == r.provider
  {
    var a, b, w := Said(c.content), Said(c.text), Whole(c.messageContent);
    assert ChoicePieces(c) == [a] + [b] + [w];
    ToldAppend(r.content, [a] + [b], [w]);
    ToldAppend(r.content, [a], [b]);
    ToldOne(r.content, a);
    ToldOne(r.content + c.content, b);
    ToldOne(r.content + c.content + c.text, w);
    JoinOne(if c.reasoningContent != "" then c.reasoningContent else c.reasoning);
  }

  lemma {:induction false} ChoicesTold(r: Response, cs: seq<Choice>)
    ensures var s := WithChoices(r, cs);
      && s.content == Told(r.content, Gather(cs, ChoicePieces))
      && s.reasoning == r.reasoning + Join(Gather(cs, ChoiceReasoning))
      && s.finish == LastOf(r.finish, Gather(cs, ChoiceFinish))
      && s.nativeFinish == LastOf(r.nativeFinish, Gather(cs, ChoiceNative)) && s.provider == r.provider
    decreases |cs|
  {
    if cs == [] {
      assert r.reasoning + "" == r.reasoning;
    } else {
      var pre, c := cs[..|cs| - 1], cs[|cs| - 1];
      ChoicesTold(r, pre);
      ChoiceTold(WithChoices(r, pre), c);
      ToldAppend(r.content, Gather(pre, ChoicePieces), ChoicePieces(c));
      JoinAppend(Gather(pre, ChoiceReasoning), ChoiceReasoning(c));
      Regroup(r.reasoning, Join(Gather(pre, ChoiceReasoning)), Join(ChoiceReasoning(c)));
      LastAppend(r.finish, Gather(pre, ChoiceFinish), ChoiceFinish(c));
      LastAppend(r.nativeFinish, Gather(pre, ChoiceNative), ChoiceNative(c));
    }
  }

  lemma {:induction false} KindTold(r: Response, d: Data)
    ensures var s := WithKind(r, d.kind, d.usage);
      && s.content == Told(r.content, KindPieces(d.kind))
      && s.reasoning == r.reasoning + Join(if d.kind.ReasoningTextDelta? then [d.kind.delta] else [])
      && s.nativeFinish == r.nativeFinish && s.provider == r.provider
  {
    assert r.reasoning + "" == r.reasoning;
    match d.kind
    case ContentBlockDelta(text, json) =>
      assert KindPieces(d.kind) == [Said(text)] + [Said(json)];
      ToldAppend(r.content, [Said(text)], [Said(json)]);
      ToldOne(r.content, Said(text));
      ToldOne(r.content + text, Said(json));
    case MessageDelta(text, _) => ToldOne(r.content, Said(text));
    case OutputTextDelta(delta) => ToldOne(r.content, Said(delta));
    case ReasoningTextDelta(delta) => JoinOne(delta);
    case _ =>
  }

  lemma {:induction false} UsageTells(r: Response, u: Option<Usage>)
    ensures var s := WithUsage(r, u);
      && s.content == r.content && s.reasoning == r.reasoning
      && s.finish == r.finish && s.nativeFinish == r.nativeFinish && s.provider == r.provider
  {
  }

  lemma {:induction false} KindFinishes(r: Response, d: Data)
    ensures WithKind(r, d.kind, d.usage).finish == LastOf(r.finish, KindFinish(d.kind))
  {
  }

  lemma {:induction false} DataText(r: Response, d: Data)
    ensures Absorb(r, d).content == Told(r.content, DataPieces(d))
  {
    var s := WithChoices(Named(r, d), d.choices);
    ChoicesTold(Named(r, d), d.choices);
    KindTold(s, d);
    UsageTells(WithKind(s, d.kind, d.usage), d.usage);
    ToldAppend(r.content, Gather(d.choices, ChoicePieces), KindPieces(d.kind));
  }

  lemma {:induction false} DataReasoned(r: Response, d: Data)
    ensures Absorb(r, d).reasoning == r.reasoning + Join(DataReasoning(d))
  {
    var s := WithChoices(Named(r, d), d.choices);
    ChoicesTold(Named(r, d), d.choices);
    KindTold(s, d);
    UsageTells(WithKind(s, d.kind, d.usage), d.usage);
    var a, b := Gather(d.choices, ChoiceReasoning), if d.kind.ReasoningTextDelta? then [d.kind.delta] else [];
    JoinAppend(a, b);
    Regroup(r.reasoning, Join(a), Join(b));
  }

  lemma {:induction false} DataReasons(r: Response, d: Data)
    ensures Absorb(r, d).finish == LastOf(r.finish, DataFinish(d))
    ensures Absorb(r, d).nativeFinish == LastOf(r.nativeFinish, DataNative(d))
    ensures Absorb(r, d).provider == LastOf(r.provider, DataProvider(d))
  {
    var s := WithChoices(Named(r, d), d.choices);
    ChoicesTold(Named(r, d), d.choices);
    KindTold(s, d);
    KindFinishes(s, d);
    UsageTells(WithKind(s, d.kind, d.usage), d.usage);
    LastAppend(r.finish, Gather(d.choices, ChoiceFinish), KindFinish(d.kind));
  }

  /** The content of any stream is its pieces of text in order, with a whole message only where nothing came before. */
  lemma {:induction false} StreamText(r: Response, ds: seq<Data>)
    ensures AbsorbAll(r, ds).content == Told(r.content, Gather(ds, DataPieces))
    decreases |ds|
  {
    if ds != [] {
      var pre, d := ds[..|ds| - 1], ds[|ds| - 1];
      StreamText(r, pre);
      DataText(AbsorbAll(r, pre), d);
      ToldAppend(r.content, Gather(pre, DataPieces), DataPieces(d));
    }
  }

  /** Its reasoning is the concatenation of its reasoning deltas. */
  lemma {:induction false} StreamReasoning(r: Response, ds: seq<Data>)
    ensures AbsorbAll(r, ds).reasoning == r.reasoning + Join(Gather(ds, DataReasoning))
    decreases |ds|
  {
    if ds == [] {
      assert r.reasoning + "" == r.reasoning;
    } else {
      var pre, d := ds[..|ds| - 1], ds[|ds| - 1];
      var a, b := Gather(pre, DataReasoning), DataReasoning(d);
      StreamReasoning(r, pre);
      DataReasoned(AbsorbAll(r, pre), d);
      JoinAppend(a, b);
      Regroup(r.reasoning, Join(a), Join(b));
    }
  }

  /** Its finish reasons and its provider are the last ones reported. */
  lemma {:induction false} StreamReasons(r: Response, ds: seq<Data>)
    ensures AbsorbAll(r, ds).finish == LastOf(r.finish, Gather(ds, DataFinish))
    ensures AbsorbAll(r, ds).nativeFinish == LastOf(r.nativeFinish, Gather(ds, DataNative))
    ensures AbsorbAll(r, ds).provider == LastOf(r.provider, Gather(ds, DataProvider))
    decreases |ds|
  {
    if ds != [] {
      var pre, d := ds[..|ds| - 1], ds[|ds| - 1];
      StreamReasons(r, pre);
      DataReasons(AbsorbAll(r, pre), d);
      LastAppend(r.finish, Gather(pre, DataFinish), DataFinish(d));
      LastAppend(r.nativeFinish, Gather(pre, DataNative), DataNative(d));
      LastAppend(r.provider, Gather(pre, DataProvider), DataProvider(d));
    }
  }

  // ---------- tool calls of both formats, over streams ----------

  /** A delta of a chat stream, or a finished call of a Responses stream. */
  datatype ToolEvent = Merged(d: ToolDelta) | Finished(call: ToolCall)

  function Called(calls: seq<ToolCall>, events: seq<ToolEvent>): seq<ToolCall> {
    if events == [] then calls
    else
      var before := Called(calls, events[..|events| - 1]);
      match events[|events| - 1]
      case Merged(d) => MergeDelta(before, d)
      case Finished(call) => before + [call]
  }

  function EntryCalls(t: ToolEntry): seq<ToolEvent> {
    if t.Delta? then [Merged(t.d)] else []
  }

  function ChoiceCalls(c: Choice): seq<ToolEvent> {
    Gather(c.tools, EntryCalls)
  }

  function KindCalls(k: Kind): seq<ToolEvent> {
    if k.FunctionCallDone? then [Finished(k.call)] else []
  }

  function DataCalls(d: Data): seq<ToolEvent> {
    Gather(d.choices, ChoiceCalls) + KindCalls(d.kind)
  }

  lemma {:induction false} CalledAppend(calls: seq<ToolCall>, a: seq<ToolEvent>, b: seq<ToolEvent>)
    ensures Called(calls, a + b) == Called(Called(calls, a), b)
    decreases |b|
  {
    if b == [] {
      assert a + b == a;
    } else {
      assert (a + b)[..|a + b| - 1] == a + b[..|b| - 1];
      CalledAppend(calls, a, b[..|b| - 1]);
    }
  }

  lemma {:induction false} CalledOne(calls: seq<ToolCall>, e: ToolEvent)
    ensures Called(calls, [e]) == if e.Merged? then MergeDelta(calls, e.d) else calls + [e.call]
  {
    assert [e][..0] == [];
    assert Called(calls, [e][..0]) == calls;
  }

  lemma {:induction false} EntriesCalled(calls: seq<ToolCall>, tools: seq<ToolEntry>)
    ensures MergeAll(calls, Deltas(tools)) == Called(calls, Gather(tools, EntryCalls))
    decreases |tools|
  {
    if tools != [] {
      var n := |tools| - 1;
      var before := Gather(tools[..n], EntryCalls);
      EntriesCalled(calls, tools[..n]);
      CalledAppend(calls, before, EntryCalls(tools[n]));
      if tools[n].Delta? {
        LastOfAppend(Deltas(tools[..n]), tools[n].d);
        CalledOne(Called(calls, before), Merged(tools[n].d));
      } else {
        assert Deltas(tools) == Deltas(tools[..n]);
      }
    }
  }

  lemma {:induction false} ChoicesCalled(r: Response, cs: seq<Choice>)
    ensures WithChoices(r, cs).tools == Called(r.tools, Gather(cs, ChoiceCalls))
    decreases |cs|
  {
    if cs != [] {
      var pre, c := cs[..|cs| - 1], cs[|cs| - 1];
      ChoicesCalled(r, pre);
      EntriesCalled(WithChoices(r, pre).tools, c.tools);
      CalledAppend(r.tools, Gather(pre, ChoiceCalls), ChoiceCalls(c));
    }
  }

  lemma {:induction false} DataCalled(r: Response, d: Data)
    ensures Absorb(r, d).tools == Called(r.tools, DataCalls(d))
  {
    var s := WithChoices(Named(r, d), d.choices);
    ChoicesCalled(Named(r, d), d.choices);
    CalledAppend(r.tools, Gather(d.choices, ChoiceCalls), KindCalls(d.kind));
    if d.kind.FunctionCallDone? {
      CalledOne(s.tools, Finished(d.kind.call));
    } else {
      KindTools(s, d.kind, d.usage);
    }
    UsageTools(WithKind(s, d.kind, d.usage), d.usage);
  }

  /** The tool calls of any stream are its deltas merged and its finished calls appended, in the order they came. */
  lemma {:induction false} StreamCalls(r: Response, ds: seq<Data>)
    ensures AbsorbAll(r, ds).tools == Called(r.tools, Gather(ds, DataCalls))
    decreases |ds|
  {
    if ds != [] {
      var pre, d := ds[..|ds| - 1], ds[|ds| - 1];
      StreamCalls(r, pre);
      DataCalled(AbsorbAll(r, pre), d);
      CalledAppend(r.tools, Gather(pre, DataCalls), DataCalls(d));
    }
  }
}
