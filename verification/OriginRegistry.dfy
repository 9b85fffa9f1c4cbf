/** The bounded registry that carries a caller's identity from the first to the terminal event. */
module OriginRegistry {
  import opened Options
  import opened Sequences

  const MAX_TRACKED_REQUEST_ORIGINS := 4096

  datatype Identity = Identity(caller: Option<string>, title: Option<string>, referer: Option<string>)

  const NO_IDENTITY := Identity(None, None, None)

  /** Empty header values count as absent. */
  function Given(s: Option<string>): Option<string> {
    if s.Some? && s.value != "" then s else None
  }

  function Cleaned(i: Identity): Identity {
    Identity(Given(i.caller), Given(i.title), Given(i.referer))
  }

  datatype Entry = Entry(id: string, identity: Identity)

  /** The dict in insertion order. */
  type Entries = seq<Entry>

  function IndexOf(es: Entries, id: string): (r: Option<nat>)
    ensures r.Some? ==> r.value < |es| && es[r.value].id == id
    ensures r.Some? ==> forall i :: 0 <= i < r.value ==> es[i].id != id
    ensures r.None? ==> forall i :: 0 <= i < |es| ==> es[i].id != id
  {
    if es == [] then None
    else if es[0].id == id then Some(0)
    else
      var rest := IndexOf(es[1..], id);
      assert forall i :: 1 <= i < |es| ==> es[i] == es[1..][i - 1];
      if rest.Some? then Some(rest.value + 1) else None
  }

  predicate Has(es: Entries, id: string) {
    IndexOf(es, id).Some?
  }

  /** Assigning an existing key keeps its place; a new key goes to the end. */
  function Assign(es: Entries, e: Entry): Entries {
    var at := IndexOf(es, e.id);
    if at.Some? then es[at.value := e] else es + [e]
  }

  function Pop(es: Entries, id: string): Entries {
    var at := IndexOf(es, id);
    if at.Some? then es[..at.value] + es[at.value + 1..] else es
  }

  function Register(es: Entries, id: string, identity: Identity): Entries {
    var i := Cleaned(identity);
    if i == NO_IDENTITY then es
    else Assign(if |es| >= MAX_TRACKED_REQUEST_ORIGINS && !Has(es, id) then es[1..] else es, Entry(id, i))
  }

  // ---------- the two methods ----------

  /** The identity fields of a build context. */
  datatype Context = Context(requestId: string, identity: Identity)

  function Filled(mine: Option<string>, known: Option<string>): Option<string> {
    if mine.None? then known else mine
  }

  function Stamped(c: Context, known: Identity): Context {
    c.(identity := Identity(Filled(c.identity.caller, known.caller), Filled(c.identity.title, known.title),
                            Filled(c.identity.referer, known.referer)))
  }

  /** What the registry makes of a context: the fields the caller gave, and the known ones for those it left out. */
  function Applied(es: Entries, c: Context): Context {
    match IndexOf(es, c.requestId)
    case None => c
    case Some(k) => Stamped(c, es[k].identity)
  }

  /** A field of the stamped context: given by the caller, known, or absent. */
  predicate FieldFrom(mine: Option<string>, registered: Option<string>, result: Option<string>) {
    if mine.Some? then result == mine
    else if registered.Some? && registered.value != "" then result == registered
    else result == None
  }

  class OriginRegistry {
    var entries: Entries

    constructor ()
      ensures entries == []
    {
      entries := [];
    }

    method RegisterRequestOrigin(id: string, identity: Identity)
      modifies this
      ensures entries == Register(old(entries), id, identity)
    {
      var i := Cleaned(identity);
      if i == NO_IDENTITY {
        return;
      }
      if |entries| >= MAX_TRACKED_REQUEST_ORIGINS && !Has(entries, id) {
        entries := entries[1..];
      }
      var at := IndexOf(entries, id);
      if at.Some? {
        entries := entries[at.value := Entry(id, i)];
      } else {
        entries := entries + [Entry(id, i)];
      }
    }

    method ApplyRequestOrigin(c: Context, terminal: bool) returns (c': Context)
      modifies this
      ensures entries == if terminal then Pop(old(entries), c.requestId) else old(entries)
      ensures c' == Applied(old(entries), c) && c'.requestId == c.requestId
      ensures c.identity.caller.Some? ==> c'.identity.caller == c.identity.caller
      ensures c.identity.title.Some? ==> c'.identity.title == c.identity.title
      ensures c.identity.referer.Some? ==> c'.identity.referer == c.identity.referer
    {
      c' := c;
      var at := IndexOf(entries, c.requestId);
      if at.Some? {
        var known := entries[at.value].identity;
        if c'.identity.caller.None? {
          c' := c'.(identity := c'.identity.(caller := known.caller));
        }
        if c'.identity.title.None? {
          c' := c'.(identity := c'.identity.(title := known.title));
        }
        if c'.identity.referer.None? {
          c' := c'.(identity := c'.identity.(referer := known.referer));
        }
        if terminal {
          entries := entries[..at.value] + entries[at.value + 1..];
        }
      }
    }
  }

  // ---------- runs ----------

  datatype Op = Reg(id: string, identity: Identity) | Terminal(id: string)

  function Step(es: Entries, op: Op): Entries {
    match op
    case Reg(id, identity) => Register(es, id, identity)
    case Terminal(id) => Pop(es, id)
  }

  function Run(ops: seq<Op>): Entries {
    if ops == [] then [] else Step(Run(ops[..|ops| - 1]), ops[|ops| - 1])
  }

  /** The unbounded map that forgets only at the terminal event. */
  function IdealStep(m: map<string, Identity>, op: Op): map<string, Identity> {
    match op
    case Reg(id, identity) => if Cleaned(identity) == NO_IDENTITY then m else m[id := Cleaned(identity)]
    case Terminal(id) => m - {id}
  }

  function Ideal(ops: seq<Op>): map<string, Identity> {
    if ops == [] then map[] else IdealStep(Ideal(ops[..|ops| - 1]), ops[|ops| - 1])
  }

  /** The operation enters a key the registry does not hold. */
  predicate Inserts(es: Entries, op: Op) {
    op.Reg? && Cleaned(op.identity) != NO_IDENTITY && !Has(es, op.id)
  }

  /** For each expected id, how many other keys were entered since it was. */
  function AgesStep(ages: map<string, nat>, es: Entries, op: Op): map<string, nat> {
    if Inserts(es, op) then (map k | k in ages :: ages[k] + 1)[op.id := 0]
    else if op.Terminal? then ages - {op.id}
    else ages
  }

  function Ages(ops: seq<Op>): map<string, nat> {
    if ops == [] then map[]
    else AgesStep(Ages(ops[..|ops| - 1]), Run(ops[..|ops| - 1]), ops[|ops| - 1])
  }

  ghost predicate Distinct(es: Entries) {
    forall i, j :: 0 <= i < j < |es| ==> es[i].id != es[j].id
  }

  /** Each entry is what the ideal map holds. */
  ghost predicate Agrees(es: Entries, ideal: map<string, Identity>) {
    forall i :: 0 <= i < |es| ==> es[i].id in ideal && ideal[es[i].id] == es[i].identity
  }

  /** An entry is at least as old as the number of entries behind it. */
  ghost predicate Aged(es: Entries, ages: map<string, nat>) {
    forall i :: 0 <= i < |es| ==> es[i].id in ages && |es| - 1 - i <= ages[es[i].id]
  }

  /** What the registry no longer holds was pushed out by a full registry of newer keys. */
  ghost predicate OnlyOldMissing(es: Entries, ideal: map<string, Identity>, ages: map<string, nat>) {
    forall id :: id in ideal && !Has(es, id) ==> id in ages && ages[id] >= MAX_TRACKED_REQUEST_ORIGINS
  }

  ghost predicate Tracked(es: Entries, ideal: map<string, Identity>, ages: map<string, nat>) {
    |es| <= MAX_TRACKED_REQUEST_ORIGINS && Distinct(es) && Agrees(es, ideal) && Aged(es, ages) &&
      OnlyOldMissing(es, ideal, ages)
  }

  lemma {:induction false} HasIsMember(es: Entries, id: string)
    ensures Has(es, id) <==> exists i :: 0 <= i < |es| && es[i].id == id
  {
    if Has(es, id) {
      assert es[IndexOf(es, id).value].id == id;
    }
  }

  /** Removing one entry keeps the others, in order. */
  lemma {:induction false} DropAt(es: Entries, k: nat, x: string)
    requires Distinct(es) && k < |es|
    ensures var es' := es[..k] + es[k + 1..];
      && Distinct(es')
      && (Has(es', x) <==> Has(es, x) && x != es[k].id)
  {
    var es' := es[..k] + es[k + 1..];
    assert forall i :: 0 <= i < |es'| ==> es'[i] == if i < k then es[i] else es[i + 1];
    HasIsMember(es, x);
    HasIsMember(es', x);
    if Has(es, x) && x != es[k].id {
      var j := IndexOf(es, x).value;
      assert es'[if j < k then j else j - 1].id == x;
    }
    if Has(es', x) {
      var j := IndexOf(es', x).value;
      assert es[if j < k then j else j + 1].id == x;
    }
  }

  lemma {:induction false} DropAgrees(es: Entries, ideal: map<string, Identity>, ages: map<string, nat>, k: nat)
    requires Distinct(es) && Agrees(es, ideal) && Aged(es, ages) && k < |es|
    ensures var es' := es[..k] + es[k + 1..];
      Agrees(es', ideal - {es[k].id}) && Aged(es', ages - {es[k].id})
  {
    var es' := es[..k] + es[k + 1..];
    forall i | 0 <= i < |es'|
      ensures es'[i].id != es[k].id && es'[i].id in ideal && ideal[es'[i].id] == es'[i].identity
      ensures es'[i].id in ages && |es'| - 1 - i <= ages[es'[i].id]
    {
      var j := if i < k then i else i + 1;
      assert es'[i] == es[j];
    }
  }

  lemma {:induction false} PopKeeps(es: Entries, ideal: map<string, Identity>, ages: map<string, nat>, id: string)
    requires Tracked(es, ideal, ages)
    ensures Tracked(Pop(es, id), ideal - {id}, ages - {id})
  {
    var at := IndexOf(es, id);
    var es' := Pop(es, id);
    if at.None? {
      assert es' == es && Agrees(es, ideal - {id}) && Aged(es, ages - {id});
    } else {
      var k := at.value;
      DropAt(es, k, id);
      DropAgrees(es, ideal, ages, k);
      forall x | x != id ensures Has(es', x) <==> Has(es, x) {
        DropAt(es, k, x);
      }
    }
  }

  /** Evicting the oldest entry of a full registry. */
  lemma {:induction false} EvictKeeps(es: Entries, x: string)
    requires Distinct(es) && es != []
    ensures Distinct(es[1..]) && (Has(es[1..], x) <==> Has(es, x) && x != es[0].id)
  {
    DropAt(es, 0, x);
    assert es[..0] + es[1..] == es[1..];
  }

  lemma {:induction false} SnocHas(es: Entries, e: Entry, x: string)
    ensures Has(es + [e], x) <==> Has(es, x) || x == e.id
  {
    HasIsMember(es, x);
    HasIsMember(es + [e], x);
    if Has(es, x) {
      assert (es + [e])[IndexOf(es, x).value].id == x;
    }
    assert (es + [e])[|es|] == e;
  }

  lemma {:induction false} UpdateKeeps(
    es: Entries, ideal: map<string, Identity>, ages: map<string, nat>, id: string, i: Identity)
    requires Tracked(es, ideal, ages) && Has(es, id)
    ensures Tracked(Assign(es, Entry(id, i)), ideal[id := i], ages)
  {
    var k := IndexOf(es, id).value;
    var es' := Assign(es, Entry(id, i));
    assert forall j :: 0 <= j < |es| ==> es'[j].id == es[j].id;
    forall x ensures Has(es', x) <==> Has(es, x) {
      HasIsMember(es, x);
      HasIsMember(es', x);
      if Has(es, x) {
        assert es'[IndexOf(es, x).value].id == x;
      }
      if Has(es', x) {
        assert es[IndexOf(es', x).value].id == x;
      }
    }
  }

  function Room(es: Entries): Entries {
    if |es| >= MAX_TRACKED_REQUEST_ORIGINS then es[1..] else es
  }

  lemma {:induction false} RoomFits(es: Entries, ideal: map<string, Identity>, ages: map<string, nat>, id: string)
    requires Tracked(es, ideal, ages) && !Has(es, id)
    ensures |Room(es)| < MAX_TRACKED_REQUEST_ORIGINS
    ensures Distinct(Room(es)) && Agrees(Room(es), ideal) && Aged(Room(es), ages)
    ensures forall j :: 0 <= j < |Room(es)| ==> Room(es)[j].id != id
  {
    if |es| >= MAX_TRACKED_REQUEST_ORIGINS {
      var room := es[1..];
      assert forall j :: 0 <= j < |room| ==> room[j] == es[j + 1];
      EvictKeeps(es, id);
    }
  }

  /** A new key behind entries that agree and are old enough. */
  lemma {:induction false} AddEntry(room: Entries, ideal: map<string, Identity>, ages: map<string, nat>, e: Entry)
    requires Distinct(room) && Agrees(room, ideal) && Aged(room, ages)
    requires forall j :: 0 <= j < |room| ==> room[j].id != e.id
    ensures Distinct(room + [e]) && Agrees(room + [e], ideal[e.id := e.identity])
    ensures Aged(room + [e], (map k | k in ages :: ages[k] + 1)[e.id := 0])
  {
    var es' := room + [e];
    var ages' := (map k | k in ages :: ages[k] + 1)[e.id := 0];
    forall i | 0 <= i < |es'| ensures es'[i].id in ages' && |es'| - 1 - i <= ages'[es'[i].id] {
      if i < |room| {
        assert es'[i] == room[i];
      }
    }
  }

  lemma {:induction false} EvictedIsOld(es: Entries, ideal: map<string, Identity>, ages: map<string, nat>, e: Entry)
    requires Tracked(es, ideal, ages) && !Has(es, e.id)
    ensures OnlyOldMissing(Room(es) + [e], ideal[e.id := e.identity], (map k | k in ages :: ages[k] + 1)[e.id := 0])
  {
    var full := |es| >= MAX_TRACKED_REQUEST_ORIGINS;
    var es' := Room(es) + [e];
    forall x ensures Has(es', x) <==> x == e.id || (Has(es, x) && !(full && x == es[0].id)) {
      SnocHas(Room(es), e, x);
      if full {
        EvictKeeps(es, x);
      }
    }
  }

  lemma {:induction false} InsertKeeps(
    es: Entries, ideal: map<string, Identity>, ages: map<string, nat>, id: string, i: Identity)
    requires Tracked(es, ideal, ages) && !Has(es, id)
    ensures Tracked(Room(es) + [Entry(id, i)], ideal[id := i], (map k | k in ages :: ages[k] + 1)[id := 0])
  {
    RoomFits(es, ideal, ages, id);
    AddEntry(Room(es), ideal, ages, Entry(id, i));
    EvictedIsOld(es, ideal, ages, Entry(id, i));
  }

  lemma {:induction false} StepKeeps(es: Entries, ideal: map<string, Identity>, ages: map<string, nat>, op: Op)
    requires Tracked(es, ideal, ages)
    ensures Tracked(Step(es, op), IdealStep(ideal, op), AgesStep(ages, es, op))
  {
    match op
    case Terminal(id) => PopKeeps(es, ideal, ages, id);
    case Reg(id, identity) =>
      var i := Cleaned(identity);
      if i != NO_IDENTITY {
        if Has(es, id) {
          UpdateKeeps(es, ideal, ages, id, i);
        } else {
          InsertKeeps(es, ideal, ages, id, i);
          assert !Has(Room(es), id) by {
            if |es| >= MAX_TRACKED_REQUEST_ORIGINS {
              EvictKeeps(es, id);
            }
          }
        }
      }
  }

  /** Over every run the registry stays bounded and never contradicts the unbounded map. */
  lemma {:induction false} RunTracked(ops: seq<Op>)
    ensures Tracked(Run(ops), Ideal(ops), Ages(ops))
    decreases |ops|
  {
    if ops != [] {
      RunTracked(ops[..|ops| - 1]);
      StepKeeps(Run(ops[..|ops| - 1]), Ideal(ops[..|ops| - 1]), Ages(ops[..|ops| - 1]), ops[|ops| - 1]);
    }
  }

  /**
   The identity of a request is found, unchanged, as long as fewer than 4096 keys were entered since
   its own was; and whatever is found is right.
   */
  lemma {:induction false} IdentityReachesTerminal(ops: seq<Op>, id: string)
    ensures |Run(ops)| <= MAX_TRACKED_REQUEST_ORIGINS
    ensures id in Ideal(ops) && (id in Ages(ops) ==> Ages(ops)[id] < MAX_TRACKED_REQUEST_ORIGINS) ==> Has(Run(ops), id)
    ensures Has(Run(ops), id) ==>
      id in Ideal(ops) && Run(ops)[IndexOf(Run(ops), id).value].identity == Ideal(ops)[id]
  {
    RunTracked(ops);
  }

  // ---------- in terms of the operations alone ----------

  /** How many registrations of other ids came after `id` was first registered since its last terminal event. */
  function Since(ops: seq<Op>, id: string): nat {
    if ops == [] then 0
    else
      var pre, op := ops[..|ops| - 1], ops[|ops| - 1];
      if !op.Reg? || Cleaned(op.identity) == NO_IDENTITY then Since(pre, id)
      else if op.id != id then Since(pre, id) + 1
      else if id in Ideal(pre) then Since(pre, id)
      else 0
  }

  lemma {:induction false} AgeAtMostSince(ops: seq<Op>, id: string)
    ensures id in Ideal(ops) && id in Ages(ops) ==> Ages(ops)[id] <= Since(ops, id)
    decreases |ops|
  {
    if ops != [] {
      var pre, op := ops[..|ops| - 1], ops[|ops| - 1];
      AgeAtMostSince(pre, id);
      RunTracked(pre);
      if op.Reg? && op.id == id && Has(Run(pre), id) {
        assert id in Ideal(pre) by {
          var at := IndexOf(Run(pre), id).value;
          assert Run(pre)[at].id == id;
        }
      }
    }
  }

  /**
   Fewer than 4096 registrations of other ids since its own, and the terminal event finds exactly what was
   registered.
   */
  lemma {:induction false} IdentityWithinWindow(ops: seq<Op>, id: string)
    requires id in Ideal(ops) && Since(ops, id) < MAX_TRACKED_REQUEST_ORIGINS
    ensures Has(Run(ops), id) && Run(ops)[IndexOf(Run(ops), id).value].identity == Ideal(ops)[id]
  {
    AgeAtMostSince(ops, id);
    IdentityReachesTerminal(ops, id);
  }

  /** Operations on other ids leave what is expected for `id` alone, and each counts for one at most. */
  lemma {:induction false} OthersPass(ops: seq<Op>, id: string, post: seq<Op>)
    requires id in Ideal(ops) && forall i :: 0 <= i < |post| ==> post[i].id != id
    ensures id in Ideal(ops + post) && Ideal(ops + post)[id] == Ideal(ops)[id]
    ensures Since(ops + post, id) <= Since(ops, id) + |post|
    decreases |post|
  {
    if post == [] {
      assert ops + post == ops;
    } else {
      var n := |post| - 1;
      OthersPass(ops, id, post[..n]);
      assert ops + post == (ops + post[..n]) + [post[n]];
      LastOfAppend(ops + post[..n], post[n]);
    }
  }

  lemma {:induction false} NeverExpected(ops: seq<Op>, id: string, post: seq<Op>)
    requires id !in Ideal(ops) && forall i :: 0 <= i < |post| ==> post[i].id != id
    ensures id !in Ideal(ops + post)
    decreases |post|
  {
    if post == [] {
      assert ops + post == ops;
    } else {
      var n := |post| - 1;
      NeverExpected(ops, id, post[..n]);
      assert ops + post == (ops + post[..n]) + [post[n]];
      LastOfAppend(ops + post[..n], post[n]);
    }
  }

  /**
   From the registration to the terminal event, with fewer than 4096 operations on other ids in between: each field
   of the stamped context is the caller's own if it gave one, else the registered one if that is not empty, else
   absent.
   */
  lemma {:induction false} RegisteredIsStamped(pre: seq<Op>, id: string, given: Identity, post: seq<Op>, mine: Identity)
    requires id !in Ideal(pre) && |post| < 4096
    requires forall i :: 0 <= i < |post| ==> post[i].id != id
    ensures
      var stamped := Applied(Run(pre + [Reg(id, given)] + post), Context(id, mine)).identity;
      && FieldFrom(mine.caller, given.caller, stamped.caller)
      && FieldFrom(mine.title, given.title, stamped.title)
      && FieldFrom(mine.referer, given.referer, stamped.referer)
  {
    var ops := pre + [Reg(id, given)];
    LastOfAppend(pre, Reg(id, given));
    if Cleaned(given) == NO_IDENTITY {
      NeverExpected(ops, id, post);
      IdentityReachesTerminal(ops + post, id);
    } else {
      OthersPass(ops, id, post);
      IdentityWithinWindow(ops + post, id);
    }
  }

  // ---------- exactly when an entry is evicted ----------

  function RegisterAll(es: Entries, regs: seq<Entry>): Entries {
    if regs == [] then es
    else
      var e := regs[|regs| - 1];
      Register(RegisterAll(es, regs[..|regs| - 1]), e.id, e.identity)
  }

  function CleanedAll(regs: seq<Entry>): Entries {
    seq(|regs|, i requires 0 <= i < |regs| => Entry(regs[i].id, Cleaned(regs[i].identity)))
  }

  /** Registrations that count, of ids that are new to the registry and to each other. */
  ghost predicate Fresh(es: Entries, regs: seq<Entry>) {
    Distinct(es + regs) && forall i :: 0 <= i < |regs| ==> Cleaned(regs[i].identity) != NO_IDENTITY
  }

  /** The last 4096 entries. */
  function Newest(es: Entries): (r: Entries)
    ensures |r| <= MAX_TRACKED_REQUEST_ORIGINS
  {
    if |es| <= MAX_TRACKED_REQUEST_ORIGINS then es else es[|es| - MAX_TRACKED_REQUEST_ORIGINS..]
  }

  lemma {:induction false} NewestNext(s: Entries, e: Entry)
    ensures Newest(s + [e]) == Room(Newest(s)) + [e]
  {
  }

  lemma {:induction false} FreshPrefix(es: Entries, regs: seq<Entry>)
    requires Fresh(es, regs) && regs != []
    ensures Fresh(es, regs[..|regs| - 1])
    ensures !Has(Newest(es + CleanedAll(regs[..|regs| - 1])), regs[|regs| - 1].id)
  {
    var n := |regs| - 1;
    var all, before := es + regs, es + CleanedAll(regs[..n]);
    assert all[|es| + n] == regs[n];
    assert forall i :: 0 <= i < |es + regs[..n]| ==> (es + regs[..n])[i] == all[i];
    assert forall i :: 0 <= i < |before| ==> before[i].id == all[i].id;
    var kept := Newest(before);
    var shift := |before| - |kept|;
    forall i | 0 <= i < |kept| ensures kept[i].id != regs[n].id {
      assert kept[i] == before[i + shift];
    }
  }

  lemma {:induction false} CleanedNext(regs: seq<Entry>)
    requires regs != []
    ensures var n := |regs| - 1;
      CleanedAll(regs) == CleanedAll(regs[..n]) + [Entry(regs[n].id, Cleaned(regs[n].identity))]
  {
  }

  /** Registering fresh ids keeps the newest 4096 of all entries, in order. */
  lemma {:induction false} FreshKeepsNewest(es: Entries, regs: seq<Entry>)
    requires |es| <= MAX_TRACKED_REQUEST_ORIGINS && Fresh(es, regs)
    ensures RegisterAll(es, regs) == Newest(es + CleanedAll(regs))
    decreases |regs|
  {
    if regs == [] {
      assert es + CleanedAll(regs) == es;
    } else {
      var n := |regs| - 1;
      FreshPrefix(es, regs);
      FreshKeepsNewest(es, regs[..n]);
      var e := Entry(regs[n].id, Cleaned(regs[n].identity));
      NewestNext(es + CleanedAll(regs[..n]), e);
      CleanedNext(regs);
      Regroup(es, CleanedAll(regs[..n]), [e]);
      AssignFresh(RegisterAll(es, regs[..n]), e);
    }
  }

  lemma {:induction false} AssignFresh(es: Entries, e: Entry)
    requires !Has(es, e.id)
    ensures Assign(Room(es), e) == Room(es) + [e]
  {
    HasIsMember(es, e.id);
    HasIsMember(Room(es), e.id);
    assert forall x :: x in Room(es) ==> x in es;
  }

  /**
   Without terminal events, the entry at position `p` is still held exactly until the registry is full and `p`
   more ids came.
   */
  lemma {:induction false} HeldExact(es: Entries, regs: seq<Entry>, p: nat)
    requires |es| <= MAX_TRACKED_REQUEST_ORIGINS && Fresh(es, regs) && p < |es|
    ensures Has(RegisterAll(es, regs), es[p].id) <==> |regs| <= MAX_TRACKED_REQUEST_ORIGINS - |es| + p
  {
    FreshKeepsNewest(es, regs);
    var all := es + CleanedAll(regs);
    CleanedSameIds(es, regs);
    KeptInNewest(all, p);
  }

  ghost predicate SameIds(a: Entries, b: Entries) {
    |a| == |b| && forall i :: 0 <= i < |a| ==> a[i].id == b[i].id
  }

  lemma {:induction false} CleanedSameIds(es: Entries, regs: seq<Entry>)
    requires Distinct(es + regs)
    ensures Distinct(es + CleanedAll(regs)) && forall p :: 0 <= p < |es| ==> (es + CleanedAll(regs))[p] == es[p]
  {
    assert SameIds(es + regs, es + CleanedAll(regs));
  }

  lemma {:induction false} KeptInNewest(all: Entries, p: nat)
    requires Distinct(all) && p < |all|
    ensures Has(Newest(all), all[p].id) <==> |all| - MAX_TRACKED_REQUEST_ORIGINS <= p
  {
    var kept := Newest(all);
    var shift := |all| - |kept|;
    HasIsMember(kept, all[p].id);
    if shift <= p {
      assert kept[p - shift] == all[p];
    } else {
      forall i | 0 <= i < |kept| ensures kept[i].id != all[p].id {
        assert kept[i] == all[i + shift];
      }
    }
  }

  /**
   Registering a request again does not move it back in the queue: it stays at its position, so it is evicted
   by exactly the same later registrations as if it had not been registered again.
   */
  lemma {:induction false} RegisteringAgainDoesNotProtect(es: Entries, p: nat, identity: Identity, regs: seq<Entry>)
    requires |es| <= MAX_TRACKED_REQUEST_ORIGINS && Fresh(es, regs) && p < |es|
    ensures Has(RegisterAll(Register(es, es[p].id, identity), regs), es[p].id) <==>
      |regs| <= MAX_TRACKED_REQUEST_ORIGINS - |es| + p
    ensures Has(RegisterAll(Register(es, es[p].id, identity), regs), es[p].id) <==> Has(RegisterAll(es, regs), es[p].id)
  {
    AgainSameIds(es, p, identity);
    FreshSameIds(es, Register(es, es[p].id, identity), regs);
    HeldExact(es, regs, p);
    HeldExact(Register(es, es[p].id, identity), regs, p);
  }

  lemma {:induction false} AgainSameIds(es: Entries, p: nat, identity: Identity)
    requires p < |es|
    ensures SameIds(es, Register(es, es[p].id, identity))
  {
    HasIsMember(es, es[p].id);
  }

  lemma {:induction false} FreshSameIds(es: Entries, again: Entries, regs: seq<Entry>)
    requires Fresh(es, regs) && SameIds(es, again)
    ensures Fresh(again, regs)
  {
    assert SameIds(es + regs, again + regs);
  }
}
