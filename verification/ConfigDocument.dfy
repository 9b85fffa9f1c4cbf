/** The path-to-value map of a config text, and what setting declared values does to it. */
module ConfigDocument {
  import opened Options
  import opened Sequences
  import opened ConfigLines
  import opened ConfigMerge
  import opened DeclaredValues

  /** The mapping a parser builds: a repeated key takes its last value. */
  function Document(es: seq<Pair>): (r: map<Path, string>) {
    if es == [] then map[]
    else Document(es[..|es| - 1])[es[|es| - 1].path := es[|es| - 1].text]
  }

  ghost predicate Repeated(es: seq<Pair>, e: nat)
    requires e < |es|
  {
    exists f :: e < f < |es| && es[f].path == es[e].path
  }

  lemma {:induction false} InDocument(es: seq<Pair>, p: Path)
    ensures p in Document(es) <==> exists e :: 0 <= e < |es| && es[e].path == p
    decreases |es|
  {
    if es != [] {
      var n := |es| - 1;
      InDocument(es[..n], p);
      if e :| 0 <= e < |es| && es[e].path == p {
        assert e < n ==> es[..n][e] == es[e];
      }
    }
  }

  /** Writing one entry sets its key, unless a later entry for the same key hides it. */
  lemma {:induction false} UpdateEntry(es: seq<Pair>, e: nat, t: string)
    requires e < |es|
    ensures
      var p := es[e].path;
      Document(es[e := Pair(p, t)]) == if Repeated(es, e) then Document(es) else Document(es)[p := t]
    decreases |es|
  {
    var n := |es| - 1;
    var p := es[e].path;
    var es' := es[e := Pair(p, t)];
    if e == n {
      assert es'[..n] == es[..n];
      assert !Repeated(es, e);
    } else {
      UpdateEntry(es[..n], e, t);
      assert es'[..n] == es[..n][e := Pair(p, t)];
      RepeatedBelow(es, e);
    }
  }

  lemma {:induction false} RepeatedBelow(es: seq<Pair>, e: nat)
    requires e < |es| - 1
    ensures Repeated(es, e) <==> Repeated(es[..|es| - 1], e) || es[|es| - 1].path == es[e].path
  {
    var n := |es| - 1;
    if Repeated(es, e) {
      var f :| e < f < |es| && es[f].path == es[e].path;
      assert f < n ==> es[..n][f] == es[f];
    }
    if Repeated(es[..n], e) {
      var f :| e < f < n && es[..n][f].path == es[..n][e].path;
      assert es[f].path == es[e].path;
    }
  }

  /** Exactly when rewriting one occurrence of a key sets the key. */
  lemma {:induction false} RewriteSetsKeyExact(es: seq<Pair>, e: nat, t: string)
    requires e < |es|
    ensures
      var p := es[e].path;
      p in Document(es) &&
        (Document(es[e := Pair(p, t)]) == Document(es)[p := t] <==> !Repeated(es, e) || Document(es)[p] == t)
  {
    var p := es[e].path;
    InDocument(es, p);
    UpdateEntry(es, e, t);
    if Repeated(es, e) && Document(es)[p] != t {
      assert Document(es)[p := t][p] == t;
    }
    if Repeated(es, e) && Document(es)[p] == t {
      assert Document(es)[p := t] == Document(es);
    }
  }

  // ---------- lines and entries ----------

  /** The key line `i` is entry `EntryIndex(lines, i)`. */
  lemma {:induction false} EntryAt(lines: seq<string>, i: nat)
    requires i < |lines| && Paths(lines)[i].Some?
    ensures var e := EntryIndex(lines, i); e < |Entries(lines)| && Some(Entries(lines)[e].path) == Paths(lines)[i]
  {
    var a, x, b := lines[..i], lines[i], lines[i + 1..];
    PathThere(lines, i);
    Parts(lines, i, x);
    EntriesAround(a, x, b);
    assert EntryOf(StackAfter(a), x) == [Pair(PathIn(StackAfter(a), x).value, ScalarText(Read(x).value.rest))];
  }

  lemma {:induction false} EntryHasLine(lines: seq<string>, e: nat)
    requires e < |Entries(lines)|
    ensures Some(Entries(lines)[e].path) in Paths(lines)
    decreases |lines|
  {
    var n := |lines| - 1;
    if e < |Entries(lines[..n])| {
      EntryHasLine(lines[..n], e);
    } else {
      assert Paths(lines)[n] == PathIn(StackAfter(lines[..n]), lines[n]);
    }
  }

  // ---------- the declared values ----------

  /** A document with the printed choices put in; keys it does not have are not invented. */
  function Put(doc: map<Path, string>, changed: map<string, Value>): map<Path, string> {
    map p | p in doc :: if SplitDots(Join(p)) == p && Join(p) in changed then FormatScalar(changed[Join(p)]) else doc[p]
  }

  /** No declared key stands twice in the file. */
  ghost predicate DeclaredOnce(es: seq<Pair>, rules: seq<ValueRule>) {
    forall e, r :: 0 <= e < |es| && r in rules && es[e].path == At(r) ==> !Repeated(es, e)
  }

  lemma {:induction false} OthersStay(changed: map<string, Value>, key: string, v: Value, q: Path)
    requires q != SplitDots(key) && SplitDots(Join(q)) == q
    ensures Join(q) != key && (Join(q) in changed[key := v] <==> Join(q) in changed)
  {
  }

  lemma {:induction false} PutOne(doc: map<Path, string>, changed: map<string, Value>, key: string, v: Value)
    ensures
      var p := SplitDots(key);
      Put(doc, changed[key := v]) == if p in doc then Put(doc, changed)[p := FormatScalar(v)] else Put(doc, changed)
  {
    var p := SplitDots(key);
    JoinSplit(key);
    var wanted := if p in doc then Put(doc, changed)[p := FormatScalar(v)] else Put(doc, changed);
    forall q | q in doc ensures Put(doc, changed[key := v])[q] == wanted[q] {
      if q != p && SplitDots(Join(q)) == q {
        OthersStay(changed, key, v, q);
      }
    }
  }

  ghost predicate SamePaths(es: seq<Pair>, es': seq<Pair>) {
    |es| == |es'| && forall e :: 0 <= e < |es| ==> es[e].path == es'[e].path
  }

  lemma {:induction false} RepeatedSame(es: seq<Pair>, es': seq<Pair>, e: nat)
    requires SamePaths(es, es') && e < |es|
    ensures Repeated(es, e) <==> Repeated(es', e)
  {
    if Repeated(es, e) {
      var f :| e < f < |es| && es[f].path == es[e].path;
      assert es'[f].path == es'[e].path;
    }
    if Repeated(es', e) {
      var f :| e < f < |es'| && es'[f].path == es'[e].path;
      assert es[f].path == es[e].path;
    }
  }

  lemma {:induction false} PathsStay(es: seq<Pair>, es': seq<Pair>, e: nat, t: string)
    requires SamePaths(es, es') && e < |es'|
    ensures SamePaths(es, es'[e := Pair(es'[e].path, t)])
  {
  }

  /**
   When no declared key stands twice, the merged document is `main`'s with exactly the choices that
   differ put in: same keys, and every other value as it was.
   */
  lemma {:induction false} ValuesAsDocument(main: seq<string>, rules: seq<ValueRule>, inp: Inputs)
    requires DeclaredOnce(Entries(main), rules)
    ensures SamePaths(Entries(main), WithValues(main, Entries(main), rules, inp))
    ensures Document(WithValues(main, Entries(main), rules, inp)) == Put(Document(Entries(main)), Choices(rules, inp))
    decreases |rules|
  {
    var es := Entries(main);
    if rules == [] {
      assert Put(Document(es), map[]) == Document(es);
    } else {
      var n := |rules| - 1;
      ValuesAsDocument(main, rules[..n], inp);
      OneMoreValue(main, WithValues(main, es, rules[..n], inp), Choices(rules[..n], inp), rules[n], inp);
    }
  }

  lemma {:induction false} SetEntry(es: seq<Pair>, before: seq<Pair>, e: nat, t: string)
    requires SamePaths(es, before) && e < |es| && !Repeated(es, e)
    ensures var p := es[e].path;
      && before[e].path == p && SamePaths(es, before[e := Pair(p, t)])
      && Document(before[e := Pair(p, t)]) == Document(before)[p := t]
  {
    RepeatedSame(es, before, e);
    PathsStay(es, before, e, t);
    UpdateEntry(before, e, t);
  }

  lemma {:induction false} OneMoreValue(
    main: seq<string>, before: seq<Pair>, chosenSoFar: map<string, Value>, r: ValueRule, inp: Inputs)
    requires forall e :: 0 <= e < |Entries(main)| && Entries(main)[e].path == At(r) ==> !Repeated(Entries(main), e)
    requires SamePaths(Entries(main), before) && Document(before) == Put(Document(Entries(main)), chosenSoFar)
    ensures SamePaths(Entries(main), WithValue(main, before, r, inp))
    ensures Chosen(r, inp).None? ==> WithValue(main, before, r, inp) == before
    ensures Chosen(r, inp).Some? ==>
      Document(WithValue(main, before, r, inp))
      == Put(Document(Entries(main)), chosenSoFar[r.key := Chosen(r, inp).value])
  {
    var es, chosen, at := Entries(main), Chosen(r, inp), FindKey(Paths(main), At(r));
    if chosen.Some? {
      PutOne(Document(es), chosenSoFar, r.key, chosen.value);
      KeyInDocument(main, At(r));
      if at.Some? {
        var e := EntryIndex(main, at.value);
        EntryAt(main, at.value);
        SetEntry(es, before, e, FormatScalar(chosen.value));
      }
    }
  }

  lemma {:induction false} KeyInDocument(main: seq<string>, p: Path)
    ensures FindKey(Paths(main), p).Some? <==> p in Document(Entries(main))
  {
    InDocument(Entries(main), p);
    var at := FindKey(Paths(main), p);
    if at.Some? {
      EntryAt(main, at.value);
    } else if e :| 0 <= e < |Entries(main)| && Entries(main)[e].path == p {
      EntryHasLine(main, e);
    }
  }

  // ---------- what the document holds, rule by rule ----------

  lemma {:induction false} ChoiceOfRule(rules: seq<ValueRule>, inp: Inputs, n: nat)
    requires DistinctKeys(rules) && n < |rules|
    ensures rules[n].key in Choices(rules, inp) <==> Chosen(rules[n], inp).Some?
    ensures Chosen(rules[n], inp).Some? ==> Choices(rules, inp)[rules[n].key] == Chosen(rules[n], inp).value
    decreases |rules|
  {
    var m := |rules| - 1;
    if n == m {
      NotYetChosen(rules, m, inp);
    } else {
      ChoiceOfRule(rules[..m], inp, n);
    }
  }

  /**
   What a rule makes of its key's value: the operator's timeout if the rule gives way to it and it differs from
   `main`'s value, else the live value if there is one and it differs, else the value as it is.
   */
  predicate ValueAsRuled(r: ValueRule, inp: Inputs, value: string, value': string) {
    if At(r) !in inp.mainDoc then value' == value
    else if r.operatorChoice && inp.queueTimeout.Some? then
      value' == if inp.queueTimeout.value == inp.mainDoc[At(r)] then value else FormatScalar(inp.queueTimeout.value)
    else if At(r) in inp.localDoc && inp.localDoc[At(r)] != inp.mainDoc[At(r)] then
      value' == FormatScalar(inp.localDoc[At(r)])
    else value' == value
  }

  lemma {:induction false} ChoiceDeclared(rules: seq<ValueRule>, inp: Inputs, p: Path)
    requires SplitDots(Join(p)) == p && Join(p) in Choices(rules, inp)
    ensures exists r :: r in rules && At(r) == p
  {
    ChosenKeys(rules, inp, Join(p));
    var i :| 0 <= i < |rules| && rules[i].key == Join(p);
    assert rules[i] in rules && At(rules[i]) == p;
  }

  /** Each declared key holds what its rule makes of it, and every other key what it held. */
  lemma {:induction false} ValuesMeant(doc: map<Path, string>, rules: seq<ValueRule>, inp: Inputs)
    requires DistinctKeys(rules)
    ensures
      var after := Put(doc, Choices(rules, inp));
      && after.Keys == doc.Keys
      && (forall r :: r in rules && At(r) in doc ==> ValueAsRuled(r, inp, doc[At(r)], after[At(r)]))
      && (forall p :: p in doc && (forall r :: r in rules ==> At(r) != p) ==> after[p] == doc[p])
  {
    var changed := Choices(rules, inp);
    var after := Put(doc, changed);
    forall r | r in rules && At(r) in doc ensures ValueAsRuled(r, inp, doc[At(r)], after[At(r)]) {
      var n :| 0 <= n < |rules| && rules[n] == r;
      ChoiceOfRule(rules, inp, n);
      JoinSplit(r.key);
    }
    forall p | p in doc && forall r :: r in rules ==> At(r) != p ensures after[p] == doc[p] {
      if SplitDots(Join(p)) == p && Join(p) in changed {
        ChoiceDeclared(rules, inp, p);
      }
    }
  }
}
