/** Carrying the declared live values over into `main`'s lines. */
module DeclaredValues {
  import opened Options
  import opened Sequences
  import opened ConfigLines
  import opened ConfigMerge

  /** A key whose live value must survive; an operator choice may be overridden. */
  datatype ValueRule = ValueRule(key: string, operatorChoice: bool)

  function SplitDots(key: string): (r: Path)
    ensures r != []
  {
    if key == [] then [""]
    else
      var rest := SplitDots(key[1..]);
      if key[0] == '.' then [""] + rest else [[key[0]] + rest[0]] + rest[1..]
  }

  function Join(path: Path): string {
    if path == [] then "" else if |path| == 1 then path[0] else path[0] + "." + Join(path[1..])
  }

  /** Splitting leaves no dot, and joining undoes it; so two rules with one path have one key. */
  lemma {:induction false} JoinSplit(key: string)
    ensures Join(SplitDots(key)) == key
    ensures forall i :: 0 <= i < |SplitDots(key)| ==> '.' !in SplitDots(key)[i]
    decreases |key|
  {
    if key != [] {
      var rest := SplitDots(key[1..]);
      JoinSplit(key[1..]);
      if key[0] == '.' {
        assert ([""] + rest)[1..] == rest;
        assert Join([""] + rest) == "." + Join(rest);
      } else {
        var first := [key[0]] + rest[0];
        var r := [first] + rest[1..];
        assert r[1..] == rest[1..];
        if |rest| > 1 {
          assert Join(r) == [key[0]] + (rest[0] + "." + Join(rest[1..]));
        }
      }
    }
  }

  function At(rule: ValueRule): Path {
    SplitDots(rule.key)
  }

  datatype Inputs = Inputs(mainDoc: map<Path, Value>, localDoc: map<Path, Value>, queueTimeout: Option<Value>)

  datatype Problem = NoSuchKey(path: Path) | NoKeyLine(path: Path)

  /** The value the merged file must carry for a rule, when it is not `main`'s own. */
  function Chosen(rule: ValueRule, inp: Inputs): Option<Value> {
    if At(rule) !in inp.mainDoc then None
    else
      var main := inp.mainDoc[At(rule)];
      var wanted := if rule.operatorChoice && inp.queueTimeout.Some? then inp.queueTimeout.value
                    else if At(rule) in inp.localDoc then inp.localDoc[At(rule)]
                    else main;
      if wanted == main then None else Some(wanted)
  }

  /** The entries after one declared value is set, on the first line with its path. */
  function WithValue(lines: seq<string>, es: seq<Pair>, rule: ValueRule, inp: Inputs): seq<Pair> {
    var at := FindKey(Paths(lines), At(rule));
    var chosen := Chosen(rule, inp);
    if chosen.None? || at.None? then es
    else
      var e := EntryIndex(lines, at.value);
      if e < |es| then es[e := Pair(es[e].path, FormatScalar(chosen.value))] else es
  }

  function WithValues(lines: seq<string>, es: seq<Pair>, rules: seq<ValueRule>, inp: Inputs): seq<Pair>
    decreases |rules|
  {
    if rules == [] then es
    else WithValue(lines, WithValues(lines, es, rules[..|rules| - 1], inp), rules[|rules| - 1], inp)
  }

  lemma {:induction false} WithValuesNext(lines: seq<string>, es: seq<Pair>, rules: seq<ValueRule>, k: nat, inp: Inputs)
    requires k < |rules|
    ensures WithValues(lines, es, rules[..k + 1], inp)
         == WithValue(lines, WithValues(lines, es, rules[..k], inp), rules[k], inp)
  {
    NextPrefix(rules, k);
  }

  predicate OkInputs(inp: Inputs) {
    && (forall p :: p in inp.localDoc ==> OkValue(inp.localDoc[p]))
    && (inp.queueTimeout.Some? ==> OkValue(inp.queueTimeout.value))
  }

  /** Every declared key line in `lines` carries a scalar, not a nested block. */
  ghost predicate DeclaredScalars(lines: seq<string>, rules: seq<ValueRule>) {
    forall i, r :: 0 <= i < |lines| && r in rules && Paths(lines)[i] == Some(At(r)) ==>
      Read(lines[i]).Some? && !IsBlank(Read(lines[i]).value.rest)
  }

  /** `b` is `a` with some scalar lines rewritten: same paths, same positions, same comments. */
  ghost predicate SameShape(a: seq<string>, b: seq<string>) {
    && |a| == |b| && Paths(a) == Paths(b)
    && forall i :: 0 <= i <= |a| ==> EntryIndex(a, i) == EntryIndex(b, i)
  }

  lemma {:induction false} StillScalars(lines: seq<string>, rules: seq<ValueRule>, i: nat, x: string)
    requires DeclaredScalars(lines, rules) && i < |lines|
    requires Read(x).Some? && !IsBlank(Read(x).value.rest) && Paths(lines[i := x]) == Paths(lines)
    ensures DeclaredScalars(lines[i := x], rules)
  {
  }

  lemma {:induction false} RewriteStep(
    main: seq<string>, lines: seq<string>, rules: seq<ValueRule>, i: nat, path: Path, v: Value)
    requires SameShape(main, lines) && DeclaredScalars(lines, rules) && OkValue(v)
    requires i < |lines| && Paths(main)[i] == Some(path) && exists r :: r in rules && At(r) == path
    ensures
      var lines' := lines[i := ReplaceValueLine(lines[i], v)];
      var e := EntryIndex(main, i);
      && SameShape(main, lines') && DeclaredScalars(lines', rules)
      && e < |Entries(lines)| && Entries(lines') == Entries(lines)[e := Pair(Entries(lines)[e].path, FormatScalar(v))]
  {
    assert Paths(lines)[i] == Some(path);
    var r :| r in rules && At(r) == path;
    assert Read(lines[i]).Some? && !IsBlank(Read(lines[i]).value.rest);
    RewriteChangesOneEntry(lines, i, v);
    RewrittenLine(lines[i], v);
    var lines' := lines[i := ReplaceValueLine(lines[i], v)];
    RewriteKeepsShape(lines, i, v, 0);
    StillScalars(lines, rules, i, lines'[i]);
    forall j | 0 <= j <= |lines| ensures EntryIndex(lines', j) == EntryIndex(lines, j) {
      RewriteKeepsShape(lines, i, v, j);
    }
  }

  datatype Action = TakeMain | Same | KeepLocal | OperatorChoice

  /** What was decided for one declared key. */
  datatype Delta = Delta(key: string, main: Value, chosen: Value, action: Action)

  /** `rewrites_main`. */
  predicate Rewrites(d: Delta) {
    (d.action == KeepLocal || d.action == OperatorChoice) && d.chosen != d.main
  }

  /** The rule's key is unknown to `main`, or must be located and cannot be. */
  ghost predicate Refused(main: seq<string>, rule: ValueRule, inp: Inputs) {
    At(rule) !in inp.mainDoc || (NeedsLine(rule, inp) && Some(At(rule)) !in Paths(main))
  }

  /** The branches that look the key line up: an override, or a live value that differs. */
  predicate NeedsLine(rule: ValueRule, inp: Inputs) {
    || (rule.operatorChoice && inp.queueTimeout.Some?)
    || (At(rule) in inp.mainDoc && At(rule) in inp.localDoc && inp.localDoc[At(rule)] != inp.mainDoc[At(rule)])
  }

  /** The deltas that rewrite, by key; a later one replaces an earlier one. */
  function Changed(deltas: seq<Delta>): map<string, Value> {
    if deltas == [] then map[]
    else
      var d := deltas[|deltas| - 1];
      var before := Changed(deltas[..|deltas| - 1]);
      if Rewrites(d) then before[d.key := d.chosen] else before
  }

  /** The choices that differ from `main`. */
  function Choices(rules: seq<ValueRule>, inp: Inputs): map<string, Value> {
    if rules == [] then map[]
    else
      var r := rules[|rules| - 1];
      var before := Choices(rules[..|rules| - 1], inp);
      var chosen := Chosen(r, inp);
      if chosen.Some? then before[r.key := chosen.value] else before
  }

  /** A key line that reads back as the printed value. */
  ghost predicate Carries(line: string, v: Value) {
    Read(line).Some? && ScalarText(Read(line).value.rest) == FormatScalar(v)
  }

  /** No key is declared twice. */
  ghost predicate DistinctKeys(rules: seq<ValueRule>) {
    forall i, j :: 0 <= i < j < |rules| ==> rules[i].key != rules[j].key
  }

  /**
   The line is `main`'s, or is the key line of a changed key and carries the key's value; `exact`: it is then
   `main`'s line with just the value replaced.
   */
  ghost predicate LineSet(main: seq<string>, i: nat, line: string, changed: map<string, Value>, exact: bool)
    requires i < |main|
  {
    line == main[i] ||
    exists key ::
      && key in changed && FindKey(Paths(main), SplitDots(key)) == Some(i) && Carries(line, changed[key])
      && (exact ==> line == ReplaceValueLine(main[i], changed[key]))
  }

  /** Nothing but the key lines of changed keys differs, and those carry the chosen value. */
  ghost predicate OnlyDeclared(main: seq<string>, merged: seq<string>, changed: map<string, Value>, exact: bool) {
    |merged| == |main| && forall i :: 0 <= i < |main| ==> LineSet(main, i, merged[i], changed, exact)
  }

  /** The first `k` declared values are set, and the text still has `main`'s shape. */
  ghost predicate ValuesSet(main: seq<string>, merged: seq<string>, rules: seq<ValueRule>, k: nat, inp: Inputs)
    requires k <= |rules|
  {
    && SameShape(main, merged) && DeclaredScalars(merged, rules)
    && Entries(merged) == WithValues(main, Entries(main), rules[..k], inp)
  }

  lemma {:induction false} SetOne(
    main: seq<string>, merged: seq<string>, rules: seq<ValueRule>, k: nat, inp: Inputs, i: nat, v: Value)
    requires k < |rules| && ValuesSet(main, merged, rules, k, inp) && OkValue(v)
    requires Chosen(rules[k], inp) == Some(v) && FindKey(Paths(main), At(rules[k])) == Some(i)
    ensures ValuesSet(main, merged[i := ReplaceValueLine(merged[i], v)], rules, k + 1, inp)
  {
    WithValuesNext(main, Entries(main), rules, k, inp);
    RewriteStep(main, merged, rules, i, At(rules[k]), v);
  }

  lemma {:induction false} SkipOne(main: seq<string>, merged: seq<string>, rules: seq<ValueRule>, k: nat, inp: Inputs)
    requires k < |rules| && ValuesSet(main, merged, rules, k, inp)
    requires Chosen(rules[k], inp).None? || FindKey(Paths(main), At(rules[k])).None?
    ensures ValuesSet(main, merged, rules, k + 1, inp)
  {
    WithValuesNext(main, Entries(main), rules, k, inp);
  }

  /** Choosing a value for one key leaves the lines of other keys in order. */
  lemma {:induction false} LineStays(
    main: seq<string>, i: nat, line: string, changed: map<string, Value>, key: string, v: Value, exact: bool)
    requires i < |main| && LineSet(main, i, line, changed, exact) && FindKey(Paths(main), SplitDots(key)) != Some(i)
    ensures LineSet(main, i, line, changed[key := v], exact)
  {
    if line != main[i] {
      var k :|
        && k in changed && FindKey(Paths(main), SplitDots(k)) == Some(i) && Carries(line, changed[k])
        && (exact ==> line == ReplaceValueLine(main[i], changed[k]));
      assert changed[key := v][k] == changed[k];
    }
  }

  /** The line of the key itself takes the new value, whether or not it was rewritten before. */
  lemma {:induction false} LineWritten(
    main: seq<string>, i: nat, line: string, changed: map<string, Value>, key: string, v: Value, exact: bool)
    requires i < |main| && LineSet(main, i, line, changed, exact)
    requires FindKey(Paths(main), SplitDots(key)) == Some(i) && OkValue(v)
    requires exact ==> key !in changed
    ensures LineSet(main, i, ReplaceValueLine(line, v), changed[key := v], exact)
  {
    PathThere(main, i);
    RewrittenLine(line, v);
    assert Carries(ReplaceValueLine(line, v), changed[key := v][key]);
    if exact && line != main[i] {
      var k :| k in changed && FindKey(Paths(main), SplitDots(k)) == Some(i);
      JoinSplit(k);
      JoinSplit(key);
      assert false;
    }
  }

  lemma {:induction false} WriteDeclared(
    main: seq<string>, merged: seq<string>, changed: map<string, Value>, key: string, v: Value, exact: bool)
    requires OnlyDeclared(main, merged, changed, exact) && OkValue(v) && (exact ==> key !in changed)
    ensures
      var at := FindKey(Paths(main), SplitDots(key));
      var merged' := if at.Some? then merged[at.value := ReplaceValueLine(merged[at.value], v)] else merged;
      OnlyDeclared(main, merged', changed[key := v], exact)
  {
    var at := FindKey(Paths(main), SplitDots(key));
    var merged' := if at.Some? then merged[at.value := ReplaceValueLine(merged[at.value], v)] else merged;
    forall i | 0 <= i < |main| ensures LineSet(main, i, merged'[i], changed[key := v], exact) {
      if at == Some(i) {
        LineWritten(main, i, merged[i], changed, key, v, exact);
      } else {
        LineStays(main, i, merged[i], changed, key, v, exact);
      }
    }
  }

  // ---------- the rewriting as a function ----------

  function WithChoice(changed: map<string, Value>, rule: ValueRule, inp: Inputs): map<string, Value> {
    var chosen := Chosen(rule, inp);
    if chosen.Some? then changed[rule.key := chosen.value] else changed
  }

  /** The choice goes into the first line with the key's path in `main`; without one nothing is written. */
  function WithLine(main: seq<string>, merged: seq<string>, rule: ValueRule, inp: Inputs): (r: seq<string>)
    ensures |r| == |merged|
  {
    var chosen, at := Chosen(rule, inp), FindKey(Paths(main), At(rule));
    if chosen.Some? && at.Some? && at.value < |merged|
    then merged[at.value := ReplaceValueLine(merged[at.value], chosen.value)] else merged
  }

  function WithLines(main: seq<string>, rules: seq<ValueRule>, inp: Inputs): (r: seq<string>)
    ensures |r| == |main|
  {
    if rules == [] then main
    else WithLine(main, WithLines(main, rules[..|rules| - 1], inp), rules[|rules| - 1], inp)
  }

  lemma {:induction false} ChoiceOk(rule: ValueRule, inp: Inputs)
    requires OkInputs(inp) && Chosen(rule, inp).Some?
    ensures OkValue(Chosen(rule, inp).value)
  {
  }

  lemma {:induction false} ChosenKeys(rules: seq<ValueRule>, inp: Inputs, key: string)
    requires key in Choices(rules, inp)
    ensures exists i :: 0 <= i < |rules| && rules[i].key == key
    decreases |rules|
  {
    var n := |rules| - 1;
    if rules[n].key != key {
      ChosenKeys(rules[..n], inp, key);
      var i :| 0 <= i < n && rules[..n][i].key == key;
      assert rules[i].key == key;
    }
  }

  lemma {:induction false} NotYetChosen(rules: seq<ValueRule>, k: nat, inp: Inputs)
    requires DistinctKeys(rules) && k < |rules|
    ensures rules[k].key !in Choices(rules[..k], inp)
  {
    if rules[k].key in Choices(rules[..k], inp) {
      ChosenKeys(rules[..k], inp, rules[k].key);
    }
  }

  /** Only the key lines of changed keys differ from `main`, and carry the chosen value. */
  lemma {:induction false} LinesDeclared(main: seq<string>, rules: seq<ValueRule>, inp: Inputs)
    requires OkInputs(inp)
    ensures OnlyDeclared(main, WithLines(main, rules, inp), Choices(rules, inp), DistinctKeys(rules))
    decreases |rules|
  {
    if rules != [] {
      var n := |rules| - 1;
      var before, changed := WithLines(main, rules[..n], inp), Choices(rules[..n], inp);
      LinesDeclared(main, rules[..n], inp);
      Weaker(main, before, changed, DistinctKeys(rules[..n]), DistinctKeys(rules));
      if Chosen(rules[n], inp).Some? {
        ChoiceOk(rules[n], inp);
        if DistinctKeys(rules) {
          NotYetChosen(rules, n, inp);
        }
        WriteDeclared(main, before, changed, rules[n].key, Chosen(rules[n], inp).value, DistinctKeys(rules));
      }
    }
  }

  lemma {:induction false} Weaker(
    main: seq<string>, merged: seq<string>, changed: map<string, Value>, exact: bool, exact': bool)
    requires OnlyDeclared(main, merged, changed, exact) && (exact' ==> exact)
    ensures OnlyDeclared(main, merged, changed, exact')
  {
    forall i | 0 <= i < |main| ensures LineSet(main, i, merged[i], changed, exact') {
      assert LineSet(main, i, merged[i], changed, exact);
    }
  }

  /** If every declared line carries a scalar, the document after `k` rules has exactly their choices set. */
  lemma {:induction false} LinesSetValues(main: seq<string>, rules: seq<ValueRule>, k: nat, inp: Inputs)
    requires OkInputs(inp) && DeclaredScalars(main, rules) && k <= |rules|
    ensures ValuesSet(main, WithLines(main, rules[..k], inp), rules, k, inp)
    decreases k
  {
    if k > 0 {
      var n := k - 1;
      var before := WithLines(main, rules[..n], inp);
      LinesSetValues(main, rules, n, inp);
      NextPrefix(rules, n);
      var chosen, at := Chosen(rules[n], inp), FindKey(Paths(main), At(rules[n]));
      if chosen.Some? && at.Some? {
        ChoiceOk(rules[n], inp);
        SetOne(main, before, rules, n, inp, at.value, chosen.value);
      } else {
        SkipOne(main, before, rules, n, inp);
      }
    }
  }

  // ---------- what is written where, rule by rule ----------

  lemma {:induction false} OtherLine(main: seq<string>, rules: seq<ValueRule>, inp: Inputs, i: nat)
    requires i < |main| && forall r :: r in rules ==> FindKey(Paths(main), At(r)) != Some(i)
    ensures WithLines(main, rules, inp)[i] == main[i]
    decreases |rules|
  {
    if rules != [] {
      var n := |rules| - 1;
      assert rules[n] in rules;
      assert forall r :: r in rules[..n] ==> r in rules;
      OtherLine(main, rules[..n], inp, i);
    }
  }

  /** Two rules that are found on one line have one key. */
  lemma {:induction false} OneKeyPerLine(main: seq<string>, a: ValueRule, b: ValueRule, i: nat)
    requires FindKey(Paths(main), At(a)) == Some(i) && FindKey(Paths(main), At(b)) == Some(i)
    ensures a.key == b.key
  {
    JoinSplit(a.key);
    JoinSplit(b.key);
  }

  lemma {:induction false} NoneBefore(main: seq<string>, rules: seq<ValueRule>, m: nat, i: nat)
    requires DistinctKeys(rules) && m < |rules| && FindKey(Paths(main), At(rules[m])) == Some(i)
    ensures forall r :: r in rules[..m] ==> FindKey(Paths(main), At(r)) != Some(i)
  {
    forall r | r in rules[..m] ensures FindKey(Paths(main), At(r)) != Some(i) {
      var j :| 0 <= j < m && rules[j] == r;
      if FindKey(Paths(main), At(r)) == Some(i) {
        OneKeyPerLine(main, r, rules[m], i);
      }
    }
  }

  lemma {:induction false} LineOfRule(main: seq<string>, rules: seq<ValueRule>, inp: Inputs, n: nat, i: nat)
    requires DistinctKeys(rules) && n < |rules| && i < |main| && FindKey(Paths(main), At(rules[n])) == Some(i)
    ensures WithLines(main, rules, inp)[i] ==
      if Chosen(rules[n], inp).Some? then ReplaceValueLine(main[i], Chosen(rules[n], inp).value) else main[i]
    decreases |rules|
  {
    var m := |rules| - 1;
    var before := WithLines(main, rules[..m], inp);
    assert WithLines(main, rules, inp) == WithLine(main, before, rules[m], inp);
    if n == m {
      NoneBefore(main, rules, m, i);
      OtherLine(main, rules[..m], inp, i);
    } else {
      LineOfRule(main, rules[..m], inp, n, i);
      assert FindKey(Paths(main), At(rules[m])) != Some(i) by {
        if FindKey(Paths(main), At(rules[m])) == Some(i) {
          OneKeyPerLine(main, rules[n], rules[m], i);
        }
      }
    }
  }

  /**
   What a rule makes of its line in `main`: the operator's timeout if the rule gives way to it and it differs from
   `main`'s value, else the live value if there is one and it differs, else the line as it is.
   */
  predicate LineAsRuled(r: ValueRule, inp: Inputs, line: string, line': string) {
    if At(r) !in inp.mainDoc then line' == line
    else if r.operatorChoice && inp.queueTimeout.Some? then
      line' == if inp.queueTimeout.value == inp.mainDoc[At(r)] then line
               else ReplaceValueLine(line, inp.queueTimeout.value)
    else if At(r) in inp.localDoc && inp.localDoc[At(r)] != inp.mainDoc[At(r)] then
      line' == ReplaceValueLine(line, inp.localDoc[At(r)])
    else line' == line
  }

  lemma {:induction false} LineMeant(main: seq<string>, rules: seq<ValueRule>, inp: Inputs, r: ValueRule)
    requires DistinctKeys(rules) && r in rules && FindKey(Paths(main), At(r)).Some?
    ensures var i := FindKey(Paths(main), At(r)).value;
      LineAsRuled(r, inp, main[i], WithLines(main, rules, inp)[i])
  {
    var n :| 0 <= n < |rules| && rules[n] == r;
    LineOfRule(main, rules, inp, n, FindKey(Paths(main), At(r)).value);
  }

  lemma {:induction false} LinesMeant(main: seq<string>, rules: seq<ValueRule>, inp: Inputs)
    ensures rules[..|rules|] == rules
    ensures
      var merged := WithLines(main, rules, inp);
      DistinctKeys(rules) ==> forall r :: r in rules && FindKey(Paths(main), At(r)).Some? ==>
        var i := FindKey(Paths(main), At(r)).value; LineAsRuled(r, inp, main[i], merged[i])
    ensures forall i :: 0 <= i < |main| && (forall r :: r in rules ==> FindKey(Paths(main), At(r)) != Some(i)) ==>
      WithLines(main, rules, inp)[i] == main[i]
  {
    if DistinctKeys(rules) {
      forall r | r in rules && FindKey(Paths(main), At(r)).Some? {
        LineMeant(main, rules, inp, r);
      }
    }
    forall i | 0 <= i < |main| && forall r :: r in rules ==> FindKey(Paths(main), At(r)) != Some(i) {
      OtherLine(main, rules, inp, i);
    }
  }

  // ---------- the loop ----------

  /** One declared value: refused, left as it is, or written into its line. */
  method ApplyRule(main: seq<string>, merged: seq<string>, rule: ValueRule, inp: Inputs)
    returns (merged': seq<string>, delta: Option<Delta>, problem: Option<Problem>)
    requires |merged| == |main|
    ensures merged' == WithLine(main, merged, rule, inp)
    ensures match FindKey(Paths(main), At(rule))
      case None => merged' == merged
      case Some(i) => LineAsRuled(rule, inp, merged[i], merged'[i]) && merged' == merged[i := merged'[i]]
    ensures problem.Some? <==> Refused(main, rule, inp)
    ensures delta.Some? <==> At(rule) in inp.mainDoc
    ensures delta.Some? ==> delta.value.key == rule.key
    ensures delta.Some? ==> Chosen(rule, inp) == if Rewrites(delta.value) then Some(delta.value.chosen) else None
  {
    merged', delta, problem := merged, None, None;
    if At(rule) !in inp.mainDoc {
      problem := Some(NoSuchKey(At(rule)));
      return;
    }
    var mainValue := inp.mainDoc[At(rule)];
    if rule.operatorChoice && inp.queueTimeout.Some? {
      delta := Some(Delta(rule.key, mainValue, inp.queueTimeout.value, OperatorChoice));
      var index := FindKey(Paths(main), At(rule));
      if index.None? {
        problem := Some(NoKeyLine(At(rule)));
      } else if inp.queueTimeout.value != mainValue {
        merged' := merged[index.value := ReplaceValueLine(merged[index.value], inp.queueTimeout.value)];
      }
      return;
    }
    if At(rule) !in inp.localDoc {
      delta := Some(Delta(rule.key, mainValue, mainValue, TakeMain));
      return;
    }
    var localValue := inp.localDoc[At(rule)];
    if localValue == mainValue {
      delta := Some(Delta(rule.key, mainValue, mainValue, Same));
      return;
    }
    delta := Some(Delta(rule.key, mainValue, localValue, if rule.operatorChoice then OperatorChoice else KeepLocal));
    var index := FindKey(Paths(main), At(rule));
    if index.None? {
      problem := Some(NoKeyLine(At(rule)));
    } else {
      merged' := merged[index.value := ReplaceValueLine(merged[index.value], localValue)];
    }
  }

  lemma {:induction false} RefusedExact(main: seq<string>, rules: seq<ValueRule>, inp: Inputs)
    ensures NoneRefused(main, rules, inp) <==> forall r :: r in rules ==>
      && At(r) in inp.mainDoc
      && (Some(At(r)) in Paths(main) ||
          (!(r.operatorChoice && inp.queueTimeout.Some?)
           && (At(r) in inp.localDoc ==> inp.localDoc[At(r)] == inp.mainDoc[At(r)])))
  {
  }

  ghost predicate NoneRefused(main: seq<string>, rules: seq<ValueRule>, inp: Inputs) {
    forall r :: r in rules ==> !Refused(main, r, inp)
  }

  lemma {:induction false} WithLinesNext(main: seq<string>, rules: seq<ValueRule>, k: nat, inp: Inputs)
    requires k < |rules|
    ensures WithLines(main, rules[..k + 1], inp) == WithLine(main, WithLines(main, rules[..k], inp), rules[k], inp)
  {
    NextPrefix(rules, k);
  }

  lemma {:induction false} RefusedNext(main: seq<string>, rules: seq<ValueRule>, k: nat, inp: Inputs)
    requires k < |rules|
    ensures NoneRefused(main, rules[..k + 1], inp) <==>
      NoneRefused(main, rules[..k], inp) && !Refused(main, rules[k], inp)
  {
    NextPrefix(rules, k);
    assert rules[k] in rules[..k + 1];
    assert forall r :: r in rules[..k + 1] <==> r in rules[..k] || r == rules[k];
  }

  function Also<T>(found: seq<T>, next: Option<T>): seq<T> {
    if next.Some? then found + [next.value] else found
  }

  lemma {:induction false} DeltaAdded(
    deltas: seq<Delta>, rules: seq<ValueRule>, k: nat, inp: Inputs, delta: Option<Delta>)
    requires k < |rules| && Changed(deltas) == Choices(rules[..k], inp)
    requires delta.Some? <==> At(rules[k]) in inp.mainDoc
    requires delta.Some? ==> delta.value.key == rules[k].key
    requires delta.Some? ==> Chosen(rules[k], inp) == if Rewrites(delta.value) then Some(delta.value.chosen) else None
    ensures Changed(Also(deltas, delta)) == Choices(rules[..k + 1], inp)
  {
    NextPrefix(rules, k);
    if delta.Some? {
      LastOfAppend(deltas, delta.value);
    }
  }

  /** What the loop has gathered after `k` rules. */
  ghost predicate Gathered(main: seq<string>, rules: seq<ValueRule>, k: nat, inp: Inputs,
                           merged: seq<string>, deltas: seq<Delta>, problems: seq<Problem>)
    requires k <= |rules|
  {
    && merged == WithLines(main, rules[..k], inp)
    && Changed(deltas) == Choices(rules[..k], inp)
    && (problems == [] <==> NoneRefused(main, rules[..k], inp))
  }

  lemma {:induction false} GatheredNext(main: seq<string>, rules: seq<ValueRule>, k: nat, inp: Inputs,
                                        merged: seq<string>, deltas: seq<Delta>, problems: seq<Problem>,
                                        delta: Option<Delta>, problem: Option<Problem>)
    requires k < |rules| && Gathered(main, rules, k, inp, merged, deltas, problems)
    requires problem.Some? <==> Refused(main, rules[k], inp)
    requires delta.Some? <==> At(rules[k]) in inp.mainDoc
    requires delta.Some? ==> delta.value.key == rules[k].key
    requires delta.Some? ==> Chosen(rules[k], inp) == if Rewrites(delta.value) then Some(delta.value.chosen) else None
    ensures Gathered(main, rules, k + 1, inp,
              WithLine(main, merged, rules[k], inp), Also(deltas, delta), Also(problems, problem))
  {
    WithLinesNext(main, rules, k, inp);
    RefusedNext(main, rules, k, inp);
    DeltaAdded(deltas, rules, k, inp, delta);
  }

  lemma {:induction false} GatheredDone(main: seq<string>, rules: seq<ValueRule>, inp: Inputs,
                                        merged: seq<string>, deltas: seq<Delta>, problems: seq<Problem>)
    requires OkInputs(inp) && Gathered(main, rules, |rules|, inp, merged, deltas, problems)
    ensures OnlyDeclared(main, merged, Changed(deltas), DistinctKeys(rules)) && Changed(deltas) == Choices(rules, inp)
    ensures DeclaredScalars(main, rules) ==>
      Entries(merged) == WithValues(main, Entries(main), rules, inp) && Paths(merged) == Paths(main)
    ensures problems == [] <==> NoneRefused(main, rules, inp)
  {
    assert rules[..|rules|] == rules;
    LinesDeclared(main, rules, inp);
    if DeclaredScalars(main, rules) {
      LinesSetValues(main, rules, |rules|, inp);
    }
  }

  /**
   The loop over the declared values.  If every declared line carries a scalar, the document becomes
   `main`'s with exactly the chosen values set; and only their lines are touched.  With distinct keys each line is,
   by its own rule, `main`'s or `main`'s with the operator's timeout or the live value in it.
   */
  method RewriteValues(main: seq<string>, rules: seq<ValueRule>, inp: Inputs)
    returns (merged: seq<string>, deltas: seq<Delta>, problems: seq<Problem>)
    requires OkInputs(inp)
    ensures OnlyDeclared(main, merged, Changed(deltas), DistinctKeys(rules)) && Changed(deltas) == Choices(rules, inp)
    ensures DeclaredScalars(main, rules) ==>
      Entries(merged) == WithValues(main, Entries(main), rules, inp) && Paths(merged) == Paths(main)
    ensures problems == [] <==> forall r :: r in rules ==>
      && At(r) in inp.mainDoc
      && (Some(At(r)) in Paths(main) ||
          (!(r.operatorChoice && inp.queueTimeout.Some?)
           && (At(r) in inp.localDoc ==> inp.localDoc[At(r)] == inp.mainDoc[At(r)])))
    ensures |merged| == |main|
    ensures DistinctKeys(rules) ==> forall r :: r in rules && FindKey(Paths(main), At(r)).Some? ==>
      var i := FindKey(Paths(main), At(r)).value; LineAsRuled(r, inp, main[i], merged[i])
    ensures forall i :: 0 <= i < |main| && (forall r :: r in rules ==> FindKey(Paths(main), At(r)) != Some(i)) ==>
      merged[i] == main[i]
  {
    merged, deltas, problems := main, [], [];
    var k := 0;
    while k < |rules|
      invariant 0 <= k <= |rules| && Gathered(main, rules, k, inp, merged, deltas, problems)
    {
      ghost var before := merged;
      var delta, problem;
      merged, delta, problem := ApplyRule(main, merged, rules[k], inp);
      GatheredNext(main, rules, k, inp, before, deltas, problems, delta, problem);
      deltas, problems := Also(deltas, delta), Also(problems, problem);
      k := k + 1;
    }
    GatheredDone(main, rules, inp, merged, deltas, problems);
    LinesMeant(main, rules, inp);
    RefusedExact(main, rules, inp);
  }
}
