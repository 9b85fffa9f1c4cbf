/** The independent check of a merged text: any valid edit script against `main` must be fully explained. */
module MergeCheck {
  import opened Options
  import opened ConfigLines
  import opened ConfigMerge
  import opened DeclaredValues

  /**
   What a merged text is measured against: `main`'s lines, the value of every changed key, the comment
   lines put back, and the scalar parser.
   */
  datatype Claim = Claim(
    main: seq<string>, changed: map<string, Value>, inserts: set<string>, parse: string -> Option<Value>)

  /** `new.partition(":")[2]`. */
  function AfterColon(line: string): string {
    if FirstColon(line) < |line| then line[FirstColon(line) + 1..] else []
  }

  function KeyOf(path: Option<Path>): string {
    if path.Some? then Join(path.value) else ""
  }

  /** `line` may stand for line `i` because that line's key is declared and `line` carries its value. */
  predicate Declared(c: Claim, i: nat, line: string)
    requires i < |c.main|
  {
    var key := KeyOf(Paths(c.main)[i]);
    key in c.changed && c.parse(AfterColon(line)) == Some(c.changed[key])
  }

  predicate LineOk(c: Claim, i: nat, line: string)
    requires i < |c.main|
  {
    line == c.main[i] || Declared(c, i, line)
  }

  /**
   The line check looks only behind the colon: any key line, under whatever key, may stand for a declared
   line if its scalar is the chosen one.  A renamed key is caught by the document comparison alone.
   */
  lemma {:induction false} KeyIsNotCompared(c: Claim, i: nat, k: KeyLine)
    requires i < |c.main| && OkKey(k) && KeyOf(Paths(c.main)[i]) in c.changed
    requires c.parse(k.rest) == Some(c.changed[KeyOf(Paths(c.main)[i])])
    ensures Declared(c, i, Print(k))
  {
    ColonEndsHead(Head(k), k.rest);
    assert Print(k)[|Head(k)| + 1..] == k.rest;
  }

  /** `lines` is lines `i` to `k` of `main`, each as it was or rewritten to its value, with allowed lines in between. */
  ghost predicate Accounted(c: Claim, i: nat, k: nat, lines: seq<string>)
    requires k <= |c.main|
    decreases |lines|
  {
    if lines == [] then i == k
    else
      || (i < k && LineOk(c, i, lines[0]) && Accounted(c, i + 1, k, lines[1..]))
      || (lines[0] in c.inserts && Accounted(c, i, k, lines[1..]))
  }

  /** Where each line of `main` went; all other places hold allowed lines. */
  ghost predicate Placement(c: Claim, i: nat, k: nat, lines: seq<string>, at: seq<nat>)
    requires k <= |c.main|
  {
    && i + |at| == k
    && (forall m :: 0 <= m < |at| ==> at[m] < |lines| && LineOk(c, i + m, lines[at[m]]))
    && (forall m, n :: 0 <= m < n < |at| ==> at[m] < at[n])
    && (forall j :: 0 <= j < |lines| && j !in at ==> lines[j] in c.inserts)
  }

  /** An accounted text contains `main`'s lines in order, and nothing else but allowed lines. */
  lemma {:induction false} AccountedPlaces(c: Claim, i: nat, k: nat, lines: seq<string>) returns (at: seq<nat>)
    requires k <= |c.main| && Accounted(c, i, k, lines)
    ensures Placement(c, i, k, lines, at)
    decreases |lines|
  {
    if lines == [] {
      at := [];
    } else if i < k && LineOk(c, i, lines[0]) && Accounted(c, i + 1, k, lines[1..]) {
      var rest := AccountedPlaces(c, i + 1, k, lines[1..]);
      at := ShiftFirst(c, i, k, lines, rest);
    } else {
      var rest := AccountedPlaces(c, i, k, lines[1..]);
      at := seq(|rest|, m requires 0 <= m < |rest| => rest[m] + 1);
      forall j | 0 <= j < |lines| && j !in at ensures lines[j] in c.inserts {
        Unshifted(rest, at, j);
      }
    }
  }

  lemma {:induction false} Unshifted(rest: seq<nat>, at: seq<nat>, j: nat)
    requires |rest| == |at| && forall m :: 0 <= m < |rest| ==> at[m] == rest[m] + 1
    ensures j > 0 && j - 1 in rest ==> j in at
  {
    if j > 0 && j - 1 in rest {
      var m :| 0 <= m < |rest| && rest[m] == j - 1;
      assert at[m] == j;
    }
  }

  lemma {:induction false} ShiftFirst(c: Claim, i: nat, k: nat, lines: seq<string>, rest: seq<nat>)
    returns (at: seq<nat>)
    requires lines != [] && i < k <= |c.main| && LineOk(c, i, lines[0]) && Placement(c, i + 1, k, lines[1..], rest)
    ensures Placement(c, i, k, lines, at)
  {
    var up := seq(|rest|, m requires 0 <= m < |rest| => rest[m] + 1);
    at := [0] + up;
    forall m | 0 <= m < |at| ensures at[m] < |lines| && LineOk(c, i + m, lines[at[m]]) {
      if m > 0 {
        assert at[m] == rest[m - 1] + 1 && LineOk(c, i + 1 + (m - 1), lines[1..][rest[m - 1]]);
      }
    }
    forall j | 0 <= j < |lines| && j !in at ensures lines[j] in c.inserts {
      assert j != 0 by {
        assert at[0] == 0;
      }
      assert j !in up;
      Unshifted(rest, up, j);
      assert lines[j] == lines[1..][j - 1];
    }
  }

  lemma {:induction false} AccountedAppend(c: Claim, i: nat, m: nat, k: nat, a: seq<string>, b: seq<string>)
    requires m <= k <= |c.main| && Accounted(c, i, m, a) && Accounted(c, m, k, b)
    ensures Accounted(c, i, k, a + b)
    decreases |a|
  {
    if a == [] {
      assert a + b == b;
    } else {
      assert (a + b)[0] == a[0] && (a + b)[1..] == a[1..] + b;
      if i < m && LineOk(c, i, a[0]) && Accounted(c, i + 1, m, a[1..]) {
        AccountedAppend(c, i + 1, m, k, a[1..], b);
      } else {
        AccountedAppend(c, i, m, k, a[1..], b);
      }
    }
  }

  lemma {:induction false} AllOk(c: Claim, i: nat, lines: seq<string>)
    requires i + |lines| <= |c.main| && forall d :: 0 <= d < |lines| ==> LineOk(c, i + d, lines[d])
    ensures Accounted(c, i, i + |lines|, lines)
    decreases |lines|
  {
    if lines != [] {
      assert LineOk(c, i + 0, lines[0]);
      forall d | 0 <= d < |lines[1..]| ensures LineOk(c, i + 1 + d, lines[1..][d]) {
        assert LineOk(c, i + (d + 1), lines[d + 1]);
      }
      AllOk(c, i + 1, lines[1..]);
    }
  }

  lemma {:induction false} AllInserted(c: Claim, i: nat, lines: seq<string>)
    requires i <= |c.main| && forall x :: x in lines ==> x in c.inserts
    ensures Accounted(c, i, i, lines)
    decreases |lines|
  {
    if lines != [] {
      AllInserted(c, i, lines[1..]);
    }
  }

  // ---------- edit scripts ----------

  datatype Tag = Equal | Insert | Delete | Replace

  datatype Opcode = Opcode(tag: Tag, i1: nat, i2: nat, j1: nat, j2: nat)

  /** How far the first `k` opcodes reach in both texts. */
  function Reached(ops: seq<Opcode>, k: nat): (nat, nat)
    requires k <= |ops|
  {
    if k == 0 then (0, 0) else (ops[k - 1].i2, ops[k - 1].j2)
  }

  ghost predicate ValidOp(op: Opcode, a: seq<string>, b: seq<string>) {
    && op.i1 <= op.i2 <= |a| && op.j1 <= op.j2 <= |b|
    && match op.tag
       case Equal => a[op.i1..op.i2] == b[op.j1..op.j2]
       case Insert => op.i1 == op.i2
       case Delete => op.j1 == op.j2
       case Replace => true
  }

  /** An opcode starts where the one before it stopped. */
  ghost predicate Follows(ops: seq<Opcode>, k: nat)
    requires k < |ops|
  {
    (ops[k].i1, ops[k].j1) == Reached(ops, k)
  }

  /** Opcodes that lead from `a` to `b` without gap or overlap. */
  ghost predicate ValidScript(ops: seq<Opcode>, a: seq<string>, b: seq<string>) {
    && (forall k :: 0 <= k < |ops| ==> ValidOp(ops[k], a, b))
    && (forall k :: 0 <= k < |ops| ==> Follows(ops, k))
    && Reached(ops, |ops|) == (|a|, |b|)
  }

  /** The opcode raises no problem. */
  ghost predicate OpPasses(c: Claim, merged: seq<string>, op: Opcode)
    requires ValidOp(op, c.main, merged)
  {
    match op.tag
    case Equal => true
    case Insert => forall x :: x in merged[op.j1..op.j2] ==> x in c.inserts
    case Delete => false
    case Replace =>
      op.i2 - op.i1 == op.j2 - op.j1 && AllDeclared(c, op.i1, merged[op.j1..op.j2])
  }

  ghost predicate AllDeclared(c: Claim, i: nat, lines: seq<string>)
    requires i + |lines| <= |c.main|
  {
    forall d :: 0 <= d < |lines| ==> Declared(c, i + d, lines[d])
  }

  /** Lines equal to `main`'s stand for them. */
  lemma {:induction false} EqualIsAccounted(c: Claim, i1: nat, i2: nat)
    requires i1 <= i2 <= |c.main|
    ensures Accounted(c, i1, i2, c.main[i1..i2])
  {
    var lines := c.main[i1..i2];
    assert forall d :: 0 <= d < |lines| ==> lines[d] == c.main[i1 + d];
    AllOk(c, i1, lines);
  }

  lemma {:induction false} PassedIsAccounted(c: Claim, merged: seq<string>, op: Opcode)
    requires ValidOp(op, c.main, merged) && OpPasses(c, merged, op)
    ensures Accounted(c, op.i1, op.i2, merged[op.j1..op.j2])
  {
    match op.tag
    case Equal => EqualIsAccounted(c, op.i1, op.i2);
    case Insert => AllInserted(c, op.i1, merged[op.j1..op.j2]);
    case Replace => AllOk(c, op.i1, merged[op.j1..op.j2]);
  }

  lemma {:induction false} ReachedAccounted(c: Claim, merged: seq<string>, ops: seq<Opcode>, k: nat)
    requires ValidScript(ops, c.main, merged) && k < |ops| && OpPasses(c, merged, ops[k])
    requires Accounted(c, 0, ops[k].i1, merged[..ops[k].j1])
    ensures Accounted(c, 0, ops[k].i2, merged[..ops[k].j2])
  {
    var op := ops[k];
    PassedIsAccounted(c, merged, op);
    AccountedAppend(c, 0, op.i1, op.i2, merged[..op.j1], merged[op.j1..op.j2]);
    assert merged[..op.j1] + merged[op.j1..op.j2] == merged[..op.j2];
  }

  // ---------- the checker ----------

  datatype Issue =
    | InvalidYaml
    | DocumentDiffers
    | CommentMissing(line: string)
    | UnexpectedInsert(line: string)
    | UnexpectedDelete(i1: nat, i2: nat)
    | CountChanged(i: nat)
    | UnexpectedEdit(i: nat)
    | WrongValue(key: string)

  method CheckInserted(lines: seq<string>, inserts: set<string>) returns (problems: seq<Issue>)
    ensures problems == [] <==> forall x :: x in lines ==> x in inserts
  {
    problems := [];
    for n := 0 to |lines|
      invariant problems == [] <==> forall m :: 0 <= m < n ==> lines[m] in inserts
    {
      if lines[n] !in inserts {
        problems := problems + [UnexpectedInsert(lines[n])];
      }
    }
  }

  method CheckReplaced(c: Claim, paths: map<nat, Path>, first: nat, lines: seq<string>) returns (problems: seq<Issue>)
    requires first + |lines| <= |c.main| && paths == IndexMap(Paths(c.main))
    ensures problems == [] <==> AllDeclared(c, first, lines)
  {
    problems := [];
    for n := 0 to |lines|
      invariant problems == [] <==> forall d :: 0 <= d < n ==> Declared(c, first + d, lines[d])
    {
      var i := first + n;
      var key := if i in paths then Join(paths[i]) else "";
      assert key == KeyOf(Paths(c.main)[i]);
      assert Declared(c, first + n, lines[n]) <==>
          key in c.changed && c.parse(AfterColon(lines[n])) == Some(c.changed[key]);
      if key !in c.changed {
        problems := problems + [UnexpectedEdit(i)];
      } else if c.parse(AfterColon(lines[n])) != Some(c.changed[key]) {
        problems := problems + [WrongValue(key)];
      }
    }
  }

  method CheckOp(c: Claim, paths: map<nat, Path>, merged: seq<string>, op: Opcode) returns (problems: seq<Issue>)
    requires ValidOp(op, c.main, merged) && paths == IndexMap(Paths(c.main))
    ensures problems == [] <==> OpPasses(c, merged, op)
  {
    match op.tag {
      case Equal => problems := [];
      case Insert => problems := CheckInserted(merged[op.j1..op.j2], c.inserts);
      case Delete => problems := [UnexpectedDelete(op.i1, op.i2)];
      case Replace =>
        if op.i2 - op.i1 != op.j2 - op.j1 {
          problems := [CountChanged(op.i1 + 1)];
        } else {
          problems := CheckReplaced(c, paths, op.i1, merged[op.j1..op.j2]);
        }
    }
  }

  ghost predicate AllPass(c: Claim, merged: seq<string>, ops: seq<Opcode>, k: nat)
    requires ValidScript(ops, c.main, merged) && k <= |ops|
  {
    forall m :: 0 <= m < k ==> OpPasses(c, merged, ops[m])
  }

  lemma {:induction false} PassedScript(c: Claim, merged: seq<string>, ops: seq<Opcode>, k: nat)
    requires ValidScript(ops, c.main, merged) && k <= |ops| && AllPass(c, merged, ops, k)
    ensures var r := Reached(ops, k); r.0 <= |c.main| && r.1 <= |merged|
    ensures Accounted(c, 0, Reached(ops, k).0, merged[..Reached(ops, k).1])
    decreases k
  {
    if k > 0 {
      PassedScript(c, merged, ops, k - 1);
      assert Follows(ops, k - 1);
      ReachedAccounted(c, merged, ops, k - 1);
    }
  }

  /** The line check is silent exactly when every opcode passes, and then the merged text is accounted for. */
  method CheckLines(c: Claim, merged: seq<string>, ops: seq<Opcode>) returns (problems: seq<Issue>)
    requires ValidScript(ops, c.main, merged)
    ensures problems == [] <==> AllPass(c, merged, ops, |ops|)
    ensures problems == [] ==> Accounted(c, 0, |c.main|, merged)
  {
    problems := [];
    var paths := PathMap(c.main);
    for k := 0 to |ops|
      invariant problems == [] <==> AllPass(c, merged, ops, k)
    {
      var found := CheckOp(c, paths, merged, ops[k]);
      problems := problems + found;
    }
    if problems == [] {
      PassedScript(c, merged, ops, |ops|);
      assert merged[..|merged|] == merged;
    }
  }

  method CheckPreserved(preserved: seq<seq<string>>, merged: seq<string>) returns (problems: seq<Issue>)
    ensures problems == [] <==> forall x :: x in Inserts(preserved) ==> x in merged
  {
    problems := [];
    for n := 0 to |preserved|
      invariant problems == [] <==> forall m, l :: 0 <= m < n && 0 <= l < |preserved[m]| ==> preserved[m][l] in merged
    {
      for p := 0 to |preserved[n]|
        invariant problems == [] <==>
          (forall m, l :: 0 <= m < n && 0 <= l < |preserved[m]| ==> preserved[m][l] in merged)
          && (forall l :: 0 <= l < p ==> preserved[n][l] in merged)
      {
        if preserved[n][p] !in merged {
          problems := problems + [CommentMissing(preserved[n][p])];
        }
      }
    }
  }

  function Inserts(preserved: seq<seq<string>>): set<string> {
    set m, l | 0 <= m < |preserved| && 0 <= l < |preserved[m]| :: preserved[m][l]
  }

  /**
   `verify_merged`.  `sameDocument` is what the YAML parser says: nothing if the merged text does not
   parse, otherwise whether its document is the intended one.
   */
  method VerifyMerged(
    c: Claim, merged: seq<string>, preserved: seq<seq<string>>, sameDocument: Option<bool>, ops: seq<Opcode>)
    returns (problems: seq<Issue>)
    requires ValidScript(ops, c.main, merged) && c.inserts == Inserts(preserved)
    ensures problems == [] <==>
      && sameDocument == Some(true)
      && (forall x :: x in c.inserts ==> x in merged)
      && AllPass(c, merged, ops, |ops|)
    ensures problems == [] ==> Accounted(c, 0, |c.main|, merged)
  {
    if sameDocument.None? {
      return [InvalidYaml];
    }
    var documents := if sameDocument.value then [] else [DocumentDiffers];
    var missing := CheckPreserved(preserved, merged);
    var edits := CheckLines(c, merged, ops);
    problems := documents + missing + edits;
  }
}
