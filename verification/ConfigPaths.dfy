/** What a key's path is, without the reader's stack: the keys of the headers that enclose its line. */
module ConfigPaths {
  import opened Options
  import opened ConfigLines

  predicate IsKey(lines: seq<string>, i: nat)
    requires i < |lines|
  {
    Read(lines[i]).Some?
  }

  function IndentOf(lines: seq<string>, i: nat): nat
    requires i < |lines| && IsKey(lines, i)
  {
    Read(lines[i]).value.indent
  }

  function KeyOf(lines: seq<string>, i: nat): string
    requires i < |lines| && IsKey(lines, i)
  {
    Read(lines[i]).value.key
  }

  /** A key line with nothing behind its colon. */
  predicate IsHeader(lines: seq<string>, i: nat)
    requires i < |lines|
  {
    IsKey(lines, i) && IsBlank(Read(lines[i]).value.rest)
  }

  /** The header's block is still open before line `n`: every key line since is indented deeper. */
  ghost predicate StillOpen(lines: seq<string>, n: nat, j: nat)
    requires n <= |lines|
  {
    j < n && IsHeader(lines, j) && forall m :: j < m < n && IsKey(lines, m) ==> IndentOf(lines, m) > IndentOf(lines, j)
  }

  /** Line `j` is a header that encloses the key line `i`. */
  ghost predicate Encloses(lines: seq<string>, i: nat, j: nat)
    requires i < |lines| && IsKey(lines, i)
  {
    StillOpen(lines, i, j) && IndentOf(lines, j) < IndentOf(lines, i)
  }

  ghost predicate Listed(js: seq<nat>) {
    forall a, b :: 0 <= a < b < |js| ==> js[a] < js[b]
  }

  /** The stack holds exactly the open headers `js`, each deeper than the one before. */
  ghost predicate StackIs(lines: seq<string>, n: nat, stack: seq<Item>, js: seq<nat>)
    requires n <= |lines|
  {
    ItemsOf(lines, n, stack, js) && forall j: nat :: StillOpen(lines, n, j) <==> j in js
  }

  ghost predicate ItemsOf(lines: seq<string>, n: nat, stack: seq<Item>, js: seq<nat>)
    requires n <= |lines|
  {
    && |js| == |stack| && Listed(js) && Deepening(stack)
    && forall k :: 0 <= k < |js| ==>
         js[k] < n && IsHeader(lines, js[k]) && stack[k] == Item(IndentOf(lines, js[k]), KeyOf(lines, js[k]))
  }

  lemma {:induction false} ItemsPrefix(lines: seq<string>, n: nat, stack: seq<Item>, js: seq<nat>, c: nat)
    requires n < |lines| && ItemsOf(lines, n, stack, js) && c <= |stack|
    ensures ItemsOf(lines, n + 1, stack[..c], js[..c])
  {
  }

  lemma {:induction false} ItemsSnoc(lines: seq<string>, n: nat, stack: seq<Item>, js: seq<nat>)
    requires n < |lines| && ItemsOf(lines, n + 1, stack, js) && IsHeader(lines, n)
    requires forall k :: 0 <= k < |js| ==> js[k] < n && stack[k].indent < IndentOf(lines, n)
    ensures ItemsOf(lines, n + 1, stack + [Item(IndentOf(lines, n), KeyOf(lines, n))], js + [n])
  {
  }

  ghost predicate Deepening(stack: seq<Item>) {
    forall a, b :: 0 <= a < b < |stack| ==> stack[a].indent < stack[b].indent
  }

  /** Popping keeps exactly the items of smaller indentation. */
  lemma {:induction false} PoppedPrefix(stack: seq<Item>, indent: nat) returns (c: nat)
    requires Deepening(stack)
    ensures c <= |stack| && PopTo(stack, indent) == stack[..c]
    ensures forall k :: 0 <= k < |stack| ==> (k < c <==> stack[k].indent < indent)
    decreases |stack|
  {
    c := |stack|;
    if stack != [] && stack[|stack| - 1].indent >= indent {
      c := PoppedPrefix(stack[..|stack| - 1], indent);
      assert stack[..|stack| - 1][..c] == stack[..c];
      assert forall k :: 0 <= k < |stack| - 1 ==> stack[..|stack| - 1][k] == stack[k];
    } else {
      assert stack[..c] == stack;
    }
  }

  lemma {:induction false} SkippedLine(lines: seq<string>, n: nat, stack: seq<Item>, js: seq<nat>)
    requires n < |lines| && StackIs(lines, n, stack, js) && !IsKey(lines, n)
    ensures StackIs(lines, n + 1, stack, js)
  {
    forall j: nat ensures StillOpen(lines, n + 1, j) <==> j in js {
      StillOpenSkip(lines, n, j);
    }
    ItemsPrefix(lines, n, stack, js, |stack|);
    assert stack[..|stack|] == stack && js[..|stack|] == js;
  }

  lemma {:induction false} StillOpenSkip(lines: seq<string>, n: nat, j: nat)
    requires n < |lines| && !IsKey(lines, n)
    ensures StillOpen(lines, n + 1, j) <==> StillOpen(lines, n, j)
  {
  }

  /** A key line closes the headers it is not deeper than, and opens its own block if it is a header. */
  lemma {:induction false} NextKeyLine(lines: seq<string>, n: nat, stack: seq<Item>, js: seq<nat>)
    returns (js': seq<nat>)
    requires n < |lines| && StackIs(lines, n, stack, js) && IsKey(lines, n)
    ensures StackIs(lines, n + 1, Push(stack, lines[n]), js')
  {
    var c := PoppedPrefix(stack, IndentOf(lines, n));
    StillOpenListed(lines, n, stack, js, c);
    ItemsPrefix(lines, n, stack, js, c);
    js' := js[..c];
    if IsHeader(lines, n) {
      ItemsSnoc(lines, n, stack[..c], js[..c]);
      js' := js[..c] + [n];
      assert forall j :: j in js' <==> j in js[..c] || j == n;
    }
    Pushed(lines, n, stack, c);
  }

  lemma {:induction false} Pushed(lines: seq<string>, n: nat, stack: seq<Item>, c: nat)
    requires n < |lines| && IsKey(lines, n) && c <= |stack| && PopTo(stack, IndentOf(lines, n)) == stack[..c]
    ensures Push(stack, lines[n]) ==
      if IsHeader(lines, n) then stack[..c] + [Item(IndentOf(lines, n), KeyOf(lines, n))] else stack[..c]
  {
  }

  /** Of the open headers, those less deep than the key line stay open. */
  lemma {:induction false} StillOpenListed(lines: seq<string>, n: nat, stack: seq<Item>, js: seq<nat>, c: nat)
    requires n < |lines| && StackIs(lines, n, stack, js) && IsKey(lines, n) && c <= |stack|
    requires forall k :: 0 <= k < |stack| ==> (k < c <==> stack[k].indent < IndentOf(lines, n))
    ensures forall j: nat :: StillOpen(lines, n + 1, j) <==> j in js[..c] || (j == n && IsHeader(lines, n))
  {
    forall j: nat ensures StillOpen(lines, n + 1, j) <==> j in js[..c] || (j == n && IsHeader(lines, n)) {
      StillOpenNext(lines, n, j);
      if j < n && StillOpen(lines, n, j) {
        var k :| 0 <= k < |js| && js[k] == j;
        assert stack[k].indent == IndentOf(lines, j);
        if k < c {
          assert js[..c][k] == j;
        }
      }
      if j in js[..c] {
        var k :| 0 <= k < c && js[..c][k] == j;
        assert js[k] == j && stack[k].indent < IndentOf(lines, n);
      }
    }
  }

  lemma {:induction false} StillOpenNext(lines: seq<string>, n: nat, j: nat)
    requires n < |lines| && IsKey(lines, n)
    ensures StillOpen(lines, n + 1, j) <==>
      (j == n && IsHeader(lines, n)) || (StillOpen(lines, n, j) && IndentOf(lines, j) < IndentOf(lines, n))
  {
  }

  lemma {:induction false} StackIsOpenHeaders(lines: seq<string>, n: nat) returns (js: seq<nat>)
    requires n <= |lines|
    ensures StackIs(lines, n, StackAfter(lines[..n]), js)
    decreases n
  {
    if n == 0 {
      js := [];
    } else {
      js := StackIsOpenHeaders(lines, n - 1);
      NextLine(lines, n - 1);
      if IsKey(lines, n - 1) {
        js := NextKeyLine(lines, n - 1, StackAfter(lines[..n - 1]), js);
      } else {
        SkippedLine(lines, n - 1, StackAfter(lines[..n - 1]), js);
      }
    }
  }

  /** The path of a key line: the keys of exactly the headers that enclose it, outermost first, then its own. */
  lemma {:induction false} PathIsEnclosingKeys(lines: seq<string>, i: nat) returns (js: seq<nat>)
    requires i < |lines| && IsKey(lines, i)
    ensures Listed(js) && forall j: nat :: j in js <==> Encloses(lines, i, j)
    ensures forall k :: 0 <= k < |js| ==> js[k] < |lines| && IsKey(lines, js[k])
    ensures Paths(lines)[i] == Some(seq(|js|, k requires 0 <= k < |js| => KeyOf(lines, js[k])) + [KeyOf(lines, i)])
  {
    var all := StackIsOpenHeaders(lines, i);
    var stack := StackAfter(lines[..i]);
    var c := PoppedPrefix(stack, IndentOf(lines, i));
    js := all[..c];
    ItemsPrefix(lines, i, stack, all, c);
    StillOpenListed(lines, i, stack, all, c);
    forall j: nat ensures j in js <==> Encloses(lines, i, j) {
      StillOpenNext(lines, i, j);
      assert j in js ==> j < i;
    }
    KeysOfItems(lines, stack[..c], js);
    PathThere(lines, i);
  }

  lemma {:induction false} KeysOfItems(lines: seq<string>, stack: seq<Item>, js: seq<nat>)
    requires |js| == |stack| && forall k :: 0 <= k < |js| ==>
      js[k] < |lines| && IsKey(lines, js[k]) && stack[k].key == KeyOf(lines, js[k])
    ensures Keys(stack) == seq(|js|, k requires 0 <= k < |js| => KeyOf(lines, js[k]))
  {
  }
}
