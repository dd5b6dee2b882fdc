/** Conditional compilation in startup.mu4: how .if .else .then and their kin skip tokens,
    and that the tokens of the selected branches are exactly the ones interpreted. */
module Conditional {

  type Token = string

  /** The words of the chain .conditional. */
  predicate Opens(t: Token) { t == ".if" || t == ".ifdef" || t == ".ifndef" }

  predicate IsConditional(t: Token) { Opens(t) || t == ".else" || t == ".then" }

  /** Everything else a token can do: executed as a word, it changes the world; .if takes a
      flag from the world; and names may be defined in it. */
  datatype Words<!W> = Words(execute: (W, Token) -> W, flag: W -> (bool, W), defined: (W, Token) -> bool)

  // ----- the words -----

  /** eat and ?toss: the position just after the token that ended the skipping. */
  function Eat(toks: seq<Token>, i: nat, nesting: int): (j: nat)
    requires i <= |toks|
    ensures i <= j <= |toks|
    decreases |toks| - i
  {
    if i == |toks| then i
    else if Opens(toks[i]) then Eat(toks, i + 1, nesting + 1)
    else if toks[i] == ".else" then (if nesting == 0 then i + 1 else Eat(toks, i + 1, nesting))
    else if toks[i] == ".then" then (if nesting - 1 < 0 then i + 1 else Eat(toks, i + 1, nesting - 1))
    else Eat(toks, i + 1, nesting)
  }

  method EatTokens(toks: seq<Token>, i: nat) returns (j: nat)
    requires i <= |toks|
    ensures j == Eat(toks, i, 0)
  {
    var nesting: int := 0;
    j := i;
    while j < |toks|
      invariant i <= j <= |toks| && Eat(toks, j, nesting) == Eat(toks, i, 0)
    {
      var t := toks[j];
      var exit := false;
      if Opens(t) {
        nesting := nesting + 1;
      } else if t == ".else" {
        exit := nesting == 0;
      } else if t == ".then" {
        nesting := nesting - 1;
        exit := nesting < 0;
      }
      j := j + 1;
      if exit { return; }
    }
  }

  function NameAt(toks: seq<Token>, i: nat): Token { if i < |toks| then toks[i] else "" }

  /** Interpreting tokens from position i on. */
  function Interpret<W>(words: Words<W>, toks: seq<Token>, i: nat, w: W): W
    requires i <= |toks|
    decreases |toks| - i
  {
    if i == |toks| then w
    else
      var t := toks[i];
      if t == ".if" then
        var (f, w1) := words.flag(w);
        Interpret(words, toks, if f then i + 1 else Eat(toks, i + 1, 0), w1)
      else if t == ".ifdef" || t == ".ifndef" then
        var f := words.defined(w, NameAt(toks, i + 1)) == (t == ".ifdef");
        var j := if i + 1 < |toks| then i + 2 else i + 1;
        Interpret(words, toks, if f then j else Eat(toks, j, 0), w)
      else if t == ".else" then Interpret(words, toks, Eat(toks, i + 1, 0), w)
      else if t == ".then" then Interpret(words, toks, i + 1, w)
      else Interpret(words, toks, i + 1, words.execute(w, t))
  }

  method InterpretTokens<W>(words: Words<W>, toks: seq<Token>, w0: W) returns (w: W)
    ensures w == Interpret(words, toks, 0, w0)
  {
    w := w0;
    var i := 0;
    while i < |toks|
      invariant i <= |toks| && Interpret(words, toks, i, w) == Interpret(words, toks, 0, w0)
    {
      var t := toks[i];
      i := i + 1;
      if t == ".if" {
        var fw := words.flag(w);
        w := fw.1;
        if !fw.0 { i := EatTokens(toks, i); }
      } else if t == ".ifdef" || t == ".ifndef" {
        var f := words.defined(w, NameAt(toks, i)) == (t == ".ifdef");
        if i < |toks| { i := i + 1; }
        if !f { i := EatTokens(toks, i); }
      } else if t == ".else" {
        i := EatTokens(toks, i);
      } else if t != ".then" {
        w := words.execute(w, t);
      }
    }
  }

  // ----- well-nested texts -----

  datatype Test = Flag | IfDefined(name: Token) | IfUndefined(name: Token)

  datatype Tree =
    | Leaf(name: Token)
    | When(test: Test, yes: Trees)
    | Choice(test: Test, yes: Trees, no: Trees)

  datatype Trees = Nil | Cons(head: Tree, tail: Trees)

  /** A test can be skipped unless the name it asks about nests or ends the skipping. */
  predicate CanSkipTest(t: Test) { t.Flag? || !(Opens(t.name) || t.name == ".then") }

  predicate CanSkipTree(t: Tree)
  {
    match t
    case Leaf(name) => !IsConditional(name)
    case When(test, yes) => CanSkipTest(test) && CanSkip(yes)
    case Choice(test, yes, no) => CanSkipTest(test) && CanSkip(yes) && CanSkip(no)
  }

  /** No plain token is a conditional word, and every test can be skipped. */
  predicate CanSkip(ts: Trees) { ts.Nil? || (CanSkipTree(ts.head) && CanSkip(ts.tail)) }

  function TestTokens(t: Test): seq<Token>
  {
    match t
    case Flag => [".if"]
    case IfDefined(name) => [".ifdef", name]
    case IfUndefined(name) => [".ifndef", name]
  }

  function TreeTokens(t: Tree): seq<Token>
  {
    match t
    case Leaf(name) => [name]
    case When(test, yes) => TestTokens(test) + Tokens(yes) + [".then"]
    case Choice(test, yes, no) => TestTokens(test) + Tokens(yes) + [".else"] + Tokens(no) + [".then"]
  }

  function Tokens(ts: Trees): seq<Token> { if ts.Nil? then [] else TreeTokens(ts.head) + Tokens(ts.tail) }

  function Decide<W>(words: Words<W>, t: Test, w: W): (bool, W)
  {
    match t
    case Flag => words.flag(w)
    case IfDefined(name) => (words.defined(w, name), w)
    case IfUndefined(name) => (!words.defined(w, name), w)
  }

  /** What the text means: only the branch that a test selects is interpreted. */
  function RunTree<W>(words: Words<W>, t: Tree, w: W): W
    decreases t
  {
    match t
    case Leaf(name) => words.execute(w, name)
    case When(test, yes) => var (f, w1) := Decide(words, test, w); if f then Run(words, yes, w1) else w1
    case Choice(test, yes, no) =>
      var (f, w1) := Decide(words, test, w);
      if f then Run(words, yes, w1) else Run(words, no, w1)
  }

  function Run<W>(words: Words<W>, ts: Trees, w: W): W
    decreases ts
  {
    if ts.Nil? then w else Run(words, ts.tail, RunTree(words, ts.head, w))
  }

  /** What a run from w needs: no plain token is a conditional word, and what the run skips
      can be skipped. A test that is made may ask about any name. */
  predicate CanRunTree<W>(words: Words<W>, t: Tree, w: W)
    decreases t
  {
    match t
    case Leaf(name) => !IsConditional(name)
    case When(test, yes) =>
      var (f, w1) := Decide(words, test, w);
      if f then CanRun(words, yes, w1) else CanSkip(yes)
    case Choice(test, yes, no) =>
      var (f, w1) := Decide(words, test, w);
      if f then CanRun(words, yes, w1) && CanSkip(no) else CanSkip(yes) && CanRun(words, no, w1)
  }

  predicate CanRun<W>(words: Words<W>, ts: Trees, w: W)
    decreases ts
  {
    ts.Nil? || (CanRunTree(words, ts.head, w) && CanRun(words, ts.tail, RunTree(words, ts.head, w)))
  }

  // ----- skipping -----

  /** At position i the text goes on with s. */
  predicate Here(toks: seq<Token>, i: nat, s: seq<Token>) { i + |s| <= |toks| && toks[i..i + |s|] == s }

  lemma HereSplit(toks: seq<Token>, i: nat, a: seq<Token>, b: seq<Token>)
    requires Here(toks, i, a + b)
    ensures Here(toks, i, a) && Here(toks, i + |a|, b)
  {
    var s := toks[i..i + |a + b|];
    assert toks[i..i + |a|] == s[..|a|] == a;
    assert toks[i + |a|..i + |a| + |b|] == s[|a|..] == b;
  }

  lemma HereAt(toks: seq<Token>, i: nat, t: Token)
    requires Here(toks, i, [t])
    ensures i < |toks| && toks[i] == t
  {
    assert toks[i] == toks[i..i + 1][0];
  }

  lemma EatTest(toks: seq<Token>, i: nat, n: nat, t: Test)
    requires CanSkipTest(t) && Here(toks, i, TestTokens(t))
    ensures Eat(toks, i, n) == Eat(toks, i + |TestTokens(t)|, n + 1)
  {
    var s := TestTokens(t);
    assert toks[i] == s[0];
    if t != Flag { assert toks[i + 1] == s[1]; }
  }

  /** Skipping gets past a test with one level more, whatever follows and however deep it is,
      if and only if the name asked about is neither an opening word nor .then. */
  lemma TestSkipped(t: Test)
    ensures CanSkipTest(t) <==>
            (forall toks: seq<Token>, i: nat, n: nat | Here(toks, i, TestTokens(t)) ::
               Eat(toks, i, n) == Eat(toks, i + |TestTokens(t)|, n + 1))
  {
    if CanSkipTest(t) {
      forall toks: seq<Token>, i: nat, n: nat | Here(toks, i, TestTokens(t))
        ensures Eat(toks, i, n) == Eat(toks, i + |TestTokens(t)|, n + 1)
      {
        EatTest(toks, i, n, t);
      }
    } else {
      var end := [".then", ".then", ".then"];
      var toks := TestTokens(t) + end;
      assert Here(toks, 0, TestTokens(t));
      NameCounts(toks, t);
    }
  }

  /** The name of the test counts once more when it is skipped. */
  lemma NameCounts(toks: seq<Token>, t: Test)
    requires !CanSkipTest(t) && toks == TestTokens(t) + [".then", ".then", ".then"]
    ensures Eat(toks, 0, 0) != Eat(toks, 2, 1)
  {
    var name := t.name;
    assert toks[0] == TestTokens(t)[0] && Opens(toks[0]) && toks[1] == name;
    assert toks[2] == toks[3] == toks[4] == ".then" && |toks| == 5;
    assert Eat(toks, 0, 0) == Eat(toks, 1, 1);
    assert Eat(toks, 2, 0) == 3 && Eat(toks, 3, 0) == 4 && Eat(toks, 4, 0) == 5;
    assert Eat(toks, 2, 1) == 4 && Eat(toks, 3, 1) == Eat(toks, 4, 0) && Eat(toks, 2, 2) == Eat(toks, 3, 1);
    if Opens(name) {
      assert Eat(toks, 1, 1) == Eat(toks, 2, 2);
    } else {
      assert Eat(toks, 1, 1) == Eat(toks, 2, 0);
    }
  }

  lemma WhenParts(toks: seq<Token>, i: nat, test: Test, yes: Trees)
    requires Here(toks, i, TreeTokens(When(test, yes)))
    ensures var a, b := TestTokens(test), Tokens(yes);
            var j := i + |a| + |b|;
            Here(toks, i, a) && Here(toks, i + |a|, b) && j < |toks| && toks[j] == ".then"
            && i + |TreeTokens(When(test, yes))| == j + 1
  {
    hide Here, TestTokens, Tokens;
    var a, b := TestTokens(test), Tokens(yes);
    HereSplit(toks, i, a + b, [".then"]);
    HereSplit(toks, i, a, b);
    HereAt(toks, i + |a + b|, ".then");
  }

  lemma ChoiceParts(toks: seq<Token>, i: nat, test: Test, yes: Trees, no: Trees)
    requires Here(toks, i, TreeTokens(Choice(test, yes, no)))
    ensures var a, b, c := TestTokens(test), Tokens(yes), Tokens(no);
            var j := i + |a| + |b|;
            Here(toks, i, a) && Here(toks, i + |a|, b) && j < |toks| && toks[j] == ".else"
            && Here(toks, j + 1, c) && j + 1 + |c| < |toks| && toks[j + 1 + |c|] == ".then"
            && i + |TreeTokens(Choice(test, yes, no))| == j + 1 + |c| + 1
  {
    hide Here, TestTokens, Tokens;
    var a, b, c := TestTokens(test), Tokens(yes), Tokens(no);
    HereSplit(toks, i, a + b + [".else"] + c, [".then"]);
    HereSplit(toks, i, a + b + [".else"], c);
    HereSplit(toks, i, a + b, [".else"]);
    HereSplit(toks, i, a, b);
    HereAt(toks, i + |a + b|, ".else");
    HereAt(toks, i + |a + b| + 1 + |c|, ".then");
  }

  lemma EatWord(toks: seq<Token>, i: nat, n: nat)
    requires i < |toks|
    ensures !IsConditional(toks[i]) ==> Eat(toks, i, n) == Eat(toks, i + 1, n)
    ensures toks[i] == ".then" ==> Eat(toks, i, n) == if n == 0 then i + 1 else Eat(toks, i + 1, n - 1)
    ensures toks[i] == ".else" ==> Eat(toks, i, n) == if n == 0 then i + 1 else Eat(toks, i + 1, n)
  {}

  /** Whole trees are skipped without changing the nesting. */
  lemma {:induction false} EatTree(toks: seq<Token>, i: nat, n: nat, t: Tree)
    requires CanSkipTree(t) && Here(toks, i, TreeTokens(t))
    ensures i + |TreeTokens(t)| <= |toks| && Eat(toks, i, n) == Eat(toks, i + |TreeTokens(t)|, n)
    decreases t
  {
    hide Here, TestTokens, CanSkipTest, Eat, Tokens;
    match t
    case Leaf(name) =>
      HereAt(toks, i, name);
      EatWord(toks, i, n);
    case When(test, yes) =>
      var a, b := TestTokens(test), Tokens(yes);
      WhenParts(toks, i, test, yes);
      EatTest(toks, i, n, test);
      EatTrees(toks, i + |a|, n + 1, yes);
      EatWord(toks, i + |a| + |b|, n + 1);
    case Choice(test, yes, no) =>
      var a, b, c := TestTokens(test), Tokens(yes), Tokens(no);
      ChoiceParts(toks, i, test, yes, no);
      EatTest(toks, i, n, test);
      EatTrees(toks, i + |a|, n + 1, yes);
      EatWord(toks, i + |a| + |b|, n + 1);
      EatTrees(toks, i + |a| + |b| + 1, n + 1, no);
      EatWord(toks, i + |a| + |b| + 1 + |c|, n + 1);
  }

  lemma {:induction false} EatTrees(toks: seq<Token>, i: nat, n: nat, ts: Trees)
    requires CanSkip(ts) && Here(toks, i, Tokens(ts))
    ensures i <= |toks| && i + |Tokens(ts)| <= |toks| && Eat(toks, i, n) == Eat(toks, i + |Tokens(ts)|, n)
    decreases ts
  {
    if ts.Cons? {
      var a, b := TreeTokens(ts.head), Tokens(ts.tail);
      HereSplit(toks, i, a, b);
      EatTree(toks, i, n, ts.head);
      EatTrees(toks, i + |a|, n, ts.tail);
    }
  }

  // ----- interpreting -----

  /** A test is made, and what it does not select is skipped from just behind it. */
  lemma TestInterpreted<W>(words: Words<W>, toks: seq<Token>, i: nat, w: W, t: Test)
    requires Here(toks, i, TestTokens(t))
    ensures var (f, w1) := Decide(words, t, w);
            var j := i + |TestTokens(t)|;
            j <= |toks| && Interpret(words, toks, i, w) == Interpret(words, toks, if f then j else Eat(toks, j, 0), w1)
  {
    var s := TestTokens(t);
    assert toks[i] == s[0];
    if t != Flag { assert toks[i + 1] == s[1]; }
  }

  lemma InterpretWord<W>(words: Words<W>, toks: seq<Token>, i: nat, w: W)
    requires i < |toks|
    ensures !IsConditional(toks[i]) ==>
              Interpret(words, toks, i, w) == Interpret(words, toks, i + 1, words.execute(w, toks[i]))
    ensures toks[i] == ".then" ==> Interpret(words, toks, i, w) == Interpret(words, toks, i + 1, w)
    ensures toks[i] == ".else" ==> Interpret(words, toks, i, w) == Interpret(words, toks, Eat(toks, i + 1, 0), w)
  {
    hide Eat;
  }

  lemma {:induction false} TreeInterpreted<W>(words: Words<W>, toks: seq<Token>, i: nat, w: W, t: Tree)
    requires CanRunTree(words, t, w) && Here(toks, i, TreeTokens(t))
    ensures i + |TreeTokens(t)| <= |toks|
    ensures Interpret(words, toks, i, w) == Interpret(words, toks, i + |TreeTokens(t)|, RunTree(words, t, w))
    decreases t
  {
    hide Here, TestTokens, CanSkip, Decide, Eat, Tokens, Interpret, Run, CanRun;
    match t
    case Leaf(name) =>
      HereAt(toks, i, name);
      InterpretWord(words, toks, i, w);
    case When(test, yes) =>
      var a, b := TestTokens(test), Tokens(yes);
      WhenParts(toks, i, test, yes);
      TestInterpreted(words, toks, i, w, test);
      var (f, w1) := Decide(words, test, w);
      if f {
        TreesInterpreted(words, toks, i + |a|, w1, yes);
        InterpretWord(words, toks, i + |a| + |b|, Run(words, yes, w1));
      } else {
        EatTrees(toks, i + |a|, 0, yes);
        EatWord(toks, i + |a| + |b|, 0);
      }
    case Choice(test, yes, no) =>
      var a, b, c := TestTokens(test), Tokens(yes), Tokens(no);
      var j := i + |a| + |b|;
      ChoiceParts(toks, i, test, yes, no);
      TestInterpreted(words, toks, i, w, test);
      var (f, w1) := Decide(words, test, w);
      if f {
        TreesInterpreted(words, toks, i + |a|, w1, yes);
        InterpretWord(words, toks, j, Run(words, yes, w1));
        EatTrees(toks, j + 1, 0, no);
        EatWord(toks, j + 1 + |c|, 0);
      } else {
        EatTrees(toks, i + |a|, 0, yes);
        EatWord(toks, j, 0);
        TreesInterpreted(words, toks, j + 1, w1, no);
        InterpretWord(words, toks, j + 1 + |c|, Run(words, no, w1));
      }
  }

  /** Interpreting a well-nested stretch of text, wherever it stands, does what its selected
      branches do, and goes on right after it. */
  lemma {:induction false} TreesInterpreted<W>(words: Words<W>, toks: seq<Token>, i: nat, w: W, ts: Trees)
    requires CanRun(words, ts, w) && Here(toks, i, Tokens(ts))
    ensures i + |Tokens(ts)| <= |toks|
    ensures Interpret(words, toks, i, w) == Interpret(words, toks, i + |Tokens(ts)|, Run(words, ts, w))
    decreases ts
  {
    hide TreeTokens, RunTree, Interpret, CanRunTree;
    if ts.Cons? {
      var a, b := TreeTokens(ts.head), Tokens(ts.tail);
      HereSplit(toks, i, a, b);
      TreeInterpreted(words, toks, i, w, ts.head);
      TreesInterpreted(words, toks, i + |a|, RunTree(words, ts.head, w), ts.tail);
    }
  }

  /** A whole text. */
  lemma TextInterpreted<W>(words: Words<W>, ts: Trees, w: W)
    requires CanRun(words, ts, w)
    ensures Interpret(words, Tokens(ts), 0, w) == Run(words, ts, w)
  {
    assert Here(Tokens(ts), 0, Tokens(ts));
    TreesInterpreted(words, Tokens(ts), 0, w, ts);
  }

}
