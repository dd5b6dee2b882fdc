/** Whole runs inside a catch: every sequence of frames made, frames returned through,
    variables set, errors thrown and nested catches entered, completed or unwound. What a
    run owes is told by the frames it has left; no step changes what unwinding will do to a
    variable that is looked after, or forgets a cleanup or runs one twice. */
module Protocol {
  import opened Cells
  import opened Machine
  import opened Image
  import opened FrameData
  import opened Unwinding

  /** One thing a program can do to the return stack, to user memory or to the world. */
  datatype Act =
    | Push(c: Cell)                   // a call, >r, for: one plain cell
    | Pop                             // a return to a plain address, r>
    | Change(n: nat, c: Cell)         // the n-th cell from the top: a loop counter, a local cell
    | Make(f: Frame)                  // preserve, on-exit, on-exit2, room
    | Return                          // exit through the frame on top
    | Set(a: Cell, v: Cell)           // store into user memory
    | Note(e: Event)                  // a routine outside the model
    | EnterCatch(ra: Cell)            // catch
    | LeaveCatch                      // the caught word returns
    | Throw(back: Cell)               // throw of an error, called before back
    | Unwind(flags: Cell)             // unwind to the innermost catch made in this run

  /** A cleanup word with the cells it finds on the return stack. */
  datatype Job = Job(word: Cell, payload: seq<Cell>)

  /** The stack items since the catch, memory and outside calls; and a record of the
      cleanups run, in order, and of those asked for. */
  datatype Config = Config(items: seq<Item>, heap: seq<Cell>, out: seq<Event>, ran: seq<Job>, made: multiset<Job>)

  function Start(h: seq<Cell>, out: seq<Event>): Config { Config([], h, out, [], multiset{}) }

  /** unroom looks at the number of cells only; their contents are the program's. */
  function JobOf(f: Frame): Job { Job(CleanupWord(f), if f.Room? then [Wrap(|f.cells|)] else Payload(f)) }

  /** The cleanups of all frames in items, newest first. */
  function Jobs(items: seq<Item>): seq<Job>
  {
    if items == [] then [] else (if items[0].Framed? then [JobOf(items[0].f)] else []) + Jobs(items[1..])
  }

  /** The number of items above the innermost catch. */
  function AboveCatch(items: seq<Item>): (n: nat)
    ensures n <= |items| && Quiet(items[..n]) && (n < |items| ==> items[n].Catching?)
  {
    if items == [] then assert items[..0] == []; 0
    else if items[0].Catching? then assert items[..0] == []; 0
    else
      var n := 1 + AboveCatch(items[1..]);
      assert items[..n] == [items[0]] + items[1..][..n - 1];
      n
  }

  /** How many cells an item takes. */
  function Size(item: Item): nat
  {
    if item.Plain? then 1 else if item.Framed? then 3 + |Payload(item.f)| else 3
  }

  /** items with their n-th cell replaced. It has to be a plain cell, or a local cell of a
      room frame, which come after the return into remove, the link and the count. */
  function SetCell(items: seq<Item>, n: nat, x: Cell): Option<seq<Item>>
    decreases |items|
  {
    if items == [] then None
    else if n >= Size(items[0]) then
      if SetCell(items[1..], n - Size(items[0]), x).None? then None
      else Some([items[0]] + SetCell(items[1..], n - Size(items[0]), x).value)
    else if items[0].Plain? then Some([Plain(x)] + items[1..])
    else if items[0].Framed? && items[0].f.Room? && n >= 4 then
      Some([Framed(Room(items[0].f.cells[n - 4 := x]))] + items[1..])
    else None
  }

  /** The frames y are unwound. */
  function Unwound(y: seq<Item>, flags: Cell, c: Config): Config
    requires |c.heap| > USER
  {
    var h := c.heap[UNWINDING_VALUE := flags];
    c.(heap := Undone(y, h)[UNWINDING_VALUE := 0], out := UndoneOut(y, h, c.out), ran := c.ran + Jobs(y))
  }

  /** What an act does. None: it is not possible in this configuration. */
  function Apply(act: Act, c: Config): Option<Config>
  {
    if |c.heap| <= USER then None
    else match act
      case Push(x) => Some(c.(items := [Plain(x)] + c.items))
      case Pop => if |c.items| > 0 && c.items[0].Plain? then Some(c.(items := c.items[1..])) else None
      case Change(n, x) =>
        if SetCell(c.items, n, x).Some? then Some(c.(items := SetCell(c.items, n, x).value)) else None
      case Make(f) =>
        // preserve saves the value the variable has now
        if f.Preserved? && !(USER <= f.variable < |c.heap| && f.value == c.heap[f.variable]) then None
        else Some(c.(items := [Framed(f)] + c.items, made := c.made + multiset{JobOf(f)}))
      case Return =>
        if |c.items| > 0 && c.items[0].Framed? then
          var f := c.items[0].f;
          Some(c.(items := c.items[1..], heap := Restored(f, c.heap), out := Noted(f, c.heap, c.out),
                  ran := c.ran + [JobOf(f)]))
        else None
      case Set(a, v) => if USER <= a < |c.heap| then Some(c.(heap := c.heap[a := v])) else None
      case Note(e) => Some(c.(out := c.out + [e]))
      case EnterCatch(ra) => Some(c.(items := [Catching(ra)] + c.items))
      case LeaveCatch =>
        if |c.items| > 0 && c.items[0].Catching? then Some(c.(items := c.items[1..])) else None
      case Throw(back) => Some(c.(items := [Plain(back)] + c.items))
      case Unwind(flags) =>
        var n := AboveCatch(c.items);
        if n == |c.items| then None else Some(Unwound(c.items[..n], flags, c).(items := c.items[n + 1..]))
  }

  function ApplyAll(acts: seq<Act>, c: Config): Option<Config>
  {
    if acts == [] then Some(c)
    else match Apply(acts[0], c) case None => None case Some(d) => ApplyAll(acts[1..], d)
  }

  // ----- every cleanup exactly once -----

  /** The cleanups run and those still to be run are the ones asked for. */
  ghost predicate Balanced(c: Config) { multiset(c.ran) + multiset(Jobs(c.items)) == c.made }

  lemma JobsFirst(x: Item, y: seq<Item>)
    ensures Jobs([x] + y) == (if x.Framed? then [JobOf(x.f)] else []) + Jobs(y)
  {
    assert ([x] + y)[1..] == y;
  }

  lemma {:induction false} JobsConcat(x: seq<Item>, y: seq<Item>)
    ensures Jobs(x + y) == Jobs(x) + Jobs(y)
    decreases |x|
  {
    if x == [] {
      assert x + y == y;
    } else {
      hide Jobs, JobOf;
      var rest := x[1..];
      assert x == [x[0]] + rest && x + y == [x[0]] + (rest + y);
      JobsFirst(x[0], rest);
      JobsFirst(x[0], rest + y);
      JobsConcat(rest, y);
    }
  }

  /** No act forgets a cleanup or runs one twice. */
  lemma StepBalanced(act: Act, c: Config)
    requires Balanced(c) && Apply(act, c).Some?
    ensures Balanced(Apply(act, c).value)
  {
    hide AboveCatch, Undone, UndoneOut, Restored, Noted, JobOf, Jobs;
    var d := Apply(act, c).value;
    match act
    case Make(f) => JobsFirst(Framed(f), c.items);
    case Return =>
      assert Jobs(c.items) == [JobOf(c.items[0].f)] + Jobs(d.items) by {
        Splits(c.items, 0);
        JobsFirst(c.items[0], c.items[1..]);
      }
      Moved(c.ran, [JobOf(c.items[0].f)], Jobs(d.items));
    case Unwind(flags) =>
      assert Jobs(c.items) == Jobs(c.items[..AboveCatch(c.items)]) + Jobs(d.items) by { JobsSplit(c.items); }
      Moved(c.ran, Jobs(c.items[..AboveCatch(c.items)]), Jobs(d.items));
    case other => assert Jobs(d.items) == Jobs(c.items) by { SameJobs(act, c); }
  }

  lemma Splits<T>(s: seq<T>, n: nat)
    requires n < |s|
    ensures s == s[..n] + ([s[n]] + s[n + 1..])
  {}

  lemma JobsSplit(items: seq<Item>)
    requires AboveCatch(items) < |items|
    ensures Jobs(items) == Jobs(items[..AboveCatch(items)]) + Jobs(items[AboveCatch(items) + 1..])
  {
    hide AboveCatch, Jobs, Quiet, JobOf;
    var n := AboveCatch(items);
    Splits(items, n);
    JobsConcat(items[..n], [items[n]] + items[n + 1..]);
    JobsFirst(items[n], items[n + 1..]);
    assert !items[n].Framed?;
  }

  /** Replacing a cell changes no cleanup. */
  lemma {:induction false} SetCellSame(items: seq<Item>, n: nat, x: Cell)
    requires SetCell(items, n, x).Some?
    ensures Jobs(SetCell(items, n, x).value) == Jobs(items)
    decreases |items|
  {
    hide CleanupWord, Wrap;
    var rest := items[1..];
    assert items == [items[0]] + rest;
    JobsFirst(items[0], rest);
    if n >= Size(items[0]) {
      var k := n - Size(items[0]);
      SetCellSame(rest, k, x);
      JobsFirst(items[0], SetCell(rest, k, x).value);
    } else if items[0].Plain? {
      JobsFirst(Plain(x), rest);
    } else {
      var f := Room(items[0].f.cells[n - 4 := x]);
      assert JobOf(f) == JobOf(items[0].f) by { RoomJob(items[0].f.cells, f.cells); }
      JobsFirst(Framed(f), rest);
    }
  }

  lemma RoomJob(x: seq<Cell>, y: seq<Cell>)
    requires |x| == |y|
    ensures JobOf(Room(x)) == JobOf(Room(y))
  {}

  /** Only frames have cleanups. */
  lemma SameJobs(act: Act, c: Config)
    requires Apply(act, c).Some? && !act.Make? && !act.Return? && !act.Unwind?
    ensures Jobs(Apply(act, c).value.items) == Jobs(c.items)
  {
    if c.items != [] { assert c.items == [c.items[0]] + c.items[1..]; JobsFirst(c.items[0], c.items[1..]); }
    match act
    case Push(x) => JobsFirst(Plain(x), c.items);
    case Change(n, x) => SetCellSame(c.items, n, x);
    case EnterCatch(ra) => JobsFirst(Catching(ra), c.items);
    case Throw(back) => JobsFirst(Plain(back), c.items);
    case other =>
  }

  lemma Moved(x: seq<Job>, y: seq<Job>, z: seq<Job>)
    ensures multiset(x + y) + multiset(z) == multiset(x) + multiset(y + z)
  {}

  /** ... over a whole run. */
  lemma {:induction false} RunBalanced(acts: seq<Act>, c: Config)
    requires Balanced(c) && ApplyAll(acts, c).Some?
    ensures Balanced(ApplyAll(acts, c).value)
    decreases |acts|
  {
    hide Balanced, Apply;
    if acts != [] {
      StepBalanced(acts[0], c);
      RunBalanced(acts[1..], Apply(acts[0], c).value);
    }
  }

  // ----- what becomes of a variable -----

  predicate Protects(item: Item, a: Cell) { item.Framed? && item.f.Preserved? && item.f.variable == a }

  /** A frame among items preserves a. */
  predicate Protected(a: Cell, items: seq<Item>)
  {
    items != [] && (Protects(items[0], a) || Protected(a, items[1..]))
  }

  /** The routine that the frame has filed, if any, leaves a alone. */
  ghost predicate Spares(f: Frame, a: Cell)
  {
    f.OnExit? || f.OnExit2? ==>
      forall h: seq<Cell> :: USER <= a < |h| ==> Affected(f.fx, Arguments(f), h)[a] == h[a]
  }

  /** Every filed routine that may store into a will be run before a is restored. */
  ghost predicate Guarded(a: Cell, items: seq<Item>)
  {
    items == []
    || (Guarded(a, items[1..]) && (items[0].Framed? && !Spares(items[0].f, a) ==> Protected(a, items[1..])))
  }

  /** The value that a was preserved with first; if it is not preserved, the one it has. */
  function WillBe(a: Cell, items: seq<Item>, h: seq<Cell>): Cell
    requires 0 <= a < |h|
  {
    if items == [] then h[a]
    else if Protects(items[0], a) && !Protected(a, items[1..]) then items[0].f.value
    else WillBe(a, items[1..], h)
  }

  /** That value depends on memory only if a is not preserved. */
  lemma {:induction false} WillBeSame(a: Cell, items: seq<Item>, h: seq<Cell>, k: seq<Cell>)
    requires 0 <= a < |h| && a < |k| && (h[a] == k[a] || Protected(a, items))
    ensures WillBe(a, items, h) == WillBe(a, items, k)
    ensures !Protected(a, items) ==> WillBe(a, items, h) == h[a]
    decreases |items|
  {
    if items != [] { if h[a] == k[a] || Protected(a, items[1..]) { WillBeSame(a, items[1..], h, k); } }
  }

  /** One cleanup does not change what a will be. */
  lemma RestoredWillBe(a: Cell, items: seq<Item>, h: seq<Cell>)
    requires USER <= a < |h| && Guarded(a, items) && items != [] && items[0].Framed?
    ensures WillBe(a, items[1..], Restored(items[0].f, h)) == WillBe(a, items, h)
  {
    hide Affected;
    var f, rest := items[0].f, items[1..];
    var k := Restored(f, h);
    if Protected(a, rest) {
      WillBeSame(a, rest, h, k);
    } else {
      WillBeSame(a, rest, k, k);
      WillBeSame(a, rest, h, h);
      assert Spares(f, a);
    }
  }

  /** Undoing some of the frames does not change what a will be. */
  lemma {:induction false} UndoneWillBe(a: Cell, x: seq<Item>, y: seq<Item>, h: seq<Cell>)
    requires USER <= a < |h| && Guarded(a, x + y)
    ensures Guarded(a, y) && WillBe(a, y, Undone(x, h)) == WillBe(a, x + y, h)
    decreases |x|
  {
    hide Restored, Spares, Protects;
    if x == [] {
      assert x + y == y;
    } else {
      assert (x + y)[1..] == x[1..] + y;
      if x[0].Framed? {
        RestoredWillBe(a, x + y, h);
        UndoneWillBe(a, x[1..], y, Restored(x[0].f, h));
      } else {
        assert !Protects(x[0], a) by { NotFramed(x[0], a); }
        UndoneWillBe(a, x[1..], y, h);
      }
    }
  }

  lemma NotFramed(item: Item, a: Cell)
    requires !item.Framed?
    ensures !Protects(item, a)
  {}

  /** Undoing all of them makes a what it will be. */
  lemma UndoneIs(a: Cell, items: seq<Item>, h: seq<Cell>)
    requires USER <= a < |h| && Guarded(a, items)
    ensures Undone(items, h)[a] == WillBe(a, items, h)
  {
    assert items + [] == items;
    UndoneWillBe(a, items, [], h);
  }

  /** The act stores into a, or files a routine that may, only under a frame that preserves a. */
  ghost predicate Careful(a: Cell, act: Act, items: seq<Item>)
  {
    (act.Set? && act.a == a) || (act.Make? && !Spares(act.f, a)) ==> Protected(a, items)
  }

  ghost predicate AllCareful(a: Cell, acts: seq<Act>, c: Config)
    decreases |acts|
  {
    acts == [] || Apply(acts[0], c).None?
    || (Careful(a, acts[0], c.items) && AllCareful(a, acts[1..], Apply(acts[0], c).value))
  }

  lemma FirstItem(a: Cell, x: Item, y: seq<Item>, h: seq<Cell>)
    requires 0 <= a < |h|
    ensures Guarded(a, [x] + y) <==> Guarded(a, y) && (x.Framed? && !Spares(x.f, a) ==> Protected(a, y))
    ensures WillBe(a, [x] + y, h) == if Protects(x, a) && !Protected(a, y) then x.f.value else WillBe(a, y, h)
    ensures Protected(a, [x] + y) == (Protects(x, a) || Protected(a, y))
  {
    hide Spares, Protects;
    assert ([x] + y)[1..] == y;
  }

  /** Replacing a cell changes nothing for a. */
  lemma {:induction false} SetCellWillBe(a: Cell, items: seq<Item>, n: nat, x: Cell, h: seq<Cell>)
    requires 0 <= a < |h| && SetCell(items, n, x).Some?
    ensures var items' := SetCell(items, n, x).value;
            (Guarded(a, items') <==> Guarded(a, items)) && WillBe(a, items', h) == WillBe(a, items, h)
            && Protected(a, items') == Protected(a, items)
    decreases |items|
  {
    hide Size, Guarded, WillBe, Protected;
    var first, rest := items[0], items[1..];
    assert items == [first] + rest;
    FirstItem(a, first, rest, h);
    if n >= Size(first) {
      SetCellWillBe(a, rest, n - Size(first), x, h);
      FirstItem(a, first, SetCell(rest, n - Size(first), x).value, h);
    } else {
      var now := SetCell(items, n, x).value[0];
      assert SetCell(items, n, x).value == [now] + rest;
      FirstItem(a, now, rest, h);
    }
  }

  /** A careful act does not change what a will be. */
  lemma StepKeeps(a: Cell, act: Act, c: Config)
    requires USER <= a < |c.heap| && Guarded(a, c.items) && Apply(act, c).Some? && Careful(a, act, c.items)
    ensures var d := Apply(act, c).value;
            |d.heap| == |c.heap| && Guarded(a, d.items) && WillBe(a, d.items, d.heap) == WillBe(a, c.items, c.heap)
  {
    hide AboveCatch, Undone, UndoneOut, Restored, Noted, JobOf, Spares, WillBe, Guarded, Protected;
    if c.items != [] {
      assert c.items == [c.items[0]] + c.items[1..];
      FirstItem(a, c.items[0], c.items[1..], c.heap);
    }
    match act
    case Push(x) => FirstItem(a, Plain(x), c.items, c.heap);
    case Pop =>
    case Change(n, x) => SetCellWillBe(a, c.items, n, x, c.heap);
    case Make(f) =>
      FirstItem(a, Framed(f), c.items, c.heap);
      WillBeSame(a, c.items, c.heap, c.heap);
    case Return => RestoredWillBe(a, c.items, c.heap);
    case Set(a', v) => WillBeSame(a, c.items, c.heap, c.heap[a' := v]);
    case Note(e) =>
    case EnterCatch(ra) => FirstItem(a, Catching(ra), c.items, c.heap);
    case LeaveCatch =>
    case Throw(back) => FirstItem(a, Plain(back), c.items, c.heap);
    case Unwind(flags) =>
      var n := AboveCatch(c.items);
      var x, y := c.items[..n], c.items[n + 1..];
      assert c.items == x + [c.items[n]] + y;
      UnwindKeeps(a, flags, x, c.items[n], y, c.heap);
  }

  lemma UnwindKeeps(a: Cell, flags: Cell, x: seq<Item>, catching: Item, y: seq<Item>, h: seq<Cell>)
    requires USER <= a < |h| && catching.Catching?
    requires Guarded(a, x + [catching] + y)
    ensures var k := Undone(x, h[UNWINDING_VALUE := flags])[UNWINDING_VALUE := 0];
            |k| == |h| && Guarded(a, y) && WillBe(a, y, k) == WillBe(a, x + [catching] + y, h)
  {
    hide Undone, WillBe, Guarded, Protected, Spares;
    var rest := [catching] + y;
    assert x + [catching] + y == x + rest;
    var h1 := h[UNWINDING_VALUE := flags];
    var k1 := Undone(x, h1);
    WillBeSame(a, x + rest, h, h1);
    UndoneWillBe(a, x, rest, h1);
    FirstItem(a, catching, y, k1);
    WillBeSame(a, y, k1, k1[UNWINDING_VALUE := 0]);
  }

  /** ... nor does a whole careful run. */
  lemma {:induction false} RunKeeps(a: Cell, acts: seq<Act>, c: Config)
    requires USER <= a < |c.heap| && Guarded(a, c.items) && ApplyAll(acts, c).Some? && AllCareful(a, acts, c)
    ensures var d := ApplyAll(acts, c).value;
            |d.heap| == |c.heap| && Guarded(a, d.items) && WillBe(a, d.items, d.heap) == WillBe(a, c.items, c.heap)
    decreases |acts|
  {
    hide Apply, Guarded, WillBe, Careful;
    if acts != [] {
      StepKeeps(a, acts[0], c);
      RunKeeps(a, acts[1..], Apply(acts[0], c).value);
    }
  }
}
