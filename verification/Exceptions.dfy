/** catch, throw and unwind: the threaded code carries out the acts of Protocol one for
    one, and so a whole run from catch to unwind puts back what catch found. */
module Exceptions {
  import opened Cells
  import opened Machine
  import opened Inner
  import opened Image
  import opened FrameData
  import opened Steps
  import opened WordCells
  import opened FrameWords
  import opened Unwinding
  import opened Protocol

  /** The same user memory and the same value of unwinding. */
  ghost predicate SameData(h: seq<Cell>, k: seq<Cell>)
  {
    |h| == |k| && |h| > USER && h[UNWINDING_VALUE] == k[UNWINDING_VALUE] && h[USER..] == k[USER..]
  }

  /** The machine is in configuration c, inside a catch whose caller had context b and
      continues at ra. */
  ghost predicate Realizes(s: State, c: Config, ra: Cell, b: Context)
  {
    Shows(s, c, ra, b) && |s.rs| < 0x1000_0000
  }

  /** ... whether or not there is room for the return stack. */
  ghost predicate Shows(s: State, c: Config, ra: Cell, b: Context)
  {
    Loaded(s.heap) && Holds(s, Lay(c.items, Inside(ra, b))) && SameData(s.heap, c.heap)
    && s.out == c.out && AllSane(s.heap, c.items) && Based(b.fp, b.rs) && Based(b.cf, b.rs)
  }

  // ----- memory -----

  lemma SameDataSystem(h: seq<Cell>, k: seq<Cell>, a: int, v: Cell)
    requires SameData(h, k) && 0 <= a < USER && a != UNWINDING_VALUE
    ensures SameData(h[a := v], k)
    ensures h[a := v][..VARIABLES] == if a < VARIABLES then h[..VARIABLES][a := v] else h[..VARIABLES]
  {}

  lemma SameDataUnwinding(h: seq<Cell>, k: seq<Cell>, v: Cell)
    requires SameData(h, k)
    ensures SameData(h[UNWINDING_VALUE := v], k[UNWINDING_VALUE := v])
    ensures h[UNWINDING_VALUE := v][..VARIABLES] == h[..VARIABLES]
  {}

  lemma SameDataStore(h: seq<Cell>, k: seq<Cell>, a: int, v: Cell)
    requires SameData(h, k) && USER <= a < |h|
    ensures SameData(h[a := v], k[a := v]) && h[a := v][..VARIABLES] == h[..VARIABLES]
  {
    assert h[a := v][USER..] == h[USER..][a - USER := v] && k[a := v][USER..] == k[USER..][a - USER := v];
  }

  /** Cleanups see the same data and leave the same data. */
  lemma SameDataRestored(f: Frame, h: seq<Cell>, k: seq<Cell>, out: seq<Event>)
    requires SameData(h, k)
    ensures SameData(Restored(f, h), Restored(f, k)) && Noted(f, h, out) == Noted(f, k, out)
    ensures Restored(f, h)[..USER] == h[..USER] && Restored(f, h)[..VARIABLES] == h[..VARIABLES]
  {
    RestoredBelow(f, h);
    RestoredBelow(f, k);
    RestoredElsewhere(f, h, FP_VALUE, 0);
    var x, y := Restored(f, h), Restored(f, k);
    assert x[UNWINDING_VALUE] == x[..USER][UNWINDING_VALUE] && y[UNWINDING_VALUE] == y[..USER][UNWINDING_VALUE];
    assert h[UNWINDING_VALUE] == h[..USER][UNWINDING_VALUE] && k[UNWINDING_VALUE] == k[..USER][UNWINDING_VALUE];
    if f.Preserved? && USER <= f.variable < |h| { SameDataStore(h, k, f.variable, f.value); }
    if f.OnExit? || f.OnExit2? { AffectedSame(f.fx, Arguments(f), h, k); }
  }

  lemma AffectedSame(fx: Effect, args: seq<Cell>, h: seq<Cell>, k: seq<Cell>)
    requires SameData(h, k)
    ensures Affected(fx, args, h)[USER..] == Affected(fx, args, k)[USER..]
    ensures CallsOf(fx, args, h) == CallsOf(fx, args, k)
  {
    var m := fx.memory(args, h[UNWINDING_VALUE], h[USER..]);
    if |m| == |h| - USER { assert (h[..USER] + m)[USER..] == m && (k[..USER] + m)[USER..] == m; }
  }

  lemma {:induction false} SameDataUndone(items: seq<Item>, h: seq<Cell>, k: seq<Cell>, out: seq<Event>)
    requires SameData(h, k)
    ensures SameData(Undone(items, h), Undone(items, k)) && UndoneOut(items, h, out) == UndoneOut(items, k, out)
    ensures Undone(items, h)[..VARIABLES] == h[..VARIABLES]
    decreases |items|
  {
    hide Restored, Noted, SameData;
    if items != [] {
      var f := items[0];
      if f.Framed? {
        SameDataRestored(f.f, h, k, out);
        SameDataUndone(items[1..], Restored(f.f, h), Restored(f.f, k), Noted(f.f, h, out));
      } else {
        SameDataUndone(items[1..], h, k, out);
      }
    }
  }

  lemma SaneTail(h: seq<Cell>, items: seq<Item>, n: nat)
    requires AllSane(h, items) && n <= |items|
    ensures AllSane(h, items[n..]) && AllSane(h, items[..n])
  {
    hide Sane;
    forall i | 0 <= i < |items[n..]| && items[n..][i].Framed? ensures Sane(h, items[n..][i].f) {
      assert items[n..][i] == items[n + i];
    }
  }

  lemma SaneCons(h: seq<Cell>, item: Item, items: seq<Item>)
    requires AllSane(h, items) && (item.Framed? ==> Sane(h, item.f))
    ensures AllSane(h, [item] + items)
  {
    hide Sane;
    forall i | 0 <= i < |[item] + items| && ([item] + items)[i].Framed? ensures Sane(h, ([item] + items)[i].f) {
      if i > 0 { assert ([item] + items)[i] == items[i - 1]; }
    }
  }

  lemma AddressIs(n: nat)
    requires n < 0x1_0000_0000
    ensures Address(n) == RSTACK_BASE - n
  {}

  /** What is below the innermost catch, and where that catch continues. */
  ghost function Innermost(c: Config, ra: Cell, b: Context): (Cell, Context)
  {
    var n := AboveCatch(c.items);
    if n < |c.items| then (c.items[n].ra, Lay(c.items[n + 1..], Inside(ra, b))) else (ra, b)
  }

  lemma InnermostHolds(c: Config, ra: Cell, b: Context)
    requires |Lay(c.items, Inside(ra, b)).rs| < 0x1000_0000 && Based(b.fp, b.rs) && Based(b.cf, b.rs)
    ensures var n := AboveCatch(c.items);
            var (ra', b') := Innermost(c, ra, b);
            Lay(c.items, Inside(ra, b)) == Lay(c.items[..n], Inside(ra', b'))
            && Based(b'.fp, b'.rs) && |b'.rs| >= |b.rs|
  {
    hide Lay, AboveCatch, Address;
    var n := AboveCatch(c.items);
    var inside := Inside(ra, b);
    if n < |c.items| {
      var x := c.items[n + 1..];
      assert c.items == c.items[..n] + ([c.items[n]] + x);
      LayConcat(c.items[..n], [c.items[n]] + x, inside);
      LayConcat([c.items[n]], x, inside);
      InsideIsCatching(c.items[n].ra, Lay(x, inside));
      LayGrows(c.items, inside);
      InsideBased(ra, b);
      LayGrows(x, inside);
      LayGrows(c.items[..n], Lay([c.items[n]] + x, inside));
      LayGrows([c.items[n]], Lay(x, inside));
      LayBased(x, inside);
    } else {
      assert c.items[..n] == c.items;
    }
  }

  lemma InsideBased(ra: Cell, b: Context)
    requires Based(b.fp, b.rs) && |b.rs| < 0x1000_0000
    ensures Based(Inside(ra, b).fp, Inside(ra, b).rs) && Based(Inside(ra, b).cf, Inside(ra, b).rs)
  {}

  /** Items only add cells on top. */
  lemma {:induction false} LayTop(items: seq<Item>, base: Context) returns (top: seq<Cell>)
    ensures Lay(items, base).rs == top + base.rs
  {
    hide Lay, CleanupWord, Payload, Address;
    if items == [] {
      LayNone(base);
      top := [];
    } else {
      var below := LayTop(items[1..], base);
      var b := Lay(items[1..], base);
      LayFirst(items, base);
      match items[0]
      case Plain(x) =>
        top := [x] + below;
      case Framed(f) =>
        top := [REMOVE_IP] + [b.fp, CleanupWord(f)] + Payload(f) + below;
        assert [REMOVE_IP] + ([b.fp, CleanupWord(f)] + Payload(f) + (below + base.rs)) == top + base.rs;
      case Catching(r) =>
        top := [CATCH_RETURN, b.cf, r] + below;
        assert [CATCH_RETURN] + ([b.cf, r] + (below + base.rs)) == top + base.rs;
    }
  }

  // ----- acts that any code can do -----

  /** Code that does not touch the return stack, memory or the world. */
  ghost predicate Quietly(g: nat, s: State, t: State) { Leads(g, s, t) && t == s.(ds := t.ds, ip := t.ip) }

  /** Acts that are not tied to a word. */
  predicate IsFree(act: Act) { act.Push? || act.Pop? || act.Change? || act.Set? || act.Note? }

  predicate AllFree(acts: seq<Act>) { acts == [] || (IsFree(acts[0]) && AllFree(acts[1..])) }

  /** What a free act does to the machine, the data stack and IP apart. */
  function Effect1(act: Act, s: State): Option<State>
    requires IsFree(act)
  {
    match act
    case Push(x) => Some(s.(rs := [x] + s.rs))
    case Pop => if |s.rs| > 0 then Some(s.(rs := s.rs[1..])) else None
    case Change(n, x) => if n < |s.rs| then Some(s.(rs := s.rs[n := x])) else None
    case Set(a, v) => if USER <= a < |s.heap| then Some(s.(heap := s.heap[a := v])) else None
    case Note(e) => Some(s.(out := s.out + [e]))
  }

  function Effects(acts: seq<Act>, s: State): Option<State>
    requires AllFree(acts)
  {
    if acts == [] then Some(s)
    else match Effect1(acts[0], s) case None => None case Some(t) => Effects(acts[1..], t)
  }

  /** Some code does all of acts and gets to t. It may also change the data stack; and it may
      do them all in one CALL, as (do) does, so the machine need not be in any state between. */
  ghost predicate Freely(g: nat, acts: seq<Act>, s: State, t: State)
    requires AllFree(acts)
  {
    Leads(g, s, t) && Effects(acts, s).Some? && t == Effects(acts, s).value.(ds := t.ds, ip := t.ip)
  }

  lemma QuietRealizes(s: State, t: State, c: Config, ra: Cell, b: Context)
    requires Realizes(s, c, ra, b) && t == s.(ds := t.ds, ip := t.ip)
    ensures Realizes(t, c, ra, b)
  {}

  lemma PushShows(s: State, t: State, x: Cell, c: Config, ra: Cell, b: Context)
    requires Shows(s, c, ra, b) && t == s.(ds := t.ds, ip := t.ip, rs := [x] + s.rs)
    ensures Apply(Push(x), c).Some? && Shows(t, Apply(Push(x), c).value, ra, b)
  {
    hide Sane, Loaded;
    assert ([Plain(x)] + c.items)[1..] == c.items;
    SaneCons(s.heap, Plain(x), c.items);
  }

  lemma PopShows(s: State, t: State, c: Config, ra: Cell, b: Context)
    requires Shows(s, c, ra, b) && Apply(Pop, c).Some? && t == s.(rs := t.rs)
    requires |s.rs| > 0 ==> t.rs == s.rs[1..]
    ensures |s.rs| > 0 && s.rs[0] == c.items[0].c && Shows(t, Apply(Pop, c).value, ra, b)
  {
    hide Sane, Loaded;
    SaneTail(s.heap, c.items, 1);
  }

  /** The cells of an item, on top of b. */
  function CellsOf(item: Item, b: Context): seq<Cell>
  {
    match item
    case Plain(c) => [c]
    case Framed(f) => [REMOVE_IP, b.fp, CleanupWord(f)] + Payload(f)
    case Catching(ra) => [CATCH_RETURN, b.cf, ra]
  }

  lemma LayCells(items: seq<Item>, base: Context)
    requires items != []
    ensures var b := Lay(items[1..], base);
            var n := |b.rs| + Size(items[0]) - 1;
            |CellsOf(items[0], b)| == Size(items[0])
            && Lay(items, base) == Context(CellsOf(items[0], b) + b.rs, if items[0].Framed? then Address(n) else b.fp,
                                           if items[0].Catching? then Address(n) else b.cf)
  {
    hide Lay, Address, CleanupWord, Payload;
    LayFirst(items, base);
  }

  /** Replacing a cell of the items replaces that cell of the return stack, and nothing else. */
  lemma {:induction false} SetCellLays(items: seq<Item>, n: nat, x: Cell, base: Context)
    requires SetCell(items, n, x).Some?
    ensures var was := Lay(items, base);
            n < |was.rs| && Lay(SetCell(items, n, x).value, base) == was.(rs := was.rs[n := x])
    decreases |items|
  {
    hide Lay, Address, CellsOf, Size;
    var first, rest := items[0], items[1..];
    var b := Lay(rest, base);
    LayCells(items, base);
    var now := SetCell(items, n, x).value;
    LayCells(now, base);
    if n >= Size(first) {
      var k := n - Size(first);
      SetCellLays(rest, k, x, base);
      assert now == [first] + SetCell(rest, k, x).value && now[1..] == SetCell(rest, k, x).value;
      SameCells(first, b, b.(rs := b.rs[k := x]));
      assert CellsOf(first, b) + b.rs[k := x] == (CellsOf(first, b) + b.rs)[n := x];
    } else {
      assert now[1..] == rest;
      OneCell(items, n, x, b);
      assert CellsOf(first, b)[n := x] + b.rs == (CellsOf(first, b) + b.rs)[n := x];
    }
  }

  lemma SameCells(item: Item, b: Context, d: Context)
    requires b.fp == d.fp && b.cf == d.cf
    ensures CellsOf(item, b) == CellsOf(item, d)
  {}

  lemma OneCell(items: seq<Item>, n: nat, x: Cell, b: Context)
    requires SetCell(items, n, x).Some? && items != [] && n < Size(items[0]) && |CellsOf(items[0], b)| == Size(items[0])
    ensures var now := SetCell(items, n, x).value[0];
            CellsOf(now, b) == CellsOf(items[0], b)[n := x] && now.Framed? == items[0].Framed?
            && now.Catching? == items[0].Catching? && Size(now) == Size(items[0])
  {
    hide Wrap;
  }

  lemma {:induction false} SetCellSane(h: seq<Cell>, items: seq<Item>, n: nat, x: Cell)
    requires SetCell(items, n, x).Some? && AllSane(h, items)
    ensures AllSane(h, SetCell(items, n, x).value)
    decreases |items|
  {
    hide Cleans, AllSane;
    AllSaneRest(h, items);
    var rest := items[1..];
    if n >= Size(items[0]) {
      SetCellSane(h, rest, n - Size(items[0]), x);
      SaneCons(h, items[0], SetCell(rest, n - Size(items[0]), x).value);
    } else {
      SaneCons(h, SetCell(items, n, x).value[0], rest);
    }
  }

  lemma ChangeShows(s: State, t: State, n: nat, x: Cell, c: Config, ra: Cell, b: Context)
    requires Shows(s, c, ra, b) && Apply(Change(n, x), c).Some? && t == s.(rs := t.rs)
    requires n < |s.rs| ==> t.rs == s.rs[n := x]
    ensures n < |s.rs| && Shows(t, Apply(Change(n, x), c).value, ra, b)
  {
    hide AllSane, Loaded, Lay;
    SetCellLays(c.items, n, x, Inside(ra, b));
    SetCellSane(s.heap, c.items, n, x);
  }

  lemma SetShows(s: State, t: State, a: Cell, v: Cell, c: Config, ra: Cell, b: Context)
    requires Shows(s, c, ra, b) && Apply(Set(a, v), c).Some? && t == s.(heap := t.heap)
    requires a < |s.heap| ==> t.heap == s.heap[a := v]
    ensures a < |s.heap| && Shows(t, Apply(Set(a, v), c).value, ra, b)
  {
    hide Sane, Loaded, Lay;
    LoadedKept(s.heap, a, v);
    SameDataStore(s.heap, c.heap, a, v);
    AllSaneKept(s.heap, t.heap, c.items);
  }

  lemma FreeShows(act: Act, s: State, c: Config, ra: Cell, b: Context)
    requires IsFree(act) && Shows(s, c, ra, b) && Apply(act, c).Some?
    ensures Effect1(act, s).Some? && Shows(Effect1(act, s).value, Apply(act, c).value, ra, b)
  {
    hide Sane, AllSane, Loaded, Lay, SameData;
    match act
    case Push(x) => PushShows(s, Effect1(act, s).value, x, c, ra, b);
    case Pop => PopShows(s, s.(rs := if |s.rs| > 0 then s.rs[1..] else []), c, ra, b);
    case Change(n, x) => ChangeShows(s, s.(rs := if n < |s.rs| then s.rs[n := x] else []), n, x, c, ra, b);
    case Set(a, v) => SetShows(s, s.(heap := if a < |s.heap| then s.heap[a := v] else []), a, v, c, ra, b);
    case Note(e) =>
  }

  /** Any number of free acts, done at once. */
  lemma {:induction false} AllFreeShow(acts: seq<Act>, s: State, c: Config, ra: Cell, b: Context)
    requires AllFree(acts) && Shows(s, c, ra, b) && ApplyAll(acts, c).Some?
    ensures Effects(acts, s).Some? && Shows(Effects(acts, s).value, ApplyAll(acts, c).value, ra, b)
    decreases |acts|
  {
    hide Apply, Effect1, Shows, IsFree;
    if acts != [] {
      FreeShows(acts[0], s, c, ra, b);
      AllFreeShow(acts[1..], Effect1(acts[0], s).value, Apply(acts[0], c).value, ra, b);
    }
  }

  lemma FreeRealizes(g: nat, acts: seq<Act>, s: State, t: State, c: Config, ra: Cell, b: Context)
    requires AllFree(acts) && Freely(g, acts, s, t) && |t.rs| < 0x1000_0000
    requires Realizes(s, c, ra, b) && ApplyAll(acts, c).Some?
    ensures Realizes(t, ApplyAll(acts, c).value, ra, b) && Leads(g, s, t)
  {
    hide Sane, AllSane, Loaded, Lay, Leads, SameData, ApplyAll, Effects, AllFree;
    AllFreeShow(acts, s, c, ra, b);
  }

  // ----- making frames -----

  /** A state whose return stack has gained exactly the cells of frame f. */
  function MadeState(s: State, f: Frame, cells: nat, args: nat): State
    requires |s.heap| > USER && args <= |s.ds| && s.ip < TWO63 - cells
  {
    s.(ip := s.ip + cells, ds := s.ds[args..],
       rs := [REMOVE_IP, s.heap[FP_VALUE], CleanupWord(f)] + Payload(f) + s.rs,
       heap := s.heap[FP_VALUE := Address(|Payload(f)| + |s.rs| + 2)])
  }

  lemma MadeFrame(s: State, f: Frame, cells: nat, args: nat, c: Config, ra: Cell, b: Context)
    requires Realizes(s, c, ra, b) && Sane(s.heap, f) && Apply(Make(f), c).Some?
    requires args <= |s.ds| && s.ip < TWO63 - cells
    requires |MadeState(s, f, cells, args).rs| < 0x1000_0000
    ensures Realizes(MadeState(s, f, cells, args), Apply(Make(f), c).value, ra, b)
  {
    hide Loaded, Payload, CleanupWord, Address, Sane;
    var t := MadeState(s, f, cells, args);
    VariableCells(s.heap);
    var items := [Framed(f)] + c.items;
    assert items[1..] == c.items;
    LayFirst(items, Inside(ra, b));
    var link := [s.heap[FP_VALUE], CleanupWord(f)] + Payload(f) + s.rs;
    assert t.rs == [REMOVE_IP] + link;
    LoadedKept(s.heap, FP_VALUE, Address(|Payload(f)| + |s.rs| + 2));
    SaneCons(s.heap, Framed(f), c.items);
    SameDataSystem(s.heap, c.heap, FP_VALUE, Address(|Payload(f)| + |s.rs| + 2));
    AllSaneKept(s.heap, t.heap, items);
  }

  /** The word that makes f is next, with what it needs. */
  ghost predicate Making(g: nat, s: State, f: Frame)
  {
    match f
    case Preserved(a, _) => Here(g, s, PRESERVE) && |s.ds| >= 1 && s.ds[0] == a
    case OnExit(xt, v, _) =>
      Here(g, s, ON_EXIT) && |s.ds| >= 1 && s.ds[0] == v && s.ip + 1 < VARIABLES && s.heap[s.ip + 1] == xt
    case OnExit2(xt, v1, v2, _) =>
      Here(g, s, ON_EXIT2) && |s.ds| >= 2 && s.ds[0] == v2 && s.ds[1] == v1
      && s.ip + 1 < VARIABLES && s.heap[s.ip + 1] == xt
    case Room(cells) =>
      Here(g, s, ROOM) && |cells| < 0x1000_0000 && |s.rs| < 0x1000_0000 && |s.ds| >= 1 && s.ds[0] == |cells|
      && cells == Allocated(s, |cells|)
  }

  /** How many cells of code and of the data stack the word takes. */
  function CodeTaken(f: Frame): nat { if f.OnExit? || f.OnExit2? then 2 else 1 }

  function StackTaken(f: Frame): nat { if f.OnExit2? then 2 else 1 }

  /** preserve of a user variable. */
  lemma PreserveRealizes(g: nat, s: State, a: Cell, c: Config, ra: Cell, b: Context)
    requires Realizes(s, c, ra, b) && USER <= a < |s.heap| && Making(g, s, Preserved(a, s.heap[a]))
    requires |s.rs| + 5 < 0x1000_0000
    ensures |c.heap| == |s.heap| && c.heap[a] == s.heap[a]
    ensures var f, t := Preserved(a, c.heap[a]), MadeState(s, Preserved(a, s.heap[a]), 1, 1);
            Apply(Make(f), c).Some? && Realizes(t, Apply(Make(f), c).value, ra, b) && Leads(g, s, t)
  {
    hide Run, Loaded, Code, Lay, Holds, AllSane;
    assert s.heap[a] == s.heap[USER..][a - USER] && c.heap[a] == c.heap[USER..][a - USER];
    var f := Preserved(a, s.heap[a]);
    var t := MadeState(s, f, 1, 1);
    AddressIs(|s.rs| + 4);
    assert s.ds == [a] + s.ds[1..];
    forall fuel: nat ensures Run(g, s, fuel + 35) == Run(g, t, fuel) {
      var u := PreserveRuns(g, s, fuel, a, s.ds[1..]);
    }
    assert LeadsIn(g, s, t, 35);
    MadeFrame(s, f, 1, 1, c, ra, b);
  }

  /** on-exit with any routine that meets its contract. */
  lemma OnExitRealizes(g: nat, s: State, xt: Cell, v: Cell, fx: Effect, c: Config, ra: Cell, b: Context)
    requires Realizes(s, c, ra, b) && Making(g, s, OnExit(xt, v, fx)) && Sane(s.heap, OnExit(xt, v, fx))
    requires |s.rs| + 5 < 0x1000_0000
    ensures var f, t := OnExit(xt, v, fx), MadeState(s, OnExit(xt, v, fx), 2, 1);
            Apply(Make(f), c).Some? && Realizes(t, Apply(Make(f), c).value, ra, b) && Leads(g, s, t)
  {
    hide Run, Loaded, Code, Lay, Holds, AllSane, Cleans;
    var f := OnExit(xt, v, fx);
    var t := MadeState(s, f, 2, 1);
    AddressIs(|s.rs| + 4);
    assert s.ds == [v] + s.ds[1..];
    forall fuel: nat ensures Run(g, s, fuel + 43) == Run(g, t, fuel) {
      var u := OnExitRuns(g, s, fuel, v, xt, s.ds[1..]);
    }
    assert LeadsIn(g, s, t, 43);
    MadeFrame(s, f, 2, 1, c, ra, b);
  }

  lemma OnExit2Realizes(g: nat, s: State, xt: Cell, v1: Cell, v2: Cell, fx: Effect, c: Config, ra: Cell, b: Context)
    requires Realizes(s, c, ra, b) && Making(g, s, OnExit2(xt, v1, v2, fx)) && Sane(s.heap, OnExit2(xt, v1, v2, fx))
    requires |s.rs| + 6 < 0x1000_0000
    ensures var f, t := OnExit2(xt, v1, v2, fx), MadeState(s, OnExit2(xt, v1, v2, fx), 2, 2);
            Apply(Make(f), c).Some? && Realizes(t, Apply(Make(f), c).value, ra, b) && Leads(g, s, t)
  {
    hide Run, Loaded, Code, Lay, Holds, AllSane, Cleans;
    var f := OnExit2(xt, v1, v2, fx);
    var t := MadeState(s, f, 2, 2);
    AddressIs(|s.rs| + 5);
    assert s.ds == [v2, v1] + s.ds[2..];
    forall fuel: nat ensures Run(g, s, fuel + 49) == Run(g, t, fuel) {
      var u := OnExit2Runs(g, s, fuel, v1, v2, xt, s.ds[2..]);
    }
    assert LeadsIn(g, s, t, 49);
    MadeFrame(s, f, 2, 2, c, ra, b);
  }

  lemma RoomRealizes(g: nat, s: State, cells: seq<Cell>, c: Config, ra: Cell, b: Context)
    requires Realizes(s, c, ra, b) && Making(g, s, Room(cells)) && |s.rs| + |cells| + 4 < 0x1000_0000
    ensures var f, t := Room(cells), MadeState(s, Room(cells), 1, 1);
            Apply(Make(f), c).Some? && Realizes(t, Apply(Make(f), c).value, ra, b) && Leads(g, s, t)
  {
    hide Run, Loaded, Code, Lay, Holds, AllSane;
    var n: Cell := |cells|;
    var t := MadeState(s, Room(cells), 1, 1);
    AddressIs(|s.rs| + n + 3);
    assert s.ds == [n] + s.ds[1..];
    forall fuel: nat ensures Run(g, s, fuel + 35) == Run(g, t, fuel) { var u := RoomRuns(g, s, fuel, n, s.ds[1..]); }
    assert LeadsIn(g, s, t, 35);
    MadeFrame(s, Room(cells), 1, 1, c, ra, b);
  }

  // ----- returning, catching, throwing, unwinding -----

  /** The machine when the frame on top has been returned through. */
  function Returned(s: State, f: Frame, below: Context): State
    requires |s.heap| > USER
  {
    s.(ip := REMOVE_IP + 1, rs := below.rs, heap := Restored(f, s.heap)[FP_VALUE := below.fp],
       out := Noted(f, s.heap, s.out))
  }

  lemma ReturnRealizes(g: nat, s: State, c: Config, ra: Cell, b: Context)
    requires Realizes(s, c, ra, b) && Here(g, s, Xt(Exit)) && Apply(Return, c).Some? && g < |b.rs|
    ensures |s.heap| > USER
    ensures var t := Returned(s, c.items[0].f, Lay(c.items[1..], Inside(ra, b)));
            Here(g, t, Xt(Exit)) && Realizes(t, Apply(Return, c).value, ra, b) && Leads(g, s, t)
  {
    hide Run, Loaded, Code, Lay, Sane, AllSane, Payload, CleanupWord, Restored, Noted, SameData;
    var f, rest := c.items[0].f, c.items[1..];
    var below := Lay(rest, Inside(ra, b));
    LayGrows(rest, Inside(ra, b));
    assert c.items == [Framed(f)] + rest;
    LayConcat([Framed(f)], rest, Inside(ra, b));
    LayGrows([Framed(f)], below);
    AllSaneRest(s.heap, c.items);
    var t := ReturnThroughFrame(g, s, f, below);
    VariableCells(s.heap);
    SameDataRestored(f, s.heap, c.heap, s.out);
    SameDataSystem(Restored(f, s.heap), Restored(f, c.heap), FP_VALUE, below.fp);
    AllSaneKept(s.heap, t.heap, rest);
  }

  /** catch, as far as the start of the word it executes. */
  lemma EnterCatchRealizes(g: nat, s: State, xt: Cell, c: Config, ra: Cell, b: Context)
    requires Realizes(s, c, ra, b) && Here(g, s, CATCH) && s.ip + 1 < VARIABLES && s.heap[s.ip + 1] == xt
    requires Enterable(s.heap, xt) && xt + 1 < VARIABLES && |s.rs| + 3 < 0x1000_0000
    ensures |s.heap| > USER && Enterable(Caught(s).heap, xt)
    ensures var t := Entered(Caught(s), xt);
            Apply(EnterCatch(s.ip + 2), c).Some? && Realizes(t, Apply(EnterCatch(s.ip + 2), c).value, ra, b)
            && Leads(g, s, t)
  {
    hide Run, Loaded, Code, Address, Sane;
    VariableCells(s.heap);
    var t := CatchEnterRuns(g, s, 0, xt);
    forall fuel: nat ensures Run(g, s, fuel + 22) == Run(g, t, fuel) { var u := CatchEnterRuns(g, s, fuel, xt); }
    assert LeadsIn(g, s, t, 22);
    var items := [Catching(s.ip + 2)] + c.items;
    assert items[1..] == c.items;
    assert [CATCH_RETURN] + ([s.heap[CF_VALUE], s.ip + 2] + s.rs) == t.rs;
    AddressIs(|s.rs| + 2);
    SaneCons(s.heap, Catching(s.ip + 2), c.items);
    SameDataSystem(s.heap, c.heap, CF_VALUE, Address(|s.rs| + 2));
    AllSaneKept(s.heap, t.heap, items);
  }

  /** The machine when the word caught has returned by itself. */
  function Left(s: State, back: Cell, below: Context): State
    requires |s.heap| > USER
  {
    s.(ip := back, rs := below.rs, ds := [0] + s.ds, heap := s.heap[CF_VALUE := below.cf])
  }

  lemma LeaveCatchRealizes(g: nat, s: State, c: Config, ra: Cell, b: Context)
    requires Realizes(s, c, ra, b) && Here(g, s, Xt(Exit)) && Apply(LeaveCatch, c).Some? && g < |b.rs|
    ensures |s.heap| > USER
    ensures var t := Left(s, c.items[0].ra, Lay(c.items[1..], Inside(ra, b)));
            Realizes(t, Apply(LeaveCatch, c).value, ra, b) && Leads(g, s, t)
  {
    hide Run, Loaded, Code, Lay, Sane, AllSane;
    VariableCells(s.heap);
    var rest := c.items[1..];
    LayFirst(c.items, Inside(ra, b));
    var below := Lay(rest, Inside(ra, b));
    LayGrows(rest, Inside(ra, b));
    assert s.rs == [CATCH_RETURN, below.cf, c.items[0].ra] + below.rs;
    var t := Left(s, c.items[0].ra, below);
    forall fuel: nat ensures Run(g, s, fuel + 9) == Run(g, t, fuel) {
      var u := CatchReturnRuns(g, s, fuel, below.cf, c.items[0].ra, below.rs);
    }
    assert LeadsIn(g, s, t, 9);
    LoadedKept(s.heap, CF_VALUE, below.cf);
    AllSaneRest(s.heap, c.items);
    SameDataSystem(s.heap, c.heap, CF_VALUE, below.cf);
    AllSaneKept(s.heap, t.heap, rest);
  }

  /** A non-zero throw: control goes where the innermost catch continues, with the error
      on the data stack, and nothing has been undone yet. */
  lemma ThrowRealizes(g: nat, s: State, c: Config, ra: Cell, b: Context)
    requires Realizes(s, c, ra, b) && Here(g, s, THROW) && |s.ds| >= 1 && s.ds[0] != 0 && |s.rs| + 1 < 0x1000_0000
    ensures var t := s.(ip := Innermost(c, ra, b).0, rs := [s.ip + 1] + s.rs);
            Apply(Throw(s.ip + 1), c).Some? && Realizes(t, Apply(Throw(s.ip + 1), c).value, ra, b) && Leads(g, s, t)
  {
    hide Run, Loaded, Code, Lay, Sane, AboveCatch, Address;
    VariableCells(s.heap);
    InnermostHolds(c, ra, b);
    var n := AboveCatch(c.items);
    var (ra', b') := Innermost(c, ra, b);
    LayGrows(c.items[..n], Inside(ra', b'));
    var top := LayTop(c.items[..n], Inside(ra', b'));
    AddressIs(|b'.rs| + 2);
    assert s.rs == top + [CATCH_RETURN] + [b'.cf, ra'] + b'.rs;
    assert s.ds == [s.ds[0]] + s.ds[1..];
    var t := s.(ip := ra', rs := [s.ip + 1] + s.rs);
    forall fuel: nat ensures Run(g, s, fuel + 12) == Run(g, t, fuel) {
      var u := ThrowRuns(g, s, fuel, s.ds[0], s.ds[1..], top + [CATCH_RETURN], b'.cf, ra', b'.rs);
    }
    assert LeadsIn(g, s, t, 12);
    PushShows(s, t, s.ip + 1, c, ra, b);
  }

  /** throw does not unwind: another throw from the handler goes to the same catch. */
  lemma SecondThrowSameCatch(c: Config, x: Cell, ra: Cell, b: Context)
    requires |c.heap| > USER
    ensures Innermost(Apply(Throw(x), c).value, ra, b) == Innermost(c, ra, b)
  {
    hide Lay;
    var items := [Plain(x)] + c.items;
    assert items[1..] == c.items;
    var n := AboveCatch(c.items);
    assert AboveCatch(items) == n + 1;
    if n < |c.items| { assert items[n + 2..] == c.items[n + 1..]; }
  }

  /** The machine when unwind has returned, with y undone and b the context of the catch. */
  function UnwoundState(s: State, flags: Cell, y: seq<Item>, b: Context): State
    requires |s.heap| > USER && s.ip < TWO63 - 1 && |s.ds| >= 1
  {
    var h := s.heap[UNWINDING_VALUE := flags];
    s.(ip := s.ip + 1, ds := s.ds[1..], rs := b.rs, out := UndoneOut(y, h, s.out),
       heap := Undone(y, h)[FP_VALUE := b.fp][CF_VALUE := b.cf][UNWINDING_VALUE := 0])
  }

  /** Memory after unwinding y is that of the configuration. */
  lemma UnwoundData(s: State, flags: Cell, y: seq<Item>, c: Config, b: Context)
    requires SameData(s.heap, c.heap) && s.out == c.out && s.ip < TWO63 - 1 && |s.ds| >= 1
    ensures var t, d := UnwoundState(s, flags, y, b), Unwound(y, flags, c);
            SameData(t.heap, d.heap) && t.out == d.out && t.heap[..VARIABLES] == s.heap[..VARIABLES]
  {
    hide SameData;
    SameSize(s.heap, c.heap);
    var h, k := s.heap[UNWINDING_VALUE := flags], c.heap[UNWINDING_VALUE := flags];
    SameDataUnwinding(s.heap, c.heap, flags);
    SameDataUndone(y, h, k, s.out);
    var x := Undone(y, h);
    SameDataUnwinding(x, Undone(y, k), 0);
    SameDataSystem(x, Undone(y, k), FP_VALUE, b.fp);
    SameDataSystem(x[FP_VALUE := b.fp], Undone(y, k), CF_VALUE, b.cf);
    SameDataUnwinding(x[FP_VALUE := b.fp][CF_VALUE := b.cf], Undone(y, k), 0);
  }

  /** unwind to a catch made in this run. */
  lemma UnwindRealizes(g: nat, s: State, flags: Cell, c: Config, ra: Cell, b: Context)
    requires Realizes(s, c, ra, b) && Here(g, s, UNWIND) && |s.ds| >= 1 && s.ds[0] == flags
    requires Apply(Unwind(flags), c).Some? && g < |b.rs|
    ensures |s.heap| > USER
    ensures var t := UnwoundState(s, flags, c.items[..AboveCatch(c.items)], Innermost(c, ra, b).1);
            Realizes(t, Apply(Unwind(flags), c).value, ra, b) && Leads(g, s, t)
  {
    hide Run, Loaded, Code, Lay, Sane, AllSane, AboveCatch, Address, Undone, UndoneOut, SameData;
    VariableCells(s.heap);
    InnermostHolds(c, ra, b);
    var n := AboveCatch(c.items);
    var y := c.items[..n];
    var (ra', b') := Innermost(c, ra, b);
    SaneTail(s.heap, c.items, n);
    SaneTail(s.heap, c.items, n + 1);
    assert s.ds == [flags] + s.ds[1..];
    SameSize(s.heap, c.heap);
    UnwoundData(s, flags, y, c, b');
    var t := UnwindRuns(g, s, flags, s.ds[1..], y, ra', b');
    LayGrows(y, Inside(ra', b'));
    AllSaneKept(s.heap, t.heap, c.items[n + 1..]);
  }

  lemma SameSize(h: seq<Cell>, k: seq<Cell>)
    requires SameData(h, k)
    ensures |h| == |k| > USER
  {}

  // ----- whole runs -----

  /** The word that does act is next, with what it needs, and t is the state it leads to. */
  ghost predicate Tied(g: nat, act: Act, s: State, t: State, c: Config, ra: Cell, b: Context)
    requires !IsFree(act) && Apply(act, c).Some? && Realizes(s, c, ra, b)
  {
    match act
    case Make(f) =>
      Making(g, s, f) && Sane(s.heap, f) && t == MadeState(s, f, CodeTaken(f), StackTaken(f))
    case Return => Here(g, s, Xt(Exit)) && t == Returned(s, c.items[0].f, Lay(c.items[1..], Inside(ra, b)))
    case EnterCatch(back) =>
      Here(g, s, CATCH) && s.ip + 1 < VARIABLES && back == s.ip + 2 && |s.rs| + 3 < 0x1000_0000
      && Enterable(s.heap, s.heap[s.ip + 1]) && s.heap[s.ip + 1] + 1 < VARIABLES
      && Enterable(Caught(s).heap, s.heap[s.ip + 1]) && t == Entered(Caught(s), s.heap[s.ip + 1])
    case LeaveCatch => Here(g, s, Xt(Exit)) && t == Left(s, c.items[0].ra, Lay(c.items[1..], Inside(ra, b)))
    case Throw(back) =>
      Here(g, s, THROW) && |s.ds| >= 1 && s.ds[0] != 0 && back == s.ip + 1
      && t == s.(ip := Innermost(c, ra, b).0, rs := [back] + s.rs)
    case Unwind(flags) =>
      Here(g, s, UNWIND) && |s.ds| >= 1 && s.ds[0] == flags
      && t == UnwoundState(s, flags, c.items[..AboveCatch(c.items)], Innermost(c, ra, b).1)
  }

  /** Any number of free acts by any code, or one act by the word it is tied to. */
  datatype Move = Free(acts: seq<Act>, from: State, to: State) | Single(act: Act, from: State, to: State)

  function ActsOf(m: Move): seq<Act> { if m.Free? then m.acts else [m.act] }

  function Acts(moves: seq<Move>): seq<Act> { if moves == [] then [] else ActsOf(moves[0]) + Acts(moves[1..]) }

  ghost predicate Carried(g: nat, m: Move, c: Config, ra: Cell, b: Context)
    requires ApplyAll(ActsOf(m), c).Some?
  {
    if m.Free? then AllFree(m.acts) && Freely(g, m.acts, m.from, m.to)
    else
      !IsFree(m.act) && (Apply(m.act, c).Some? && Realizes(m.from, c, ra, b) ==>
        Tied(g, m.act, m.from, m.to, c, ra, b))
  }

  /** A program goes from s to e by these moves: quietly to the start of each, then through
      it, with room on the return stack; and quietly to the end. */
  ghost predicate Follows(g: nat, s: State, moves: seq<Move>, e: State, c: Config, ra: Cell, b: Context)
    decreases |moves|
  {
    if moves == [] then Quietly(g, s, e)
    else
      var m := moves[0];
      Quietly(g, s, m.from) && |m.to.rs| < 0x1000_0000 && ApplyAll(ActsOf(m), c).Some? && Carried(g, m, c, ra, b)
      && Follows(g, m.to, moves[1..], e, ApplyAll(ActsOf(m), c).value, ra, b)
  }

  lemma RealizesSize(s: State, c: Config, ra: Cell, b: Context)
    requires Realizes(s, c, ra, b)
    ensures |c.heap| == |s.heap| > USER
  {}

  lemma MadeRealizes(g: nat, f: Frame, s: State, c: Config, ra: Cell, b: Context)
    requires Realizes(s, c, ra, b) && Making(g, s, f) && Sane(s.heap, f) && Apply(Make(f), c).Some?
    requires |MadeState(s, f, CodeTaken(f), StackTaken(f)).rs| < 0x1000_0000
    ensures var t := MadeState(s, f, CodeTaken(f), StackTaken(f));
            Realizes(t, Apply(Make(f), c).value, ra, b) && Leads(g, s, t)
  {
    hide Lay, Holds, AllSane, Leads, Loaded, Cleans, Realizes;
    RealizesSize(s, c, ra, b);
    assert |MadeState(s, f, CodeTaken(f), StackTaken(f)).rs| == |s.rs| + |Payload(f)| + 3;
    match f
    case Preserved(a, v) => PreserveRealizes(g, s, a, c, ra, b);
    case OnExit(xt, v, fx) => OnExitRealizes(g, s, xt, v, fx, c, ra, b);
    case OnExit2(xt, v1, v2, fx) => OnExit2Realizes(g, s, xt, v1, v2, fx, c, ra, b);
    case Room(cells) => RoomRealizes(g, s, cells, c, ra, b);
  }

  /** The threaded code of every word carries out its act. */
  lemma TiedRealizes(g: nat, act: Act, s: State, t: State, c: Config, ra: Cell, b: Context)
    requires !IsFree(act) && Apply(act, c).Some? && Realizes(s, c, ra, b) && Tied(g, act, s, t, c, ra, b)
    requires g < |b.rs| && |t.rs| < 0x1000_0000
    ensures Realizes(t, Apply(act, c).value, ra, b) && Leads(g, s, t)
  {
    hide Lay, Holds, AllSane, Leads, Loaded, Sane, Apply, Realizes, Making, MadeState, Innermost, Returned, Left,
         UnwoundState, Caught, Entered, Code;
    RealizesSize(s, c, ra, b);
    match act
    case Make(f) => MadeRealizes(g, f, s, c, ra, b);
    case Return => ReturnRealizes(g, s, c, ra, b);
    case EnterCatch(back) => EnterCatchRealizes(g, s, s.heap[s.ip + 1], c, ra, b);
    case LeaveCatch => LeaveCatchRealizes(g, s, c, ra, b);
    case Throw(back) => ThrowRealizes(g, s, c, ra, b);
    case Unwind(flags) => UnwindRealizes(g, s, flags, c, ra, b);
  }

  lemma MoveRealizes(g: nat, m: Move, c: Config, ra: Cell, b: Context)
    requires Realizes(m.from, c, ra, b) && g < |b.rs| && |m.to.rs| < 0x1000_0000
    requires ApplyAll(ActsOf(m), c).Some? && Carried(g, m, c, ra, b)
    ensures Realizes(m.to, ApplyAll(ActsOf(m), c).value, ra, b) && Leads(g, m.from, m.to)
  {
    hide Realizes, Tied, Freely, Leads, Apply, IsFree, AllFree;
    if m.Free? {
      FreeRealizes(g, m.acts, m.from, m.to, c, ra, b);
    } else {
      ApplyOne(m.act, c);
      TiedRealizes(g, m.act, m.from, m.to, c, ra, b);
    }
  }

  lemma ApplyOne(act: Act, c: Config)
    ensures ApplyAll([act], c) == Apply(act, c)
  {
    hide Apply;
    assert [act][1..] == [];
  }

  lemma {:induction false} ApplyJoins(x: seq<Act>, y: seq<Act>, c: Config)
    requires ApplyAll(x, c).Some?
    ensures ApplyAll(x + y, c) == ApplyAll(y, ApplyAll(x, c).value)
    decreases |x|
  {
    hide Apply;
    if x == [] {
      assert x + y == y;
    } else {
      assert (x + y)[1..] == x[1..] + y && (x + y)[0] == x[0];
      ApplyJoins(x[1..], y, Apply(x[0], c).value);
    }
  }

  /** The moves, one after the other, are one run of the machine, and it realizes the
      configuration that the acts lead to. */
  lemma {:induction false} MovesRealize(g: nat, s: State, moves: seq<Move>, e: State, c: Config, ra: Cell, b: Context)
    requires Realizes(s, c, ra, b) && g < |b.rs| && Follows(g, s, moves, e, c, ra, b)
    ensures ApplyAll(Acts(moves), c).Some? && Realizes(e, ApplyAll(Acts(moves), c).value, ra, b) && Leads(g, s, e)
    decreases |moves|
  {
    hide Realizes, Carried, Leads, ActsOf;
    if moves == [] {
      QuietRealizes(s, e, c, ra, b);
    } else {
      hide ApplyAll;
      var m := moves[0];
      QuietRealizes(s, m.from, c, ra, b);
      MoveRealizes(g, m, c, ra, b);
      MovesRealize(g, m.to, moves[1..], e, ApplyAll(ActsOf(m), c).value, ra, b);
      ApplyJoins(ActsOf(m), Acts(moves[1..]), c);
      LeadsTo(g, s, m.from, m.to);
      LeadsTo(g, s, m.to, e);
    }
  }

  /** The start of a run: catch called in any context. */
  lemma CatchStarts(g: nat, s: State, xt: Cell, b: Context)
    requires Here(g, s, CATCH) && s.ip + 1 < VARIABLES && s.heap[s.ip + 1] == xt
    requires Enterable(s.heap, xt) && xt + 1 < VARIABLES && |s.rs| + 3 < 0x1000_0000
    requires Holds(s, b) && Based(b.fp, b.rs) && Based(b.cf, b.rs)
    ensures |s.heap| > USER && Enterable(Caught(s).heap, xt)
    ensures Realizes(Entered(Caught(s), xt), Start(s.heap, s.out), s.ip + 2, b) && Leads(g, s, Entered(Caught(s), xt))
  {
    hide Run, Loaded, Code, Address;
    VariableCells(s.heap);
    var t := CatchEnterRuns(g, s, 0, xt);
    forall fuel: nat ensures Run(g, s, fuel + 22) == Run(g, t, fuel) { var u := CatchEnterRuns(g, s, fuel, xt); }
    assert LeadsIn(g, s, t, 22);
    AddressIs(|s.rs| + 2);
    assert t.rs == Inside(s.ip + 2, b).rs;
    SameDataSystem(s.heap, s.heap, CF_VALUE, Address(|s.rs| + 2));
  }

  /** The main result. From a state s0 that is about to catch the word xt, a program goes by
      any moves to a state s that is about to unwind, with no catch of its own still active.
      All of that and unwind is one run of the machine. It ends behind unwind with the return
      stack, fp and cf as they were in s0; memory and outside calls are what undoing the
      frames still there, newest first, makes of those in s; every variable looked after has
      the value it had in s0; and every cleanup asked for on the way has been run once. */
  lemma UnwindRestoresCatch(g: nat, s0: State, xt: Cell, moves: seq<Move>, s: State, flags: Cell, b: Context)
      returns (t: State)
    requires Here(g, s0, CATCH) && s0.ip + 1 < VARIABLES && s0.heap[s0.ip + 1] == xt
    requires Enterable(s0.heap, xt) && xt + 1 < VARIABLES && |s0.rs| + 3 < 0x1000_0000
    requires Holds(s0, b) && Based(b.fp, b.rs) && Based(b.cf, b.rs) && g < |b.rs|
    requires |s0.heap| > USER && Enterable(Caught(s0).heap, xt)
    requires Follows(g, Entered(Caught(s0), xt), moves, s, Start(s0.heap, s0.out), s0.ip + 2, b)
    requires ApplyAll(Acts(moves), Start(s0.heap, s0.out)).Some? ==>
               Quiet(ApplyAll(Acts(moves), Start(s0.heap, s0.out)).value.items)
    requires Here(g, s, UNWIND) && |s.ds| >= 1 && s.ds[0] == flags
    ensures Leads(g, s0, t) && t.ip == s.ip + 1 && t.ds == s.ds[1..] && |t.heap| == |s0.heap|
    ensures t.rs == s0.rs && Holds(t, b)
    ensures ApplyAll(Acts(moves), Start(s0.heap, s0.out)).Some?
    ensures var c := ApplyAll(Acts(moves), Start(s0.heap, s0.out)).value;
            |c.heap| > USER && SameData(t.heap, Unwound(c.items, flags, c).heap)
            && t.out == Unwound(c.items, flags, c).out
            && multiset(Unwound(c.items, flags, c).ran) == c.made
    ensures forall a: Cell :: USER <= a < |t.heap| && AllCareful(a, Acts(moves), Start(s0.heap, s0.out)) ==>
              t.heap[a] == s0.heap[a]
  {
    hide Run, Loaded, Code, Lay, Sane, AllSane, Address, AllCareful, ApplyAll, Undone, UndoneOut, SameData, Follows,
         Caught, Entered, Jobs;
    CatchStarts(g, s0, xt, b);
    var c0 := Start(s0.heap, s0.out);
    MovesRealize(g, Entered(Caught(s0), xt), moves, s, c0, s0.ip + 2, b);
    var c := ApplyAll(Acts(moves), c0).value;
    VariableCells(s.heap);
    SameSize(s.heap, c.heap);
    UnwoundData(s, flags, c.items, c, b);
    assert s.ds == [flags] + s.ds[1..];
    t := UnwindRuns(g, s, flags, s.ds[1..], c.items, s0.ip + 2, b);
    LeadsTo(g, s0, Entered(Caught(s0), xt), s);
    LeadsTo(g, s0, s, t);
    RunBalanced(Acts(moves), c0) by { assert Balanced(c0) by { NothingOwed(s0.heap, s0.out); } }
    Finished(c);
    KeptLength(Acts(moves), c0);
    forall a: Cell | USER <= a < |t.heap| && AllCareful(a, Acts(moves), c0) ensures t.heap[a] == s0.heap[a] {
      CarefulKept(a, Acts(moves), c0, flags);
      SameAt(t.heap, Unwound(c.items, flags, c).heap, a);
    }
  }

  lemma NothingOwed(h: seq<Cell>, out: seq<Event>)
    ensures Balanced(Start(h, out))
  {}

  lemma Finished(c: Config)
    requires Balanced(c)
    ensures multiset(c.ran + Jobs(c.items)) == c.made
  {}

  lemma SameAt(h: seq<Cell>, k: seq<Cell>, a: Cell)
    requires SameData(h, k) && USER <= a < |h|
    ensures h[a] == k[a]
  {
    assert h[a] == h[USER..][a - USER] && k[a] == k[USER..][a - USER];
  }

  /** A careful run and the unwinding after it leave a as it was. */
  lemma CarefulKept(a: Cell, acts: seq<Act>, c0: Config, flags: Cell)
    requires USER <= a < |c0.heap| && c0.items == [] && ApplyAll(acts, c0).Some? && AllCareful(a, acts, c0)
    ensures var c := ApplyAll(acts, c0).value;
            |c.heap| == |c0.heap| && Unwound(c.items, flags, c).heap[a] == c0.heap[a]
  {
    hide ApplyAll, AllCareful;
    RunKeeps(a, acts, c0);
    var c := ApplyAll(acts, c0).value;
    var h := c.heap[UNWINDING_VALUE := flags];
    WillBeSame(a, c.items, c.heap, h);
    UndoneIs(a, c.items, h);
  }

  lemma {:induction false} KeptLength(acts: seq<Act>, c: Config)
    requires ApplyAll(acts, c).Some?
    ensures |ApplyAll(acts, c).value.heap| == |c.heap|
    decreases |acts|
  {
    hide Protected, AboveCatch;
    if acts != [] { KeptLength(acts[1..], Apply(acts[0], c).value); }
  }
}
