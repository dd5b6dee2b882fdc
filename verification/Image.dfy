/** The return-stack words of mu/startup.mu4 as threaded code in the heap, and which stores
    leave them as they are. */
module Image {
  import opened Cells
  import opened Machine

  // Where the colon words stand. The gaps hold their names and links.
  const CELL_PLUS: Cell := 100
  const AT_PLUS: Cell := 110
  const MINUS_ROT: Cell := 120
  const ZERO: Cell := 130
  const OFF: Cell := 140
  const LINK: Cell := 150
  const UNLINK: Cell := 170
  const REMOVE: Cell := 190
  const CATCH: Cell := 200
  const THROW: Cell := 220
  const UNWIND: Cell := 240
  const RESTORE: Cell := 280
  const PRESERVE: Cell := 290
  const CLEANUP: Cell := 310
  const ON_EXIT: Cell := 320
  const CLEANUP2: Cell := 340
  const ON_EXIT2: Cell := 350
  const UNROOM: Cell := 370
  const ROOM: Cell := 380
  /** The ^ that is the empty does> clause of create. */
  const EMPTY_DOES: Cell := 400
  /** Code below, variables from here on. */
  const VARIABLES: Cell := 100_000
  const FP: Cell := 100_000
  const CF: Cell := 100_010
  const UNWINDING: Cell := 100_020
  /** The variables of user programs. */
  const USER: Cell := 100_100

  /** Where the value of a variable is kept: past the code field and the does> pointer. */
  function ValueOf(v: Cell): Cell { Wrap(v as int + 2) }

  const FP_VALUE: Cell := 100_002
  const CF_VALUE: Cell := 100_012
  const UNWINDING_VALUE: Cell := 100_022

  /** What remove pushes: the address of its own body, unlink ^. */
  const REMOVE_IP: Cell := 192
  /** Where catch goes on when the word it executed returns. */
  const CATCH_RETURN: Cell := 211
  /** Where unlink goes on when a cleanup word returns. */
  const UNLINK_RETURN: Cell := 180

  // The bodies, word for word.

  function CellPlusBody(): seq<Cell> { [Xt(Lit), 1, Xt(Plus), Xt(Exit)] }

  function AtPlusBody(): seq<Cell> { [Xt(Dup), Xt(Fetch), Xt(Swap), CELL_PLUS, Xt(Exit)] }

  function MinusRotBody(): seq<Cell> { [Xt(Swap), Xt(ToR), Xt(Swap), Xt(RFrom), Xt(Exit)] }

  function ZeroBody(): seq<Cell> { [Xt(Lit), 0, Xt(Exit)] }

  function OffBody(): seq<Cell> { [ZERO, Xt(Swap), Xt(Store), Xt(Exit)] }

  /** link  r> @+ swap >r  fp @ >r  rp@ fp !  >r */
  function LinkBody(): seq<Cell>
  {
    [Xt(RFrom), AT_PLUS, Xt(Swap), Xt(ToR), FP, Xt(Fetch), Xt(ToR), Xt(RpFetch), FP, Xt(Store), Xt(ToR), Xt(Exit)]
  }

  /** unlink  r>  fp @ rp!  r> fp !  r> execute  >r */
  function UnlinkBody(): seq<Cell>
  {
    [Xt(RFrom), FP, Xt(Fetch), Xt(RpStore), Xt(RFrom), FP, Xt(Store), Xt(RFrom), Xt(Execute), Xt(ToR), Xt(Exit)]
  }

  /** catch  r> @+ >r  cf @ >r  rp@ cf !  execute  r> cf !  0 */
  function CatchBody(): seq<Cell>
  {
    [Xt(RFrom), AT_PLUS, Xt(ToR), CF, Xt(Fetch), Xt(ToR), Xt(RpFetch), CF, Xt(Store), Xt(Execute),
     Xt(RFrom), CF, Xt(Store), ZERO, Xt(Exit)]
  }

  /** throw  ?if cf @ cell+ @ >r then */
  function ThrowBody(): seq<Cell>
  {
    [Xt(Q0Branch), 228, CF, Xt(Fetch), CELL_PLUS, Xt(Fetch), Xt(ToR), Xt(Exit)]
  }

  /** unwind  unwinding !  r>  begin fp @ dup cf @ u< and while unlink repeat
              cf @ rp!  r> cf !  rdrop  >r  unwinding off */
  function UnwindBody(): seq<Cell> { UnwindLoop() + UnwindTail() }

  function UnwindLoop(): seq<Cell>
  {
    [UNWINDING, Xt(Store), Xt(RFrom), FP, Xt(Fetch), Xt(Dup), CF, Xt(Fetch), Xt(ULess), Xt(AndWord),
     Xt(ZeroBranch), 256, UNLINK, Xt(Branch), 244]
  }

  function UnwindTail(): seq<Cell>
  {
    [CF, Xt(Fetch), Xt(RpStore), Xt(RFrom), CF, Xt(Store), Xt(RDrop), Xt(ToR), UNWINDING, OFF, Xt(Exit)]
  }

  /** restore  r>  r> r> !  >r */
  function RestoreBody(): seq<Cell> { [Xt(RFrom), Xt(RFrom), Xt(RFrom), Xt(Store), Xt(ToR), Xt(Exit)] }

  /** preserve  r>  over >r  swap @ >r  link restore  remove >r  >r */
  function PreserveBody(): seq<Cell>
  {
    [Xt(RFrom), Xt(Over), Xt(ToR), Xt(Swap), Xt(Fetch), Xt(ToR), LINK, RESTORE, REMOVE, Xt(ToR), Xt(ToR), Xt(Exit)]
  }

  /** cleanup  r>  r>  r> execute  >r */
  function CleanupBody(): seq<Cell> { [Xt(RFrom), Xt(RFrom), Xt(RFrom), Xt(Execute), Xt(ToR), Xt(Exit)] }

  /** on-exit  r>  @+ swap >r  swap >r  link cleanup  remove >r  >r */
  function OnExitBody(): seq<Cell>
  {
    [Xt(RFrom), AT_PLUS, Xt(Swap), Xt(ToR), Xt(Swap), Xt(ToR), LINK, CLEANUP, REMOVE, Xt(ToR), Xt(ToR), Xt(Exit)]
  }

  /** cleanup2  r>  r> r>  r> execute  >r */
  function Cleanup2Body(): seq<Cell>
  {
    [Xt(RFrom), Xt(RFrom), Xt(RFrom), Xt(RFrom), Xt(Execute), Xt(ToR), Xt(Exit)]
  }

  /** on-exit2  r>  @+ swap >r  -rot >r >r  link cleanup2  remove >r  >r */
  function OnExit2Body(): seq<Cell>
  {
    [Xt(RFrom), AT_PLUS, Xt(Swap), Xt(ToR), MINUS_ROT, Xt(ToR), Xt(ToR), LINK, CLEANUP2, REMOVE, Xt(ToR), Xt(ToR),
     Xt(Exit)]
  }

  /** unroom  r>  r> rp+!  >r */
  function UnroomBody(): seq<Cell> { [Xt(RFrom), Xt(RFrom), Xt(RpPlusStore), Xt(ToR), Xt(Exit)] }

  /** room  r>  swap dup negate rp+!  >r  link unroom  remove >r  >r */
  function RoomBody(): seq<Cell>
  {
    [Xt(RFrom), Xt(Swap), Xt(Dup), Xt(Negate), Xt(RpPlusStore), Xt(ToR), LINK, UNROOM, REMOVE, Xt(ToR), Xt(ToR),
     Xt(Exit)]
  }

  /** A colon word with the given body stands at xt. */
  ghost predicate Has(h: seq<Cell>, xt: Cell, body: seq<Cell>)
  {
    0 < xt && xt + 1 + |body| <= VARIABLES <= |h| && h[xt] == Code(DoColon)
    && forall i :: 0 <= i < |body| ==> h[xt + 1 + i] == body[i]
  }

  /** A variable stands at v. */
  ghost predicate HasVariable(h: seq<Cell>, v: Cell)
  {
    0 < v && v + 2 < |h| && h[v] == Code(DoDoes) && h[v + 1] == EMPTY_DOES
  }

  /** The heap holds the kernel and the words above. */
  ghost predicate Loaded(h: seq<Cell>)
  {
    && USER < |h| < 0x1000_0000_0000
    && KernelLoaded(h)
    && Has(h, CELL_PLUS, CellPlusBody()) && Has(h, AT_PLUS, AtPlusBody()) && Has(h, MINUS_ROT, MinusRotBody())
    && Has(h, ZERO, ZeroBody()) && Has(h, OFF, OffBody())
    && Has(h, LINK, LinkBody()) && Has(h, UNLINK, UnlinkBody())
    && h[REMOVE] == Code(DoDoes) && h[REMOVE + 1] == EMPTY_DOES
    && h[REMOVE_IP] == UNLINK && h[REMOVE_IP + 1] == Xt(Exit)
    && Has(h, CATCH, CatchBody()) && Has(h, THROW, ThrowBody()) && Has(h, UNWIND, UnwindBody())
    && Has(h, RESTORE, RestoreBody()) && Has(h, PRESERVE, PreserveBody())
    && Has(h, CLEANUP, CleanupBody()) && Has(h, ON_EXIT, OnExitBody())
    && Has(h, CLEANUP2, Cleanup2Body()) && Has(h, ON_EXIT2, OnExit2Body())
    && Has(h, UNROOM, UnroomBody()) && Has(h, ROOM, RoomBody())
    && h[EMPTY_DOES] == Xt(Exit)
    && HasVariable(h, FP) && HasVariable(h, CF) && HasVariable(h, UNWINDING)
  }

  /** Addresses that hold data: the three system variables and user memory. */
  predicate IsData(a: int) { a in {FP_VALUE as int, CF_VALUE as int, UNWINDING_VALUE as int} || a >= USER }

  lemma HasKept(h: seq<Cell>, xt: Cell, body: seq<Cell>, a: int, v: Cell)
    requires Has(h, xt, body) && VARIABLES <= a < |h|
    ensures Has(h[a := v], xt, body)
  {}

  /** Storing into data leaves the code alone. */
  lemma LoadedKept(h: seq<Cell>, a: int, v: Cell)
    requires Loaded(h) && IsData(a) && a < |h|
    ensures Loaded(h[a := v])
  {
    hide Has, CellPlusBody, AtPlusBody, MinusRotBody, ZeroBody, OffBody, LinkBody, UnlinkBody, CatchBody, ThrowBody,
         UnwindBody, RestoreBody, PreserveBody, CleanupBody, OnExitBody, Cleanup2Body, OnExit2Body, UnroomBody,
         RoomBody;
    HasKept(h, CELL_PLUS, CellPlusBody(), a, v);
    HasKept(h, AT_PLUS, AtPlusBody(), a, v);
    HasKept(h, MINUS_ROT, MinusRotBody(), a, v);
    HasKept(h, ZERO, ZeroBody(), a, v);
    HasKept(h, OFF, OffBody(), a, v);
    HasKept(h, LINK, LinkBody(), a, v);
    HasKept(h, UNLINK, UnlinkBody(), a, v);
    HasKept(h, CATCH, CatchBody(), a, v);
    HasKept(h, THROW, ThrowBody(), a, v);
    HasKept(h, UNWIND, UnwindBody(), a, v);
    HasKept(h, RESTORE, RestoreBody(), a, v);
    HasKept(h, PRESERVE, PreserveBody(), a, v);
    HasKept(h, CLEANUP, CleanupBody(), a, v);
    HasKept(h, ON_EXIT, OnExitBody(), a, v);
    HasKept(h, CLEANUP2, Cleanup2Body(), a, v);
    HasKept(h, ON_EXIT2, OnExit2Body(), a, v);
    HasKept(h, UNROOM, UnroomBody(), a, v);
    HasKept(h, ROOM, RoomBody(), a, v);
  }

  lemma HasSame(h: seq<Cell>, k: seq<Cell>, xt: Cell, body: seq<Cell>)
    requires Has(h, xt, body) && |h| == |k| && k[..VARIABLES] == h[..VARIABLES]
    ensures Has(k, xt, body)
  {
    forall a | 0 <= a < VARIABLES ensures k[a] == h[a] { assert k[..VARIABLES][a] == h[..VARIABLES][a]; }
  }

  /** So does anything that changes user memory only. */
  lemma LoadedUser(h: seq<Cell>, k: seq<Cell>)
    requires Loaded(h) && |h| == |k| && k[..USER] == h[..USER]
    ensures Loaded(k) && k[..VARIABLES] == h[..VARIABLES]
  {
    hide Has, CellPlusBody, AtPlusBody, MinusRotBody, ZeroBody, OffBody, LinkBody, UnlinkBody, CatchBody, ThrowBody,
         UnwindBody, RestoreBody, PreserveBody, CleanupBody, OnExitBody, Cleanup2Body, OnExit2Body, UnroomBody,
         RoomBody;
    forall a | 0 <= a < USER ensures k[a] == h[a] { assert k[..USER][a] == h[..USER][a]; }
    assert k[..VARIABLES] == h[..VARIABLES];
    HasSame(h, k, CELL_PLUS, CellPlusBody());
    HasSame(h, k, AT_PLUS, AtPlusBody());
    HasSame(h, k, MINUS_ROT, MinusRotBody());
    HasSame(h, k, ZERO, ZeroBody());
    HasSame(h, k, OFF, OffBody());
    HasSame(h, k, LINK, LinkBody());
    HasSame(h, k, UNLINK, UnlinkBody());
    HasSame(h, k, CATCH, CatchBody());
    HasSame(h, k, THROW, ThrowBody());
    HasSame(h, k, UNWIND, UnwindBody());
    HasSame(h, k, RESTORE, RestoreBody());
    HasSame(h, k, PRESERVE, PreserveBody());
    HasSame(h, k, CLEANUP, CleanupBody());
    HasSame(h, k, ON_EXIT, OnExitBody());
    HasSame(h, k, CLEANUP2, Cleanup2Body());
    HasSame(h, k, ON_EXIT2, OnExit2Body());
    HasSame(h, k, UNROOM, UnroomBody());
    HasSame(h, k, ROOM, RoomBody());
  }
}
