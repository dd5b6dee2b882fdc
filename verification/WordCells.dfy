/** The threaded code of the words in Image, cell by cell. */
module WordCells {
  import opened Cells
  import opened Machine
  import opened Image

  lemma CellPlusCells(h: seq<Cell>)
    requires Loaded(h)
    ensures Has(h, CELL_PLUS, CellPlusBody()) && |h| > USER && h[CELL_PLUS] == Code(DoColon)
    ensures h[101] == Xt(Lit) && h[102] == 1 && h[103] == Xt(Plus) && h[104] == Xt(Exit)
  {
    var b := CellPlusBody();
    assert forall i :: 0 <= i < |b| ==> h[CELL_PLUS + 1 + i] == b[i];
    assert b[0] == Xt(Lit) && b[1] == 1 && b[2] == Xt(Plus) && b[3] == Xt(Exit);
  }

  lemma AtPlusCells(h: seq<Cell>)
    requires Loaded(h)
    ensures Has(h, AT_PLUS, AtPlusBody()) && |h| > USER && h[AT_PLUS] == Code(DoColon)
    ensures h[111] == Xt(Dup) && h[112] == Xt(Fetch) && h[113] == Xt(Swap) && h[114] == CELL_PLUS &&
            h[115] == Xt(Exit)
  {
    var b := AtPlusBody();
    assert forall i :: 0 <= i < |b| ==> h[AT_PLUS + 1 + i] == b[i];
    assert b[0] == Xt(Dup) && b[1] == Xt(Fetch) && b[2] == Xt(Swap) && b[3] == CELL_PLUS && b[4] == Xt(Exit);
  }

  lemma MinusRotCells(h: seq<Cell>)
    requires Loaded(h)
    ensures Has(h, MINUS_ROT, MinusRotBody()) && |h| > USER && h[MINUS_ROT] == Code(DoColon)
    ensures h[121] == Xt(Swap) && h[122] == Xt(ToR) && h[123] == Xt(Swap) && h[124] == Xt(RFrom) &&
            h[125] == Xt(Exit)
  {
    var b := MinusRotBody();
    assert forall i :: 0 <= i < |b| ==> h[MINUS_ROT + 1 + i] == b[i];
    assert b[0] == Xt(Swap) && b[1] == Xt(ToR) && b[2] == Xt(Swap) && b[3] == Xt(RFrom) && b[4] == Xt(Exit);
  }

  lemma ZeroCells(h: seq<Cell>)
    requires Loaded(h)
    ensures Has(h, ZERO, ZeroBody()) && |h| > USER && h[ZERO] == Code(DoColon)
    ensures h[131] == Xt(Lit) && h[132] == 0 && h[133] == Xt(Exit)
  {
    var b := ZeroBody();
    assert forall i :: 0 <= i < |b| ==> h[ZERO + 1 + i] == b[i];
    assert b[0] == Xt(Lit) && b[1] == 0 && b[2] == Xt(Exit);
  }

  lemma OffCells(h: seq<Cell>)
    requires Loaded(h)
    ensures Has(h, OFF, OffBody()) && |h| > USER && h[OFF] == Code(DoColon)
    ensures h[141] == ZERO && h[142] == Xt(Swap) && h[143] == Xt(Store) && h[144] == Xt(Exit)
  {
    var b := OffBody();
    assert forall i :: 0 <= i < |b| ==> h[OFF + 1 + i] == b[i];
    assert b[0] == ZERO && b[1] == Xt(Swap) && b[2] == Xt(Store) && b[3] == Xt(Exit);
  }

  lemma LinkCells(h: seq<Cell>)
    requires Loaded(h)
    ensures Has(h, LINK, LinkBody()) && |h| > USER && h[LINK] == Code(DoColon)
    ensures h[151] == Xt(RFrom) && h[152] == AT_PLUS && h[153] == Xt(Swap) && h[154] == Xt(ToR) &&
            h[155] == FP && h[156] == Xt(Fetch) && h[157] == Xt(ToR) && h[158] == Xt(RpFetch) &&
            h[159] == FP && h[160] == Xt(Store) && h[161] == Xt(ToR) && h[162] == Xt(Exit)
  {
    var b := LinkBody();
    assert forall i :: 0 <= i < |b| ==> h[LINK + 1 + i] == b[i];
    assert b[0] == Xt(RFrom) && b[1] == AT_PLUS && b[2] == Xt(Swap) && b[3] == Xt(ToR) && b[4] == FP &&
           b[5] == Xt(Fetch) && b[6] == Xt(ToR) && b[7] == Xt(RpFetch) && b[8] == FP && b[9] == Xt(Store) &&
           b[10] == Xt(ToR) && b[11] == Xt(Exit);
  }

  lemma UnlinkCells(h: seq<Cell>)
    requires Loaded(h)
    ensures Has(h, UNLINK, UnlinkBody()) && |h| > USER && h[UNLINK] == Code(DoColon)
    ensures h[171] == Xt(RFrom) && h[172] == FP && h[173] == Xt(Fetch) && h[174] == Xt(RpStore) &&
            h[175] == Xt(RFrom) && h[176] == FP && h[177] == Xt(Store) && h[178] == Xt(RFrom) &&
            h[179] == Xt(Execute) && h[180] == Xt(ToR) && h[181] == Xt(Exit)
  {
    var b := UnlinkBody();
    assert forall i :: 0 <= i < |b| ==> h[UNLINK + 1 + i] == b[i];
    assert b[0] == Xt(RFrom) && b[1] == FP && b[2] == Xt(Fetch) && b[3] == Xt(RpStore) && b[4] == Xt(RFrom) &&
           b[5] == FP && b[6] == Xt(Store) && b[7] == Xt(RFrom) && b[8] == Xt(Execute) && b[9] == Xt(ToR) &&
           b[10] == Xt(Exit);
  }

  lemma CatchCells(h: seq<Cell>)
    requires Loaded(h)
    ensures Has(h, CATCH, CatchBody()) && |h| > USER && h[CATCH] == Code(DoColon)
    ensures h[201] == Xt(RFrom) && h[202] == AT_PLUS && h[203] == Xt(ToR) && h[204] == CF &&
            h[205] == Xt(Fetch) && h[206] == Xt(ToR) && h[207] == Xt(RpFetch) && h[208] == CF &&
            h[209] == Xt(Store) && h[210] == Xt(Execute) && h[211] == Xt(RFrom) && h[212] == CF &&
            h[213] == Xt(Store) && h[214] == ZERO && h[215] == Xt(Exit)
  {
    var b := CatchBody();
    assert forall i :: 0 <= i < |b| ==> h[CATCH + 1 + i] == b[i];
    assert b[0] == Xt(RFrom) && b[1] == AT_PLUS && b[2] == Xt(ToR) && b[3] == CF && b[4] == Xt(Fetch) &&
           b[5] == Xt(ToR) && b[6] == Xt(RpFetch) && b[7] == CF && b[8] == Xt(Store) && b[9] == Xt(Execute) &&
           b[10] == Xt(RFrom) && b[11] == CF && b[12] == Xt(Store) && b[13] == ZERO && b[14] == Xt(Exit);
  }

  lemma ThrowCells(h: seq<Cell>)
    requires Loaded(h)
    ensures Has(h, THROW, ThrowBody()) && |h| > USER && h[THROW] == Code(DoColon)
    ensures h[221] == Xt(Q0Branch) && h[222] == 228 && h[223] == CF && h[224] == Xt(Fetch) &&
            h[225] == CELL_PLUS && h[226] == Xt(Fetch) && h[227] == Xt(ToR) && h[228] == Xt(Exit)
  {
    var b := ThrowBody();
    assert forall i :: 0 <= i < |b| ==> h[THROW + 1 + i] == b[i];
    assert b[0] == Xt(Q0Branch) && b[1] == 228 && b[2] == CF && b[3] == Xt(Fetch) && b[4] == CELL_PLUS &&
           b[5] == Xt(Fetch) && b[6] == Xt(ToR) && b[7] == Xt(Exit);
  }

  lemma UnwindLoopCells(h: seq<Cell>)
    requires Loaded(h)
    ensures Has(h, UNWIND, UnwindBody()) && |h| > USER && h[UNWIND] == Code(DoColon)
    ensures h[241] == UNWINDING && h[242] == Xt(Store) && h[243] == Xt(RFrom) && h[244] == FP &&
            h[245] == Xt(Fetch) && h[246] == Xt(Dup) && h[247] == CF && h[248] == Xt(Fetch) &&
            h[249] == Xt(ULess) && h[250] == Xt(AndWord) && h[251] == Xt(ZeroBranch) && h[252] == 256 &&
            h[253] == UNLINK && h[254] == Xt(Branch) && h[255] == 244
  {
    hide Code;
    var b := UnwindLoop();
    assert forall i :: 0 <= i < |b| ==> UnwindBody()[0 + i] == b[i];
    assert forall i :: 0 <= i < |b| ==> h[241 + i] == b[i];
    assert b[0] == UNWINDING && b[1] == Xt(Store) && b[2] == Xt(RFrom) && b[3] == FP && b[4] == Xt(Fetch) &&
           b[5] == Xt(Dup) && b[6] == CF && b[7] == Xt(Fetch) && b[8] == Xt(ULess) && b[9] == Xt(AndWord) &&
           b[10] == Xt(ZeroBranch) && b[11] == 256 && b[12] == UNLINK && b[13] == Xt(Branch) && b[14] == 244;
  }

  lemma UnwindTailCells(h: seq<Cell>)
    requires Loaded(h)
    ensures Has(h, UNWIND, UnwindBody()) && |h| > USER && h[UNWIND] == Code(DoColon)
    ensures h[256] == CF && h[257] == Xt(Fetch) && h[258] == Xt(RpStore) && h[259] == Xt(RFrom) &&
            h[260] == CF && h[261] == Xt(Store) && h[262] == Xt(RDrop) && h[263] == Xt(ToR) &&
            h[264] == UNWINDING && h[265] == OFF && h[266] == Xt(Exit)
  {
    hide Code;
    var b := UnwindTail();
    assert forall i :: 0 <= i < |b| ==> UnwindBody()[15 + i] == b[i];
    assert forall i :: 0 <= i < |b| ==> h[256 + i] == b[i];
    assert b[0] == CF && b[1] == Xt(Fetch) && b[2] == Xt(RpStore) && b[3] == Xt(RFrom) && b[4] == CF &&
           b[5] == Xt(Store) && b[6] == Xt(RDrop) && b[7] == Xt(ToR) && b[8] == UNWINDING && b[9] == OFF &&
           b[10] == Xt(Exit);
  }

  lemma RestoreCells(h: seq<Cell>)
    requires Loaded(h)
    ensures Has(h, RESTORE, RestoreBody()) && |h| > USER && h[RESTORE] == Code(DoColon)
    ensures h[281] == Xt(RFrom) && h[282] == Xt(RFrom) && h[283] == Xt(RFrom) && h[284] == Xt(Store) &&
            h[285] == Xt(ToR) && h[286] == Xt(Exit)
  {
    var b := RestoreBody();
    assert forall i :: 0 <= i < |b| ==> h[RESTORE + 1 + i] == b[i];
    assert b[0] == Xt(RFrom) && b[1] == Xt(RFrom) && b[2] == Xt(RFrom) && b[3] == Xt(Store) && b[4] == Xt(ToR) &&
           b[5] == Xt(Exit);
  }

  lemma PreserveCells(h: seq<Cell>)
    requires Loaded(h)
    ensures Has(h, PRESERVE, PreserveBody()) && |h| > USER && h[PRESERVE] == Code(DoColon)
    ensures h[291] == Xt(RFrom) && h[292] == Xt(Over) && h[293] == Xt(ToR) && h[294] == Xt(Swap) &&
            h[295] == Xt(Fetch) && h[296] == Xt(ToR) && h[297] == LINK && h[298] == RESTORE &&
            h[299] == REMOVE && h[300] == Xt(ToR) && h[301] == Xt(ToR) && h[302] == Xt(Exit)
  {
    var b := PreserveBody();
    assert forall i :: 0 <= i < |b| ==> h[PRESERVE + 1 + i] == b[i];
    assert b[0] == Xt(RFrom) && b[1] == Xt(Over) && b[2] == Xt(ToR) && b[3] == Xt(Swap) && b[4] == Xt(Fetch) &&
           b[5] == Xt(ToR) && b[6] == LINK && b[7] == RESTORE && b[8] == REMOVE && b[9] == Xt(ToR) &&
           b[10] == Xt(ToR) && b[11] == Xt(Exit);
  }

  lemma CleanupCells(h: seq<Cell>)
    requires Loaded(h)
    ensures Has(h, CLEANUP, CleanupBody()) && |h| > USER && h[CLEANUP] == Code(DoColon)
    ensures h[311] == Xt(RFrom) && h[312] == Xt(RFrom) && h[313] == Xt(RFrom) && h[314] == Xt(Execute) &&
            h[315] == Xt(ToR) && h[316] == Xt(Exit)
  {
    var b := CleanupBody();
    assert forall i :: 0 <= i < |b| ==> h[CLEANUP + 1 + i] == b[i];
    assert b[0] == Xt(RFrom) && b[1] == Xt(RFrom) && b[2] == Xt(RFrom) && b[3] == Xt(Execute) && b[4] == Xt(ToR) &&
           b[5] == Xt(Exit);
  }

  lemma OnExitCells(h: seq<Cell>)
    requires Loaded(h)
    ensures Has(h, ON_EXIT, OnExitBody()) && |h| > USER && h[ON_EXIT] == Code(DoColon)
    ensures h[321] == Xt(RFrom) && h[322] == AT_PLUS && h[323] == Xt(Swap) && h[324] == Xt(ToR) &&
            h[325] == Xt(Swap) && h[326] == Xt(ToR) && h[327] == LINK && h[328] == CLEANUP &&
            h[329] == REMOVE && h[330] == Xt(ToR) && h[331] == Xt(ToR) && h[332] == Xt(Exit)
  {
    var b := OnExitBody();
    assert forall i :: 0 <= i < |b| ==> h[ON_EXIT + 1 + i] == b[i];
    assert b[0] == Xt(RFrom) && b[1] == AT_PLUS && b[2] == Xt(Swap) && b[3] == Xt(ToR) && b[4] == Xt(Swap) &&
           b[5] == Xt(ToR) && b[6] == LINK && b[7] == CLEANUP && b[8] == REMOVE && b[9] == Xt(ToR) &&
           b[10] == Xt(ToR) && b[11] == Xt(Exit);
  }

  lemma Cleanup2Cells(h: seq<Cell>)
    requires Loaded(h)
    ensures Has(h, CLEANUP2, Cleanup2Body()) && |h| > USER && h[CLEANUP2] == Code(DoColon)
    ensures h[341] == Xt(RFrom) && h[342] == Xt(RFrom) && h[343] == Xt(RFrom) && h[344] == Xt(RFrom) &&
            h[345] == Xt(Execute) && h[346] == Xt(ToR) && h[347] == Xt(Exit)
  {
    var b := Cleanup2Body();
    assert forall i :: 0 <= i < |b| ==> h[CLEANUP2 + 1 + i] == b[i];
    assert b[0] == Xt(RFrom) && b[1] == Xt(RFrom) && b[2] == Xt(RFrom) && b[3] == Xt(RFrom) && b[4] == Xt(Execute) &&
           b[5] == Xt(ToR) && b[6] == Xt(Exit);
  }

  lemma OnExit2Cells(h: seq<Cell>)
    requires Loaded(h)
    ensures Has(h, ON_EXIT2, OnExit2Body()) && |h| > USER && h[ON_EXIT2] == Code(DoColon)
    ensures h[351] == Xt(RFrom) && h[352] == AT_PLUS && h[353] == Xt(Swap) && h[354] == Xt(ToR) &&
            h[355] == MINUS_ROT && h[356] == Xt(ToR) && h[357] == Xt(ToR) && h[358] == LINK &&
            h[359] == CLEANUP2 && h[360] == REMOVE && h[361] == Xt(ToR) && h[362] == Xt(ToR) &&
            h[363] == Xt(Exit)
  {
    var b := OnExit2Body();
    assert forall i :: 0 <= i < |b| ==> h[ON_EXIT2 + 1 + i] == b[i];
    assert b[0] == Xt(RFrom) && b[1] == AT_PLUS && b[2] == Xt(Swap) && b[3] == Xt(ToR) && b[4] == MINUS_ROT &&
           b[5] == Xt(ToR) && b[6] == Xt(ToR) && b[7] == LINK && b[8] == CLEANUP2 && b[9] == REMOVE &&
           b[10] == Xt(ToR) && b[11] == Xt(ToR) && b[12] == Xt(Exit);
  }

  lemma UnroomCells(h: seq<Cell>)
    requires Loaded(h)
    ensures Has(h, UNROOM, UnroomBody()) && |h| > USER && h[UNROOM] == Code(DoColon)
    ensures h[371] == Xt(RFrom) && h[372] == Xt(RFrom) && h[373] == Xt(RpPlusStore) && h[374] == Xt(ToR) &&
            h[375] == Xt(Exit)
  {
    var b := UnroomBody();
    assert forall i :: 0 <= i < |b| ==> h[UNROOM + 1 + i] == b[i];
    assert b[0] == Xt(RFrom) && b[1] == Xt(RFrom) && b[2] == Xt(RpPlusStore) && b[3] == Xt(ToR) && b[4] == Xt(Exit);
  }

  lemma RoomCells(h: seq<Cell>)
    requires Loaded(h)
    ensures Has(h, ROOM, RoomBody()) && |h| > USER && h[ROOM] == Code(DoColon)
    ensures h[381] == Xt(RFrom) && h[382] == Xt(Swap) && h[383] == Xt(Dup) && h[384] == Xt(Negate) &&
            h[385] == Xt(RpPlusStore) && h[386] == Xt(ToR) && h[387] == LINK && h[388] == UNROOM &&
            h[389] == REMOVE && h[390] == Xt(ToR) && h[391] == Xt(ToR) && h[392] == Xt(Exit)
  {
    var b := RoomBody();
    assert forall i :: 0 <= i < |b| ==> h[ROOM + 1 + i] == b[i];
    assert b[0] == Xt(RFrom) && b[1] == Xt(Swap) && b[2] == Xt(Dup) && b[3] == Xt(Negate) &&
           b[4] == Xt(RpPlusStore) && b[5] == Xt(ToR) && b[6] == LINK && b[7] == UNROOM && b[8] == REMOVE &&
           b[9] == Xt(ToR) && b[10] == Xt(ToR) && b[11] == Xt(Exit);
  }

  lemma VariableCells(h: seq<Cell>)
    requires Loaded(h)
    ensures USER < |h| < 0x1000_0000_0000 && h[EMPTY_DOES] == Xt(Exit)
    ensures h[FP] == Code(DoDoes) && h[FP + 1] == EMPTY_DOES
    ensures h[CF] == Code(DoDoes) && h[CF + 1] == EMPTY_DOES
    ensures h[UNWINDING] == Code(DoDoes) && h[UNWINDING + 1] == EMPTY_DOES
    ensures h[REMOVE] == Code(DoDoes) && h[REMOVE + 1] == EMPTY_DOES
    ensures h[REMOVE_IP] == UNLINK && h[REMOVE_IP + 1] == Xt(Exit)
  {
    hide Has;
  }
}
