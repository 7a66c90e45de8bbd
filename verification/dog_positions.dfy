/** The fixed slot tables (src/data/dogPositions.ts). Each slot names a
    sprite of its pool by flat index; the neutral table is grouped nine slots
    per neutral sheet, matching the pool concatenation of the spritesheet
    loader. The tables' x and y are not used for placement: the game places
    every slot at a random position instead. */
module DogPositions {
  import Spritesheet

  datatype Slot = Slot(spriteIndex: nat, x: int, y: int)

  /** Slots of the dogs to find. */
  const DogSlots: seq<Slot> := [
    Slot(0, 15, 20),
    Slot(1, 45, 35),
    Slot(2, 75, 15),
    Slot(3, 25, 60),
    Slot(4, 55, 70),
    Slot(5, 85, 55),
    Slot(6, 10, 85),
    Slot(7, 50, 90),
    Slot(8, 80, 80)
  ]

  /** Slots of the neutral sprites, grouped nine per neutral sheet. */
  const NeutralSlots: seq<Slot> := NeutralSheet01 + NeutralSheet02 + NeutralSheet03 + NeutralSheet04

  /** Neutral sheet 01: flat indices 0-8. */
  const NeutralSheet01: seq<Slot> := [
    Slot(0, 30, 25),
    Slot(1, 60, 45),
    Slot(2, 20, 75),
    Slot(3, 70, 65),
    Slot(4, 40, 15),
    Slot(5, 90, 30),
    Slot(6, 35, 85),
    Slot(7, 65, 10),
    Slot(8, 5, 50)
  ]

  /** Neutral sheet 02: flat indices 9-17. */
  const NeutralSheet02: seq<Slot> := [
    Slot(9, 12, 40),
    Slot(10, 48, 22),
    Slot(11, 82, 38),
    Slot(12, 22, 58),
    Slot(13, 58, 82),
    Slot(14, 92, 68),
    Slot(15, 8, 12),
    Slot(16, 72, 28),
    Slot(17, 38, 48)
  ]

  /** Neutral sheet 03: flat indices 18-26. */
  const NeutralSheet03: seq<Slot> := [
    Slot(18, 18, 32),
    Slot(19, 52, 58),
    Slot(20, 88, 18),
    Slot(21, 28, 88),
    Slot(22, 68, 42),
    Slot(23, 95, 85),
    Slot(24, 42, 68),
    Slot(25, 78, 92),
    Slot(26, 15, 68)
  ]

  /** Neutral sheet 04: flat indices 27-35. */
  const NeutralSheet04: seq<Slot> := [
    Slot(27, 55, 12),
    Slot(28, 25, 42),
    Slot(29, 85, 48),
    Slot(30, 45, 78),
    Slot(31, 75, 58),
    Slot(32, 5, 28),
    Slot(33, 62, 32),
    Slot(34, 32, 95),
    Slot(35, 95, 5)
  ]

  /** Slot `k` of a table refers to sprite `k` of its pool. */
  predicate IndexedBySlot(table: seq<Slot>) {
    forall k :: 0 <= k < |table| ==> table[k].spriteIndex == k
  }

  predicate CoordinatesInRange(table: seq<Slot>) {
    forall k :: 0 <= k < |table| ==> 0 <= table[k].x <= 100 && 0 <= table[k].y <= 100
  }

  lemma DogSlotsShape()
    ensures |DogSlots| == 9
    ensures IndexedBySlot(DogSlots)
    ensures CoordinatesInRange(DogSlots)
  {
  }

  /** The slot group of neutral sheet `sheet + 1`. */
  function NeutralSheet(sheet: nat): seq<Slot>
    requires sheet < 4
  {
    if sheet == 0 then NeutralSheet01
    else if sheet == 1 then NeutralSheet02
    else if sheet == 2 then NeutralSheet03
    else NeutralSheet04
  }

  /** Each group has nine slots naming the sprites `9 * sheet ..`. */
  lemma NeutralSheetShape(sheet: nat)
    requires sheet < 4
    ensures |NeutralSheet(sheet)| == 9
    ensures forall j :: 0 <= j < 9 ==>
              NeutralSheet(sheet)[j].spriteIndex == 9 * sheet + j
              && 0 <= NeutralSheet(sheet)[j].x <= 100 && 0 <= NeutralSheet(sheet)[j].y <= 100
  {
    if sheet == 0 {
      assert NeutralSheet(sheet) == NeutralSheet01;
    } else if sheet == 1 {
      assert NeutralSheet(sheet) == NeutralSheet02;
    } else if sheet == 2 {
      assert NeutralSheet(sheet) == NeutralSheet03;
    } else {
      assert NeutralSheet(sheet) == NeutralSheet04;
    }
  }

  /** Group `sheet` sits at indices `9 * sheet .. 9 * sheet + 9` of the table. */
  lemma NeutralSheetAt(sheet: nat, k: nat)
    requires sheet < 4 && 9 * sheet <= k < 9 * sheet + 9
    ensures k < |NeutralSlots| && NeutralSlots[k] == NeutralSheet(sheet)[k - 9 * sheet]
  {
    assert |NeutralSheet01| == 9 && |NeutralSheet02| == 9 && |NeutralSheet03| == 9 && |NeutralSheet04| == 9;
  }

  /** The slots of neutral sheet `sheet + 1` occupy indices `9 * sheet .. 9 * sheet + 9`. */
  lemma NeutralSheetSlots(sheet: nat)
    requires sheet < 4
    ensures forall k :: 9 * sheet <= k < 9 * sheet + 9 ==>
              NeutralSlots[k].spriteIndex == k && 0 <= NeutralSlots[k].x <= 100 && 0 <= NeutralSlots[k].y <= 100
  {
    NeutralSheetShape(sheet);
    forall k | 9 * sheet <= k < 9 * sheet + 9
      ensures NeutralSlots[k].spriteIndex == k && 0 <= NeutralSlots[k].x <= 100 && 0 <= NeutralSlots[k].y <= 100
    {
      NeutralSheetAt(sheet, k);
    }
  }

  lemma NeutralSlotsShape()
    ensures |NeutralSlots| == 36
    ensures IndexedBySlot(NeutralSlots)
    ensures CoordinatesInRange(NeutralSlots)
  {
    forall k | 0 <= k < 36
      ensures NeutralSlots[k].spriteIndex == k && 0 <= NeutralSlots[k].x <= 100 && 0 <= NeutralSlots[k].y <= 100
    {
      NeutralSheetSlots(k / 9);
    }
  }

  /** Dog slot `k` names the sprite the loader cut from cell `k` of the one
      "to find" sheet. */
  lemma DogSlotsShowCells(load: Spritesheet.Loader, sprites: seq<Spritesheet.Sprite>, k: nat)
    requires Spritesheet.AllSheetsLoad(Spritesheet.ToFindPattern, 1, load)
    requires Spritesheet.DecodesSheets(Spritesheet.ToFindPattern, 1, load, true, sprites)
    requires k < |DogSlots|
    ensures DogSlots[k].spriteIndex < |sprites|
    ensures var img := load(Spritesheet.SheetPath(Spritesheet.ToFindPattern, 1)).value;
            Spritesheet.ExtractedFrom(img, Spritesheet.GridCell(k, img.width / 3, img.height / 3), true,
                                      sprites[DogSlots[k].spriteIndex])
  {
    DogSlotsShape();
    Spritesheet.FlatIndex(Spritesheet.ToFindPattern, 1, load, true, sprites, 1, k);
  }

  /** Neutral slot `k` names the sprite the loader cut from cell `k % 9` of
      neutral sheet `k / 9 + 1`: the table is grouped by sheet in load order. */
  lemma NeutralSlotsGroupedBySheet(load: Spritesheet.Loader, sprites: seq<Spritesheet.Sprite>, k: nat)
    requires Spritesheet.AllSheetsLoad(Spritesheet.NeutralPattern, 4, load)
    requires Spritesheet.DecodesSheets(Spritesheet.NeutralPattern, 4, load, true, sprites)
    requires k < |NeutralSlots|
    ensures NeutralSlots[k].spriteIndex < |sprites|
    ensures var img := load(Spritesheet.SheetPath(Spritesheet.NeutralPattern, k / 9 + 1)).value;
            Spritesheet.ExtractedFrom(img, Spritesheet.GridCell(k % 9, img.width / 3, img.height / 3), true,
                                      sprites[NeutralSlots[k].spriteIndex])
  {
    NeutralSlotsShape();
    Spritesheet.FlatSprite(Spritesheet.NeutralPattern, 4, load, true, sprites, k);
  }
}
