/** The game's top-level state and its transitions (src/App.tsx): building a
    game from the loaded sprite pools, placing every entity at a random
    separated position, marking a dog found and announcing it, and the
    love-message visibility rule. */
module App {
  import opened Results
  import opened GameTypes
  import opened Arith
  import Text
  import Spritesheet
  import DogPositions
  import Randomness
  import Placement
  import GameScene

  type Slot = DogPositions.Slot

  /** The component's state; `loading` and the jump animation flag are not
      part of the model. */
  datatype AppState = AppState(
    sprites: seq<DogSprite>,
    hiddenDogs: seq<HiddenDog>,
    neutralSprites: seq<NeutralSprite>,
    placedNeutrals: seq<PlacedNeutralSprite>,
    showLoveMessage: bool,
    currentDogNumber: int)

  /** The state before (or instead of) a successful initialisation. */
  const Initial: AppState := AppState([], [], [], [], false, 0)

  /** Number of valid neutral slots dropped after the shuffle. */
  const ExcludedNeutrals: nat := 5

  /** The display name of pool sprite `i`: "Dog 1", "Dog 2", ... */
  function DogName(i: nat): string {
    "Dog " + Text.NatToString(i + 1)
  }

  function DogSpritesOf(ps: seq<Spritesheet.Sprite>): (r: seq<DogSprite>)
    ensures |r| == |ps|
    ensures forall i :: 0 <= i < |r| ==> r[i].id == i && r[i].image == ps[i] && r[i].name == DogName(i)
  {
    seq(|ps|, i requires 0 <= i < |ps| => DogSprite(i, ps[i], DogName(i)))
  }

  function NeutralSpritesOf(ps: seq<Spritesheet.Sprite>): (r: seq<NeutralSprite>)
    ensures |r| == |ps|
    ensures forall i :: 0 <= i < |r| ==> r[i].id == i && r[i].image == ps[i]
  {
    seq(|ps|, i requires 0 <= i < |ps| => NeutralSprite(i, ps[i]))
  }

  /** A dog's name carries its 1-based number, so distinct sprites have
      distinct names. */
  lemma DogNameNumbers(i: nat, j: nat)
    ensures DogName(i)[..4] == "Dog " && Text.ParseDecimal(DogName(i)[4..]) == i + 1
    ensures DogName(i) == DogName(j) ==> i == j
  {
    Text.ParseNatToString(i + 1);
    assert DogName(i)[4..] == Text.NatToString(i + 1);
    if DogName(i) == DogName(j) {
      assert DogName(j)[4..] == Text.NatToString(j + 1);
      Text.NatToStringInjective(i + 1, j + 1);
    }
  }

  /** The slots whose sprite exists in a pool of `n` sprites, in table order. */
  function ValidSlots(table: seq<Slot>, n: nat): (r: seq<Slot>)
    ensures |r| <= |table|
    decreases |table|
  {
    if |table| == 0 then []
    else (if table[0].spriteIndex < n then [table[0]] else []) + ValidSlots(table[1..], n)
  }

  /** The filter keeps exactly the slots whose sprite exists. */
  lemma {:induction false} ValidSlotsMembers(table: seq<Slot>, n: nat)
    ensures forall s :: s in ValidSlots(table, n) <==> s in table && s.spriteIndex < n
    decreases |table|
  {
    if |table| > 0 {
      ValidSlotsMembers(table[1..], n);
      assert table == [table[0]] + table[1..];
    }
  }

  /** The filter keeps table order: filtering a concatenation filters each
      part in place, and a single slot is kept exactly when its sprite
      exists. With the membership clause this fixes the result completely. */
  lemma {:induction false} ValidSlotsConcat(a: seq<Slot>, b: seq<Slot>, n: nat)
    ensures ValidSlots(a + b, n) == ValidSlots(a, n) + ValidSlots(b, n)
    decreases |a|
  {
    if |a| == 0 {
      assert a + b == b;
    } else {
      var head := if a[0].spriteIndex < n then [a[0]] else [];
      assert (a + b)[0] == a[0];
      assert (a + b)[1..] == a[1..] + b;
      assert ValidSlots(a + b, n) == head + ValidSlots(a[1..] + b, n);
      ValidSlotsConcat(a[1..], b, n);
      assert ValidSlots(a, n) == head + ValidSlots(a[1..], n);
    }
  }

  /** A single slot is kept exactly when its sprite exists. */
  lemma ValidSlotsSingle(x: Slot, n: nat)
    ensures ValidSlots([x], n) == if x.spriteIndex < n then [x] else []
  {
    assert [x][1..] == [];
  }

  /** Slot `k` of `table` names sprite `base + k`. */
  predicate IndexedFrom(table: seq<Slot>, base: nat) {
    forall k :: 0 <= k < |table| ==> table[k].spriteIndex == base + k
  }

  /** On a table whose slots count up from `base`, the filter keeps exactly
      a prefix. */
  lemma {:induction false} ValidSlotsPrefix(table: seq<Slot>, base: nat, n: nat)
    requires IndexedFrom(table, base)
    ensures ValidSlots(table, n) == table[..Min(Max(n - base, 0), |table|)]
    decreases |table|
  {
    if |table| > 0 {
      assert IndexedFrom(table[1..], base + 1) by {
        forall k | 0 <= k < |table[1..]| ensures table[1..][k].spriteIndex == base + 1 + k {
          assert table[1..][k] == table[k + 1];
        }
      }
      ValidSlotsPrefix(table[1..], base + 1, n);
      if base < n {
        assert table[..Min(Max(n - base, 0), |table|)] == [table[0]] + table[1..][..Min(Max(n - (base + 1), 0), |table| - 1)];
      }
    }
  }

  /** The slot tables are indexed from 0, so the valid slots for a pool of
      `n` sprites are the first `min(n, |table|)` slots. */
  lemma ValidSlotsOfTable(table: seq<Slot>, n: nat)
    requires DogPositions.IndexedBySlot(table)
    ensures ValidSlots(table, n) == table[..Min(n, |table|)]
  {
    ValidSlotsPrefix(table, 0, n);
  }

  /** `sort(() => Math.random() - 0.5)` yields some reordering of its input;
      the model takes the reordering as a parameter. */
  ghost predicate Permutes(shuffle: seq<Slot> -> seq<Slot>) {
    forall s :: multiset(shuffle(s)) == multiset(s)
  }

  /** `shuffled.slice(5)`. */
  function DropExcluded(shuffled: seq<Slot>): (r: seq<Slot>)
    ensures |r| == Max(|shuffled| - ExcludedNeutrals, 0)
    ensures forall s :: s in r ==> s in shuffled
  {
    shuffled[Min(ExcludedNeutrals, |shuffled|)..]
  }

  /** Positions of both kinds: dogs first from draw 0, then neutrals after
      the draws the shuffle consumed, all against one accumulator. */
  datatype Layout = Layout(dogs: Placement.Batch, neutrals: Placement.Batch)

  function PlaceEntities(dogCount: nat, neutralCount: nat, rand: Randomness.Samples, shuffleDraws: nat): (l: Layout)
    ensures |l.dogs.points| == dogCount && |l.neutrals.points| == neutralCount
    ensures l.neutrals.placed == l.dogs.points + l.neutrals.points
  {
    var dogs := Placement.PlaceAll([], rand, 0, dogCount);
    var neutrals := Placement.PlaceAll(dogs.points, rand, dogs.next + shuffleDraws, neutralCount);
    Layout(dogs, neutrals)
  }

  function HiddenDogsOf(slots: seq<Slot>, points: seq<Point>): (r: seq<HiddenDog>)
    requires |points| == |slots|
    ensures |r| == |slots|
    ensures forall i :: 0 <= i < |r| ==>
              r[i].id == i && r[i].spriteId == slots[i].spriteIndex && !r[i].found && Point(r[i].x, r[i].y) == points[i]
  {
    seq(|slots|, i requires 0 <= i < |slots| => HiddenDog(i, slots[i].spriteIndex, points[i].x, points[i].y, false))
  }

  function PlacedNeutralsOf(slots: seq<Slot>, points: seq<Point>): (r: seq<PlacedNeutralSprite>)
    requires |points| == |slots|
    ensures |r| == |slots|
    ensures forall i :: 0 <= i < |r| ==>
              r[i].id == i && r[i].spriteId == slots[i].spriteIndex && Point(r[i].x, r[i].y) == points[i]
  {
    seq(|slots|, i requires 0 <= i < |slots| => PlacedNeutralSprite(i, slots[i].spriteIndex, points[i].x, points[i].y))
  }

  /** The two slot tables a game draws from. */
  datatype Tables = Tables(dogs: seq<Slot>, neutrals: seq<Slot>)

  const SlotTables: Tables := Tables(DogPositions.DogSlots, DogPositions.NeutralSlots)

  /** The neutral slots that survive: valid for the pool, shuffled, the
      first five dropped. */
  function SelectedNeutrals(table: seq<Slot>, poolSize: nat, shuffle: seq<Slot> -> seq<Slot>): seq<Slot> {
    DropExcluded(shuffle(ValidSlots(table, poolSize)))
  }

  /** The positions a game built from pools of `m` and `q` sprites uses. */
  function LayoutFor(t: Tables, m: nat, q: nat, rand: Randomness.Samples,
                     shuffle: seq<Slot> -> seq<Slot>, shuffleDraws: nat): Layout
  {
    PlaceEntities(|ValidSlots(t.dogs, m)|, |SelectedNeutrals(t.neutrals, q, shuffle)|, rand, shuffleDraws)
  }

  /** The success path of `initGame` over the loaded pools. */
  function NewGame(dogPool: seq<Spritesheet.Sprite>, neutralPool: seq<Spritesheet.Sprite>, t: Tables,
                   rand: Randomness.Samples, shuffle: seq<Slot> -> seq<Slot>, shuffleDraws: nat): AppState
  {
    var dogSlots := ValidSlots(t.dogs, |dogPool|);
    var selected := SelectedNeutrals(t.neutrals, |neutralPool|, shuffle);
    var l := LayoutFor(t, |dogPool|, |neutralPool|, rand, shuffle, shuffleDraws);
    AppState(DogSpritesOf(dogPool), HiddenDogsOf(dogSlots, l.dogs.points),
             NeutralSpritesOf(neutralPool), PlacedNeutralsOf(selected, l.neutrals.points), false, 0)
  }

  /** `initGame`: both pools loaded, or the state stays the initial one
      (the error is only logged). */
  function InitGame(toFind: Result<Spritesheet.ProcessedSprites, Spritesheet.LoadError>,
                    neutral: Result<Spritesheet.ProcessedSprites, Spritesheet.LoadError>,
                    rand: Randomness.Samples, shuffle: seq<Slot> -> seq<Slot>, shuffleDraws: nat): (s: AppState)
    ensures toFind.Failure? || neutral.Failure? ==> s == Initial
    ensures !s.showLoveMessage && s.currentDogNumber == 0
  {
    if toFind.Failure? || neutral.Failure? then Initial
    else NewGame(toFind.value.sprites, neutral.value.sprites, SlotTables, rand, shuffle, shuffleDraws)
  }

  /** Dog ids are list positions. */
  predicate IdsAreIndices(dogs: seq<HiddenDog>) {
    forall i :: 0 <= i < |dogs| ==> dogs[i].id == i
  }

  /** One dog per valid slot of an indexed table, none found, dog `i`
      showing sprite `i` of the pool. */
  lemma NewGameDogs(dogPool: seq<Spritesheet.Sprite>, neutralPool: seq<Spritesheet.Sprite>, t: Tables,
                    rand: Randomness.Samples, shuffle: seq<Slot> -> seq<Slot>, shuffleDraws: nat)
    requires DogPositions.IndexedBySlot(t.dogs)
    ensures var s := NewGame(dogPool, neutralPool, t, rand, shuffle, shuffleDraws);
            && |s.sprites| == |dogPool|
            && (forall i :: 0 <= i < |s.sprites| ==> s.sprites[i].id == i)
            && |s.hiddenDogs| == Min(|dogPool|, |t.dogs|)
            && IdsAreIndices(s.hiddenDogs)
            && (forall i :: 0 <= i < |s.hiddenDogs| ==> s.hiddenDogs[i].spriteId == i && !s.hiddenDogs[i].found)
  {
    ValidSlotsOfTable(t.dogs, |dogPool|);
  }

  /** All valid neutral slots but five, each naming a sprite of the pool. */
  lemma NewGameNeutrals(dogPool: seq<Spritesheet.Sprite>, neutralPool: seq<Spritesheet.Sprite>, t: Tables,
                        rand: Randomness.Samples, shuffle: seq<Slot> -> seq<Slot>, shuffleDraws: nat)
    requires DogPositions.IndexedBySlot(t.neutrals)
    requires Permutes(shuffle)
    ensures var s := NewGame(dogPool, neutralPool, t, rand, shuffle, shuffleDraws);
            && |s.neutralSprites| == |neutralPool|
            && (forall i :: 0 <= i < |s.neutralSprites| ==> s.neutralSprites[i].id == i)
            && |s.placedNeutrals| == Max(Min(|neutralPool|, |t.neutrals|) - 5, 0)
            && (forall i :: 0 <= i < |s.placedNeutrals| ==>
                  s.placedNeutrals[i].id == i && s.placedNeutrals[i].spriteId < |neutralPool|)
  {
    SelectedNeutralsFor(t.neutrals, |neutralPool|, shuffle);
  }

  lemma SelectedNeutralsFor(table: seq<Slot>, q: nat, shuffle: seq<Slot> -> seq<Slot>)
    requires DogPositions.IndexedBySlot(table)
    requires Permutes(shuffle)
    ensures var selected := SelectedNeutrals(table, q, shuffle);
            && |selected| == Max(Min(q, |table|) - 5, 0)
            && (forall i :: 0 <= i < |selected| ==> selected[i].spriteIndex < q)
            && multiset(selected) <= multiset(ValidSlots(table, q))
  {
    ValidSlotsOfTable(table, q);
    var valid := ValidSlots(table, q);
    var shuffled := shuffle(valid);
    assert multiset(shuffled) == multiset(valid);
    assert |shuffled| == |valid| by {
      assert |multiset(shuffled)| == |multiset(valid)|;
    }
    var selected := SelectedNeutrals(table, q, shuffle);
    forall i | 0 <= i < |selected| ensures selected[i].spriteIndex < q {
      assert selected[i] in multiset(shuffled);
      assert selected[i] in valid;
    }
    DropExcludedKeeps(shuffled);
  }

  /** `slice(5)` keeps a part of the shuffled slots, each as often as there. */
  lemma DropExcludedKeeps(shuffled: seq<Slot>)
    ensures multiset(DropExcluded(shuffled)) <= multiset(shuffled)
  {
    var dropped := Min(ExcludedNeutrals, |shuffled|);
    assert shuffled == shuffled[..dropped] + DropExcluded(shuffled);
  }

  /** What a successful initialisation builds from pools of `m` dog sprites
      and `q` neutral sprites: `min(m, 9)` dogs, none found, dog `i`
      showing sprite `i`; `min(q, 36) - 5` distractors (none when fewer
      than five valid slots), each naming a sprite of the pool. */
  lemma InitGameShape(toFind: Result<Spritesheet.ProcessedSprites, Spritesheet.LoadError>,
                      neutral: Result<Spritesheet.ProcessedSprites, Spritesheet.LoadError>,
                      rand: Randomness.Samples, shuffle: seq<Slot> -> seq<Slot>, shuffleDraws: nat)
    requires toFind.Success? && neutral.Success?
    requires Permutes(shuffle)
    ensures var s := InitGame(toFind, neutral, rand, shuffle, shuffleDraws);
            var m := |toFind.value.sprites|;
            var q := |neutral.value.sprites|;
            && |s.sprites| == m && |s.neutralSprites| == q
            && |s.hiddenDogs| == Min(m, 9)
            && |s.placedNeutrals| == Max(Min(q, 36) - 5, 0)
            && IdsAreIndices(s.hiddenDogs)
            && (forall i :: 0 <= i < |s.hiddenDogs| ==> s.hiddenDogs[i].spriteId == i && !s.hiddenDogs[i].found)
            && (forall i :: 0 <= i < |s.placedNeutrals| ==>
                  s.placedNeutrals[i].id == i && s.placedNeutrals[i].spriteId < q)
  {
    DogPositions.DogSlotsShape();
    DogPositions.NeutralSlotsShape();
    NewGameDogs(toFind.value.sprites, neutral.value.sprites, SlotTables, rand, shuffle, shuffleDraws);
    NewGameNeutrals(toFind.value.sprites, neutral.value.sprites, SlotTables, rand, shuffle, shuffleDraws);
  }

  /** With full pools (one sheet of nine dogs, four sheets of nine
      distractors) a game has 9 dogs, none found, and 31 distractors. */
  lemma InitGameFullPools(toFind: Result<Spritesheet.ProcessedSprites, Spritesheet.LoadError>,
                          neutral: Result<Spritesheet.ProcessedSprites, Spritesheet.LoadError>,
                          rand: Randomness.Samples, shuffle: seq<Slot> -> seq<Slot>, shuffleDraws: nat)
    requires toFind.Success? && |toFind.value.sprites| == 9
    requires neutral.Success? && |neutral.value.sprites| == 36
    requires Permutes(shuffle)
    ensures var s := InitGame(toFind, neutral, rand, shuffle, shuffleDraws);
            |s.hiddenDogs| == 9 && |s.placedNeutrals| == 31 && FoundCount(s.hiddenDogs) == 0
  {
    InitGameShape(toFind, neutral, rand, shuffle, shuffleDraws);
    var s := InitGame(toFind, neutral, rand, shuffle, shuffleDraws);
    FoundCountNone(s.hiddenDogs);
  }

  lemma {:induction false} FoundCountNone(dogs: seq<HiddenDog>)
    requires forall i :: 0 <= i < |dogs| ==> !dogs[i].found
    ensures FoundCount(dogs) == 0
    decreases |dogs|
  {
    if |dogs| > 0 {
      FoundCountNone(dogs[..|dogs| - 1]);
    }
  }

  /** The entities sit at the layout's positions, dogs first. */
  lemma NewGamePositions(dogPool: seq<Spritesheet.Sprite>, neutralPool: seq<Spritesheet.Sprite>, t: Tables,
                         rand: Randomness.Samples, shuffle: seq<Slot> -> seq<Slot>, shuffleDraws: nat)
    ensures var s := NewGame(dogPool, neutralPool, t, rand, shuffle, shuffleDraws);
            var l := LayoutFor(t, |dogPool|, |neutralPool|, rand, shuffle, shuffleDraws);
            && |s.hiddenDogs| == |l.dogs.points| && |s.placedNeutrals| == |l.neutrals.points|
            && (forall i :: 0 <= i < |s.hiddenDogs| ==> Point(s.hiddenDogs[i].x, s.hiddenDogs[i].y) == l.dogs.points[i])
            && (forall i :: 0 <= i < |s.placedNeutrals| ==> Point(s.placedNeutrals[i].x, s.placedNeutrals[i].y) == l.neutrals.points[i])
  {
  }

  /** Every position of a layout is inside the 8%-92% area. */
  lemma LayoutInMargin(dogCount: nat, neutralCount: nat, rand: Randomness.Samples, shuffleDraws: nat)
    requires Randomness.UnitSamples(rand)
    ensures var l := PlaceEntities(dogCount, neutralCount, rand, shuffleDraws);
            (forall i :: 0 <= i < |l.dogs.points| ==> Placement.InMargin(l.dogs.points[i])) &&
            (forall i :: 0 <= i < |l.neutrals.points| ==> Placement.InMargin(l.neutrals.points[i]))
  {
    var l := PlaceEntities(dogCount, neutralCount, rand, shuffleDraws);
    assert Placement.AllInMargin(l.dogs.points);
    assert Placement.AllInMargin(l.neutrals.points);
  }

  /** Accepted dog `i` keeps 12% from every earlier dog. */
  lemma DogSeparated(dogCount: nat, rand: Randomness.Samples, i: nat, j: nat)
    requires j < i < dogCount
    requires Placement.PlaceAll([], rand, 0, dogCount).accepted[i]
    ensures var pts := Placement.PlaceAll([], rand, 0, dogCount).points;
            SqDist(pts[i], pts[j]) >= Placement.MinDistanceSq
  {
    var b := Placement.PlaceAll([], rand, 0, dogCount);
    Placement.BatchSeparatedPairs([], b.points, b.accepted, i, j);
    assert [] + b.points == b.points;
  }

  /** Accepted distractor `k` keeps 12% from every dog and every earlier
      distractor: `all[..dogs + k]` is everything placed before it. */
  lemma NeutralSeparated(dogs: seq<Point>, rand: Randomness.Samples, cursor: nat, neutralCount: nat, k: nat, j: nat)
    requires k < neutralCount && j < |dogs| + k
    requires Placement.PlaceAll(dogs, rand, cursor, neutralCount).accepted[k]
    ensures var all := dogs + Placement.PlaceAll(dogs, rand, cursor, neutralCount).points;
            SqDist(all[|dogs| + k], all[j]) >= Placement.MinDistanceSq
  {
    var b := Placement.PlaceAll(dogs, rand, cursor, neutralCount);
    Placement.BatchSeparatedPairs(dogs, b.points, b.accepted, k, j);
  }

  /** The record of src/types/game.ts for a state: the progress fields are
      the ones the component derives on every render. */
  function StateOf(s: AppState): (g: GameState)
    ensures g.foundCount <= g.totalCount == |s.hiddenDogs|
    ensures g.isComplete <==> g.totalCount > 0 && AllFound(s.hiddenDogs)
  {
    CompleteMeansAllFound(s.hiddenDogs);
    GameState(s.sprites, s.hiddenDogs, s.neutralSprites, s.placedNeutrals,
              FoundCount(s.hiddenDogs), |s.hiddenDogs|, IsComplete(s.hiddenDogs))
  }

  /** Every sprite reference of a new game resolves. */
  lemma NewGameRefs(dogPool: seq<Spritesheet.Sprite>, neutralPool: seq<Spritesheet.Sprite>, t: Tables,
                    rand: Randomness.Samples, shuffle: seq<Slot> -> seq<Slot>, shuffleDraws: nat)
    requires DogPositions.IndexedBySlot(t.dogs) && DogPositions.IndexedBySlot(t.neutrals)
    requires Permutes(shuffle)
    ensures var s := NewGame(dogPool, neutralPool, t, rand, shuffle, shuffleDraws);
            (forall i :: 0 <= i < |s.hiddenDogs| ==> HasDogSprite(s.sprites, s.hiddenDogs[i].spriteId)) &&
            (forall i :: 0 <= i < |s.placedNeutrals| ==> HasNeutralSprite(s.neutralSprites, s.placedNeutrals[i].spriteId))
  {
    NewGameDogRefs(dogPool, neutralPool, t, rand, shuffle, shuffleDraws);
    NewGameNeutralRefs(dogPool, neutralPool, t, rand, shuffle, shuffleDraws);
  }

  /** Each dog's sprite reference resolves. */
  lemma NewGameDogRefs(dogPool: seq<Spritesheet.Sprite>, neutralPool: seq<Spritesheet.Sprite>, t: Tables,
                       rand: Randomness.Samples, shuffle: seq<Slot> -> seq<Slot>, shuffleDraws: nat)
    requires DogPositions.IndexedBySlot(t.dogs)
    ensures var s := NewGame(dogPool, neutralPool, t, rand, shuffle, shuffleDraws);
            forall i :: 0 <= i < |s.hiddenDogs| ==> HasDogSprite(s.sprites, s.hiddenDogs[i].spriteId)
  {
    var s := NewGame(dogPool, neutralPool, t, rand, shuffle, shuffleDraws);
    NewGameDogs(dogPool, neutralPool, t, rand, shuffle, shuffleDraws);
    DogRefsResolve(s.sprites, s.hiddenDogs);
  }

  /** Each distractor's sprite reference resolves. */
  lemma NewGameNeutralRefs(dogPool: seq<Spritesheet.Sprite>, neutralPool: seq<Spritesheet.Sprite>, t: Tables,
                           rand: Randomness.Samples, shuffle: seq<Slot> -> seq<Slot>, shuffleDraws: nat)
    requires DogPositions.IndexedBySlot(t.neutrals)
    requires Permutes(shuffle)
    ensures var s := NewGame(dogPool, neutralPool, t, rand, shuffle, shuffleDraws);
            forall i :: 0 <= i < |s.placedNeutrals| ==> HasNeutralSprite(s.neutralSprites, s.placedNeutrals[i].spriteId)
  {
    var s := NewGame(dogPool, neutralPool, t, rand, shuffle, shuffleDraws);
    NewGameNeutrals(dogPool, neutralPool, t, rand, shuffle, shuffleDraws);
    NeutralRefsResolve(s.neutralSprites, s.placedNeutrals);
  }

  /** With ids equal to list positions, any in-range id names a sprite. */
  lemma DogRefsResolve(sprites: seq<DogSprite>, dogs: seq<HiddenDog>)
    requires forall i :: 0 <= i < |sprites| ==> sprites[i].id == i
    requires forall i :: 0 <= i < |dogs| ==> 0 <= dogs[i].spriteId < |sprites|
    ensures forall i :: 0 <= i < |dogs| ==> HasDogSprite(sprites, dogs[i].spriteId)
  {
    forall i | 0 <= i < |dogs| ensures HasDogSprite(sprites, dogs[i].spriteId) {
      var k := dogs[i].spriteId;
      assert sprites[k].id == k;
    }
  }

  lemma NeutralRefsResolve(sprites: seq<NeutralSprite>, neutrals: seq<PlacedNeutralSprite>)
    requires forall i :: 0 <= i < |sprites| ==> sprites[i].id == i
    requires forall i :: 0 <= i < |neutrals| ==> 0 <= neutrals[i].spriteId < |sprites|
    ensures forall i :: 0 <= i < |neutrals| ==> HasNeutralSprite(sprites, neutrals[i].spriteId)
  {
    forall i | 0 <= i < |neutrals| ensures HasNeutralSprite(sprites, neutrals[i].spriteId) {
      var k := neutrals[i].spriteId;
      assert sprites[k].id == k;
    }
  }

  /** Every entity of a new game is placed inside the scene. */
  lemma NewGameInScene(dogPool: seq<Spritesheet.Sprite>, neutralPool: seq<Spritesheet.Sprite>, t: Tables,
                       rand: Randomness.Samples, shuffle: seq<Slot> -> seq<Slot>, shuffleDraws: nat)
    requires Randomness.UnitSamples(rand)
    ensures var s := NewGame(dogPool, neutralPool, t, rand, shuffle, shuffleDraws);
            (forall i :: 0 <= i < |s.hiddenDogs| ==>
               Placement.InMargin(Point(s.hiddenDogs[i].x, s.hiddenDogs[i].y))) &&
            (forall i :: 0 <= i < |s.placedNeutrals| ==>
               Placement.InMargin(Point(s.placedNeutrals[i].x, s.placedNeutrals[i].y)))
  {
    NewGamePositions(dogPool, neutralPool, t, rand, shuffle, shuffleDraws);
    LayoutInMargin(|ValidSlots(t.dogs, |dogPool|)|, |SelectedNeutrals(t.neutrals, |neutralPool|, shuffle)|, rand, shuffleDraws);
  }

  /** A game built from a permuting shuffle and samples in [0, 1) is
      consistent in the sense of the record comments. */
  lemma InitGameValid(toFind: Result<Spritesheet.ProcessedSprites, Spritesheet.LoadError>,
                      neutral: Result<Spritesheet.ProcessedSprites, Spritesheet.LoadError>,
                      rand: Randomness.Samples, shuffle: seq<Slot> -> seq<Slot>, shuffleDraws: nat)
    requires Randomness.UnitSamples(rand)
    requires Permutes(shuffle)
    ensures ValidGameState(StateOf(InitGame(toFind, neutral, rand, shuffle, shuffleDraws)))
  {
    if toFind.Success? && neutral.Success? {
      DogPositions.DogSlotsShape();
      DogPositions.NeutralSlotsShape();
      NewGameValid(toFind.value.sprites, neutral.value.sprites, SlotTables, rand, shuffle, shuffleDraws);
    }
  }

  /** A game built from loaded pools meets the record invariants. */
  lemma NewGameValid(dogPool: seq<Spritesheet.Sprite>, neutralPool: seq<Spritesheet.Sprite>, t: Tables,
                     rand: Randomness.Samples, shuffle: seq<Slot> -> seq<Slot>, shuffleDraws: nat)
    requires DogPositions.IndexedBySlot(t.dogs) && DogPositions.IndexedBySlot(t.neutrals)
    requires Permutes(shuffle)
    requires Randomness.UnitSamples(rand)
    ensures ValidGameState(StateOf(NewGame(dogPool, neutralPool, t, rand, shuffle, shuffleDraws)))
  {
    var s := NewGame(dogPool, neutralPool, t, rand, shuffle, shuffleDraws);
    var g := StateOf(s);
    NewGameRefs(dogPool, neutralPool, t, rand, shuffle, shuffleDraws);
    NewGameInScene(dogPool, neutralPool, t, rand, shuffle, shuffleDraws);
    forall i | 0 <= i < |g.hiddenDogs|
      ensures HasDogSprite(g.sprites, g.hiddenDogs[i].spriteId)
              && IsPercentage(g.hiddenDogs[i].x) && IsPercentage(g.hiddenDogs[i].y)
    {
      assert Placement.InMargin(Point(s.hiddenDogs[i].x, s.hiddenDogs[i].y));
    }
    forall i | 0 <= i < |g.placedNeutrals|
      ensures HasNeutralSprite(g.neutralSprites, g.placedNeutrals[i].spriteId)
              && IsPercentage(g.placedNeutrals[i].x) && IsPercentage(g.placedNeutrals[i].y)
    {
      assert Placement.InMargin(Point(s.placedNeutrals[i].x, s.placedNeutrals[i].y));
    }
  }

  /** `prev.map(dog => dog.id === dogId ? { ...dog, found: true } : dog)`. */
  function MarkFound(dogs: seq<HiddenDog>, dogId: int): (r: seq<HiddenDog>)
    ensures |r| == |dogs|
    ensures forall i :: 0 <= i < |r| ==> r[i].found == (dogs[i].found || dogs[i].id == dogId)
    ensures forall i :: 0 <= i < |r| ==> r[i].(found := dogs[i].found) == dogs[i]
  {
    seq(|dogs|, i requires 0 <= i < |dogs| => if dogs[i].id == dogId then dogs[i].(found := true) else dogs[i])
  }

  /** Marking the same dog twice changes nothing more. */
  lemma MarkFoundIdempotent(dogs: seq<HiddenDog>, dogId: int)
    ensures MarkFound(MarkFound(dogs, dogId), dogId) == MarkFound(dogs, dogId)
  {
  }

  /** No dog with that id, or it is already found: nothing changes. */
  lemma MarkFoundNoop(dogs: seq<HiddenDog>, dogId: int)
    ensures MarkFound(dogs, dogId) == dogs <==>
            forall i :: 0 <= i < |dogs| && dogs[i].id == dogId ==> dogs[i].found
  {
    var r := MarkFound(dogs, dogId);
    if r == dogs {
      forall i | 0 <= i < |dogs| && dogs[i].id == dogId ensures dogs[i].found {
        assert r[i].found;
      }
    } else {
      var i :| 0 <= i < |dogs| && r[i] != dogs[i];
    }
  }

  /** With ids equal to positions, marking an unfound dog adds exactly one
      to the found count. */
  lemma MarkFoundCounts(dogs: seq<HiddenDog>, dogId: int)
    requires IdsAreIndices(dogs)
    requires 0 <= dogId < |dogs| && !dogs[dogId].found
    ensures FoundCount(MarkFound(dogs, dogId)) == FoundCount(dogs) + 1
  {
    FoundCountOneMore(dogs, MarkFound(dogs, dogId), dogId);
  }

  /** `handleDogFound`: the announced number is the found count before the
      update plus one; the love message is switched on. */
  function HandleDogFound(s: AppState, dogId: int): (r: AppState)
    ensures r.sprites == s.sprites && r.neutralSprites == s.neutralSprites && r.placedNeutrals == s.placedNeutrals
    ensures r.showLoveMessage
  {
    s.(hiddenDogs := MarkFound(s.hiddenDogs, dogId),
       currentDogNumber := FoundCount(s.hiddenDogs) + 1,
       showLoveMessage := true)
  }

  /** Finding an unfound dog announces its rank: the number shown is the
      new found count, between 1 and the number of dogs. */
  lemma HandleDogFoundAnnounces(s: AppState, dogId: int)
    requires IdsAreIndices(s.hiddenDogs)
    requires 0 <= dogId < |s.hiddenDogs| && !s.hiddenDogs[dogId].found
    ensures var r := HandleDogFound(s, dogId);
            r.currentDogNumber == FoundCount(r.hiddenDogs) && 1 <= r.currentDogNumber <= |r.hiddenDogs|
  {
    MarkFoundCounts(s.hiddenDogs, dogId);
  }

  /** `showLoveMessage && currentDogNumber > 0 && !isComplete`. */
  predicate LoveMessageVisible(s: AppState) {
    s.showLoveMessage && s.currentDogNumber > 0 && !IsComplete(s.hiddenDogs)
  }

  /** `handleLoveMessageComplete`. */
  function LoveMessageComplete(s: AppState): (r: AppState)
    ensures !LoveMessageVisible(r)
    ensures r.(showLoveMessage := s.showLoveMessage) == s
  {
    s.(showLoveMessage := false)
  }

  /** Finding the last unfound dog completes the game and shows the win
      screen instead of a love message; finding any other dog shows the
      love message for the new count. */
  lemma FoundDogMessage(s: AppState, dogId: int)
    requires IdsAreIndices(s.hiddenDogs)
    requires 0 <= dogId < |s.hiddenDogs| && !s.hiddenDogs[dogId].found
    ensures var r := HandleDogFound(s, dogId);
            && (IsComplete(r.hiddenDogs) <==> FoundCount(s.hiddenDogs) + 1 == |s.hiddenDogs|)
            && (LoveMessageVisible(r) <==> !IsComplete(r.hiddenDogs))
  {
    HandleDogFoundAnnounces(s, dogId);
  }

  /** A click on the scene: a hit runs `handleDogFound` for that dog, a
      miss does nothing. */
  function Click(s: AppState, clientX: real, clientY: real, rect: GameScene.ClientRect): (r: AppState)
    ensures r.sprites == s.sprites && r.neutralSprites == s.neutralSprites && r.placedNeutrals == s.placedNeutrals
  {
    match GameScene.HandleSceneClick(s.hiddenDogs, clientX, clientY, rect)
    case None => s
    case Some(dogId) => HandleDogFound(s, dogId)
  }

  /** A click changes the state exactly when it hits an unfound dog. */
  lemma ClickChangesIffHit(s: AppState, clientX: real, clientY: real, rect: GameScene.ClientRect)
    ensures Click(s, clientX, clientY, rect) == s <==> GameScene.HandleSceneClick(s.hiddenDogs, clientX, clientY, rect).None?
  {
    var h := GameScene.HandleSceneClick(s.hiddenDogs, clientX, clientY, rect);
    if h.Some? {
      var p := GameScene.ClickPercent(clientX, clientY, rect).value;
      var i :| 0 <= i < |s.hiddenDogs| && s.hiddenDogs[i].id == h.value && GameScene.Hits(s.hiddenDogs[i], p);
      assert Click(s, clientX, clientY, rect).hiddenDogs[i].found;
    }
  }

  /** With ids equal to positions, a hit finds exactly one more dog and
      announces the new count. */
  lemma ClickFindsOne(s: AppState, clientX: real, clientY: real, rect: GameScene.ClientRect)
    requires IdsAreIndices(s.hiddenDogs)
    requires GameScene.HandleSceneClick(s.hiddenDogs, clientX, clientY, rect).Some?
    ensures var r := Click(s, clientX, clientY, rect);
            FoundCount(r.hiddenDogs) == FoundCount(s.hiddenDogs) + 1 && r.currentDogNumber == FoundCount(r.hiddenDogs)
  {
    var h := GameScene.HandleSceneClick(s.hiddenDogs, clientX, clientY, rect);
    var p := GameScene.ClickPercent(clientX, clientY, rect).value;
    var i :| 0 <= i < |s.hiddenDogs| && s.hiddenDogs[i].id == h.value && GameScene.Hits(s.hiddenDogs[i], p);
    HandleDogFoundAnnounces(s, i);
  }

  /** Of two unfound dogs under the click, only the earlier one in the list
      is found: the later one stays hidden. */
  lemma ClickFindsEarliest(s: AppState, clientX: real, clientY: real, rect: GameScene.ClientRect, i: nat, j: nat)
    requires IdsAreIndices(s.hiddenDogs)
    requires GameScene.ClickPercent(clientX, clientY, rect).Some?
    requires i < j < |s.hiddenDogs|
    requires GameScene.Hits(s.hiddenDogs[i], GameScene.ClickPercent(clientX, clientY, rect).value)
    requires GameScene.Hits(s.hiddenDogs[j], GameScene.ClickPercent(clientX, clientY, rect).value)
    ensures !Click(s, clientX, clientY, rect).hiddenDogs[j].found
  {
    var h := GameScene.HandleSceneClick(s.hiddenDogs, clientX, clientY, rect);
    var p := GameScene.ClickPercent(clientX, clientY, rect).value;
    var k :| 0 <= k < |s.hiddenDogs| && s.hiddenDogs[k].id == h.value && GameScene.Hits(s.hiddenDogs[k], p)
             && forall m :: 0 <= m < k ==> !GameScene.Hits(s.hiddenDogs[m], p);
    assert k <= i;
  }

  /** Found flags never revert, so progress never goes back. */
  lemma ClickKeepsProgress(s: AppState, clientX: real, clientY: real, rect: GameScene.ClientRect)
    ensures var r := Click(s, clientX, clientY, rect);
            && |r.hiddenDogs| == |s.hiddenDogs|
            && (forall i :: 0 <= i < |s.hiddenDogs| && s.hiddenDogs[i].found ==> r.hiddenDogs[i].found)
            && FoundCount(s.hiddenDogs) <= FoundCount(r.hiddenDogs)
            && (IsComplete(s.hiddenDogs) ==> r == s)
  {
    var r := Click(s, clientX, clientY, rect);
    FoundCountMonotone(s.hiddenDogs, r.hiddenDogs);
    if IsComplete(s.hiddenDogs) {
      CompleteMeansAllFound(s.hiddenDogs);
      ClickChangesIffHit(s, clientX, clientY, rect);
    }
  }

  /** Clicks keep a consistent game consistent: only found flags change. */
  lemma ClickPreservesValid(s: AppState, clientX: real, clientY: real, rect: GameScene.ClientRect)
    requires ValidGameState(StateOf(s))
    ensures ValidGameState(StateOf(Click(s, clientX, clientY, rect)))
  {
  }

  /** `initGame` against the loaders: the two pools are loaded (in either
      order: they share no state) and the game is built from them. */
  method StartGame(load: Spritesheet.Loader, rand: Randomness.Samples, shuffle: seq<Slot> -> seq<Slot>, shuffleDraws: nat)
    returns (s: AppState)
    requires Permutes(shuffle)
    ensures var toFindLoads := load(Spritesheet.SheetPath(Spritesheet.ToFindPattern, 1)).Some?;
            var neutralLoads := Spritesheet.AllSheetsLoad(Spritesheet.NeutralPattern, 4, load);
            && (toFindLoads && neutralLoads ==> |s.hiddenDogs| == 9 && |s.placedNeutrals| == 31 && FoundCount(s.hiddenDogs) == 0)
            && (!(toFindLoads && neutralLoads) ==> s == Initial)
  {
    var toFind := Spritesheet.LoadSpritesToFind(load);
    var neutral := Spritesheet.LoadNeutralSprites(load);
    s := InitGame(toFind, neutral, rand, shuffle, shuffleDraws);
    if toFind.Success? && neutral.Success? {
      InitGameFullPools(toFind, neutral, rand, shuffle, shuffleDraws);
    }
  }
}
