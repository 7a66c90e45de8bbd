/** The game's records (src/types/game.ts) and the progress values derived
    from them. Coordinates are percentages of the scene, as reals; a sprite's
    image is the processed sprite its data URL encodes. */
module GameTypes {
  import Spritesheet

  /** A processed dog sprite of the pool to find. */
  datatype DogSprite = DogSprite(id: int, image: Spritesheet.Sprite, name: string)

  /** A dog placed in the scene; `spriteId` names a `DogSprite.id`. */
  datatype HiddenDog = HiddenDog(id: int, spriteId: int, x: real, y: real, found: bool)

  /** A processed neutral (distractor) sprite. */
  datatype NeutralSprite = NeutralSprite(id: int, image: Spritesheet.Sprite)

  /** A neutral sprite placed in the scene; `spriteId` names a `NeutralSprite.id`. */
  datatype PlacedNeutralSprite = PlacedNeutralSprite(id: int, spriteId: int, x: real, y: real)

  /** The whole game: pools, placed entities and the derived progress. */
  datatype GameState = GameState(
    sprites: seq<DogSprite>,
    hiddenDogs: seq<HiddenDog>,
    neutralSprites: seq<NeutralSprite>,
    placedNeutrals: seq<PlacedNeutralSprite>,
    foundCount: int,
    totalCount: int,
    isComplete: bool)

  /** A point of the scene, in percent on each axis. */
  datatype Point = Point(x: real, y: real)

  /** Squared Euclidean distance; `sqrt(d) < r` is `d < r * r` for r >= 0. */
  function SqDist(p: Point, q: Point): real {
    (p.x - q.x) * (p.x - q.x) + (p.y - q.y) * (p.y - q.y)
  }

  predicate IsPercentage(v: real) {
    0.0 <= v <= 100.0
  }

  /** Number of found dogs: `hiddenDogs.filter(dog => dog.found).length`. */
  function FoundCount(dogs: seq<HiddenDog>): (n: nat)
    ensures n <= |dogs|
  {
    if |dogs| == 0 then 0
    else FoundCount(dogs[..|dogs| - 1]) + (if dogs[|dogs| - 1].found then 1 else 0)
  }

  predicate AllFound(dogs: seq<HiddenDog>) {
    forall i :: 0 <= i < |dogs| ==> dogs[i].found
  }

  /** `totalCount > 0 && foundCount === totalCount`. */
  function IsComplete(dogs: seq<HiddenDog>): bool {
    |dogs| > 0 && FoundCount(dogs) == |dogs|
  }

  /** Every dog is counted exactly when every dog is found. */
  lemma {:induction false} FoundCountFull(dogs: seq<HiddenDog>)
    ensures FoundCount(dogs) == |dogs| <==> AllFound(dogs)
    decreases |dogs|
  {
    if |dogs| > 0 {
      var init := dogs[..|dogs| - 1];
      FoundCountFull(init);
      assert AllFound(dogs) <==> AllFound(init) && dogs[|dogs| - 1].found by {
        if AllFound(init) && dogs[|dogs| - 1].found {
          forall i | 0 <= i < |dogs| ensures dogs[i].found {
            if i < |dogs| - 1 {
              assert dogs[i] == init[i];
            }
          }
        }
      }
    }
  }

  /** The game is complete exactly when there is a dog and all dogs are found. */
  lemma CompleteMeansAllFound(dogs: seq<HiddenDog>)
    ensures IsComplete(dogs) <==> |dogs| > 0 && AllFound(dogs)
  {
    FoundCountFull(dogs);
  }

  /** Found flags are only ever set: a list whose flags dominate another's
      counts at least as many found dogs. */
  lemma {:induction false} FoundCountMonotone(a: seq<HiddenDog>, b: seq<HiddenDog>)
    requires |a| == |b|
    requires forall i :: 0 <= i < |a| && a[i].found ==> b[i].found
    ensures FoundCount(a) <= FoundCount(b)
    decreases |a|
  {
    if |a| > 0 {
      FoundCountMonotone(a[..|a| - 1], b[..|b| - 1]);
    }
  }

  /** Setting the flag of one unfound dog, and nothing else, adds one. */
  lemma {:induction false} FoundCountOneMore(a: seq<HiddenDog>, b: seq<HiddenDog>, k: nat)
    requires |a| == |b| && k < |a|
    requires !a[k].found && b[k].found
    requires forall i :: 0 <= i < |a| && i != k ==> a[i].found == b[i].found
    ensures FoundCount(b) == FoundCount(a) + 1
    decreases |a|
  {
    var n := |a| - 1;
    if k < n {
      FoundCountOneMore(a[..n], b[..n], k);
    } else {
      FoundCountSame(a[..n], b[..n]);
    }
  }

  lemma {:induction false} FoundCountSame(a: seq<HiddenDog>, b: seq<HiddenDog>)
    requires |a| == |b|
    requires forall i :: 0 <= i < |a| ==> a[i].found == b[i].found
    ensures FoundCount(b) == FoundCount(a)
    decreases |a|
  {
    if |a| > 0 {
      FoundCountSame(a[..|a| - 1], b[..|b| - 1]);
    }
  }

  predicate HasDogSprite(sprites: seq<DogSprite>, id: int) {
    exists j :: 0 <= j < |sprites| && sprites[j].id == id
  }

  predicate HasNeutralSprite(sprites: seq<NeutralSprite>, id: int) {
    exists j :: 0 <= j < |sprites| && sprites[j].id == id
  }

  /** What the record comments promise: sprite references resolve, positions
      are percentages, and the progress fields count the dogs. */
  ghost predicate ValidGameState(g: GameState) {
    && (forall i :: 0 <= i < |g.hiddenDogs| ==>
          HasDogSprite(g.sprites, g.hiddenDogs[i].spriteId)
          && IsPercentage(g.hiddenDogs[i].x) && IsPercentage(g.hiddenDogs[i].y))
    && (forall i :: 0 <= i < |g.placedNeutrals| ==>
          HasNeutralSprite(g.neutralSprites, g.placedNeutrals[i].spriteId)
          && IsPercentage(g.placedNeutrals[i].x) && IsPercentage(g.placedNeutrals[i].y))
    && g.foundCount == FoundCount(g.hiddenDogs)
    && g.totalCount == |g.hiddenDogs|
    && (g.isComplete <==> g.totalCount > 0 && AllFound(g.hiddenDogs))
  }
}
