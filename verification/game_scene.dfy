/** The play area (src/components/GameScene.tsx): turning a click into scene
    percentages, hit-testing the unfound dogs, and resolving each placed
    entity's sprite for display. */
module GameScene {
  import opened Results
  import opened GameTypes
  import Spritesheet
  import Lookup

  /** The detection radius is 7%; `sqrt(d) <= 7` exactly when `d <= 49`. */
  const DetectionRadiusSq: real := 49.0

  /** The scene element's bounding box, in client pixels. */
  datatype ClientRect = ClientRect(left: real, top: real, width: real, height: real)

  /** The click in percent of the scene. A zero-sized box makes the
      browser's division produce an infinity or NaN, against which every
      distance test fails: that case is `None`. */
  function ClickPercent(clientX: real, clientY: real, rect: ClientRect): (r: Option<Point>)
    ensures r.Some? <==> rect.width != 0.0 && rect.height != 0.0
    ensures r.Some? ==> r.value.x * rect.width == (clientX - rect.left) * 100.0
    ensures r.Some? ==> r.value.y * rect.height == (clientY - rect.top) * 100.0
  {
    if rect.width == 0.0 || rect.height == 0.0 then None
    else Some(Point((clientX - rect.left) / rect.width * 100.0, (clientY - rect.top) / rect.height * 100.0))
  }

  /** Client coordinates of a scene point. */
  function ClientOf(p: Point, rect: ClientRect): (c: (real, real)) {
    (rect.left + p.x * rect.width / 100.0, rect.top + p.y * rect.height / 100.0)
  }

  /** Clicking where a scene point is drawn yields that point back. */
  lemma ClickPercentRoundTrip(p: Point, rect: ClientRect)
    requires rect.width != 0.0 && rect.height != 0.0
    ensures ClickPercent(ClientOf(p, rect).0, ClientOf(p, rect).1, rect) == Some(p)
  {
    var r := ClickPercent(ClientOf(p, rect).0, ClientOf(p, rect).1, rect);
    assert r.value.x * rect.width == p.x * rect.width;
    assert r.value.y * rect.height == p.y * rect.height;
  }

  /** A click at `p` catches `dog`: it is not found yet and lies within the
      detection radius. */
  predicate Hits(dog: HiddenDog, p: Point) {
    !dog.found && SqDist(p, Point(dog.x, dog.y)) <= DetectionRadiusSq
  }

  /** The scan over the dogs in list order, stopping at the first hit. */
  function FirstHit(dogs: seq<HiddenDog>, p: Point): (r: Option<nat>)
    ensures r.Some? ==> r.value < |dogs| && Hits(dogs[r.value], p)
    ensures r.Some? ==> forall j :: 0 <= j < r.value ==> !Hits(dogs[j], p)
    ensures r.None? <==> forall j :: 0 <= j < |dogs| ==> !Hits(dogs[j], p)
    decreases |dogs|
  {
    if |dogs| == 0 then None
    else if Hits(dogs[0], p) then Some(0)
    else
      match FirstHit(dogs[1..], p)
      case None => None
      case Some(k) => Some(k + 1)
  }

  /** `handleSceneClick`: the id passed to `onDogFound`, if any. Neutral
      sprites take no part. */
  function HandleSceneClick(dogs: seq<HiddenDog>, clientX: real, clientY: real, rect: ClientRect): (r: Option<int>)
    ensures r.Some? <==> ClickPercent(clientX, clientY, rect).Some? &&
                         exists i :: 0 <= i < |dogs| && Hits(dogs[i], ClickPercent(clientX, clientY, rect).value)
    ensures r.Some? ==> exists i :: 0 <= i < |dogs| && dogs[i].id == r.value && Hits(dogs[i], ClickPercent(clientX, clientY, rect).value)
                                    && forall j :: 0 <= j < i ==> !Hits(dogs[j], ClickPercent(clientX, clientY, rect).value)
  {
    match ClickPercent(clientX, clientY, rect)
    case None => None
    case Some(p) =>
      match FirstHit(dogs, p)
      case None => None
      case Some(i) => Some(dogs[i].id)
  }

  function DogSpriteId(s: DogSprite): int { s.id }

  function NeutralSpriteId(s: NeutralSprite): int { s.id }

  /** A rendered dog: its sprite's image and name, its position and whether
      it carries the `found` class. */
  datatype DogImage = DogImage(dogId: int, image: Spritesheet.Sprite, alt: string, x: real, y: real, found: bool)

  /** A rendered distractor. */
  datatype NeutralImage = NeutralImage(placedId: int, image: Spritesheet.Sprite, x: real, y: real)

  /** The `img` for one dog, or nothing when no sprite has its `spriteId`.
      The sprite map keeps the last sprite with a given id. */
  function RenderDog(sprites: seq<DogSprite>, dog: HiddenDog): (r: Option<DogImage>)
    ensures r.Some? <==> HasDogSprite(sprites, dog.spriteId)
    ensures r.Some? ==> r.value.dogId == dog.id && r.value.x == dog.x && r.value.y == dog.y && r.value.found == dog.found
    ensures r.Some? ==> exists j :: 0 <= j < |sprites| && sprites[j].id == dog.spriteId &&
                                    r.value.image == sprites[j].image && r.value.alt == sprites[j].name &&
                                    forall k :: j < k < |sprites| ==> sprites[k].id != dog.spriteId
  {
    match Lookup.LastIndexOf(sprites, DogSpriteId, dog.spriteId)
    case None => None
    case Some(j) => Some(DogImage(dog.id, sprites[j].image, sprites[j].name, dog.x, dog.y, dog.found))
  }

  /** The `img` for one placed distractor, or nothing when no neutral sprite
      has its `spriteId`; as for dogs, the last sprite with that id wins. */
  function RenderNeutral(sprites: seq<NeutralSprite>, placed: PlacedNeutralSprite): (r: Option<NeutralImage>)
    ensures r.Some? <==> HasNeutralSprite(sprites, placed.spriteId)
    ensures r.Some? ==> r.value.placedId == placed.id && r.value.x == placed.x && r.value.y == placed.y
    ensures r.Some? ==> exists j :: 0 <= j < |sprites| && sprites[j].id == placed.spriteId && r.value.image == sprites[j].image &&
                                    forall k :: j < k < |sprites| ==> sprites[k].id != placed.spriteId
  {
    match Lookup.LastIndexOf(sprites, NeutralSpriteId, placed.spriteId)
    case None => None
    case Some(j) => Some(NeutralImage(placed.id, sprites[j].image, placed.x, placed.y))
  }

  /** The scene's two layers: distractors first, dogs drawn over them. */
  datatype Scene = Scene(neutrals: seq<Option<NeutralImage>>, dogs: seq<Option<DogImage>>)

  function RenderScene(g: GameState): (sc: Scene)
    ensures |sc.neutrals| == |g.placedNeutrals| && |sc.dogs| == |g.hiddenDogs|
    ensures forall i :: 0 <= i < |sc.dogs| ==> sc.dogs[i] == RenderDog(g.sprites, g.hiddenDogs[i])
    ensures forall i :: 0 <= i < |sc.neutrals| ==> sc.neutrals[i] == RenderNeutral(g.neutralSprites, g.placedNeutrals[i])
    ensures forall i :: 0 <= i < |sc.dogs| ==>
              (sc.dogs[i].Some? <==> HasDogSprite(g.sprites, g.hiddenDogs[i].spriteId)) &&
              (sc.dogs[i].Some? ==> sc.dogs[i].value.dogId == g.hiddenDogs[i].id &&
                                    sc.dogs[i].value.x == g.hiddenDogs[i].x && sc.dogs[i].value.y == g.hiddenDogs[i].y &&
                                    sc.dogs[i].value.found == g.hiddenDogs[i].found)
    ensures forall i :: 0 <= i < |sc.neutrals| ==>
              (sc.neutrals[i].Some? <==> HasNeutralSprite(g.neutralSprites, g.placedNeutrals[i].spriteId)) &&
              (sc.neutrals[i].Some? ==> sc.neutrals[i].value.placedId == g.placedNeutrals[i].id &&
                                        sc.neutrals[i].value.x == g.placedNeutrals[i].x && sc.neutrals[i].value.y == g.placedNeutrals[i].y)
  {
    Scene(
      seq(|g.placedNeutrals|, i requires 0 <= i < |g.placedNeutrals| => RenderNeutral(g.neutralSprites, g.placedNeutrals[i])),
      seq(|g.hiddenDogs|, i requires 0 <= i < |g.hiddenDogs| => RenderDog(g.sprites, g.hiddenDogs[i])))
  }

  /** In a consistent game every dog and every distractor is drawn. */
  lemma ValidSceneDrawsAll(g: GameState)
    requires ValidGameState(g)
    ensures var sc := RenderScene(g);
            (forall i :: 0 <= i < |sc.dogs| ==> sc.dogs[i].Some?) &&
            (forall i :: 0 <= i < |sc.neutrals| ==> sc.neutrals[i].Some?)
  {
  }

  /** With sprite ids equal to pool indices, dog `i` shows sprite `spriteId`. */
  lemma RenderDogByIndex(sprites: seq<DogSprite>, dog: HiddenDog)
    requires forall j :: 0 <= j < |sprites| ==> sprites[j].id == j
    requires 0 <= dog.spriteId < |sprites|
    ensures RenderDog(sprites, dog) == Some(DogImage(dog.id, sprites[dog.spriteId].image, sprites[dog.spriteId].name, dog.x, dog.y, dog.found))
  {
    Lookup.LastIndexOfDistinct(sprites, DogSpriteId, dog.spriteId);
  }
}
