/** The sidebar of sprites to find (src/components/ItemList.tsx): the
    progress counter and one entry per dog sprite, checked when the dog
    showing that sprite is found. */
module ItemList {
  import opened Results
  import opened GameTypes
  import Spritesheet
  import Lookup
  import Text

  /** The counter `foundCount / totalCount`. */
  datatype Progress = Progress(found: nat, total: nat)

  function ProgressOf(dogs: seq<HiddenDog>): (p: Progress)
    ensures p.found <= p.total == |dogs|
    ensures p.found == p.total && p.total > 0 <==> IsComplete(dogs)
  {
    Progress(FoundCount(dogs), |dogs|)
  }

  function DogSpriteKey(d: HiddenDog): int { d.spriteId }

  /** `foundStatus.get(spriteId)`: the flag of the last dog showing that
      sprite, or nothing when no dog shows it. */
  function FoundStatus(dogs: seq<HiddenDog>, spriteId: int): (r: Option<bool>)
    ensures r.None? <==> forall j :: 0 <= j < |dogs| ==> dogs[j].spriteId != spriteId
    ensures r.Some? ==> exists j :: 0 <= j < |dogs| && dogs[j].spriteId == spriteId && r.value == dogs[j].found &&
                                    forall k :: j < k < |dogs| ==> dogs[k].spriteId != spriteId
  {
    match Lookup.LastIndexOf(dogs, DogSpriteKey, spriteId)
    case None => None
    case Some(j) => Some(dogs[j].found)
  }

  /** `foundStatus.get(sprite.id) ?? false`. */
  function IsFound(dogs: seq<HiddenDog>, spriteId: int): bool {
    FoundStatus(dogs, spriteId).GetOr(false)
  }

  /** One entry of the list. */
  datatype Item = Item(spriteId: int, image: Spritesheet.Sprite, alt: string, found: bool)

  /** The entries, one per dog sprite, in pool order. */
  function Items(sprites: seq<DogSprite>, dogs: seq<HiddenDog>): (r: seq<Item>)
    ensures |r| == |sprites|
    ensures forall i :: 0 <= i < |r| ==> r[i].spriteId == sprites[i].id && r[i].image == sprites[i].image
    ensures forall i :: 0 <= i < |r| ==> r[i].found == IsFound(dogs, sprites[i].id)
  {
    seq(|sprites|, i requires 0 <= i < |sprites| =>
      Item(sprites[i].id, sprites[i].image, "Dog " + Text.IntToString(sprites[i].id + 1), IsFound(dogs, sprites[i].id)))
  }

  /** When dog `i` shows sprite `i`, an entry is checked exactly when the
      dog showing its sprite is found; entries without a dog stay
      unchecked. */
  lemma IsFoundOfIndexedDogs(dogs: seq<HiddenDog>, spriteId: int)
    requires forall i :: 0 <= i < |dogs| ==> dogs[i].spriteId == i
    ensures IsFound(dogs, spriteId) <==> 0 <= spriteId < |dogs| && dogs[spriteId].found
  {
    if 0 <= spriteId < |dogs| {
      Lookup.LastIndexOfDistinct(dogs, DogSpriteKey, spriteId);
    }
  }

  /** Checked entries, counted like the found dogs. */
  function CheckedCount(items: seq<Item>): (n: nat)
    ensures n <= |items|
  {
    if |items| == 0 then 0
    else CheckedCount(items[..|items| - 1]) + (if items[|items| - 1].found then 1 else 0)
  }

  lemma {:induction false} CountsAgree(items: seq<Item>, dogs: seq<HiddenDog>)
    requires |items| == |dogs|
    requires forall i :: 0 <= i < |items| ==> items[i].found == dogs[i].found
    ensures CheckedCount(items) == FoundCount(dogs)
    decreases |items|
  {
    if |items| > 0 {
      CountsAgree(items[..|items| - 1], dogs[..|dogs| - 1]);
    }
  }

  /** In a game as built (sprite `i` has id `i`, dog `i` shows sprite `i`,
      one dog per sprite) the checkmarks agree with the counter. */
  lemma CheckmarksMatchCounter(sprites: seq<DogSprite>, dogs: seq<HiddenDog>)
    requires |sprites| == |dogs|
    requires forall i :: 0 <= i < |sprites| ==> sprites[i].id == i
    requires forall i :: 0 <= i < |dogs| ==> dogs[i].spriteId == i
    ensures CheckedCount(Items(sprites, dogs)) == ProgressOf(dogs).found
  {
    var items := Items(sprites, dogs);
    forall i | 0 <= i < |items| ensures items[i].found == dogs[i].found {
      IsFoundOfIndexedDogs(dogs, i);
    }
    CountsAgree(items, dogs);
  }
}
