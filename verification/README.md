# Hidden-dogs game: a Dafny model of its core

The game is a browser hide-and-seek picture: dog sprites and distractor
sprites are cut from 3 x 3 spritesheets, scattered at random positions that
keep a minimum distance from each other, and the player clicks to find the
dogs. Each find shows an escalating love message. The sidebar checks off
the found dogs, and finding the last one wins the game.

This project models that core as pure functions and small methods:

- **Spritesheet loading** (`Spritesheet`, `ColorKey`, `Text`):
  - the `{index}` path pattern with two-digit numbers;
  - cutting nine cells per sheet, row-major;
  - concatenating several sheets in order, where the first failure fails the whole load: an image that does not load, or, when the colour key is on, a sheet under 3 px wide or high, whose empty `getImageData` rectangle throws the DOM's `IndexSizeError`;
  - the optional white-to-transparent colour key, with its exact rounding of the fade alpha.
- **Slot tables** (`DogPositions`): the fixed dog and distractor slots.
- **Game set-up** (`App`, `Placement`, `Randomness`):
  - filtering the slots against the loaded pools;
  - shuffling the distractor slots and dropping five of them;
  - placing each entity with `getSeparatedPosition`: up to 50 candidates in the 8%-92% area, then a fallback, all against one shared list of earlier positions.
- **Play** (`App`, `GameScene`, `Lookup`):
  - turning a click into scene percentages;
  - the first unfound dog within 7% is found;
  - the announced dog number;
  - the love-message visibility rule;
  - resolving sprites for display through id maps, where the last entry wins.
- **Overlays** (`LoveMessage`, `ItemList`):
  - the message, heart count, emphasis level and timings for a dog number;
  - the generated floating hearts;
  - the progress counter and the checked sidebar entries.

Modelling choices:

- **Randomness.** `Math.random` is a stream `rand: nat -> real` plus a cursor. Every consumer states how many samples it draws.
- **Shuffle.** The `sort(() => Math.random() - 0.5)` shuffle is an arbitrary permutation passed as a parameter. The number of samples it consumes is a parameter too.
- **Loading.** Image loading is a `Loader` function from a path to an optional RGBA raster.
- **Sprites.** A sprite's data URL is represented by the cell and pixel bytes it encodes.
- **Coordinates.** Coordinates are reals. Distances are compared squared: `sqrt(d) < 12` is `d < 144`, and `sqrt(d) <= 7` is `d <= 49`.
- **Zero-size scene.** A zero-width or zero-height scene gives infinite or NaN percentages in the source, and these are never within 7% of a dog. The model yields no click point instead, with the same outcome.
- **`isComplete`.** The model follows `src/App.tsx`: there is at least one dog and the found count equals the total. The record comment in `src/types/game.ts` only says "all dogs found", which an empty game would also satisfy.

## Model

| member | source | states |
|---|---|---|
| Text.NatToString | src/utils/spritesheet.ts:66 | `i.toString()` is a non-empty string of decimal digits with no leading zero (except "0" itself) |
| Text.ParseNatToString | src/utils/spritesheet.ts:66 | reading the decimal text back gives the number: `toString` is inverted by decimal parsing |
| Text.NatToStringInjective | src/utils/spritesheet.ts:66 | different sheet numbers give different texts |
| Text.PadStart | src/utils/spritesheet.ts:66 | `padStart(2, '0')`: the length is the larger of the two, the original text is the suffix, and everything before it is the fill character |
| Text.LeadingZerosIgnored | src/utils/spritesheet.ts:66 | leading zeros from padding do not change the number the text denotes |
| Text.FindFrom | src/utils/spritesheet.ts:66 | the search returns the first occurrence at or after the start, or nothing exactly when there is none |
| Text.ReplaceFirstSpec | src/utils/spritesheet.ts:66 | `replace` with a string pattern substitutes the first occurrence only: prefix, replacement, then the rest unchanged |
| Text.ReplaceFirstAbsent | src/utils/spritesheet.ts:66 | when the pattern does not occur, `replace` returns the text unchanged |
| Spritesheet.SheetNumberRoundTrip | src/utils/spritesheet.ts:66 | the sheet number text is at least two digits and parses back to the sheet index |
| Spritesheet.SheetNumberExamples | src/utils/spritesheet.ts:66 | sheets 1, 4 and 12 are numbered "01", "04" and "12" |
| Spritesheet.SheetPathSubstitutes | src/utils/spritesheet.ts:66 | in a pattern `prefix{index}suffix`, the sheet path is the prefix, the two-digit number, then the suffix |
| Spritesheet.GridCellInside | src/utils/spritesheet.ts:22-38 | each of the nine cells, `floor(w/3)` x `floor(h/3)` at column `k % 3` and row `k / 3`, lies inside the image |
| Spritesheet.ExtractAndProcessSprite | src/utils/spritesheet.ts:111-170 | fails with `IndexSizeError` exactly when the colour key is on and the cell has zero width or height; otherwise the sprite is the cell's crop, colour-keyed exactly when the sheet has no transparency |
| Spritesheet.LoadAndProcessSpritesheet | src/utils/spritesheet.ts:19-48 | fails exactly when the image does not load (that path is the error) or, with the colour key on, the image is under 3 px wide or high (`IndexSizeError`); otherwise nine sprites, sprite `k` from grid cell `k`, and a cell size of `floor(w/3)` x `floor(h/3)` |
| Spritesheet.ExtractCell | src/utils/spritesheet.ts:22-38 | cutting cell (`col`, `row`) fails with `IndexSizeError` exactly when the colour key is on and the sheet's cells are empty; otherwise it yields grid cell `3 row + col` |
| Spritesheet.LoadMultipleSpritesheets | src/utils/spritesheet.ts:56-78 | succeeds exactly when sheets 1..count all load and can be cut; a failure is the error of the first sheet that could not, every earlier one being fine; sheet `i`'s nine sprites occupy flat indices `9(i-1)..9i`; the cell size is the last sheet's, or 0 x 0 when count < 1 |
| Spritesheet.ReadyWithoutColorKey | src/utils/spritesheet.ts:19-48 | without the colour key, every sheet can be cut exactly when it loads |
| Spritesheet.FirstFailureWithoutColorKey | src/utils/spritesheet.ts:56-78 | without the colour key, the failing sheet is the first one that does not load, and the error names its path |
| Spritesheet.FlatSprite | src/utils/spritesheet.ts:56-78 | in a concatenated load, flat sprite `k` is grid cell `k % 9` of sheet `k / 9 + 1` |
| Spritesheet.LoadSpritesToFind | src/utils/spritesheet.ts:83-85 | succeeds exactly when "/to_find/01.png" loads, and otherwise fails with that path; then sprite `k` of the nine is the plain crop of grid cell `k`, with no colour key applied |
| Spritesheet.LoadNeutralSprites | src/utils/spritesheet.ts:90-92 | succeeds exactly when "/neutral/01.png" through "/neutral/04.png" all load; a failure names the first sheet that did not; then sprite `k` of the 36 is the plain crop of cell `k % 9` of sheet `k / 9 + 1`, with no colour key applied |
| ColorKey.FadeFrom | src/utils/spritesheet.ts:157-160 | the downward search finds an alpha that is the correctly rounded `(sqrt(sq) - 30) / 20 * 255` |
| ColorKey.FadeAlpha | src/utils/spritesheet.ts:157-160 | in the fade band `900 <= sq < 2500`, the alpha is `Math.round` of the linear fade, characterised in integers |
| ColorKey.RoundsToOrdered | src/utils/spritesheet.ts:157-160 | the rounded fade never decreases as the distance from white grows |
| ColorKey.FadeAlphaUnique | src/utils/spritesheet.ts:157-160 | exactly one byte value is the rounded fade for a given distance |
| ColorKey.FadeAlphaMonotone | src/utils/spritesheet.ts:157-160 | pixels further from white fade to an alpha at least as high |
| ColorKey.FadeAlphaLandmarks | src/utils/spritesheet.ts:139-160 | the fade starts at 0 at distance 30, is 128 at distance 40, and reaches 255 just below distance 50 |
| ColorKey.KeyedAlphaMonotone | src/utils/spritesheet.ts:148-162 | within distance 50 of white, the new alpha grows with the distance from white |
| ColorKey.KeyedAlphaExtremes | src/utils/spritesheet.ts:154-162 | pure white becomes fully transparent; distance exactly 50, and black, keep their original alpha |
| ColorKey.ApplyColorKey | src/utils/spritesheet.ts:142-163 | the output has the input's length and the same colour bytes; each pixel's alpha is 0 below distance 30, the rounded fade below 50, and unchanged otherwise; a trailing partial pixel is untouched |
| ColorKey.ColorKeyDeterministic | src/utils/spritesheet.ts:142-163 | the per-pixel rules determine the output completely |
| ColorKey.ColorKeyPixelRules | src/utils/spritesheet.ts:142-163 | for pixel `p`, the three distance bands give alpha 0, the rounded fade, or the original alpha, and R, G and B are kept |
| DogPositions.DogSlotsShape | src/data/dogPositions.ts:2-12 | nine dog slots; slot `k` names sprite `k`; coordinates within 0-100 |
| DogPositions.DogSlotsShowCells | src/data/dogPositions.ts:2-12 | with the dog sheet loaded, dog slot `k` shows the plain crop of cell `k` of "/to_find/01.png" |
| DogPositions.NeutralSheetShape | src/data/dogPositions.ts:15-56 | each neutral sheet's group holds nine slots; slot `j` of sheet `s` (from 0) names sprite `9s + j` and lies within 0-100 |
| DogPositions.NeutralSheetSlots | src/data/dogPositions.ts:15-56 | the nine slots of neutral sheet `s` sit at indices `9s..9s+8` and name those sprites |
| DogPositions.NeutralSlotsShape | src/data/dogPositions.ts:15-56 | 36 distractor slots; slot `k` names sprite `k`; coordinates within 0-100 |
| DogPositions.NeutralSlotsGroupedBySheet | src/data/dogPositions.ts:15-56 | with the four neutral sheets loaded, distractor slot `k` shows the plain crop of cell `k % 9` of sheet `k / 9 + 1`, as the table's per-sheet comments say |
| GameTypes.FoundCount | src/App.tsx:85 | the found count never exceeds the number of dogs |
| GameTypes.FoundCountFull | src/App.tsx:85-87 | the found count equals the number of dogs exactly when every dog is found |
| GameTypes.CompleteMeansAllFound | src/App.tsx:87 | `isComplete` holds exactly when there is a dog and all dogs are found |
| GameTypes.FoundCountMonotone | src/App.tsx:202-204 | setting found flags never lowers the found count |
| GameTypes.FoundCountOneMore | src/App.tsx:199-204 | setting one unfound dog's flag and nothing else adds exactly one |
| GameTypes.FoundCountSame | src/App.tsx:85 | lists with the same found flags have the same count |
| Placement.TooCloseMeans | src/App.tsx:118-126 | the scan over earlier positions reports "too close" exactly when some earlier position is closer than 12% |
| Placement.CandidateInMargin | src/App.tsx:115-116 | with samples in [0, 1), every candidate lies in [8, 92) on both axes |
| Placement.TryFrom | src/App.tsx:114-136 | the result is the last candidate drawn, two samples per attempt; every candidate before it was too close, so an accepted position is the first acceptable one and is not too close to any earlier position; a run that accepts nothing consumes every remaining attempt plus two samples for the fallback |
| Placement.RunRejectedAt | src/App.tsx:114-136 | in a run of rejections, the candidate of each attempt before the stop was too close to an earlier position |
| Placement.SeparatedPositionSpec | src/App.tsx:112-137 | one call uses between 2 and 102 samples; the position is in the 8%-92% area; every candidate drawn before the last was too close, so an accepted position is the first that keeps 12% from every earlier position; the fallback comes only after 50 rejections, using exactly 102 samples |
| Placement.FallbackOnlyAfterAllRejected | src/App.tsx:133-136 | the fallback is taken only when each of the 50 candidates was too close to an earlier position |
| Placement.FallbackRun | src/App.tsx:114-136 | a fallback call rejected the candidates of all 50 attempts, drawn two samples apart from its first draw |
| Placement.SeparatedPositionSound | src/App.tsx:112-137 | one call uses at least two samples; an accepted position keeps 12% from every earlier position; accepted or fallback, the position is in the 8%-92% area when samples lie in [0, 1) |
| Placement.PlaceAll | src/App.tsx:140-151 | one position and one accepted flag per slot; every result, including a fallback, is appended to the shared list; each call uses at least two samples; every accepted position keeps 12% from all positions placed before it; with samples in [0, 1) every position is in the 8%-92% area; which call produced each entry is stated by `Placement.PlaceAllCalls` |
| Placement.PlaceAllPrefix | src/App.tsx:140-151 | later calls never revise earlier entries: the first `m` entries of `n` calls are the batch of `m` calls |
| Placement.PlaceAllCalls | src/App.tsx:140-151 | entry `i` (position and accepted flag) is the outcome of one `getSeparatedPosition` call against the list holding the earlier entries, drawing where the first `i` calls stopped |
| Placement.PlaceAllFallbacks | src/App.tsx:112-151 | an entry is a fallback only when all 50 candidates of its call were too close to the list at that point |
| Placement.BatchSeparatedPairs | src/App.tsx:118-131 | in a batch placed after a list of earlier positions, an accepted position is at least 12% from each position before it in the combined list |
| App.DogNameNumbers | src/App.tsx:99-105 | a dog sprite's name is "Dog " followed by its 1-based number, so names are distinct |
| App.ValidSlots | src/App.tsx:140-141 | the filter never lengthens the table |
| App.ValidSlotsMembers | src/App.tsx:140-141 | the filter keeps exactly the slots whose sprite index is inside the pool |
| App.ValidSlotsConcat | src/App.tsx:140-141 | filtering a concatenation is the concatenation of the filtered parts, so table order is kept |
| App.ValidSlotsSingle | src/App.tsx:140-141 | a single slot is kept exactly when its sprite index is inside the pool |
| App.ValidSlotsOfTable | src/App.tsx:163-165 | on a table where slot `k` names sprite `k`, the valid slots are the first `min(n, len)` slots |
| App.DropExcluded | src/App.tsx:167 | `slice(5)` removes five slots, or all of them when there are fewer, and keeps only shuffled slots |
| App.DropExcludedKeeps | src/App.tsx:167 | the survivors of `slice(5)` are a sub-multiset of the shuffled slots |
| App.SelectedNeutralsFor | src/App.tsx:162-167 | after a permuting shuffle, `min(q, 36) - 5` slots survive (none when fewer than five); they are a sub-multiset of the valid slots, so each names a sprite of the pool |
| App.InitGame | src/App.tsx:89-193 | if either pool fails to load, the state stays the initial empty one; no love message is pending after initialisation |
| App.NewGameDogs | src/App.tsx:140-151 | one dog per valid slot, dog `i` has id `i` and shows sprite `i`, and none is found |
| App.NewGameNeutrals | src/App.tsx:154-179 | distractor `i` has id `i` and names a loaded neutral sprite; their number is the valid slots minus five |
| App.InitGameShape | src/App.tsx:140-179 | pools of m and q sprites give `min(m, 9)` dogs and `max(min(q, 36) - 5, 0)` distractors, with ids equal to positions, every reference inside its pool, and no dog found |
| App.InitGameFullPools | src/App.tsx:140-179 | full pools of 9 and 36 sprites give 9 dogs, none found, and 31 distractors |
| App.NewGamePositions | src/App.tsx:139-179 | dogs take the first batch of positions and distractors the second, in slot order |
| App.LayoutInMargin | src/App.tsx:112-179 | every dog and distractor position is in the 8%-92% area |
| App.DogSeparated | src/App.tsx:140-151 | an accepted dog position keeps 12% from every earlier dog |
| App.NeutralSeparated | src/App.tsx:169-179 | an accepted distractor position keeps 12% from every dog and every earlier distractor, because the list of positions is shared |
| App.StateOf | src/App.tsx:85-87 | the derived progress: found count at most the total, and complete exactly when there are dogs and all are found |
| App.NewGameRefs | src/App.tsx:140-179 | every dog's and distractor's sprite reference resolves in its pool |
| App.NewGameDogRefs | src/App.tsx:140-151 | every dog's sprite reference resolves among the dog sprites |
| App.NewGameNeutralRefs | src/App.tsx:154-179 | every distractor's sprite reference resolves among the neutral sprites |
| App.NewGameValid | src/App.tsx:89-179 | a game built from loaded pools meets the record invariants of src/types/game.ts |
| App.NewGameInScene | src/App.tsx:139-179 | every placed entity lies inside the scene's 8%-92% area |
| App.InitGameValid | src/App.tsx:89-193 | an initialised game, and the empty one after a failure, meets the record invariants of src/types/game.ts: references resolve, positions are percentages, progress is derived correctly |
| App.MarkFound | src/App.tsx:202-204 | a dog's flag becomes set when its id matches; everything else about every dog stays the same |
| App.MarkFoundIdempotent | src/App.tsx:202-204 | marking the same dog twice is the same as marking it once |
| App.MarkFoundNoop | src/App.tsx:202-204 | the dog list is unchanged exactly when every dog with that id is already found (or no dog has it) |
| App.MarkFoundCounts | src/App.tsx:202-204 | with ids equal to positions, marking an unfound dog raises the found count by one |
| App.HandleDogFound | src/App.tsx:195-209 | the pools and distractors are untouched, and the love message is switched on |
| App.HandleDogFoundAnnounces | src/App.tsx:199-207 | for an unfound dog, the announced number is the new found count, between 1 and the number of dogs |
| App.LoveMessageComplete | src/App.tsx:211-213 | closing the message hides it and changes nothing else |
| App.FoundDogMessage | src/App.tsx:257-262 | finding the last unfound dog completes the game and suppresses the love message; any other find shows it |
| App.Click | src/components/GameScene.tsx:30-51 | a click never touches the pools or the distractors |
| App.ClickChangesIffHit | src/components/GameScene.tsx:39-50 | a click changes the state exactly when it hits an unfound dog; a miss does nothing |
| App.ClickFindsEarliest | src/components/GameScene.tsx:39-50 | when two unfound dogs are both within 7% of a click, the later one in the list stays unfound |
| App.ClickFindsOne | src/App.tsx:195-209 | with ids equal to positions, a hit finds exactly one more dog and announces the new count |
| App.ClickKeepsProgress | src/App.tsx:202-204 | found flags never revert; the found count never drops; a complete game ignores clicks |
| App.ClickPreservesValid | src/App.tsx:202-204 | clicks keep the record invariants |
| App.StartGame | src/App.tsx:89-193 | when every sheet loads, the game has 9 unfound dogs and 31 distractors; if any sheet fails, the state is the initial empty one |
| GameScene.ClickPercent | src/components/GameScene.tsx:31-33 | the click in percent scales back to the offset within the box; a zero-width or zero-height box yields no point |
| GameScene.ClickPercentRoundTrip | src/components/GameScene.tsx:31-33 | clicking at the client position of a scene point yields that point |
| GameScene.FirstHit | src/components/GameScene.tsx:39-50 | the scan returns the first unfound dog within 7%, and none exactly when no unfound dog is that close |
| GameScene.HandleSceneClick | src/components/GameScene.tsx:30-51 | `onDogFound` fires exactly when the click is within 7% of some unfound dog, and with the id of the first such dog in list order |
| GameScene.RenderDog | src/components/GameScene.tsx:74-90 | a dog is drawn exactly when some sprite has its sprite id, at the dog's position with its found class, showing the image and name of the last sprite with that id, as a `Map` built in list order keeps |
| GameScene.RenderNeutral | src/components/GameScene.tsx:56-72 | a distractor is drawn exactly when some neutral sprite has its sprite id, at its own position, showing the last neutral sprite with that id |
| GameScene.RenderScene | src/components/GameScene.tsx:56-90 | the scene has one entry per distractor, then one per dog; entry `i` is drawn exactly when its sprite id resolves, and then at entity `i`'s position, with the dog's id and found class |
| GameScene.ValidSceneDrawsAll | src/components/GameScene.tsx:56-90 | in a consistent game, every dog and every distractor is drawn |
| GameScene.RenderDogByIndex | src/components/GameScene.tsx:74-76 | when sprite ids are pool positions, a dog shows exactly sprite `spriteId` |
| Lookup.LastIndexOf | src/components/GameScene.tsx:19-22 | a `Map` filled by `forEach` + `set` returns the last element with the key, or nothing when no element has it |
| Lookup.LastIndexOfSet | src/components/GameScene.tsx:20-22 | one more `set` overwrites its own key's entry and leaves the other keys alone |
| Lookup.LastIndexOfDistinct | src/components/ItemList.tsx:13-16 | with distinct keys, the lookup of an element's key finds that element |
| ItemList.ProgressOf | src/components/ItemList.tsx:9-10 | the counter shows found at most total, and found equals a non-zero total exactly when the game is complete |
| ItemList.FoundStatus | src/components/ItemList.tsx:13-16 | a sprite's status is the flag of the last dog showing it, or nothing when no dog shows it |
| ItemList.Items | src/components/ItemList.tsx:27-28 | one entry per dog sprite in pool order, checked according to the status of its sprite id, with `false` by default |
| ItemList.IsFoundOfIndexedDogs | src/components/ItemList.tsx:13-28 | when dog `i` shows sprite `i`, an entry is checked exactly when its dog is found |
| ItemList.CheckedCount | src/components/ItemList.tsx:39 | there are never more checkmarks than entries |
| ItemList.CheckmarksMatchCounter | src/components/ItemList.tsx:9-28 | in a game as built, the number of checkmarks equals the counter's found count |
| LoveMessage.MessageIndex | src/components/LoveMessage.tsx:39 | dogs 1 to 9 use messages 0 to 8, later dogs use the last message, and the index never runs past the list |
| LoveMessage.Message | src/components/LoveMessage.tsx:39-40 | a message exists exactly for dog numbers of at least 1, and it is one of the nine |
| LoveMessage.MessagesEscalate | src/components/LoveMessage.tsx:38-40 | dogs 1 to 9 each get a different message; from dog 9 on, all get the final one |
| LoveMessage.HeartCount | src/components/LoveMessage.tsx:43 | `5 + 3n` hearts, capped at 30, and the cap is reached exactly from dog 9 on |
| LoveMessage.CeilThird | src/components/LoveMessage.tsx:46 | the integer ceiling of `n / 3` |
| LoveMessage.EmphasisLevel | src/components/LoveMessage.tsx:46 | the level is at most 3, at least 1 for a found dog, and 3 exactly from dog 7 on |
| LoveMessage.EmphasisBands | src/components/LoveMessage.tsx:46 | dogs 1-3 get level 1, dogs 4-6 level 2, and later dogs level 3 |
| LoveMessage.Escalation | src/components/LoveMessage.tsx:42-46 | a higher dog number never gives fewer hearts or less emphasis |
| LoveMessage.HideDelay | src/components/LoveMessage.tsx:64-67 | the overlay hides 2, 2.5 or 3 seconds after a find, for dogs 1-3, 4-6 and 7 on |
| LoveMessage.CompleteDelay | src/components/LoveMessage.tsx:64-67 | `onComplete` runs 500 ms after hiding: 2.5, 3 or 3.5 seconds after a find, for dogs 1-3, 4-6 and 7 on |
| LoveMessage.EmojiIndex | src/components/LoveMessage.tsx:54 | a sample in [0, 1) picks one of the nine heart glyphs |
| LoveMessage.HeartAtInRange | src/components/LoveMessage.tsx:52-59 | a generated heart has a listed glyph, left in [0, 100), delay in [0, 0.8), duration in [2, 4), and size in [1, 1.5 + 0.3 x level) |
| LoveMessage.GenerateHearts | src/components/LoveMessage.tsx:50-60 | `heartCount` hearts (none if that is not positive); heart `i` has id `i` and is drawn from five samples at `cursor + 5i`; every heart is within the animation's ranges |
| LoveMessage.HeartRow | src/components/LoveMessage.tsx:97 | the decoration repeats one glyph `min(n, 5)` times, and `repeat` throws for a negative count |
| LoveMessage.HeartRowsGrow | src/components/LoveMessage.tsx:96-102 | the top and bottom rows have the same length, grow with the dog number up to five hearts, and stay at five from dog 5 on |

## Left out

- Audio: `playMissSound` and `playTamagotchiSound` are not modelled. The sound's own random draws come after set-up and do not affect placement.
- Miss handling: `App` passes `onMiss` and `jumpActive` to `GameScene`, but the component's props take neither and nothing calls `onMiss`. A miss therefore does nothing, which is what `App.ClickChangesIffHit` states.
- Idle wandering, sprite repulsion and speech bubbles are not modelled, because they do not occur in `src/components/GameScene.tsx`: sprites sit at their initial positions.
- The Tamagotchi frame, button B and its jump timer, the loading screen, the confetti, the win overlay markup and `console.error` are presentation only. `src/components/Tamagotchi.tsx` is not part of this model.
- PNG encoding: `canvas.toDataURL` is represented by the sprite's cell and pixel bytes.
- Canvas: a missing 2D context, which makes the source throw, is not modelled.
- Browser image loading is the `Loader` parameter.
- Both game loaders pass `hasTransparency = true`, so in the shipped game the colour key is never applied. It is modelled and proved anyway.
- App.ValidSlots: its own contract gives only the length bound; which slots are kept, and in what order, is stated by `App.ValidSlotsMembers`, `App.ValidSlotsConcat` and `App.ValidSlotsSingle`.
- Floating point: coordinates, samples and heart sizes are exact reals, not IEEE doubles. The fade alpha is the exact rounding of the real-valued formula.
- App.SelectedNeutralsFor: the shuffle is any permutation, not the engine's sort with a random comparator. The number of samples the sort consumes is a parameter. So the model says nothing about which five distractor slots are dropped.
- App.DogSeparated: separation is stated separately for the dog batch and for the distractor batch (`App.NeutralSeparated`). There is no single lemma over the combined list of a built game's positions, because relating the two batches at once made the proof too costly.
- `String.prototype.replace` special `$` patterns are not modelled. The replacement text is always digits.
- LoveMessage: the React effect lifecycle is not modelled (timers, `clearTimeout` on unmount, the internal `visible` flag). Only the delays are computed.
- `scripts/convert-png-to-jpg.cjs` is not part of this model.
