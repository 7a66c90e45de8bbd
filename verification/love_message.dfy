/** The overlay shown after a dog is found (src/components/LoveMessage.tsx):
    which message, how many floating hearts, the emphasis level and the
    display time, all escalating with the dog's number. */
module LoveMessage {
  import opened Results
  import opened Arith
  import opened Randomness
  import Text

  /** The escalating messages, one per dog number from 1 to 9. */
  const LoveMessages: seq<string> := [
    "Je t'aime",
    "Chérie chérie chérie",
    "Mon amour ? Mon Coeur !",
    "Olalala qu'elle est forteeeee !",
    "On ne l'arrête plus !",
    "Ohhh darling my dear dear love ohh yeaaaah !",
    "CHOUPINETTE !",
    "gnoooo <3",
    "Non mais t'a été vraiment trop forte, bravo t'a tout gagnée"
  ]

  /** The floating heart glyphs; the red heart carries a variation
      selector, so it is two code points. */
  const HeartEmojis: seq<string> := [
    "\U{1F495}", "\U{1F496}", "\U{1F497}", "\U{1F493}", "\U{1F49D}",
    "\U{1F498}", "\U{2764}\U{FE0F}", "\U{1FA77}", "\U{1F49C}"
  ]

  const TopHeart: char := '\U{1F495}'
  const BottomHeart: char := '\U{1F496}'

  /** `Math.min(dogNumber - 1, LOVE_MESSAGES.length - 1)`. */
  function MessageIndex(dogNumber: int): (i: int)
    ensures i < |LoveMessages|
    ensures dogNumber >= 1 ==> 0 <= i
    ensures dogNumber <= |LoveMessages| ==> i == dogNumber - 1
    ensures dogNumber >= |LoveMessages| ==> i == |LoveMessages| - 1
  {
    Min(dogNumber - 1, |LoveMessages| - 1)
  }

  /** The message text; a dog number below 1 indexes before the list and
      yields `undefined`. */
  function Message(dogNumber: int): (m: Option<string>)
    ensures m.Some? <==> dogNumber >= 1
    ensures m.Some? ==> m.value in LoveMessages
  {
    var i := MessageIndex(dogNumber);
    if i < 0 then None else Some(LoveMessages[i])
  }

  /** Dogs 1 to 9 each get their own message; every later dog gets the last. */
  lemma MessagesEscalate(a: int, b: int)
    requires 1 <= a < b
    ensures b <= |LoveMessages| ==> Message(a) != Message(b)
    ensures a >= |LoveMessages| ==> Message(a) == Message(b) == Some(LoveMessages[|LoveMessages| - 1])
  {
    if b <= |LoveMessages| {
      var i, j := a - 1, b - 1;
      assert LoveMessages[i] != LoveMessages[j] by {
        assert forall x, y :: 0 <= x < y < |LoveMessages| ==> LoveMessages[x] != LoveMessages[y];
      }
    }
  }

  /** `Math.min(5 + dogNumber * 3, 30)`. */
  function HeartCount(dogNumber: int): (n: int)
    ensures n <= 30
    ensures n == 30 <==> dogNumber >= 9
    ensures dogNumber < 9 ==> n == 5 + 3 * dogNumber
  {
    Min(5 + dogNumber * 3, 30)
  }

  /** `Math.ceil(n / 3)` for an integer `n`. */
  function CeilThird(n: int): (c: int)
    ensures 3 * c - 3 < n <= 3 * c
  {
    (n + 2) / 3
  }

  /** `Math.min(Math.ceil(dogNumber / 3), 3)`. */
  function EmphasisLevel(dogNumber: int): (e: int)
    ensures e <= 3
    ensures dogNumber >= 1 ==> 1 <= e
    ensures e == 3 <==> dogNumber >= 7
  {
    Min(CeilThird(dogNumber), 3)
  }

  /** The emphasis bands: dogs 1-3, 4-6 and 7 onwards. */
  lemma EmphasisBands(dogNumber: int)
    requires dogNumber >= 1
    ensures EmphasisLevel(dogNumber) == if dogNumber <= 3 then 1 else if dogNumber <= 6 then 2 else 3
  {
  }

  /** More dogs never mean fewer hearts or less emphasis. */
  lemma Escalation(a: int, b: int)
    requires a <= b
    ensures HeartCount(a) <= HeartCount(b)
    ensures EmphasisLevel(a) <= EmphasisLevel(b)
  {
    assert CeilThird(a) <= CeilThird(b);
  }

  /** Milliseconds until the overlay hides itself. */
  function HideDelay(dogNumber: int): (ms: int)
    ensures dogNumber >= 1 ==> 2000 <= ms <= 3000
    ensures 1 <= dogNumber <= 3 ==> ms == 2000
    ensures 4 <= dogNumber <= 6 ==> ms == 2500
    ensures dogNumber >= 7 ==> ms == 3000
  {
    1500 + EmphasisLevel(dogNumber) * 500
  }

  /** Milliseconds until `onComplete` runs: the fade-out adds 500. */
  function CompleteDelay(dogNumber: int): (ms: int)
    ensures ms == HideDelay(dogNumber) + 500
    ensures dogNumber >= 1 ==> 2500 <= ms <= 3500
    ensures 1 <= dogNumber <= 3 ==> ms == 2500
    ensures 4 <= dogNumber <= 6 ==> ms == 3000
    ensures dogNumber >= 7 ==> ms == 3500
  {
    HideDelay(dogNumber) + 500
  }

  /** One floating heart as generated; `left` in percent, `delay` and
      `duration` in seconds, `size` in rem. */
  datatype FloatingHeart = FloatingHeart(id: nat, emoji: string, left: real, delay: real, duration: real, size: real)

  /** `Math.floor(sample * HEART_EMOJIS.length)`. */
  function EmojiIndex(sample: real): (k: int)
    ensures 0.0 <= sample < 1.0 ==> 0 <= k < |HeartEmojis|
  {
    (sample * 9.0).Floor
  }

  /** Heart `i`, drawing five samples from `at`: glyph, left, delay,
      duration and size, in that order. */
  function HeartAt(rand: Samples, at: nat, i: nat, level: int): FloatingHeart
    requires 0.0 <= rand(at) < 1.0
  {
    FloatingHeart(i, HeartEmojis[EmojiIndex(rand(at))], rand(at + 1) * 100.0, rand(at + 2) * 0.8,
                  2.0 + rand(at + 3) * 2.0, 1.0 + rand(at + 4) * (0.5 + level as real * 0.3))
  }

  /** The ranges the animation relies on. */
  predicate HeartInRange(h: FloatingHeart, level: int) {
    && h.emoji in HeartEmojis
    && 0.0 <= h.left < 100.0
    && 0.0 <= h.delay < 0.8
    && 2.0 <= h.duration < 4.0
    && 1.0 <= h.size < 1.5 + level as real * 0.3
  }

  /** The size draw stays within its span. */
  lemma ScaledBelow(s: real, f: real)
    requires 0.0 <= s < 1.0 && f > 0.0
    ensures 0.0 <= s * f < f
  {
  }

  lemma HeartAtInRange(rand: Samples, at: nat, i: nat, level: int)
    requires UnitSamples(rand)
    requires level >= 0
    ensures HeartInRange(HeartAt(rand, at, i, level), level)
  {
    var h := HeartAt(rand, at, i, level);
    var k := EmojiIndex(rand(at));
    assert h.emoji == HeartEmojis[k];
    ScaledBelow(rand(at + 1), 100.0);
    ScaledBelow(rand(at + 2), 0.8);
    ScaledBelow(rand(at + 3), 2.0);
    var f := 0.5 + level as real * 0.3;
    ScaledBelow(rand(at + 4), f);
    assert h.size == 1.0 + rand(at + 4) * f;
  }

  /** The hearts of the overlay for `dogNumber`: `heartCount` of them (none
      when that is not positive), heart `i` with id `i` drawn from samples
      `cursor + 5 * i` onwards. */
  method GenerateHearts(dogNumber: int, rand: Samples, cursor: nat) returns (hearts: seq<FloatingHeart>, next: nat)
    requires UnitSamples(rand)
    ensures |hearts| == Max(HeartCount(dogNumber), 0)
    ensures next == cursor + 5 * |hearts|
    ensures forall i :: 0 <= i < |hearts| ==> hearts[i].id == i
    ensures forall i :: 0 <= i < |hearts| ==> hearts[i] == HeartAt(rand, cursor + 5 * i, i, EmphasisLevel(dogNumber))
    ensures forall i :: 0 <= i < |hearts| ==> HeartInRange(hearts[i], EmphasisLevel(dogNumber))
  {
    var count := HeartCount(dogNumber);
    var level := EmphasisLevel(dogNumber);
    hearts := [];
    next := cursor;
    var i := 0;
    while i < count
      invariant 0 <= i <= Max(count, 0)
      invariant |hearts| == i && next == cursor + 5 * i
      invariant forall k :: 0 <= k < i ==> hearts[k] == HeartAt(rand, cursor + 5 * k, k, level)
      invariant forall k :: 0 <= k < i ==> HeartInRange(hearts[k], level)
    {
      assert 0.0 <= rand(next) < 1.0;
      HeartAtInRange(rand, next, i, level);
      hearts := hearts + [HeartAt(rand, next, i, level)];
      next := next + 5;
      i := i + 1;
    }
  }

  /** `glyph.repeat(Math.min(dogNumber, 5))`; a negative count throws. */
  function HeartRow(glyph: char, dogNumber: int): (r: Option<string>)
    ensures r.Some? <==> dogNumber >= 0
    ensures r.Some? ==> |r.value| == Min(dogNumber, 5) && forall k :: 0 <= k < |r.value| ==> r.value[k] == glyph
  {
    var n := Min(dogNumber, 5);
    if n < 0 then None else Some(Text.RepeatChar(glyph, n))
  }

  /** The decoration above and below the message grows with the dog number
      up to five hearts. */
  lemma HeartRowsGrow(a: int, b: int)
    requires 0 <= a <= b
    ensures |HeartRow(TopHeart, a).value| <= |HeartRow(TopHeart, b).value| <= 5
    ensures b >= 5 ==> HeartRow(TopHeart, b) == HeartRow(TopHeart, 5)
    ensures |HeartRow(BottomHeart, b).value| == |HeartRow(TopHeart, b).value|
    ensures b >= 5 ==> HeartRow(BottomHeart, b) == HeartRow(BottomHeart, 5)
  {
  }
}
