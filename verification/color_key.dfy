/** The white-to-transparent matte of `extractAndProcessSprite`
    (src/utils/spritesheet.ts): every RGBA pixel whose colour lies within
    distance 30 of pure white becomes fully transparent, pixels between 30
    and 50 fade in linearly, and all others keep their alpha.

    The square root and `Math.round` are not evaluated: with `sq` the squared
    distance and `d = sqrt(sq)`, the comparisons `d < 30` and `d < 50` are
    `sq < 900` and `sq < 2500`, and the rounded fade value
    `round((d - 30) / 20 * 255) = floor((51 * d - 1528) / 4)` is the unique
    `a` with `4a + 1528 <= 51 d < 4a + 1532`, which squares to the integer
    test `RoundsTo` below. */
module ColorKey {

  type Byte = x: int | 0 <= x < 256

  /** Distance from white below which a pixel becomes fully transparent. */
  const WhiteThreshold: nat := 30
  /** Width of the band over which the alpha fades in. */
  const FadeRange: nat := 20

  /** Squared Euclidean distance in RGB space from pure white (255, 255, 255). */
  function SqDistFromWhite(r: Byte, g: Byte, b: Byte): nat {
    Square(255 - r) + Square(255 - g) + Square(255 - b)
  }

  function Square(n: nat): nat {
    n * n
  }

  /** `alpha` is `Math.round((sqrt(sq) - 30) / 20 * 255)`, in exact arithmetic. */
  predicate RoundsTo(sq: nat, alpha: int) {
    (4 * alpha + 1528) * (4 * alpha + 1528) <= 2601 * sq < (4 * alpha + 1532) * (4 * alpha + 1532)
  }

  /** Searches downwards from `a` for the rounded fade value. */
  function FadeFrom(sq: nat, a: Byte): (alpha: Byte)
    requires 900 <= sq < 2500
    requires 2601 * sq < (4 * a + 1532) * (4 * a + 1532)
    ensures alpha <= a
    ensures RoundsTo(sq, alpha)
    decreases a
  {
    if (4 * a + 1528) * (4 * a + 1528) <= 2601 * sq then a
    else FadeFrom(sq, a - 1)
  }

  /** Alpha of a pixel in the fade band `30 <= d < 50`. */
  function FadeAlpha(sq: nat): (alpha: Byte)
    requires 900 <= sq < 2500
    ensures RoundsTo(sq, alpha)
  {
    FadeFrom(sq, 255)
  }

  lemma SquareLe(x: int, y: int)
    requires 0 <= x <= y
    ensures x * x <= y * y
  {
    assert x * x <= x * y;
  }

  /** Rounded fade values are ordered like the squared distances they
      round. */
  lemma RoundsToOrdered(sq1: nat, sq2: nat, a1: nat, a2: nat)
    requires sq1 <= sq2
    requires RoundsTo(sq1, a1) && RoundsTo(sq2, a2)
    ensures a1 <= a2
  {
    if a1 > a2 {
      var lo, hi := 4 * a2 + 1532, 4 * a1 + 1528;
      SquareLe(lo, hi);
      assert false;
    }
  }

  /** Exactly one byte rounds to a given fade value. */
  lemma FadeAlphaUnique(sq: nat, a: Byte)
    requires 900 <= sq < 2500
    requires RoundsTo(sq, a)
    ensures FadeAlpha(sq) == a
  {
    RoundsToOrdered(sq, sq, a, FadeAlpha(sq));
    RoundsToOrdered(sq, sq, FadeAlpha(sq), a);
  }

  /** Farther from white never means more transparent within the fade band. */
  lemma FadeAlphaMonotone(sq1: nat, sq2: nat)
    requires 900 <= sq1 <= sq2 < 2500
    ensures FadeAlpha(sq1) <= FadeAlpha(sq2)
  {
    RoundsToOrdered(sq1, sq2, FadeAlpha(sq1), FadeAlpha(sq2));
  }

  /** The band's ends and middle: distance 30 gives 0, distance 40 gives 128,
      and the last integer square below 2500 reaches 255. */
  lemma FadeAlphaLandmarks()
    ensures FadeAlpha(900) == 0
    ensures FadeAlpha(1600) == 128
    ensures FadeAlpha(2499) == 255
  {
    FadeAlphaUnique(900, 0);
    FadeAlphaUnique(1600, 128);
    FadeAlphaUnique(2499, 255);
  }

  /** New alpha of one pixel: the branch structure of the pixel loop. */
  function KeyedAlpha(r: Byte, g: Byte, b: Byte, a: Byte): Byte {
    var sq := SqDistFromWhite(r, g, b);
    if sq < WhiteThreshold * WhiteThreshold then 0
    else if sq < (WhiteThreshold + FadeRange) * (WhiteThreshold + FadeRange) then FadeAlpha(sq)
    else a
  }

  /** Within the band of distances below 50 the keyed alpha grows with the
      distance from white, whatever the pixels' original alphas. */
  lemma KeyedAlphaMonotone(r1: Byte, g1: Byte, b1: Byte, a1: Byte, r2: Byte, g2: Byte, b2: Byte, a2: Byte)
    requires SqDistFromWhite(r1, g1, b1) <= SqDistFromWhite(r2, g2, b2) < 2500
    ensures KeyedAlpha(r1, g1, b1, a1) <= KeyedAlpha(r2, g2, b2, a2)
  {
    var sq1, sq2 := SqDistFromWhite(r1, g1, b1), SqDistFromWhite(r2, g2, b2);
    if 900 <= sq1 {
      FadeAlphaMonotone(sq1, sq2);
    }
  }

  /** Pure white always becomes fully transparent; a pixel at distance 50
      or more keeps its alpha. */
  lemma KeyedAlphaExtremes(a: Byte)
    ensures KeyedAlpha(255, 255, 255, a) == 0
    ensures KeyedAlpha(255, 255, 205, a) == a
    ensures KeyedAlpha(0, 0, 0, a) == a
  {
  }

  /** `out` is the RGBA buffer `data` after the matte: only bytes at offsets
      3 mod 4 (alphas) may differ, and each alpha is the keyed alpha of its
      pixel. A trailing partial pixel is left alone. */
  ghost predicate IsColorKeyOf(data: seq<Byte>, out: seq<Byte>) {
    && |out| == |data|
    && (forall j :: 0 <= j < |data| && j % 4 != 3 ==> out[j] == data[j])
    && (forall j :: 3 <= j < |data| && j % 4 == 3 ==> KeyedAt(data, out, j))
  }

  /** The stride-4 pixel loop. Reading past the end of the buffer yields
      `undefined`, whose distance is NaN and fails both comparisons, and a
      write past the end is ignored, so a trailing partial pixel is left
      unchanged. */
  method ApplyColorKey(data: seq<Byte>) returns (out: seq<Byte>)
    ensures IsColorKeyOf(data, out)
  {
    out := data;
    var i := 0;
    while i < |data|
      invariant 0 <= i && i % 4 == 0
      invariant |out| == |data|
      invariant forall j :: 0 <= j < |data| && (i <= j || j % 4 != 3) ==> out[j] == data[j]
      invariant forall j :: 3 <= j < |data| && j < i && j % 4 == 3 ==> KeyedAt(data, out, j)
    {
      ghost var prev := out;
      if i + 3 < |data| {
        var r, g, b := data[i], data[i + 1], data[i + 2];
        var sq := SqDistFromWhite(r, g, b);
        if sq < 900 {
          out := out[i + 3 := 0];
        } else if sq < 2500 {
          out := out[i + 3 := FadeAlpha(sq)];
        }
        assert KeyedAt(data, out, i + 3);
      }
      PixelOffsets(i);
      forall j | 3 <= j < |data| && j < i + 4 && j % 4 == 3
        ensures KeyedAt(data, out, j)
      {
        if j < i {
          assert KeyedAt(data, prev, j);
        }
      }
      i := i + 4;
    }
  }

  /** The byte at `j` of `out` holds the keyed alpha of the pixel of `data`
      that ends at `j`. */
  predicate KeyedAt(data: seq<Byte>, out: seq<Byte>, j: int)
    requires 3 <= j < |data| == |out|
  {
    out[j] == KeyedAlpha(data[j - 3], data[j - 2], data[j - 1], data[j])
  }

  /** Offsets within the pixel that starts at `i`. */
  lemma PixelOffsets(i: int)
    requires i % 4 == 0
    ensures forall j :: i <= j < i + 4 ==> j % 4 == j - i
    ensures (i + 4) % 4 == 0
  {
  }

  /** The matte is a function of its input: two keyings of one buffer agree. */
  lemma ColorKeyDeterministic(data: seq<Byte>, out1: seq<Byte>, out2: seq<Byte>)
    requires IsColorKeyOf(data, out1) && IsColorKeyOf(data, out2)
    ensures out1 == out2
  {
    forall j | 0 <= j < |data|
      ensures out1[j] == out2[j]
    {
      if j % 4 == 3 {
        assert 3 <= j;
        assert KeyedAt(data, out1, j) && KeyedAt(data, out2, j);
      }
    }
  }

  /** The three alpha rules at pixel granularity: near-white pixels are
      cleared, fade-band pixels get the rounded fade, and others keep alpha. */
  lemma ColorKeyPixelRules(data: seq<Byte>, out: seq<Byte>, p: nat)
    requires IsColorKeyOf(data, out)
    requires 4 * p + 3 < |data|
    ensures var sq := SqDistFromWhite(data[4 * p], data[4 * p + 1], data[4 * p + 2]);
            && (sq < 900 ==> out[4 * p + 3] == 0)
            && (900 <= sq < 2500 ==> out[4 * p + 3] == FadeAlpha(sq))
            && (2500 <= sq ==> out[4 * p + 3] == data[4 * p + 3])
            && out[4 * p] == data[4 * p] && out[4 * p + 1] == data[4 * p + 1] && out[4 * p + 2] == data[4 * p + 2]
  {
    KeyedAlphaAt(data, out, p);
    ColorsKeptAt(data, out, p);
  }

  /** The alpha byte of pixel `p` is its keyed alpha. */
  lemma KeyedAlphaAt(data: seq<Byte>, out: seq<Byte>, p: nat)
    requires IsColorKeyOf(data, out)
    requires 4 * p + 3 < |data|
    ensures out[4 * p + 3] == KeyedAlpha(data[4 * p], data[4 * p + 1], data[4 * p + 2], data[4 * p + 3])
  {
    assert (4 * p + 3) % 4 == 3;
    assert KeyedAt(data, out, 4 * p + 3);
  }

  /** The colour bytes of pixel `p` are unchanged. */
  lemma ColorsKeptAt(data: seq<Byte>, out: seq<Byte>, p: nat)
    requires IsColorKeyOf(data, out)
    requires 4 * p + 3 < |data|
    ensures out[4 * p] == data[4 * p] && out[4 * p + 1] == data[4 * p + 1] && out[4 * p + 2] == data[4 * p + 2]
  {
    assert (4 * p) % 4 == 0 && (4 * p + 1) % 4 == 1 && (4 * p + 2) % 4 == 2;
  }
}
