/** Compositing of the desk pet: premultiplied pixels of one byte a channel. */
module PetPixels {
  type Byte = b: int | 0 <= b < 256

  datatype Pixel = Pixel(r: Byte, g: Byte, b: Byte, a: Byte)

  const CLEAR := Pixel(0, 0, 0, 0)
  const VISIBLE: Byte := 128

  /** No channel exceeds its alpha. */
  predicate Premultiplied(p: Pixel) {
    p.r <= p.a && p.g <= p.a && p.b <= p.a
  }

  // ----- one pixel over another

  function Mixed(s: Byte, d: Byte, alpha: Byte): (v: int)
    ensures v >= 0
  {
    NonNegative(d, 255 - alpha);
    (s * 255 + d * (255 - alpha)) / 255
  }

  lemma NonNegative(x: int, y: int)
    requires x >= 0 && y >= 0
    ensures x * y >= 0
  {
  }

  function Clamped(v: int): Byte {
    if v < 0 then 0 else if v > 255 then 255 else v
  }

  /** The general source-over formula, clamped. */
  function Over(s: Pixel, d: Pixel): Pixel {
    Pixel(Clamped(Mixed(s.r, d.r, s.a)), Clamped(Mixed(s.g, d.g, s.a)), Clamped(Mixed(s.b, d.b, s.a)),
          Clamped(Mixed(s.a, d.a, s.a)))
  }

  /** What blitting does to a pixel: invisible and opaque sources take a short way. */
  function Blended(s: Pixel, d: Pixel): Pixel {
    if s.a == 0 then d
    else if s.a == 255 then Pixel(s.r, s.g, s.b, 255)
    else Over(s, d)
  }

  /** The mix of a channel, exactly: the source over what its alpha lets through of the
      background, in parts of 255, rounded down. */
  lemma MixedExactly(s: Byte, d: Byte, alpha: Byte, v: int)
    ensures v == Mixed(s, d, alpha) <==> 255 * v <= 255 * s + (255 - alpha) * d < 255 * v + 255
  {
  }

  lemma MixedMonotone(s: Byte, d: Byte, s2: Byte, d2: Byte, alpha: Byte)
    requires s <= s2 && d <= d2
    ensures Mixed(s, d, alpha) <= Mixed(s2, d2, alpha)
  {
    NonNegative(d2 - d, 255 - alpha);
    assert (d2 - d) * (255 - alpha) == d2 * (255 - alpha) - d * (255 - alpha);
  }

  lemma MixedWithWhite(s: Byte, alpha: Byte)
    ensures Mixed(s, 255, alpha) == s + 255 - alpha
  {
    assert s * 255 + 255 * (255 - alpha) == (s + 255 - alpha) * 255;
  }

  /** A channel needs no clamp against any background exactly when it is at most its alpha. */
  lemma ClampNeverFiresExactly(s: Byte, alpha: Byte)
    ensures (forall d: Byte :: Mixed(s, d, alpha) <= 255) <==> s <= alpha
  {
    MixedWithWhite(s, alpha);
    if s <= alpha {
      forall d: Byte ensures Mixed(s, d, alpha) <= 255 {
        MixedMonotone(s, d, s, 255, alpha);
      }
    } else {
      var white: Byte := 255;
      assert Mixed(s, white, alpha) > 255;
    }
  }

  lemma MixedAtEnds(s: Byte, d: Byte)
    ensures Mixed(s, d, 0) == s + d && Mixed(s, d, 255) == s
  {
    assert s * 255 + d * (255 - 0) == (s + d) * 255;
    assert d * (255 - 255) == 0;
  }

  /** For a premultiplied source the short ways are the general formula. */
  lemma ShortWaysAgree(s: Pixel, d: Pixel)
    requires Premultiplied(s)
    ensures Blended(s, d) == Over(s, d)
  {
    MixedAtEnds(s.r, d.r);
    MixedAtEnds(s.g, d.g);
    MixedAtEnds(s.b, d.b);
    MixedAtEnds(s.a, d.a);
  }

  /** An invisible source that carries colour is where the skip departs from the
      formula, unless the background hides it. */
  lemma SkipAgreesExactly(s: Pixel, d: Pixel)
    requires s.a == 0
    ensures Blended(s, d) == Over(s, d) <==>
              (s.r == 0 || d.r == 255) && (s.g == 0 || d.g == 255) && (s.b == 0 || d.b == 255)
  {
    MixedAtEnds(s.r, d.r);
    MixedAtEnds(s.g, d.g);
    MixedAtEnds(s.b, d.b);
    MixedAtEnds(s.a, d.a);
  }

  /** Blending premultiplied pixels clamps nothing and gives a premultiplied one. */
  lemma BlendedStaysPremultiplied(s: Pixel, d: Pixel)
    requires Premultiplied(s) && Premultiplied(d)
    ensures Premultiplied(Blended(s, d))
  {
    MixedMonotone(s.r, d.r, s.a, d.a, s.a);
    MixedMonotone(s.g, d.g, s.a, d.a, s.a);
    MixedMonotone(s.b, d.b, s.a, d.a, s.a);
  }

  // ----- buffers

  /** Row `y`, column `x`, top left first. */
  class Buffer {
    const px: array2<Pixel>

    constructor (h: nat, w: nat)
      ensures px.Length0 == h && px.Length1 == w && fresh(px)
      ensures forall y, x | 0 <= y < h && 0 <= x < w :: px[y, x] == CLEAR
    {
      px := new Pixel[h, w]((y, x) => CLEAR);
    }

    predicate Inside(y: int, x: int) {
      0 <= y < px.Length0 && 0 <= x < px.Length1
    }

    ghost predicate AllPremultiplied()
      reads px
    {
      forall y, x | 0 <= y < px.Length0 && 0 <= x < px.Length1 :: Premultiplied(px[y, x])
    }

    /** Outside the buffer everything is transparent. */
    function Alpha(y: int, x: int): Byte
      reads px
    {
      if Inside(y, x) then px[y, x].a else 0
    }

    /** Source-over of `src` with its corner at (oy, ox); what falls outside is cut
        off. Between premultiplied buffers every pixel is the general formula, and
        the result is premultiplied. */
    method Blit(src: Buffer, oy: int, ox: int)
      requires src.px != px
      modifies px
      ensures forall y, x | 0 <= y < px.Length0 && 0 <= x < px.Length1 ::
                px[y, x] == if 0 <= y - oy < src.px.Length0 && 0 <= x - ox < src.px.Length1
                            then Blended(src.px[y - oy, x - ox], old(px[y, x]))
                            else old(px[y, x])
      ensures src.AllPremultiplied() && old(AllPremultiplied()) ==>
                && AllPremultiplied()
                && forall y, x | 0 <= y < px.Length0 && 0 <= x < px.Length1 && src.Inside(y - oy, x - ox) ::
                     px[y, x] == Over(src.px[y - oy, x - ox], old(px[y, x]))
    {
      for sy := 0 to src.px.Length0
        invariant forall y, x | 0 <= y < px.Length0 && 0 <= x < px.Length1 ::
          px[y, x] == if src.Inside(y - oy, x - ox) && y - oy < sy then Blended(src.px[y - oy, x - ox], old(px[y, x]))
                      else old(px[y, x])
      {
        var dy := oy + sy;
        if dy < 0 || dy >= px.Length0 {
          continue;
        }
        for sx := 0 to src.px.Length1
          invariant forall y, x | 0 <= y < px.Length0 && 0 <= x < px.Length1 ::
            px[y, x] == if src.Inside(y - oy, x - ox) && (y - oy < sy || (y - oy == sy && x - ox < sx))
                        then Blended(src.px[y - oy, x - ox], old(px[y, x]))
                        else old(px[y, x])
        {
          var dx := ox + sx;
          if dx < 0 || dx >= px.Length1 {
            continue;
          }
          var s := src.px[sy, sx];
          if s.a == 0 {
            continue;
          }
          if s.a == 255 {
            px[dy, dx] := Pixel(s.r, s.g, s.b, 255);
            continue;
          }
          px[dy, dx] := Over(s, px[dy, dx]);
        }
      }
      if src.AllPremultiplied() && old(AllPremultiplied()) {
        forall y, x | 0 <= y < px.Length0 && 0 <= x < px.Length1
          ensures Premultiplied(px[y, x])
          ensures src.Inside(y - oy, x - ox) ==> px[y, x] == Over(src.px[y - oy, x - ox], old(px[y, x]))
        {
          if src.Inside(y - oy, x - ox) {
            BlendedStaysPremultiplied(src.px[y - oy, x - ox], old(px[y, x]));
            ShortWaysAgree(src.px[y - oy, x - ox], old(px[y, x]));
          }
        }
      }
    }

    /** Every visible pixel flattened to grey. `lift` gives the lifted luminance,
        whatever the curve; it is capped at the pixel's own alpha. */
    method Desaturated(lift: Pixel -> int) returns (out: Buffer)
      ensures fresh(out) && fresh(out.px) && out.px.Length0 == px.Length0 && out.px.Length1 == px.Length1
      ensures forall y, x | 0 <= y < px.Length0 && 0 <= x < px.Length1 :: out.px[y, x] == Greyed(px[y, x], lift)
    {
      out := new Buffer(px.Length0, px.Length1);
      for i := 0 to px.Length0
        invariant forall y, x | 0 <= y < i && 0 <= x < px.Length1 :: out.px[y, x] == Greyed(px[y, x], lift)
      {
        for j := 0 to px.Length1
          invariant forall y, x | 0 <= y < i && 0 <= x < px.Length1 :: out.px[y, x] == Greyed(px[y, x], lift)
          invariant forall x | 0 <= x < j :: out.px[i, x] == Greyed(px[i, x], lift)
        {
          var p := px[i, j];
          if p.a == 0 {
            out.px[i, j] := p;
            continue;
          }
          var v: Byte := Capped(lift(p), p.a);
          out.px[i, j] := Pixel(v, v, v, p.a);
        }
      }
    }

    /** Is some of the eight neighbours visible? */
    method Touching(y: int, x: int) returns (touching: bool)
      ensures touching <==> Touches(y, x)
    {
      touching := false;
      for dy := -1 to 2
        invariant touching <==> exists n | n in NEIGHBOURS && n.0 < dy :: Alpha(y + n.0, x + n.1) >= VISIBLE
      {
        for dx := -1 to 2
          invariant touching <==> exists n | n in NEIGHBOURS && (n.0 < dy || (n.0 == dy && n.1 < dx)) ::
            Alpha(y + n.0, x + n.1) >= VISIBLE
        {
          assert (dy, dx) in NEIGHBOURS <==> !(dx == 0 && dy == 0);
          if !(dx == 0 && dy == 0) && Alpha(y + dy, x + dx) >= VISIBLE {
            assert (dy, dx).0 == dy;
            touching := true;
          }
        }
      }
    }

    ghost predicate Touches(y: int, x: int)
      reads px
    {
      exists n | n in NEIGHBOURS :: Alpha(y + n.0, x + n.1) >= VISIBLE
    }

    /** The one-pixel line around the art: outside it and touching it. */
    ghost predicate OnKeyline(y: int, x: int)
      reads px
    {
      Inside(y, x) && Alpha(y, x) < VISIBLE && Touches(y, x)
    }

    /** The art's own outermost pixels. */
    ghost predicate OnInnerEdge(y: int, x: int)
      reads px
    {
      Inside(y, x) && Alpha(y, x) >= VISIBLE && exists n | n in NEIGHBOURS :: Alpha(y + n.0, x + n.1) < VISIBLE
    }

    method Keyline(colour: Pixel, omitBelow: int) returns (out: Buffer)
      ensures fresh(out) && fresh(out.px) && out.px.Length0 == px.Length0 && out.px.Length1 == px.Length1
      ensures forall y, x | 0 <= y < px.Length0 && 0 <= x < px.Length1 ::
                out.px[y, x] == if OnKeyline(y, x) && y <= omitBelow then colour else CLEAR
    {
      out := new Buffer(px.Length0, px.Length1);
      for i := 0 to px.Length0
        invariant forall y, x | 0 <= y < px.Length0 && 0 <= x < px.Length1 ::
          out.px[y, x] == if y < i && OnKeyline(y, x) && y <= omitBelow then colour else CLEAR
      {
        if i > omitBelow {
          continue;
        }
        for j := 0 to px.Length1
          invariant forall y, x | 0 <= y < px.Length0 && 0 <= x < px.Length1 ::
            out.px[y, x] == if (y < i || (y == i && x < j)) && OnKeyline(y, x) && y <= omitBelow then colour else CLEAR
        {
          if Alpha(i, j) >= VISIBLE {
            continue;
          }
          var touching := Touching(i, j);
          if touching {
            out.px[i, j] := colour;
          }
        }
      }
    }

    /** The line and the art's edge face each other: every pixel of the line has a
        neighbour on the edge. */
    lemma LineFacesEdge(y: int, x: int)
      requires OnKeyline(y, x)
      ensures exists n | n in NEIGHBOURS :: OnInnerEdge(y + n.0, x + n.1)
    {
      var n :| n in NEIGHBOURS && Alpha(y + n.0, x + n.1) >= VISIBLE;
      FacesBack(y, x, n);
      assert OnInnerEdge(y + n.0, x + n.1);
    }

    /** And an edge pixel has a neighbour on the line exactly when it is exposed
        within the buffer, not only beyond it. */
    lemma EdgeFacesLine(y: int, x: int)
      requires OnInnerEdge(y, x)
      ensures (exists n | n in NEIGHBOURS :: OnKeyline(y + n.0, x + n.1)) <==>
                exists n | n in NEIGHBOURS :: Inside(y + n.0, x + n.1) && Alpha(y + n.0, x + n.1) < VISIBLE
    {
      if n :| n in NEIGHBOURS && Inside(y + n.0, x + n.1) && Alpha(y + n.0, x + n.1) < VISIBLE {
        FacesBack(y, x, n);
        assert OnKeyline(y + n.0, x + n.1);
      }
    }

    lemma FacesBack(y: int, x: int, n: (int, int))
      requires n in NEIGHBOURS
      ensures exists m | m in NEIGHBOURS :: y + n.0 + m.0 == y && x + n.1 + m.1 == x
    {
      var m := (-n.0, -n.1);
      assert m in NEIGHBOURS;
    }
  }

  const NEIGHBOURS: set<(int, int)> := {(-1, -1), (-1, 0), (-1, 1), (0, -1), (0, 1), (1, -1), (1, 0), (1, 1)}

  function Capped(v: int, alpha: Byte): Byte {
    if v > alpha then alpha else if v < 0 then 0 else v
  }

  function Greyed(p: Pixel, lift: Pixel -> int): Pixel {
    if p.a == 0 then p else Pixel(Capped(lift(p), p.a), Capped(lift(p), p.a), Capped(lift(p), p.a), p.a)
  }

  /** Whatever the curve, a grey pixel is grey, keeps its alpha and stays premultiplied. */
  lemma GreyStaysPremultiplied(p: Pixel, lift: Pixel -> int)
    ensures Greyed(p, lift).a == p.a
    ensures p.a > 0 ==> Greyed(p, lift).r == Greyed(p, lift).g == Greyed(p, lift).b && Premultiplied(Greyed(p, lift))
    ensures Premultiplied(p) ==> Premultiplied(Greyed(p, lift))
  {
  }
}
