/** Modules/System/Pi/Legacy/BCM2835GrV/module.c: RectCopy, from one rectangle of the screen to another
    of the same size, which may overlap it. */
module RectCopy {

  type Pixel = bv32

  const WIDTH := 1920
  const HEIGHT := 1080

  /** w and h are one less than the width and the height. */
  datatype CopyParms = CopyParms(sl: nat, sb: nat, dl: nat, db: nat, w: nat, h: nat)

  predicate OnScreen(p: CopyParms) {
    p.sl + p.w < WIDTH && p.dl + p.w < WIDTH && p.sb + p.h < HEIGHT && p.db + p.h < HEIGHT
  }

  /** Where a pixel is in the frame buffer: its rows go down the screen, and y goes up. */
  function Index(x: nat, y: nat): (i: nat)
    requires x < WIDTH && y < HEIGHT
    ensures i < WIDTH * HEIGHT
  {
    x + WIDTH * (HEIGHT - 1 - y)
  }

  lemma OnePlaceEach(x: nat, y: nat, u: nat, v: nat)
    requires x < WIDTH && y < HEIGHT && u < WIDTH && v < HEIGHT && (x != u || y != v)
    ensures Index(x, y) != Index(u, v)
  {
  }

  function At(frame: seq<Pixel>, x: nat, y: nat): Pixel
    requires |frame| == WIDTH * HEIGHT && x < WIDTH && y < HEIGHT
  {
    frame[Index(x, y)]
  }

  function GetPixel(frame: array<Pixel>, x: nat, y: nat): (p: Pixel)
    requires frame.Length == WIDTH * HEIGHT && x < WIDTH && y < HEIGHT
    reads frame
    ensures p == At(frame[..], x, y)
  {
    frame[x + WIDTH * (HEIGHT - 1 - y)]
  }

  method SetPixel(frame: array<Pixel>, x: nat, y: nat, p: Pixel)
    requires frame.Length == WIDTH * HEIGHT && x < WIDTH && y < HEIGHT
    modifies frame
    ensures At(frame[..], x, y) == p
    ensures forall u: nat, v: nat :: u < WIDTH && v < HEIGHT && (u != x || v != y) ==>
              At(frame[..], u, v) == At(old(frame[..]), u, v)
  {
    frame[x + WIDTH * (HEIGHT - 1 - y)] := p;
    forall u: nat, v: nat | u < WIDTH && v < HEIGHT && (u != x || v != y)
      ensures At(frame[..], u, v) == At(old(frame[..]), u, v)
    {
      OnePlaceEach(x, y, u, v);
    }
  }

  /** What a pixel should be when columns left up to right of rows low up to high have been copied:
      in the destination, what the source held; elsewhere, what it was */
  ghost function Wanted(before: seq<Pixel>, p: CopyParms, low: nat, high: nat, left: nat, right: nat, u: nat,
        v: nat): Pixel
    requires |before| == WIDTH * HEIGHT && OnScreen(p) && u < WIDTH && v < HEIGHT
    requires high <= p.h + 1 && right <= p.w + 1
  {
    if p.db + low <= v < p.db + high && p.dl + left <= u < p.dl + right
    then At(before, u - p.dl + p.sl, v - p.db + p.sb)
    else At(before, u, v)
  }

  ghost predicate RowCopied(before: seq<Pixel>, after: seq<Pixel>, p: CopyParms, y: nat, left: nat, right: nat)
    requires |before| == |after| == WIDTH * HEIGHT && OnScreen(p) && y <= p.h && right <= p.w + 1
  {
    forall u: nat, v: nat :: u < WIDTH && v < HEIGHT ==>
      At(after, u, v) == Wanted(before, p, y, y + 1, left, right, u, v)
  }

  ghost predicate Copied(before: seq<Pixel>, after: seq<Pixel>, p: CopyParms, low: nat, high: nat)
    requires |before| == |after| == WIDTH * HEIGHT && OnScreen(p) && high <= p.h + 1
  {
    forall u: nat, v: nat :: u < WIDTH && v < HEIGHT ==>
      At(after, u, v) == Wanted(before, p, low, high, 0, p.w + 1, u, v)
  }

  method RowRightToLeft(frame: array<Pixel>, p: CopyParms, y: nat)
    requires frame.Length == WIDTH * HEIGHT && OnScreen(p) && y <= p.h
    requires p.sb != p.db || p.sl < p.dl
    modifies frame
    ensures RowCopied(old(frame[..]), frame[..], p, y, 0, p.w + 1)
  {
    ghost var before := frame[..];
    var x: int := p.w;
    while x >= 0
      invariant -1 <= x <= p.w
      invariant RowCopied(before, frame[..], p, y, x + 1, p.w + 1)
    {
      var pixel := GetPixel(frame, p.sl + x, p.sb + y);
      assert pixel == At(before, p.sl + x, p.sb + y);
      SetPixel(frame, p.dl + x, p.db + y, pixel);
      x := x - 1;
    }
  }

  method RowLeftToRight(frame: array<Pixel>, p: CopyParms, y: nat)
    requires frame.Length == WIDTH * HEIGHT && OnScreen(p) && y <= p.h
    requires p.sb != p.db || p.sl >= p.dl
    modifies frame
    ensures RowCopied(old(frame[..]), frame[..], p, y, 0, p.w + 1)
  {
    ghost var before := frame[..];
    var x := 0;
    while x <= p.w
      invariant 0 <= x <= p.w + 1
      invariant RowCopied(before, frame[..], p, y, 0, x)
    {
      var pixel := GetPixel(frame, p.sl + x, p.sb + y);
      assert pixel == At(before, p.sl + x, p.sb + y);
      SetPixel(frame, p.dl + x, p.db + y, pixel);
      x := x + 1;
    }
  }

  /** One more row, whose source no row copied so far has changed */
  lemma NextRow(before: seq<Pixel>, between: seq<Pixel>, after: seq<Pixel>, p: CopyParms, y: nat, low: nat, high: nat)
    requires |before| == |between| == |after| == WIDTH * HEIGHT && OnScreen(p) && low <= high <= p.h + 1 && y <= p.h
    requires Copied(before, between, p, low, high) && RowCopied(between, after, p, y, 0, p.w + 1)
    requires (y + 1 == low && p.sb < p.db) || (y == high && p.sb >= p.db)
    ensures Copied(before, after, p, if y < low then y else low, if y < low then high else y + 1)
  {
    forall u: nat, v: nat | u < WIDTH && v < HEIGHT
      ensures At(after, u, v) ==
              Wanted(before, p, if y < low then y else low, if y < low then high else y + 1, 0, p.w + 1, u, v)
    {
      if v == p.db + y && p.dl <= u <= p.dl + p.w {
        var x := u - p.dl + p.sl;
        assert At(between, x, p.sb + y) == At(before, x, p.sb + y);
      }
    }
  }

  /** The rows are taken from the end that the source overlaps last, and so are the pixels of each row.
      Every pixel of the destination is what the source held before, and every other pixel is as it was. */
  method RectCopy(frame: array<Pixel>, p: CopyParms)
    requires frame.Length == WIDTH * HEIGHT && OnScreen(p)
    modifies frame
    ensures Copied(old(frame[..]), frame[..], p, 0, p.h + 1)
  {
    ghost var before := frame[..];
    if p.sb < p.db {
      // From top to bottom, in case of overlap
      if p.sl < p.dl {
        var y: int := p.h;
        while y >= 0
          invariant -1 <= y <= p.h
          invariant Copied(before, frame[..], p, y + 1, p.h + 1)
        {
          ghost var between := frame[..];
          RowRightToLeft(frame, p, y);
          NextRow(before, between, frame[..], p, y, y + 1, p.h + 1);
          y := y - 1;
        }
      } else {
        var y: int := p.h;
        while y >= 0
          invariant -1 <= y <= p.h
          invariant Copied(before, frame[..], p, y + 1, p.h + 1)
        {
          ghost var between := frame[..];
          RowLeftToRight(frame, p, y);
          NextRow(before, between, frame[..], p, y, y + 1, p.h + 1);
          y := y - 1;
        }
      }
    } else {
      // From bottom to top, in case of overlap
      if p.sl < p.dl {
        var y := 0;
        while y <= p.h
          invariant 0 <= y <= p.h + 1
          invariant Copied(before, frame[..], p, 0, y)
        {
          ghost var between := frame[..];
          RowRightToLeft(frame, p, y);
          NextRow(before, between, frame[..], p, y, 0, y);
          y := y + 1;
        }
      } else {
        var y := 0;
        while y <= p.h
          invariant 0 <= y <= p.h + 1
          invariant Copied(before, frame[..], p, 0, y)
        {
          ghost var between := frame[..];
          RowLeftToRight(frame, p, y);
          NextRow(before, between, frame[..], p, y, 0, y);
          y := y + 1;
        }
      }
    }
  }

  /** Copying there and back leaves the source rectangle as it was, however the two overlap. */
  lemma ThereAndBack(a: seq<Pixel>, b: seq<Pixel>, c: seq<Pixel>, p: CopyParms, u: nat, v: nat)
    requires |a| == |b| == |c| == WIDTH * HEIGHT && OnScreen(p)
    requires Copied(a, b, p, 0, p.h + 1)
    requires Copied(b, c, CopyParms(p.dl, p.db, p.sl, p.sb, p.w, p.h), 0, p.h + 1)
    requires p.sl <= u <= p.sl + p.w && p.sb <= v <= p.sb + p.h
    ensures At(c, u, v) == At(a, u, v)
  {
    assert At(c, u, v) == At(b, u - p.sl + p.dl, v - p.sb + p.db);
  }
}
