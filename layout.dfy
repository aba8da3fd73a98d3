/** The vertical-strip layout: canvas size, where each image goes, and which
    source pixel (if any) the finished strip shows at each cell. These are the
    specifications the composing loops are proved against. */
module Layout {
  import opened Types

  /** The sum of the heights of `imgs`. */
  function TotalHeight(imgs: seq<Image>): nat {
    if imgs == [] then 0
    else TotalHeight(imgs[..|imgs| - 1]) + imgs[|imgs| - 1].height
  }

  /** The y offset of image i: the heights of the images before it. */
  function Top(imgs: seq<Image>, i: nat): nat
    requires i <= |imgs|
  {
    TotalHeight(imgs[..i])
  }

  /** The widest image's width, 0 when there is no image. */
  function MaxWidth(imgs: seq<Image>): (w: nat)
    ensures forall i :: 0 <= i < |imgs| ==> imgs[i].width <= w
    ensures imgs == [] ==> w == 0
    ensures imgs != [] ==> exists i :: 0 <= i < |imgs| && imgs[i].width == w
  {
    if imgs == [] then 0
    else
      var init := imgs[..|imgs| - 1];
      var rest := MaxWidth(init);
      var last := imgs[|imgs| - 1].width;
      assert forall i :: 0 <= i < |init| ==> init[i] == imgs[i];
      if last > rest then last else rest
  }

  /** The canvas height as the source sizes it: the first image's height times the count. */
  function CanvasHeight(imgs: seq<Image>): nat
    requires imgs != []
  {
    imgs[0].height * |imgs|
  }

  /** The rectangle image i is drawn into. */
  function Placement(imgs: seq<Image>, i: nat): Rect
    requires i < |imgs|
  {
    Rect(0, Top(imgs, i), imgs[i].width, Top(imgs, i) + imgs[i].height)
  }

  /** The source pixel the strip shows at row y, column x, or None where no
      image covers that cell (right of a narrower image, or below the last one). */
  function StripPixel(imgs: seq<Image>, y: nat, x: nat): Option<Color> {
    if imgs == [] then None
    else
      var init := imgs[..|imgs| - 1];
      var img := imgs[|imgs| - 1];
      var top := TotalHeight(init);
      if y < top then StripPixel(init, y, x)
      else if y - top < img.height && x < img.width then Some(img.rows[y - top][x])
      else None
  }

  /** The colour a cell ends with: the pixel drawn there, or what it held before. */
  function Over(drawn: Option<Color>, under: Color): Color {
    if drawn.Some? then drawn.value else under
  }

  /** The y offset advances by exactly each image's height. */
  lemma TopStep(imgs: seq<Image>, i: nat)
    requires i < |imgs|
    ensures Top(imgs, i + 1) == Top(imgs, i) + imgs[i].height
  {
    assert imgs[..i + 1][..i] == imgs[..i];
  }

  /** Offsets never decrease, and the offset past the last image is the total height. */
  lemma {:induction false} TopMonotone(imgs: seq<Image>, i: nat, j: nat)
    requires i <= j <= |imgs|
    ensures Top(imgs, i) <= Top(imgs, j)
    ensures Top(imgs, |imgs|) == TotalHeight(imgs)
    decreases j - i
  {
    assert imgs[..|imgs|] == imgs;
    if i < j {
      TopStep(imgs, i);
      TopMonotone(imgs, i + 1, j);
    }
  }

  /** The bottom edge of each placement is the top edge of the next: no gap, no overlap. */
  lemma Adjacent(imgs: seq<Image>, i: nat)
    requires i + 1 < |imgs|
    ensures Placement(imgs, i).maxY == Placement(imgs, i + 1).minY
  {
    TopStep(imgs, i);
  }

  /** Placements of different images are vertically disjoint, in list order. */
  lemma Disjoint(imgs: seq<Image>, i: nat, j: nat)
    requires i < j < |imgs|
    ensures Placement(imgs, i).maxY <= Placement(imgs, j).minY
  {
    TopStep(imgs, i);
    TopMonotone(imgs, i + 1, j);
  }

  /** No placement reaches past the canvas's right edge. */
  lemma PlacementShape(imgs: seq<Image>, i: nat)
    requires i < |imgs|
    ensures 0 <= Placement(imgs, i).minX && Placement(imgs, i).maxX <= MaxWidth(imgs)
  {
  }

  /** All placements lie inside the canvas exactly when the heights add up to at
      most the first height times the count. */
  lemma FitsIff(imgs: seq<Image>)
    requires imgs != []
    ensures (forall i :: 0 <= i < |imgs| ==> Placement(imgs, i).maxY <= CanvasHeight(imgs))
            <==> TotalHeight(imgs) <= CanvasHeight(imgs)
  {
    var n := |imgs|;
    var h := CanvasHeight(imgs);
    TopStep(imgs, n - 1);
    TopMonotone(imgs, n, n);
    assert Placement(imgs, n - 1).maxY == TotalHeight(imgs);
    if TotalHeight(imgs) <= h {
      forall i | 0 <= i < n
        ensures Placement(imgs, i).maxY <= h
      {
        TopStep(imgs, i);
        TopMonotone(imgs, i + 1, n);
      }
    }
  }

  /** When every image is as tall as the first, the canvas is exactly as tall as the strip. */
  lemma UniformHeightsFill(imgs: seq<Image>)
    requires imgs != []
    requires forall i :: 0 <= i < |imgs| ==> imgs[i].height == imgs[0].height
    ensures TotalHeight(imgs) == CanvasHeight(imgs)
  {
    UniformTotal(imgs, imgs[0].height);
  }

  lemma {:induction false} UniformTotal(imgs: seq<Image>, h: nat)
    requires forall i :: 0 <= i < |imgs| ==> imgs[i].height == h
    ensures TotalHeight(imgs) == |imgs| * h
    decreases |imgs|
  {
    if imgs != [] {
      var init := imgs[..|imgs| - 1];
      assert forall i :: 0 <= i < |init| ==> init[i] == imgs[i];
      UniformTotal(init, h);
      assert |imgs| * h == |init| * h + h;
    }
  }

  /** Nothing is drawn below the last image. */
  lemma BelowStrip(imgs: seq<Image>, y: nat, x: nat)
    requires y >= TotalHeight(imgs)
    ensures StripPixel(imgs, y, x) == None
  {
  }

  /** Inside image i's band of rows, the strip shows image i's own pixel at the
      same offset where the image is wide enough, and nothing to its right. */
  lemma {:induction false} StripPixelInBand(imgs: seq<Image>, i: nat, dy: nat, x: nat)
    requires i < |imgs| && dy < imgs[i].height
    ensures StripPixel(imgs, Top(imgs, i) + dy, x)
            == if x < imgs[i].width then Some(imgs[i].rows[dy][x]) else None
    decreases |imgs|
  {
    var n := |imgs|;
    var init := imgs[..n - 1];
    if i < n - 1 {
      TopStep(imgs, i);
      TopMonotone(imgs, i + 1, n - 1);
      assert init[..i] == imgs[..i] && init[i] == imgs[i];
      StripPixelInBand(init, i, dy, x);
    }
  }

  /** Every row above the strip's total height belongs to exactly one image's band. */
  lemma {:induction false} BandOf(imgs: seq<Image>, y: nat) returns (i: nat)
    requires y < TotalHeight(imgs)
    ensures i < |imgs| && Top(imgs, i) <= y < Top(imgs, i) + imgs[i].height
    ensures forall j :: 0 <= j < |imgs| && Top(imgs, j) <= y < Top(imgs, j) + imgs[j].height ==> j == i
    decreases |imgs|
  {
    var n := |imgs|;
    var init := imgs[..n - 1];
    TopStep(imgs, n - 1);
    assert imgs[..n] == imgs;
    if y < TotalHeight(init) {
      i := BandOf(init, y);
      assert init[..i] == imgs[..i] && init[i] == imgs[i];
    } else {
      i := n - 1;
    }
    forall j | 0 <= j < n && Top(imgs, j) <= y < Top(imgs, j) + imgs[j].height
      ensures j == i
    {
      if j < i {
        Disjoint(imgs, j, i);
      } else if i < j {
        Disjoint(imgs, i, j);
      }
    }
  }

  /** A blank image of the given size, for the worked examples below. */
  function Blank(w: nat, h: nat): Image {
    Bitmap(w, h, seq(h, _ => seq(w, _ => Transparent)))
  }

  /** A 10x20 image followed by a 15x10 image: the canvas is 15 wide and, sized
      by the first height, 40 tall although the images fill only 30 rows. */
  lemma TwoImageExample()
    ensures var imgs := [Blank(10, 20), Blank(15, 10)];
            MaxWidth(imgs) == 15 && CanvasHeight(imgs) == 40 && TotalHeight(imgs) == 30
            && Placement(imgs, 0) == Rect(0, 0, 10, 20) && Placement(imgs, 1) == Rect(0, 20, 15, 30)
  {
    var imgs := [Blank(10, 20), Blank(15, 10)];
    assert imgs[..1] == [Blank(10, 20)] && imgs[..0] == [];
    assert imgs[..2] == imgs;
  }

  /** Heights 2, 1, 3: the heights differ, yet the strip fills the canvas exactly,
      so equal heights are sufficient for an exact fit but not necessary. */
  lemma UnequalHeightsCanFill()
    ensures var imgs := [Blank(1, 2), Blank(1, 1), Blank(1, 3)];
            imgs[0].height != imgs[2].height && TotalHeight(imgs) == CanvasHeight(imgs) == 6
  {
    var imgs := [Blank(1, 2), Blank(1, 1), Blank(1, 3)];
    var two := [Blank(1, 2), Blank(1, 1)];
    assert imgs[..|imgs| - 1] == two && two[..|two| - 1] == [Blank(1, 2)];
    assert TotalHeight([Blank(1, 2)]) == 2 by {
      assert [Blank(1, 2)][..0] == [];
    }
    assert TotalHeight(two) == 2 + 1;
    assert TotalHeight(imgs) == 2 + 1 + 3;
  }

  /** Heights 3, 1, 4: a later image is taller than the first, yet the strip
      (8 rows) fits in the canvas (9 rows) and nothing is clipped. */
  lemma TallerLaterImageCanFit()
    ensures var imgs := [Blank(1, 3), Blank(1, 1), Blank(1, 4)];
            TotalHeight(imgs) == 8 && CanvasHeight(imgs) == 9
  {
    var imgs := [Blank(1, 3), Blank(1, 1), Blank(1, 4)];
    var two := [Blank(1, 3), Blank(1, 1)];
    assert imgs[..|imgs| - 1] == two && two[..|two| - 1] == [Blank(1, 3)];
    assert TotalHeight([Blank(1, 3)]) == 3 by {
      assert [Blank(1, 3)][..0] == [];
    }
    assert TotalHeight(two) == 3 + 1;
    assert TotalHeight(imgs) == 3 + 1 + 4;
  }

  /** A 1-row image followed by a 2-row image: the canvas has 2 rows, the second
      image's placement ends at row 3, and its last row falls off the canvas. */
  lemma TallerLaterImageOverflows()
    ensures var imgs := [Blank(1, 1), Blank(1, 2)];
            CanvasHeight(imgs) == 2 && Placement(imgs, 1).maxY == 3
            && StripPixel(imgs, 2, 0) == Some(Transparent)
  {
    var imgs := [Blank(1, 1), Blank(1, 2)];
    assert imgs[..1] == [Blank(1, 1)] && imgs[..0] == [];
    assert imgs[..2] == imgs;
  }
}
