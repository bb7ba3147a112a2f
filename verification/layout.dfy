/** The master/stack tiling of `tile` in mywm.c. Given the reference output's
    mode size W x H and the number n of mapped clients, it produces one
    rectangle per client, in client-list order: rectangle i is the geometry
    handed to the i-th client of the list. */
module Layout {
  import opened Geometry

  /** The effect of `width *= 0.625` on a C `int`: the product is formed in
      double precision (exactly, for any width a mode can have) and converted
      back to `int` by truncation toward zero. */
  function MasterWidth(w: int): (m: int)
  {
    var p := (w as real) * 0.625;
    if p >= 0.0 then p.Floor else -((-p).Floor)
  }

  /** For a non-negative width the truncated product is the integer 5/8 of
      it, so the layout needs no floating point. */
  lemma MasterWidthFiveEighths(w: nat)
    ensures MasterWidth(w) == w * 5 / 8
  {
  }

  /** Iterations i, i+1, ..., n-1 of the tiling loop (the stack clients).
      `width` is the value the loop variable `width` holds when iteration i
      starts; each iteration replaces it by `W - width`, so the value carries
      over from one stack slot to the next. */
  function StackLoop(W: nat, H: nat, n: nat, i: nat, width: int): (r: seq<Rect>)
    requires 1 <= i <= n
    ensures |r| == n - i
    decreases n - i
  {
    if i == n then []
    else
      var w := W - width;
      var h := H / (n - 1);
      [Rect(W - w, h * (i - 1), w, h)] + StackLoop(W, H, n, i + 1, w)
  }

  /** The whole loop of `tile` over n clients: the first client (the master)
      keeps the full mode size, narrowed to `width * 0.625` when other clients
      follow it; the rest are produced by the stack iterations. */
  function Tile(W: nat, H: nat, n: nat): (r: seq<Rect>)
    ensures |r| == n
  {
    if n == 0 then []
    else
      var width := if n > 1 then MasterWidth(W) else W;
      [Rect(0, 0, width, H)] + StackLoop(W, H, n, 1, width)
  }

  /** The width the loop variable holds after iteration i, for n > 1:
      the master width after iteration 0 and every even iteration, its
      complement `W - W*5/8` after every odd one. */
  function StackWidth(W: nat, i: nat): (w: int)
  {
    if i % 2 == 0 then W * 5 / 8 else W - W * 5 / 8
  }

  /** Reference definition of slot i, stated without the loop: a lone client
      fills the output; otherwise the master is the left 5/8 and stack slot i
      is a band of height H/(n-1) starting at row (i-1)*(H/(n-1)) whose width
      alternates between the two column widths and whose right edge is the
      output's right edge. */
  function SlotRect(W: nat, H: nat, n: nat, i: nat): (r: Rect)
    requires i < n
  {
    if n == 1 then Rect(0, 0, W, H)
    else if i == 0 then Rect(0, 0, W * 5 / 8, H)
    else Rect(W - StackWidth(W, i), (i - 1) * (H / (n - 1)), StackWidth(W, i), H / (n - 1))
  }

  /** The stack iterations from slot i onward produce the reference slots,
      provided `width` enters iteration i holding StackWidth(W, i - 1). */
  lemma {:induction false} StackLoopClosedForm(W: nat, H: nat, n: nat, i: nat, width: int)
    requires 2 <= n && 1 <= i <= n
    requires width == StackWidth(W, i - 1)
    ensures forall j :: i <= j < n ==> StackLoop(W, H, n, i, width)[j - i] == SlotRect(W, H, n, j)
    decreases n - i
  {
    if i < n {
      var w := W - width;
      assert w == StackWidth(W, i);
      StackLoopClosedForm(W, H, n, i + 1, w);
      var r := StackLoop(W, H, n, i, width);
      assert r == [Rect(W - w, (H / (n - 1)) * (i - 1), w, H / (n - 1))] + StackLoop(W, H, n, i + 1, w);
      forall j | i <= j < n
        ensures r[j - i] == SlotRect(W, H, n, j)
      {
        if j > i {
          assert r[j - i] == StackLoop(W, H, n, i + 1, w)[j - (i + 1)];
        }
      }
    }
  }

  /** Every rectangle the loop produces is the reference slot of its rank. */
  lemma TileClosedForm(W: nat, H: nat, n: nat)
    ensures forall i :: 0 <= i < n ==> Tile(W, H, n)[i] == SlotRect(W, H, n, i)
  {
    if n > 1 {
      MasterWidthFiveEighths(W);
      StackLoopClosedForm(W, H, n, 1, MasterWidth(W));
    }
  }

  /** A lone client is placed at the origin with the full mode size. */
  lemma TileSingleClient(W: nat, H: nat)
    ensures Tile(W, H, 1) == [Rect(0, 0, W, H)]
  {
  }

  /** With other clients present the master sits at the origin, is 5/8 of the
      mode width wide (the truncated `* 0.625`) and spans the full height. */
  lemma TileMaster(W: nat, H: nat, n: nat)
    requires n > 1
    ensures Tile(W, H, n)[0] == Rect(0, 0, W * 5 / 8, H)
  {
    MasterWidthFiveEighths(W);
  }

  /** Stack slot i (1 <= i < n) is a band of height H/(n-1) starting at row
      (i-1)*(H/(n-1)); its right edge is the output's right edge; odd slots
      are `W - W*5/8` wide at x = W*5/8, even slots are `W*5/8` wide at
      x = W - W*5/8. */
  lemma TileStackSlot(W: nat, H: nat, n: nat, i: nat)
    requires 1 <= i < n
    ensures var r := Tile(W, H, n)[i];
      && r.height == H / (n - 1)
      && r.y == (i - 1) * (H / (n - 1))
      && r.x + r.width == W
      && (i % 2 == 1 ==> r.x == W * 5 / 8 && r.width == W - W * 5 / 8)
      && (i % 2 == 0 ==> r.x == W - W * 5 / 8 && r.width == W * 5 / 8)
  {
    TileClosedForm(W, H, n);
  }

  lemma MulLe(a: nat, b: nat, h: nat)
    requires a <= b
    ensures a * h <= b * h
  {
  }

  lemma MulSucc(a: nat, h: nat)
    ensures (a + 1) * h == a * h + h
  {
  }

  lemma DivBounds(H: nat, d: nat)
    requires d > 0
    ensures d * (H / d) <= H < d * (H / d) + d
  {
  }

  /** The stack slots are stacked top to bottom with no vertical gap between
      neighbours; the last one ends at or above the bottom edge, leaving
      fewer than n-1 rows (the division remainder) uncovered. */
  lemma TileStackContiguous(W: nat, H: nat, n: nat)
    requires n >= 2
    ensures var r := Tile(W, H, n);
      && (forall i :: 1 <= i < n - 1 ==> r[i + 1].y == r[i].y + r[i].height)
      && r[n - 1].y + r[n - 1].height <= H
      && H - (r[n - 1].y + r[n - 1].height) < n - 1
  {
    var r := Tile(W, H, n);
    var h := H / (n - 1);
    TileClosedForm(W, H, n);
    forall i | 1 <= i < n
      ensures r[i].y + r[i].height == i * h
    {
      assert r[i].y == (i - 1) * h && r[i].height == h;
      MulSucc(i - 1, h);
    }
    DivBounds(H, n - 1);
  }

  /** Every rectangle has a non-negative size and lies inside the W x H
      output. In particular every coordinate and size lies between 0 and W
      or H, so the C `int` arithmetic of `tile` cannot overflow. */
  lemma TileWithinOutput(W: nat, H: nat, n: nat)
    ensures forall i :: 0 <= i < n ==> Within(Tile(W, H, n)[i], W, H)
  {
    TileClosedForm(W, H, n);
    if n > 1 {
      var h := H / (n - 1);
      DivBounds(H, n - 1);
      forall i | 1 <= i < n
        ensures Within(Tile(W, H, n)[i], W, H)
      {
        MulLe(i, n - 1, h);
      }
    }
  }

  /** With exactly two clients the master and the single stack client
      partition the output: every pixel of the W x H output lies in exactly
      one of them and no pixel outside it lies in either. */
  lemma TileTwoPartition(W: nat, H: nat)
    ensures var r := Tile(W, H, 2);
      && Disjoint(r[0], r[1])
      && forall px, py ::
           (0 <= px < W && 0 <= py < H) <==> (Contains(r[0], px, py) || Contains(r[1], px, py))
  {
    TileClosedForm(W, H, 2);
  }

  /** The layout of a 1920 x 1080 output holding three clients. */
  lemma TileThreeClientsExample()
    ensures Tile(1920, 1080, 3) == [Rect(0, 0, 1200, 1080), Rect(1200, 0, 720, 540), Rect(720, 540, 1200, 540)]
  {
    TileClosedForm(1920, 1080, 3);
  }

  /** As written, the carried-over `width` makes the second stack client
      (slot 2) as wide as the master and moves it left of the master's right
      edge, so the two overlap whenever the master is wider than half the
      output and the bands are at least one row high. */
  lemma TileThirdOverlapsMaster(W: nat, H: nat, n: nat)
    requires n >= 3 && W < 2 * (W * 5 / 8) && H >= n - 1
    ensures var r := Tile(W, H, n);
      && Contains(r[0], W - W * 5 / 8, H / (n - 1))
      && Contains(r[2], W - W * 5 / 8, H / (n - 1))
  {
    TileClosedForm(W, H, n);
    DivBounds(H, n - 1);
  }

  /** The corrected layout: every stack client shares one column of width
      `W - W*5/8` to the right of the master. */
  function TileIntended(W: nat, H: nat, n: nat): (r: seq<Rect>)
    ensures |r| == n
  {
    seq(n, i requires 0 <= i < n =>
      if n == 1 then Rect(0, 0, W, H)
      else if i == 0 then Rect(0, 0, W * 5 / 8, H)
      else Rect(W * 5 / 8, (i - 1) * (H / (n - 1)), W - W * 5 / 8, H / (n - 1)))
  }

  /** The intended layout keeps the master and the odd stack slots of the
      as-written one and differs only in the even stack slots. */
  lemma TileIntendedAgrees(W: nat, H: nat, n: nat)
    ensures forall i :: 0 <= i < n && (i == 0 || i % 2 == 1) ==> TileIntended(W, H, n)[i] == Tile(W, H, n)[i]
  {
    TileClosedForm(W, H, n);
  }

  /** Two bands of height h starting at rows (i-1)*h and (j-1)*h, i < j,
      share no pixel. */
  lemma BandsDisjoint(a: Rect, b: Rect, i: nat, j: nat, h: nat)
    requires 1 <= i < j
    requires a.y == (i - 1) * h && a.height == h && b.y == (j - 1) * h && b.height == h
    ensures Disjoint(a, b)
  {
    MulLe(i, j - 1, h);
    assert a.y + a.height == i * h;
  }

  /** In the intended layout every rectangle lies inside the output. */
  lemma TileIntendedWithin(W: nat, H: nat, n: nat)
    ensures forall i :: 0 <= i < n ==> Within(TileIntended(W, H, n)[i], W, H)
  {
    var r := TileIntended(W, H, n);
    if n > 1 {
      var h := H / (n - 1);
      DivBounds(H, n - 1);
      forall i | 1 <= i < n
        ensures Within(r[i], W, H)
      {
        MulLe(i, n - 1, h);
      }
    }
  }

  /** In the intended layout no two distinct clients share a pixel. */
  lemma TileIntendedDisjoint(W: nat, H: nat, n: nat)
    ensures forall i, j :: 0 <= i < j < n ==> Disjoint(TileIntended(W, H, n)[i], TileIntended(W, H, n)[j])
  {
    var r := TileIntended(W, H, n);
    if n > 1 {
      var h := H / (n - 1);
      forall i, j | 0 <= i < j < n
        ensures Disjoint(r[i], r[j])
      {
        if i > 0 {
          BandsDisjoint(r[i], r[j], i, j, h);
        }
      }
    }
  }
}
