/**
 * Sprite sheets: a sheet is a grid of equally sized sprites, `across` columns by
 * `down` rows, and a sprite number picks the part of the sheet to copy. The row is
 * the number divided by `across`; the column is the number taken modulo `down`,
 * which picks the right column only on a square sheet.
 */
module Sprites {
  import opened Geometry

  /** A sheet of `across` by `down` sprites of `tw` by `th` pixels. */
  datatype Sheet = Sheet(tw: int, th: int, across: int, down: int)

  /** The part of the sheet drawn for sprite `n`, as the game computes it. */
  function SourceRect(s: Sheet, n: int): (r: Rect)
    requires s.across > 0 && s.down > 0
    ensures r.w == s.tw && r.h == s.th
    ensures r.x == (n % s.down) * s.tw && r.y == (n / s.across) * s.th
  {
    var row := n / s.across;
    var col := n % s.down;
    Rect(col * s.tw, row * s.th, s.tw, s.th)
  }

  /** The part of the sheet for sprite `n` with the column taken modulo `across`. */
  function SheetCell(s: Sheet, n: int): (r: Rect)
    requires s.across > 0 && s.down > 0
    ensures r.w == s.tw && r.h == s.th
  {
    Rect((n % s.across) * s.tw, (n / s.across) * s.th, s.tw, s.th)
  }

  /** A sprite rectangle lies inside the sheet image. */
  predicate InSheet(s: Sheet, r: Rect)
  {
    0 <= r.x && r.x + r.w <= s.across * s.tw && 0 <= r.y && r.y + r.h <= s.down * s.th
  }

  /**
   * Numbered row by row, every sprite of a sheet is a different part of the sheet
   * and lies inside it.
   */
  lemma SheetCellsDistinct(s: Sheet, n: int, m: int)
    requires s.across > 0 && s.down > 0 && s.tw > 0 && s.th > 0
    requires 0 <= n < s.across * s.down && 0 <= m < s.across * s.down
    ensures InSheet(s, SheetCell(s, n))
    ensures SheetCell(s, n) == SheetCell(s, m) ==> n == m
  {
    CellBounds(s, n);
    if SheetCell(s, n) == SheetCell(s, m) {
      Cancel(n % s.across, m % s.across, s.tw);
      Cancel(n / s.across, m / s.across, s.th);
      assert n == (n / s.across) * s.across + n % s.across;
      assert m == (m / s.across) * s.across + m % s.across;
    }
  }

  /** On a square sheet, as every sheet in the game is, the two computations agree. */
  lemma SquareSheetAgrees(s: Sheet, n: int)
    requires s.across > 0 && s.across == s.down
    ensures SourceRect(s, n) == SheetCell(s, n)
  {
  }

  /** With more columns than rows, two sprites of the first row share a source rectangle. */
  lemma NonSquareSheetCollides()
    ensures var s := Sheet(48, 48, 4, 2);
            SourceRect(s, 0) == SourceRect(s, 2) && SheetCell(s, 0) != SheetCell(s, 2)
  {
  }

  lemma Cancel(a: int, b: int, k: int)
    requires k > 0 && a * k == b * k
    ensures a == b
  {
    if a < b {
      MulStrict(a, b, k);
    } else if b < a {
      MulStrict(b, a, k);
    }
  }

  lemma MulStrict(a: int, b: int, k: int)
    requires a < b && k > 0
    ensures a * k < b * k
  {
    assert b * k - a * k == (b - a) * k;
  }

  lemma CellBounds(s: Sheet, n: int)
    requires s.across > 0 && s.down > 0 && s.tw > 0 && s.th > 0
    requires 0 <= n < s.across * s.down
    ensures InSheet(s, SheetCell(s, n))
  {
    var row, col := n / s.across, n % s.across;
    assert n == row * s.across + col;
    assert 0 <= row by {
      if row < 0 {
        MulStrict(row, 0, s.across);
      }
    }
    assert row < s.down by {
      if row >= s.down {
        MulLeq(s.down, row, s.across);
      }
    }
    MulLeq(col + 1, s.across, s.tw);
    assert (col + 1) * s.tw == col * s.tw + s.tw;
    MulLeq(row + 1, s.down, s.th);
    assert (row + 1) * s.th == row * s.th + s.th;
    MulLeq(0, col, s.tw);
    MulLeq(0, row, s.th);
  }

  lemma MulLeq(a: int, b: int, k: int)
    requires a <= b && k > 0
    ensures a * k <= b * k
  {
    if a < b {
      MulStrict(a, b, k);
    }
  }
}
