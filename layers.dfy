/**
 * The layer split of the map file: after a header row holding the width w and the
 * height h (in tiles), the file holds h rows of base tiles, h rows of detail tiles,
 * h rows of top tiles, 3h rows of 3w collision codes and h rows of rail codes, in
 * that order. Only the first w (or 3w) entries of each row are read; rows after
 * the last section are ignored. The rows come already parsed into integers.
 */
module Layers {
  import opened Common

  datatype MapLayers = MapLayers(base: seq<seq<int>>, detail: seq<seq<int>>, top: seq<seq<int>>,
                                 collision: seq<seq<int>>, rail: seq<seq<int>>)

  /** `g` has `h` rows of `w` entries each. */
  predicate Grid(g: seq<seq<int>>, h: nat, w: nat)
  {
    |g| == h && forall r :: 0 <= r < h ==> |g[r]| == w
  }

  /** The shape of the layers of an h by w map: collision cells are a third of a tile. */
  predicate Shaped(l: MapLayers, h: nat, w: nat)
  {
    && Grid(l.base, h, w) && Grid(l.detail, h, w) && Grid(l.top, h, w)
    && Grid(l.collision, 3 * h, 3 * w) && Grid(l.rail, h, w)
  }

  /** Rows `start` .. `start + count - 1` exist and each has at least `width` entries. */
  predicate RowsCover(rows: seq<seq<int>>, start: nat, count: nat, width: nat)
  {
    start + count <= |rows| && forall i :: start <= i < start + count ==> |rows[i]| >= width
  }

  /** The first `width` entries of the `count` rows from `start`. */
  function Section(rows: seq<seq<int>>, start: nat, count: nat, width: nat): (g: seq<seq<int>>)
    requires RowsCover(rows, start, count, width)
    ensures Grid(g, count, width)
    ensures forall r, c :: 0 <= r < count && 0 <= c < width ==> g[r][c] == rows[start + r][c]
  {
    seq(count, i requires 0 <= i < count => rows[start + i][..width])
  }

  /** A loop over `range(n)` runs max(n, 0) times. */
  function Count(n: int): (k: nat)
    ensures n >= 0 ==> k == n
    ensures n < 0 ==> k == 0
  {
    if n < 0 then 0 else n
  }

  /**
   * The layers are written into 300 by 300 tile grids (900 by 900 collision cells):
   * any write is out of range once a dimension exceeds the map, unless nothing at
   * all is written.
   */
  predicate Fits(w: int, h: int)
  {
    w <= 0 || h <= 0 || (w <= MAP_TILES && h <= MAP_TILES)
  }

  /** Every section the reader asks for is present and long enough. */
  predicate Readable(rows: seq<seq<int>>, w: nat, h: nat)
  {
    && RowsCover(rows, 1, h, w) && RowsCover(rows, 1 + h, h, w) && RowsCover(rows, 1 + 2 * h, h, w)
    && RowsCover(rows, 1 + 3 * h, 3 * h, 3 * w) && RowsCover(rows, 1 + 6 * h, h, w)
  }

  /** The header of a well-formed file: at least a width and a height. */
  predicate HasHeader(rows: seq<seq<int>>)
  {
    |rows| > 0 && |rows[0]| >= 2
  }

  /**
   * Splits the parsed rows into the five layers; None where reading the file would
   * fail (a missing header entry, a missing or short row, a write out of range).
   */
  function SplitLayers(rows: seq<seq<int>>): (r: Option<MapLayers>)
    ensures r.Some? <==> && HasHeader(rows) && Fits(rows[0][0], rows[0][1])
                         && Readable(rows, Count(rows[0][0]), Count(rows[0][1]))
    ensures r.Some? ==> Shaped(r.value, Count(rows[0][1]), Count(rows[0][0]))
  {
    if !HasHeader(rows) then None
    else
      var w, h := Count(rows[0][0]), Count(rows[0][1]);
      if !Fits(rows[0][0], rows[0][1]) || !Readable(rows, w, h) then None
      else
        Some(MapLayers(Section(rows, 1, h, w), Section(rows, 1 + h, h, w), Section(rows, 1 + 2 * h, h, w),
                       Section(rows, 1 + 3 * h, 3 * h, 3 * w), Section(rows, 1 + 6 * h, h, w)))
  }

  /** Each entry of each layer is the matching entry of its section of the file. */
  lemma SplitLayersReads(rows: seq<seq<int>>)
    requires SplitLayers(rows).Some?
    ensures var l, w, h := SplitLayers(rows).value, Count(rows[0][0]), Count(rows[0][1]);
            && (forall y, x :: 0 <= y < h && 0 <= x < w ==>
                  && l.base[y][x] == rows[1 + y][x] && l.detail[y][x] == rows[1 + h + y][x]
                  && l.top[y][x] == rows[1 + 2 * h + y][x] && l.rail[y][x] == rows[1 + 6 * h + y][x])
            && (forall y, x :: 0 <= y < 3 * h && 0 <= x < 3 * w ==> l.collision[y][x] == rows[1 + 3 * h + y][x])
  {
  }

  /** The file that holds the layers `l` of a `w` by `h` map. */
  function Serialise(w: nat, h: nat, l: MapLayers): (rows: seq<seq<int>>)
    requires Shaped(l, h, w)
    ensures |rows| == 1 + 7 * h
  {
    [[w, h]] + l.base + l.detail + l.top + l.collision + l.rail
  }

  /** Reading back a written map gives the same layers. */
  lemma SplitSerialised(w: nat, h: nat, l: MapLayers)
    requires Shaped(l, h, w) && w <= MAP_TILES && h <= MAP_TILES
    ensures SplitLayers(Serialise(w, h, l)) == Some(l)
  {
    var rows := Serialise(w, h, l);
    SerialisedSections(w, h, l);
    assert rows[0] == [w, h];
  }

  /** Each section of a written map holds the matching layer. */
  lemma SerialisedSections(w: nat, h: nat, l: MapLayers)
    requires Shaped(l, h, w)
    ensures var rows := Serialise(w, h, l);
            && RowsCover(rows, 1, h, w) && Section(rows, 1, h, w) == l.base
            && RowsCover(rows, 1 + h, h, w) && Section(rows, 1 + h, h, w) == l.detail
            && RowsCover(rows, 1 + 2 * h, h, w) && Section(rows, 1 + 2 * h, h, w) == l.top
            && RowsCover(rows, 1 + 3 * h, 3 * h, 3 * w) && Section(rows, 1 + 3 * h, 3 * h, 3 * w) == l.collision
            && RowsCover(rows, 1 + 6 * h, h, w) && Section(rows, 1 + 6 * h, h, w) == l.rail
  {
    var head: seq<seq<int>> := [[w, h]];
    var rows := Serialise(w, h, l);
    var front := head + l.base + l.detail + l.top;
    var back := l.collision + l.rail;
    assert rows == front + back;
    FrontSections(head, l.base, l.detail, l.top, back, h, w);
    SectionOf(front, l.collision, l.rail, 3 * h, 3 * w);
    SectionOf(front + l.collision, l.rail, [], h, w);
    assert front + l.collision + l.rail + [] == rows;
  }

  /** The first three sections of a file whose header is `head`. */
  lemma FrontSections(head: seq<seq<int>>, base: seq<seq<int>>, detail: seq<seq<int>>, top: seq<seq<int>>,
                      back: seq<seq<int>>, h: nat, w: nat)
    requires Grid(base, h, w) && Grid(detail, h, w) && Grid(top, h, w)
    ensures var rows := head + base + detail + top + back;
            && RowsCover(rows, |head|, h, w) && Section(rows, |head|, h, w) == base
            && RowsCover(rows, |head| + h, h, w) && Section(rows, |head| + h, h, w) == detail
            && RowsCover(rows, |head| + 2 * h, h, w) && Section(rows, |head| + 2 * h, h, w) == top
  {
    var rows := head + base + detail + top + back;
    SectionOf(head, base, detail + top + back, h, w);
    assert head + base + (detail + top + back) == rows;
    SectionOf(head + base, detail, top + back, h, w);
    assert head + base + detail + (top + back) == rows;
    SectionOf(head + base + detail, top, back, h, w);
  }

  /** The grid `g` placed after `pre` in a file is read back as the section at |pre|. */
  lemma SectionOf(pre: seq<seq<int>>, g: seq<seq<int>>, post: seq<seq<int>>, count: nat, width: nat)
    requires Grid(g, count, width)
    ensures RowsCover(pre + g + post, |pre|, count, width)
    ensures Section(pre + g + post, |pre|, count, width) == g
  {
    var rows := pre + g + post;
    assert forall i :: 0 <= i < count ==> rows[|pre| + i] == g[i];
    assert RowsCover(rows, |pre|, count, width) by {
      forall i | |pre| <= i < |pre| + count
        ensures |rows[i]| >= width
      {
        assert rows[|pre| + (i - |pre|)] == g[i - |pre|];
      }
    }
    forall i | 0 <= i < count
      ensures Section(rows, |pre|, count, width)[i] == g[i]
    {
      assert rows[|pre| + i] == g[i] && |g[i]| == width;
      assert rows[|pre| + i][..width] == g[i];
    }
  }
}
