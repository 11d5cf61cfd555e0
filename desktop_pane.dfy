/**
 * The non-graphical part of Icy's main desktop pane: its duplicate-free
 * list of overlays, the clamp that keeps internal frames below the pane's
 * top edge, and the arithmetic of the cascade and tile arrangements.
 * Internal frames are modelled by the flags the arrangements test and the
 * bounds they set.
 */
module DesktopPane {
  import opened Pixels

  /** Bounds of a Swing component, as setBounds receives them. */
  datatype Bounds = Bounds(x: int, y: int, width: int, height: int)

  /** A mutable java.awt.Rectangle, as fixPosition receives it. */
  class Rectangle {
    var x: int
    var y: int
    var width: int
    var height: int

    constructor (x: int, y: int, width: int, height: int)
      ensures this.x == x && this.y == y && this.width == width && this.height == height
    {
      this.x, this.y, this.width, this.height := x, y, width, height;
    }
  }

  /** An internal frame: the flags the arrangements test and its bounds. */
  datatype Frame = Frame(icon: bool, resizable: bool, visible: bool, bounds: Bounds)

  /** Frames that the arrangements move: not iconified, resizable and visible. */
  predicate Arranged(f: Frame)
  {
    !f.icon && f.resizable && f.visible
  }

  /** Indices, in pane order, of the frames the arrangements move. */
  function ArrangedIndices(frames: seq<Frame>): (sel: seq<nat>)
    ensures forall k :: 0 <= k < |sel| ==> sel[k] < |frames|
    ensures forall k, m :: 0 <= k < m < |sel| ==> sel[k] < sel[m]
  {
    if frames == [] then []
    else
      var n := |frames| - 1;
      ArrangedIndices(frames[..n]) + (if Arranged(frames[n]) then [n] else [])
  }

  /** The selection holds exactly the arranged frames. */
  lemma {:induction false} ArrangedIndicesExact(frames: seq<Frame>)
    ensures forall k :: 0 <= k < |ArrangedIndices(frames)| ==> Arranged(frames[ArrangedIndices(frames)[k]])
    ensures forall i :: 0 <= i < |frames| && Arranged(frames[i]) ==> i in ArrangedIndices(frames)
  {
    if frames != [] {
      var n := |frames| - 1;
      ArrangedIndicesExact(frames[..n]);
      var pre := ArrangedIndices(frames[..n]);
      assert forall k :: 0 <= k < |pre| ==> frames[pre[k]] == frames[..n][pre[k]];
      forall i | 0 <= i < |frames| && Arranged(frames[i])
        ensures i in ArrangedIndices(frames)
      {
        if i < n {
          assert frames[..n][i] == frames[i];
        }
      }
    }
  }

  /**
   * The loops of organizeCascade and organizeTile that collect the frames
   * to arrange from getAllFrames().
   */
  method SelectFrames(frames: seq<Frame>) returns (sel: seq<nat>)
    ensures sel == ArrangedIndices(frames)
    ensures forall k :: 0 <= k < |sel| ==> sel[k] < |frames| && Arranged(frames[sel[k]])
    ensures forall k, m :: 0 <= k < m < |sel| ==> sel[k] < sel[m]
    ensures forall i :: 0 <= i < |frames| && Arranged(frames[i]) ==> i in sel
  {
    sel := [];
    var i := 0;
    while i < |frames|
      invariant 0 <= i <= |frames|
      invariant sel == ArrangedIndices(frames[..i])
    {
      assert frames[..i + 1][..i] == frames[..i];
      if Arranged(frames[i]) {
        sel := sel + [i];
      }
      i := i + 1;
    }
    assert frames[..i] == frames;
    ArrangedIndicesExact(frames);
  }

  /** No element occurs twice. */
  ghost predicate NoDuplicates<T>(s: seq<T>)
  {
    forall i, j :: 0 <= i < j < |s| ==> s[i] != s[j]
  }

  /** Position of the first occurrence of v. */
  function IndexOf<T(==)>(s: seq<T>, v: T): (i: nat)
    requires v in s
    ensures i < |s| && s[i] == v && v !in s[..i]
  {
    if s[0] == v then 0 else 1 + IndexOf(s[1..], v)
  }

  /** ArrayList.remove(Object): drop the first occurrence of v, if any. */
  function RemoveFirst<T(==)>(s: seq<T>, v: T): (r: seq<T>)
    ensures v !in s ==> r == s
    ensures v in s ==> |r| == |s| - 1
  {
    if s == [] then []
    else if s[0] == v then s[1..]
    else [s[0]] + RemoveFirst(s[1..], v)
  }

  /** RemoveFirst cuts out exactly the element at the first occurrence of v. */
  lemma {:induction false} RemoveFirstSplits<T>(s: seq<T>, v: T)
    requires v in s
    ensures RemoveFirst(s, v) == s[..IndexOf(s, v)] + s[IndexOf(s, v) + 1..]
  {
    if s[0] != v {
      var j := IndexOf(s[1..], v);
      assert IndexOf(s, v) == j + 1;
      RemoveFirstSplits(s[1..], v);
      assert s[..j + 1] == [s[0]] + s[1..][..j];
      assert s[1..][j + 1..] == s[j + 2..];
      calc {
        RemoveFirst(s, v);
        [s[0]] + RemoveFirst(s[1..], v);
        [s[0]] + (s[1..][..j] + s[j + 2..]);
        ([s[0]] + s[1..][..j]) + s[j + 2..];
        s[..j + 1] + s[j + 2..];
      }
    } else {
      assert s[..0] + s[1..] == s[1..];
    }
  }

  /**
   * Removing from a duplicate-free list keeps it duplicate-free, removes
   * every trace of v and keeps every other element.
   */
  lemma RemoveFirstFromSet<T>(s: seq<T>, v: T)
    requires NoDuplicates(s)
    ensures NoDuplicates(RemoveFirst(s, v))
    ensures v !in RemoveFirst(s, v)
    ensures forall w :: w != v ==> (w in RemoveFirst(s, v) <==> w in s)
  {
    if v in s {
      var i := IndexOf(s, v);
      var r := RemoveFirst(s, v);
      RemoveFirstSplits(s, v);
      forall k | 0 <= k < |r|
        ensures r[k] == s[if k < i then k else k + 1]
      {
        if k < i {
          assert r[k] == s[..i][k];
        } else {
          assert r[k] == s[i + 1..][k - i];
        }
      }
      forall a, b | 0 <= a < b < |r|
        ensures r[a] != r[b]
      {
        assert r[a] == s[if a < i then a else a + 1];
        assert r[b] == s[if b < i then b else b + 1];
      }
      forall k | 0 <= k < |r|
        ensures r[k] != v
      {
        assert r[k] == s[if k < i then k else k + 1];
      }
      forall w | w != v && w in s
        ensures w in r
      {
        var j :| 0 <= j < |s| && s[j] == w;
        assert r[if j < i then j else j - 1] == w;
      }
    }
  }

  /** Where the cascade starts, and where a coordinate restarts. */
  const CascadeOrigin: int := 32
  /** Horizontal step between two cascaded frames. */
  const CascadeStepX: int := 30
  /** Vertical step between two cascaded frames. */
  const CascadeStepY: int := 20
  /** Space kept free at the bottom of the pane by both arrangements. */
  const BottomMargin: int := 32

  /**
   * x (or y) of the k-th cascaded frame: start at 32, add the step, and
   * restart at 32 when a frame of the given size would pass the limit.
   * With a forward step every coordinate lies between 32 and the last
   * position at which the frame still fits, or is 32 when it never fits.
   */
  function CascadeCoord(k: nat, step: int, size: int, limit: int): (c: int)
    ensures step >= 0 ==> CascadeOrigin <= c && (c <= limit - size || c == CascadeOrigin)
  {
    if k == 0 then CascadeOrigin
    else
      var next := CascadeCoord(k - 1, step, size, limit) + step;
      if next + size > limit then CascadeOrigin else next
  }

  /**
   * Bounds of the k-th cascaded frame of size (fw, fh): it keeps that
   * size, and each corner coordinate is at least 32 and keeps the frame
   * inside the pane unless it is back at 32.
   */
  function CascadeBounds(k: nat, fw: int, fh: int, xMax: int, yMax: int): (b: Bounds)
    ensures b.width == fw && b.height == fh
    ensures CascadeOrigin <= b.x && (b.x + fw <= xMax || b.x == CascadeOrigin)
    ensures CascadeOrigin <= b.y && (b.y + fh <= yMax || b.y == CascadeOrigin)
  {
    Bounds(CascadeCoord(k, CascadeStepX, fw, xMax), CascadeCoord(k, CascadeStepY, fh, yMax), fw, fh)
  }

  /** Tile arrangements organizeTile accepts; any other code is treated as a grid. */
  datatype TileType = TileHorizontal | TileVertical | TileGrid

  /** (int) Math.sqrt(n): the integer square root. */
  function ISqrt(n: nat): (r: nat)
    ensures r * r <= n < (r + 1) * (r + 1)
  {
    if n == 0 then 0
    else
      var r := ISqrt(n - 1);
      if (r + 1) * (r + 1) <= n then r + 1 else r
  }

  /** Java's int division, which truncates toward zero. */
  function JavaDiv(a: int, b: int): (q: int)
    requires b > 0
    ensures a >= 0 ==> 0 <= q && q * b <= a < q * b + b
    ensures a < 0 ==> q <= 0 && q * b - b < a <= q * b
  {
    if a >= 0 then a / b else -((-a) / b)
  }

  /**
   * The (numCol, numLine) grid organizeTile chooses for numFrames
   * frames: at least one column and one line, enough cells for all
   * frames, and no line left entirely empty.
   */
  function TileLayout(kind: TileType, numFrames: nat): (layout: (nat, nat))
    requires numFrames > 0
    ensures var (numCol, numLine) := layout;
      && numCol >= 1 && numLine >= 1
      && numCol * numLine >= numFrames
      && (numLine - 1) * numCol < numFrames
  {
    match kind
    case TileHorizontal => (1, numFrames)
    case TileVertical => (numFrames, 1)
    case TileGrid =>
      var root := ISqrt(numFrames);
      var numCol := if numFrames != root * root then root + 1 else root;
      assert numCol > 0;
      LinesFor(numFrames, numCol);
      var lines := numFrames / numCol;
      var numLine := if numFrames > numCol * lines then lines + 1 else lines;
      (numCol, numLine)
  }

  /** Lines of numCol cells needed for n frames, as organizeTile rounds up. */
  lemma LinesFor(n: nat, numCol: nat)
    requires n > 0 && numCol > 0
    ensures var lines := n / numCol;
      var numLine := if n > numCol * lines then lines + 1 else lines;
      numLine >= 1 && numCol * numLine >= n && (numLine - 1) * numCol < n
  {
    var lines := n / numCol;
    var numLine := if n > numCol * lines then lines + 1 else lines;
    assert n == numCol * lines + n % numCol;
    if n > numCol * lines {
      assert numCol * numLine == numCol * lines + numCol;
    } else {
      assert (numLine - 1) * numCol == numCol * lines - numCol;
    }
  }

  /**
   * The grid layout takes the smallest number of columns whose square
   * holds all frames, and never more lines than columns.
   */
  lemma GridLayoutNearSquare(n: nat)
    requires n > 0
    ensures var (numCol, numLine) := TileLayout(TileGrid, n);
      && (numCol - 1) * (numCol - 1) < n <= numCol * numCol
      && numLine <= numCol
  {
    var root := ISqrt(n);
    var (numCol, numLine) := TileLayout(TileGrid, n);
    assert numCol == if n != root * root then root + 1 else root;
    assert (numCol - 1) * (numCol - 1) < n <= numCol * numCol;
    var lines := n / numCol;
    DivBelow(n, numCol, numCol);
    assert lines <= numCol;
    if lines == numCol {
      assert numCol * lines == numCol * numCol;
      assert numLine == lines;
    }
  }

  /** n <= c * m gives n / c <= m. */
  lemma DivBelow(n: nat, c: nat, m: nat)
    requires c > 0 && n <= c * m
    ensures n / c <= m
  {
    var q := n / c;
    assert c * q <= n;
    if q > m {
      MulLeftMonotone(c, m + 1, q);
    }
  }

  /** Number of cells (and so of HungarianAlgorithm rows) of the layout. */
  function CellCount(kind: TileType, numFrames: nat): nat
    requires numFrames > 0
  {
    var (numCol, numLine) := TileLayout(kind, numFrames);
    numCol * numLine
  }

  /**
   * Cell k of a grid numbered line by line: column k % numCol, line
   * k / numCol, each cell dx by dy.
   */
  function GridCell(k: nat, numCol: nat, dx: int, dy: int): Bounds
    requires numCol > 0
  {
    Bounds((k % numCol) * dx, (k / numCol) * dy, dx, dy)
  }

  /** Bounds of cell k of the layout organizeTile chooses for numFrames frames. */
  function TileCell(kind: TileType, numFrames: nat, width: int, height: int, k: nat): Bounds
    requires numFrames > 0
  {
    var (numCol, numLine) := TileLayout(kind, numFrames);
    GridCell(k, numCol, JavaDiv(width, numCol), JavaDiv(height - BottomMargin, numLine))
  }

  /** Position of the last occurrence of v: the cell whose setBounds wins. */
  function LastIndexOf<T(==)>(s: seq<T>, v: T): (i: nat)
    requires v in s
    ensures i < |s| && s[i] == v && v !in s[i + 1..]
  {
    if s[|s| - 1] == v then |s| - 1
    else
      assert v in s[..|s| - 1];
      LastIndexOf(s[..|s| - 1], v)
  }

  /** Cell (i, j) of a line-by-line numbering with numCol columns. */
  lemma CellNumber(i: int, j: int, numCol: int)
    requires 0 <= i && 0 <= j < numCol
    ensures (i * numCol + j) / numCol == i && (i * numCol + j) % numCol == j
  {
    var q := i * numCol + j;
    var a, b := q / numCol, q % numCol;
    assert q == a * numCol + b;
    assert (a - i) * numCol == j - b;
    if a > i {
      MulLeftMonotone(numCol, 1, a - i);
    } else if a < i {
      MulLeftMonotone(numCol, 1, i - a);
    }
  }

  /** The bounds the placement loop gives cell (i, j). */
  lemma GridCellAt(i: nat, j: nat, numCol: nat, dx: int, dy: int)
    requires j < numCol
    ensures GridCell(i * numCol + j, numCol, dx, dy) == Bounds(j * dx, i * dy, dx, dy)
  {
    CellNumber(i, j, numCol);
  }

  class IcyDesktopPane<Overlay(==)> {
    /** Overlays, painted in list order (first added, first painted). */
    var overlays: seq<Overlay>
    /** getY(): the top edge no internal frame may pass. */
    var paneY: int
    /** getWidth() */
    var width: int
    /** getHeight() */
    var height: int

    ghost predicate Valid()
      reads this
    {
      NoDuplicates(overlays) && width >= 0 && height >= 0
    }

    /** The pane starts with its background overlay. */
    constructor (background: Overlay, paneY: int, width: nat, height: nat)
      ensures Valid()
      ensures overlays == [background]
      ensures this.paneY == paneY && this.width == width && this.height == height
    {
      overlays := [background];
      this.paneY, this.width, this.height := paneY, width, height;
    }

    /** addOverlay: append only when not yet present. */
    method AddOverlay(overlay: Overlay)
      requires Valid()
      modifies this`overlays
      ensures Valid()
      ensures overlays == if overlay in old(overlays) then old(overlays) else old(overlays) + [overlay]
    {
      if overlay !in overlays {
        overlays := overlays + [overlay];
      }
    }

    /** removeOverlay: true exactly when the overlay was present. */
    method RemoveOverlay(overlay: Overlay) returns (removed: bool)
      requires Valid()
      modifies this`overlays
      ensures Valid()
      ensures removed == (overlay in old(overlays))
      ensures overlays == RemoveFirst(old(overlays), overlay)
      ensures overlay !in overlays
      ensures forall o :: o != overlay ==> (o in overlays <==> o in old(overlays))
    {
      ghost var before := overlays;
      RemoveFirstFromSet(before, overlay);
      removed := overlay in overlays;
      overlays := RemoveFirst(overlays, overlay);
      forall o | o != overlay
        ensures o in overlays <==> o in before
      {
        RemoveFirstFromSet(before, overlay);
      }
    }

    /** fixPosition: move the rectangle down to the pane's top edge if above it. */
    method FixPosition(rect: Rectangle) returns (fixed: bool)
      modifies rect
      ensures fixed == (old(rect.y) < paneY)
      ensures rect.y == if fixed then paneY else old(rect.y)
      ensures rect.y >= paneY
      ensures rect.x == old(rect.x) && rect.width == old(rect.width) && rect.height == old(rect.height)
    {
      var limit := paneY;
      if rect.y < limit {
        rect.y := limit;
        return true;
      }
      return false;
    }

    /**
     * organizeCascade: every arranged frame gets size (fw, fh) and the next
     * cascade position; other frames are left alone. The sizes, 0.6 of the
     * available space in the source, are given.
     */
    method OrganizeCascade(frames: array<Frame>, fw: int, fh: int)
      modifies frames
      ensures var sel := ArrangedIndices(old(frames[..]));
        forall k :: 0 <= k < |sel| ==>
          frames[sel[k]] == old(frames[sel[k]]).(bounds := CascadeBounds(k, fw, fh, width, height - BottomMargin))
      ensures forall i :: 0 <= i < frames.Length && i !in ArrangedIndices(old(frames[..])) ==>
        frames[i] == old(frames[i])
    {
      var sel := SelectFrames(frames[..]);
      var w := width;
      var h := height - BottomMargin;
      var xMax := w;
      var yMax := h;
      var x := CascadeOrigin;
      var y := CascadeOrigin;
      var k := 0;
      while k < |sel|
        invariant 0 <= k <= |sel|
        invariant x == CascadeCoord(k, CascadeStepX, fw, xMax)
        invariant y == CascadeCoord(k, CascadeStepY, fh, yMax)
        invariant CascadePlaced(frames[..], old(frames[..]), sel, k, fw, fh, xMax, yMax)
      {
        var f := sel[k];
        ghost var before := frames[..];
        frames[f] := frames[f].(bounds := Bounds(x, y, fw, fh));
        CascadeStep(before, frames[..], old(frames[..]), sel, k, fw, fh, xMax, yMax);
        x := x + CascadeStepX;
        y := y + CascadeStepY;
        if x + fw > xMax {
          x := CascadeOrigin;
        }
        if y + fh > yMax {
          y := CascadeOrigin;
        }
        k := k + 1;
      }
      assert sel[..k] == sel;
    }

    /**
     * organizeTile: with no frame to arrange nothing changes; otherwise
     * cell k of the layout goes to frame framePos[k] when that names a
     * frame (the cell numbered last wins if two name the same frame).
     * framePos, the assignment HungarianAlgorithm computes from distances
     * between frame centres and cell centres, is given.
     */
    method OrganizeTile(kind: TileType, frames: array<Frame>, framePos: seq<nat>)
      requires var n := |ArrangedIndices(frames[..])|; n > 0 ==> |framePos| == CellCount(kind, n)
      modifies frames
      ensures var sel := ArrangedIndices(old(frames[..]));
        |sel| == 0 ==> frames[..] == old(frames[..])
      ensures var sel := ArrangedIndices(old(frames[..]));
        forall f :: 0 <= f < |sel| ==>
          frames[sel[f]] == if f in framePos
                            then old(frames[sel[f]]).(bounds := TileCell(kind, |sel|, width, height, LastIndexOf(framePos, f)))
                            else old(frames[sel[f]])
      ensures forall i :: 0 <= i < frames.Length && i !in ArrangedIndices(old(frames[..])) ==>
        frames[i] == old(frames[i])
    {
      var sel := SelectFrames(frames[..]);
      var numFrames := |sel|;
      if numFrames == 0 {
        return;
      }
      var w := width;
      var h := height - BottomMargin;
        var (numCol, numLine) := TileLayout(kind, numFrames);
      var dx := JavaDiv(w, numCol);
      var dy := JavaDiv(h, numLine);
      PlaceTiles(frames, sel, framePos, numCol, numLine, dx, dy);
      assert forall m: nat :: TileCell(kind, numFrames, width, height, m) == GridCell(m, numCol, dx, dy);
    }
  }

  /**
   * The placement loops of organizeTile: line by line and column by
   * column, with a running cell number k, cell k goes to the selected
   * frame framePos[k] when there is one.
   */
  method PlaceTiles(frames: array<Frame>, sel: seq<nat>, framePos: seq<nat>,
                    numCol: nat, numLine: nat, dx: int, dy: int)
    requires numCol > 0 && numLine > 0 && |framePos| == numCol * numLine
    requires |sel| > 0
    requires forall f :: 0 <= f < |sel| ==> sel[f] < frames.Length
    requires forall a, b :: 0 <= a < b < |sel| ==> sel[a] < sel[b]
    modifies frames
    ensures TilePlaced(frames[..], old(frames[..]), sel, framePos, numCol, dx, dy)
  {
    var numFrames := |sel|;
    var k := 0;
    var i := 0;
    assert framePos[..0] == [];
    while i < numLine
      invariant 0 <= i <= numLine
      invariant k == i * numCol
      invariant k <= |framePos|
      invariant TilePlaced(frames[..], old(frames[..]), sel, framePos[..k], numCol, dx, dy)
    {
      RowEnd(i, numLine, numCol);
      var j := 0;
      while j < numCol
        invariant 0 <= j <= numCol
        invariant k == i * numCol + j
        invariant k <= |framePos|
        invariant TilePlaced(frames[..], old(frames[..]), sel, framePos[..k], numCol, dx, dy)
      {
        GridCellAt(i, j, numCol, dx, dy);
        var f := framePos[k];
        ghost var before := frames[..];
        if f < numFrames {
          frames[sel[f]] := frames[sel[f]].(bounds := Bounds(j * dx, i * dy, dx, dy));
        }
        PlaceStep(before, frames[..], old(frames[..]), sel, framePos, k, numCol, dx, dy);
        j := j + 1;
        k := k + 1;
      }
      i := i + 1;
    }
    assert k == |framePos| by {
      assert numLine * numCol == numCol * numLine;
    }
    assert framePos[..k] == framePos;
  }

  /**
   * After k steps of organizeCascade's loop: the first k selected frames
   * hold their cascade bounds, every other frame its old bounds.
   */
  ghost predicate CascadePlaced(now: seq<Frame>, was: seq<Frame>, sel: seq<nat>, k: nat,
                                fw: int, fh: int, xMax: int, yMax: int)
  {
    && |now| == |was|
    && k <= |sel|
    && (forall f :: 0 <= f < |sel| ==> sel[f] < |was|)
    && (forall m :: 0 <= m < k ==> now[sel[m]] == was[sel[m]].(bounds := CascadeBounds(m, fw, fh, xMax, yMax)))
    && (forall q :: 0 <= q < |now| && q !in sel[..k] ==> now[q] == was[q])
  }

  /** One step of the cascade loop keeps CascadePlaced. */
  lemma CascadeStep(before: seq<Frame>, after: seq<Frame>, was: seq<Frame>, sel: seq<nat>, k: nat,
                    fw: int, fh: int, xMax: int, yMax: int)
    requires k < |sel|
    requires CascadePlaced(before, was, sel, k, fw, fh, xMax, yMax)
    requires forall a, b :: 0 <= a < b < |sel| ==> sel[a] < sel[b]
    requires after == before[sel[k] := before[sel[k]].(bounds := CascadeBounds(k, fw, fh, xMax, yMax))]
    ensures CascadePlaced(after, was, sel, k + 1, fw, fh, xMax, yMax)
  {
    assert sel[..k + 1] == sel[..k] + [sel[k]];
    assert sel[k] !in sel[..k];
    forall m | 0 <= m < k
      ensures after[sel[m]] == was[sel[m]].(bounds := CascadeBounds(m, fw, fh, xMax, yMax))
    {
      assert sel[m] < sel[k];
    }
  }

  /** Line i of a numLine by numCol grid ends at cell (i + 1) * numCol, within the grid. */
  lemma RowEnd(i: int, numLine: int, numCol: int)
    requires 0 <= i < numLine && numCol >= 0
    ensures (i + 1) * numCol == i * numCol + numCol
    ensures (i + 1) * numCol <= numCol * numLine
  {
    MulLeftMonotone(numCol, i + 1, numLine);
  }

  /**
   * After cells 0 .. |cells| - 1 of organizeTile's placement loop: each
   * arranged frame holds the cell it was last assigned, or its old bounds.
   */
  ghost predicate TilePlaced(now: seq<Frame>, was: seq<Frame>, sel: seq<nat>, cells: seq<nat>,
                             numCol: nat, dx: int, dy: int)
  {
    && numCol > 0
    && |now| == |was|
    && (forall f :: 0 <= f < |sel| ==> sel[f] < |was|)
    && |sel| > 0
    && (forall q :: 0 <= q < |now| && q !in sel ==> now[q] == was[q])
    && forall f :: 0 <= f < |sel| ==>
         now[sel[f]] == if f in cells
                        then was[sel[f]].(bounds := GridCell(LastIndexOf(cells, f), numCol, dx, dy))
                        else was[sel[f]]
  }

  /** One step of the placement loop keeps TilePlaced. */
  lemma PlaceStep(before: seq<Frame>, after: seq<Frame>, was: seq<Frame>, sel: seq<nat>, framePos: seq<nat>,
                  k: nat, numCol: nat, dx: int, dy: int)
    requires k < |framePos|
    requires TilePlaced(before, was, sel, framePos[..k], numCol, dx, dy)
    requires forall a, b :: 0 <= a < b < |sel| ==> sel[a] < sel[b]
    requires framePos[k] < |sel| ==>
      after == before[sel[framePos[k]] := before[sel[framePos[k]]].(bounds := GridCell(k, numCol, dx, dy))]
    requires framePos[k] >= |sel| ==> after == before
    ensures TilePlaced(after, was, sel, framePos[..k + 1], numCol, dx, dy)
  {
    var cells := framePos[..k + 1];
    assert cells[..k] == framePos[..k];
    forall f | 0 <= f < |sel|
      ensures after[sel[f]] == if f in cells
                               then was[sel[f]].(bounds := GridCell(LastIndexOf(cells, f), numCol, dx, dy))
                               else was[sel[f]]
    {
      if f == framePos[k] {
        assert LastIndexOf(cells, f) == k;
      } else {
        assert (f in cells) == (f in framePos[..k]);
        if f in cells {
          assert LastIndexOf(cells, f) == LastIndexOf(framePos[..k], f);
        }
        if framePos[k] < |sel| {
          assert sel[f] != sel[framePos[k]] by {
            if f < framePos[k] { } else { }
          }
        }
      }
    }
  }
}
