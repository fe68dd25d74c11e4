/** Turning an eyelid image into a table of rows per column (outputEyelid in resources/eyes/240x240/tablegen.py). */
module EyelidTable {
  import opened Arithmetic
  import opened EyeTypes
  import H = HexTable

  /** The brightness of the pixel in column x of row y. */
  type Pixels = (nat, nat) -> nat

  const LAYOUT: H.Layout := H.Layout(16, 2, 2)

  /** The first row from y on that is lit (or dark), the height of the screen if there is none. */
  function FirstRow(pixels: Pixels, x: nat, y: nat, lit: bool): (r: nat)
    requires y <= SCREEN
    ensures y <= r <= SCREEN
    ensures r < SCREEN ==> (pixels(x, r) > 0) == lit
    ensures forall i: nat :: y <= i < r ==> (pixels(x, i) > 0) != lit
    decreases SCREEN - y
  {
    if y == SCREEN || (pixels(x, y) > 0) == lit then y else FirstRow(pixels, x, y + 1, lit)
  }

  function LidStart(pixels: Pixels, x: nat): (r: nat)
    ensures r <= SCREEN
  {
    FirstRow(pixels, x, 0, true)
  }

  function LidEnd(pixels: Pixels, x: nat): (r: nat)
    ensures r <= SCREEN
  {
    FirstRow(pixels, x, LidStart(pixels, x), false)
  }

  function Ends(pixels: Pixels, x: nat): seq<nat> {
    [LidStart(pixels, x), LidEnd(pixels, x)]
  }

  predicate HasLid(pixels: Pixels, x: nat) {
    LidStart(pixels, x) < SCREEN
  }

  /** The two rows for each of the first n columns. */
  function Rows(pixels: Pixels, n: nat): (r: seq<nat>)
    ensures |r| == 2 * n
  {
    if n == 0 then [] else Rows(pixels, n - 1) + Ends(pixels, n - 1)
  }

  lemma FirstRowIsLeast(pixels: Pixels, x: nat, y: nat, lit: bool, r: nat)
    requires y <= r <= SCREEN
    requires r < SCREEN ==> (pixels(x, r) > 0) == lit
    requires forall i: nat :: y <= i < r ==> (pixels(x, i) > 0) != lit
    ensures FirstRow(pixels, x, y, lit) == r
  {
  }

  lemma StartIs(pixels: Pixels, x: nat, r: nat)
    requires r <= SCREEN && (r < SCREEN ==> pixels(x, r) > 0)
    requires forall i: nat :: i < r ==> pixels(x, i) == 0
    ensures LidStart(pixels, x) == r
  {
  }

  lemma EndIs(pixels: Pixels, x: nat, r: nat)
    requires LidStart(pixels, x) <= r <= SCREEN && (r < SCREEN ==> pixels(x, r) == 0)
    requires forall i: nat :: LidStart(pixels, x) <= i < r ==> pixels(x, i) > 0
    ensures LidEnd(pixels, x) == r
  {
    FirstRowIsLeast(pixels, x, LidStart(pixels, x), false, r);
  }

  /** The column scan: `before` holds the rows of the columns to the left, written after `text`. */
  method ScanColumn(table: H.Table, pixels: Pixels, x: nat, ghost before: seq<nat>, ghost text: string)
    returns (ok: bool)
    requires table.View() == H.After(table.layout, |before|)
    requires table.out == text + H.Text(table.layout, table.limit, before)
    modifies table`out, table`counter, table`column
    ensures ok == HasLid(pixels, x)
    ensures ok ==>
      && table.out == text + H.Text(table.layout, table.limit, before + Ends(pixels, x))
      && table.View() == H.After(table.layout, |before| + 2)
    ensures !ok ==> table.out == old(table.out) && table.View() == old(table.View())
  {
    hide H.Text, H.Piece, H.After, FirstRow, LidStart, LidEnd;
    ghost var values := before;
    var foundStart, foundEnd := false, false;
    for y := 0 to SCREEN
      invariant values == before + if foundStart then [LidStart(pixels, x)] else []
      invariant foundStart ==> LidStart(pixels, x) < y
      invariant !foundStart ==> forall i: nat :: i < y ==> pixels(x, i) == 0
      invariant foundStart ==> forall i: nat :: LidStart(pixels, x) <= i < y ==> pixels(x, i) > 0
      invariant !foundEnd
      invariant table.out == text + H.Text(table.layout, table.limit, values)
      invariant table.View() == H.After(table.layout, |values|)
      invariant !foundStart ==> table.out == old(table.out) && table.View() == old(table.View())
    {
      if !foundStart {
        if pixels(x, y) > 0 {
          StartIs(pixels, x, y);
          values := WriteNext(table, y, values, text);
          foundStart := true;
        }
      } else if !foundEnd {
        if pixels(x, y) == 0 {
          EndIs(pixels, x, y);
          values := WriteNext(table, y, values, text);
          foundEnd := true;
          assert values == before + Ends(pixels, x);
          break;
        }
      }
    }
    if !foundStart {
      StartIs(pixels, x, SCREEN);
      return false;
    }
    if !foundEnd {
      // Still lit in the last row
      EndIs(pixels, x, SCREEN);
      values := WriteNext(table, SCREEN, values, text);
      assert values == before + Ends(pixels, x);
    }
    return true;
  }

  method WriteNext(table: H.Table, v: nat, ghost before: seq<nat>, ghost text: string) returns (ghost values: seq<nat>)
    requires table.View() == H.After(table.layout, |before|)
    requires table.out == text + H.Text(table.layout, table.limit, before)
    modifies table`out, table`counter, table`column
    ensures values == before + [v]
    ensures table.out == text + H.Text(table.layout, table.limit, values)
    ensures table.View() == H.After(table.layout, |values|)
  {
    hide H.Text, H.Piece, H.After;
    H.TextGrows(table.layout, table.limit, before, v);
    H.AfterStep(table.layout, |before|);
    table.Write(v);
    values := before + [v];
  }

  /** The whole table of a screen so many columns wide, or an error at the first column without a lid. */
  method OutputEyelid(text: string, width: nat, pixels: Pixels) returns (ok: bool, out: string)
    ensures ok <==> forall x: nat :: x < width ==> HasLid(pixels, x)
    ensures ok ==> out == text + H.Text(LAYOUT, 2 * width, Rows(pixels, width))
  {
    hide H.Text, H.Piece, H.After, LidStart, LidEnd;
    var table := new H.Table(text, width * 2, LAYOUT);
    H.TextOfNone(LAYOUT, 2 * width);
    H.AfterNone(LAYOUT);
    for x := 0 to width
      invariant forall i: nat :: i < x ==> HasLid(pixels, i)
      invariant fresh(table) && table.limit == 2 * width && table.layout == LAYOUT
      invariant table.out == text + H.Text(LAYOUT, 2 * width, Rows(pixels, x))
      invariant table.View() == H.After(LAYOUT, 2 * x)
    {
      ok := ScanColumn(table, pixels, x, Rows(pixels, x), text);
      if !ok {
        return false, table.out;
      }
    }
    return true, table.out;
  }

  // ---------------------------------------------------------------- what the renderer reads

  lemma {:induction false} RowsAt(pixels: Pixels, n: nat, x: nat)
    requires x < n
    ensures Rows(pixels, n)[2 * x] == LidStart(pixels, x) && Rows(pixels, n)[2 * x + 1] == LidEnd(pixels, x)
  {
    hide FirstRow, LidStart, LidEnd;
    if x < n - 1 { RowsAt(pixels, n - 1, x); }
  }

  lemma RowsAreInRange(pixels: Pixels, n: nat, k: nat)
    requires k < 2 * n
    ensures Rows(pixels, n)[k] <= SCREEN
  {
    hide FirstRow, LidStart, LidEnd, Rows;
    RowsAt(pixels, n, k / 2);
    assert k == 2 * (k / 2) || k == 2 * (k / 2) + 1;
  }

  /** The text of a table reads back to its rows, every one of which fits its two digits. */
  lemma LidTableReadsBack(pixels: Pixels, n: nat, k: nat)
    requires k < 2 * n
    ensures var s := H.Lex(H.Lexer([], H.Between), H.Text(LAYOUT, 2 * n, Rows(pixels, n)));
      s.mode == H.Between && H.Numbers(s.tokens) == Rows(pixels, n)
    ensures |H.Numeral(Rows(pixels, n)[k], LAYOUT.digits)| == 4
  {
    hide Rows, H.Lex, H.Text, H.Numbers, H.Numeral;
    H.TableReadsBack(LAYOUT, Rows(pixels, n));
    RowsAreInRange(pixels, n, k);
    assert Power(16, 2) == 256;
    H.NumeralWidth(Rows(pixels, n)[k], 2);
  }

  /** The rows of a column that has a lid are the ends of its first lit stretch, which is not empty. */
  lemma LidIsFirstStretch(pixels: Pixels, x: nat)
    requires HasLid(pixels, x)
    ensures LidStart(pixels, x) < LidEnd(pixels, x)
    ensures forall y: nat :: y < LidStart(pixels, x) ==> pixels(x, y) == 0
    ensures forall y: nat :: LidStart(pixels, x) <= y < LidEnd(pixels, x) ==> pixels(x, y) > 0
    ensures LidEnd(pixels, x) < SCREEN ==> pixels(x, LidEnd(pixels, x)) == 0
  {
  }

  /**
   The tables of two images with a lid in every column make valid eyelid parameters, and each lid
   moves between the ends of the first lit stretch of its column.
   */
  lemma GeneratedLidsAreValid(upper: Pixels, lower: Pixels, color: int, n: nat, x: nat)
    requires n == SCREEN && forall c: nat :: c < n ==> HasLid(upper, c) && HasLid(lower, c)
    requires x < n
    ensures var e := EyelidParams(Rows(upper, n), Rows(lower, n), color);
      && e.Valid()
      && e.UpperOpen(x) == LidStart(upper, x) < e.UpperClosed(x) == LidEnd(upper, x)
      && e.LowerClosed(x) == LidStart(lower, x) < e.LowerOpen(x) == LidEnd(lower, x)
  {
    hide Rows, FirstRow, LidStart, LidEnd;
    forall i | 0 <= i < 2 * n ensures 0 <= Rows(upper, n)[i] <= SCREEN && 0 <= Rows(lower, n)[i] <= SCREEN {
      RowsAreInRange(upper, n, i);
      RowsAreInRange(lower, n, i);
    }
    RowsAt(upper, n, x);
    RowsAt(lower, n, x);
    assert HasLid(upper, x) && HasLid(lower, x);
    LidIsFirstStretch(upper, x);
    LidIsFirstStretch(lower, x);
  }
}
