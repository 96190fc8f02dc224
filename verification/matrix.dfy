/** The date x stay-length matrix a search is expanded into. Dates are day
    ordinals, so `current + timedelta(days=i)` is `current + i`. */
module Matrix {
  import opened Wrappers

  type Date = int

  /** The stay lengths searched for each departure day: one-way trips have
      no return; round trips try every length in `[minDays, maxDays]`. */
  datatype Stays = OneWay | RoundTrip(minDays: int, maxDays: int)

  /** One sub-query of the matrix: a departure day and, for round trips, a stay length. */
  datatype Cell = Cell(day: Date, stay: Option<int>)

  /** The return date of a cell: `day + stay`, or none for one-way cells. */
  function ReturnDate(c: Cell): Option<Date> {
    if c.stay.Some? then Some(c.day + c.stay.value) else None
  }

  /** `range(minDays, maxDays + 1)` paired with `day`, or the single one-way cell. */
  function DayCells(day: Date, stays: Stays): seq<Cell> {
    match stays
    case OneWay => [Cell(day, None)]
    case RoundTrip(lo, hi) => seq(Width(stays), k => Cell(day, Some(lo + k)))
  }

  /** The cells for every day of `[start, end]`, day by day. */
  function Cells(start: Date, end: Date, stays: Stays): seq<Cell>
    decreases end - start
  {
    if end < start then [] else Cells(start, end - 1, stays) + DayCells(end, stays)
  }

  /** Number of days in `[start, end]`. */
  function DayCount(start: Date, end: Date): nat {
    if end < start then 0 else end - start + 1
  }

  /** Number of cells per day. */
  function Width(stays: Stays): nat {
    match stays
    case OneWay => 1
    case RoundTrip(lo, hi) => if hi < lo then 0 else hi - lo + 1
  }

  /** Whether `c` belongs to the matrix. */
  predicate InMatrix(c: Cell, start: Date, end: Date, stays: Stays) {
    && start <= c.day <= end
    && match stays
       case OneWay => c.stay.None?
       case RoundTrip(lo, hi) => c.stay.Some? && lo <= c.stay.value <= hi
  }

  /** Day-major, then stay-length order. */
  predicate Before(a: Cell, b: Cell) {
    a.day < b.day || (a.day == b.day && a.stay.Some? && b.stay.Some? && a.stay.value < b.stay.value)
  }

  /** The matrix holds `days x width` cells. */
  lemma {:induction false} CellCount(start: Date, end: Date, stays: Stays)
    ensures |Cells(start, end, stays)| == DayCount(start, end) * Width(stays)
    decreases end - start
  {
    if end >= start {
      CellCount(start, end - 1, stays);
      assert DayCount(start, end) == DayCount(start, end - 1) + 1;
    }
  }

  /** The matrix holds exactly the cells of `[start, end] x stays`. */
  lemma {:induction false} CellsAreTheMatrix(start: Date, end: Date, stays: Stays)
    ensures forall c :: c in Cells(start, end, stays) <==> InMatrix(c, start, end, stays)
    decreases end - start
  {
    if end >= start {
      CellsAreTheMatrix(start, end - 1, stays);
      forall c ensures c in Cells(start, end, stays) <==> InMatrix(c, start, end, stays) {
        if c.day == end && InMatrix(c, start, end, stays) && stays.RoundTrip? {
          assert c == DayCells(end, stays)[c.stay.value - stays.minDays];
        }
      }
    }
  }

  /** The matrix is listed in strictly increasing day-major order, so no cell is sent twice. */
  lemma {:induction false} CellsAscend(start: Date, end: Date, stays: Stays)
    ensures forall i, j :: 0 <= i < j < |Cells(start, end, stays)| ==>
              Before(Cells(start, end, stays)[i], Cells(start, end, stays)[j])
    decreases end - start
  {
    if end >= start {
      var prev := Cells(start, end - 1, stays);
      var day := DayCells(end, stays);
      var all := Cells(start, end, stays);
      CellsAscend(start, end - 1, stays);
      CellsAreTheMatrix(start, end - 1, stays);
      assert all == prev + day;
      forall i, j | 0 <= i < j < |all| ensures Before(all[i], all[j]) {
        if j >= |prev| && i < |prev| {
          assert all[i] in prev;
        } else if i >= |prev| {
          assert all[i] == day[i - |prev|] && all[j] == day[j - |prev|];
        }
      }
    }
  }
}
