/** The measurement history page: the fetch that stores the list newest
    first with a display date on each row, the column-header sort toggle,
    and the sorted copy the table shows. */
module History {
  import opened Wrappers
  import opened Api
  import Text

  datatype SortKey = Date | Systolic | Diastolic | Pulse
  datatype Order = Asc | Desc
  datatype SortConfig = SortConfig(key: SortKey, order: Order)

  const InitialSort := SortConfig(Date, Asc)

  /** `setSortConfig`'s updater: the clicked column becomes the key, and the
      order is descending exactly when that column was already sorted
      ascending. */
  function Toggle(prev: SortConfig, key: SortKey): (next: SortConfig)
    ensures next.key == key
    ensures next.order == Desc <==> prev == SortConfig(key, Asc)
  {
    SortConfig(key, if prev.key == key && prev.order == Asc then Desc else Asc)
  }

  /** Clicking the same column again undoes a click on it, and a click on
      another column followed by one on this column sorts it descending. */
  lemma ToggleAlternates(c: SortConfig, key: SortKey, other: SortKey)
    requires other != key
    ensures c.key == key ==> Toggle(Toggle(c, key), key) == c
    ensures Toggle(Toggle(Toggle(c, other), key), key) == SortConfig(key, Desc)
  {
  }

  /** A row of the table: the measurement as the backend sends it, its
      instant as an integer, and the display date the fetch adds. */
  datatype Row = Row(id: string, systolic: int, diastolic: int, pulse: int, timestamp: int, date: string)

  /** `a[sortConfig.key]`: a number for the readings, a string for the date. */
  datatype Cell = Num(n: int) | Str(s: string)

  function CellOf(r: Row, key: SortKey): Cell {
    match key
    case Date => Str(r.date)
    case Systolic => Num(r.systolic)
    case Diastolic => Num(r.diastolic)
    case Pulse => Num(r.pulse)
  }

  /** JavaScript's `>` on two cells of the same column. */
  predicate Greater(a: Cell, b: Cell) {
    match (a, b)
    case (Num(x), Num(y)) => x > y
    case (Str(x), Str(y)) => Text.StrLess(y, x)
    case _ => false
  }

  /** The two orders the page sorts by: a column, as the table's comparator
      does, and newest first, as the fetch does. */
  datatype Ordering = Column(config: SortConfig) | NewestFirst

  /** The comparator is positive: `a` is placed after `b`. */
  predicate After(a: Row, b: Row, o: Ordering) {
    match o
    case Column(c) =>
      if c.order == Asc then Greater(CellOf(a, c.key), CellOf(b, c.key))
      else Greater(CellOf(b, c.key), CellOf(a, c.key))
    case NewestFirst => b.timestamp > a.timestamp
  }

  /** The table's comparator: 1 when `a` goes after `b`, -1 otherwise, so
      two rows with the same key compare as -1 both ways. */
  function Compare(a: Row, b: Row, c: SortConfig): (r: int)
    ensures r == 1 <==> After(a, b, Column(c))
    ensures r == 1 || r == -1
    ensures c.order == Asc ==> (r == 1 <==> Greater(CellOf(a, c.key), CellOf(b, c.key)))
    ensures c.order == Desc ==> (r == 1 <==> Greater(CellOf(b, c.key), CellOf(a, c.key)))
  {
    if c.order == Asc then (if Greater(CellOf(a, c.key), CellOf(b, c.key)) then 1 else -1)
    else (if Greater(CellOf(b, c.key), CellOf(a, c.key)) then 1 else -1)
  }

  /** Rows with equal keys: the comparator answers -1 both ways, so their
      relative order is left to the sorting algorithm. */
  lemma CompareTies(a: Row, b: Row, c: SortConfig)
    requires CellOf(a, c.key) == CellOf(b, c.key)
    ensures Compare(a, b, c) == -1 && Compare(b, a, c) == -1
  {
    if c.key == Date {
      Text.StrLessIrreflexive(a.date);
    }
  }

  /** No two rows are each placed after the other. */
  lemma AfterAsymmetric(a: Row, b: Row, o: Ordering)
    requires After(a, b, o)
    ensures !After(b, a, o)
  {
    if o.Column? && o.config.key == Date {
      if o.config.order == Asc {
        Text.StrLessAsymmetric(b.date, a.date);
      } else {
        Text.StrLessAsymmetric(a.date, b.date);
      }
    }
  }

  /** No adjacent pair is out of order. */
  predicate Ordered(s: seq<Row>, o: Ordering) {
    forall i :: 0 <= i < |s| - 1 ==> !After(s[i], s[i + 1], o)
  }

  /** Places `x` before the first row it does not go after. */
  function Insert(x: Row, s: seq<Row>, o: Ordering): (r: seq<Row>)
    ensures multiset(r) == multiset(s) + multiset{x}
    ensures |r| == |s| + 1 && (r[0] == x || (s != [] && r[0] == s[0]))
    ensures Ordered(s, o) ==> Ordered(r, o)
    decreases |s|
  {
    if s == [] || !After(x, s[0], o) then [x] + s
    else
      var rest := Insert(x, s[1..], o);
      assert s == [s[0]] + s[1..];
      AfterAsymmetric(x, s[0], o);
      [s[0]] + rest
  }

  /** A stable insertion sort: a permutation of its input with no adjacent
      pair out of order. Stands for the engine's `Array.prototype.sort`. */
  function SortBy(rows: seq<Row>, o: Ordering): (r: seq<Row>)
    ensures multiset(r) == multiset(rows)
    ensures Ordered(r, o)
  {
    if rows == [] then []
    else
      assert rows == [rows[0]] + rows[1..];
      Insert(rows[0], SortBy(rows[1..], o), o)
  }

  /** With the newest-first order, no row is older than the next. */
  lemma NewestFirstMeans(s: seq<Row>)
    requires Ordered(s, NewestFirst)
    ensures forall i :: 0 <= i < |s| - 1 ==> s[i].timestamp >= s[i + 1].timestamp
  {
  }

  /** A numeric column sorted ascending never decreases; descending, it
      never increases. */
  lemma ColumnOrderMeans(s: seq<Row>, c: SortConfig)
    requires Ordered(s, Column(c)) && c.key != Date
    ensures c.order == Asc ==> forall i :: 0 <= i < |s| - 1 ==> CellOf(s[i], c.key).n <= CellOf(s[i + 1], c.key).n
    ensures c.order == Desc ==> forall i :: 0 <= i < |s| - 1 ==> CellOf(s[i], c.key).n >= CellOf(s[i + 1], c.key).n
  {
    forall i | 0 <= i < |s| - 1 ensures !After(s[i], s[i + 1], Column(c)) {
    }
  }

  /** `measurement.date = ...` for each row, with the locale formatting as a
      parameter. */
  function Stamp(rows: seq<Row>, format: int -> string): (r: seq<Row>)
    ensures |r| == |rows|
    ensures forall i :: 0 <= i < |r| ==> r[i] == rows[i].(date := format(rows[i].timestamp))
  {
    seq(|rows|, i requires 0 <= i < |rows| => rows[i].(date := format(rows[i].timestamp)))
  }

  /** Stamping keeps the newest-first order, which looks only at instants. */
  lemma StampKeepsNewestFirst(rows: seq<Row>, format: int -> string)
    requires Ordered(rows, NewestFirst)
    ensures Ordered(Stamp(rows, format), NewestFirst)
  {
  }

  /** How the list request ends: rows, or any failure (a rejected request,
      or a body that is not a list and makes the sort throw). */
  datatype Fetch = Fetched(rows: seq<Row>) | FetchFailed

  /** The React state of the page. */
  class HistoryPage {
    var measurements: seq<Row>
    var sortConfig: SortConfig

    constructor ()
      ensures measurements == [] && sortConfig == InitialSort
    {
      measurements := [];
      sortConfig := InitialSort;
    }

    /** `getMeasurements`: on success the rows are stored newest first, each
        with its display date; on failure nothing changes. */
    method GetMeasurements(b: Browser, reply: Fetch, format: int -> string)
      modifies this`measurements, b`sent
      ensures b.sent == old(b.sent) + [Outgoing(Authenticated, GET, "/measurements/bp", map[], b.storage)]
      ensures reply.Fetched? ==> measurements == Stamp(SortBy(reply.rows, NewestFirst), format)
      ensures reply.Fetched? ==> Ordered(measurements, NewestFirst) && |measurements| == |reply.rows|
      ensures reply.FetchFailed? ==> measurements == old(measurements)
    {
      var _ := b.Send(Authenticated, GET, "/measurements/bp", map[]);
      if reply.FetchFailed? {
        return;
      }
      var rows := SortBy(reply.rows, NewestFirst);
      var sorted := rows;
      var i := 0;
      while i < |rows|
        invariant 0 <= i <= |rows| && |rows| == |sorted|
        invariant forall k :: 0 <= k < i ==> rows[k] == sorted[k].(date := format(sorted[k].timestamp))
        invariant forall k :: i <= k < |rows| ==> rows[k] == sorted[k]
      {
        rows := rows[i := rows[i].(date := format(rows[i].timestamp))];
        i := i + 1;
      }
      measurements := rows;
      StampKeepsNewestFirst(sorted, format);
      assert |multiset(sorted)| == |multiset(reply.rows)|;
    }

    /** `handleMeasurementsSort`. */
    method HandleMeasurementsSort(key: SortKey)
      modifies this`sortConfig
      ensures sortConfig == Toggle(old(sortConfig), key)
    {
      sortConfig := Toggle(sortConfig, key);
    }

    /** `sortedMeasurements`: a sorted copy; the stored list keeps its order. */
    function SortedMeasurements(): (r: seq<Row>)
      reads this
      ensures multiset(r) == multiset(measurements)
      ensures Ordered(r, Column(sortConfig))
    {
      SortBy(measurements, Column(sortConfig))
    }
  }
}
