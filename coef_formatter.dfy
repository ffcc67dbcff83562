/**
 * Turning a coefficient dict into the table that is stored or sent along with
 * an alert (`convert_coefdict_to_coefsdf`): one row per dict entry, in the
 * dict's key order, with columns `coef_name` and `coef_value`, followed by the
 * columns `pid`, `date_start`, `date_end` and `created`, each filled with one
 * value for every row.
 */
module CoefFormatter {
  import opened Wrappers
  import opened OrderedDict

  /** A point in time, in whole seconds since the epoch (UTC). */
  type Timestamp = int

  /** A calendar day, counted in days since the epoch. */
  type Date = int

  const SecondsPerDay: int := 86400

  /** `Timestamp.date()`: the day that a timestamp falls on. */
  function DayOf(t: Timestamp): (d: Date)
    ensures d * SecondsPerDay <= t < (d + 1) * SecondsPerDay
  {
    t / SecondsPerDay
  }

  /** One cell of the table. */
  datatype Cell = Text(s: string) | Number(x: real) | Id(n: int) | Day(d: Date) | Instant(t: Timestamp)

  /** A named column of a data frame. */
  datatype Column = Column(header: string, cells: seq<Cell>)

  /** A data frame, column by column. */
  type Frame = seq<Column>

  /** The labels of the columns that the loop adds, in the order it adds them. */
  const SqlColumnLabels: seq<string> := ["pid", "date_start", "date_end", "created"]

  /**
   * The earliest timestamp of a non-empty index (`index.min()`). Timestamps
   * are integers, so this is kept apart from `Numeric.MinOf` over reals.
   */
  function EarliestOf(s: seq<Timestamp>): Timestamp
    requires |s| > 0
  {
    if |s| == 1 then s[0]
    else if s[0] <= EarliestOf(s[1..]) then s[0] else EarliestOf(s[1..])
  }

  /** The latest timestamp of a non-empty index (`index.max()`). */
  function LatestOf(s: seq<Timestamp>): Timestamp
    requires |s| > 0
  {
    if |s| == 1 then s[0]
    else if s[0] >= LatestOf(s[1..]) then s[0] else LatestOf(s[1..])
  }

  /** The first and last instants of an index are instants of it, and every instant lies between them. */
  lemma {:induction false} IndexRange(s: seq<Timestamp>)
    requires |s| > 0
    ensures EarliestOf(s) in s && LatestOf(s) in s
    ensures forall i :: 0 <= i < |s| ==> EarliestOf(s) <= s[i] <= LatestOf(s)
  {
    if |s| > 1 {
      IndexRange(s[1..]);
      assert forall i :: 1 <= i < |s| ==> s[i] == s[1..][i - 1];
    }
  }

  /** The labels of a frame, left to right. */
  function Labels(frame: Frame): (ls: seq<string>)
    ensures |ls| == |frame| && forall c :: 0 <= c < |frame| ==> ls[c] == frame[c].header
  {
    seq(|frame|, c requires 0 <= c < |frame| => frame[c].header)
  }

  /** Every column of the frame has `n` cells. */
  predicate HasRows(frame: Frame, n: nat) {
    forall c :: 0 <= c < |frame| ==> |frame[c].cells| == n
  }

  /** Row `j` of a frame, left to right. */
  function RowAt(frame: Frame, j: nat): (row: seq<Cell>)
    requires forall c :: 0 <= c < |frame| ==> j < |frame[c].cells|
    ensures |row| == |frame| && forall c :: 0 <= c < |frame| ==> row[c] == frame[c].cells[j]
  {
    seq(|frame|, c requires 0 <= c < |frame| && j < |frame[c].cells| => frame[c].cells[j])
  }

  /** `n` copies of one cell: a scalar assigned to a frame column. */
  function Constant(n: nat, c: Cell): (cells: seq<Cell>)
    ensures |cells| == n && forall i :: 0 <= i < n ==> cells[i] == c
  {
    seq(n, _ => c)
  }

  /** The values that go with `SqlColumnLabels`, in the same order. */
  function SqlColumnValues(pid: int, index: seq<Timestamp>, created: Timestamp): (vs: seq<Cell>)
    requires |index| > 0
    ensures |vs| == |SqlColumnLabels|
  {
    [Id(pid), Day(DayOf(EarliestOf(index))), Day(DayOf(LatestOf(index))), Instant(created)]
  }

  /**
   * The metadata of a row: the job id; as `date_start` the day of the earliest
   * instant of the index, and as `date_end` the day of the latest, so that every
   * instant falls on a day between the two; and the creation time.
   */
  lemma SqlColumnsSpanIndex(pid: int, index: seq<Timestamp>, created: Timestamp)
    requires |index| > 0
    ensures var vs := SqlColumnValues(pid, index, created);
      && vs[0] == Id(pid) && vs[3] == Instant(created)
      && vs[1].Day? && vs[2].Day?
      && (exists i :: 0 <= i < |index| && vs[1].d == DayOf(index[i]))
      && (exists i :: 0 <= i < |index| && vs[2].d == DayOf(index[i]))
      && (forall i :: 0 <= i < |index| ==> vs[1].d <= DayOf(index[i]) <= vs[2].d)
  {
    IndexRange(index);
    var lo, hi := EarliestOf(index), LatestOf(index);
    forall i | 0 <= i < |index| ensures DayOf(lo) <= DayOf(index[i]) <= DayOf(hi) {
      DayOfMonotonic(lo, index[i]);
      DayOfMonotonic(index[i], hi);
    }
    var a :| 0 <= a < |index| && index[a] == lo;
    var b :| 0 <= b < |index| && index[b] == hi;
  }

  /** Later instants never fall on earlier days. */
  lemma DayOfMonotonic(s: Timestamp, t: Timestamp)
    requires s <= t
    ensures DayOf(s) <= DayOf(t)
  {
  }

  /** The frame before the loop: the coefficient names and their values. */
  function CoefColumns(coefdict: Dict): (frame: Frame)
    requires coefdict.Valid()
  {
    var n := coefdict.Size();
    [ Column("coef_name", seq(n, i requires 0 <= i < n => Text(coefdict.keys[i]))),
      Column("coef_value", seq(n, i requires 0 <= i < n => Number(coefdict.Values()[i]))) ]
  }

  /**
   * The frame that the conversion builds: one row per entry of `coefdict`,
   * in key order; every row carries the same job id, the first and last day
   * of the index and the creation time.
   */
  function CoefsFrame(pid: int, index: seq<Timestamp>, coefdict: Dict, created: Timestamp): (frame: Frame)
    requires |index| > 0 && coefdict.Valid()
    ensures Labels(frame) == ["coef_name", "coef_value"] + SqlColumnLabels
    ensures HasRows(frame, coefdict.Size())
  {
    var n := coefdict.Size();
    var vs := SqlColumnValues(pid, index, created);
    CoefColumns(coefdict) + [
      Column(SqlColumnLabels[0], Constant(n, vs[0])), Column(SqlColumnLabels[1], Constant(n, vs[1])),
      Column(SqlColumnLabels[2], Constant(n, vs[2])), Column(SqlColumnLabels[3], Constant(n, vs[3])) ]
  }

  /**
   * Row `j` of the frame is entry `j` of the dict, followed by the job id, the
   * first and last day of the index and the creation time.
   */
  lemma CoefsFrameRow(pid: int, index: seq<Timestamp>, coefdict: Dict, created: Timestamp, j: nat)
    requires |index| > 0 && coefdict.Valid() && j < coefdict.Size()
    ensures RowAt(CoefsFrame(pid, index, coefdict, created), j) ==
      [ Text(coefdict.keys[j]), Number(coefdict.vals[coefdict.keys[j]]) ] + SqlColumnValues(pid, index, created)
  {
    var row := RowAt(CoefsFrame(pid, index, coefdict, created), j);
    assert row[1] == Number(coefdict.Values()[j]);
    assert row[2..] == SqlColumnValues(pid, index, created);
    assert row == [row[0], row[1]] + row[2..];
  }

  /**
   * `convert_coefdict_to_coefsdf(pj, input_split_function, coefdict)`: builds
   * the name and value columns, then adds the four metadata columns in a loop.
   * `created` is the value `datetime.utcnow()` returns at the call.
   */
  method ConvertCoefdictToCoefsdf(pid: int, index: seq<Timestamp>, coefdict: Dict, created: Timestamp)
    returns (frame: Frame)
    requires |index| > 0 && coefdict.Valid()
    ensures frame == CoefsFrame(pid, index, coefdict, created)
  {
    var values := [Id(pid), Day(DayOf(EarliestOf(index))), Day(DayOf(LatestOf(index))), Instant(created)];
    var n := coefdict.Size();
    frame := CoefColumns(coefdict);
    for i := 0 to |SqlColumnLabels|
      invariant |frame| == 2 + i
      invariant frame[..2] == CoefColumns(coefdict)
      invariant forall c :: 0 <= c < i ==> frame[2 + c] == Column(SqlColumnLabels[c], Constant(n, values[c]))
    {
      frame := frame + [Column(SqlColumnLabels[i], Constant(n, values[i]))];
    }
    assert frame == CoefsFrame(pid, index, coefdict, created) by {
      assert values == SqlColumnValues(pid, index, created);
      assert frame[2] == Column(SqlColumnLabels[0], Constant(n, values[0]));
      assert frame[3] == Column(SqlColumnLabels[1], Constant(n, values[1]));
      assert frame[4] == Column(SqlColumnLabels[2], Constant(n, values[2]));
      assert frame[5] == Column(SqlColumnLabels[3], Constant(n, values[3]));
      assert frame == frame[..2] + [frame[2], frame[3], frame[4], frame[5]];
    }
  }
}
