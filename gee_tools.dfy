/** An Earth Engine `getRegion` array (a header row, then one row per sampled
    pixel and image) reshaped into a table of time, datetime and bands. */
module GeeTools {
  import opened Frames

  /** The geolocation and time columns selected beside the bands. */
  const Required: seq<string> := ["longitude", "latitude", "time"]

  /** The labels selected from the array, in order. */
  function Wanted(bands: seq<string>): seq<string>
  {
    Required + bands
  }

  /** The labels of the returned table, in order. */
  function OutputNames(bands: seq<string>): seq<string>
  {
    ["time", "datetime"] + bands
  }

  // The pandas operations the function is made of

  /** Column positions of `names` in `header`, each the first match; the first
      absent label is a KeyError. */
  function Locate(header: seq<Cell>, names: seq<string>): (r: Result<seq<nat>>)
    ensures r.Ok? <==> forall k :: 0 <= k < |names| ==> Text(names[k]) in header
    ensures r.Ok? ==>
      |r.value| == |names| &&
      forall k :: 0 <= k < |names| ==> IndexOf(header, Text(names[k])) == Some(r.value[k])
    ensures r.Err? ==>
      exists k :: 0 <= k < |names| && Text(names[k]) !in header && r.error == KeyError(names[k])
  {
    if |names| == 0 then Ok([])
    else match IndexOf(header, Text(names[0]))
      case None => Err(KeyError(names[0]))
      case Some(j) =>
        match Locate(header, names[1..])
        case Err(e) =>
          assert exists k :: 1 <= k < |names| && Text(names[k]) !in header && e == KeyError(names[k]) by {
            var k :| 0 <= k < |names[1..]| && Text(names[1..][k]) !in header && e == KeyError(names[1..][k]);
            assert names[1..][k] == names[k + 1];
          }
          Err(e)
        case Ok(rest) =>
          assert forall k :: 1 <= k < |names| ==> names[k] == names[1..][k - 1];
          Ok([j] + rest)
  }

  /** The cells of `row` at the positions `idx`. */
  function SelectRow(row: seq<Cell>, idx: seq<nat>): (r: seq<Cell>)
    ensures |r| == |idx|
  {
    seq(|idx|, k requires 0 <= k < |idx| => At(row, idx[k]))
  }

  /** `df[names]`: the named columns, in the order named. */
  function Select(f: Frame, names: seq<string>): (r: Result<Frame>)
    ensures r.Ok? <==> forall k :: 0 <= k < |names| ==> Text(names[k]) in f.columns
    ensures r.Err? ==>
      exists k :: 0 <= k < |names| && Text(names[k]) !in f.columns && r.error == KeyError(names[k])
    ensures r.Ok? ==>
      r.value.columns == Labels(names) && |r.value.rows| == |f.rows| &&
      forall i :: 0 <= i < |f.rows| ==>
        |r.value.rows[i]| == |names| &&
        forall k :: 0 <= k < |names| ==>
          IndexOf(f.columns, Text(names[k])).Some? &&
          r.value.rows[i][k] == At(f.rows[i], IndexOf(f.columns, Text(names[k])).value)
  {
    match Locate(f.columns, names)
    case Err(e) => Err(e)
    case Ok(idx) =>
      Ok(Frame(Labels(names), seq(|f.rows|, i requires 0 <= i < |f.rows| => SelectRow(f.rows[i], idx))))
  }

  /** Which rows of `rows` have no missing cell. */
  function CompleteMask(rows: seq<seq<Cell>>): (r: seq<bool>)
    ensures |r| == |rows|
    ensures forall i :: 0 <= i < |rows| ==> r[i] == Complete(rows[i])
  {
    seq(|rows|, i requires 0 <= i < |rows| => Complete(rows[i]))
  }

  /** `df.dropna()`: the rows with no missing cell, in their order. */
  function DropMissing(f: Frame): (r: Frame)
    ensures r.columns == f.columns && |r.rows| <= |f.rows|
    ensures forall k :: 0 <= k < |r.rows| ==> r.rows[k] in f.rows && Complete(r.rows[k])
    ensures forall i :: 0 <= i < |f.rows| && Complete(f.rows[i]) ==> f.rows[i] in r.rows
  {
    var keep := Positions(CompleteMask(f.rows));
    var rows := seq(|keep|, k requires 0 <= k < |keep| => f.rows[keep[k]]);
    assert forall i :: 0 <= i < |f.rows| && Complete(f.rows[i]) ==> f.rows[i] in rows by {
      forall i | 0 <= i < |f.rows| && Complete(f.rows[i]) ensures f.rows[i] in rows {
        var k :| 0 <= k < |keep| && keep[k] == i;
        assert rows[k] == f.rows[i];
      }
    }
    Frame(f.columns, rows)
  }

  /** `pd.to_numeric(..., errors='coerce')` on one cell: text is parsed, and
      text that does not parse becomes missing instead of raising. */
  function ToNumeric(c: Cell, numeric: string -> Option<real>): (r: Cell)
    ensures r == Missing <==> c == Missing || (c.Text? && numeric(c.s).None?)
    ensures c.Text? && numeric(c.s).Some? ==> r == Number(numeric(c.s).value)
    ensures !c.Text? ==> r == c
  {
    match c
    case Text(s) => (match numeric(s) case Some(x) => Number(x) case None => Missing)
    case _ => c
  }

  /** `df[label] = pd.to_numeric(df[label], errors='coerce')` for the column
      at position `j`. */
  function CoerceColumn(f: Frame, j: nat, numeric: string -> Option<real>): (r: Frame)
    ensures r.columns == f.columns && |r.rows| == |f.rows|
    ensures forall i :: 0 <= i < |f.rows| ==>
      |r.rows[i]| == |f.rows[i]| &&
      forall c :: 0 <= c < |f.rows[i]| ==>
        r.rows[i][c] == if c == j then ToNumeric(f.rows[i][c], numeric) else f.rows[i][c]
  {
    Frame(f.columns, seq(|f.rows|, i requires 0 <= i < |f.rows| =>
      if j < |f.rows[i]| then f.rows[i][j := ToNumeric(f.rows[i][j], numeric)] else f.rows[i]))
  }

  /** `pd.to_datetime(df[label], unit='ms')` for the column at position `j`;
      it raises unless every value converts. */
  function ToDatetime(f: Frame, j: nat, toDatetime: Cell -> Option<int>): (r: Option<seq<Cell>>)
    ensures r.Some? <==> forall i :: 0 <= i < |f.rows| ==> toDatetime(At(f.rows[i], j)).Some?
    ensures r.Some? ==>
      |r.value| == |f.rows| &&
      forall i :: 0 <= i < |f.rows| ==> r.value[i].Moment? && toDatetime(At(f.rows[i], j)) == Some(r.value[i].t)
  {
    if forall i :: 0 <= i < |f.rows| ==> toDatetime(At(f.rows[i], j)).Some? then
      Some(seq(|f.rows|, i requires 0 <= i < |f.rows| => Moment(toDatetime(At(f.rows[i], j)).value)))
    else None
  }

  /** A failed conversion names a row whose value does not convert. */
  lemma ToDatetimeFailure(f: Frame, j: nat, toDatetime: Cell -> Option<int>) returns (q: nat)
    requires ToDatetime(f, j, toDatetime).None?
    ensures q < |f.rows| && toDatetime(At(f.rows[q], j)).None?
  {
    q :| 0 <= q < |f.rows| && toDatetime(At(f.rows[q], j)).None?;
  }

  /** `df[label] = col`: replaces the column so labelled, or appends one. */
  function Assign(f: Frame, name: Cell, col: seq<Cell>): (r: Frame)
    requires |col| == |f.rows|
    ensures name in r.columns && |r.rows| == |f.rows|
    ensures name in f.columns ==> r.columns == f.columns
    ensures name !in f.columns ==> r.columns == f.columns + [name]
    ensures forall i :: 0 <= i < |f.rows| && |f.rows[i]| == |f.columns| ==>
      var d := IndexOf(r.columns, name).value;
      |r.rows[i]| == |r.columns| && r.rows[i][d] == col[i] &&
      forall c :: 0 <= c < |f.rows[i]| && c != d ==> r.rows[i][c] == f.rows[i][c]
  {
    match IndexOf(f.columns, name)
    case Some(d) =>
      Frame(f.columns, seq(|f.rows|, i requires 0 <= i < |f.rows| =>
        if d < |f.rows[i]| then f.rows[i][d := col[i]] else f.rows[i]))
    case None =>
      var columns := f.columns + [name];
      assert columns[..|f.columns|] == f.columns;
      IndexOfAt(columns, name, |f.columns|);
      Frame(columns, seq(|f.rows|, i requires 0 <= i < |f.rows| => f.rows[i] + [col[i]]))
  }

  // What the function returns, stated row by row

  /** Which data rows (the array without its header) have every selected
      cell present. */
  function KeepMask(arr: seq<seq<Cell>>, idx: seq<nat>): (r: seq<bool>)
    requires |arr| > 0
    ensures |r| == |arr| - 1
    ensures forall i :: 0 <= i < |arr| - 1 ==> r[i] == Complete(SelectRow(arr[i + 1], idx))
  {
    seq(|arr| - 1, i requires 0 <= i < |arr| - 1 => Complete(SelectRow(arr[i + 1], idx)))
  }

  /** The output row for a data row whose time converts to `t`: the time cell
      as it was, the datetime, then each band coerced to a number (a band
      named `datetime` is overwritten by the derived column). */
  function OutRow(row: seq<Cell>, idx: seq<nat>, bands: seq<string>, t: int, numeric: string -> Option<real>): (r: seq<Cell>)
    requires |idx| == |Wanted(bands)|
  {
    [At(row, idx[2]), Moment(t)] +
    seq(|bands|, b requires 0 <= b < |bands| =>
      if bands[b] == "datetime" then Moment(t) else ToNumeric(At(row, idx[3 + b]), numeric))
  }

  /** The data rows `dropna` keeps: those whose selected cells are all
      present, in their order. */
  function Kept(arr: seq<seq<Cell>>, idx: seq<nat>): (r: seq<seq<Cell>>)
    requires |arr| > 0
    ensures |r| <= |arr| - 1
    ensures forall k :: 0 <= k < |r| ==> Complete(SelectRow(r[k], idx))
  {
    var keep := Positions(KeepMask(arr, idx));
    seq(|keep|, k requires 0 <= k < |keep| => arr[keep[k] + 1])
  }

  /** Every row's value at position `j` converts to a datetime. */
  predicate TimesConvert(rows: seq<seq<Cell>>, j: nat, toDatetime: Cell -> Option<int>)
  {
    forall k :: 0 <= k < |rows| ==> toDatetime(At(rows[k], j)).Some?
  }

  /** The output rows of rows whose times all convert. */
  function OutRows(rows: seq<seq<Cell>>, idx: seq<nat>, bands: seq<string>,
                   numeric: string -> Option<real>, toDatetime: Cell -> Option<int>): (r: seq<seq<Cell>>)
    requires |idx| == |Wanted(bands)| && TimesConvert(rows, idx[2], toDatetime)
    ensures |r| == |rows|
  {
    seq(|rows|, k requires 0 <= k < |rows| =>
      OutRow(rows[k], idx, bands, toDatetime(At(rows[k], idx[2])).value, numeric))
  }

  /** What `GeeArrayToDf` returns for the array, the bands and the two parsers
      it delegates to. */
  function RegionTable(arr: seq<seq<Cell>>, bands: seq<string>,
                       numeric: string -> Option<real>, toDatetime: Cell -> Option<int>): (r: Result<Frame>)
    ensures |arr| == 0 <==> r == Err(IndexError)
    ensures r.Ok? ==>
      r.value.columns == Labels(OutputNames(bands)) && |r.value.rows| <= |arr| - 1 &&
      forall k :: 0 <= k < |r.value.rows| ==> |r.value.rows[k]| == 2 + |bands|
  {
    if |arr| == 0 then Err(IndexError)
    else match Locate(arr[0], Wanted(bands))
      case Err(e) => Err(e)
      case Ok(idx) =>
        if !Distinct(Wanted(bands)) then Err(TypeError)
        else
          var rows := Kept(arr, idx);
          if !TimesConvert(rows, idx[2], toDatetime) then Err(DatetimeError)
          else Ok(Frame(Labels(OutputNames(bands)), OutRows(rows, idx, bands, numeric, toDatetime)))
  }

  /** `GeeArrayToDf`: row 0 becomes the header, the wanted columns are
      selected, incomplete rows dropped, the bands coerced one by one, the
      datetime column derived from `time`, and the output columns kept. */
  method GeeArrayToDf(arr: seq<seq<Cell>>, bands: seq<string>,
                      numeric: string -> Option<real>, toDatetime: Cell -> Option<int>) returns (r: Result<Frame>)
    ensures r == RegionTable(arr, bands, numeric, toDatetime)
  {
    if |arr| == 0 {
      return Err(IndexError);
    }
    var df := Frame(arr[0], arr[1..]);
    var selected := Select(df, Wanted(bands));
    if selected.Err? {
      return Err(selected.error);
    }
    ghost var idx, rows := SelectThenDrop(arr, bands, numeric);
    df := DropMissing(selected.value);
    for k := 0 to |bands|
      invariant df.columns == Labels(Wanted(bands))
      invariant Coerced(df, rows, idx, k, numeric)
      invariant SingleBands(bands, k)
    {
      if !AtMostOnce(df.columns, Text(bands[k])) {
        RepeatedLabel(arr, bands, numeric, toDatetime, bands[k]);
        return Err(TypeError);
      }
      UniqueIndex(df.columns, Text(bands[k]), 3 + k);
      assert SingleBands(bands, k + 1);
      var j := IndexOf(df.columns, Text(bands[k])).value;
      CoerceStep(df, rows, idx, k, numeric);
      df := CoerceColumn(df, j, numeric);
    }
    DistinctWanted(bands);
    LabelsUnique(Wanted(bands), 2);
    var time := IndexOf(df.columns, Text("time")).value;
    var stamps := ToDatetime(df, time, toDatetime);
    if stamps.None? {
      var q := ToDatetimeFailure(df, time, toDatetime);
      DatetimeFails(arr, bands, numeric, toDatetime, idx, df, q);
      return Err(DatetimeError);
    }
    ghost var before := df;
    df := Assign(df, Text("datetime"), stamps.value);
    r := Select(df, OutputNames(bands));
    Finish(arr, bands, numeric, toDatetime, idx, before, stamps.value);
  }

  /** The rows of `f` are `rows` restricted to the wanted columns, with the
      first `k` bands coerced. */
  ghost predicate Coerced(f: Frame, rows: seq<seq<Cell>>, idx: seq<nat>, k: nat, numeric: string -> Option<real>)
  {
    |f.rows| == |rows| &&
    forall q :: 0 <= q < |rows| ==> f.rows[q] == Partial(SelectRow(rows[q], idx), k, numeric)
  }

  /** Coercing band `k` extends the coerced prefix by one band. */
  lemma CoerceStep(f: Frame, rows: seq<seq<Cell>>, idx: seq<nat>, k: nat, numeric: string -> Option<real>)
    requires 3 + k < |idx| && Coerced(f, rows, idx, k, numeric)
    ensures Coerced(CoerceColumn(f, 3 + k, numeric), rows, idx, k + 1, numeric)
  {
    forall q | 0 <= q < |rows|
      ensures CoerceColumn(f, 3 + k, numeric).rows[q] == Partial(SelectRow(rows[q], idx), k + 1, numeric)
    {
      PartialStep(SelectRow(rows[q], idx), k, numeric);
    }
  }

  /** The row after the first `k` bands have been coerced. */
  ghost function Partial(row: seq<Cell>, k: nat, numeric: string -> Option<real>): (r: seq<Cell>)
    ensures |r| == |row|
  {
    seq(|row|, c requires 0 <= c < |row| => if 3 <= c < 3 + k then ToNumeric(row[c], numeric) else row[c])
  }

  lemma PartialStep(row: seq<Cell>, k: nat, numeric: string -> Option<real>)
    requires 3 + k < |row|
    ensures Partial(row, k, numeric)[3 + k := ToNumeric(Partial(row, k, numeric)[3 + k], numeric)] == Partial(row, k + 1, numeric)
  {
  }

  /** Selecting then dropping incomplete rows keeps the data rows the mask
      keeps, restricted to the wanted columns. */
  lemma SelectThenDrop(arr: seq<seq<Cell>>, bands: seq<string>, numeric: string -> Option<real>)
    returns (idx: seq<nat>, rows: seq<seq<Cell>>)
    requires |arr| > 0 && Select(Frame(arr[0], arr[1..]), Wanted(bands)).Ok?
    ensures Locate(arr[0], Wanted(bands)) == Ok(idx) && rows == Kept(arr, idx)
    ensures Coerced(DropMissing(Select(Frame(arr[0], arr[1..]), Wanted(bands)).value), rows, idx, 0, numeric)
    ensures DropMissing(Select(Frame(arr[0], arr[1..]), Wanted(bands)).value).columns == Labels(Wanted(bands))
  {
    idx := Locate(arr[0], Wanted(bands)).value;
    rows := Kept(arr, idx);
    var sel := Select(Frame(arr[0], arr[1..]), Wanted(bands)).value;
    assert CompleteMask(sel.rows) == KeepMask(arr, idx);
  }

  /** A label found twice among the wanted labels makes the call fail. */
  lemma RepeatedLabel(arr: seq<seq<Cell>>, bands: seq<string>, numeric: string -> Option<real>,
                      toDatetime: Cell -> Option<int>, x: string)
    requires |arr| > 0 && Locate(arr[0], Wanted(bands)).Ok?
    requires !AtMostOnce(Labels(Wanted(bands)), Text(x))
    ensures RegionTable(arr, bands, numeric, toDatetime) == Err(TypeError)
  {
    var names := Wanted(bands);
    var i, j :| 0 <= i < j < |names| && Labels(names)[i] == Text(x) && Labels(names)[j] == Text(x);
    assert names[i] == names[j];
  }

  /** None of the first `k` bands names two selected columns. */
  ghost predicate SingleBands(bands: seq<string>, k: nat)
    requires k <= |bands|
  {
    forall m :: 0 <= m < k ==> AtMostOnce(Labels(Wanted(bands)), Text(bands[m]))
  }

  /** If no band repeats a wanted label, the wanted labels are distinct. */
  lemma DistinctWanted(bands: seq<string>)
    requires SingleBands(bands, |bands|)
    ensures Distinct(Wanted(bands))
  {
    var w := Wanted(bands);
    forall i, j | 0 <= i < j < |w| ensures w[i] != w[j] {
      if 3 <= j {
        assert w[j] == bands[j - 3];
        assert AtMostOnce(Labels(w), Text(bands[j - 3]));
        assert Labels(w)[j] == Text(bands[j - 3]);
      }
    }
  }

  /** The time cell of a row after the bands are coerced is the time cell of
      the data row it came from. */
  lemma KeptTime(f: Frame, rows: seq<seq<Cell>>, bands: seq<string>, idx: seq<nat>,
                 numeric: string -> Option<real>, q: nat)
    requires |idx| == |Wanted(bands)| && Coerced(f, rows, idx, |bands|, numeric) && q < |rows|
    ensures At(f.rows[q], 2) == At(rows[q], idx[2])
  {
    assert Partial(SelectRow(rows[q], idx), |bands|, numeric)[2] == SelectRow(rows[q], idx)[2];
  }

  /** A kept row whose time does not convert makes the whole call fail. */
  lemma DatetimeFails(arr: seq<seq<Cell>>, bands: seq<string>, numeric: string -> Option<real>,
                      toDatetime: Cell -> Option<int>, idx: seq<nat>, f: Frame, q: nat)
    requires |arr| > 0 && Locate(arr[0], Wanted(bands)) == Ok(idx) && Distinct(Wanted(bands))
    requires Coerced(f, Kept(arr, idx), idx, |bands|, numeric)
    requires q < |f.rows| && toDatetime(At(f.rows[q], 2)).None?
    ensures RegionTable(arr, bands, numeric, toDatetime) == Err(DatetimeError)
  {
    KeptTime(f, Kept(arr, idx), bands, idx, numeric, q);
    assert !TimesConvert(Kept(arr, idx), idx[2], toDatetime);
  }

  /** Assigning the datetime column to a frame with distinct labels: the
      labels stay distinct, and the column sits at `d`, appended when no
      column had that label. */
  lemma AssignDatetime(f: Frame, w: seq<string>, col: seq<Cell>) returns (w2: seq<string>, d: nat)
    requires f.columns == Labels(w) && Distinct(w) && |col| == |f.rows|
    requires forall q :: 0 <= q < |f.rows| ==> |f.rows[q]| == |w|
    ensures |w| <= |w2| && w2[..|w|] == w && Distinct(w2)
    ensures d < |w2| && w2[d] == "datetime"
    ensures Assign(f, Text("datetime"), col).columns == Labels(w2)
    ensures |Assign(f, Text("datetime"), col).rows| == |f.rows|
    ensures forall q :: 0 <= q < |f.rows| ==>
      var row := Assign(f, Text("datetime"), col).rows[q];
      |row| == |w2| && row[d] == col[q] &&
      forall c :: 0 <= c < |w| && c != d ==> row[c] == f.rows[q][c]
  {
    match IndexOf(f.columns, Text("datetime"))
    case Some(j) =>
      w2, d := w, j;
      assert w2[..|w|] == w;
    case None =>
      w2, d := w + ["datetime"], |w|;
      assert w2[..|w|] == w;
      assert Labels(w2) == Labels(w) + [Text("datetime")];
      forall i, j | 0 <= i < j < |w2| ensures w2[i] != w2[j] {
        if j == |w| {
          assert Labels(w)[i] == Text(w2[i]);
        }
      }
  }

  /** The output row of a kept data row: its time, the datetime, then the
      coerced bands, with a band named `datetime` overwritten. */
  lemma OutputRow(row: seq<Cell>, idx: seq<nat>, bands: seq<string>, numeric: string -> Option<real>,
                  t: int, w2: seq<string>, d: nat, out: seq<nat>, g: seq<Cell>)
    requires |idx| == |Wanted(bands)|
    requires |Wanted(bands)| <= |w2| && w2[..|Wanted(bands)|] == Wanted(bands) && Distinct(w2)
    requires d < |w2| && w2[d] == "datetime"
    requires |g| == |w2| && g[d] == Moment(t)
    requires forall c :: 0 <= c < |Wanted(bands)| && c != d ==>
      g[c] == Partial(SelectRow(row, idx), |bands|, numeric)[c]
    requires out == [2, d] + seq(|bands|, b requires 0 <= b < |bands| => 3 + b)
    ensures SelectRow(g, out) == OutRow(row, idx, bands, t, numeric)
  {
    var w := Wanted(bands);
    assert w[2] == "time" && w2[2] == w[2];
    forall b | 0 <= b < |bands| ensures w2[3 + b] == bands[b] {
      assert w2[3 + b] == w[3 + b];
    }
    assert d != 2;
    forall c | 0 <= c < |out|
      ensures SelectRow(g, out)[c] == OutRow(row, idx, bands, t, numeric)[c]
    {
      if c >= 2 {
        var b := c - 2;
        assert out[c] == 3 + b;
        if bands[b] == "datetime" {
          assert 3 + b == d;
        } else {
          assert 3 + b != d;
        }
      }
    }
  }

  /** The output labels select time, the datetime column and the bands from
      the labels after the assignment. */
  lemma OutputColumns(bands: seq<string>, w2: seq<string>, d: nat) returns (out: seq<nat>)
    requires |Wanted(bands)| <= |w2| && w2[..|Wanted(bands)|] == Wanted(bands) && Distinct(w2)
    requires d < |w2| && w2[d] == "datetime"
    ensures out == [2, d] + seq(|bands|, b requires 0 <= b < |bands| => 3 + b)
    ensures Locate(Labels(w2), OutputNames(bands)) == Ok(out)
  {
    var w := Wanted(bands);
    var names := OutputNames(bands);
    out := [2, d] + seq(|bands|, b requires 0 <= b < |bands| => 3 + b);
    assert w2[2] == w[2] == "time";
    forall b | 0 <= b < |bands| ensures w2[3 + b] == bands[b] {
      assert w2[3 + b] == w[3 + b];
    }
    forall k | 0 <= k < |names| ensures out[k] < |w2| && w2[out[k]] == names[k] {
    }
    forall k | 0 <= k < |names| ensures IndexOf(Labels(w2), Text(names[k])) == Some(out[k]) {
      LabelsUnique(w2, out[k]);
    }
    var loc := Locate(Labels(w2), names);
    assert loc.Ok?;
    assert loc.value == out;
  }

  /** When every kept row's time converts, `RegionTable` is the table of the
      output rows. */
  lemma RegionTableOk(arr: seq<seq<Cell>>, bands: seq<string>, numeric: string -> Option<real>,
                      toDatetime: Cell -> Option<int>, idx: seq<nat>)
    requires |arr| > 0 && Locate(arr[0], Wanted(bands)) == Ok(idx) && Distinct(Wanted(bands))
    requires TimesConvert(Kept(arr, idx), idx[2], toDatetime)
    ensures RegionTable(arr, bands, numeric, toDatetime) ==
      Ok(Frame(Labels(OutputNames(bands)), OutRows(Kept(arr, idx), idx, bands, numeric, toDatetime)))
  {
  }

  /** After the loop: assigning the datetime column and selecting the output
      columns yields the table `RegionTable` describes. */
  lemma Finish(arr: seq<seq<Cell>>, bands: seq<string>, numeric: string -> Option<real>,
               toDatetime: Cell -> Option<int>, idx: seq<nat>, f: Frame, stamps: seq<Cell>)
    requires |arr| > 0 && Locate(arr[0], Wanted(bands)) == Ok(idx) && Distinct(Wanted(bands))
    requires f.columns == Labels(Wanted(bands)) && Coerced(f, Kept(arr, idx), idx, |bands|, numeric)
    requires ToDatetime(f, 2, toDatetime) == Some(stamps)
    ensures Select(Assign(f, Text("datetime"), stamps), OutputNames(bands)) == RegionTable(arr, bands, numeric, toDatetime)
  {
    var rows := Kept(arr, idx);
    forall q | 0 <= q < |rows|
      ensures toDatetime(At(rows[q], idx[2])).Some?
      ensures stamps[q] == Moment(toDatetime(At(rows[q], idx[2])).value)
    {
      KeptTime(f, rows, bands, idx, numeric, q);
    }
    var w2, d := AssignDatetime(f, Wanted(bands), stamps);
    var g := Assign(f, Text("datetime"), stamps);
    var out := OutputColumns(bands, w2, d);
    var selected := SelectedRows(rows, bands, numeric, toDatetime, idx, f, stamps, w2, d, out);
    RegionTableOk(arr, bands, numeric, toDatetime, idx);
    assert Select(g, OutputNames(bands)) == Ok(Frame(Labels(OutputNames(bands)), selected));
  }

  /** Row by row, the selected output cells are the output rows. */
  lemma SelectedRows(rows: seq<seq<Cell>>, bands: seq<string>, numeric: string -> Option<real>,
                     toDatetime: Cell -> Option<int>, idx: seq<nat>, f: Frame, stamps: seq<Cell>,
                     w2: seq<string>, d: nat, out: seq<nat>) returns (selected: seq<seq<Cell>>)
    requires |idx| == |Wanted(bands)| && Coerced(f, rows, idx, |bands|, numeric)
    requires TimesConvert(rows, idx[2], toDatetime) && |stamps| == |rows|
    requires forall q :: 0 <= q < |rows| ==> stamps[q] == Moment(toDatetime(At(rows[q], idx[2])).value)
    requires |Wanted(bands)| <= |w2| && w2[..|Wanted(bands)|] == Wanted(bands) && Distinct(w2)
    requires d < |w2| && w2[d] == "datetime"
    requires |Assign(f, Text("datetime"), stamps).rows| == |f.rows|
    requires forall q :: 0 <= q < |f.rows| ==>
      var row := Assign(f, Text("datetime"), stamps).rows[q];
      |row| == |w2| && row[d] == stamps[q] &&
      forall c :: 0 <= c < |Wanted(bands)| && c != d ==> row[c] == f.rows[q][c]
    requires out == [2, d] + seq(|bands|, b requires 0 <= b < |bands| => 3 + b)
    ensures var g := Assign(f, Text("datetime"), stamps);
      selected == seq(|g.rows|, i requires 0 <= i < |g.rows| => SelectRow(g.rows[i], out))
    ensures selected == OutRows(rows, idx, bands, numeric, toDatetime)
  {
    var g := Assign(f, Text("datetime"), stamps);
    selected := seq(|g.rows|, i requires 0 <= i < |g.rows| => SelectRow(g.rows[i], out));
    forall q | 0 <= q < |rows|
      ensures selected[q] == OutRows(rows, idx, bands, numeric, toDatetime)[q]
    {
      OutputRow(rows[q], idx, bands, numeric, toDatetime(At(rows[q], idx[2])).value, w2, d, out, g.rows[q]);
    }
  }

  // Properties of the returned table

  /** The data rows (the array without its header) whose selected cells are
      all present, in their order: a filter written independently of the
      mask `dropna` builds. */
  function Survivors(rows: seq<seq<Cell>>, idx: seq<nat>): (r: seq<seq<Cell>>)
    ensures |r| <= |rows|
  {
    if |rows| == 0 then []
    else
      var init := Survivors(rows[..|rows| - 1], idx);
      if Complete(SelectRow(rows[|rows| - 1], idx)) then init + [rows[|rows| - 1]] else init
  }

  /** A row survives if and only if it is a data row with every selected
      cell present. */
  lemma {:induction false} SurvivorsMember(rows: seq<seq<Cell>>, idx: seq<nat>, x: seq<Cell>)
    ensures x in Survivors(rows, idx) <==> x in rows && Complete(SelectRow(x, idx))
  {
    if |rows| > 0 {
      var n := |rows| - 1;
      SurvivorsMember(rows[..n], idx, x);
      assert rows == rows[..n] + [rows[n]];
    }
  }

  /** Survivors keep their relative order: filtering a concatenation is
      concatenating the filtered parts. */
  lemma {:induction false} SurvivorsAppend(a: seq<seq<Cell>>, b: seq<seq<Cell>>, idx: seq<nat>)
    ensures Survivors(a + b, idx) == Survivors(a, idx) + Survivors(b, idx)
  {
    if |b| == 0 {
      assert a + b == a;
    } else {
      var n := |b| - 1;
      SurvivorsAppend(a, b[..n], idx);
      assert (a + b)[..|a + b| - 1] == a + b[..n];
      assert (a + b)[|a + b| - 1] == b[n];
    }
  }

  /** The rows the mask keeps are the survivors. */
  lemma {:induction false} SurvivorsAreKept(arr: seq<seq<Cell>>, idx: seq<nat>)
    requires |arr| > 0
    ensures Survivors(arr[1..], idx) == Kept(arr, idx)
  {
    if |arr| > 1 {
      var n := |arr| - 1;
      var shorter := arr[..n];
      SurvivorsAreKept(shorter, idx);
      assert arr[1..][..n - 1] == shorter[1..];
      assert arr[1..][n - 1] == arr[n];
      KeptStep(arr, idx);
    }
  }

  /** The mask over one more data row keeps what it kept before, and the new
      row when its selected cells are present. */
  lemma KeptStep(arr: seq<seq<Cell>>, idx: seq<nat>)
    requires |arr| > 1
    ensures Kept(arr, idx) == Kept(arr[..|arr| - 1], idx) +
      (if Complete(SelectRow(arr[|arr| - 1], idx)) then [arr[|arr| - 1]] else [])
  {
    var n := |arr| - 1;
    var shorter := arr[..n];
    var mask := KeepMask(arr, idx);
    assert KeepMask(shorter, idx) == mask[..n - 1];
    var keep := Positions(KeepMask(shorter, idx));
    assert Positions(mask) == if mask[n - 1] then keep + [n - 1] else keep;
    forall k | 0 <= k < |keep| ensures shorter[keep[k] + 1] == arr[keep[k] + 1] {
    }
  }

  /** The shape and the rows of a returned table: one row per survivor, in
      order, holding its time (present), the datetime derived from that time
      alone, and each band coerced to a number, except a band named
      `datetime`, which holds the derived value. There are at most as many
      rows as data rows, and 2 + N columns named time, datetime and the bands. */
  lemma RegionTableRows(arr: seq<seq<Cell>>, bands: seq<string>, numeric: string -> Option<real>,
                        toDatetime: Cell -> Option<int>, idx: seq<nat>)
    requires RegionTable(arr, bands, numeric, toDatetime).Ok?
    requires |arr| > 0 && Locate(arr[0], Wanted(bands)) == Ok(idx)
    ensures var t := RegionTable(arr, bands, numeric, toDatetime).value;
      var s := Survivors(arr[1..], idx);
      t.columns == Labels(OutputNames(bands)) && |t.columns| == 2 + |bands| &&
      |t.rows| == |s| <= |arr| - 1 &&
      forall k :: 0 <= k < |t.rows| ==>
        |t.rows[k]| == 2 + |bands| &&
        t.rows[k][0] == At(s[k], idx[2]) && t.rows[k][0] != Missing &&
        toDatetime(t.rows[k][0]).Some? && t.rows[k][1] == Moment(toDatetime(t.rows[k][0]).value) &&
        forall b :: 0 <= b < |bands| ==>
          t.rows[k][2 + b] == if bands[b] == "datetime" then t.rows[k][1] else ToNumeric(At(s[k], idx[3 + b]), numeric)
  {
    var s := Kept(arr, idx);
    assert Distinct(Wanted(bands)) && TimesConvert(s, idx[2], toDatetime);
    RegionTableOk(arr, bands, numeric, toDatetime, idx);
    SurvivorsAreKept(arr, idx);
    var t := RegionTable(arr, bands, numeric, toDatetime).value;
    forall k | 0 <= k < |t.rows|
      ensures |t.rows[k]| == 2 + |bands|
      ensures t.rows[k][0] == At(s[k], idx[2]) && t.rows[k][0] != Missing
      ensures toDatetime(t.rows[k][0]).Some? && t.rows[k][1] == Moment(toDatetime(t.rows[k][0]).value)
      ensures forall b :: 0 <= b < |bands| ==>
        t.rows[k][2 + b] == if bands[b] == "datetime" then t.rows[k][1] else ToNumeric(At(s[k], idx[3 + b]), numeric)
    {
      assert t.rows[k] == OutRow(s[k], idx, bands, toDatetime(At(s[k], idx[2])).value, numeric);
      SurvivorRow(s[k], idx, bands, numeric, toDatetime);
    }
  }

  /** The output row of one survivor. */
  lemma SurvivorRow(row: seq<Cell>, idx: seq<nat>, bands: seq<string>, numeric: string -> Option<real>,
                    toDatetime: Cell -> Option<int>)
    requires |idx| == |Wanted(bands)| && Complete(SelectRow(row, idx)) && toDatetime(At(row, idx[2])).Some?
    ensures var out := OutRow(row, idx, bands, toDatetime(At(row, idx[2])).value, numeric);
      |out| == 2 + |bands| &&
      out[0] == At(row, idx[2]) && out[0] != Missing &&
      toDatetime(out[0]).Some? && out[1] == Moment(toDatetime(out[0]).value) &&
      forall b :: 0 <= b < |bands| ==>
        out[2 + b] == if bands[b] == "datetime" then out[1] else ToNumeric(At(row, idx[3 + b]), numeric)
  {
    var cells := SelectRow(row, idx);
    assert cells[2] == At(row, idx[2]) && cells[2] in cells;
  }

  /** Every label in `names` is a column label of `header`. */
  predicate AllPresent(header: seq<Cell>, names: seq<string>)
  {
    forall k :: 0 <= k < |names| ==> Text(names[k]) in header
  }

  /** Which error the call fails with: an array with no rows fails on its
      header; a KeyError exactly when a wanted label is absent from the
      header, naming one such label; a TypeError exactly when every label is
      present but a band repeats a wanted label. */
  lemma RegionTableErrors(arr: seq<seq<Cell>>, bands: seq<string>, numeric: string -> Option<real>,
                          toDatetime: Cell -> Option<int>)
    ensures |arr| == 0 <==> RegionTable(arr, bands, numeric, toDatetime) == Err(IndexError)
    ensures |arr| > 0 ==>
      ((RegionTable(arr, bands, numeric, toDatetime).Err? && RegionTable(arr, bands, numeric, toDatetime).error.KeyError?)
        <==> !AllPresent(arr[0], Wanted(bands)))
    ensures |arr| > 0 && RegionTable(arr, bands, numeric, toDatetime).Err? && RegionTable(arr, bands, numeric, toDatetime).error.KeyError? ==>
      RegionTable(arr, bands, numeric, toDatetime).error.key in Wanted(bands) &&
      Text(RegionTable(arr, bands, numeric, toDatetime).error.key) !in arr[0]
    ensures |arr| > 0 ==>
      (RegionTable(arr, bands, numeric, toDatetime) == Err(TypeError) <==>
        AllPresent(arr[0], Wanted(bands)) && !Distinct(Wanted(bands)))
  {
    if |arr| > 0 {
      var loc := Locate(arr[0], Wanted(bands));
      if loc.Err? {
        var k :| 0 <= k < |Wanted(bands)| && Text(Wanted(bands)[k]) !in arr[0] && loc.error == KeyError(Wanted(bands)[k]);
      }
    }
  }

  /** Once the labels are found and distinct, the call fails on the datetime
      conversion exactly when some surviving row's time does not convert. */
  lemma RegionTableDatetimeError(arr: seq<seq<Cell>>, bands: seq<string>, numeric: string -> Option<real>,
                                 toDatetime: Cell -> Option<int>, idx: seq<nat>)
    requires |arr| > 0 && Locate(arr[0], Wanted(bands)) == Ok(idx) && Distinct(Wanted(bands))
    ensures var s := Survivors(arr[1..], idx);
      RegionTable(arr, bands, numeric, toDatetime) == Err(DatetimeError) <==>
        exists q :: 0 <= q < |s| && toDatetime(At(s[q], idx[2])).None?
  {
    SurvivorsAreKept(arr, idx);
  }

  /** Cells of columns that are not selected never influence the result:
      two arrays with the same header and the same selected cells give the
      same table (or the same error). */
  lemma UnselectedColumnsIgnored(arr: seq<seq<Cell>>, other: seq<seq<Cell>>, bands: seq<string>,
                                 numeric: string -> Option<real>, toDatetime: Cell -> Option<int>, idx: seq<nat>)
    requires |arr| == |other| > 0 && arr[0] == other[0]
    requires Locate(arr[0], Wanted(bands)) == Ok(idx)
    requires forall i :: 1 <= i < |arr| ==> SelectRow(arr[i], idx) == SelectRow(other[i], idx)
    ensures RegionTable(arr, bands, numeric, toDatetime) == RegionTable(other, bands, numeric, toDatetime)
  {
    assert KeepMask(arr, idx) == KeepMask(other, idx);
    var mine, theirs := Kept(arr, idx), Kept(other, idx);
    assert |mine| == |theirs|;
    forall q | 0 <= q < |mine| ensures SelectRow(mine[q], idx) == SelectRow(theirs[q], idx) {
      var i := Positions(KeepMask(arr, idx))[q] + 1;
      assert mine[q] == arr[i] && theirs[q] == other[i];
    }
    SameSelectedRows(mine, theirs, idx, bands, numeric, toDatetime);
  }

  /** Rows with the same selected cells give the same output rows, and their
      times convert alike. */
  lemma SameSelectedRows(rows: seq<seq<Cell>>, others: seq<seq<Cell>>, idx: seq<nat>, bands: seq<string>,
                         numeric: string -> Option<real>, toDatetime: Cell -> Option<int>)
    requires |idx| == |Wanted(bands)| && |rows| == |others|
    requires forall q :: 0 <= q < |rows| ==> SelectRow(rows[q], idx) == SelectRow(others[q], idx)
    ensures TimesConvert(rows, idx[2], toDatetime) <==> TimesConvert(others, idx[2], toDatetime)
    ensures TimesConvert(rows, idx[2], toDatetime) ==>
      OutRows(rows, idx, bands, numeric, toDatetime) == OutRows(others, idx, bands, numeric, toDatetime)
  {
    forall q, c | 0 <= q < |rows| && 0 <= c < |idx| ensures At(rows[q], idx[c]) == At(others[q], idx[c]) {
      assert SelectRow(rows[q], idx)[c] == SelectRow(others[q], idx)[c];
    }
    if TimesConvert(rows, idx[2], toDatetime) {
      forall q | 0 <= q < |rows|
        ensures OutRows(rows, idx, bands, numeric, toDatetime)[q] == OutRows(others, idx, bands, numeric, toDatetime)[q]
      {
        var t := toDatetime(At(rows[q], idx[2])).value;
        assert OutRow(rows[q], idx, bands, t, numeric)[2..] == OutRow(others[q], idx, bands, t, numeric)[2..];
      }
    }
  }

  /** The filter runs before the coercion: a data row with every selected
      cell present but a band whose text does not parse is kept, and its
      output row holds a missing cell for that band. */
  lemma UnparsedBandSurvives(arr: seq<seq<Cell>>, bands: seq<string>, numeric: string -> Option<real>,
                             toDatetime: Cell -> Option<int>, idx: seq<nat>, i: nat, b: nat, text: string)
    requires RegionTable(arr, bands, numeric, toDatetime).Ok?
    requires |arr| > 0 && Locate(arr[0], Wanted(bands)) == Ok(idx)
    requires 1 <= i < |arr| && Complete(SelectRow(arr[i], idx))
    requires b < |bands| && bands[b] != "datetime"
    requires At(arr[i], idx[3 + b]) == Text(text) && numeric(text).None?
    ensures var t := RegionTable(arr, bands, numeric, toDatetime).value;
      var s := Survivors(arr[1..], idx);
      exists k :: 0 <= k < |t.rows| && k < |s| && s[k] == arr[i] &&
        t.rows[k][0] == At(arr[i], idx[2]) && t.rows[k][2 + b] == Missing
  {
    var s := Survivors(arr[1..], idx);
    assert arr[i] == arr[1..][i - 1];
    SurvivorsMember(arr[1..], idx, arr[i]);
    var k :| 0 <= k < |s| && s[k] == arr[i];
    RegionTableRows(arr, bands, numeric, toDatetime, idx);
    var t := RegionTable(arr, bands, numeric, toDatetime).value;
    assert t.rows[k][2 + b] == Missing;
  }
}
