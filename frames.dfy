/** The tabular container both tool files build on: a pandas DataFrame seen as a
    sequence of rows of cells, with the column labels kept beside them, and the
    failures the Python code can raise. */
module Frames {

  datatype Option<T> = None | Some(value: T)

  /** The exceptions the modelled code raises, one constructor per kind. */
  datatype Error =
    | KeyError(key: string)          // a dict key or a column label that is absent
    | IndexError                     // `iloc[0]` of a frame with no rows
    | UnboundLocal(name: string)     // a local variable read before any assignment
    | TimeParseError(text: string)   // `parse_time` rejected a date string
    | TypeError                      // `pd.to_numeric` handed a frame (a repeated label)
    | DatetimeError                  // `pd.to_datetime` rejected a time value

  datatype Result<T> = Ok(value: T) | Err(error: Error)

  /** One cell of a frame. `Missing` is pandas' None/NaN; `Moment` is a point in
      time as the date parsers return it. */
  datatype Cell = Missing | Number(x: real) | Text(s: string) | Moment(t: int)

  /** A frame: column labels and rows, paired by position. Rows built from a
      ragged list may be shorter than `columns`; `At` reads the padding. */
  datatype Frame = Frame(columns: seq<Cell>, rows: seq<seq<Cell>>)

  /** Column labels written as strings. */
  function Labels(names: seq<string>): (r: seq<Cell>)
    ensures |r| == |names|
    ensures forall i :: 0 <= i < |names| ==> r[i] == Text(names[i])
  {
    seq(|names|, i requires 0 <= i < |names| => Text(names[i]))
  }

  /** Cell `j` of a row; pandas pads a short row of a ragged list with None. */
  function At(row: seq<Cell>, j: nat): Cell
  {
    if j < |row| then row[j] else Missing
  }

  /** `n` missing cells: what pandas puts in a row a frame does not have. */
  function Blank(n: nat): (r: seq<Cell>)
    ensures |r| == n
    ensures forall c <- r :: c == Missing
  {
    seq(n, _ => Missing)
  }

  /** A row with no missing cell: what `dropna` keeps. */
  predicate Complete(row: seq<Cell>)
  {
    forall c <- row :: c != Missing
  }

  /** Position of the first occurrence of `x`: how a label selects a column. */
  function IndexOf<T(==)>(s: seq<T>, x: T): (r: Option<nat>)
    ensures r.None? <==> x !in s
    ensures r.Some? ==> r.value < |s| && s[r.value] == x && x !in s[..r.value]
  {
    if |s| == 0 then None
    else if s[0] == x then Some(0)
    else match IndexOf(s[1..], x)
      case None => None
      case Some(i) =>
        assert s[1..][..i] == s[1..i + 1];
        assert s[..i + 1] == [s[0]] + s[1..i + 1];
        Some(i + 1)
  }

  /** A first occurrence found at a known position is that position. */
  lemma IndexOfAt<T>(s: seq<T>, x: T, j: nat)
    requires j < |s| && s[j] == x && x !in s[..j]
    ensures IndexOf(s, x) == Some(j)
  {
    var r := IndexOf(s, x).value;
    forall i | 0 <= i < j ensures s[i] != x {
      assert s[..j][i] == s[i];
    }
    forall i | 0 <= i < r ensures s[i] != x {
      assert s[..r][i] == s[i];
    }
  }

  /** `x` occurs at most once in `s`: a label pandas resolves to a single column. */
  predicate AtMostOnce<T(==)>(s: seq<T>, x: T)
  {
    forall i, j :: 0 <= i < j < |s| && s[i] == x ==> s[j] != x
  }

  predicate Distinct<T(==)>(s: seq<T>)
  {
    forall i, j :: 0 <= i < j < |s| ==> s[i] != s[j]
  }

  /** A label that occurs once selects the column where it occurs. */
  lemma UniqueIndex<T>(s: seq<T>, x: T, j: nat)
    requires j < |s| && s[j] == x && AtMostOnce(s, x)
    ensures IndexOf(s, x) == Some(j)
  {
    forall i | 0 <= i < j ensures s[..j][i] != x {
      assert s[..j][i] == s[i];
    }
    IndexOfAt(s, x, j);
  }

  /** In distinct labels each label selects its own column. */
  lemma LabelsUnique(names: seq<string>, j: nat)
    requires Distinct(names) && j < |names|
    ensures IndexOf(Labels(names), Text(names[j])) == Some(j)
  {
    UniqueIndex(Labels(names), Text(names[j]), j);
  }

  /** The positions whose flag is set, in increasing order: the rows a boolean
      mask keeps. */
  function Positions(flags: seq<bool>): (r: seq<nat>)
    ensures |r| <= |flags|
    ensures forall k :: 0 <= k < |r| ==> r[k] < |flags| && flags[r[k]]
    ensures forall k, l :: 0 <= k < l < |r| ==> r[k] < r[l]
    ensures forall i :: 0 <= i < |flags| && flags[i] ==> i in r
  {
    if |flags| == 0 then []
    else
      var rest := Positions(flags[..|flags| - 1]);
      if flags[|flags| - 1] then rest + [|flags| - 1] else rest
  }
}
