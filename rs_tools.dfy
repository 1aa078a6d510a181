/** FIS (Feature Info Service) responses reshaped into one table, and the
    evaluation scripts the statistics requests are made with. */
module RsTools {
  import opened Frames

  /** One statistics record of a channel. `date` and `basicStats` are keys of
      the response JSON and may be absent. */
  datatype Stat = Stat(date: Option<string>, basicStats: Option<map<string, real>>)

  /** One `channel: stats` item of a response dict. */
  datatype Channel = Channel(name: string, stats: seq<Stat>)

  /** A response: its channel items in the dict's iteration order. */
  type Response = seq<Channel>

  /** The accumulator a channel feeds: band-ratio rows, cloud-mask rows or
      snow-mask rows. */
  datatype Kind = Data | Cloud | Snow

  /** `C0` feeds the band-ratio rows, `C1` the cloud rows, every other channel
      the snow rows. */
  function KindOf(channel: string): (k: Kind)
    ensures k == Data <==> channel == "C0"
    ensures k == Cloud <==> channel == "C1"
    ensures k == Snow <==> channel != "C0" && channel != "C1"
  {
    if channel == "C0" then Data else if channel == "C1" then Cloud else Snow
  }

  const StatColumns: seq<string> := ["min", "max", "mean", "stDev"]
  const FisColumns: seq<string> := ["date", "min", "max", "mean", "stDev", "clm_mean", "snw_mean"]

  /** `stat['basicStats'][key]`, failing on whichever lookup misses first. */
  function BasicStat(stat: Stat, key: string): (r: Result<real>)
    ensures r.Ok? <==> stat.basicStats.Some? && key in stat.basicStats.value
    ensures r.Ok? ==> r.value == stat.basicStats.value[key]
    ensures stat.basicStats.None? ==> r == Err(KeyError("basicStats"))
    ensures stat.basicStats.Some? && key !in stat.basicStats.value ==> r == Err(KeyError(key))
  {
    match stat.basicStats
    case None => Err(KeyError("basicStats"))
    case Some(stats) => if key in stats then Ok(stats[key]) else Err(KeyError(key))
  }

  /** The record has statistics, and every key in `keys` among them. */
  predicate HasStats(stat: Stat, keys: seq<string>)
  {
    |keys| == 0 || (stat.basicStats.Some? && forall i :: 0 <= i < |keys| ==> keys[i] in stat.basicStats.value)
  }

  lemma HasStatsPrefix(stat: Stat, keys: seq<string>, n: nat)
    requires n <= |keys|
    ensures HasStats(stat, keys) ==> HasStats(stat, keys[..n])
  {
    if HasStats(stat, keys) {
      var p := keys[..n];
      forall i | 0 <= i < |p| && stat.basicStats.Some? ensures p[i] in stat.basicStats.value {
        assert p[i] == keys[i];
      }
    }
  }

  /** The statistics named by `keys`, looked up left to right. */
  function StatCells(stat: Stat, keys: seq<string>): (r: Result<seq<Cell>>)
    ensures r.Ok? <==> HasStats(stat, keys)
    ensures r.Ok? ==>
      |r.value| == |keys| &&
      forall i :: 0 <= i < |keys| ==>
        stat.basicStats.Some? && r.value[i] == Number(stat.basicStats.value[keys[i]])
  {
    if |keys| == 0 then Ok([])
    else
      var n := |keys| - 1;
      assert forall i :: 0 <= i < n ==> keys[..n][i] == keys[i];
      match StatCells(stat, keys[..n])
      case Err(e) =>
        HasStatsPrefix(stat, keys, n);
        Err(e)
      case Ok(cells) =>
        match BasicStat(stat, keys[n])
        case Err(e) =>
          assert !(stat.basicStats.Some? && keys[n] in stat.basicStats.value);
          Err(e)
        case Ok(v) => Ok(cells + [Number(v)])
  }

  /** Once a lookup has failed, the later keys are never looked up. */
  lemma {:induction false} StatCellsStopsAtError(stat: Stat, keys: seq<string>, n: nat)
    requires n <= |keys| && StatCells(stat, keys[..n]).Err?
    ensures StatCells(stat, keys) == StatCells(stat, keys[..n])
  {
    if n < |keys| {
      assert keys[..|keys| - 1][..n] == keys[..n];
      StatCellsStopsAtError(stat, keys[..|keys| - 1], n);
    } else {
      assert keys[..n] == keys;
    }
  }

  /** The row a `C0` record becomes: the parsed date, then min, max, mean and
      stDev. */
  function DataRow(stat: Stat, parseTime: string -> Option<int>): (r: Result<seq<Cell>>)
    ensures r.Ok? <==>
      stat.date.Some? && parseTime(stat.date.value).Some? && stat.basicStats.Some? &&
      forall key <- StatColumns :: key in stat.basicStats.value
    ensures r.Ok? ==>
      var stats := stat.basicStats.value;
      r.value == [Moment(parseTime(stat.date.value).value),
                  Number(stats["min"]), Number(stats["max"]), Number(stats["mean"]), Number(stats["stDev"])]
  {
    match stat.date
    case None => Err(KeyError("date"))
    case Some(text) =>
      match parseTime(text)
      case None => Err(TimeParseError(text))
      case Some(t) =>
        match StatCells(stat, StatColumns)
        case Err(e) => Err(e)
        case Ok(cells) => Ok([Moment(t)] + cells)
  }

  /** The single-cell row a `C1` or snow record becomes: its mean. */
  function MeanRow(stat: Stat): (r: Result<seq<Cell>>)
    ensures r.Ok? <==> stat.basicStats.Some? && "mean" in stat.basicStats.value
    ensures r.Ok? ==> r.value == [Number(stat.basicStats.value["mean"])]
  {
    match BasicStat(stat, "mean")
    case Err(e) => Err(e)
    case Ok(m) => Ok([Number(m)])
  }

  /** The three accumulator lists. */
  datatype Groups = Groups(data: seq<seq<Cell>>, clm: seq<seq<Cell>>, snw: seq<seq<Cell>>)

  /** One stat record together with the channel it came from. */
  datatype Entry = Entry(channel: string, stat: Stat)

  /** The records of one channel, tagged with the channel name. */
  function Tagged(name: string, stats: seq<Stat>): (r: seq<Entry>)
    ensures |r| == |stats|
    ensures forall i :: 0 <= i < |stats| ==> r[i] == Entry(name, stats[i])
  {
    seq(|stats|, i requires 0 <= i < |stats| => Entry(name, stats[i]))
  }

  /** The records of a response in the order the loops visit them. */
  function ResponseEntries(response: Response): seq<Entry>
  {
    if |response| == 0 then []
    else Tagged(response[0].name, response[0].stats) + ResponseEntries(response[1..])
  }

  /** The records of all responses in visiting order. */
  function Entries(fisData: seq<Response>): seq<Entry>
  {
    if |fisData| == 0 then []
    else ResponseEntries(fisData[0]) + Entries(fisData[1..])
  }

  /** Whether the row for this record can be built. */
  predicate Tabulates(e: Entry, parseTime: string -> Option<int>)
  {
    if KindOf(e.channel) == Data then DataRow(e.stat, parseTime).Ok? else MeanRow(e.stat).Ok?
  }

  /** Every record's row can be built. */
  predicate AllTabulate(es: seq<Entry>, parseTime: string -> Option<int>)
  {
    forall i :: 0 <= i < |es| ==> Tabulates(es[i], parseTime)
  }

  /** Dispatch on the channel name: append the record's row to its list. */
  function Route(g: Groups, e: Entry, parseTime: string -> Option<int>): (r: Result<Groups>)
    ensures r.Ok? <==> Tabulates(e, parseTime)
    ensures r.Ok? ==> Size(r.value) == Size(g) + 1
  {
    match KindOf(e.channel)
    case Data =>
      (match DataRow(e.stat, parseTime)
       case Err(x) => Err(x)
       case Ok(row) => Ok(g.(data := g.data + [row])))
    case Cloud =>
      (match MeanRow(e.stat)
       case Err(x) => Err(x)
       case Ok(row) => Ok(g.(clm := g.clm + [row])))
    case Snow =>
      (match MeanRow(e.stat)
       case Err(x) => Err(x)
       case Ok(row) => Ok(g.(snw := g.snw + [row])))
  }

  /** Total number of rows in the three lists. */
  function Size(g: Groups): nat
  {
    |g.data| + |g.clm| + |g.snw|
  }

  /** Route every record in order, stopping at the first that fails. Every
      record adds exactly one row. */
  function Feed(g: Groups, es: seq<Entry>, parseTime: string -> Option<int>): (r: Result<Groups>)
    ensures r.Ok? ==> Size(r.value) == Size(g) + |es|
    decreases |es|
  {
    if |es| == 0 then Ok(g)
    else match Route(g, es[0], parseTime)
      case Err(x) => Err(x)
      case Ok(h) => Feed(h, es[1..], parseTime)
  }

  function Max3(a: nat, b: nat, c: nat): nat
  {
    if a >= b && a >= c then a else if b >= c then b else c
  }

  /** Row `i` of a group, or missing cells where the group has no such row. */
  function Part(rows: seq<seq<Cell>>, i: nat, width: nat): seq<Cell>
  {
    if i < |rows| then rows[i] else Blank(width)
  }

  /** `pd.concat([data_df, clm_data_df, snw_data_df], axis=1)`: the three
      groups side by side, row `i` with row `i`, the shorter groups padded. */
  function Combine(g: Groups): (t: Frame)
    ensures t.columns == Labels(FisColumns)
    ensures |t.rows| == Max3(|g.data|, |g.clm|, |g.snw|)
  {
    var n := Max3(|g.data|, |g.clm|, |g.snw|);
    Frame(Labels(FisColumns),
          seq(n, i requires 0 <= i < n => Part(g.data, i, 5) + Part(g.clm, i, 1) + Part(g.snw, i, 1)))
  }

  /** What `FisToDataframe` returns: the combined table of all records, the
      first failing lookup, or the unbound `output_df` of an empty list. */
  function FisTable(fisData: seq<Response>, parseTime: string -> Option<int>): (r: Result<Frame>)
    ensures |fisData| == 0 ==> r == Err(UnboundLocal("output_df"))
    ensures r.Ok? ==> r.value.columns == Labels(FisColumns)
  {
    match Feed(Groups([], [], []), Entries(fisData), parseTime)
    case Err(x) => Err(x)
    case Ok(g) => if |fisData| == 0 then Err(UnboundLocal("output_df")) else Ok(Combine(g))
  }

  /** Builds the row of a `C0` record, the columns after the date in order. */
  method BuildDataRow(stat: Stat, parseTime: string -> Option<int>) returns (r: Result<seq<Cell>>)
    ensures r == DataRow(stat, parseTime)
  {
    if stat.date.None? {
      return Err(KeyError("date"));
    }
    var t := parseTime(stat.date.value);
    if t.None? {
      return Err(TimeParseError(stat.date.value));
    }
    var row := [Moment(t.value)];
    assert StatColumns[..0] == [] && row[1..] == [];
    for c := 0 to |StatColumns|
      invariant |row| == c + 1 && row[0] == Moment(t.value)
      invariant StatCells(stat, StatColumns[..c]) == Ok(row[1..])
    {
      assert StatColumns[..c + 1][..c] == StatColumns[..c];
      var v := BasicStat(stat, StatColumns[c]);
      if v.Err? {
        StatCellsStopsAtError(stat, StatColumns, c + 1);
        return Err(v.error);
      }
      assert (row + [Number(v.value)])[1..] == row[1..] + [Number(v.value)];
      row := row + [Number(v.value)];
    }
    assert StatColumns[..|StatColumns|] == StatColumns;
    assert row == [Moment(t.value)] + row[1..];
    r := Ok(row);
  }

  /** Feeding a record list is routing its first record, then feeding the rest. */
  lemma FeedCons(g: Groups, e: Entry, rest: seq<Entry>, parseTime: string -> Option<int>)
    ensures Route(g, e, parseTime).Err? ==> Feed(g, [e] + rest, parseTime) == Err(Route(g, e, parseTime).error)
    ensures Route(g, e, parseTime).Ok? ==> Feed(g, [e] + rest, parseTime) == Feed(Route(g, e, parseTime).value, rest, parseTime)
  {
    assert ([e] + rest)[0] == e && ([e] + rest)[1..] == rest;
  }

  lemma EntriesFrom(fisData: seq<Response>, i: nat)
    requires i < |fisData|
    ensures Entries(fisData[i..]) == ResponseEntries(fisData[i]) + Entries(fisData[i + 1..])
  {
    assert fisData[i..][1..] == fisData[i + 1..];
  }

  lemma ResponseEntriesFrom(response: Response, j: nat, after: seq<Entry>)
    requires j < |response|
    ensures ResponseEntries(response[j..]) + after ==
      Tagged(response[j].name, response[j].stats) + (ResponseEntries(response[j + 1..]) + after)
  {
    assert response[j..][1..] == response[j + 1..];
  }

  lemma TaggedFrom(name: string, stats: seq<Stat>, k: nat, after: seq<Entry>)
    requires k < |stats|
    ensures Tagged(name, stats[k..]) + after == [Entry(name, stats[k])] + (Tagged(name, stats[k + 1..]) + after)
  {
    assert Tagged(name, stats[k..]) == [Entry(name, stats[k])] + Tagged(name, stats[k + 1..]);
  }

  lemma RouteData(g: Groups, e: Entry, parseTime: string -> Option<int>)
    requires e.channel == "C0"
    ensures DataRow(e.stat, parseTime).Err? ==> Route(g, e, parseTime) == Err(DataRow(e.stat, parseTime).error)
    ensures DataRow(e.stat, parseTime).Ok? ==>
      Route(g, e, parseTime) == Ok(Groups(g.data + [DataRow(e.stat, parseTime).value], g.clm, g.snw))
  {
  }

  lemma RouteMean(g: Groups, e: Entry, parseTime: string -> Option<int>)
    requires e.channel != "C0"
    ensures BasicStat(e.stat, "mean").Err? ==> Route(g, e, parseTime) == Err(BasicStat(e.stat, "mean").error)
    ensures BasicStat(e.stat, "mean").Ok? && e.channel == "C1" ==>
      Route(g, e, parseTime) == Ok(Groups(g.data, g.clm + [[Number(BasicStat(e.stat, "mean").value)]], g.snw))
    ensures BasicStat(e.stat, "mean").Ok? && e.channel != "C1" ==>
      Route(g, e, parseTime) == Ok(Groups(g.data, g.clm, g.snw + [[Number(BasicStat(e.stat, "mean").value)]]))
  {
  }

  /** `FisToDataframe`: walks every response, every channel item and every
      record, appending each record's row to the list of its channel kind,
      and rebuilds the combined table after each response. */
  method FisToDataframe(fisData: seq<Response>, parseTime: string -> Option<int>) returns (r: Result<Frame>)
    ensures r == FisTable(fisData, parseTime)
  {
    var data: seq<seq<Cell>> := [];
    var clmData: seq<seq<Cell>> := [];
    var snwData: seq<seq<Cell>> := [];
    var outputDf: Option<Frame> := None;
    ghost var total := Feed(Groups([], [], []), Entries(fisData), parseTime);
    assert fisData[0..] == fisData;
    for i := 0 to |fisData|
      invariant Feed(Groups(data, clmData, snwData), Entries(fisData[i..]), parseTime) == total
      invariant outputDf == if i == 0 then None else Some(Combine(Groups(data, clmData, snwData)))
    {
      var response := fisData[i];
      EntriesFrom(fisData, i);
      ghost var afterResponse := Entries(fisData[i + 1..]);
      assert response[0..] == response;
      for j := 0 to |response|
        invariant Feed(Groups(data, clmData, snwData), ResponseEntries(response[j..]) + afterResponse, parseTime) == total
      {
        var channel := response[j];
        ghost var later := ResponseEntries(response[j + 1..]) + afterResponse;
        ResponseEntriesFrom(response, j, afterResponse);
        assert channel.stats[0..] == channel.stats;
        for k := 0 to |channel.stats|
          invariant Feed(Groups(data, clmData, snwData), Tagged(channel.name, channel.stats[k..]) + later, parseTime) == total
        {
          var stat := channel.stats[k];
          ghost var rest := Tagged(channel.name, channel.stats[k + 1..]) + later;
          TaggedFrom(channel.name, channel.stats, k, later);
          FeedCons(Groups(data, clmData, snwData), Entry(channel.name, stat), rest, parseTime);
          if channel.name == "C0" {
            RouteData(Groups(data, clmData, snwData), Entry(channel.name, stat), parseTime);
            var row := BuildDataRow(stat, parseTime);
            if row.Err? {
              return Err(row.error);
            }
            data := data + [row.value];
          } else if channel.name == "C1" {
            RouteMean(Groups(data, clmData, snwData), Entry(channel.name, stat), parseTime);
            var mean := BasicStat(stat, "mean");
            if mean.Err? {
              return Err(mean.error);
            }
            clmData := clmData + [[Number(mean.value)]];
          } else {
            RouteMean(Groups(data, clmData, snwData), Entry(channel.name, stat), parseTime);
            var mean := BasicStat(stat, "mean");
            if mean.Err? {
              return Err(mean.error);
            }
            snwData := snwData + [[Number(mean.value)]];
          }
        }
        assert channel.stats[|channel.stats|..] == [];
        assert Tagged(channel.name, channel.stats[|channel.stats|..]) + later == later;
      }
      assert response[|response|..] == [];
      assert ResponseEntries(response[|response|..]) + afterResponse == afterResponse;
      outputDf := Some(Combine(Groups(data, clmData, snwData)));
    }
    if outputDf.None? {
      return Err(UnboundLocal("output_df"));
    }
    r := Ok(outputDf.value);
  }

  // Properties of the tabulation

  /** The row a record becomes, whichever list it goes to. */
  function RowOf(e: Entry, parseTime: string -> Option<int>): Result<seq<Cell>>
  {
    if KindOf(e.channel) == Data then DataRow(e.stat, parseTime) else MeanRow(e.stat)
  }

  /** The list of `g` that records of kind `k` are appended to. */
  function Rows(g: Groups, k: Kind): seq<seq<Cell>>
  {
    match k
    case Data => g.data
    case Cloud => g.clm
    case Snow => g.snw
  }

  /** The records of kind `k`, in their original order. */
  function OfKind(es: seq<Entry>, k: Kind): (r: seq<Entry>)
    ensures |r| <= |es|
  {
    if |es| == 0 then []
    else if KindOf(es[0].channel) == k then [es[0]] + OfKind(es[1..], k)
    else OfKind(es[1..], k)
  }

  /** Number of records of kind `k` in one response, summed over its channels. */
  function ResponseCount(response: Response, k: Kind): nat
  {
    if |response| == 0 then 0
    else (if KindOf(response[0].name) == k then |response[0].stats| else 0) + ResponseCount(response[1..], k)
  }

  /** Number of records of kind `k`, summed over all responses. */
  function StatCount(fisData: seq<Response>, k: Kind): nat
  {
    if |fisData| == 0 then 0 else ResponseCount(fisData[0], k) + StatCount(fisData[1..], k)
  }

  /** Feeding succeeds exactly when every record's row can be built. */
  lemma {:induction false} FeedOkIff(g: Groups, es: seq<Entry>, parseTime: string -> Option<int>)
    ensures Feed(g, es, parseTime).Ok? <==> AllTabulate(es, parseTime)
    decreases |es|
  {
    if |es| > 0 {
      match Route(g, es[0], parseTime)
      case Err(_) =>
      case Ok(h) =>
        FeedOkIff(h, es[1..], parseTime);
        assert AllTabulate(es, parseTime) <==> AllTabulate(es[1..], parseTime) by {
          assert forall i :: 1 <= i < |es| ==> es[1..][i - 1] == es[i];
        }
    }
  }

  /** What feeding does to each list: it keeps what was there and appends the
      rows of the records of that kind, one per record, in record order. */
  lemma {:induction false} FeedAppends(g: Groups, es: seq<Entry>, parseTime: string -> Option<int>, h: Groups, k: Kind)
    requires Feed(g, es, parseTime) == Ok(h)
    ensures |Rows(h, k)| == |Rows(g, k)| + |OfKind(es, k)|
    ensures Rows(h, k)[..|Rows(g, k)|] == Rows(g, k)
    ensures RowsMatch(Rows(h, k)[|Rows(g, k)|..], OfKind(es, k), parseTime)
    decreases |es|
  {
    if |es| > 0 {
      var g' := Route(g, es[0], parseTime).value;
      FeedAppends(g', es[1..], parseTime, h, k);
      FeedAppendsStep(g, es, parseTime, g', h, k);
    }
  }

  /** The step of `FeedAppends`: the first record's row, then the rest. */
  lemma FeedAppendsStep(g: Groups, es: seq<Entry>, parseTime: string -> Option<int>, g': Groups, h: Groups, k: Kind)
    requires |es| > 0 && Route(g, es[0], parseTime) == Ok(g')
    requires |Rows(h, k)| == |Rows(g', k)| + |OfKind(es[1..], k)|
    requires Rows(h, k)[..|Rows(g', k)|] == Rows(g', k)
    requires RowsMatch(Rows(h, k)[|Rows(g', k)|..], OfKind(es[1..], k), parseTime)
    ensures |Rows(h, k)| == |Rows(g, k)| + |OfKind(es, k)|
    ensures Rows(h, k)[..|Rows(g, k)|] == Rows(g, k)
    ensures RowsMatch(Rows(h, k)[|Rows(g, k)|..], OfKind(es, k), parseTime)
  {
    RouteRows(g, es[0], parseTime, k);
    var n := |Rows(g, k)|;
    var hk, mid, rest := Rows(h, k), Rows(g', k), OfKind(es[1..], k);
    if KindOf(es[0].channel) == k {
      assert OfKind(es, k) == [es[0]] + rest;
      assert mid == Rows(g, k) + [RowOf(es[0], parseTime).value];
      assert hk[..n] == hk[..n + 1][..n];
      assert hk[n] == hk[..n + 1][n];
      assert hk[n..] == [hk[n]] + hk[n + 1..];
      RowsMatchCons(hk[n], hk[n + 1..], es[0], rest, parseTime);
    } else {
      assert OfKind(es, k) == rest;
    }
  }

  /** Each of `rows` is the row of the record at the same position. */
  predicate RowsMatch(rows: seq<seq<Cell>>, es: seq<Entry>, parseTime: string -> Option<int>)
  {
    |rows| == |es| && forall i :: 0 <= i < |es| ==> RowOf(es[i], parseTime) == Ok(rows[i])
  }

  lemma RowsMatchCons(row: seq<Cell>, rows: seq<seq<Cell>>, e: Entry, es: seq<Entry>, parseTime: string -> Option<int>)
    requires RowOf(e, parseTime) == Ok(row) && RowsMatch(rows, es, parseTime)
    ensures RowsMatch([row] + rows, [e] + es, parseTime)
  {
    forall i | 1 <= i < |es| + 1 ensures RowOf(([e] + es)[i], parseTime) == Ok(([row] + rows)[i]) {
      assert ([e] + es)[i] == es[i - 1];
    }
  }

  /** Routing one record appends its row to the list of its kind and leaves
      the other two lists alone. */
  lemma RouteRows(g: Groups, e: Entry, parseTime: string -> Option<int>, k: Kind)
    requires Route(g, e, parseTime).Ok?
    ensures RowOf(e, parseTime).Ok?
    ensures Rows(Route(g, e, parseTime).value, k) ==
      Rows(g, k) + if KindOf(e.channel) == k then [RowOf(e, parseTime).value] else []
  {
  }

  lemma {:induction false} OfKindAppend(a: seq<Entry>, b: seq<Entry>, k: Kind)
    ensures OfKind(a + b, k) == OfKind(a, k) + OfKind(b, k)
    decreases |a|
  {
    if |a| == 0 {
      assert a + b == b;
    } else {
      assert (a + b)[1..] == a[1..] + b;
      OfKindAppend(a[1..], b, k);
    }
  }

  lemma {:induction false} OfKindTagged(name: string, stats: seq<Stat>, k: Kind)
    ensures |OfKind(Tagged(name, stats), k)| == if KindOf(name) == k then |stats| else 0
    decreases |stats|
  {
    if |stats| > 0 {
      assert Tagged(name, stats)[1..] == Tagged(name, stats[1..]);
      OfKindTagged(name, stats[1..], k);
    }
  }

  lemma {:induction false} ResponseCountIsOfKind(response: Response, k: Kind)
    ensures |OfKind(ResponseEntries(response), k)| == ResponseCount(response, k)
    decreases |response|
  {
    if |response| > 0 {
      OfKindAppend(Tagged(response[0].name, response[0].stats), ResponseEntries(response[1..]), k);
      OfKindTagged(response[0].name, response[0].stats, k);
      ResponseCountIsOfKind(response[1..], k);
    }
  }

  /** The records of kind `k` are as many as the stats of the channels of that
      kind, summed over every response. */
  lemma {:induction false} StatCountIsOfKind(fisData: seq<Response>, k: Kind)
    ensures |OfKind(Entries(fisData), k)| == StatCount(fisData, k)
    decreases |fisData|
  {
    if |fisData| > 0 {
      OfKindAppend(ResponseEntries(fisData[0]), Entries(fisData[1..]), k);
      ResponseCountIsOfKind(fisData[0], k);
      StatCountIsOfKind(fisData[1..], k);
    }
  }

  /** The records of two lists of responses are those of the first, then those
      of the second: the lists are never reset between responses. */
  lemma {:induction false} EntriesAppend(a: seq<Response>, b: seq<Response>)
    ensures Entries(a + b) == Entries(a) + Entries(b)
    decreases |a|
  {
    if |a| == 0 {
      assert a + b == b;
    } else {
      assert (a + b)[0] == a[0] && (a + b)[1..] == a[1..] + b;
      EntriesAppend(a[1..], b);
    }
  }

  /** Cell group `i` of kind `k` in the combined table: the row of the `i`-th
      record of that kind, or missing cells past the end of the group. */
  function Slot(es: seq<Entry>, i: nat, width: nat, parseTime: string -> Option<int>): seq<Cell>
  {
    if i < |es| && RowOf(es[i], parseTime).Ok? then RowOf(es[i], parseTime).value else Blank(width)
  }

  /** The combined table: one row per position, as many as the largest group;
      row `i` is the `i`-th `C0` row (date, min, max, mean, stDev), then the
      `i`-th `C1` mean, then the `i`-th mean of the other channels, matched by
      position alone and padded with missing cells. */
  lemma FisTableRows(fisData: seq<Response>, parseTime: string -> Option<int>, t: Frame)
    requires FisTable(fisData, parseTime) == Ok(t)
    ensures |fisData| > 0
    ensures |t.rows| == Max3(StatCount(fisData, Data), StatCount(fisData, Cloud), StatCount(fisData, Snow))
    ensures forall i :: 0 <= i < |t.rows| ==>
      t.rows[i] == Slot(OfKind(Entries(fisData), Data), i, 5, parseTime)
                 + Slot(OfKind(Entries(fisData), Cloud), i, 1, parseTime)
                 + Slot(OfKind(Entries(fisData), Snow), i, 1, parseTime)
  {
    var g := FisTableIsCombine(fisData, parseTime, t);
    CombineSlots(Entries(fisData), parseTime, g);
    StatCountIsOfKind(fisData, Data);
    StatCountIsOfKind(fisData, Cloud);
    StatCountIsOfKind(fisData, Snow);
  }

  /** The combination of lists fed from empty, row by row. */
  lemma CombineSlots(es: seq<Entry>, parseTime: string -> Option<int>, g: Groups)
    requires Feed(Groups([], [], []), es, parseTime) == Ok(g)
    ensures |Combine(g).rows| == Max3(|OfKind(es, Data)|, |OfKind(es, Cloud)|, |OfKind(es, Snow)|)
    ensures forall i :: 0 <= i < |Combine(g).rows| ==>
      Combine(g).rows[i] == Slot(OfKind(es, Data), i, 5, parseTime)
                          + Slot(OfKind(es, Cloud), i, 1, parseTime)
                          + Slot(OfKind(es, Snow), i, 1, parseTime)
  {
    GroupIsSlots(es, parseTime, g, Data, 5);
    GroupIsSlots(es, parseTime, g, Cloud, 1);
    GroupIsSlots(es, parseTime, g, Snow, 1);
  }

  /** A table that is returned is the combination of the fed lists. */
  lemma FisTableIsCombine(fisData: seq<Response>, parseTime: string -> Option<int>, t: Frame) returns (g: Groups)
    requires FisTable(fisData, parseTime) == Ok(t)
    ensures |fisData| > 0
    ensures Feed(Groups([], [], []), Entries(fisData), parseTime) == Ok(g)
    ensures t == Combine(g)
  {
    g := Feed(Groups([], [], []), Entries(fisData), parseTime).value;
  }

  /** Fed from empty lists, each list holds exactly the rows of the records of
      its kind, so its padded row `i` is that kind's slot `i`. */
  lemma GroupIsSlots(es: seq<Entry>, parseTime: string -> Option<int>, g: Groups, k: Kind, width: nat)
    requires Feed(Groups([], [], []), es, parseTime) == Ok(g)
    ensures |Rows(g, k)| == |OfKind(es, k)|
    ensures forall i: nat :: Part(Rows(g, k), i, width) == Slot(OfKind(es, k), i, width, parseTime)
  {
    FeedAppends(Groups([], [], []), es, parseTime, g, k);
    assert |Rows(Groups([], [], []), k)| == 0;
  }

  /** The call returns a table exactly when the list is not empty and every
      record's row can be built. */
  lemma FisTableOkIff(fisData: seq<Response>, parseTime: string -> Option<int>)
    ensures FisTable(fisData, parseTime).Ok? <==> |fisData| > 0 && AllTabulate(Entries(fisData), parseTime)
  {
    FeedOkIff(Groups([], [], []), Entries(fisData), parseTime);
  }

  /** Every response counts towards the table, not only the last: the table
      has at least as many rows as any one response has records of a kind. */
  lemma {:induction false} EveryResponseCounts(fisData: seq<Response>, parseTime: string -> Option<int>, t: Frame, i: nat, k: Kind)
    requires FisTable(fisData, parseTime) == Ok(t) && i < |fisData|
    ensures |t.rows| >= ResponseCount(fisData[i], k)
  {
    FisTableRows(fisData, parseTime, t);
    StatCountCovers(fisData, i, k);
  }

  lemma {:induction false} StatCountCovers(fisData: seq<Response>, i: nat, k: Kind)
    requires i < |fisData|
    ensures StatCount(fisData, k) >= ResponseCount(fisData[i], k)
    decreases i
  {
    if i > 0 {
      StatCountCovers(fisData[1..], i - 1, k);
    }
  }

  /** The records of a list of responses, of each kind, are those of its first
      part followed by those of the rest. */
  lemma ResponsesInOrder(a: seq<Response>, b: seq<Response>, k: Kind)
    ensures OfKind(Entries(a + b), k) == OfKind(Entries(a), k) + OfKind(Entries(b), k)
  {
    EntriesAppend(a, b);
    OfKindAppend(Entries(a), Entries(b), k);
  }

  // Evaluation scripts

  const Sentinel2NdviScript: string := "return [[(B08 - B04) / (B08 + B04)], CLM, SNW]"
  const Landsat8NdviScript: string := "return [(B05-B04)/(B05+B04)]"

  /** `EvalScripts`: the script for a known algorithm-and-sensor name; any other
      name leaves `evalscript` unbound and the call fails. */
  function EvalScripts(name: string): (r: Result<string>)
    ensures r.Ok? <==> name == "Sentinel_2_NDVI" || name == "Landsat_8_NDVI"
    ensures r.Err? ==> r.error == UnboundLocal("evalscript")
  {
    if name == "Sentinel_2_NDVI" then Ok(Sentinel2NdviScript)
    else if name == "Landsat_8_NDVI" then Ok(Landsat8NdviScript)
    else Err(UnboundLocal("evalscript"))
  }

  /** `p` occurs in `s` starting at position `i`. */
  predicate OccursAt(s: string, p: string, i: nat)
  {
    i + |p| <= |s| && forall k :: 0 <= k < |p| ==> s[i + k] == p[k]
  }

  /** `p` occurs somewhere in `s`. */
  predicate Contains(s: string, p: string)
  {
    exists i: nat | i <= |s| :: OccursAt(s, p, i)
  }

  /** The Sentinel-2 script computes NDVI from bands B08 and B04 and also
      returns the cloud and snow masks; the Landsat-8 one computes it from B05
      and B04. */
  lemma EvalScriptsBands()
    ensures EvalScripts("Sentinel_2_NDVI") == Ok(Sentinel2NdviScript)
    ensures Contains(Sentinel2NdviScript, "B08") && Contains(Sentinel2NdviScript, "B04")
    ensures Contains(Sentinel2NdviScript, "CLM") && Contains(Sentinel2NdviScript, "SNW")
    ensures EvalScripts("Landsat_8_NDVI") == Ok(Landsat8NdviScript)
    ensures Contains(Landsat8NdviScript, "B05") && Contains(Landsat8NdviScript, "B04")
  {
    assert OccursAt(Sentinel2NdviScript, "B08", 10);
    assert OccursAt(Sentinel2NdviScript, "B04", 16);
    assert OccursAt(Sentinel2NdviScript, "CLM", 37);
    assert OccursAt(Sentinel2NdviScript, "SNW", 42);
    assert OccursAt(Landsat8NdviScript, "B05", 9);
    assert OccursAt(Landsat8NdviScript, "B04", 13);
  }
}
