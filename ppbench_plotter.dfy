/** `Ppbench.plotter` and `Ppbench.comparison_plotter`, less the R text: which
    series are drawn, in which order, under which legend entry and symbol, and
    whether the run aborts for lack of data. */
module PpbenchPlotter {
  import opened Wrappers
  import opened Measurements
  import opened PpbenchAggregate
  import opened PpbenchNaming
  import opened PpbenchBuckets

  type Pair = (string, string)

  /** `experiments x machines` in loop order, experiment-major. */
  function Row(exp: string, machines: seq<string>): (r: seq<Pair>)
    ensures |r| == |machines|
    ensures forall j :: 0 <= j < |machines| ==> r[j] == (exp, machines[j])
  {
    if machines == [] then []
    else Row(exp, machines[..|machines| - 1]) + [(exp, machines[|machines| - 1])]
  }

  function Pairs(experiments: seq<string>, machines: seq<string>): (r: seq<Pair>)
    ensures |r| == |experiments| * |machines|
  {
    if experiments == [] then []
    else Pairs(experiments[..|experiments| - 1], machines) + Row(experiments[|experiments| - 1], machines)
  }

  /** The nested loops visit experiment `i` with machine `j` at position
      `i * |machines| + j`: experiment-major, each pair once. */
  lemma {:induction false} PairsAt(experiments: seq<string>, machines: seq<string>, i: nat, j: nat)
    requires i < |experiments| && j < |machines|
    ensures i * |machines| + j < |Pairs(experiments, machines)|
    ensures Pairs(experiments, machines)[i * |machines| + j] == (experiments[i], machines[j])
  {
    var n := |experiments|;
    var shorter := experiments[..n - 1];
    if i < n - 1 {
      PairsAt(shorter, machines, i, j);
      assert shorter[i] == experiments[i];
    } else {
      assert |Pairs(shorter, machines)| == i * |machines|;
    }
  }

  /** `(data.include? exp) && (data[exp].include? machine)` */
  function IsPresent(data: Aggregated): Pair -> bool
  {
    (p: Pair) => Find(data, p.0).Some? && Find(Find(data, p.0).value, p.1).Some?
  }

  /** `data[exp][machine]` for a present pair. */
  function Cell(data: Aggregated, p: Pair): Series
    requires IsPresent(data)(p)
  {
    Find(Find(data, p.0).value, p.1).value
  }

  /** The pairs whose series are drawn, in drawing order. */
  function Selected(data: Aggregated, experiments: seq<string>, machines: seq<string>): seq<Pair>
  {
    Select(Pairs(experiments, machines), IsPresent(data))
  }

  /** `data[exp][machine]` for each pair of a selection. */
  function Cells(data: Aggregated, chosen: seq<Pair>): (r: seq<Series>)
    requires forall p :: p in chosen ==> IsPresent(data)(p)
    ensures |r| == |chosen|
    ensures forall k :: 0 <= k < |chosen| ==> r[k] == Cell(data, chosen[k])
  {
    seq(|chosen|, k requires 0 <= k < |chosen| => Cell(data, chosen[k]))
  }

  /** The series drawn, in drawing order. */
  function SelectedSeries(data: Aggregated, experiments: seq<string>, machines: seq<string>): (r: seq<Series>)
    ensures |r| == |Selected(data, experiments, machines)|
  {
    Cells(data, Selected(data, experiments, machines))
  }

  /** `"'#{reference}#{Ppbench::experiment(exp)} on #{Ppbench::machine(machine)}'"`:
      a quoted R string naming the experiment and the machine. */
  function Label(naming: Naming, prefix: string, p: Pair): string
  {
    "'" + prefix + PpbenchNaming.Experiment(naming, p.0) + " on " + PpbenchNaming.Machine(naming, p.1) + "'"
  }

  const ReferencePrefix: string := "Reference: "

  /** Legend entries for a selection, the first one carrying `first`. */
  function Labels(naming: Naming, first: string, chosen: seq<Pair>): (r: seq<string>)
    ensures |r| == |chosen|
    ensures forall k :: 0 <= k < |chosen| ==> r[k] == Label(naming, if k == 0 then first else "", chosen[k])
  {
    seq(|chosen|, k requires 0 <= k < |chosen| => Label(naming, if k == 0 then first else "", chosen[k]))
  }

  /** The prefix the selection loop gives its first series: with the `ref`
      flag set, the first pair iterated takes it, and only keeps it if that
      pair is present. */
  function FirstPrefix(data: Aggregated, experiments: seq<string>, machines: seq<string>, reference: bool): string
  {
    var ps := Pairs(experiments, machines);
    if reference && ps != [] && IsPresent(data)(ps[0]) then ReferencePrefix else ""
  }

  /** The legend entries as the selection loop writes them. */
  function SeriesLabels(data: Aggregated, naming: Naming, experiments: seq<string>, machines: seq<string>,
                        reference: bool): (r: seq<string>)
    ensures |r| == |Selected(data, experiments, machines)|
  {
    Labels(naming, FirstPrefix(data, experiments, machines, reference), Selected(data, experiments, machines))
  }

  /** The legend entries a comparison plot needs: the first series drawn is the
      reference every line is divided by, and it alone carries the prefix. */
  function ReferenceLabels(naming: Naming, chosen: seq<Pair>): (r: seq<string>)
    ensures |r| == |chosen|
    ensures chosen != [] ==> r[0] == Label(naming, ReferencePrefix, chosen[0])
    ensures forall k :: 0 < k < |chosen| ==> r[k] == Label(naming, "", chosen[k])
  {
    Labels(naming, ReferencePrefix, chosen)
  }

  /** One step of the selection loop keeps its invariant. */
  lemma SelectStep(data: Aggregated, naming: Naming, first: string, visited: seq<Pair>, p: Pair,
                   chosen: seq<Pair>, prefix: string)
    requires chosen == Select(visited, IsPresent(data))
    requires chosen == [] && IsPresent(data)(p) ==> prefix == first
    requires chosen != [] ==> prefix == ""
    ensures Select(visited + [p], IsPresent(data)) == chosen + (if IsPresent(data)(p) then [p] else [])
    ensures forall q :: q in chosen ==> IsPresent(data)(q)
    ensures IsPresent(data)(p) ==>
              && Cells(data, chosen + [p]) == Cells(data, chosen) + [Cell(data, p)]
              && Labels(naming, first, chosen + [p]) == Labels(naming, first, chosen) + [Label(naming, prefix, p)]
  {
    SelectSnoc(visited, p, IsPresent(data));
    if IsPresent(data)(p) {
      CellsSnoc(data, chosen, p);
      if chosen != [] {
        LabelsSnoc(naming, first, chosen, p);
      } else {
        assert Labels(naming, first, [p]) == [Label(naming, first, p)];
      }
    }
  }

  lemma CellsSnoc(data: Aggregated, chosen: seq<Pair>, p: Pair)
    requires forall q :: q in chosen ==> IsPresent(data)(q)
    requires IsPresent(data)(p)
    ensures Cells(data, chosen + [p]) == Cells(data, chosen) + [Cell(data, p)]
  {
  }

  lemma LabelsSnoc(naming: Naming, first: string, chosen: seq<Pair>, p: Pair)
    requires chosen != []
    ensures Labels(naming, first, chosen + [p]) == Labels(naming, first, chosen) + [Label(naming, "", p)]
  {
  }

  lemma AppendAssoc<T>(a: seq<T>, b: seq<T>, c: seq<T>)
    ensures a + (b + c) == (a + b) + c
  {
  }

  lemma RowSnoc(exp: string, machines: seq<string>, j: nat)
    requires j < |machines|
    ensures Row(exp, machines[..j + 1]) == Row(exp, machines[..j]) + [(exp, machines[j])]
  {
    assert machines[..j + 1][..j] == machines[..j];
  }

  lemma PairsSnoc(experiments: seq<string>, i: nat, machines: seq<string>)
    requires i < |experiments|
    ensures Pairs(experiments[..i + 1], machines) == Pairs(experiments[..i], machines) + Row(experiments[i], machines)
  {
    assert experiments[..i + 1][..i] == experiments[..i];
  }

  /** The selection loop of `plotter`: for every experiment, for every machine,
      take the series if the data has it; `reference` is the `ref` flag of
      `comparison_plotter`, which only the very first pair iterated can use. */
  method SelectSeries(data: Aggregated, naming: Naming, experiments: seq<string>, machines: seq<string>, reference: bool)
    returns (series: seq<Series>, chosen: seq<Pair>, names: seq<string>)
    ensures chosen == Selected(data, experiments, machines)
    ensures series == SelectedSeries(data, experiments, machines)
    ensures names == SeriesLabels(data, naming, experiments, machines, reference)
  {
    series, chosen, names := [], [], [];
    ghost var first := FirstPrefix(data, experiments, machines, reference);
    var ref := reference;
    var i := 0;
    while i < |experiments|
      invariant 0 <= i <= |experiments|
      invariant chosen == Select(Pairs(experiments[..i], machines), IsPresent(data))
      invariant series == Cells(data, chosen) && names == Labels(naming, first, chosen)
      invariant ref == (reference && (i == 0 || machines == []))
    {
      series, chosen, names, ref := SelectRow(data, naming, experiments, machines, i, reference, series, chosen, names, ref);
      PairsSnoc(experiments, i, machines);
      i := i + 1;
    }
    assert experiments[..|experiments|] == experiments;
  }

  /** The inner loop of the selection: the machines for experiment `i`. */
  method SelectRow(data: Aggregated, naming: Naming, experiments: seq<string>, machines: seq<string>,
                   i: nat, reference: bool, series0: seq<Series>, chosen0: seq<Pair>, names0: seq<string>,
                   ref0: bool)
    returns (series: seq<Series>, chosen: seq<Pair>, names: seq<string>, ref: bool)
    requires i < |experiments|
    requires chosen0 == Select(Pairs(experiments[..i], machines), IsPresent(data))
    requires var first := FirstPrefix(data, experiments, machines, reference);
             series0 == Cells(data, chosen0) && names0 == Labels(naming, first, chosen0)
    requires ref0 == (reference && (i == 0 || machines == []))
    ensures chosen == Select(Pairs(experiments[..i], machines) + Row(experiments[i], machines), IsPresent(data))
    ensures var first := FirstPrefix(data, experiments, machines, reference);
            series == Cells(data, chosen) && names == Labels(naming, first, chosen)
    ensures ref == (reference && machines == [])
  {
    series, chosen, names, ref := series0, chosen0, names0, ref0;
    ghost var first := FirstPrefix(data, experiments, machines, reference);
    var exp := experiments[i];
    var j := 0;
    assert Pairs(experiments[..i], machines) + Row(exp, machines[..0]) == Pairs(experiments[..i], machines) by {
      assert machines[..0] == [];
    }
    while j < |machines|
      invariant 0 <= j <= |machines|
      invariant chosen == Select(Pairs(experiments[..i], machines) + Row(experiments[i], machines[..j]), IsPresent(data))
      invariant series == Cells(data, chosen) && names == Labels(naming, first, chosen)
      invariant ref == (reference && (i == 0 || machines == []) && j == 0)
    {
      var prefix := if ref then ReferencePrefix else "";
      series, chosen, names := SelectPair(data, naming, experiments, machines, i, j, reference, first,
                                          series, chosen, names, prefix);
      ref := false;
      j := j + 1;
    }
    assert machines[..|machines|] == machines;
  }

  /** The body of the inner loop for machine `j`: a present pair is taken with
      its series and its legend entry, which carries `prefix`. */
  method SelectPair(data: Aggregated, naming: Naming, experiments: seq<string>, machines: seq<string>,
                    i: nat, j: nat, reference: bool, ghost first: string,
                    series0: seq<Series>, chosen0: seq<Pair>, names0: seq<string>, prefix: string)
    returns (series: seq<Series>, chosen: seq<Pair>, names: seq<string>)
    requires i < |experiments| && j < |machines|
    requires first == FirstPrefix(data, experiments, machines, reference)
    requires chosen0 == Select(Pairs(experiments[..i], machines) + Row(experiments[i], machines[..j]), IsPresent(data))
    requires series0 == Cells(data, chosen0) && names0 == Labels(naming, first, chosen0)
    requires prefix == if reference && i == 0 && j == 0 then ReferencePrefix else ""
    ensures chosen == Select(Pairs(experiments[..i], machines) + Row(experiments[i], machines[..j + 1]), IsPresent(data))
    ensures series == Cells(data, chosen) && names == Labels(naming, first, chosen)
  {
    var p := (experiments[i], machines[j]);
    VisitedSnoc(experiments, machines, i, j);
    SelectSnoc(Pairs(experiments[..i], machines) + Row(experiments[i], machines[..j]), p, IsPresent(data));
    RowStep(data, naming, experiments, machines, i, j, reference, first, chosen0, p, prefix);
    if IsPresent(data)(p) {
      series := series0 + [Cell(data, p)];
      names := names0 + [Label(naming, prefix, p)];
      chosen := chosen0 + [p];
    } else {
      series, chosen, names := series0, chosen0, names0;
      assert chosen0 + [] == chosen0;
    }
  }

  /** One step of the inner selection loop: a present pair's series and
      legend entry are appended with it. */
  lemma RowStep(data: Aggregated, naming: Naming, experiments: seq<string>, machines: seq<string>,
                i: nat, j: nat, reference: bool, first: string, chosen: seq<Pair>, p: Pair, prefix: string)
    requires i < |experiments| && j < |machines| && p == (experiments[i], machines[j])
    requires first == FirstPrefix(data, experiments, machines, reference)
    requires chosen == Select(Pairs(experiments[..i], machines) + Row(experiments[i], machines[..j]), IsPresent(data))
    requires prefix == if reference && i == 0 && j == 0 then ReferencePrefix else ""
    ensures forall q :: q in chosen ==> IsPresent(data)(q)
    ensures IsPresent(data)(p) ==>
              && Cells(data, chosen + [p]) == Cells(data, chosen) + [Cell(data, p)]
              && Labels(naming, first, chosen + [p]) == Labels(naming, first, chosen) + [Label(naming, prefix, p)]
  {
    if chosen == [] && IsPresent(data)(p) {
      PrefixFirst(data, experiments, machines, i, j, reference, prefix);
    }
    if i == 0 && j == 0 {
      NothingVisited(data, experiments, machines);
    }
    SelectStep(data, naming, first, Pairs(experiments[..i], machines) + Row(experiments[i], machines[..j]), p, chosen, prefix);
  }

  /** The pairs visited grow by one pair per step of the inner loop. */
  lemma VisitedSnoc(experiments: seq<string>, machines: seq<string>, i: nat, j: nat)
    requires i < |experiments| && j < |machines|
    ensures Pairs(experiments[..i], machines) + Row(experiments[i], machines[..j + 1])
         == Pairs(experiments[..i], machines) + Row(experiments[i], machines[..j]) + [(experiments[i], machines[j])]
  {
    RowSnoc(experiments[i], machines, j);
    AppendAssoc(Pairs(experiments[..i], machines), Row(experiments[i], machines[..j]), [(experiments[i], machines[j])]);
  }

  /** The prefix the loop hands to the first present pair it meets is the one
      the first series selected carries. */
  lemma PrefixFirst(data: Aggregated, experiments: seq<string>, machines: seq<string>, i: nat, j: nat,
                    reference: bool, prefix: string)
    requires i < |experiments| && j < |machines|
    requires Select(Pairs(experiments[..i], machines) + Row(experiments[i], machines[..j]), IsPresent(data)) == []
    requires IsPresent(data)((experiments[i], machines[j]))
    requires prefix == if reference && i == 0 && j == 0 then ReferencePrefix else ""
    ensures prefix == FirstPrefix(data, experiments, machines, reference)
  {
    FirstLabel(data, experiments, machines, i, j);
  }

  /** Before the first step nothing is visited, so nothing is selected. */
  lemma NothingVisited(data: Aggregated, experiments: seq<string>, machines: seq<string>)
    requires experiments != [] && machines != []
    ensures Select(Pairs(experiments[..0], machines) + Row(experiments[0], machines[..0]), IsPresent(data)) == []
  {
    var none: seq<Pair> := [];
    assert Pairs(experiments[..0], machines) == none by {
      assert experiments[..0] == [];
    }
    assert Row(experiments[0], machines[..0]) == none by {
      assert machines[..0] == [];
    }
    assert none + none == none;
  }

  /** Whether the first series selected is the first pair iterated: exactly
      when it is selected at the very first step. */
  lemma FirstLabel(data: Aggregated, experiments: seq<string>, machines: seq<string>, i: nat, j: nat)
    requires i < |experiments| && j < |machines|
    requires Select(Pairs(experiments[..i], machines) + Row(experiments[i], machines[..j]), IsPresent(data)) == []
    requires IsPresent(data)((experiments[i], machines[j]))
    ensures Pairs(experiments, machines) != []
    ensures (i == 0 && j == 0) <==> IsPresent(data)(Pairs(experiments, machines)[0])
  {
    PairsFirst(experiments, machines);
    if i > 0 || j > 0 {
      var v := Pairs(experiments[..i], machines) + Row(experiments[i], machines[..j]);
      if i > 0 {
        PairsFirst(experiments[..i], machines);
      }
      assert v[0] == (experiments[0], machines[0]);
      SelectCount(v, IsPresent(data), v[0]);
      assert v[0] in multiset(v);
    }
  }

  lemma PairsFirst(experiments: seq<string>, machines: seq<string>)
    requires experiments != [] && machines != []
    ensures Pairs(experiments, machines) != [] && Pairs(experiments, machines)[0] == (experiments[0], machines[0])
  {
    PairsPrefix(experiments, machines, 0);
    assert experiments[..1][..0] == [];
  }

  lemma {:induction false} PairsPrefix(experiments: seq<string>, machines: seq<string>, i: nat)
    requires i < |experiments| && machines != []
    ensures |Pairs(experiments, machines)| >= |machines| * (i + 1)
    ensures Pairs(experiments, machines)[..|machines| * (i + 1)] == Pairs(experiments[..i + 1], machines)
  {
    if i + 1 < |experiments| {
      var shorter := experiments[..|experiments| - 1];
      assert shorter[..i + 1] == experiments[..i + 1];
      PairsPrefix(shorter, machines, i);
    } else {
      assert experiments[..i + 1] == experiments;
    }
  }

  // ---------------------------------------------------------------------------
  // The plots

  /** What `add_series` draws for one series: its legend entry and symbol, its
      scatter points unless `no_points`, and its band if `with_bands`. */
  datatype Curve = Curve(name: string, symbol: int, points: Option<seq<Point>>, band: Option<Band>)

  /** `add_series` for one series: its scatter points are drawn unless
      `no_points`; its band only if `with_bands`, and only bands can abort. */
  function AddSeries(name: string, symbol: int, serie: Series, toPlot: Field, noPoints: bool, withBands: bool,
                     precision: int, length: int, confidence: int): (r: Result<Curve>)
    ensures r.Err? <==> withBands && Bands(serie, toPlot, precision, length, confidence).Err?
    ensures r.Err? ==> r == Err(Bands(serie, toPlot, precision, length, confidence).abort)
    ensures r.Ok? ==> r.value.name == name && r.value.symbol == symbol
    ensures r.Ok? ==> (r.value.points.Some? <==> !noPoints) && (r.value.band.Some? <==> withBands)
    ensures r.Ok? && !noPoints ==> |r.value.points.value| == |serie|
  {
    var points := if noPoints then None else Some(Points(serie, toPlot));
    if withBands then
      match Bands(serie, toPlot, precision, length, confidence)
      case Err(a) => Err(a)
      case Ok(band) => Ok(Curve(name, symbol, points, Some(band)))
    else Ok(Curve(name, symbol, points, None))
  }

  /** `plotter`, less the R text: one curve per selected series, labelled by
      experiment and machine, symbols counted from 1; the first series whose
      band aborts aborts the whole plot. */
  method Plotter(data: Aggregated, naming: Naming, toPlot: Field, machines: seq<string>, experiments: seq<string>,
                 xaxisMax: int, confidence: int, noPoints: bool, withBands: bool, precision: int)
    returns (r: Result<seq<Curve>>)
    ensures var chosen := Selected(data, experiments, machines);
            var series := SelectedSeries(data, experiments, machines);
            match r
            case Ok(curves) =>
              && |curves| == |chosen|
              && forall k :: 0 <= k < |chosen| ==>
                   AddSeries(Label(naming, "", chosen[k]), k + 1, series[k], toPlot, noPoints, withBands,
                             precision, xaxisMax, confidence) == Ok(curves[k])
            case Err(a) =>
              exists k :: 0 <= k < |chosen|
                && AddSeries(Label(naming, "", chosen[k]), k + 1, series[k], toPlot, noPoints, withBands,
                             precision, xaxisMax, confidence) == Err(a)
                && forall i :: 0 <= i < k ==>
                     AddSeries(Label(naming, "", chosen[i]), i + 1, series[i], toPlot, noPoints, withBands,
                               precision, xaxisMax, confidence).Ok?
  {
    var series, chosen, names := SelectSeries(data, naming, experiments, machines, false);
    var curves: seq<Curve> := [];
    var sym := 1;
    var k := 0;
    while k < |series|
      invariant 0 <= k <= |series| && |curves| == k && sym == k + 1
      invariant forall i :: 0 <= i < k ==>
                  AddSeries(Label(naming, "", chosen[i]), i + 1, series[i], toPlot, noPoints, withBands,
                            precision, xaxisMax, confidence) == Ok(curves[i])
    {
      var c := AddSeries(names[k], sym, series[k], toPlot, noPoints, withBands, precision, xaxisMax, confidence);
      if c.Err? {
        return Err(c.abort);
      }
      curves := curves + [c.value];
      sym := sym + 1;
      k := k + 1;
    }
    r := Ok(curves);
  }

  /** `comparison_plotter`, less the R text: the first selected series is the
      reference, every selected series (the reference included) is compared
      with it, and the first comparison that aborts aborts the whole plot.
      The legend is the one the selection loop writes, whose `Reference: `
      prefix goes to the first pair iterated (see `ReferenceLabelLost`). */
  method ComparisonPlotter(data: Aggregated, naming: Naming, toPlot: Field, machines: seq<string>,
                           experiments: seq<string>, xaxisMax: int, precision: int)
    returns (r: Result<seq<seq<Ratio>>>, names: seq<string>)
    ensures var chosen := Selected(data, experiments, machines);
            var series := SelectedSeries(data, experiments, machines);
            && names == SeriesLabels(data, naming, experiments, machines, true)
            && match r
               case Ok(lines) =>
                 && |lines| == |chosen|
                 && forall k :: 0 <= k < |chosen| ==>
                      Comparison(series[0], series[k], toPlot, xaxisMax, precision) == Ok(lines[k])
               case Err(a) =>
                 exists k :: 0 <= k < |chosen|
                   && Comparison(series[0], series[k], toPlot, xaxisMax, precision) == Err(a)
                   && forall i :: 0 <= i < k ==> Comparison(series[0], series[i], toPlot, xaxisMax, precision).Ok?
  {
    var series, chosen;
    series, chosen, names := SelectSeries(data, naming, experiments, machines, true);
    r := CompareAll(series, toPlot, xaxisMax, precision);
  }

  /** The drawing loop of `comparison_plotter`: every series against the first. */
  method CompareAll(series: seq<Series>, toPlot: Field, xaxisMax: int, precision: int)
    returns (r: Result<seq<seq<Ratio>>>)
    ensures match r
            case Ok(lines) =>
              && |lines| == |series|
              && forall k :: 0 <= k < |series| ==>
                   Comparison(series[0], series[k], toPlot, xaxisMax, precision) == Ok(lines[k])
            case Err(a) =>
              exists k :: 0 <= k < |series|
                && Comparison(series[0], series[k], toPlot, xaxisMax, precision) == Err(a)
                && forall i :: 0 <= i < k ==> Comparison(series[0], series[i], toPlot, xaxisMax, precision).Ok?
  {
    var lines: seq<seq<Ratio>> := [];
    var k := 0;
    while k < |series|
      invariant 0 <= k <= |series| && |lines| == k
      invariant forall i :: 0 <= i < k ==>
                  Comparison(series[0], series[i], toPlot, xaxisMax, precision) == Ok(lines[i])
    {
      var line := ComparisonLine(series[0], series[k], toPlot, xaxisMax, precision);
      if line.Err? {
        return Err(line.abort);
      }
      lines := lines + [line.value];
      k := k + 1;
    }
    r := Ok(lines);
  }

  /** Where the loop's labels and the reference labels agree: whenever the
      first pair iterated is present (or nothing is selected). */
  lemma LabelsAgree(data: Aggregated, naming: Naming, experiments: seq<string>, machines: seq<string>)
    requires var ps := Pairs(experiments, machines);
             Selected(data, experiments, machines) == [] || IsPresent(data)(ps[0])
    ensures SeriesLabels(data, naming, experiments, machines, true)
         == ReferenceLabels(naming, Selected(data, experiments, machines))
  {
    var chosen := Selected(data, experiments, machines);
    if chosen != [] {
      var ps := Pairs(experiments, machines);
      assert ps == [ps[0]] + ps[1..];
      SelectAppend([ps[0]], ps[1..], IsPresent(data));
      assert chosen[0] == ps[0];
    }
  }

  /** The `ref` flag is consumed by the first pair iterated even when the data
      lacks it: with one experiment `a` and machines `m1`, `m2`, where only
      `a` on `m2` was measured, that series is the reference of every line but
      its legend entry has no prefix. */
  lemma ReferenceLabelLost(e: Entry)
    requires e.experiment == "a" && e.machine == "m2"
    ensures Selected(Aggregate([e]), ["a"], ["m1", "m2"]) == [("a", "m2")]
    ensures SeriesLabels(Aggregate([e]), map[], ["a"], ["m1", "m2"], true) == ["'a on m2'"]
    ensures ReferenceLabels(map[], Selected(Aggregate([e]), ["a"], ["m1", "m2"])) == ["'Reference: a on m2'"]
  {
    var data := Aggregate([e]);
    SecondOnly(e);
    assert FirstPrefix(data, ["a"], ["m1", "m2"], true) == "";
    SingleLabels();
  }

  lemma SingleLabels()
    ensures Labels(map[], "", [("a", "m2")]) == ["'a on m2'"]
    ensures Labels(map[], ReferencePrefix, [("a", "m2")]) == ["'Reference: a on m2'"]
  {
    PlainLabels();
  }

  lemma PlainLabels()
    ensures Label(map[], "", ("a", "m2")) == "'a on m2'"
    ensures Label(map[], ReferencePrefix, ("a", "m2")) == "'Reference: a on m2'"
  {
    assert PpbenchNaming.Experiment(map[], "a") == "a" && PpbenchNaming.Machine(map[], "m2") == "m2";
  }

  lemma SecondOnly(e: Entry)
    requires e.experiment == "a" && e.machine == "m2"
    ensures Pairs(["a"], ["m1", "m2"]) == [("a", "m1"), ("a", "m2")]
    ensures !IsPresent(Aggregate([e]))(("a", "m1")) && IsPresent(Aggregate([e]))(("a", "m2"))
    ensures Selected(Aggregate([e]), ["a"], ["m1", "m2"]) == [("a", "m2")]
  {
    var data := Aggregate([e]);
    TwoPairs();
    FirstAbsent(e);
    SecondPresent(e);
    SelectAppend([("a", "m1")], [("a", "m2")], IsPresent(data));
    assert [("a", "m1"), ("a", "m2")] == [("a", "m1")] + [("a", "m2")];
  }

  lemma FirstAbsent(e: Entry)
    requires e.experiment == "a" && e.machine == "m2"
    ensures !IsPresent(Aggregate([e]))(("a", "m1"))
  {
    AggregateLookup([e], "a", "m1");
  }

  lemma SecondPresent(e: Entry)
    requires e.experiment == "a" && e.machine == "m2"
    ensures IsPresent(Aggregate([e]))(("a", "m2"))
  {
    AggregateLookup([e], "a", "m2");
    assert e in [e];
  }

  lemma TwoPairs()
    ensures Pairs(["a"], ["m1", "m2"]) == [("a", "m1"), ("a", "m2")]
  {
    assert ["a"][..0] == [];
    assert ["m1", "m2"][..1] == ["m1"];
    assert ["m1"][..0] == [];
  }
}
