/** `Ppbench.maximum`: the largest value of one field over every group of an
    aggregated dataset, starting from 0. */
module PpbenchMaximum {
  import opened Measurements
  import opened PpbenchAggregate

  /** What `aggregate` guarantees and `max_by` needs: no group is empty. */
  predicate NonEmptyGroups(agg: Aggregated)
  {
    forall i, j :: 0 <= i < |agg| && 0 <= j < |agg[i].items| ==> agg[i].items[j].items != []
  }

  /** `y` is at least 0 and every value of the field in every group, and is
      0 or one of those values. */
  ghost predicate IsMaximum(y: real, agg: Aggregated, of: Field)
  {
    && y >= 0.0
    && (forall i, j, e :: 0 <= i < |agg| && 0 <= j < |agg[i].items| && e in agg[i].items[j].items
          ==> Value(e, of) <= y)
    && (y == 0.0 || exists i, j, e :: 0 <= i < |agg| && 0 <= j < |agg[i].items| && e in agg[i].items[j].items
                                      && Value(e, of) == y)
  }

  /** `values.max_by { |e| e[of] }`: a record with the largest value (only
      that value is used). */
  function MaxBy(values: Series, of: Field): (m: Entry)
    requires values != []
    ensures m in values
    ensures forall e :: e in values ==> Value(e, of) <= Value(m, of)
  {
    if |values| == 1 then values[0]
    else
      var rest := MaxBy(values[1..], of);
      if Value(values[0], of) >= Value(rest, of) then values[0] else rest
  }

  method Maximum(data: Aggregated, of: Field) returns (y: real)
    requires NonEmptyGroups(data)
    ensures IsMaximum(y, data, of)
  {
    y := 0.0;
    var i := 0;
    while i < |data|
      invariant 0 <= i <= |data|
      invariant y >= 0.0
      invariant forall a, b, e :: 0 <= a < i && 0 <= b < |data[a].items| && e in data[a].items[b].items
                  ==> Value(e, of) <= y
      invariant y == 0.0 || exists a, b, e :: 0 <= a < i && 0 <= b < |data[a].items|
                              && e in data[a].items[b].items && Value(e, of) == y
    {
      var machines := data[i].items;
      var j := 0;
      while j < |machines|
        invariant 0 <= j <= |machines|
        invariant y >= 0.0
        invariant forall a, b, e ::
                    0 <= a < |data| && 0 <= b < |data[a].items| && e in data[a].items[b].items
                    && (a < i || (a == i && b < j))
                    ==> Value(e, of) <= y
        invariant y == 0.0 || exists a, b, e :: 0 <= a < |data| && 0 <= b < |data[a].items|
                                && (a < i || (a == i && b < j))
                                && e in data[a].items[b].items && Value(e, of) == y
      {
        var m := MaxBy(machines[j].items, of);
        y := if y > Value(m, of) then y else Value(m, of);
        j := j + 1;
      }
      i := i + 1;
    }
  }

  lemma AggregateNonEmpty(data: Series)
    ensures NonEmptyGroups(Aggregate(data))
  {
    forall i, j | 0 <= i < |Aggregate(data)| && 0 <= j < |Aggregate(data)[i].items|
      ensures Aggregate(data)[i].items[j].items != []
    {
      AggregateGroupsNonEmpty(data, i, j);
    }
  }

  /** The maximum of an aggregated dataset bounds the field of every record of the dataset. */
  lemma MaximumBoundsRecords(data: Series, y: real, of: Field)
    requires IsMaximum(y, Aggregate(data), of)
    ensures forall e :: e in data ==> Value(e, of) <= y
  {
    var agg := Aggregate(data);
    forall e | e in data
      ensures Value(e, of) <= y
    {
      AggregateContains(data, e);
      var byMachine := Find(agg, e.experiment).value;
      var i :| 0 <= i < |agg| && agg[i].key == e.experiment && agg[i].items == byMachine;
      var j :| 0 <= j < |byMachine| && byMachine[j].key == e.machine
               && byMachine[j].items == Find(byMachine, e.machine).value;
      assert e in agg[i].items[j].items;
    }
  }

  /** A non-zero maximum of an aggregated dataset is the field of one of its records. */
  lemma MaximumAttained(data: Series, y: real, of: Field)
    requires IsMaximum(y, Aggregate(data), of)
    ensures y == 0.0 || exists e :: e in data && Value(e, of) == y
  {
    var agg := Aggregate(data);
    if y != 0.0 {
      var i, j, e :| 0 <= i < |agg| && 0 <= j < |agg[i].items| && e in agg[i].items[j].items && Value(e, of) == y;
      EntriesContain(agg, i, j, e);
      AggregatePartition(data);
      assert multiset(Entries(agg))[e] > 0;
      assert e in data;
    }
  }

  lemma {:induction false} FlattenContains(gs: seq<Group<Series>>, j: nat, e: Entry)
    requires j < |gs| && e in gs[j].items
    ensures e in Flatten(gs)
  {
    if j > 0 {
      FlattenContains(gs[1..], j - 1, e);
    }
  }

  lemma {:induction false} EntriesContain(agg: Aggregated, i: nat, j: nat, e: Entry)
    requires i < |agg| && j < |agg[i].items| && e in agg[i].items[j].items
    ensures e in Entries(agg)
  {
    if i == 0 {
      FlattenContains(agg[0].items, j, e);
    } else {
      EntriesContain(agg[1..], i - 1, j, e);
    }
  }
}
