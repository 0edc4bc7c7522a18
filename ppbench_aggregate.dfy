/** `Ppbench.aggregate`: a two-level `group_by`, experiment first, then machine.
    Ruby hashes keep insertion order, so a grouping is a sequence of keyed groups. */
module PpbenchAggregate {
  import opened Wrappers
  import opened Measurements

  datatype Group<V> = Group(key: string, items: V)

  type Series = seq<Entry>
  type ByMachine = seq<Group<Series>>
  type Aggregated = seq<Group<ByMachine>>

  datatype KeyField = Experiment | Machine

  function KeyOf(e: Entry, level: KeyField): string
  {
    match level
    case Experiment => e.experiment
    case Machine => e.machine
  }

  function HasKey(level: KeyField, k: string): Entry -> bool
  {
    (e: Entry) => KeyOf(e, level) == k
  }

  /** `hash[k]` on an ordered hash, `None` standing for `nil`. */
  function Find<V>(gs: seq<Group<V>>, k: string): (r: Option<V>)
    ensures r.Some? <==> exists i :: 0 <= i < |gs| && gs[i].key == k
    ensures r.Some? ==> exists i :: 0 <= i < |gs| && gs[i].key == k && gs[i].items == r.value
  {
    if gs == [] then None
    else if gs[0].key == k then Some(gs[0].items)
    else
      var r := Find(gs[1..], k);
      assert forall i :: 1 <= i < |gs| ==> gs[i] == gs[1..][i - 1];
      r
  }

  /** One step of `group_by`: append `e` to the group of key `k`, or open a new
      group for `k` at the end. */
  function AddTo(gs: seq<Group<Series>>, k: string, e: Entry): seq<Group<Series>>
  {
    if gs == [] then [Group(k, [e])]
    else if gs[0].key == k then [Group(k, gs[0].items + [e])] + gs[1..]
    else [gs[0]] + AddTo(gs[1..], k, e)
  }

  /** `group_by`: the records visited in order, each added to its key's group. */
  function GroupBy(s: Series, level: KeyField): seq<Group<Series>>
  {
    if s == [] then []
    else AddTo(GroupBy(s[..|s| - 1], level), KeyOf(s[|s| - 1], level), s[|s| - 1])
  }

  /** Reference: the distinct keys of `s` in order of first occurrence. */
  function Keys(s: Series, level: KeyField): seq<string>
  {
    if s == [] then []
    else
      var ks := Keys(s[..|s| - 1], level);
      var k := KeyOf(s[|s| - 1], level);
      if k in ks then ks else ks + [k]
  }

  predicate Distinct(ks: seq<string>)
  {
    forall i, j :: 0 <= i < j < |ks| ==> ks[i] != ks[j]
  }

  /** Reference: group `i` holds key `i` of `Keys` and every record with that key, in order. */
  ghost predicate GroupsOf(gs: seq<Group<Series>>, s: Series, level: KeyField)
  {
    && |gs| == |Keys(s, level)|
    && forall i :: 0 <= i < |gs| ==>
         gs[i].key == Keys(s, level)[i] && gs[i].items == Select(s, HasKey(level, gs[i].key))
  }

  function Flatten(gs: seq<Group<Series>>): Series
  {
    if gs == [] then [] else gs[0].items + Flatten(gs[1..])
  }

  function Aggregate(data: Series): Aggregated
  {
    var exps := GroupBy(data, Experiment);
    seq(|exps|, i requires 0 <= i < |exps| => Group(exps[i].key, GroupBy(exps[i].items, Machine)))
  }

  /** Every record of every group, experiment by experiment, machine by machine. */
  function Entries(agg: Aggregated): Series
  {
    if agg == [] then [] else Flatten(agg[0].items) + Entries(agg[1..])
  }

  // ---------------------------------------------------------------------------
  // Keys

  lemma {:induction false} KeysSpec(s: Series, level: KeyField)
    ensures Distinct(Keys(s, level))
    ensures forall k :: k in Keys(s, level) <==> exists e :: e in s && KeyOf(e, level) == k
  {
    if s != [] {
      var p := s[..|s| - 1];
      KeysSpec(p, level);
      assert s == p + [s[|s| - 1]];
      forall k
        ensures k in Keys(s, level) <==> exists e :: e in s && KeyOf(e, level) == k
      {
        if k in Keys(s, level) && k != KeyOf(s[|s| - 1], level) {
          var e :| e in p && KeyOf(e, level) == k;
          assert e in s;
        }
        if exists e :: e in s && KeyOf(e, level) == k {
          var e :| e in s && KeyOf(e, level) == k;
          if e != s[|s| - 1] {
            assert e in p;
          }
        }
      }
    }
  }

  lemma SelectNone(s: Series, p: Entry -> bool)
    requires forall e :: e in s ==> !p(e)
    ensures Select(s, p) == []
  {
    if Select(s, p) != [] {
      assert Select(s, p)[0] in Select(s, p);
    }
  }

  // ---------------------------------------------------------------------------
  // One step of group_by

  lemma {:induction false} AddToPresent(gs: seq<Group<Series>>, k: string, e: Entry, j: nat)
    requires j < |gs| && gs[j].key == k
    requires forall i :: 0 <= i < j ==> gs[i].key != k
    ensures AddTo(gs, k, e) == gs[j := Group(k, gs[j].items + [e])]
  {
    if j > 0 {
      AddToPresent(gs[1..], k, e, j - 1);
    }
  }

  lemma {:induction false} AddToAbsent(gs: seq<Group<Series>>, k: string, e: Entry)
    requires forall i :: 0 <= i < |gs| ==> gs[i].key != k
    ensures AddTo(gs, k, e) == gs + [Group(k, [e])]
  {
    if gs != [] {
      AddToAbsent(gs[1..], k, e);
      assert gs == [gs[0]] + gs[1..];
    }
  }

  lemma {:induction false} FlattenAddTo(gs: seq<Group<Series>>, k: string, e: Entry)
    ensures multiset(Flatten(AddTo(gs, k, e))) == multiset(Flatten(gs)) + multiset{e}
  {
    if gs != [] {
      if gs[0].key == k {
        assert ([Group(k, gs[0].items + [e])] + gs[1..])[1..] == gs[1..];
      } else {
        FlattenAddTo(gs[1..], k, e);
        assert ([gs[0]] + AddTo(gs[1..], k, e))[1..] == AddTo(gs[1..], k, e);
      }
    }
  }

  // ---------------------------------------------------------------------------
  // group_by against its reference

  lemma KeysSnoc(p: Series, x: Entry, level: KeyField)
    ensures Keys(p + [x], level)
         == if KeyOf(x, level) in Keys(p, level) then Keys(p, level) else Keys(p, level) + [KeyOf(x, level)]
  {
    assert (p + [x])[..|p + [x]| - 1] == p;
  }

  lemma GroupBySnoc(p: Series, x: Entry, level: KeyField)
    ensures GroupBy(p + [x], level) == AddTo(GroupBy(p, level), KeyOf(x, level), x)
  {
    assert (p + [x])[..|p + [x]| - 1] == p;
  }

  /** Appending `x` adds `x` to the records of its own key only. */
  lemma StepPresent(g: seq<Group<Series>>, p: Series, x: Entry, level: KeyField, j: nat)
    requires GroupsOf(g, p, level) && Distinct(Keys(p, level))
    requires j < |g| && Keys(p, level)[j] == KeyOf(x, level)
    ensures GroupsOf(AddTo(g, KeyOf(x, level), x), p + [x], level)
  {
    var k := KeyOf(x, level);
    KeysSnoc(p, x, level);
    AddToPresent(g, k, x, j);
    var g' := AddTo(g, k, x);
    forall i | 0 <= i < |g'|
      ensures g'[i].key == Keys(p + [x], level)[i] && g'[i].items == Select(p + [x], HasKey(level, g'[i].key))
    {
      SelectSnoc(p, x, HasKey(level, g[i].key));
    }
  }

  lemma StepAbsent(g: seq<Group<Series>>, p: Series, x: Entry, level: KeyField)
    requires GroupsOf(g, p, level)
    requires KeyOf(x, level) !in Keys(p, level)
    requires forall e :: e in p ==> KeyOf(e, level) != KeyOf(x, level)
    ensures GroupsOf(AddTo(g, KeyOf(x, level), x), p + [x], level)
  {
    var k := KeyOf(x, level);
    KeysSnoc(p, x, level);
    AddToAbsent(g, k, x);
    var g' := AddTo(g, k, x);
    forall i | 0 <= i < |g'|
      ensures g'[i].key == Keys(p + [x], level)[i] && g'[i].items == Select(p + [x], HasKey(level, g'[i].key))
    {
      SelectSnoc(p, x, HasKey(level, g'[i].key));
      if i == |g| {
        SelectNone(p, HasKey(level, k));
      }
    }
  }

  /** `group_by` yields the distinct keys in first-occurrence order, and under
      each key exactly the records with that key, in their original order. */
  lemma {:induction false} GroupByCorrect(s: Series, level: KeyField)
    ensures GroupsOf(GroupBy(s, level), s, level)
  {
    if s != [] {
      var p, x := s[..|s| - 1], s[|s| - 1];
      assert s == p + [x];
      GroupByCorrect(p, level);
      KeysSpec(p, level);
      GroupBySnoc(p, x, level);
      var ks := Keys(p, level);
      if KeyOf(x, level) in ks {
        var j :| 0 <= j < |ks| && ks[j] == KeyOf(x, level);
        StepPresent(GroupBy(p, level), p, x, level, j);
      } else {
        StepAbsent(GroupBy(p, level), p, x, level);
      }
    }
  }

  /** `group_by` partitions its input: every record lands in exactly one group. */
  lemma {:induction false} GroupByPartition(s: Series, level: KeyField)
    ensures multiset(Flatten(GroupBy(s, level))) == multiset(s)
  {
    if s != [] {
      var p, x := s[..|s| - 1], s[|s| - 1];
      assert s == p + [x];
      GroupByPartition(p, level);
      FlattenAddTo(GroupBy(p, level), KeyOf(x, level), x);
    }
  }

  // ---------------------------------------------------------------------------
  // aggregate

  lemma {:induction false} EntriesOfAggregate(exps: seq<Group<Series>>, agg: Aggregated)
    requires |agg| == |exps|
    requires forall i :: 0 <= i < |agg| ==> agg[i].items == GroupBy(exps[i].items, Machine)
    ensures multiset(Entries(agg)) == multiset(Flatten(exps))
  {
    if agg != [] {
      GroupByPartition(exps[0].items, Machine);
      EntriesOfAggregate(exps[1..], agg[1..]);
    }
  }

  /** `aggregate` partitions the filtered data: every record appears exactly as
      often as in the input, across all experiment and machine groups. */
  lemma AggregatePartition(data: Series)
    ensures multiset(Entries(Aggregate(data))) == multiset(data)
  {
    EntriesOfAggregate(GroupBy(data, Experiment), Aggregate(data));
    GroupByPartition(data, Experiment);
  }

  /** The experiments of `aggregate` are the distinct experiment tags in order of
      first occurrence; under each, the machines are the distinct machine tags of
      that experiment's records in order of first occurrence; and group
      `[exp][machine]` holds exactly the records with that experiment and machine,
      in their original order. */
  lemma AggregateShape(data: Series, i: nat, j: nat)
    requires i < |Aggregate(data)|
    ensures Distinct(Keys(data, Experiment)) && |Aggregate(data)| == |Keys(data, Experiment)|
    ensures Keys(data, Experiment)[i] == Aggregate(data)[i].key
    ensures var exp := Aggregate(data)[i].key;
            var forExp := Select(data, HasKey(Experiment, exp));
            && Distinct(Keys(forExp, Machine))
            && |Aggregate(data)[i].items| == |Keys(forExp, Machine)|
            && (j < |Aggregate(data)[i].items| ==>
                  var g := Aggregate(data)[i].items[j];
                  g.key == Keys(forExp, Machine)[j]
                  && g.items == Select(forExp, HasKey(Machine, g.key)))
  {
    GroupByCorrect(data, Experiment);
    KeysSpec(data, Experiment);
    var exp := Aggregate(data)[i].key;
    var forExp := Select(data, HasKey(Experiment, exp));
    GroupByCorrect(forExp, Machine);
    KeysSpec(forExp, Machine);
  }

  /** Looking a key up in a `group_by` result finds exactly the records with that key. */
  lemma FindGroupBy(s: Series, level: KeyField, k: string)
    ensures Find(GroupBy(s, level), k)
         == if exists e :: e in s && KeyOf(e, level) == k then Some(Select(s, HasKey(level, k))) else None
  {
    GroupByCorrect(s, level);
    KeysSpec(s, level);
    var g, ks := GroupBy(s, level), Keys(s, level);
    var r := Find(g, k);
    if exists e :: e in s && KeyOf(e, level) == k {
      assert k in ks;
      var i :| 0 <= i < |ks| && ks[i] == k;
      assert g[i].key == k;
      var j :| 0 <= j < |g| && g[j].key == k && g[j].items == r.value;
      assert r.value == Select(s, HasKey(level, k));
    } else {
      assert k !in ks;
      assert forall i :: 0 <= i < |g| ==> g[i].key == ks[i];
    }
  }

  /** Two ordered hashes with the same keys in the same order find a key at the same position. */
  lemma {:induction false} FindAligned<V, W>(a: seq<Group<V>>, b: seq<Group<W>>, k: string)
    requires |a| == |b| && forall i :: 0 <= i < |a| ==> a[i].key == b[i].key
    ensures Find(a, k).Some? <==> Find(b, k).Some?
    ensures Find(a, k).Some? ==>
              exists i :: 0 <= i < |a| && a[i].key == k && a[i].items == Find(a, k).value
                          && b[i].items == Find(b, k).value
  {
    if a != [] && a[0].key != k {
      FindAligned(a[1..], b[1..], k);
      if Find(a, k).Some? {
        var i :| 0 <= i < |a[1..]| && a[1..][i].key == k && a[1..][i].items == Find(a, k).value
                 && b[1..][i].items == Find(b, k).value;
        assert a[i + 1].key == k;
      }
    }
  }

  lemma AggregateAt(data: Series)
    ensures |Aggregate(data)| == |GroupBy(data, Experiment)|
    ensures forall i :: 0 <= i < |Aggregate(data)| ==>
              Aggregate(data)[i].key == GroupBy(data, Experiment)[i].key
              && Aggregate(data)[i].items == GroupBy(GroupBy(data, Experiment)[i].items, Machine)
  {
  }

  /** The experiment level of `aggregate` is a `group_by` on experiment, with
      each group regrouped by machine. */
  lemma FindAggregate(data: Series, exp: string)
    ensures Find(Aggregate(data), exp)
         == if exists e :: e in data && e.experiment == exp
            then Some(GroupBy(Select(data, HasKey(Experiment, exp)), Machine)) else None
  {
    var agg, exps := Aggregate(data), GroupBy(data, Experiment);
    AggregateAt(data);
    FindGroupBy(data, Experiment, exp);
    FindAligned(agg, exps, exp);
    if Find(agg, exp).Some? {
      var i :| 0 <= i < |agg| && agg[i].key == exp && agg[i].items == Find(agg, exp).value
               && exps[i].items == Find(exps, exp).value;
      assert agg[i].items == GroupBy(exps[i].items, Machine);
    }
  }

  /** `data[exp][machine]` exists exactly when some record has that experiment
      and machine, and then holds exactly those records, in order. */
  lemma AggregateLookup(data: Series, exp: string, machine: string)
    ensures Find(Aggregate(data), exp).Some? <==> exists e :: e in data && e.experiment == exp
    ensures Find(Aggregate(data), exp).Some? ==>
              var cell := Select(Select(data, HasKey(Experiment, exp)), HasKey(Machine, machine));
              Find(Find(Aggregate(data), exp).value, machine)
                == if exists e :: e in data && e.experiment == exp && e.machine == machine
                   then Some(cell) else None
  {
    FindAggregate(data, exp);
    FindGroupBy(Select(data, HasKey(Experiment, exp)), Machine, machine);
    CellExists(data, exp, machine);
  }

  lemma CellExists(data: Series, exp: string, machine: string)
    ensures (exists e :: e in Select(data, HasKey(Experiment, exp)) && KeyOf(e, Machine) == machine)
        <==> (exists e :: e in data && e.experiment == exp && e.machine == machine)
  {
    if exists e :: e in data && e.experiment == exp && e.machine == machine {
      var e :| e in data && e.experiment == exp && e.machine == machine;
      SelectCount(data, HasKey(Experiment, exp), e);
      assert e in Select(data, HasKey(Experiment, exp)) && KeyOf(e, Machine) == machine;
    }
  }

  /** Ruby's `group_by` never creates an empty group, so neither does `aggregate`. */
  lemma AggregateGroupsNonEmpty(data: Series, i: nat, j: nat)
    requires i < |Aggregate(data)| && j < |Aggregate(data)[i].items|
    ensures Aggregate(data)[i].items[j].items != []
  {
    AggregateShape(data, i, j);
    var forExp := Select(data, HasKey(Experiment, Aggregate(data)[i].key));
    var g := Aggregate(data)[i].items[j];
    KeysSpec(forExp, Machine);
    assert g.key in Keys(forExp, Machine);
    var e :| e in forExp && KeyOf(e, Machine) == g.key;
    SelectCount(forExp, HasKey(Machine, g.key), e);
    assert e in g.items;
  }

  /** Every record is found under `[its experiment][its machine]`. */
  lemma AggregateContains(data: Series, e: Entry)
    requires e in data
    ensures Find(Aggregate(data), e.experiment).Some?
    ensures Find(Find(Aggregate(data), e.experiment).value, e.machine).Some?
    ensures e in Find(Find(Aggregate(data), e.experiment).value, e.machine).value
  {
    var forExp := Select(data, HasKey(Experiment, e.experiment));
    AggregateLookup(data, e.experiment, e.machine);
    SelectCount(data, HasKey(Experiment, e.experiment), e);
    SelectCount(forExp, HasKey(Machine, e.machine), e);
  }
}
