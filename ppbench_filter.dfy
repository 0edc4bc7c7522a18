/** `Ppbench.filter`: keeps the records that satisfy five conditions, in order. */
module PpbenchFilter {
  import opened Measurements

  /** The keyword arguments of `filter`. An empty `experiments` or `machines`
      list means "no restriction", not "exclude everything". */
  datatype Criteria = Criteria(maxsize: int, experiments: seq<string>, machines: seq<string>, fails: int)

  /** The default `maxsize: 2 ** 64`. */
  const DefaultMaxsize: int := 0x1_0000_0000_0000_0000

  /** The conjunction of the five conditions. */
  predicate Keep(e: Entry, c: Criteria)
  {
    && e.tpr > 0.0
    && e.failed <= c.fails
    && e.length <= c.maxsize
    && (e.machine in c.machines || c.machines == [])
    && (e.experiment in c.experiments || c.experiments == [])
  }

  /** The five `select` blocks of `filter`, in source order. */
  function TprPositive(): Entry -> bool { (e: Entry) => e.tpr > 0.0 }
  function FailsAtMost(c: Criteria): Entry -> bool { (e: Entry) => e.failed <= c.fails }
  function SizeAtMost(c: Criteria): Entry -> bool { (e: Entry) => e.length <= c.maxsize }
  function MachineIncluded(c: Criteria): Entry -> bool
  {
    (e: Entry) => e.machine in c.machines || c.machines == []
  }
  function ExperimentIncluded(c: Criteria): Entry -> bool
  {
    (e: Entry) => e.experiment in c.experiments || c.experiments == []
  }

  /** `filter` as the source writes it: five `select`s in a row. */
  function Filter(data: seq<Entry>, c: Criteria): (r: seq<Entry>)
    ensures |r| <= |data|
    ensures forall e :: e in r ==> e in data && Keep(e, c)
  {
    Select(Select(Select(Select(Select(data,
      TprPositive()),
      FailsAtMost(c)),
      SizeAtMost(c)),
      MachineIncluded(c)),
      ExperimentIncluded(c))
  }

  /** Reference definition: one pass keeping the records that satisfy `Keep`. */
  function Kept(data: seq<Entry>, c: Criteria): seq<Entry>
  {
    if data == [] then []
    else (if Keep(data[0], c) then [data[0]] else []) + Kept(data[1..], c)
  }

  /** The chain of selects preserves order: filtering a concatenation filters each part. */
  lemma FilterAppend(s: seq<Entry>, t: seq<Entry>, c: Criteria)
    ensures Filter(s + t, c) == Filter(s, c) + Filter(t, c)
  {
    var p1, p2, p3 := TprPositive(), FailsAtMost(c), SizeAtMost(c);
    var p4, p5 := MachineIncluded(c), ExperimentIncluded(c);
    SelectAppend(s, t, p1);
    SelectAppend(Select(s, p1), Select(t, p1), p2);
    SelectAppend(Select(Select(s, p1), p2), Select(Select(t, p1), p2), p3);
    SelectAppend(Select(Select(Select(s, p1), p2), p3), Select(Select(Select(t, p1), p2), p3), p4);
    SelectAppend(Select(Select(Select(Select(s, p1), p2), p3), p4),
                 Select(Select(Select(Select(t, p1), p2), p3), p4), p5);
  }

  /** A single record passes the five selects exactly when it satisfies `Keep`. */
  lemma FilterSingle(e: Entry, c: Criteria)
    ensures Filter([e], c) == if Keep(e, c) then [e] else []
  {
    var p1, p2, p3 := TprPositive(), FailsAtMost(c), SizeAtMost(c);
    var p4, p5 := MachineIncluded(c), ExperimentIncluded(c);
    var s1 := Select([e], p1);
    assert s1 == if p1(e) then [e] else [];
    var s2 := Select(s1, p2);
    assert s2 == if p1(e) && p2(e) then [e] else [];
    var s3 := Select(s2, p3);
    assert s3 == if p1(e) && p2(e) && p3(e) then [e] else [];
    var s4 := Select(s3, p4);
    assert s4 == if p1(e) && p2(e) && p3(e) && p4(e) then [e] else [];
  }

  /** The source's chain of five selects is the one-pass filter by `Keep`. */
  lemma {:induction false} FilterIsKept(data: seq<Entry>, c: Criteria)
    ensures Filter(data, c) == Kept(data, c)
  {
    if data != [] {
      assert data == [data[0]] + data[1..];
      FilterAppend([data[0]], data[1..], c);
      FilterSingle(data[0], c);
      FilterIsKept(data[1..], c);
    }
  }

  lemma {:induction false} KeptCount(data: seq<Entry>, c: Criteria, x: Entry)
    ensures multiset(Kept(data, c))[x] == if Keep(x, c) then multiset(data)[x] else 0
  {
    if data != [] {
      assert data == [data[0]] + data[1..];
      KeptCount(data[1..], c, x);
    }
  }

  /** `filter` returns every record satisfying the five conditions, as often as it
      occurs in the input, and no other record. */
  lemma FilterCount(data: seq<Entry>, c: Criteria, x: Entry)
    ensures multiset(Filter(data, c))[x] == if Keep(x, c) then multiset(data)[x] else 0
  {
    FilterIsKept(data, c);
    KeptCount(data, c, x);
  }

  lemma {:induction false} KeptIdempotent(data: seq<Entry>, c: Criteria)
    ensures Kept(Kept(data, c), c) == Kept(data, c)
  {
    if data != [] {
      KeptIdempotent(data[1..], c);
      var rest := Kept(data[1..], c);
      if Keep(data[0], c) {
        var k := [data[0]] + rest;
        assert Kept(data, c) == k;
        assert k[0] == data[0] && k[1..] == rest;
        assert Kept(k, c) == [data[0]] + Kept(rest, c);
      } else {
        assert Kept(data, c) == [] + rest == rest;
      }
    }
  }

  /** Filtering an already filtered dataset again changes nothing. */
  lemma FilterIdempotent(data: seq<Entry>, c: Criteria)
    ensures Filter(Filter(data, c), c) == Filter(data, c)
  {
    FilterIsKept(data, c);
    FilterIsKept(Kept(data, c), c);
    KeptIdempotent(data, c);
  }

  /** With no machine or experiment restriction, the inclusion lists exclude
      nothing: only latency, failures and size decide. */
  lemma FilterUnrestricted(data: seq<Entry>, maxsize: int, fails: int, x: Entry)
    ensures multiset(Filter(data, Criteria(maxsize, [], [], fails)))[x]
         == if x.tpr > 0.0 && x.failed <= fails && x.length <= maxsize then multiset(data)[x] else 0
  {
    FilterCount(data, Criteria(maxsize, [], [], fails), x);
  }

  /** With the default `maxsize`, a record longer than 2 ** 64 is still dropped. */
  lemma FilterDefaultBound(data: seq<Entry>, fails: int, x: Entry)
    requires x.length > DefaultMaxsize
    ensures x !in Filter(data, Criteria(DefaultMaxsize, [], [], fails))
  {
    FilterUnrestricted(data, DefaultMaxsize, fails, x);
  }
}
