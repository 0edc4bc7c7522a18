/** Measurement records as the analysis half of ppbench sees them after loading,
    and the list operations (Ruby's `select`) the pipeline is built from. */
module Measurements {

  /** One row of a benchmark log: the hash `load_data` builds per CSV row. */
  datatype Entry = Entry(
    machine: string,
    experiment: string,
    document: string,
    length: int,        // "Total transferred"
    failed: int,        // "Failed requests"
    tpr: real,          // "Time per request"
    transferRate: real, // "Transfer rate"
    rps: real,          // "Requests per second"
    retries: int,
    responseCode: int)

  /** The symbols `:length`, `:tpr`, ... that callers pass as `of:` or `to_plot:`. */
  datatype Field = Length | Failed | Tpr | TransferRate | Rps | Retries | ResponseCode

  /** `entry[field]`, read as a number. */
  function Value(e: Entry, f: Field): real
  {
    match f
    case Length => e.length as real
    case Failed => e.failed as real
    case Tpr => e.tpr
    case TransferRate => e.transferRate
    case Rps => e.rps
    case Retries => e.retries as real
    case ResponseCode => e.responseCode as real
  }

  /** Ruby's `select`: the elements satisfying `p`, in their original order. */
  function Select<T>(s: seq<T>, p: T -> bool): (r: seq<T>)
    ensures |r| <= |s|
    ensures forall x :: x in r ==> x in s && p(x)
  {
    if s == [] then []
    else (if p(s[0]) then [s[0]] else []) + Select(s[1..], p)
  }

  /** `select` keeps every element that satisfies `p`, as often as it occurs, and nothing else. */
  lemma {:induction false} SelectCount<T>(s: seq<T>, p: T -> bool, x: T)
    ensures multiset(Select(s, p))[x] == if p(x) then multiset(s)[x] else 0
  {
    if s != [] {
      SelectCount(s[1..], p, x);
      assert s == [s[0]] + s[1..];
    }
  }

  /** `select` preserves order: it distributes over concatenation. */
  lemma {:induction false} SelectAppend<T>(s: seq<T>, t: seq<T>, p: T -> bool)
    ensures Select(s + t, p) == Select(s, p) + Select(t, p)
  {
    if s == [] {
      assert s + t == t;
    } else {
      assert (s + t)[1..] == s[1..] + t;
      SelectAppend(s[1..], t, p);
    }
  }

  /** Selecting from a sequence extended by one element. */
  lemma SelectSnoc<T>(s: seq<T>, x: T, p: T -> bool)
    ensures Select(s + [x], p) == Select(s, p) + (if p(x) then [x] else [])
  {
    SelectAppend(s, [x], p);
  }
}
