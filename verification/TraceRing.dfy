/** The trace vector: a ring of entries that is overwritten as tracing goes on, and the callback
    that dumps it. */
module TraceRing {
  /** What one trace call reports: its kind, where it was made, its message and up to eight values. */
  datatype Record = Record(what: nat, fn: string, file: string, line: nat, msg: string, data: seq<int>)

  datatype Entry = Entry(valid: bool, record: Record)

  /** The writers fill the values that they were not given with zeros. */
  function Padded(args: seq<int>): (data: seq<int>)
    requires |args| <= 8
    ensures |data| == 8 && args <= data && forall i | |args| <= i < 8 :: data[i] == 0
  {
    args + seq(8 - |args|, i => 0)
  }

  function Newest(log: seq<Record>, count: nat): (r: seq<Record>)
    requires count <= |log|
    ensures |r| == count && forall i | 0 <= i < count :: r[i] == log[|log| - 1 - i]
  {
    seq(count, i requires 0 <= i < count => log[|log| - 1 - i])
  }

  lemma Wraps(i: nat, n: nat)
    requires i < n
    ensures (i + 1) % n == if i + 1 == n then 0 else i + 1
  {
  }

  class Trace {
    const vector: array<Entry>   // tracevec
    var index: nat               // trace_index
    ghost var log: seq<Record>   // all calls so far
    ghost var base: nat          // how many of them were made before the ring last came round

    constructor (size: nat)
      requires size > 0
      ensures Valid() && fresh(vector) && vector.Length == size && log == []
    {
      var empty := Entry(false, Record(0, "", "", 0, "", []));
      vector := new Entry[size](_ => empty);
      index, log, base := 0, [], 0;
    }

    /** The slots below the index hold the latest calls, those from the index on the calls of the
        round before, if there was one. */
    ghost predicate Valid()
      reads this, vector
    {
      var n := vector.Length;
      && index < n && |log| == base + index && (base == 0 || base >= n)
      && (forall i | 0 <= i < index :: vector[i] == Entry(true, log[base + i]))
      && (forall i | index <= i < n ::
            if base == 0 then !vector[i].valid else vector[i] == Entry(true, log[base - n + i]))
    }

    /** cyg_tracenomsg(), cyg_tracemsg() and its variants for up to eight values. */
    method Write(what: nat, fn: string, file: string, line: nat, msg: string, args: seq<int>)
      requires Valid() && |args| <= 8
      modifies this, vector
      ensures Valid() && log == old(log) + [Record(what, fn, file, line, msg, Padded(args))]
    {
      var i := index;
      vector[i] := vector[i].(valid := false);
      Wraps(i, vector.Length);
      index := (index + 1) % vector.Length;
      var record := Record(what, fn, file, line, msg, Padded(args));
      vector[i] := Entry(true, record);
      log := log + [record];
      base := if index == 0 then base + vector.Length else base;
    }

    /** trace_callback(): down from the index to the start, then down from the end to the index. What
        comes out is the latest calls, newest first, as many as the ring holds. */
    method Dump() returns (out: seq<Record>)
      requires Valid()
      ensures out == Newest(log, if |log| < vector.Length then |log| else vector.Length)
    {
      out := [];
      var i := index;
      while i > 0
        invariant 0 <= i <= index && out == Newest(log, index - i)
      {
        i := i - 1;
        if vector[i].valid {
          out := out + [vector[i].record];
        }
      }
      i := vector.Length;
      while i > index
        invariant index <= i <= vector.Length
        invariant out == Newest(log, if base == 0 then index else index + (vector.Length - i))
      {
        i := i - 1;
        if vector[i].valid {
          out := out + [vector[i].record];
        }
      }
    }
  }
}
