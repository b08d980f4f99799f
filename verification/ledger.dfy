/**
  The ledger store the wallet engine works against: an append-only sequence of
  wallet entries that can only be asked for its last entry and be given a new
  entry to insert. Amounts are exact decimals, modelled as `real`.
 */
module Ledger {
  import opened Wrappers

  /** One immutable ledger record: the balance before it and the signed delta it applies. */
  datatype Entry = Entry(balanceBefore: real, amount: real) {

    /** The balance this entry leaves behind; derived, never stored. */
    function BalanceAfter(): real {
      balanceBefore + amount
    }
  }

  /** The whole store, oldest entry first. */
  type Ledger = seq<Entry>

  /** The two requests the engine can make of the store. */
  datatype StoreCall = ReadLast | Insert(entry: Entry)

  /** What the store answers to `ReadLast`: the most recent entry, if there is one. */
  function LastEntry(l: Ledger): (r: Option<Entry>)
    ensures r.None? <==> |l| == 0
    ensures r.Some? ==> l == l[..|l| - 1] + [r.value]
  {
    if |l| == 0 then None else Some(l[|l| - 1])
  }

  /** The entries a trace of store calls inserts, in the order it inserts them. */
  function Inserted(calls: seq<StoreCall>): seq<Entry>
  {
    if |calls| == 0 then []
    else if calls[0].Insert? then [calls[0].entry] + Inserted(calls[1..])
    else Inserted(calls[1..])
  }

  /** How many times a trace of store calls asks for the last entry. */
  function Reads(calls: seq<StoreCall>): nat
  {
    if |calls| == 0 then 0
    else (if calls[0].ReadLast? then 1 else 0) + Reads(calls[1..])
  }

  /**
    The store after it has served a trace of calls, one call at a time: a read
    leaves it as it is, an insert appends its entry. The store is append-only:
    whatever the trace, the old ledger is a prefix of the new one and the new
    tail is exactly what the trace inserted.
   */
  function Commit(l: Ledger, calls: seq<StoreCall>): (r: Ledger)
    ensures r == l + Inserted(calls)
    decreases |calls|
  {
    if |calls| == 0 then l
    else
      var next := if calls[0].Insert? then l + [calls[0].entry] else l;
      Commit(next, calls[1..])
  }

  /** Counting inserts and reads distributes over concatenated traces. */
  lemma {:induction false} TraceCountsAppend(a: seq<StoreCall>, b: seq<StoreCall>)
    ensures Inserted(a + b) == Inserted(a) + Inserted(b)
    ensures Reads(a + b) == Reads(a) + Reads(b)
    decreases |a|
  {
    if |a| == 0 {
      assert a + b == b;
    } else {
      assert (a + b)[1..] == a[1..] + b;
      TraceCountsAppend(a[1..], b);
    }
  }
}
