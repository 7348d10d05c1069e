/** The records one node keeps, as gossip.c keeps them: a list searched from the front. */
module GossipTable {

  type Address = nat

  /** What a gossip message carries: who claims it, its number, the neighbours claimed. */
  datatype Record = Record(src: Address, counter: int, payload: seq<Address>)

  datatype Lookup = Found(rec: Record) | Missing

  /** The record for `src`, the first one in the list. */
  function Find(records: seq<Record>, src: Address): (r: Lookup)
    ensures r.Found? ==> r.rec in records && r.rec.src == src
    ensures r.Missing? ==> forall i | 0 <= i < |records| :: records[i].src != src
  {
    if records == [] then Missing
    else if records[0].src == src then Found(records[0])
    else Find(records[1..], src)
  }

  /** The message tells this table something newer. */
  predicate IsNews(records: seq<Record>, rec: Record) {
    match Find(records, rec.src)
    case Missing => true
    case Found(r) => r.counter < rec.counter
  }

  predicate OnePerSource(records: seq<Record>) {
    forall i, j | 0 <= i < j < |records| :: records[i].src != records[j].src
  }

  lemma {:induction false} FindAt(records: seq<Record>, k: nat)
    requires k < |records| && forall i | 0 <= i < k :: records[i].src != records[k].src
    ensures Find(records, records[k].src) == Found(records[k])
  {
    if k > 0 {
      FindAt(records[1..], k - 1);
    }
  }

  lemma {:induction false} FindNowhere(records: seq<Record>, src: Address)
    requires forall i | 0 <= i < |records| :: records[i].src != src
    ensures Find(records, src) == Missing
  {
    if records != [] {
      FindNowhere(records[1..], src);
    }
  }

  lemma {:induction false} FindAfterUpdate(records: seq<Record>, k: nat, rec: Record, src: Address)
    requires k < |records| && records[k].src == rec.src && OnePerSource(records)
    ensures Find(records[k := rec], src) == if src == rec.src then Found(rec) else Find(records, src)
  {
    if k == 0 {
      assert records[k := rec][1..] == records[1..];
    } else {
      assert records[k := rec][1..] == records[1..][k - 1 := rec];
      FindAfterUpdate(records[1..], k - 1, rec, src);
    }
  }

  class Table {
    var records: seq<Record>

    ghost predicate Valid()
      reads this
    {
      OnePerSource(records)
    }

    constructor ()
      ensures Valid() && records == []
    {
      records := [];
    }

    /** Take in a message: keep it and say so if it is news, otherwise change nothing. */
    method Receive(rec: Record) returns (news: bool)
      requires Valid()
      modifies this
      ensures Valid()
      ensures news <==> IsNews(old(records), rec)
      ensures forall src :: Find(records, src) == if news && src == rec.src then Found(rec) else Find(old(records), src)
    {
      ghost var before := records;
      var k := 0;
      while k < |records|
        invariant 0 <= k <= |records| && records == before
        invariant forall i | 0 <= i < k :: records[i].src != rec.src
      {
        if records[k].src == rec.src {
          FindAt(records, k);
          if records[k].counter >= rec.counter {
            return false;
          }
          forall src
            ensures Find(records[k := rec], src) == if src == rec.src then Found(rec) else Find(records, src)
          {
            FindAfterUpdate(records, k, rec, src);
          }
          records := records[k := rec];
          return true;
        }
        k := k + 1;
      }
      FindNowhere(records, rec.src);
      records := [rec] + records;
      assert records[1..] == before;
      news := true;
    }
  }
}
