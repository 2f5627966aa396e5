/** Append-only transactions in the embedded key-value store: each Txn is
    stored under its own UUID; listing visits the keys in the iterator's
    ascending key order. */
module BadgerTxns {
  import opened Outcomes
  import opened Search
  import opened Window

  const ErrInvalidItem := "invalid [item]"
  const ErrInvalidCode := "invalid [code]"
  const ErrNoTxns := "no transactions yet"
  const ErrNoRecentTxns := "no recent transactions"

  datatype Txn = Txn(uuid: string, item: string, code: string, timestamp: int64)

  function Stamp(t: Txn): int64
  {
    t.timestamp
  }

  /** `scan` is the order in which the store's iterator visits its keys:
      every stored key once, ascending. */
  predicate ScanOrder(scan: seq<string>, txns: map<string, Txn>): (r: bool)
    ensures r ==> forall k :: k in scan <==> k in txns
  {
    Enumerates(scan, txns.Keys) && Ascending(scan)
  }

  class TxnStore {
    /** The key-value store. */
    var txns: map<string, Txn>

    /** Every Txn is stored under its own UUID. */
    ghost predicate Valid()
      reads this
    {
      forall k :: k in txns ==> txns[k].uuid == k
    }

    /** An empty store. */
    constructor()
      ensures txns == map[] && Valid()
    {
      txns := map[];
    }


    /** CreateTxn: `id` stands for `uuid.New()` and `now` for `time.Now().Unix()`. */
    method CreateTxn(req: Txn, id: string, now: int64) returns (r: Result<Txn>)
      requires Valid()
      modifies this
      ensures Valid()
      ensures req.item == "" ==> r == Err(ErrInvalidItem)
      ensures req.item != "" && req.code == "" ==> r == Err(ErrInvalidCode)
      ensures r.Err? ==> txns == old(txns)
      ensures r.Ok? <==> req.item != "" && req.code != ""
      ensures r.Ok? ==> r.value == Txn(id, req.item, req.code, now)
      ensures r.Ok? ==> txns == old(txns)[id := r.value] && txns[id] == r.value
      ensures r.Ok? && id !in old(txns) ==> |txns| == |old(txns)| + 1
    {
      if req.item == "" {
        return Err(ErrInvalidItem);
      }
      if req.code == "" {
        return Err(ErrInvalidCode);
      }
      var txn := req.(uuid := id, timestamp := now);
      txns := txns[id := txn];
      return Ok(txn);
    }

    /** GetAllTxns: `scan` is the iterator's key order. */
    method GetAllTxns(scan: seq<string>) returns (r: Result<seq<Txn>>)
      requires ScanOrder(scan, txns)
      ensures r == Err(ErrNoTxns) <==> txns == map[]
      ensures r.Ok? <==> txns != map[]
      ensures txns != map[] ==> r == Ok(Gather(scan, txns))
      ensures r.Ok? && Valid() ==> forall i :: 0 <= i < |r.value| ==> r.value[i].uuid == scan[i]
      ensures r.Ok? ==> |r.value| == |txns| && forall t :: t in r.value <==> t in txns.Values
    {
      ScanPresent(scan, txns);
      var all: seq<Txn> := [];
      for i := 0 to |scan|
        invariant all == Gather(scan[..i], txns)
      {
        GatherStep(scan, txns, i);
        all := all + [txns[scan[i]]];
      }
      assert scan[..|scan|] == scan;
      GatherEnumeration(scan, txns);
      if |all| == 0 {
        return Err(ErrNoTxns);
      }
      return Ok(all);
    }

    /** GetRecentTxns: the Txns stamped at or after `minutes` minutes before
        `now`, in scan order. */
    method GetRecentTxns(now: int64, minutes: int64, scan: seq<string>) returns (r: Result<seq<Txn>>)
      requires ScanOrder(scan, txns)
      ensures var recent := Since(Gather(scan, txns), Stamp, Cutoff(now, minutes));
              && (r == Err(ErrNoRecentTxns) <==> recent == [])
              && (r.Ok? ==> r.value == recent)
              && (recent != [] ==> r == Ok(recent))
    {
      ScanPresent(scan, txns);
      var cutoff := Cutoff(now, minutes);
      var recent: seq<Txn> := [];
      for i := 0 to |scan|
        invariant recent == Since(Gather(scan[..i], txns), Stamp, cutoff)
      {
        var txn := txns[scan[i]];
        GatherStep(scan, txns, i);
        SinceStep(Gather(scan[..i], txns), txn, Stamp, cutoff);
        if txn.timestamp as int >= cutoff {
          recent := recent + [txn];
        }
      }
      assert scan[..|scan|] == scan;
      if |recent| == 0 {
        return Err(ErrNoRecentTxns);
      }
      return Ok(recent);
    }
  }

  /** The scan is determined by the stored keys: two scans of the same store
      visit the same keys in the same order. */
  lemma ScanOrderUnique(a: seq<string>, b: seq<string>, txns: map<string, Txn>)
    requires ScanOrder(a, txns) && ScanOrder(b, txns)
    ensures a == b
  {
    AscendingUnique(a, b, txns.Keys);
  }

  lemma ScanPresent(scan: seq<string>, txns: map<string, Txn>)
    requires ScanOrder(scan, txns)
    ensures forall j :: 0 <= j < |scan| ==> scan[j] in txns
  {
    forall j | 0 <= j < |scan| ensures scan[j] in txns {
      assert scan[j] in scan;
    }
  }

  /** Over a full scan, the recent Txns are exactly the stored ones that meet
      the cutoff. */
  lemma RecentTxnsExact(scan: seq<string>, txns: map<string, Txn>, cutoff: int)
    requires ScanOrder(scan, txns)
    ensures forall t :: t in Since(Gather(scan, txns), Stamp, cutoff) <==>
                        t in txns.Values && t.timestamp as int >= cutoff
  {
    GatherEnumeration(scan, txns);
  }

  /** A longer window never loses a Txn that a shorter one returned. */
  lemma RecentTxnsGrowWithMinutes(scan: seq<string>, txns: map<string, Txn>, now: int64, fewer: int64, more: int64)
    requires ScanOrder(scan, txns)
    requires fewer <= more
    ensures multiset(Since(Gather(scan, txns), Stamp, Cutoff(now, fewer)))
            <= multiset(Since(Gather(scan, txns), Stamp, Cutoff(now, more)))
  {
    WindowGrowsWithMinutes(Gather(scan, txns), Stamp, now, fewer, more);
  }

  /** As written (int64 cutoff), one more minute can empty the result: a Txn
      created at `now` is in the window of 153722867309246263 minutes and not
      in that of one minute more. */
  lemma RecentTxnsAsWrittenShrink()
    ensures var now: int64 := 1_700_000_000;
            var m: int64 := 153722867309246263;
            var t := Txn("id", "item", "code", now);
            && Since([t], Stamp, CutoffAsWritten(now, m) as int) == [t]
            && Since([t], Stamp, CutoffAsWritten(now, m + 1) as int) == []
  {
    AsWrittenWindowShrinks();
  }
}
