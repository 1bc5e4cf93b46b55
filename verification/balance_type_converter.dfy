/** `BalanceTypeConverter`: the wire names of Huobi's balance row types
    (Huobi.Net/Converters/BalanceTypeConverter.cs). */
module BalanceTypeConverter {
  import opened Results
  import WireTable

  /** `HuobiBalanceType`: what a balance row of an account counts. */
  datatype BalanceType =
    | Frozen
    | Trade
    | Loan
    | Interest
    | TransferOutAvailable
    | LoanAvailable

  /** The converter's `Mapping`, in its declared order. */
  const Mapping: WireTable.Table<BalanceType> := [
    (Frozen, "frozen"),
    (Trade, "trade"),
    (Loan, "loan"),
    (Interest, "interest"),
    (TransferOutAvailable, "transfer-out-available"),
    (LoanAvailable, "loan-available")
  ]

  /** The wire strings the table accepts. */
  const WireNames: set<string> := WireTable.Wires(Mapping)

  /** Position of each value's pair in `Mapping`. */
  function Slot(t: BalanceType): (i: nat)
    ensures i < |Mapping| && Mapping[i].0 == t
  {
    match t
    case Frozen => 0
    case Trade => 1
    case Loan => 2
    case Interest => 3
    case TransferOutAvailable => 4
    case LoanAvailable => 5
  }

  lemma ValuesDistinct()
    ensures WireTable.ValuesDistinct(Mapping)
  {
    forall i, j | 0 <= i < j < |Mapping|
      ensures Mapping[i].0 != Mapping[j].0
    {
    }
  }

  /** The six wire strings are pairwise different, so reading is well
      defined. */
  lemma WireStringsDistinct()
    ensures WireTable.WiresDistinct(Mapping)
  {
    forall i, j | 0 <= i < j < |Mapping|
      ensures Mapping[i].1 != Mapping[j].1
    {
    }
  }

  /** Every balance type has exactly one pair in the table. */
  lemma EveryTypeHasOneEntry(t: BalanceType)
    ensures WireTable.EntriesFor(Mapping, t) == 1
  {
    ValuesDistinct();
    WireTable.EntriesForDistinct(Mapping, t);
    assert Mapping[Slot(t)].0 == t;
  }

  /** The string the converter writes for `t`. */
  function Encode(t: BalanceType): (w: string)
    ensures w in WireNames
    ensures Mapping[Slot(t)] == (t, w)
  {
    ValuesDistinct();
    assert Mapping[Slot(t)].0 == t;
    WireTable.Write(Mapping, t)
  }

  /** The balance type the converter reads from `w`, if the table lists it. */
  function Decode(w: string): (r: Option<BalanceType>)
    ensures r.Some? <==> w in WireNames
    ensures r.Some? ==> Encode(r.value) == w
  {
    ValuesDistinct();
    WireTable.Read(Mapping, w)
  }

  /** Reading what was written gives back the balance type. */
  lemma RoundTrip(t: BalanceType)
    ensures Decode(Encode(t)) == Some(t)
  {
    WireStringsDistinct();
    assert WireTable.Lists(Mapping, t) by {
      assert Mapping[Slot(t)].0 == t;
    }
    WireTable.ReadAfterWrite(Mapping, t);
  }

  /** Writing what was read gives back the wire string. */
  lemma WireRoundTrip(w: string)
    requires w in WireNames
    ensures Decode(w).Some? && Encode(Decode(w).value) == w
  {
  }

  /** The table's entries, one by one. */
  lemma Entries()
    ensures Encode(Frozen) == "frozen"
    ensures Encode(Trade) == "trade"
    ensures Encode(Loan) == "loan"
    ensures Encode(Interest) == "interest"
    ensures Encode(TransferOutAvailable) == "transfer-out-available"
    ensures Encode(LoanAvailable) == "loan-available"
    ensures Decode("transfer-out-available") == Some(TransferOutAvailable)
    ensures Decode("loan-available") == Some(LoanAvailable)
  {
    RoundTrip(TransferOutAvailable);
    RoundTrip(LoanAvailable);
  }
}
