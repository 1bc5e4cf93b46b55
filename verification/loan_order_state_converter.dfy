/** `LoanOrderStateConverter`: the wire names of the states of a margin
    loan order (Huobi.Net/Converters/LoanOrderStateConverter.cs). */
module LoanOrderStateConverter {
  import opened Results
  import WireTable

  /** `HuobiLoanState`. */
  datatype LoanState =
    | Created
    | Accrual
    | Cleared
    | Invalid

  /** The converter's `Mapping`, in its declared order. */
  const Mapping: WireTable.Table<LoanState> := [
    (Created, "created"),
    (Accrual, "accrual"),
    (Cleared, "cleared"),
    (Invalid, "invalid")
  ]

  /** The wire strings the table accepts. */
  const WireNames: set<string> := WireTable.Wires(Mapping)

  /** Position of each state's pair in `Mapping`. */
  function Slot(s: LoanState): (i: nat)
    ensures i < |Mapping| && Mapping[i].0 == s
  {
    match s
    case Created => 0
    case Accrual => 1
    case Cleared => 2
    case Invalid => 3
  }

  lemma ValuesDistinct()
    ensures WireTable.ValuesDistinct(Mapping)
  {
    forall i, j | 0 <= i < j < |Mapping|
      ensures Mapping[i].0 != Mapping[j].0
    {
    }
  }

  /** "created", "accrual", "cleared" and "invalid" are pairwise different. */
  lemma WireStringsDistinct()
    ensures WireTable.WiresDistinct(Mapping)
  {
    forall i, j | 0 <= i < j < |Mapping|
      ensures Mapping[i].1 != Mapping[j].1
    {
    }
  }

  /** Every loan state has exactly one pair in the table. */
  lemma EveryStateHasOneEntry(s: LoanState)
    ensures WireTable.EntriesFor(Mapping, s) == 1
  {
    ValuesDistinct();
    WireTable.EntriesForDistinct(Mapping, s);
    assert Mapping[Slot(s)].0 == s;
  }

  /** The string the converter writes for `s`. */
  function Encode(s: LoanState): (w: string)
    ensures w in WireNames
    ensures Mapping[Slot(s)] == (s, w)
  {
    ValuesDistinct();
    assert Mapping[Slot(s)].0 == s;
    WireTable.Write(Mapping, s)
  }

  /** The loan state the converter reads from `w`, if the table lists it. */
  function Decode(w: string): (r: Option<LoanState>)
    ensures r.Some? <==> w in WireNames
    ensures r.Some? ==> Encode(r.value) == w
  {
    ValuesDistinct();
    WireTable.Read(Mapping, w)
  }

  /** Reading what was written gives back the loan state. */
  lemma RoundTrip(s: LoanState)
    ensures Decode(Encode(s)) == Some(s)
  {
    WireStringsDistinct();
    assert WireTable.Lists(Mapping, s) by {
      assert Mapping[Slot(s)].0 == s;
    }
    WireTable.ReadAfterWrite(Mapping, s);
  }

  /** Writing what was read gives back each of the four wire strings. */
  lemma WireRoundTrip()
    ensures WireNames == {"created", "accrual", "cleared", "invalid"}
    ensures forall w | w in WireNames :: Decode(w).Some? && Encode(Decode(w).value) == w
  {
    assert WireNames == {"created", "accrual", "cleared", "invalid"} by {
      assert Mapping[0].1 == "created" && Mapping[1].1 == "accrual";
      assert Mapping[2].1 == "cleared" && Mapping[3].1 == "invalid";
    }
  }
}
