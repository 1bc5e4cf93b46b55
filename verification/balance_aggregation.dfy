/** The common interface's balance list (Huobi.Net/HuobiClient.cs,
    `IExchangeClient.GetBalancesAsync`): Huobi reports one row per
    (currency, balance type); the common interface wants one record per
    asset with a frozen and a tradable amount. */
module BalanceAggregation {
  import opened Results
  import opened BalanceTypeConverter
  import Envelopes

  /** A C# `decimal`; it is only copied, never computed with. */
  type Amount = real

  /** `HuobiBalance`: one row of an account's balance list. */
  datatype BalanceRow = BalanceRow(currency: string, kind: BalanceType, balance: Amount)

  /** `HuobiBalanceWrapper`: one asset of the aggregated list. A field is
      `None` while no row has written it, that is while it still holds the
      wrapper's initial value. */
  datatype AssetBalance = AssetBalance(asset: string, frozen: Option<Amount>, trade: Option<Amount>)

  /** The two fields a row can write. */
  datatype Field = FrozenField | TradeField

  /** Rows of these two kinds are skipped. */
  predicate Kept(kind: BalanceType)
  {
    kind != Interest && kind != Loan
  }

  /** A frozen row writes `Frozen`; every other kept row writes `Trade`. */
  function FieldOf(kind: BalanceType): Field
  {
    if kind == Frozen then FrozenField else TradeField
  }

  predicate AssetsDistinct(bs: seq<AssetBalance>)
  {
    forall i, j :: 0 <= i < j < |bs| ==> bs[i].asset != bs[j].asset
  }

  function AssetsOf(bs: seq<AssetBalance>): set<string>
  {
    set k | 0 <= k < |bs| :: bs[k].asset
  }

  // ---------------------------------------------------------------------
  // The fold, as the loop performs it
  // ---------------------------------------------------------------------

  /** `SingleOrDefault(b => b.Asset == currency)`: the position of the
      record for `c`, searching from position `from`. */
  function IndexFrom(acc: seq<AssetBalance>, c: string, from: nat): (r: Option<nat>)
    requires from <= |acc|
    ensures r.Some? ==> from <= r.value < |acc| && acc[r.value].asset == c
    ensures r.None? <==> forall k :: from <= k < |acc| ==> acc[k].asset != c
    decreases |acc| - from
  {
    if from == |acc| then None
    else if acc[from].asset == c then Some(from)
    else IndexFrom(acc, c, from + 1)
  }

  /** The row's balance written into the field its kind selects. */
  function Write(b: AssetBalance, row: BalanceRow): AssetBalance
  {
    if row.kind == Frozen then b.(frozen := Some(row.balance))
    else b.(trade := Some(row.balance))
  }

  /** One iteration of the loop. */
  function Step(acc: seq<AssetBalance>, row: BalanceRow): (r: seq<AssetBalance>)
    requires AssetsDistinct(acc)
    ensures AssetsDistinct(r)
    ensures AssetsOf(r) == AssetsOf(acc) + (if Kept(row.kind) then {row.currency} else {})
  {
    if !Kept(row.kind) then acc
    else
      match IndexFrom(acc, row.currency, 0)
      case None =>
        var r := acc + [Write(AssetBalance(row.currency, None, None), row)];
        assert AssetsOf(r) == AssetsOf(acc) + {row.currency} by {
          assert forall k :: 0 <= k < |acc| ==> r[k] == acc[k];
          assert r[|acc|].asset == row.currency;
        }
        r
      case Some(k) =>
        var r := acc[k := Write(acc[k], row)];
        assert forall m :: 0 <= m < |acc| ==> r[m].asset == acc[m].asset;
        r
  }

  /** The aggregated list after folding every row, in order. */
  function Aggregate(rows: seq<BalanceRow>): (r: seq<AssetBalance>)
    ensures AssetsDistinct(r)
    ensures |r| <= |rows|
    decreases |rows|
  {
    if |rows| == 0 then []
    else
      var acc := Aggregate(rows[..|rows| - 1]);
      var r := Step(acc, rows[|rows| - 1]);
      assert |r| <= |acc| + 1 by {
        if !Kept(rows[|rows| - 1].kind) || IndexFrom(acc, rows[|rows| - 1].currency, 0).Some? {
          assert |r| == |acc|;
        }
      }
      r
  }

  /** The same fold as an in-place loop over a list of records, searching
      the list for the row's asset the way `SingleOrDefault` does. */
  method AggregateBalances(rows: seq<BalanceRow>) returns (result: seq<AssetBalance>)
    ensures result == Aggregate(rows)
    ensures AssetsDistinct(result)
  {
    result := [];
    var i := 0;
    while i < |rows|
      invariant i <= |rows|
      invariant result == Aggregate(rows[..i])
    {
      var row := rows[i];
      assert rows[..i + 1][..i] == rows[..i];
      if Kept(row.kind) {
        var k := 0;
        while k < |result| && result[k].asset != row.currency
          invariant k <= |result|
          invariant IndexFrom(result, row.currency, 0) == IndexFrom(result, row.currency, k)
        {
          k := k + 1;
        }
        if k == |result| {
          result := result + [Write(AssetBalance(row.currency, None, None), row)];
        } else {
          result := result[k := Write(result[k], row)];
        }
      }
      i := i + 1;
    }
    assert rows[..|rows|] == rows;
  }

  // ---------------------------------------------------------------------
  // What the aggregated list means, stated on the rows alone
  // ---------------------------------------------------------------------

  /** The currencies of the rows that are not skipped. */
  function SeenCurrencies(rows: seq<BalanceRow>): set<string>
  {
    set i | 0 <= i < |rows| && Kept(rows[i].kind) :: rows[i].currency
  }

  /** The balance of the last row for `c` that writes field `f`, if any. */
  function LastWrite(rows: seq<BalanceRow>, c: string, f: Field): (r: Option<Amount>)
    ensures r.None? <==>
      forall i :: 0 <= i < |rows| ==> !(Kept(rows[i].kind) && rows[i].currency == c && FieldOf(rows[i].kind) == f)
    decreases |rows|
  {
    if |rows| == 0 then None
    else
      var last := rows[|rows| - 1];
      if Kept(last.kind) && last.currency == c && FieldOf(last.kind) == f then Some(last.balance)
      else
        var r := LastWrite(rows[..|rows| - 1], c, f);
        assert forall i :: 0 <= i < |rows| - 1 ==> rows[i] == rows[..|rows| - 1][i];
        r
  }

  /** The position of the first kept row for `c`. */
  function FirstSeen(rows: seq<BalanceRow>, c: string): (n: nat)
    requires c in SeenCurrencies(rows)
    ensures n < |rows| && Kept(rows[n].kind) && rows[n].currency == c
    ensures forall p :: 0 <= p < n ==> !(Kept(rows[p].kind) && rows[p].currency == c)
    decreases |rows|
  {
    if Kept(rows[0].kind) && rows[0].currency == c then 0
    else
      var tail := rows[1..];
      assert c in SeenCurrencies(tail) by {
        var i :| 0 <= i < |rows| && Kept(rows[i].kind) && rows[i].currency == c;
        assert tail[i - 1] == rows[i];
      }
      var n := FirstSeen(tail, c);
      assert forall p :: 1 <= p < |rows| ==> rows[p] == tail[p - 1];
      1 + n
  }

  lemma SeenCurrenciesSnoc(rows: seq<BalanceRow>, row: BalanceRow)
    ensures SeenCurrencies(rows + [row]) == SeenCurrencies(rows) + (if Kept(row.kind) then {row.currency} else {})
  {
    var s := rows + [row];
    assert forall i :: 0 <= i < |rows| ==> s[i] == rows[i];
    assert s[|rows|] == row;
  }

  /** Appending a row does not move the first sighting of a currency that
      was already seen. */
  lemma FirstSeenSnoc(rows: seq<BalanceRow>, row: BalanceRow, c: string)
    requires c in SeenCurrencies(rows)
    ensures c in SeenCurrencies(rows + [row])
    ensures FirstSeen(rows + [row], c) == FirstSeen(rows, c)
  {
    SeenCurrenciesSnoc(rows, row);
    var s := rows + [row];
    var n := FirstSeen(rows, c);
    var m := FirstSeen(s, c);
    assert s[n] == rows[n];
    assert forall p :: 0 <= p < |rows| ==> s[p] == rows[p];
  }

  /** An asset is in the aggregated list exactly when some kept row has
      that currency. */
  lemma {:induction false} AggregateAssets(rows: seq<BalanceRow>)
    ensures AssetsOf(Aggregate(rows)) == SeenCurrencies(rows)
    decreases |rows|
  {
    if |rows| > 0 {
      var init := rows[..|rows| - 1];
      var last := rows[|rows| - 1];
      AggregateAssets(init);
      SeenCurrenciesSnoc(init, last);
      assert init + [last] == rows;
    }
  }

  /** Each record holds the balance of the last frozen row for its asset in
      `frozen` and the balance of the last other kept row in `trade`; a
      field no row wrote is `None`. */
  lemma {:induction false} AggregateFields(rows: seq<BalanceRow>, k: nat)
    requires k < |Aggregate(rows)|
    ensures Aggregate(rows)[k].frozen == LastWrite(rows, Aggregate(rows)[k].asset, FrozenField)
    ensures Aggregate(rows)[k].trade == LastWrite(rows, Aggregate(rows)[k].asset, TradeField)
    decreases |rows|
  {
    var init := rows[..|rows| - 1];
    var last := rows[|rows| - 1];
    var acc := Aggregate(init);
    var r := Aggregate(rows);
    var c := r[k].asset;
    if !Kept(last.kind) {
      AggregateFields(init, k);
    } else {
      match IndexFrom(acc, last.currency, 0)
      case None =>
        if k < |acc| {
          AggregateFields(init, k);
        } else {
          AggregateAssets(init);
          assert c == last.currency;
          assert LastWrite(init, c, FrozenField).None? && LastWrite(init, c, TradeField).None? by {
            assert c !in SeenCurrencies(init);
            forall i | 0 <= i < |init| && Kept(init[i].kind)
              ensures init[i].currency != c
            {
              assert init[i].currency in SeenCurrencies(init);
            }
          }
        }
      case Some(j) =>
        AggregateFields(init, k);
        assert r[k].asset == acc[k].asset;
    }
  }

  /** Assets appear in the order their first kept row appears. */
  lemma {:induction false} AggregateOrder(rows: seq<BalanceRow>, i: nat, j: nat)
    requires i < j < |Aggregate(rows)|
    ensures Aggregate(rows)[i].asset in SeenCurrencies(rows)
    ensures Aggregate(rows)[j].asset in SeenCurrencies(rows)
    ensures FirstSeen(rows, Aggregate(rows)[i].asset) < FirstSeen(rows, Aggregate(rows)[j].asset)
    decreases |rows|
  {
    var init := rows[..|rows| - 1];
    var last := rows[|rows| - 1];
    var acc := Aggregate(init);
    var r := Aggregate(rows);
    assert init + [last] == rows;
    AggregateAssets(init);
    AggregateAssets(rows);
    assert r[i].asset in AssetsOf(r) && r[j].asset in AssetsOf(r);
    if !Kept(last.kind) || IndexFrom(acc, last.currency, 0).Some? {
      assert forall m :: 0 <= m < |acc| ==> r[m].asset == acc[m].asset;
      AggregateOrder(init, i, j);
      assert acc[i].asset in AssetsOf(acc) && acc[j].asset in AssetsOf(acc);
      FirstSeenSnoc(init, last, r[i].asset);
      FirstSeenSnoc(init, last, r[j].asset);
    } else {
      assert r[i].asset == acc[i].asset;
      assert acc[i].asset in AssetsOf(acc);
      FirstSeenSnoc(init, last, r[i].asset);
      if j < |acc| {
        assert r[j].asset == acc[j].asset;
        AggregateOrder(init, i, j);
        assert acc[j].asset in AssetsOf(acc);
        FirstSeenSnoc(init, last, r[j].asset);
      } else {
        assert r[j].asset == last.currency;
        assert last.currency !in SeenCurrencies(init);
        assert FirstSeen(rows, r[j].asset) == |init|;
      }
    }
  }

  /** The rows that are not skipped, in order. */
  function KeptRows(rows: seq<BalanceRow>): (kept: seq<BalanceRow>)
    ensures forall i :: 0 <= i < |kept| ==> Kept(kept[i].kind)
    decreases |rows|
  {
    if |rows| == 0 then []
    else KeptRows(rows[..|rows| - 1]) + (if Kept(rows[|rows| - 1].kind) then [rows[|rows| - 1]] else [])
  }

  /** Skipping keeps every kept row as often as it occurs, and no skipped
      row. */
  lemma {:induction false} KeptRowsContents(rows: seq<BalanceRow>, row: BalanceRow)
    ensures multiset(KeptRows(rows))[row] == if Kept(row.kind) then multiset(rows)[row] else 0
    decreases |rows|
  {
    if |rows| > 0 {
      var init, last := rows[..|rows| - 1], rows[|rows| - 1];
      assert rows == init + [last];
      KeptRowsContents(init, row);
    }
  }

  /** Interest and loan rows contribute nothing: removing them all leaves
      the aggregated list unchanged. */
  lemma {:induction false} SkippedRowsIgnored(rows: seq<BalanceRow>)
    ensures Aggregate(KeptRows(rows)) == Aggregate(rows)
    decreases |rows|
  {
    if |rows| > 0 {
      var init := rows[..|rows| - 1];
      var last := rows[|rows| - 1];
      SkippedRowsIgnored(init);
      if Kept(last.kind) {
        var kept := KeptRows(init) + [last];
        assert KeptRows(rows) == kept;
        assert kept[..|kept| - 1] == KeptRows(init);
        assert kept[|kept| - 1] == last;
        assert Aggregate(kept) == Step(Aggregate(KeptRows(init)), last);
      } else {
        assert KeptRows(rows) == KeptRows(init) + [];
        assert KeptRows(init) + [] == KeptRows(init);
        assert Aggregate(rows) == Aggregate(init);
      }
    }
  }

  /** `AggregateFields` for every record of the aggregated list at once. */
  lemma AggregateAllFields(rows: seq<BalanceRow>)
    ensures var r := Aggregate(rows);
      forall k :: 0 <= k < |r| ==>
        && r[k].frozen == LastWrite(rows, r[k].asset, FrozenField)
        && r[k].trade == LastWrite(rows, r[k].asset, TradeField)
  {
    forall k | 0 <= k < |Aggregate(rows)| {
      AggregateFields(rows, k);
    }
  }

  /** `HuobiAccountBalances`: the payload of the account-balance request.
      Its row list may be null. */
  datatype AccountBalances = AccountBalances(list: Option<seq<BalanceRow>>)

  /** `GetBalancesAsync` after its request: the basic envelope is unwrapped
      and the payload's row list is handed on. A call that succeeds with a
      null payload throws when the list is read from it; a null list is
      handed on as it is. */
  function FetchBalances(call: Envelopes.Call<Envelopes.BasicEnvelope<AccountBalances>>): (r: Result<Option<seq<BalanceRow>>>)
    ensures Envelopes.Unwrap(call).Err? ==> r == Err(Envelopes.Unwrap(call).error)
    ensures Envelopes.Unwrap(call) == Ok(None) ==> r.Err? && r.error.NullReference?
    ensures r.Ok? <==> Envelopes.Unwrap(call).Ok? && Envelopes.Unwrap(call).value.Some?
    ensures r.Ok? ==> Envelopes.Unwrap(call).value.value.list == r.value
  {
    var payload :- Envelopes.Unwrap(call);
    if payload.None? then Err(NullReference("the balance payload is null"))
    else Ok(payload.value.list)
  }

  /** `IExchangeClient.GetBalancesAsync`: no account id is a returned
      argument error, a failed fetch passes its error on, a null row list
      throws when the loop reads it, and a row list is aggregated. The
      fetch is the result of `GetBalancesAsync`, taken as an input. */
  function CommonBalances(accountId: Option<string>, fetched: Result<Option<seq<BalanceRow>>>): (r: Result<seq<AssetBalance>>)
    ensures accountId.None? ==> r.Err? && r.error.ArgumentError?
    ensures accountId.Some? && fetched.Err? ==> r == Err(fetched.error)
    ensures accountId.Some? && fetched == Ok(None) ==> r.Err? && r.error.NullReference?
    ensures accountId.Some? && fetched.Ok? && fetched.value.Some? ==> r == Ok(Aggregate(fetched.value.value))
    ensures r.Ok? ==> fetched.Ok? && fetched.value.Some? && AssetsOf(r.value) == SeenCurrencies(fetched.value.value)
    ensures r.Ok? ==> forall k :: 0 <= k < |r.value| ==>
      && r.value[k].frozen == LastWrite(fetched.value.value, r.value[k].asset, FrozenField)
      && r.value[k].trade == LastWrite(fetched.value.value, r.value[k].asset, TradeField)
  {
    if accountId.None? then Err(ArgumentError("Huobi needs the accountId parameter for the method GetBalancesAsync"))
    else
      var list :- fetched;
      if list.None? then Err(NullReference("the balance list is null"))
      else
        var rows := list.value;
        AggregateAssets(rows);
        AggregateAllFields(rows);
        Ok(Aggregate(rows))
  }
}
