/** An enum converter's `Mapping`: an ordered list of (enum value, wire
    string) pairs. Writing a value emits the wire string of the first pair
    listing that value; reading a wire string yields the value of the first
    pair listing that string. This module states when such a table is a
    bijection between its values and its wire strings. */
module WireTable {
  import opened Results

  type Table<E> = seq<(E, string)>

  /** The wire string written for `e`: the first pair whose value is `e`. */
  function WireOf<E(==)>(table: Table<E>, e: E): (r: Option<string>)
    ensures r.None? <==> forall i :: 0 <= i < |table| ==> table[i].0 != e
    ensures r.Some? ==> exists i :: 0 <= i < |table| && table[i] == (e, r.value)
  {
    if |table| == 0 then None
    else if table[0].0 == e then Some(table[0].1)
    else
      var r := WireOf(table[1..], e);
      assert forall i :: 1 <= i < |table| ==> table[i] == table[1..][i - 1];
      r
  }

  /** The value read from the wire string `w`: the first pair whose string
      is `w`. */
  function ValueOf<E>(table: Table<E>, w: string): (r: Option<E>)
    ensures r.None? <==> forall i :: 0 <= i < |table| ==> table[i].1 != w
    ensures r.Some? ==> exists i :: 0 <= i < |table| && table[i] == (r.value, w)
  {
    if |table| == 0 then None
    else if table[0].1 == w then Some(table[0].0)
    else
      var r := ValueOf(table[1..], w);
      assert forall i :: 1 <= i < |table| ==> table[i] == table[1..][i - 1];
      r
  }

  /** How many pairs of the table list the value `e`. */
  function EntriesFor<E(==)>(table: Table<E>, e: E): nat
  {
    if |table| == 0 then 0
    else (if table[0].0 == e then 1 else 0) + EntriesFor(table[1..], e)
  }

  predicate Lists<E(==)>(table: Table<E>, e: E)
  {
    exists i :: 0 <= i < |table| && table[i].0 == e
  }

  /** No two pairs share a value. */
  predicate ValuesDistinct<E(==)>(table: Table<E>)
  {
    forall i, j :: 0 <= i < j < |table| ==> table[i].0 != table[j].0
  }

  /** No two pairs share a wire string. */
  predicate WiresDistinct<E>(table: Table<E>)
  {
    forall i, j :: 0 <= i < j < |table| ==> table[i].1 != table[j].1
  }

  /** In a table without repeated values, a listed value has exactly one
      pair, and an unlisted one has none. */
  lemma {:induction false} EntriesForDistinct<E>(table: Table<E>, e: E)
    requires ValuesDistinct(table)
    ensures EntriesFor(table, e) == if Lists(table, e) then 1 else 0
    decreases |table|
  {
    if |table| > 0 {
      var tail := table[1..];
      assert ValuesDistinct(tail) by {
        forall i, j | 0 <= i < j < |tail|
          ensures tail[i].0 != tail[j].0
        {
          assert tail[i] == table[i + 1] && tail[j] == table[j + 1];
        }
      }
      EntriesForDistinct(tail, e);
      assert Lists(table, e) <==> table[0].0 == e || Lists(tail, e) by {
        if Lists(tail, e) {
          var k :| 0 <= k < |tail| && tail[k].0 == e;
          assert table[k + 1].0 == e;
        }
        if Lists(table, e) && table[0].0 != e {
          var k :| 0 <= k < |table| && table[k].0 == e;
          assert tail[k - 1].0 == e;
        }
      }
      if table[0].0 == e {
        forall k | 0 <= k < |tail|
          ensures tail[k].0 != e
        {
          assert tail[k] == table[k + 1];
        }
      }
    }
  }

  /** Reading back what was written gives the value written, as long as
      no wire string is listed twice. */
  lemma ReadAfterWrite<E>(table: Table<E>, e: E)
    requires WiresDistinct(table)
    requires Lists(table, e)
    ensures WireOf(table, e).Some?
    ensures ValueOf(table, WireOf(table, e).value) == Some(e)
  {
    var w := WireOf(table, e).value;
    var i :| 0 <= i < |table| && table[i] == (e, w);
    var j :| 0 <= j < |table| && table[j] == (ValueOf(table, w).value, w);
    assert table[i].1 == table[j].1;
  }

  /** The wire strings a table accepts. */
  function Wires<E>(table: Table<E>): set<string>
  {
    set i | 0 <= i < |table| :: table[i].1
  }

  /** A converter writing a value the table lists: the string of a pair
      listing it, and, when no value is listed twice, the string of every
      such pair. */
  function Write<E(==)>(table: Table<E>, e: E): (w: string)
    requires Lists(table, e)
    ensures w in Wires(table)
    ensures exists i :: 0 <= i < |table| && table[i] == (e, w)
    ensures ValuesDistinct(table) ==> forall i :: 0 <= i < |table| && table[i].0 == e ==> table[i].1 == w
  {
    var r := WireOf(table, e);
    var i :| 0 <= i < |table| && table[i] == (e, r.value);
    assert table[i].1 in Wires(table);
    r.value
  }

  /** A converter reading a wire string from a table that lists no value
      twice: a value exactly for the accepted strings, and writing that
      value gives the string back. */
  function Read<E(==)>(table: Table<E>, w: string): (r: Option<E>)
    requires ValuesDistinct(table)
    ensures r.Some? <==> w in Wires(table)
    ensures r.Some? ==> Lists(table, r.value) && Write(table, r.value) == w
  {
    var r := ValueOf(table, w);
    if r.Some? then
      var i :| 0 <= i < |table| && table[i] == (r.value, w);
      assert Lists(table, r.value);
      r
    else r
  }
}
