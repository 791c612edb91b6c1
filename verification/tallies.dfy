/** Totals grouped by key, built one item at a time in the order of first appearance. */
module Tallies {
  import opened Options
  import opened OrderedMaps

  datatype Item<K, T> = Item(key: K, tag: T, amount: int)

  datatype Row<T> = Row(tag: T, amount: int, count: nat)

  type Tally<K, T> = OMap<K, Row<T>>

  /** A new row takes the tag of its first item and keeps it. */
  function Add<K(==), T>(m: Tally<K, T>, e: Item<K, T>): Tally<K, T> {
    match Find(m, e.key)
    case None => Put(m, e.key, Row(e.tag, e.amount, 1))
    case Some(row) => Put(m, e.key, Row(row.tag, row.amount + e.amount, row.count + 1))
  }

  function TallyOf<K(==), T>(items: seq<Item<K, T>>): Tally<K, T> {
    if items == [] then [] else Add(TallyOf(items[..|items| - 1]), items[|items| - 1])
  }

  lemma TallyOfAppend<K, T>(items: seq<Item<K, T>>, e: Item<K, T>)
    ensures TallyOf(items + [e]) == Add(TallyOf(items), e)
  {
    assert (items + [e])[..|items|] == items;
  }

  // ---- What the rows must say ----

  function AmountOf<K, T>(items: seq<Item<K, T>>): int {
    if items == [] then 0 else AmountOf(items[..|items| - 1]) + items[|items| - 1].amount
  }

  /** The items of one key, in order. */
  function Under<K(==), T>(items: seq<Item<K, T>>, k: K): seq<Item<K, T>> {
    if items == [] then []
    else
      var last := items[|items| - 1];
      Under(items[..|items| - 1], k) + (if last.key == k then [last] else [])
  }

  lemma RowAfterAdd<K, T>(m: Tally<K, T>, e: Item<K, T>, k: K)
    ensures Find(Add(m, e), k)
            == if e.key != k then Find(m, k)
               else if Find(m, k).Some?
               then Some(Row(Find(m, k).value.tag, Find(m, k).value.amount + e.amount, Find(m, k).value.count + 1))
               else Some(Row(e.tag, e.amount, 1))
  {
    hide Find, Put;
    if e.key != k {
      match Find(m, e.key)
      case None => PutSparesOthers(m, e.key, Row(e.tag, e.amount, 1), k);
      case Some(row) => PutSparesOthers(m, e.key, Row(row.tag, row.amount + e.amount, row.count + 1), k);
    }
  }

  lemma AmountOfAppend<K, T>(items: seq<Item<K, T>>, e: Item<K, T>)
    ensures AmountOf(items + [e]) == AmountOf(items) + e.amount
  {
    assert (items + [e])[..|items|] == items;
  }

  lemma NoAmount<K, T>()
    ensures AmountOf<K, T>([]) == 0
  {
  }

  /** What a key's items say of its row. */
  function RowFor<K, T>(mine: seq<Item<K, T>>): Option<Row<T>> {
    if mine == [] then None else Some(Row(mine[0].tag, AmountOf(mine), |mine|))
  }

  lemma RowForAppend<K, T>(mine: seq<Item<K, T>>, e: Item<K, T>)
    ensures RowFor(mine + [e])
            == Some(if mine == [] then Row(e.tag, e.amount, 1)
                    else Row(mine[0].tag, AmountOf(mine) + e.amount, |mine| + 1))
  {
    AmountOfAppend(mine, e);
    NoAmount<K, T>();
    hide AmountOf;
  }

  lemma RowStep<K, T>(m: Tally<K, T>, e: Item<K, T>, k: K, mine: seq<Item<K, T>>)
    requires Find(m, k) == RowFor(mine)
    ensures Find(Add(m, e), k) == RowFor(mine + if e.key == k then [e] else [])
  {
    hide Find, Add, AmountOf;
    RowAfterAdd(m, e, k);
    RowForAppend(mine, e);
    assert mine + [] == mine;
  }

  /** The row of a key holds exactly its items: their sum, their number, the first one's tag. */
  lemma {:induction false} RowOfTally<K, T>(items: seq<Item<K, T>>, k: K)
    ensures Find(TallyOf(items), k) == RowFor(Under(items, k))
  {
    hide Find, Add, RowFor;
    if items == [] {
      NoRow<K, T>(k);
    } else {
      RowOfTally(items[..|items| - 1], k);
      RowStep(TallyOf(items[..|items| - 1]), items[|items| - 1], k, Under(items[..|items| - 1], k));
    }
  }

  lemma NoRow<K, T>(k: K)
    ensures Find<K, Row<T>>([], k) == RowFor<K, T>([])
  {
  }

  /** The sum of one column over a map's entries. */
  function Column<K, V>(m: OMap<K, V>, column: V -> int): int {
    if m == [] then 0 else column(m[0].1) + Column(m[1..], column)
  }

  /** Setting an entry changes a column by the difference it makes. */
  lemma {:induction false} ColumnOfPut<K, V>(m: OMap<K, V>, k: K, v: V, column: V -> int)
    ensures Column(Put(m, k, v), column)
            == Column(m, column) + column(v) - (if Find(m, k).Some? then column(Find(m, k).value) else 0)
  {
    if m == [] {
      assert Put(m, k, v) == [(k, v)] && [(k, v)][1..] == [];
    } else if m[0].0 == k {
      assert ([(k, v)] + m[1..])[1..] == m[1..];
    } else {
      ColumnOfPut(m[1..], k, v, column);
      assert ([m[0]] + Put(m[1..], k, v))[1..] == Put(m[1..], k, v);
    }
  }

  function RowAmount<T>(row: Row<T>): int { row.amount }

  lemma ColumnAfterAdd<K, T>(m: Tally<K, T>, e: Item<K, T>)
    ensures Column(Add(m, e), RowAmount) == Column(m, RowAmount) + e.amount
  {
    hide Find, Put, Column;
    match Find(m, e.key)
    case None => ColumnOfPut(m, e.key, Row(e.tag, e.amount, 1), RowAmount);
    case Some(row) => ColumnOfPut(m, e.key, Row(row.tag, row.amount + e.amount, row.count + 1), RowAmount);
  }

  /** The rows add up to everything that was put in. */
  lemma {:induction false} RowsAddUp<K, T>(items: seq<Item<K, T>>)
    ensures Column(TallyOf(items), RowAmount) == AmountOf(items)
  {
    if items != [] {
      RowsAddUp(items[..|items| - 1]);
      ColumnAfterAdd(TallyOf(items[..|items| - 1]), items[|items| - 1]);
      hide Add;
    }
  }
}
