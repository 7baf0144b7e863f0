/**
 * The shape of the agent's table (`q_table`) and equality of tables by their
 * entries.
 */
module QTable {
  import opened Logic

  /** One row of the table: action (cell index) to value. */
  type Row = map<int, real>

  /** `q_table`: state key to row. The state key of a board is the board itself. */
  type Table = map<Board, Row>

  /** Two maps with the same entries are the same map; used for rows and tables. */
  lemma SameMap<K, V>(m1: map<K, V>, m2: map<K, V>)
    requires forall k :: k in m2 ==> k in m1 && m1[k] == m2[k]
    requires forall k :: k in m1 ==> k in m2
    ensures m1 == m2
  {
    assert m1.Keys == m2.Keys;
  }
}
