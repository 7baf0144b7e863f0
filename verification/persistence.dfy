/**
 * Saving and loading the agent's table (`guardar_conocimiento`,
 * `cargar_conocimiento`) as the JSON document they exchange: a state key is
 * written as the text of the board tuple, `('X', ' ', 'O', ...)`, and read
 * back by evaluating that literal; an action key is written as the decimal
 * text of the integer and read back with `int`. The file itself is left
 * out: loading takes what reading the file produced.
 */
module Persistence {
  import opened Wrappers
  import opened Logic
  import opened QTable
  import opened QLearning

  /** The JSON object on disk: state text to (action text to value). */
  type Document = map<string, map<string, real>>

  // ---------------------------------------------------------------------------
  // State keys
  // ---------------------------------------------------------------------------

  /** The character inside the quotes for each cell. */
  function CellChar(c: Cell): char {
    match c
    case Blank => ' '
    case X => 'X'
    case O => 'O'
  }

  function CharCell(ch: char): Option<Cell> {
    if ch == ' ' then Some(Blank)
    else if ch == 'X' then Some(X)
    else if ch == 'O' then Some(O)
    else None
  }

  /** The text of a non-empty run of cells: `'X', ' ', 'O'`. */
  function EncodeCells(cs: seq<Cell>): (r: string)
    requires |cs| > 0
    ensures |r| == 5 * |cs| - 2
  {
    var item := ['\'', CellChar(cs[0]), '\''];
    if |cs| == 1 then item else item + ", " + EncodeCells(cs[1..])
  }

  /** `str(tuple(board))`. */
  function EncodeKey(b: Board): (r: string)
    ensures |r| == 45
  {
    "(" + EncodeCells(b) + ")"
  }

  /** Reads exactly `n` quoted cells separated by `, `. */
  function DecodeCells(s: string, n: nat): (r: Option<seq<Cell>>)
    requires n > 0
    ensures r.Some? ==> |r.value| == n && |s| == 5 * n - 2
    decreases n
  {
    if |s| < 3 || s[0] != '\'' || s[2] != '\'' || CharCell(s[1]).None? then None
    else if n == 1 then (if |s| == 3 then Some([CharCell(s[1]).value]) else None)
    else if |s| < 5 || s[3] != ',' || s[4] != ' ' then None
    else
      var rest := DecodeCells(s[5..], n - 1);
      if rest.None? then None else Some([CharCell(s[1]).value] + rest.value)
  }

  /**
   * `ast.literal_eval` of a state key, restricted to the text `str` writes
   * for a board: a parenthesised list of nine quoted cells.
   */
  function DecodeKey(s: string): (r: Option<Board>)
    ensures r.Some? ==> |s| == 45 && s[0] == '(' && s[44] == ')'
  {
    if |s| < 2 || s[0] != '(' || s[|s| - 1] != ')' then None
    else
      var cells := DecodeCells(s[1..|s| - 1], 9);
      if cells.None? then None else Some(cells.value)
  }

  lemma {:induction false} DecodeEncodeCells(cs: seq<Cell>)
    requires |cs| > 0
    ensures DecodeCells(EncodeCells(cs), |cs|) == Some(cs)
    decreases |cs|
  {
    var e := EncodeCells(cs);
    assert CharCell(CellChar(cs[0])) == Some(cs[0]);
    assert e[0] == '\'' && e[1] == CellChar(cs[0]) && e[2] == '\'';
    if |cs| > 1 {
      var tail := cs[1..];
      DecodeEncodeCells(tail);
      assert e[3] == ',' && e[4] == ' ';
      assert e[5..] == EncodeCells(tail);
      assert DecodeCells(e[5..], |cs| - 1) == Some(tail);
      assert [cs[0]] + tail == cs;
    } else {
      assert |e| == 3 && [cs[0]] == cs;
    }
  }

  lemma {:induction false} EncodeDecodeCells(s: string, n: nat)
    requires n > 0
    requires DecodeCells(s, n).Some?
    ensures EncodeCells(DecodeCells(s, n).value) == s
    decreases n
  {
    var cs := DecodeCells(s, n).value;
    assert CellChar(CharCell(s[1]).value) == s[1];
    if n == 1 {
      assert EncodeCells(cs) == ['\'', s[1], '\''] == s;
    } else {
      EncodeDecodeCells(s[5..], n - 1);
      assert cs[1..] == DecodeCells(s[5..], n - 1).value;
      assert s == s[..5] + s[5..];
    }
  }

  /** Reading a written key gives the board back. */
  lemma DecodeEncodeKey(b: Board)
    ensures DecodeKey(EncodeKey(b)) == Some(b)
  {
    var e := EncodeKey(b);
    DecodeEncodeCells(b);
    assert e[1..|e| - 1] == EncodeCells(b);
  }

  /** Only the text written for a board is read as that board. */
  lemma EncodeDecodeKey(s: string)
    requires DecodeKey(s).Some?
    ensures EncodeKey(DecodeKey(s).value) == s
  {
    EncodeDecodeCells(s[1..|s| - 1], 9);
    assert s == "(" + s[1..|s| - 1] + ")";
  }

  /** Different boards are written as different keys. */
  lemma EncodeKeyInjective()
    ensures forall b1: Board, b2: Board :: EncodeKey(b1) == EncodeKey(b2) ==> b1 == b2
  {
    forall b1: Board, b2: Board | EncodeKey(b1) == EncodeKey(b2)
      ensures b1 == b2
    {
      DecodeEncodeKey(b1);
      DecodeEncodeKey(b2);
    }
  }

  // ---------------------------------------------------------------------------
  // Action keys
  // ---------------------------------------------------------------------------

  function DigitChar(d: int): char
    requires 0 <= d < 10
  {
    "0123456789"[d]
  }

  function CharDigit(ch: char): Option<int> {
    if '0' <= ch <= '9' then Some(ch as int - '0' as int) else None
  }

  /** The decimal digits of `n`, most significant first, without leading zeros. */
  function Digits(n: nat): (r: string)
    ensures |r| > 0 && '0' <= r[0] <= '9'
    ensures r[0] != '0' || n == 0
  {
    if n < 10 then [DigitChar(n)] else Digits(n / 10) + [DigitChar(n % 10)]
  }

  /** `str(n)`, which is what JSON writes for an integer key. */
  function EncodeInt(n: int): (r: string)
    ensures |r| > 0 && (r[0] == '-' <==> n < 0)
  {
    if n < 0 then "-" + Digits(-n) else Digits(n)
  }

  /** The value of a string of decimal digits, if it is one. */
  function DigitsValue(s: string): (r: Option<nat>)
    decreases |s|
  {
    if |s| == 0 then Some(0)
    else
      var init := DigitsValue(s[..|s| - 1]);
      var d := CharDigit(s[|s| - 1]);
      if init.None? || d.None? then None else Some(init.value * 10 + d.value)
  }

  /** Digits without a superfluous leading zero. */
  predicate Canonical(s: string) {
    |s| > 0 && (s[0] != '0' || |s| == 1)
  }

  /**
   * `int(text)`, restricted to the text `str` writes for an integer:
   * canonical digits with an optional `-` in front of a non-zero value.
   */
  function ParseInt(s: string): (r: Option<int>)
    ensures r.Some? ==> |s| > 0 && (s[0] == '-' <==> r.value < 0)
  {
    if |s| > 0 && s[0] == '-' then
      var t := s[1..];
      var v := DigitsValue(t);
      if Canonical(t) && v.Some? && v.value != 0 then Some(-(v.value as int)) else None
    else
      var v := DigitsValue(s);
      if Canonical(s) && v.Some? then Some(v.value) else None
  }

  lemma {:induction false} DigitsRoundTrip(n: nat)
    ensures DigitsValue(Digits(n)) == Some(n)
    decreases n
  {
    var ds := Digits(n);
    if n < 10 {
      assert ds[..0] == [];
    } else {
      DigitsRoundTrip(n / 10);
      assert ds[..|ds| - 1] == Digits(n / 10);
    }
  }

  lemma {:induction false} DigitsValueCanonical(s: string)
    requires Canonical(s) && DigitsValue(s).Some?
    ensures Digits(DigitsValue(s).value) == s
    decreases |s|
  {
    var v := DigitsValue(s).value;
    if |s| == 1 {
      assert s[..0] == [];
      assert DigitChar(v) == s[0];
    } else {
      var init := s[..|s| - 1];
      var d := CharDigit(s[|s| - 1]).value;
      assert init[0] == s[0];
      DigitsValueCanonical(init);
      LeadingDigitPositive(init);
      assert v == DigitsValue(init).value * 10 + d;
      assert v / 10 == DigitsValue(init).value && v % 10 == d;
      assert DigitChar(d) == s[|s| - 1];
      assert s == init + [s[|s| - 1]];
    }
  }

  /** A canonical digit string of two or more digits has a positive value. */
  lemma {:induction false} LeadingDigitPositive(s: string)
    requires Canonical(s) && DigitsValue(s).Some?
    ensures |s| > 1 || s[0] != '0' ==> DigitsValue(s).value > 0
    decreases |s|
  {
    if |s| > 1 {
      var init := s[..|s| - 1];
      assert init[0] == s[0];
      LeadingDigitPositive(init);
    } else {
      assert s[..0] == [];
    }
  }

  /** Reading a written action key gives the integer back. */
  lemma ParseEncodeInt(n: int)
    ensures ParseInt(EncodeInt(n)) == Some(n)
  {
    if n < 0 {
      DigitsRoundTrip(-n);
      assert EncodeInt(n)[1..] == Digits(-n);
    } else {
      DigitsRoundTrip(n);
    }
  }

  /** Only the text written for an integer is read as that integer. */
  lemma EncodeParseInt(s: string)
    requires ParseInt(s).Some?
    ensures EncodeInt(ParseInt(s).value) == s
  {
    if |s| > 0 && s[0] == '-' {
      DigitsValueCanonical(s[1..]);
      assert s == "-" + s[1..];
    } else {
      DigitsValueCanonical(s);
    }
  }

  lemma EncodeIntInjective()
    ensures forall m: int, n: int :: EncodeInt(m) == EncodeInt(n) ==> m == n
  {
    forall m: int, n: int | EncodeInt(m) == EncodeInt(n)
      ensures m == n
    {
      ParseEncodeInt(m);
      ParseEncodeInt(n);
    }
  }

  // ---------------------------------------------------------------------------
  // Maps with text keys
  // ---------------------------------------------------------------------------

  /** `dec` reads back exactly the texts `enc` writes. */
  ghost predicate Inverse<K(!new)>(enc: K -> string, dec: string -> Option<K>) {
    (forall x :: dec(enc(x)) == Some(x)) &&
    (forall s :: dec(s).Some? ==> enc(dec(s).value) == s)
  }

  lemma BoardCodec()
    ensures Inverse(EncodeKey, DecodeKey)
  {
    forall b: Board
      ensures DecodeKey(EncodeKey(b)) == Some(b)
    {
      DecodeEncodeKey(b);
    }
    forall s | DecodeKey(s).Some?
      ensures EncodeKey(DecodeKey(s).value) == s
    {
      EncodeDecodeKey(s);
    }
  }

  lemma IntCodec()
    ensures Inverse(EncodeInt, ParseInt)
  {
    forall n: int
      ensures ParseInt(EncodeInt(n)) == Some(n)
    {
      ParseEncodeInt(n);
    }
    forall s | ParseInt(s).Some?
      ensures EncodeInt(ParseInt(s).value) == s
    {
      EncodeParseInt(s);
    }
  }

  /** A map with every key written as text, as `json.dump` writes a dict. */
  function EncodeKeys<K(!new), V>(m: map<K, V>, enc: K -> string, ghost dec: string -> Option<K>): (r: map<string, V>)
    requires Inverse(enc, dec)
    ensures forall x :: x in m <==> enc(x) in r
    ensures forall x :: x in m ==> r[enc(x)] == m[x]
    ensures forall s :: s in r ==> dec(s).Some?
  {
    map x | x in m :: enc(x) := m[x]
  }

  /** Reads every key of `m` back, failing if any of them cannot be read. */
  function DecodeKeys<K(!new), V>(m: map<string, V>, dec: string -> Option<K>, ghost enc: K -> string): (r: Option<map<K, V>>)
    requires Inverse(enc, dec)
    ensures r.Some? <==> forall s :: s in m ==> dec(s).Some?
    ensures r.Some? ==> forall x :: x in r.value <==> enc(x) in m
    ensures r.Some? ==> forall x :: x in r.value ==> r.value[x] == m[enc(x)]
  {
    if forall s :: s in m ==> dec(s).Some? then
      var d := map s | s in m :: dec(s).value := m[s];
      assert forall x :: enc(x) in m ==> dec(enc(x)) == Some(x);
      Some(d)
    else None
  }

  /** Reading back what was written gives the map back. */
  lemma DecodeEncodeKeys<K(!new), V>(m: map<K, V>, enc: K -> string, dec: string -> Option<K>)
    requires Inverse(enc, dec)
    ensures DecodeKeys(EncodeKeys(m, enc, dec), dec, enc) == Some(m)
  {
    var d := DecodeKeys(EncodeKeys(m, enc, dec), dec, enc).value;
    SameMap(d, m);
  }

  /** A map whose keys all read back is exactly what writing the read map gives. */
  lemma EncodeDecodeKeys<K(!new), V>(m: map<string, V>, dec: string -> Option<K>, enc: K -> string)
    requires Inverse(enc, dec)
    requires DecodeKeys(m, dec, enc).Some?
    ensures EncodeKeys(DecodeKeys(m, dec, enc).value, enc, dec) == m
  {
    var e := EncodeKeys(DecodeKeys(m, dec, enc).value, enc, dec);
    forall s | s in m
      ensures s in e && e[s] == m[s]
    {
      assert enc(dec(s).value) == s;
    }
    SameMap(e, m);
  }

  // ---------------------------------------------------------------------------
  // Whole tables
  // ---------------------------------------------------------------------------

  /** One row as JSON writes it: integer keys become their decimal text. */
  function EncodeRow(row: Row): (r: map<string, real>)
    ensures forall a :: a in row <==> EncodeInt(a) in r
    ensures forall a :: a in row ==> r[EncodeInt(a)] == row[a]
  {
    IntCodec();
    EncodeKeys(row, EncodeInt, ParseInt)
  }

  /** `{int(m): valor for m, valor in v.items()}`, failing if some key is not an integer. */
  function DecodeRow(row: map<string, real>): (r: Option<Row>)
    ensures r.Some? <==> forall k :: k in row ==> ParseInt(k).Some?
    ensures r.Some? ==> forall a :: a in r.value <==> EncodeInt(a) in row
    ensures r.Some? ==> forall a :: a in r.value ==> r.value[a] == row[EncodeInt(a)]
  {
    IntCodec();
    DecodeKeys(row, ParseInt, EncodeInt)
  }

  /** Every row the program writes is read back unchanged. */
  lemma DecodeEncodeRow(row: Row)
    ensures DecodeRow(EncodeRow(row)) == Some(row)
  {
    IntCodec();
    DecodeEncodeKeys(row, EncodeInt, ParseInt);
  }

  /** A row whose keys all read back is exactly what writing the read row gives. */
  lemma EncodeDecodeRow(row: map<string, real>)
    requires DecodeRow(row).Some?
    ensures EncodeRow(DecodeRow(row).value) == row
  {
    IntCodec();
    EncodeDecodeKeys(row, ParseInt, EncodeInt);
  }

  /** Every row of the table written with integer keys as text. */
  function EncodeRows<K>(m: map<K, Row>): (r: map<K, map<string, real>>)
    ensures r.Keys == m.Keys
    ensures forall x :: x in m ==> r[x] == EncodeRow(m[x])
  {
    map x | x in m :: EncodeRow(m[x])
  }

  /** Every row read back, failing if any action key cannot be read. */
  function DecodeRows<K>(m: map<K, map<string, real>>): (r: Option<map<K, Row>>)
    ensures r.Some? <==> forall x :: x in m ==> DecodeRow(m[x]).Some?
    ensures r.Some? ==> r.value.Keys == m.Keys
    ensures r.Some? ==> forall x :: x in m ==> DecodeRow(m[x]) == Some(r.value[x])
  {
    if forall x :: x in m ==> DecodeRow(m[x]).Some? then
      Some(map x | x in m :: DecodeRow(m[x]).value)
    else None
  }

  lemma DecodeEncodeRows<K>(m: map<K, Row>)
    ensures DecodeRows(EncodeRows(m)) == Some(m)
  {
    var e := EncodeRows(m);
    forall x | x in e
      ensures DecodeRow(e[x]) == Some(m[x])
    {
      DecodeEncodeRow(m[x]);
    }
    SameMap(DecodeRows(e).value, m);
  }

  lemma EncodeDecodeRows<K>(m: map<K, map<string, real>>)
    requires DecodeRows(m).Some?
    ensures EncodeRows(DecodeRows(m).value) == m
  {
    var e := EncodeRows(DecodeRows(m).value);
    forall x | x in m
      ensures e[x] == m[x]
    {
      EncodeDecodeRow(m[x]);
    }
    SameMap(e, m);
  }

  /** `{str(k): {str(m): v ...} for k, v in q_table.items()}` as `json.dump` writes it. */
  function Save(table: Table): (r: Document)
    ensures forall b :: b in table <==> EncodeKey(b) in r
    ensures forall b :: b in table ==> r[EncodeKey(b)] == EncodeRow(table[b])
    ensures forall s :: s in r ==> DecodeKey(s).Some? && DecodeKey(s).value in table
  {
    BoardCodec();
    EncodeKeys(EncodeRows(table), EncodeKey, DecodeKey)
  }

  /** The loop of `cargar_conocimiento`: every state key and every action key must be read. */
  function DecodeTable(doc: Document): (r: Option<Table>)
    ensures r.Some? <==> forall k :: k in doc ==> DecodeKey(k).Some? && DecodeRow(doc[k]).Some?
    ensures r.Some? ==> forall b :: b in r.value <==> EncodeKey(b) in doc
    ensures r.Some? ==> forall b :: b in r.value ==> DecodeRow(doc[EncodeKey(b)]) == Some(r.value[b])
  {
    BoardCodec();
    var boards := DecodeKeys(doc, DecodeKey, EncodeKey);
    if boards.None? then None else DecodeRows(boards.value)
  }

  /** What reading the file produced: no file, a file `json.load` rejects, or a document. */
  datatype LoadInput = Missing | Unreadable | Parsed(doc: Document)

  /**
   * `cargar_conocimiento`: without a file nothing changes; a document whose
   * keys all read back replaces the table and sets epsilon to 0.0; any
   * failure leaves an empty table and epsilon as it was.
   */
  function Load(agent: Agent, input: LoadInput): (r: Agent)
    ensures r.alpha == agent.alpha && r.gamma == agent.gamma
    ensures input.Missing? ==> r == agent
    ensures input.Unreadable? ==> r.table == map[] && r.epsilon == agent.epsilon
    ensures input.Parsed? && DecodeTable(input.doc).Some? ==>
              r.table == DecodeTable(input.doc).value && r.epsilon == 0.0
    ensures input.Parsed? && DecodeTable(input.doc).None? ==> r.table == map[] && r.epsilon == agent.epsilon
    ensures input.Parsed? ==> forall b :: b in r.table <==> EncodeKey(b) in input.doc && DecodeTable(input.doc).Some?
  {
    match input
    case Missing => agent
    case Unreadable => agent.(table := map[])
    case Parsed(doc) =>
      var t := DecodeTable(doc);
      if t.Some? then agent.(table := t.value, epsilon := 0.0) else agent.(table := map[])
  }

  /** Saving and then loading gives back the same table, with epsilon 0.0. */
  lemma LoadSaveRoundTrip(agent: Agent, table: Table)
    ensures Load(agent, Parsed(Save(table))) == agent.(table := table, epsilon := 0.0)
  {
    BoardCodec();
    DecodeEncodeKeys(EncodeRows(table), EncodeKey, DecodeKey);
    DecodeEncodeRows(table);
  }

  /** A document that loads is exactly the document saving the loaded table writes. */
  lemma SaveLoadRoundTrip(agent: Agent, doc: Document)
    requires DecodeTable(doc).Some?
    ensures Load(agent, Parsed(doc)).table == DecodeTable(doc).value
    ensures Save(Load(agent, Parsed(doc)).table) == doc
  {
    BoardCodec();
    var boards := DecodeKeys(doc, DecodeKey, EncodeKey).value;
    var t := DecodeRows(boards).value;
    assert DecodeTable(doc).value == t;
    EncodeDecodeRows(boards);
    EncodeDecodeKeys(doc, DecodeKey, EncodeKey);
    assert Save(t) == EncodeKeys(boards, EncodeKey, DecodeKey);
  }
}
