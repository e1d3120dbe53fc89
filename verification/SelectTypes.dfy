/** Cells, conditions and how the two places that evaluate conditions compare cells. */
module SelectTypes {

  type Name = string

  datatype Cell = IntCell(v: int) | TextCell(s: string)

  type Row = seq<Cell>

  datatype Attr = Attr(table: Name, field: Name)

  /** Column names of a set of rows. */
  type Schema = seq<Attr>

  datatype Comp = EqualTo | LessEqual | NotEqual | LessThan | GreatEqual | GreatThan

  /** One side of a condition: a resolved attribute or an immediate value. */
  datatype Operand = Col(attr: Attr) | Imm(cell: Cell)

  datatype Condition = Condition(left: Operand, comp: Comp, right: Operand)

  /** A table whose visible records all have one cell for each field. */
  datatype Table = Table(name: Name, fields: seq<Name>, records: seq<Row>)

  /** Something asked for: all columns, all columns of one table, or one column. */
  datatype Item = Star | TableStar(table: Name) | Field(attr: Attr)

  datatype Query = Query(tables: seq<Table>, conds: seq<Condition>, selected: seq<Item>)

  // ---------------------------------------------------------------- comparing

  const TWO31 := 0x8000_0000
  const TWO32 := 0x1_0000_0000

  /** The value of a 32-bit int that holds `n` modulo 2^32. */
  function Wrap32(n: int): (r: int)
    ensures -TWO31 <= r < TWO31 && (r - n) % TWO32 == 0
    ensures -TWO31 <= n < TWO31 ==> r == n
  {
    (n + TWO31) % TWO32 - TWO31
  }

  /** Difference of the first characters that differ, a missing character counting as zero. */
  function StrCmp(s: string, t: string): int {
    if s == [] then (if t == [] then 0 else -(t[0] as int))
    else if t == [] then s[0] as int
    else if s[0] != t[0] then s[0] as int - t[0] as int
    else StrCmp(s[1..], t[1..])
  }

  /** Integers are compared by their 32-bit difference. */
  function Compare(l: Cell, r: Cell): int {
    match (l, r)
    case (IntCell(a), IntCell(b)) => Wrap32(a - b)
    case (TextCell(s), TextCell(t)) => StrCmp(s, t)
    case _ => 0
  }

  function MatchResult(c: Comp, n: int): bool {
    match c
    case EqualTo => n == 0
    case LessEqual => n <= 0
    case NotEqual => n != 0
    case LessThan => n < 0
    case GreatEqual => n >= 0
    case GreatThan => n > 0
  }

  function Lower(c: char): char {
    if 'A' <= c <= 'Z' then (c as int + 32) as char else c
  }

  /** A text that reads "null" in any mixture of cases. */
  predicate IsNull(c: Cell) {
    match c
    case IntCell(_) => false
    case TextCell(s) => |s| == 4 && Lower(s[0]) == 'n' && Lower(s[1]) == 'u' && Lower(s[2]) == 'l' && Lower(s[3]) == 'l'
  }

  /** The number that four characters in an integer column are, the first character in the lowest byte. */
  function Bytes(s: string): int
    requires |s| == 4
  {
    s[0] as int + 0x100 * (s[1] as int) + 0x1_0000 * (s[2] as int) + 0x100_0000 * (s[3] as int)
  }

  /** What the filter compares with cell `other`: a null stored in an integer column is read as a number. */
  function Stored(c: Cell, other: Cell): Cell {
    if IsNull(c) && other.IntCell? then IntCell(Bytes(c.s)) else c
  }

  /** The condition filter of a single table, which looks at the stored bytes. */
  predicate FilterHolds(c: Comp, l: Cell, r: Cell) {
    MatchResult(c, Compare(Stored(l, r), Stored(r, l)))
  }

  /** The arbiter of a join: a null on either side fails every comparison. */
  predicate JudgeHolds(c: Comp, l: Cell, r: Cell) {
    !IsNull(l) && !IsNull(r) && MatchResult(c, Compare(l, r))
  }

  /** The same comparison pushed down to a table is answered differently exactly when a null is compared successfully. */
  lemma PushdownDiffers(c: Comp, l: Cell, r: Cell)
    ensures FilterHolds(c, l, r) != JudgeHolds(c, l, r) <==> (IsNull(l) || IsNull(r)) && FilterHolds(c, l, r)
  {
  }

  /** As a filter, an integer column that holds a null is found greater than 5. */
  lemma NullAsNumber()
    ensures FilterHolds(GreatThan, TextCell("null"), IntCell(5)) && !JudgeHolds(GreatThan, TextCell("null"), IntCell(5))
  {
    assert IsNull(TextCell("null"));
    assert Bytes("null") == 1819047278;
  }

  /** The integer comparison is right exactly when the difference fits, or the comparison is for equality. */
  lemma IntCompareExact(a: int, b: int)
    requires -TWO31 <= a < TWO31 && -TWO31 <= b < TWO31
    ensures (Compare(IntCell(a), IntCell(b)) == 0) <==> a == b
    ensures ((Compare(IntCell(a), IntCell(b)) < 0) == (a < b)) <==> -TWO31 <= a - b < TWO31
  {
    assert a - b >= TWO31 ==> Wrap32(a - b) == a - b - TWO32;
    assert a - b < -TWO31 ==> Wrap32(a - b) == a - b + TWO32;
  }

  /** Equal strings, and only they, compare equal, as long as no character is the terminator. */
  lemma {:induction false} StrCmpZero(s: string, t: string)
    requires forall i :: 0 <= i < |s| ==> s[i] != 0 as char
    requires forall i :: 0 <= i < |t| ==> t[i] != 0 as char
    ensures StrCmp(s, t) == 0 <==> s == t
  {
    if s != [] && t != [] && s[0] == t[0] {
      StrCmpZero(s[1..], t[1..]);
      assert s == [s[0]] + s[1..] && t == [t[0]] + t[1..];
    }
  }
}
