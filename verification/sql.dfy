/**
 The fragment of the SQL engine that the data-quality pipeline relies on:
 scalar values with NULL, the three-valued logic of WHERE clauses, the
 ascending order used by ORDER BY, and tables as a column set plus rows.
 */
module Sql {

  /** A scalar cell value, as produced by CSV ingestion with type inference. */
  datatype Value = Null | Int(n: int) | Str(s: string)

  /** An engine outcome: a value, or an error raised while evaluating a query. */
  datatype Result<+T> = Ok(value: T) | Err(message: string)

  /** A row maps column names to values. */
  type Row = map<string, Value>

  /** A loaded relation: the set of its column names and its rows, in load order. */
  datatype Table = Table(columns: set<string>, rows: seq<Row>)

  /** The value of column `c` in `row`; a column the row does not carry reads as NULL. */
  function Cell(row: Row, c: string): Value
  {
    if c in row then row[c] else Null
  }

  // ---------------------------------------------------------------------------
  // Three-valued logic
  // ---------------------------------------------------------------------------

  /** SQL truth values: a comparison involving NULL is UNKNOWN. */
  datatype Truth = True | False | Unknown

  function FromBool(b: bool): Truth
  {
    if b then True else False
  }

  /** SQL NOT: UNKNOWN stays UNKNOWN. */
  function Not3(a: Truth): (r: Truth)
    ensures r.Unknown? <==> a.Unknown?
    ensures r.True? <==> a.False?
  {
    match a
    case True => False
    case False => True
    case Unknown => Unknown
  }

  /** SQL OR: TRUE if either side is TRUE, otherwise UNKNOWN if either side is UNKNOWN. */
  function Or3(a: Truth, b: Truth): (r: Truth)
    ensures r.True? <==> a.True? || b.True?
    ensures r.False? <==> a.False? && b.False?
  {
    if a.True? || b.True? then True
    else if a.Unknown? || b.Unknown? then Unknown
    else False
  }

  /** `v IS NULL`: never UNKNOWN. */
  function IsNull3(v: Value): (r: Truth)
    ensures !r.Unknown?
    ensures r.True? <==> v.Null?
  {
    FromBool(v.Null?)
  }

  /**
   `v = k` for an integer literal `k`. NULL compares as UNKNOWN; a text value
   cannot be compared with an integer and raises a conversion error.
   */
  function EqInt3(v: Value, k: int): (r: Result<Truth>)
    ensures r.Err? <==> v.Str?
    ensures r == Ok(Unknown) <==> v.Null?
    ensures r == Ok(True) <==> v == Int(k)
  {
    match v
    case Null => Ok(Unknown)
    case Int(n) => Ok(FromBool(n == k))
    case Str(_) => Err("Conversion Error: could not convert text to an integer")
  }

  // ---------------------------------------------------------------------------
  // ORDER BY ... ASC
  // ---------------------------------------------------------------------------

  /** Lexicographic order on strings, comparing characters by code point. */
  predicate StrLe(a: string, b: string)
    decreases |a|
  {
    |a| == 0 || (|b| > 0 && (a[0] < b[0] || (a[0] == b[0] && StrLe(a[1..], b[1..]))))
  }

  /** Integers sort before text, and NULL sorts last (NULLS LAST). */
  function Rank(v: Value): nat
  {
    match v
    case Int(_) => 0
    case Str(_) => 1
    case Null => 2
  }

  /** The ascending order of ORDER BY on a single key. */
  predicate Le(a: Value, b: Value)
  {
    if Rank(a) != Rank(b) then Rank(a) < Rank(b)
    else match (a, b)
      case (Int(x), Int(y)) => x <= y
      case (Str(x), Str(y)) => StrLe(x, y)
      case _ => true
  }

  lemma {:induction false} StrLeTotal(a: string, b: string)
    ensures StrLe(a, b) || StrLe(b, a)
    decreases |a|
  {
    if |a| > 0 && |b| > 0 && a[0] == b[0] {
      StrLeTotal(a[1..], b[1..]);
    }
  }

  lemma {:induction false} StrLeReflexive(a: string)
    ensures StrLe(a, a)
    decreases |a|
  {
    if |a| > 0 {
      StrLeReflexive(a[1..]);
    }
  }

  lemma {:induction false} StrLeAntisymmetric(a: string, b: string)
    requires StrLe(a, b) && StrLe(b, a)
    ensures a == b
    decreases |a|
  {
    if |a| > 0 {
      StrLeAntisymmetric(a[1..], b[1..]);
      assert a == [a[0]] + a[1..];
      assert b == [b[0]] + b[1..];
    }
  }

  lemma {:induction false} StrLeTransitive(a: string, b: string, c: string)
    requires StrLe(a, b) && StrLe(b, c)
    ensures StrLe(a, c)
    decreases |a|
  {
    if |a| > 0 && a[0] == b[0] && b[0] == c[0] {
      StrLeTransitive(a[1..], b[1..], c[1..]);
    }
  }

  /** Any two values are comparable. */
  lemma LeTotal(a: Value, b: Value)
    ensures Le(a, b) || Le(b, a)
  {
    if a.Str? && b.Str? {
      StrLeTotal(a.s, b.s);
    }
  }

  lemma LeReflexive(a: Value)
    ensures Le(a, a)
  {
    if a.Str? {
      StrLeReflexive(a.s);
    }
  }

  /** Values that sort both ways are equal: ORDER BY ties are exactly equal keys. */
  lemma LeAntisymmetric(a: Value, b: Value)
    requires Le(a, b) && Le(b, a)
    ensures a == b
  {
    if a.Str? && b.Str? {
      StrLeAntisymmetric(a.s, b.s);
    }
  }

  lemma LeTransitive(a: Value, b: Value, c: Value)
    requires Le(a, b) && Le(b, c)
    ensures Le(a, c)
  {
    if a.Str? && b.Str? && c.Str? {
      StrLeTransitive(a.s, b.s, c.s);
    }
  }
}
