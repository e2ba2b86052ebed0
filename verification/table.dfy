/**
  The tabular values the catalogue works on (pandas DataFrames): cells, rows
  keyed by column name, and tables with a column set. A missing value
  (pandas NaN/None) is the cell `Null`; every row of a well-formed table
  holds a cell for every column, as a DataFrame does.
 */
module Tables {
  import opened Text

  datatype Cell = Text(s: string) | Int(i: int) | Num(x: real) | Null

  type Row = map<string, Cell>

  datatype Table = Table(columns: set<string>, rows: seq<Row>)

  predicate WellFormed(t: Table) {
    forall k :: 0 <= k < |t.rows| ==> t.rows[k].Keys == t.columns
  }

  /** Digits of a fraction `0 <= f < 1`, at most `n` of them, stopping once the rest is zero. */
  function FractionDigits(f: real, n: nat): (r: string)
    requires 0.0 <= f < 1.0
    ensures |r| <= n
    ensures forall k :: 0 <= k < |r| ==> IsDigit(r[k])
    decreases n
  {
    if n == 0 || f == 0.0 then ""
    else
      var d := (f * 10.0).Floor;
      [DigitChar(d)] + FractionDigits(f * 10.0 - d as real, n - 1)
  }

  /** `str()` of a Python float holding `x`, as a decimal expansion (see the README for its limits). */
  function FloatText(x: real): (r: string)
    ensures |r| >= 3
  {
    if x == x.Floor as real then IntText(x.Floor) + ".0"
    else
      var m := if x < 0.0 then -x else x;
      (if x < 0.0 then "-" else "") + NatText(m.Floor) + "." + FractionDigits(m - m.Floor as real, 17)
  }

  /** `str(cell)`, the text pandas' `astype(str)` and Python's `str()` give a cell. */
  function CellText(c: Cell): (r: string)
    ensures c.Text? ==> r == c.s
    ensures c.Null? ==> r == "nan"
  {
    match c
    case Text(s) => s
    case Int(i) => IntText(i)
    case Num(x) => FloatText(x)
    case Null => "nan"
  }

  /** An integer cell prints the same text as no other integer cell. */
  lemma IntCellTextInjective(i: int, j: int)
    requires CellText(Int(i)) == CellText(Int(j))
    ensures i == j
  {
    IntTextInjective(i, j);
  }

  /** The row extended to the given columns, missing ones filled with NaN (`Null`). */
  function Pad(r: Row, columns: set<string>): (p: Row)
    requires r.Keys <= columns
    ensures p.Keys == columns
    ensures forall c :: c in r ==> p[c] == r[c]
    ensures forall c :: c in columns && c !in r ==> p[c] == Null
  {
    map c | c in columns :: if c in r then r[c] else Null
  }

  /** `pd.concat([a, b], ignore_index=True)`: rows of `a`, then rows of `b`, over the union of the columns. */
  function Concat(a: Table, b: Table): (t: Table)
    requires WellFormed(a) && WellFormed(b)
    ensures WellFormed(t)
    ensures t.columns == a.columns + b.columns
    ensures |t.rows| == |a.rows| + |b.rows|
    ensures forall k :: 0 <= k < |a.rows| ==> t.rows[k] == Pad(a.rows[k], t.columns)
    ensures forall k :: 0 <= k < |b.rows| ==> t.rows[|a.rows| + k] == Pad(b.rows[k], t.columns)
  {
    var cols := a.columns + b.columns;
    Table(cols, seq(|a.rows|, k requires 0 <= k < |a.rows| => Pad(a.rows[k], cols))
              + seq(|b.rows|, k requires 0 <= k < |b.rows| => Pad(b.rows[k], cols)))
  }

  /** Every row extended to the given columns. */
  function PadRows(rows: seq<Row>, columns: set<string>): (r: seq<Row>)
    requires forall k :: 0 <= k < |rows| ==> rows[k].Keys <= columns
    ensures |r| == |rows|
    ensures forall k :: 0 <= k < |rows| ==> r[k] == Pad(rows[k], columns)
  {
    seq(|rows|, k requires 0 <= k < |rows| => Pad(rows[k], columns))
  }

  /** The rows of a concatenation are the padded rows of the first table followed by those of the second. */
  lemma ConcatRows(a: Table, b: Table)
    requires WellFormed(a) && WellFormed(b)
    ensures Concat(a, b).rows == PadRows(a.rows, a.columns + b.columns) + PadRows(b.rows, a.columns + b.columns)
  {
  }

  /** Rows that already have exactly the given columns are not changed by padding. */
  lemma PadRowsKeeps(rows: seq<Row>, columns: set<string>)
    requires forall k :: 0 <= k < |rows| ==> rows[k].Keys == columns
    ensures PadRows(rows, columns) == rows
  {
    forall k | 0 <= k < |rows| ensures Pad(rows[k], columns) == rows[k] {
      var p := Pad(rows[k], columns);
      assert p.Keys == rows[k].Keys;
      assert forall c :: c in p ==> p[c] == rows[k][c];
    }
  }

  /** Concatenating onto a table with no columns and no rows (`pd.DataFrame()`) gives the other table back. */
  lemma ConcatOntoEmpty(b: Table)
    requires WellFormed(b)
    ensures Concat(Table({}, []), b) == b
  {
    var t := Concat(Table({}, []), b);
    forall k | 0 <= k < |b.rows| ensures t.rows[k] == b.rows[k] {
      assert t.rows[0 + k] == Pad(b.rows[k], b.columns);
    }
  }

  /** A position of a value the sequence holds. */
  lemma IndexOf<T>(s: seq<T>, x: T) returns (k: nat)
    requires x in s
    ensures k < |s| && s[k] == x
  {
    k :| 0 <= k < |s| && s[k] == x;
  }

  predicate Distinct<T(==)>(s: seq<T>) {
    forall i, j :: 0 <= i < j < |s| ==> s[i] != s[j]
  }

  /** Keep-first duplicate removal of `s`, treating the values in `seen` as already kept. */
  function DedupFrom<T(==)>(s: seq<T>, seen: set<T>): (r: seq<T>)
    ensures |r| <= |s|
    ensures Distinct(r)
    ensures forall x :: x in r ==> x in s && x !in seen
    ensures forall x :: x in s && x !in seen ==> x in r
  {
    if s == [] then []
    else if s[0] in seen then DedupFrom(s[1..], seen)
    else [s[0]] + DedupFrom(s[1..], seen + {s[0]})
  }

  /** `drop_duplicates()`: exact duplicates removed, the first occurrence of each value kept, in order. */
  function DropDuplicates<T(==)>(s: seq<T>): (r: seq<T>)
    ensures |r| <= |s|
    ensures Distinct(r)
    ensures forall x :: x in r ==> x in s
    ensures forall x :: x in s ==> x in r
  {
    DedupFrom(s, {})
  }

  /** Removing duplicates from `a + b` keeps every value of `b`. */
  lemma InDropDuplicatesRight<T>(a: seq<T>, b: seq<T>, j: nat)
    requires j < |b|
    ensures b[j] in DropDuplicates(a + b)
  {
    assert (a + b)[|a| + j] == b[j];
  }

  /**
    Removing duplicates from `a + b` keeps the deduplicated `a` in front,
    followed by what `b` adds that `a` did not already hold.
   */
  lemma {:induction false} DedupFromAppend<T>(a: seq<T>, b: seq<T>, seen: set<T>)
    ensures DedupFrom(a + b, seen) == DedupFrom(a, seen) + DedupFrom(b, seen + set x | x in a)
  {
    if a == [] {
      assert a + b == b;
      assert (set x | x in a) == {};
      assert seen + {} == seen;
    } else {
      assert (a + b)[0] == a[0];
      assert (a + b)[1..] == a[1..] + b;
      if a[0] in seen {
        DedupFromAppend(a[1..], b, seen);
        assert seen + (set x | x in a[1..]) == seen + (set x | x in a);
      } else {
        DedupFromAppend(a[1..], b, seen + {a[0]});
        assert seen + {a[0]} + (set x | x in a[1..]) == seen + (set x | x in a);
      }
    }
  }

  /** A sequence without repeats, none of whose values was seen, is kept whole. */
  lemma {:induction false} DedupFromDistinct<T>(s: seq<T>, seen: set<T>)
    requires Distinct(s)
    requires forall x :: x in s ==> x !in seen
    ensures DedupFrom(s, seen) == s
  {
    if s != [] {
      assert s[0] !in s[1..] by {
        forall k | 0 <= k < |s[1..]| ensures s[1..][k] != s[0] { assert s[1..][k] == s[k + 1]; }
      }
      assert Distinct(s[1..]) by {
        forall i, j | 0 <= i < j < |s[1..]| ensures s[1..][i] != s[1..][j] {
          assert s[1..][i] == s[i + 1] && s[1..][j] == s[j + 1];
        }
      }
      forall x | x in s[1..] ensures x !in seen + {s[0]} {
        var k :| 0 <= k < |s[1..]| && s[1..][k] == x;
        assert s[k + 1] == x;
      }
      DedupFromDistinct(s[1..], seen + {s[0]});
      assert [s[0]] + s[1..] == s;
    }
  }

  /** `drop_duplicates()` applied twice removes nothing more the second time. */
  lemma DropDuplicatesIdempotent<T>(s: seq<T>)
    ensures DropDuplicates(DropDuplicates(s)) == DropDuplicates(s)
  {
    DedupFromDistinct(DropDuplicates(s), {});
  }

  /** `drop_duplicates()` on a table: same columns, keep-first duplicate removal on the rows. */
  function DropDuplicateRows(t: Table): (u: Table)
    requires WellFormed(t)
    ensures WellFormed(u)
    ensures u.columns == t.columns
    ensures |u.rows| <= |t.rows|
    ensures Distinct(u.rows)
    ensures forall r :: r in u.rows <==> r in t.rows
  {
    var rows := DropDuplicates(t.rows);
    assert forall k :: 0 <= k < |rows| ==> rows[k] in t.rows;
    Table(t.columns, rows)
  }
}
