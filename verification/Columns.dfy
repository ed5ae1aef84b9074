/** The column interface of the client library as far as cells are concerned: typed columns
    that nest, and their Append, AppendAsColumn, GetAsColumn, Slice, CloneEmpty and Size. */
module Columns {
  import opened UuidText

  datatype Scalar =
    | IntT(bits: nat, signed: bool)
    | BoolT
    | StringT
    | FixedStringT(width: nat)
    | UuidT
    | DateTime64T(precision: nat)
    | TextT(kind: nat)        // text parsed by the library: IPv4, IPv6
    | DecimalT(scale: nat)
    | TimeT(kind: nat)        // seconds, as Date, Date32 and DateTime store them
    | EnumT(bits: nat, kind: nat)
    | FloatT(single: bool)
    | WideT                   // Int128, UInt128: read, but no writer
    | LowCardT                // LowCardinality of text: read, but no writer
    | OtherT(known: bool)     // neither reader nor writer; `known` to the library's column factory or not

  datatype Type =
    | Sc(scalar: Scalar)
    | Nullable(inner: Type)
    | Array(item: Type)
    | Tuple(members: seq<Type>)
    | Map(key: Type, val: Type)

  datatype Cell =
    | IntCell(n: int)
    | BoolCell(b: bool)
    | TextCell(s: string)
    | UuidCell(hi: Word, lo: Word)
    | FloatCell(f: int)
    | NoCell

  /** A Nullable is a nested column plus flags, an Array is flattened data plus end offsets,
      a Tuple is parallel columns, and a Map is a column of Array(Tuple(key, value)). */
  datatype Column =
    | Flat(scalar: Scalar, cells: seq<Cell>)
    | NullableCol(nested: Column, flags: seq<bool>)
    | ArrayCol(data: Column, offsets: seq<nat>)
    | TupleCol(columns: seq<Column>)
    | MapCol(entries: Column)

  /** What one row of a column denotes, free of offsets and placeholders. */
  datatype Item =
    | Leaf(cell: Cell)
    | Absent
    | Present(item: Item)
    | List(items: seq<Item>)
    | Tup(parts: seq<Item>)

  function EntriesType(k: Type, v: Type): Type {
    Array(Tuple([k, v]))
  }

  function Size(c: Column): nat {
    match c
    case Flat(_, cells) => |cells|
    case NullableCol(_, flags) => |flags|
    case ArrayCol(_, offsets) => |offsets|
    case TupleCol(cs) => if cs == [] then 0 else Size(cs[0])
    case MapCol(entries) => Size(entries)
  }

  /** The part of a sequence between two positions; nothing when they do not lie in it. */
  function Sub<T>(s: seq<T>, lo: nat, hi: nat): seq<T> {
    if lo <= hi <= |s| then s[lo..hi] else []
  }

  /** Start of row r in the flattened data; `Start(offsets, |offsets|)` is its total length. */
  function Start(offsets: seq<nat>, r: nat): nat {
    if 0 < r <= |offsets| then offsets[r - 1] else 0
  }

  /** The offsets never step back and end at the total length of the data. */
  predicate OffsetsOk(offsets: seq<nat>, total: nat)
    decreases |offsets|
  {
    var n := |offsets|;
    if n == 0 then total == 0
    else Start(offsets, n - 1) <= offsets[n - 1] == total && OffsetsOk(offsets[..n - 1], Start(offsets, n - 1))
  }

  /** c is a well-formed column of type t. */
  predicate Typed(c: Column, t: Type)
    decreases c
  {
    match c
    case Flat(s, _) => t == Sc(s)
    case NullableCol(n, flags) => t.Nullable? && Typed(n, t.inner) && Size(n) == |flags|
    case ArrayCol(d, offsets) => t.Array? && Typed(d, t.item) && OffsetsOk(offsets, Size(d))
    case TupleCol(cs) =>
      && t.Tuple? && |cs| == |t.members| && |cs| > 0
      && forall i :: 0 <= i < |cs| ==> Typed(cs[i], t.members[i]) && Size(cs[i]) == Size(cs[0])
    case MapCol(e) => t.Map? && Typed(e, EntriesType(t.key, t.val))
  }

  /** The fresh column the library's factory makes for a type. */
  function New(t: Type): Column {
    match t
    case Sc(s) => Flat(s, [])
    case Nullable(u) => NullableCol(New(u), [])
    case Array(u) => ArrayCol(New(u), [])
    case Tuple(ts) => TupleCol(seq(|ts|, i requires 0 <= i < |ts| => New(ts[i])))
    case Map(k, v) => MapCol(ArrayCol(TupleCol([New(k), New(v)]), []))
  }

  function CloneEmpty(c: Column): Column {
    match c
    case Flat(s, _) => Flat(s, [])
    case NullableCol(n, _) => NullableCol(CloneEmpty(n), [])
    case ArrayCol(d, _) => ArrayCol(CloneEmpty(d), [])
    case TupleCol(cs) => TupleCol(seq(|cs|, i requires 0 <= i < |cs| => CloneEmpty(cs[i])))
    case MapCol(e) => MapCol(CloneEmpty(e))
  }

  function Shift(offsets: seq<nat>, base: nat): (r: seq<nat>)
    ensures |r| == |offsets|
  {
    seq(|offsets|, i requires 0 <= i < |offsets| => base + offsets[i])
  }

  /** Column::Append(column): all rows of d after the rows of c. */
  function AppendColumn(c: Column, d: Column): Column
    decreases c
  {
    match (c, d)
    case (Flat(s, a), Flat(_, b)) => Flat(s, a + b)
    case (NullableCol(n, f), NullableCol(m, g)) => NullableCol(AppendColumn(n, m), f + g)
    case (ArrayCol(a, o), ArrayCol(b, p)) => ArrayCol(AppendColumn(a, b), o + Shift(p, Start(o, |o|)))
    case (TupleCol(cs), TupleCol(ds)) =>
      if |cs| == |ds| then
        TupleCol(seq(|cs|, i requires 0 <= i < |cs| => AppendColumn(cs[i], ds[i])))
      else c
    case (MapCol(e), MapCol(f)) => MapCol(AppendColumn(e, f))
    case _ => c
  }

  /** ColumnArray::AppendAsColumn: all rows of x become one array row. */
  function AppendAsColumn(c: Column, x: Column): Column
    requires c.ArrayCol?
  {
    ArrayCol(AppendColumn(c.data, x), c.offsets + [Start(c.offsets, |c.offsets|) + Size(x)])
  }

  /** Column::Slice: n rows from row b on. */
  function Slice(c: Column, b: nat, n: nat): Column
    decreases c
  {
    match c
    case Flat(s, cells) => Flat(s, Sub(cells, b, b + n))
    case NullableCol(m, flags) => NullableCol(Slice(m, b, n), Sub(flags, b, b + n))
    case ArrayCol(d, offsets) =>
      var lo, hi := Start(offsets, b), Start(offsets, b + n);
      ArrayCol(Slice(d, lo, if lo <= hi then hi - lo else 0), CutOffsets(offsets, b, n))
    case TupleCol(cs) => TupleCol(seq(|cs|, i requires 0 <= i < |cs| => Slice(cs[i], b, n)))
    case MapCol(e) => MapCol(Slice(e, b, n))
  }

  /** The end offsets of n rows from row b on, counted from the start of row b. */
  function CutOffsets(offsets: seq<nat>, b: nat, n: nat): (cut: seq<nat>)
    ensures |cut| == n
    decreases n
  {
    if n == 0 then []
    else
      var base, end := Start(offsets, b), Start(offsets, b + n);
      CutOffsets(offsets, b, n - 1) + [if base <= end then end - base else 0]
  }

  /** ColumnArray::GetAsColumn: the rows of one array row, as a column of their own. */
  function GetAsColumn(c: Column, r: nat): Column
    requires c.ArrayCol?
  {
    var lo, hi := Start(c.offsets, r), Start(c.offsets, r + 1);
    Slice(c.data, lo, if lo <= hi then hi - lo else 0)
  }

  /* The meaning of a column is the sequence of its rows' items; one function per way of
     building rows from the rows of the parts. */

  function LeafRows(cells: seq<Cell>): (rows: seq<Item>)
    ensures |rows| == |cells|
  {
    seq(|cells|, r requires 0 <= r < |cells| => Leaf(cells[r]))
  }

  function MaskRows(items: seq<Item>, flags: seq<bool>): (rows: seq<Item>)
    ensures |rows| == |flags|
  {
    seq(|flags|, r requires 0 <= r < |flags| => if flags[r] || r >= |items| then Absent else Present(items[r]))
  }

  function ListRow(items: seq<Item>, offsets: seq<nat>, r: nat): Item {
    List(Sub(items, Start(offsets, r), Start(offsets, r + 1)))
  }

  function ListRows(items: seq<Item>, offsets: seq<nat>): (rows: seq<Item>)
    ensures |rows| == |offsets|
  {
    seq(|offsets|, r requires 0 <= r < |offsets| => ListRow(items, offsets, r))
  }

  function TupleRow(parts: seq<seq<Item>>, r: nat): Item {
    Tup(seq(|parts|, i requires 0 <= i < |parts| => if r < |parts[i]| then parts[i][r] else Absent))
  }

  function TupleRows(parts: seq<seq<Item>>, n: nat): (rows: seq<Item>)
    ensures |rows| == n
  {
    seq(n, r requires 0 <= r < n => TupleRow(parts, r))
  }

  function Rows(c: Column): (rows: seq<Item>)
    ensures |rows| == Size(c)
    decreases c
  {
    match c
    case Flat(_, cells) => LeafRows(cells)
    case NullableCol(n, flags) => MaskRows(Rows(n), flags)
    case ArrayCol(d, offsets) => ListRows(Rows(d), offsets)
    case TupleCol(cs) => TupleRows(seq(|cs|, i requires 0 <= i < |cs| => Rows(cs[i])), Size(c))
    case MapCol(e) => Rows(e)
  }

  lemma {:induction false} StartsOrdered(offsets: seq<nat>, total: nat, a: nat, b: nat)
    requires OffsetsOk(offsets, total) && a <= b <= |offsets|
    ensures Start(offsets, a) <= Start(offsets, b) <= total == Start(offsets, |offsets|)
    decreases |offsets|
  {
    var n := |offsets|;
    if a < n {
      var front := offsets[..n - 1];
      StartsOrdered(front, Start(offsets, n - 1), a, if b < n then b else n - 1);
    }
  }
}
