/** Laws of the column interface at every nesting depth: concatenation, slicing, and the
    splice of a temporary column as one array row. */
module ColumnLaws {
  import opened Columns

  predicate TypeOk(t: Type) {
    match t
    case Sc(_) => true
    case Nullable(u) => TypeOk(u)
    case Array(u) => TypeOk(u)
    case Tuple(ts) => |ts| > 0 && forall i :: 0 <= i < |ts| ==> TypeOk(ts[i])
    case Map(k, v) => TypeOk(k) && TypeOk(v)
  }

  lemma {:induction false} NewTyped(t: Type)
    requires TypeOk(t)
    ensures Typed(New(t), t) && Size(New(t)) == 0
  {
    match t
    case Sc(_) =>
    case Nullable(u) => NewTyped(u);
    case Array(u) => NewTyped(u);
    case Tuple(ts) =>
      forall i | 0 <= i < |ts| ensures Typed(New(ts[i]), ts[i]) && Size(New(ts[i])) == 0 {
        NewTyped(ts[i]);
      }
    case Map(k, v) =>
      NewTyped(k);
      NewTyped(v);
      var pair := TupleCol([New(k), New(v)]);
      assert Typed(pair, Tuple([k, v]));
  }

  /** Cloning empty forgets everything but the type. */
  lemma {:induction false} CloneIsNew(c: Column, t: Type)
    requires Typed(c, t)
    ensures CloneEmpty(c) == New(t)
    ensures TypeOk(t)
    decreases c
  {
    match c
    case Flat(_, _) =>
    case NullableCol(n, _) => CloneIsNew(n, t.inner);
    case ArrayCol(d, _) => CloneIsNew(d, t.item);
    case TupleCol(cs) =>
      forall i | 0 <= i < |cs| ensures CloneEmpty(cs[i]) == New(t.members[i]) && TypeOk(t.members[i]) {
        CloneIsNew(cs[i], t.members[i]);
      }
    case MapCol(e) =>
      CloneIsNew(e, EntriesType(t.key, t.val));
      var pair := Tuple([t.key, t.val]);
      assert TypeOk(pair) && TypeOk(pair.members[0]) && TypeOk(pair.members[1]);
      assert New(pair).columns == [New(t.key), New(t.val)];
  }

  lemma {:induction false} AppendTyped(c: Column, d: Column, t: Type)
    requires Typed(c, t) && Typed(d, t)
    ensures Typed(AppendColumn(c, d), t) && Size(AppendColumn(c, d)) == Size(c) + Size(d)
    decreases c
  {
    match (c, d)
    case (Flat(_, _), Flat(_, _)) =>
    case (NullableCol(n, _), NullableCol(m, _)) => AppendTyped(n, m, t.inner);
    case (ArrayCol(a, o), ArrayCol(b, p)) =>
      AppendTyped(a, b, t.item);
      OffsetsAppend(o, Size(a), p, Size(b));
    case (TupleCol(cs), TupleCol(ds)) =>
      forall i | 0 <= i < |cs|
        ensures Typed(AppendColumn(cs[i], ds[i]), t.members[i])
        ensures Size(AppendColumn(cs[i], ds[i])) == Size(cs[i]) + Size(ds[i])
      {
        AppendTyped(cs[i], ds[i], t.members[i]);
      }
    case (MapCol(e), MapCol(f)) => AppendTyped(e, f, EntriesType(t.key, t.val));
  }

  lemma {:induction false} OffsetsAppend(o: seq<nat>, m: nat, p: seq<nat>, n: nat)
    requires OffsetsOk(o, m) && OffsetsOk(p, n)
    ensures OffsetsOk(o + Shift(p, m), m + n) && Start(o, |o|) == m
    ensures forall r :: 0 <= r <= |o| ==> Start(o + Shift(p, m), r) == Start(o, r)
    ensures forall r :: 0 <= r <= |p| ==> Start(o + Shift(p, m), |o| + r) == m + Start(p, r)
    decreases |p|
  {
    hide OffsetsOk, Start;
    OffsetsEnd(o, m);
    StartsAppend(o, m, p);
    if p == [] {
      OffsetsEnd(p, n);
      assert o + Shift(p, m) == o;
    } else {
      var front := p[..|p| - 1];
      OffsetsEnd(p, n);
      OffsetsAppend(o, m, front, Start(p, |p| - 1));
      OffsetsSnoc(o + Shift(front, m), m + Start(p, |p| - 1), m + n);
      assert o + Shift(p, m) == o + Shift(front, m) + [m + n];
    }
  }

  lemma {:induction false} OffsetsEnd(o: seq<nat>, m: nat)
    requires OffsetsOk(o, m)
    ensures Start(o, |o|) == m && (o == [] ==> m == 0)
    ensures o != [] ==>
              var last := |o| - 1; o[last] == m && Start(o, last) <= m && OffsetsOk(o[..last], Start(o, last))
  {
  }

  lemma {:induction false} OffsetsSnoc(o: seq<nat>, m: nat, x: nat)
    requires OffsetsOk(o, m) && m <= x
    ensures OffsetsOk(o + [x], x)
  {
    assert (o + [x])[..|o|] == o;
  }

  lemma {:induction false} StartsAppend(o: seq<nat>, m: nat, p: seq<nat>)
    requires Start(o, |o|) == m
    ensures forall r :: 0 <= r <= |o| ==> Start(o + Shift(p, m), r) == Start(o, r)
    ensures forall r :: 0 <= r <= |p| ==> Start(o + Shift(p, m), |o| + r) == m + Start(p, r)
  {
  }

  lemma {:induction false} SubOfLeft<T>(a: seq<T>, b: seq<T>, lo: nat, hi: nat)
    requires lo <= hi <= |a|
    ensures Sub(a + b, lo, hi) == Sub(a, lo, hi)
  {
  }

  lemma {:induction false} SubOfRight<T>(a: seq<T>, b: seq<T>, lo: nat, hi: nat)
    requires lo <= hi <= |b|
    ensures Sub(a + b, |a| + lo, |a| + hi) == Sub(b, lo, hi)
  {
  }

  lemma {:induction false} SubOfSub<T>(s: seq<T>, a: nat, b: nat, lo: nat, hi: nat)
    requires a <= b <= |s| && lo <= hi <= b - a
    ensures Sub(Sub(s, a, b), lo, hi) == Sub(s, a + lo, a + hi)
  {
    var x, y := s[a..b][lo..hi], s[a + lo..a + hi];
    assert forall i :: 0 <= i < |x| ==> x[i] == y[i];
  }

  lemma {:induction false} ConcatPointwise<T>(s: seq<T>, a: seq<T>, b: seq<T>)
    requires |s| == |a| + |b|
    requires forall r :: 0 <= r < |a| ==> s[r] == a[r]
    requires forall r :: 0 <= r < |b| ==> s[|a| + r] == b[r]
    ensures s == a + b
  {
    forall r | 0 <= r < |s| ensures s[r] == (a + b)[r] {
      if r >= |a| {
        assert s[|a| + (r - |a|)] == b[r - |a|];
      }
    }
  }

  /* ---- concatenation ---- */

  lemma {:induction false} ListRowsAppend(a: seq<Item>, o: seq<nat>, b: seq<Item>, p: seq<nat>)
    requires OffsetsOk(o, |a|) && OffsetsOk(p, |b|)
    ensures ListRows(a + b, o + Shift(p, |a|)) == ListRows(a, o) + ListRows(b, p)
  {
    hide OffsetsOk, Start, Shift, Sub;
    OffsetsAppend(o, |a|, p, |b|);
    var q := o + Shift(p, |a|);
    var rows := ListRows(a + b, q);
    forall r | 0 <= r < |o| ensures rows[r] == ListRows(a, o)[r] {
      StartsOrdered(o, |a|, r, r + 1);
      SubOfLeft(a, b, Start(o, r), Start(o, r + 1));
    }
    forall r | 0 <= r < |p| ensures rows[|o| + r] == ListRows(b, p)[r] {
      StartsOrdered(p, |b|, r, r + 1);
      SubOfRight(a, b, Start(p, r), Start(p, r + 1));
      assert Start(q, |o| + (r + 1)) == |a| + Start(p, r + 1);
    }
    ConcatPointwise(rows, ListRows(a, o), ListRows(b, p));
  }

  lemma {:induction false} MaskRowsAppend(a: seq<Item>, f: seq<bool>, b: seq<Item>, g: seq<bool>)
    requires |a| == |f| && |b| == |g|
    ensures MaskRows(a + b, f + g) == MaskRows(a, f) + MaskRows(b, g)
  {
  }

  lemma {:induction false} TupleRowsAppend(xs: seq<seq<Item>>, m: nat, ys: seq<seq<Item>>, n: nat, zs: seq<seq<Item>>)
    requires |xs| == |ys| == |zs|
    requires forall i :: 0 <= i < |xs| ==> |xs[i]| == m && |ys[i]| == n && zs[i] == xs[i] + ys[i]
    ensures TupleRows(zs, m + n) == TupleRows(xs, m) + TupleRows(ys, n)
  {
    var rows := TupleRows(zs, m + n);
    forall r | 0 <= r < m ensures rows[r] == TupleRows(xs, m)[r] {
      assert TupleRow(zs, r).parts == TupleRow(xs, r).parts;
    }
    forall r | 0 <= r < n ensures rows[m + r] == TupleRows(ys, n)[r] {
      assert TupleRow(zs, m + r).parts == TupleRow(ys, r).parts;
    }
    ConcatPointwise(rows, TupleRows(xs, m), TupleRows(ys, n));
  }

  function MemberRows(cs: seq<Column>): seq<seq<Item>> {
    seq(|cs|, i requires 0 <= i < |cs| => Rows(cs[i]))
  }

  /** Concatenation keeps the rows of c where they were and puts those of d behind them, at
      every nesting depth, although inner offsets are shifted. */
  lemma {:induction false} AppendRows(c: Column, d: Column, t: Type)
    requires Typed(c, t) && Typed(d, t)
    ensures Rows(AppendColumn(c, d)) == Rows(c) + Rows(d)
    decreases c
  {
    AppendTyped(c, d, t);
    match c
    case Flat(_, _) =>
    case NullableCol(n, f) =>
      AppendRows(n, d.nested, t.inner);
      MaskRowsAppend(Rows(n), f, Rows(d.nested), d.flags);
    case ArrayCol(a, o) =>
      AppendRows(a, d.data, t.item);
      StartsOrdered(o, Size(a), 0, |o|);
      ListRowsAppend(Rows(a), o, Rows(d.data), d.offsets);
    case TupleCol(cs) =>
      var ds := d.columns;
      forall i | 0 <= i < |cs| ensures Rows(AppendColumn(cs[i], ds[i])) == Rows(cs[i]) + Rows(ds[i]) {
        AppendRows(cs[i], ds[i], t.members[i]);
      }
      TupleRowsAppend(MemberRows(cs), Size(c), MemberRows(ds), Size(d), MemberRows(AppendColumn(c, d).columns));
    case MapCol(e) => AppendRows(e, d.entries, EntriesType(t.key, t.val));
  }

  lemma {:induction false} OneListRow(rows: seq<Item>)
    ensures OffsetsOk([|rows|], |rows|) && ListRows(rows, [|rows|]) == [List(rows)]
  {
    assert Sub(rows, 0, |rows|) == rows;
    assert ListRow(rows, [|rows|], 0) == List(rows);
  }

  /** AppendAsColumn adds exactly one row, the list of the temporary column's rows. */
  lemma {:induction false} AppendAsColumnRows(c: Column, x: Column, t: Type)
    requires Typed(c, t) && c.ArrayCol? && Typed(x, t.item)
    ensures Typed(AppendAsColumn(c, x), t) && Size(AppendAsColumn(c, x)) == Size(c) + 1
    ensures Rows(AppendAsColumn(c, x)) == Rows(c) + [List(Rows(x))]
  {
    OneRowArray(x, t);
    AppendTyped(c, ArrayCol(x, [Size(x)]), t);
    AppendRows(c, ArrayCol(x, [Size(x)]), t);
    AppendAsColumnIsAppend(c, x);
  }

  lemma {:induction false} OneRowArray(x: Column, t: Type)
    requires t.Array? && Typed(x, t.item)
    ensures Typed(ArrayCol(x, [Size(x)]), t) && Rows(ArrayCol(x, [Size(x)])) == [List(Rows(x))]
  {
    OneListRow(Rows(x));
  }

  lemma {:induction false} AppendAsColumnIsAppend(c: Column, x: Column)
    requires c.ArrayCol?
    ensures AppendAsColumn(c, x) == AppendColumn(c, ArrayCol(x, [Size(x)]))
  {
    assert Shift([Size(x)], Start(c.offsets, |c.offsets|)) == [Start(c.offsets, |c.offsets|) + Size(x)];
  }

  /* ---- slicing ---- */

  lemma {:induction false} CutStarts(offsets: seq<nat>, total: nat, b: nat, n: nat, i: nat)
    requires OffsetsOk(offsets, total) && b + n <= |offsets| && i <= n
    ensures Start(offsets, b + i) == Start(offsets, b) + Start(CutOffsets(offsets, b, n), i)
    decreases n
  {
    StartsOrdered(offsets, total, b, b + n);
    if 0 < i < n {
      CutStarts(offsets, total, b, n - 1, i);
    }
  }

  lemma {:induction false} CutOffsetsOk(offsets: seq<nat>, total: nat, b: nat, n: nat)
    requires OffsetsOk(offsets, total) && b + n <= |offsets|
    ensures Start(offsets, b) <= Start(offsets, b + n) <= total
    ensures OffsetsOk(CutOffsets(offsets, b, n), Start(offsets, b + n) - Start(offsets, b))
  {
    StartsOrdered(offsets, total, b, b + n);
    if n > 0 {
      var cut := CutOffsets(offsets, b, n);
      CutOffsetsOk(offsets, total, b, n - 1);
      CutStarts(offsets, total, b, n, n - 1);
      StartsOrdered(offsets, total, b + n - 1, b + n);
      assert cut[..n - 1] == CutOffsets(offsets, b, n - 1);
    }
  }

  lemma {:induction false} SliceTypedArray(d: Column, offsets: seq<nat>, t: Type, b: nat, n: nat)
    requires t.Array? && OffsetsOk(offsets, Size(d)) && b + n <= |offsets| && Start(offsets, b) <= Start(offsets, b + n)
    requires var part := Slice(d, Start(offsets, b), Start(offsets, b + n) - Start(offsets, b));
             Typed(part, t.item) && Size(part) == Start(offsets, b + n) - Start(offsets, b)
    ensures Typed(Slice(ArrayCol(d, offsets), b, n), t) && Size(Slice(ArrayCol(d, offsets), b, n)) == n
  {
    hide OffsetsOk, CutOffsets;
    CutOffsetsOk(offsets, Size(d), b, n);
  }

  lemma {:induction false} SliceTypedTuple(cs: seq<Column>, t: Type, b: nat, n: nat)
    requires t.Tuple? && |cs| == |t.members| > 0
    requires forall i :: 0 <= i < |cs| ==> Typed(Slice(cs[i], b, n), t.members[i]) && Size(Slice(cs[i], b, n)) == n
    ensures Typed(Slice(TupleCol(cs), b, n), t) && Size(Slice(TupleCol(cs), b, n)) == n
  {
    var parts := Slice(TupleCol(cs), b, n).columns;
    assert forall i :: 0 <= i < |cs| ==> parts[i] == Slice(cs[i], b, n);
  }

  lemma {:induction false} SliceTyped(c: Column, t: Type, b: nat, n: nat)
    requires Typed(c, t) && b + n <= Size(c)
    ensures Typed(Slice(c, b, n), t) && Size(Slice(c, b, n)) == n
    decreases c
  {
    hide OffsetsOk, CutOffsets, Start;
    match c
    case Flat(_, _) =>
    case NullableCol(m, _) => SliceTyped(m, t.inner, b, n);
    case ArrayCol(d, offsets) =>
      StartsOrdered(offsets, Size(d), b, b + n);
      SliceTyped(d, t.item, Start(offsets, b), Start(offsets, b + n) - Start(offsets, b));
      SliceTypedArray(d, offsets, t, b, n);
    case TupleCol(cs) =>
      forall i | 0 <= i < |cs| ensures Typed(Slice(cs[i], b, n), t.members[i]) && Size(Slice(cs[i], b, n)) == n {
        SliceTyped(cs[i], t.members[i], b, n);
      }
      SliceTypedTuple(cs, t, b, n);
    case MapCol(e) => SliceTyped(e, EntriesType(t.key, t.val), b, n);
  }

  lemma {:induction false} ListRowSlice(a: seq<Item>, offsets: seq<nat>, b: nat, n: nat, i: nat)
    requires OffsetsOk(offsets, |a|) && b + n <= |offsets| && i < n
    ensures ListRow(Sub(a, Start(offsets, b), Start(offsets, b + n)), CutOffsets(offsets, b, n), i)
            == ListRow(a, offsets, b + i)
  {
    CutOffsetsOk(offsets, |a|, b, n);
    var lo, hi, cut := Start(offsets, b), Start(offsets, b + n), CutOffsets(offsets, b, n);
    CutStarts(offsets, |a|, b, n, i);
    CutStarts(offsets, |a|, b, n, i + 1);
    StartsOrdered(cut, hi - lo, i, i + 1);
    SubOfSub(a, lo, hi, Start(cut, i), Start(cut, i + 1));
  }

  lemma {:induction false} ListRowsSlice(a: seq<Item>, offsets: seq<nat>, b: nat, n: nat)
    requires OffsetsOk(offsets, |a|) && b + n <= |offsets|
    ensures ListRows(Sub(a, Start(offsets, b), Start(offsets, b + n)), CutOffsets(offsets, b, n))
            == ListRows(a, offsets)[b..b + n]
  {
    var part, cut := Sub(a, Start(offsets, b), Start(offsets, b + n)), CutOffsets(offsets, b, n);
    var got, want := ListRows(part, cut), ListRows(a, offsets)[b..b + n];
    forall i | 0 <= i < n ensures got[i] == want[i] {
      ListRowSlice(a, offsets, b, n, i);
      assert want[i] == ListRow(a, offsets, b + i) && got[i] == ListRow(part, cut, i);
    }
  }

  lemma {:induction false} TupleRowsSlice(xs: seq<seq<Item>>, m: nat, b: nat, n: nat, ys: seq<seq<Item>>)
    requires |xs| == |ys| && b + n <= m
    requires forall i :: 0 <= i < |xs| ==> |xs[i]| == m && ys[i] == xs[i][b..b + n]
    ensures TupleRows(ys, n) == TupleRows(xs, m)[b..b + n]
  {
    var got, want := TupleRows(ys, n), TupleRows(xs, m)[b..b + n];
    forall r | 0 <= r < n ensures got[r] == want[r] {
      assert TupleRow(ys, r).parts == TupleRow(xs, b + r).parts;
    }
  }

  lemma {:induction false} ArrayRowsSlice(d: Column, offsets: seq<nat>, b: nat, n: nat)
    requires OffsetsOk(offsets, Size(d)) && b + n <= |offsets|
    requires Start(offsets, b) <= Start(offsets, b + n) <= Size(d)
    requires Rows(Slice(d, Start(offsets, b), Start(offsets, b + n) - Start(offsets, b)))
             == Rows(d)[Start(offsets, b)..Start(offsets, b + n)]
    ensures Rows(Slice(ArrayCol(d, offsets), b, n)) == Rows(ArrayCol(d, offsets))[b..b + n]
  {
    ListRowsSlice(Rows(d), offsets, b, n);
  }

  /** A slice of a column means the slice of its meaning. */
  lemma {:induction false} SliceRows(c: Column, t: Type, b: nat, n: nat)
    requires Typed(c, t) && b + n <= Size(c)
    ensures Rows(Slice(c, b, n)) == Rows(c)[b..b + n]
    decreases c
  {
    hide OffsetsOk, CutOffsets, Start, ListRows, TupleRows;
    SliceTyped(c, t, b, n);
    match c
    case Flat(_, _) =>
    case NullableCol(m, _) => SliceRows(m, t.inner, b, n);
    case ArrayCol(d, offsets) =>
      StartsOrdered(offsets, Size(d), b, b + n);
      SliceRows(d, t.item, Start(offsets, b), Start(offsets, b + n) - Start(offsets, b));
      ArrayRowsSlice(d, offsets, b, n);
    case TupleCol(cs) =>
      forall i | 0 <= i < |cs| ensures Rows(Slice(cs[i], b, n)) == Rows(cs[i])[b..b + n] {
        SliceRows(cs[i], t.members[i], b, n);
      }
      TupleRowsSlice(MemberRows(cs), Size(c), b, n, MemberRows(Slice(c, b, n).columns));
    case MapCol(e) => SliceRows(e, EntriesType(t.key, t.val), b, n);
  }

  /** GetAsColumn yields a column whose rows are the items of the list in that row. */
  lemma {:induction false} GetAsColumnRows(c: Column, t: Type, r: nat)
    requires Typed(c, t) && c.ArrayCol? && r < Size(c)
    ensures Typed(GetAsColumn(c, r), t.item)
    ensures Rows(c)[r] == List(Rows(GetAsColumn(c, r)))
  {
    StartsOrdered(c.offsets, Size(c.data), r, r + 1);
    SliceTyped(c.data, t.item, Start(c.offsets, r), Start(c.offsets, r + 1) - Start(c.offsets, r));
    SliceRows(c.data, t.item, Start(c.offsets, r), Start(c.offsets, r + 1) - Start(c.offsets, r));
  }

  /* ---- the splice ---- */

  lemma {:induction false} CutBelowSeam(o: seq<nat>, q: seq<nat>, b: nat, k: nat)
    requires b + k <= |o| && forall r :: 0 <= r <= |o| ==> Start(q, r) == Start(o, r)
    ensures CutOffsets(q, b, k) == CutOffsets(o, b, k)
    decreases k
  {
    if k > 0 {
      CutBelowSeam(o, q, b, k - 1);
      assert Start(q, b + k) == Start(o, b + k) && Start(q, b) == Start(o, b);
    }
  }

  lemma {:induction false} CutFromSeam(q: seq<nat>, seam: nat, m: nat, p: seq<nat>, k: nat)
    requires k <= |p| && forall r :: 0 <= r <= |p| ==> Start(q, seam + r) == m + Start(p, r)
    ensures CutOffsets(q, seam, k) == p[..k]
    decreases k
  {
    if k > 0 {
      CutFromSeam(q, seam, m, p, k - 1);
      assert Start(q, seam + 0) == m + Start(p, 0) && Start(q, seam + k) == m + Start(p, k);
      assert p[..k] == p[..k - 1] + [p[k - 1]];
    }
  }

  lemma {:induction false} ArrayBelowSeam(x: Column, o: seq<nat>, y: Column, p: seq<nat>, b: nat, n: nat)
    requires OffsetsOk(o, Size(x)) && OffsetsOk(p, Size(y)) && b + n <= |o| && Start(o, b) <= Start(o, b + n)
    requires var lo, len := Start(o, b), Start(o, b + n) - Start(o, b);
             Slice(AppendColumn(x, y), lo, len) == Slice(x, lo, len)
    ensures Slice(AppendColumn(ArrayCol(x, o), ArrayCol(y, p)), b, n) == Slice(ArrayCol(x, o), b, n)
  {
    OffsetsAppend(o, Size(x), p, Size(y));
    var q := o + Shift(p, Size(x));
    CutBelowSeam(o, q, b, n);
    assert Start(q, b) == Start(o, b) && Start(q, b + n) == Start(o, b + n);
  }

  /** Slicing below the seam of a concatenation does not see the second column, whatever was
      shifted inside. */
  lemma {:induction false} SliceBelowSeam(c: Column, d: Column, t: Type, b: nat, n: nat)
    requires Typed(c, t) && Typed(d, t) && b + n <= Size(c)
    ensures Slice(AppendColumn(c, d), b, n) == Slice(c, b, n)
    decreases c
  {
    match c
    case Flat(_, cells) => SubOfLeft(cells, d.cells, b, b + n);
    case NullableCol(m, f) =>
      SliceBelowSeam(m, d.nested, t.inner, b, n);
      SubOfLeft(f, d.flags, b, b + n);
    case ArrayCol(x, o) =>
      StartsOrdered(o, Size(x), b, b + n);
      SliceBelowSeam(x, d.data, t.item, Start(o, b), Start(o, b + n) - Start(o, b));
      ArrayBelowSeam(x, o, d.data, d.offsets, b, n);
    case TupleCol(cs) =>
      forall i | 0 <= i < |cs| ensures Slice(AppendColumn(cs[i], d.columns[i]), b, n) == Slice(cs[i], b, n) {
        SliceBelowSeam(cs[i], d.columns[i], t.members[i], b, n);
      }
      assert Slice(AppendColumn(c, d), b, n).columns == Slice(c, b, n).columns;
    case MapCol(e) => SliceBelowSeam(e, d.entries, EntriesType(t.key, t.val), b, n);
  }

  lemma {:induction false} StartsFromSeam(o: seq<nat>, m: nat, p: seq<nat>, n: nat)
    requires OffsetsOk(o, m) && OffsetsOk(p, n)
    ensures var q := o + Shift(p, m);
            && Start(q, |o|) == m == Start(o, |o|) && Start(q, |o| + |p|) == m + n
            && CutOffsets(q, |o|, |p|) == p
  {
    var q := o + Shift(p, m);
    OffsetsAppend(o, m, p, n);
    StartsOrdered(p, n, 0, |p|);
    CutFromSeam(q, |o|, m, p, |p|);
    assert p[..|p|] == p;
    assert Start(q, |o| + |p|) == m + Start(p, |p|) && Start(q, |o| + 0) == m + Start(p, 0);
    StartsOrdered(o, m, 0, |o|);
  }

  lemma {:induction false} ArrayFromSeam(x: Column, o: seq<nat>, y: Column, p: seq<nat>)
    requires OffsetsOk(o, Size(x)) && OffsetsOk(p, Size(y)) && Slice(AppendColumn(x, y), Size(x), Size(y)) == y
    ensures Slice(AppendColumn(ArrayCol(x, o), ArrayCol(y, p)), |o|, |p|) == ArrayCol(y, p)
  {
    StartsFromSeam(o, Size(x), p, Size(y));
  }

  /** Slicing from the seam on gives the second column back, cell for cell. */
  lemma {:induction false} SliceFromSeam(c: Column, d: Column, t: Type)
    requires Typed(c, t) && Typed(d, t)
    ensures Slice(AppendColumn(c, d), Size(c), Size(d)) == d
    decreases c
  {
    match c
    case Flat(_, cells) => SubOfRight(cells, d.cells, 0, |d.cells|);
    case NullableCol(m, f) =>
      SliceFromSeam(m, d.nested, t.inner);
      SubOfRight(f, d.flags, 0, |d.flags|);
    case ArrayCol(x, o) =>
      SliceFromSeam(x, d.data, t.item);
      ArrayFromSeam(x, o, d.data, d.offsets);
    case TupleCol(cs) =>
      forall i | 0 <= i < |cs|
        ensures Slice(AppendColumn(cs[i], d.columns[i]), Size(c), Size(d)) == d.columns[i]
      {
        SliceFromSeam(cs[i], d.columns[i], t.members[i]);
      }
      assert Slice(AppendColumn(c, d), Size(c), Size(d)).columns == d.columns;
    case MapCol(e) => SliceFromSeam(e, d.entries, EntriesType(t.key, t.val));
  }

  lemma {:induction false} SpliceStarts(offsets: seq<nat>, total: nat, added: nat, r: nat)
    requires OffsetsOk(offsets, total) && r <= |offsets|
    ensures Start(offsets + [total + added], r) == Start(offsets, r) <= total == Start(offsets, |offsets|)
  {
    StartsOrdered(offsets, total, r, |offsets|);
  }

  /** The splice behind Array and Map cells: the new array row is the temporary column, cell
      for cell, and every earlier row still is the column it was. */
  lemma {:induction false} Splice(c: Column, x: Column, t: Type)
    requires Typed(c, t) && c.ArrayCol? && Typed(x, t.item)
    ensures Typed(AppendAsColumn(c, x), t) && Size(AppendAsColumn(c, x)) == Size(c) + 1
    ensures GetAsColumn(AppendAsColumn(c, x), Size(c)) == x
    ensures forall r :: 0 <= r < Size(c) ==> GetAsColumn(AppendAsColumn(c, x), r) == GetAsColumn(c, r)
  {
    AppendAsColumnRows(c, x, t);
    SpliceStarts(c.offsets, Size(c.data), Size(x), Size(c));
    SliceFromSeam(c.data, x, t.item);
    forall r | 0 <= r < Size(c) ensures GetAsColumn(AppendAsColumn(c, x), r) == GetAsColumn(c, r) {
      SpliceBelow(c, x, t, r);
    }
  }

  lemma {:induction false} SpliceBelow(c: Column, x: Column, t: Type, r: nat)
    requires Typed(c, t) && c.ArrayCol? && Typed(x, t.item) && r < Size(c)
    ensures GetAsColumn(AppendAsColumn(c, x), r) == GetAsColumn(c, r)
  {
    SpliceStarts(c.offsets, Size(c.data), Size(x), Size(c));
    SpliceStarts(c.offsets, Size(c.data), Size(x), r);
    SpliceStarts(c.offsets, Size(c.data), Size(x), r + 1);
    StartsOrdered(c.offsets, Size(c.data), r, r + 1);
    SliceBelowSeam(c.data, x, t.item, Start(c.offsets, r), Start(c.offsets, r + 1) - Start(c.offsets, r));
  }
}
