/** Columns as the objects they are: a tree of mutable columns, extended in place. The shape of
    a tree never changes; its data fields grow. */
module HeapColumns {
  import opened Columns

  lemma {:induction false} TupleAppends(c: Column, d: Column, both: Column)
    requires c.TupleCol? && d.TupleCol? && both.TupleCol? && |both.columns| == |c.columns| == |d.columns|
    requires forall j :: 0 <= j < |c.columns| ==> both.columns[j] == Columns.AppendColumn(c.columns[j], d.columns[j])
    ensures both == Columns.AppendColumn(c, d)
  {
    assert both.columns == Columns.AppendColumn(c, d).columns;
  }

  class HColumn {
    const typ: Type
    const typeIndex: nat          // the Type object the column points at, by order of creation
    const kids: seq<HColumn>      // nested column, element column, members, or a map's entries
    ghost const repr: set<HColumn>
    var cells: seq<Cell>
    var flags: seq<bool>
    var offsets: seq<nat>

    /** One of the type's columns, with its parts owned and kept apart. */
    ghost predicate Tree()
      decreases repr
    {
      && this in repr
      && (forall i :: 0 <= i < |kids| ==> kids[i].repr <= repr && this !in kids[i].repr && kids[i].Tree())
      && (forall i, j :: 0 <= i < j < |kids| ==> kids[i].repr !! kids[j].repr)
      && match typ
         case Sc(_) => |kids| == 0
         case Nullable(u) => |kids| == 1 && kids[0].typ == u
         case Array(u) => |kids| == 1 && kids[0].typ == u
         case Tuple(ts) => |kids| == |ts| && forall i :: 0 <= i < |ts| ==> kids[i].typ == ts[i]
         case Map(k, v) => |kids| == 1 && kids[0].typ == EntriesType(k, v)
    }

    /** The column this object and its parts make up now. */
    ghost function Abs(): Column
      requires Tree()
      reads repr
      decreases repr
    {
      match typ
      case Sc(s) => Flat(s, cells)
      case Nullable(_) => NullableCol(kids[0].Abs(), flags)
      case Array(_) => ArrayCol(kids[0].Abs(), offsets)
      case Tuple(_) => TupleCol(seq(|kids|, i requires 0 <= i < |kids| reads repr => kids[i].Abs()))
      case Map(_, _) => MapCol(kids[0].Abs())
    }

    /** A column over the given parts, with no rows of its own. */
    constructor (typ: Type, typeIndex: nat, kids: seq<HColumn>)
      requires forall i :: 0 <= i < |kids| ==> kids[i].Tree()
      requires forall i, j :: 0 <= i < j < |kids| ==> kids[i].repr !! kids[j].repr
      requires match typ
               case Sc(_) => |kids| == 0
               case Nullable(u) => |kids| == 1 && kids[0].typ == u
               case Array(u) => |kids| == 1 && kids[0].typ == u
               case Tuple(ts) => |kids| == |ts| && forall i :: 0 <= i < |ts| ==> kids[i].typ == ts[i]
               case Map(k, v) => |kids| == 1 && kids[0].typ == EntriesType(k, v)
      ensures this.typ == typ && this.typeIndex == typeIndex && this.kids == kids
      ensures cells == [] && flags == [] && offsets == []
      ensures repr == {this} + (set i, o | 0 <= i < |kids| && o in kids[i].repr :: o)
      ensures Tree()
    {
      this.typ := typ;
      this.typeIndex := typeIndex;
      this.kids := kids;
      repr := {this} + (set i, o | 0 <= i < |kids| && o in kids[i].repr :: o);
      cells, flags, offsets := [], [], [];
    }

    /** Column::Append(column): all rows of d behind the rows of this column, in place. */
    method AppendColumn(d: HColumn)
      requires Tree() && d.Tree() && typ == d.typ && repr !! d.repr
      modifies repr
      ensures Abs() == Columns.AppendColumn(old(Abs()), old(d.Abs()))
      decreases repr, 1
    {
      match typ {
        case Sc(_) =>
          cells := cells + d.cells;
        case Nullable(_) =>
          kids[0].AppendColumn(d.kids[0]);
          flags := flags + d.flags;
        case Array(_) =>
          kids[0].AppendColumn(d.kids[0]);
          offsets := offsets + Shift(d.offsets, Start(offsets, |offsets|));
        case Tuple(_) =>
          AppendMemberColumns(d);
        case Map(_, _) =>
          kids[0].AppendColumn(d.kids[0]);
      }
    }

    method AppendMemberColumns(d: HColumn)
      requires Tree() && d.Tree() && typ == d.typ && typ.Tuple? && repr !! d.repr
      modifies repr
      ensures Abs() == Columns.AppendColumn(old(Abs()), old(d.Abs()))
      decreases repr, 0
    {
      hide Columns.AppendColumn;
      ghost var c0, d0 := Abs(), d.Abs();
      var i := 0;
      while i < |kids|
        invariant i <= |kids|
        invariant forall j :: 0 <= j < i ==> kids[j].Abs() == Columns.AppendColumn(c0.columns[j], d0.columns[j])
        invariant forall j :: i <= j < |kids| ==> kids[j].Abs() == c0.columns[j]
        invariant forall j :: 0 <= j < |kids| ==> d.kids[j].Abs() == d0.columns[j]
      {
        kids[i].AppendColumn(d.kids[i]);
        i := i + 1;
      }
      TupleAppends(c0, d0, Abs());
    }

    /** ColumnArray::AppendAsColumn: all rows of x become one array row. */
    method AppendAsColumn(x: HColumn)
      requires Tree() && x.Tree() && typ.Array? && x.typ == typ.item && repr !! x.repr
      modifies repr
      ensures Abs() == Columns.AppendAsColumn(old(Abs()), old(x.Abs()))
    {
      hide Columns.AppendColumn, OffsetsOk;
      var added := x.Size();
      kids[0].AppendColumn(x);
      offsets := offsets + [Start(offsets, |offsets|) + added];
    }

    method Size() returns (n: nat)
      requires Tree()
      ensures n == Columns.Size(Abs())
      decreases repr
    {
      match typ {
        case Sc(_) => n := |cells|;
        case Nullable(_) => n := |flags|;
        case Array(_) => n := |offsets|;
        case Tuple(_) => if |kids| == 0 { n := 0; } else { n := kids[0].Size(); }
        case Map(_, _) => n := kids[0].Size();
      }
    }
  }
}
