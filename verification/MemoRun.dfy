/** What an insert does to the allocator and to the shared table of Map templates: a function of
    the allocator, the column types and the values, without columns. */
module MemoRun {
  import opened CellRoundTrip
  import opened ColumnCodec
  import opened Columns
  import opened Exceptions
  import opened PhpValues
  import opened ScalarCodec
  import opened TemplateMemo

  /** The address of the i-th Type object created, which denotes type t. */
  type Allocator = (nat, Type) -> nat

  /** How many Type objects a fresh column has: one for each of its parts. */
  function Objects(t: Type): nat
    decreases t, 0
  {
    match t
    case Sc(_) => 1
    case Nullable(u) => 1 + Objects(u)
    case Array(u) => 1 + Objects(u)
    case Tuple(ts) => 1 + ObjectsTo(ts, |ts|)
    case Map(k, w) => 1 + Objects(k) + Objects(w)
  }

  /** ... and how many the first n of some columns have. */
  function ObjectsTo(ts: seq<Type>, n: nat): nat
    requires n <= |ts|
    decreases ts, n
  {
    if n == 0 then 0 else ObjectsTo(ts, n - 1) + Objects(ts[n - 1])
  }

  lemma {:induction false} NoObjects(ts: seq<Type>)
    ensures ObjectsTo(ts, 0) == 0
  {
  }

  lemma {:induction false} ObjectsStep(ts: seq<Type>, n: nat)
    requires n < |ts|
    ensures ObjectsTo(ts, n + 1) == ObjectsTo(ts, n) + Objects(ts[n])
  {
  }

  /** Type objects created so far, and lookups that the table has served. */
  datatype Memo = Memo(created: nat, asks: seq<Ask>)

  /** The state behind a step, and its exception if it throws. */
  datatype Tried = Tried(memo: Memo, thrown: Option<Exc>)

  /** Fresh columns of n Type objects. */
  function Create(m: Memo, n: nat): Memo {
    m.(created := m.created + n)
  }

  /** Look up the templates for a Map; they are made unless the table has some at the address. */
  function LookUp(m: Memo, ask: Ask): Memo {
    var made := if ask.address in TableAfter(m.asks) then 0 else Objects(ask.key) + Objects(ask.val);
    Memo(m.created + made, m.asks + [ask])
  }

  /** The lookup can be served. */
  predicate Servable(m: Memo, ask: Ask) {
    ask.address in TableAfter(m.asks) || (Creatable(ask.key) && Creatable(ask.val))
  }

  function Served(m: Memo, ask: Ask): (Type, Type) {
    var asks := m.asks + [ask];
    assert asks[|m.asks|] == ask;
    TableAfter(asks)[ask.address]
  }

  /** Write v to a column of type t whose Type objects are numbered from base on. */
  function Try(lib: Lib, at: Allocator, m: Memo, t: Type, base: nat, v: Value): Tried
    decreases Rank(v), 2, t
  {
    match t
    case Sc(s) =>
      (match EncodeScalar(lib, s, v)
       case Ok(_) => Tried(m, None)
       case Err(e) => Tried(m, Some(e)))
    case Nullable(u) => Try(lib, at, m, u, base + 1, if v.Null? then Long(0) else v)
    case Array(u) =>
      if !v.Arr? then Tried(m, Some(ValidationError))
      else TryElements(lib, at, Create(m, Objects(u)), u, m.created, v, 0)
    case Tuple(ts) =>
      if !v.Arr? then Tried(m, Some(ValidationError))
      else TryMembers(lib, at, m, ts, base + 1, v, 0)
    case Map(k, w) =>
      if !v.Arr? then Tried(m, Some(ValidationError)) else
      var ask := Ask(at(base, t), k, w);
      if !Servable(m, ask) then Tried(m, Some(ValidationError))
      else TryPair(lib, at, LookUp(m, ask), Served(m, ask), (k, w), v)
  }

  /** The elements of an array value from element i on. */
  function TryElements(lib: Lib, at: Allocator, m: Memo, u: Type, base: nat, v: Value, i: nat): Tried
    requires v.Arr? && i <= |v.entries|
    decreases Rank(v), 0, |v.entries| - i
  {
    if i == |v.entries| then Tried(m, None)
    else
      var first := Try(lib, at, m, u, base, v.entries[i].1);
      if first.thrown.Some? then first else TryElements(lib, at, first.memo, u, base, v, i + 1)
  }

  /** One value per member, from member i on; too many and too few are both refused. */
  function TryMembers(lib: Lib, at: Allocator, m: Memo, ts: seq<Type>, base: nat, v: Value, i: nat): Tried
    requires v.Arr? && i <= |v.entries| && i <= |ts|
    decreases Rank(v), 0, |v.entries| - i
  {
    if i == |v.entries| then Tried(m, if i == |ts| then None else Some(ValidationError))
    else if i == |ts| then Tried(m, Some(ValidationError))
    else
      var first := Try(lib, at, m, ts[i], base + ObjectsTo(ts, i), v.entries[i].1);
      if first.thrown.Some? then first else TryMembers(lib, at, first.memo, ts, base, v, i + 1)
  }

  lemma {:induction false} TryArray(lib: Lib, at: Allocator, m: Memo, u: Type, base: nat, v: Value)
    requires v.Arr?
    ensures Try(lib, at, m, Array(u), base, v) == TryElements(lib, at, Create(m, Objects(u)), u, m.created, v, 0)
  {
  }

  lemma {:induction false} TryMember(lib: Lib, at: Allocator, m: Memo, ts: seq<Type>, base: nat, v: Value, i: nat)
    requires v.Arr? && i < |v.entries| && i <= |ts|
    ensures TryMembers(lib, at, m, ts, base, v, i)
            == if i == |ts| then Tried(m, Some(ValidationError))
               else
                 var first := Try(lib, at, m, ts[i], base + ObjectsTo(ts, i), v.entries[i].1);
                 if first.thrown.Some? then first else TryMembers(lib, at, first.memo, ts, base, v, i + 1)
  {
  }

  lemma {:induction false} TriedMembers(lib: Lib, at: Allocator, m: Memo, ts: seq<Type>, base: nat, v: Value)
    requires v.Arr? && |v.entries| <= |ts|
    ensures TryMembers(lib, at, m, ts, base, v, |v.entries|)
            == Tried(m, if |v.entries| == |ts| then None else Some(ValidationError))
  {
  }

  /** Clone the served pair, fill the clones, wrap them, append them to a column of Maps. The
      append is refused if they are of other types than the column's. */
  function TryPair(lib: Lib, at: Allocator, m: Memo, pair: (Type, Type), want: (Type, Type), v: Value): Tried
    requires v.Arr?
    decreases Rank(v), 1, 0
  {
    var kn, wn := Objects(pair.0), Objects(pair.1);
    var filled := TryEntries(lib, at, Create(m, kn + wn), pair, m.created, v, 0);
    if filled.thrown.Some? then filled
    else Tried(Create(filled.memo, 1 + kn + wn), if pair == want then None else Some(ValidationError))
  }

  /** The entries of a map value from entry i on, key before value. */
  function TryEntries(lib: Lib, at: Allocator, m: Memo, pair: (Type, Type), base: nat, v: Value, i: nat): Tried
    requires v.Arr? && i <= |v.entries|
    decreases Rank(v), 0, |v.entries| - i
  {
    if i == |v.entries| then Tried(m, None)
    else
      var key := Try(lib, at, m, pair.0, base, KeyValue(v.entries[i].0));
      if key.thrown.Some? then key
      else
        var val := Try(lib, at, key.memo, pair.1, base + Objects(pair.0), v.entries[i].1);
        if val.thrown.Some? then val else TryEntries(lib, at, val.memo, pair, base, v, i + 1)
  }

  /* ---- what the lookups have to do with the outcome ---- */

  /** The lookup is of a Map type, at the address of some Type object that denotes it. */
  ghost predicate FoundedAsk(at: Allocator, ask: Ask) {
    exists i: nat :: ask.address == at(i, Map(ask.key, ask.val))
  }

  ghost predicate Founded(at: Allocator, asks: seq<Ask>) {
    forall j :: 0 <= j < |asks| ==> FoundedAsk(at, asks[j])
  }

  /** Type objects of different Map types never lie at one address. */
  ghost predicate MapTypesApart(at: Allocator) {
    forall i, t: Type, j, u: Type :: t.Map? && u.Map? && at(i, t) == at(j, u) ==> t == u
  }

  lemma {:induction false} ApartSeesOneType(at: Allocator, asks: seq<Ask>)
    requires MapTypesApart(at) && Founded(at, asks)
    ensures OneTypePerAddress(asks)
  {
    forall i, j | 0 <= i < j < |asks| && asks[i].address == asks[j].address
      ensures asks[i].key == asks[j].key && asks[i].val == asks[j].val
    {
      assert FoundedAsk(at, asks[i]) && FoundedAsk(at, asks[j]);
      var a: nat :| asks[i].address == at(a, Map(asks[i].key, asks[i].val));
      var b: nat :| asks[j].address == at(b, Map(asks[j].key, asks[j].val));
      assert Map(asks[i].key, asks[i].val) == Map(asks[j].key, asks[j].val);
    }
  }

  /** A type with a Map somewhere in it. */
  predicate HasMap(t: Type) {
    match t
    case Sc(_) => false
    case Nullable(u) => HasMap(u)
    case Array(u) => HasMap(u)
    case Tuple(ts) => exists i :: 0 <= i < |ts| && HasMap(ts[i])
    case Map(_, _) => true
  }

  /** The table has templates of creatable types only. */
  ghost predicate Makeable(asks: seq<Ask>) {
    forall a :: a in TableAfter(asks) ==> Creatable(TableAfter(asks)[a].0) && Creatable(TableAfter(asks)[a].1)
  }

  /** The outcome r of a step from m: more lookups, all founded; a step that throws nothing keeps
      one type per address, and while there is one the exception is the meaning's. */
  ghost predicate Right(at: Allocator, m: Memo, r: Tried, meaning: Option<Exc>) {
    && m.asks <= r.memo.asks
    && (Founded(at, m.asks) ==> Founded(at, r.memo.asks)) && (Makeable(m.asks) ==> Makeable(r.memo.asks))
    && (r.thrown.None? ==> meaning.None? && (OneTypePerAddress(m.asks) ==> OneTypePerAddress(r.memo.asks)))
    && (OneTypePerAddress(r.memo.asks) ==> r.thrown == meaning)
  }

  function Fault<T>(r: Result<T>): Option<Exc> {
    match r
    case Ok(_) => None
    case Err(e) => Some(e)
  }

  lemma {:induction false} LookUpKeeps(at: Allocator, m: Memo, base: nat, t: Type)
    requires t.Map? && Makeable(m.asks) && Servable(m, Ask(at(base, t), t.key, t.val))
    ensures var ask := Ask(at(base, t), t.key, t.val); var m' := LookUp(m, ask);
            && m.asks <= m'.asks && Makeable(m'.asks) && (Founded(at, m.asks) ==> Founded(at, m'.asks))
            && Creatable(Served(m, ask).0) && Creatable(Served(m, ask).1)
            && (OneTypePerAddress(m'.asks) ==> Served(m, ask) == (t.key, t.val))
            && (OneTypePerAddress(m.asks) && Served(m, ask) == (t.key, t.val) ==> OneTypePerAddress(m'.asks))
  {
    var ask := Ask(at(base, t), t.key, t.val);
    var m' := LookUp(m, ask);
    TableGrows(m.asks, ask);
    if OneTypePerAddress(m'.asks) {
      PrefixSeesOneType(m.asks, m'.asks);
    }
    if OneTypePerAddress(m.asks) {
      LookupIsRightIff(m.asks, ask);
    }
    assert t == Map(t.key, t.val) && FoundedAsk(at, ask);
    assert forall j :: 0 <= j < |m.asks| ==> m'.asks[j] == m.asks[j];
  }

  /** The run of the shared table agrees with the meaning of the value, which knows no table: what
      it accepts has one; and while an address denotes one Map type the exception is the same. */
  lemma {:induction false} TryRight(lib: Lib, at: Allocator, m: Memo, t: Type, base: nat, v: Value)
    requires Makeable(m.asks)
    ensures Right(at, m, Try(lib, at, m, t, base, v), Fault(Encode(lib, t, v)))
    decreases Rank(v), 2, t
  {
    hide OneTypePerAddress, Founded, Makeable, TableAfter;
    match t
    case Sc(_) =>
    case Nullable(u) => TryRight(lib, at, m, u, base + 1, if v.Null? then Long(0) else v);
    case Array(u) =>
      if v.Arr? {
        ElementsRight(lib, at, Create(m, Objects(u)), u, m.created, v, 0);
        assert EntryValues(v.entries)[0..] == EntryValues(v.entries);
      }
    case Tuple(ts) =>
      if v.Arr? {
        MembersRight(lib, at, m, ts, base + 1, v, 0);
        assert EntryValues(v.entries)[0..] == EntryValues(v.entries) && ts[0..] == ts;
      }
    case Map(_, _) =>
      if v.Arr? {
        MapRight(lib, at, m, t, base, v);
      }
  }

  lemma {:induction false} ElementsRight(lib: Lib, at: Allocator, m: Memo, u: Type, base: nat, v: Value, i: nat)
    requires v.Arr? && i <= |v.entries| && Makeable(m.asks)
    ensures Right(at, m, TryElements(lib, at, m, u, base, v, i), Fault(EncodeAll(lib, u, EntryValues(v.entries)[i..])))
    decreases Rank(v), 0, |v.entries| - i
  {
    hide OneTypePerAddress, Founded, Makeable, TableAfter;
    if i < |v.entries| {
      var e := v.entries[i].1;
      TryRight(lib, at, m, u, base, e);
      assert EntryValues(v.entries)[i..][0] == e && EntryValues(v.entries)[i..][1..] == EntryValues(v.entries)[i + 1..];
      var first := Try(lib, at, m, u, base, e);
      if first.thrown.None? {
        ElementsRight(lib, at, first.memo, u, base, v, i + 1);
      }
    }
  }

  lemma {:induction false} MembersRight(lib: Lib, at: Allocator, m: Memo, ts: seq<Type>, base: nat, v: Value, i: nat)
    requires v.Arr? && i <= |v.entries| && i <= |ts| && Makeable(m.asks)
    ensures Right(at, m, TryMembers(lib, at, m, ts, base, v, i),
                  Fault(EncodeMembers(lib, ts[i..], EntryValues(v.entries)[i..])))
    decreases Rank(v), 0, |v.entries| - i
  {
    hide OneTypePerAddress, Founded, Makeable, TableAfter;
    var vs := EntryValues(v.entries);
    if i < |v.entries| && i < |ts| {
      var e := v.entries[i].1;
      TryRight(lib, at, m, ts[i], base + ObjectsTo(ts, i), e);
      assert vs[i..][0] == e && vs[i..][1..] == vs[i + 1..] && ts[i..][0] == ts[i] && ts[i..][1..] == ts[i + 1..];
      var first := Try(lib, at, m, ts[i], base + ObjectsTo(ts, i), e);
      if first.thrown.None? {
        MembersRight(lib, at, first.memo, ts, base, v, i + 1);
      }
    }
  }

  lemma {:induction false} MapRight(lib: Lib, at: Allocator, m: Memo, t: Type, base: nat, v: Value)
    requires v.Arr? && t.Map? && Makeable(m.asks)
    ensures Right(at, m, Try(lib, at, m, t, base, v), Fault(Encode(lib, t, v)))
    decreases Rank(v), 1, 1
  {
    hide OneTypePerAddress, Founded, TableAfter, TryPair;
    var ask := Ask(at(base, t), t.key, t.val);
    if Servable(m, ask) {
      LookUpKeeps(at, m, base, t);
      var m', pair := LookUp(m, ask), Served(m, ask);
      PairRight(lib, at, m', pair, (t.key, t.val), v);
      var r := TryPair(lib, at, m', pair, (t.key, t.val), v);
      if pair != (t.key, t.val) && OneTypePerAddress(r.memo.asks) {
        PrefixSeesOneType(m'.asks, r.memo.asks);
      }
    }
  }

  lemma {:induction false} PairRight(lib: Lib, at: Allocator, m: Memo, pair: (Type, Type), want: (Type, Type), v: Value)
    requires v.Arr? && Makeable(m.asks)
    ensures var r := TryPair(lib, at, m, pair, want, v);
            && m.asks <= r.memo.asks
            && (Founded(at, m.asks) ==> Founded(at, r.memo.asks)) && Makeable(r.memo.asks)
            && (pair == want ==> Right(at, m, r, Fault(EncodeEntries(lib, Map(pair.0, pair.1), v.entries))))
            && (pair != want ==> r.thrown.Some?)
    decreases Rank(v), 1, 0
  {
    hide OneTypePerAddress, Founded, Makeable, TableAfter;
    EntriesRight(lib, at, Create(m, Objects(pair.0) + Objects(pair.1)), pair, m.created, v, 0);
    assert v.entries[0..] == v.entries;
  }

  lemma {:induction false} EntriesRight(lib: Lib, at: Allocator, m: Memo, pair: (Type, Type), base: nat, v: Value,
                                        i: nat)
    requires v.Arr? && i <= |v.entries| && Makeable(m.asks)
    ensures Right(at, m, TryEntries(lib, at, m, pair, base, v, i),
                  Fault(EncodeEntries(lib, Map(pair.0, pair.1), v.entries[i..])))
    decreases Rank(v), 0, |v.entries| - i
  {
    hide OneTypePerAddress, Founded, Makeable, TableAfter;
    if i < |v.entries| {
      var e := v.entries[i];
      assert v.entries[i..][0] == e && v.entries[i..][1..] == v.entries[i + 1..];
      TryRight(lib, at, m, pair.0, base, KeyValue(e.0));
      var key := Try(lib, at, m, pair.0, base, KeyValue(e.0));
      if key.thrown.None? {
        TryRight(lib, at, key.memo, pair.1, base + Objects(pair.0), e.1);
        var val := Try(lib, at, key.memo, pair.1, base + Objects(pair.0), e.1);
        if val.thrown.None? {
          EntriesRight(lib, at, val.memo, pair, base, v, i + 1);
        }
      }
    }
  }

  /* ---- without Maps there are no lookups ---- */

  lemma {:induction false} NoMapNoLookup(lib: Lib, at: Allocator, m: Memo, t: Type, base: nat, v: Value)
    requires !HasMap(t)
    ensures Try(lib, at, m, t, base, v).memo.asks == m.asks
    decreases Rank(v), 2, t
  {
    match t
    case Sc(_) =>
    case Nullable(u) => NoMapNoLookup(lib, at, m, u, base + 1, if v.Null? then Long(0) else v);
    case Array(u) =>
      if v.Arr? {
        NoMapInElements(lib, at, Create(m, Objects(u)), u, m.created, v, 0);
      }
    case Tuple(ts) =>
      if v.Arr? {
        NoMapInMembers(lib, at, m, ts, base + 1, v, 0);
      }
    case Map(_, _) =>
  }

  lemma {:induction false} NoMapInElements(lib: Lib, at: Allocator, m: Memo, u: Type, base: nat, v: Value, i: nat)
    requires v.Arr? && i <= |v.entries| && !HasMap(u)
    ensures TryElements(lib, at, m, u, base, v, i).memo.asks == m.asks
    decreases Rank(v), 0, |v.entries| - i
  {
    if i < |v.entries| {
      NoMapNoLookup(lib, at, m, u, base, v.entries[i].1);
      var first := Try(lib, at, m, u, base, v.entries[i].1);
      if first.thrown.None? {
        NoMapInElements(lib, at, first.memo, u, base, v, i + 1);
      }
    }
  }

  lemma {:induction false} NoMapInMembers(lib: Lib, at: Allocator, m: Memo, ts: seq<Type>, base: nat, v: Value, i: nat)
    requires v.Arr? && i <= |v.entries| && i <= |ts| && forall j :: 0 <= j < |ts| ==> !HasMap(ts[j])
    ensures TryMembers(lib, at, m, ts, base, v, i).memo.asks == m.asks
    decreases Rank(v), 0, |v.entries| - i
  {
    if i < |v.entries| && i < |ts| {
      var at' := base + ObjectsTo(ts, i);
      NoMapNoLookup(lib, at, m, ts[i], at', v.entries[i].1);
      var first := Try(lib, at, m, ts[i], at', v.entries[i].1);
      if first.thrown.None? {
        NoMapInMembers(lib, at, first.memo, ts, base, v, i + 1);
      }
    }
  }
}
