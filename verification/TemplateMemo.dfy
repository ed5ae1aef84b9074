/** The memo table of Map templates keyed by the raw address of a Type object: when does it
    answer as if every cell made its own templates? */
module TemplateMemo {
  import opened Columns

  /** A lookup: where the Type object of a Map column lies, and the types it is of. */
  datatype Ask = Ask(address: nat, key: Type, val: Type)

  type Table = map<nat, (Type, Type)>

  /** The table after some lookups: the first at an address decides. */
  function TableAfter(asks: seq<Ask>): (table: Table)
    ensures forall k :: 0 <= k < |asks| ==> asks[k].address in table
  {
    if asks == [] then map[]
    else
      var ask, table := asks[|asks| - 1], TableAfter(asks[..|asks| - 1]);
      if ask.address in table then table else table[ask.address := (ask.key, ask.val)]
  }

  /** The template types that the lookups get, each from the table as it is by then. */
  function Serve(asks: seq<Ask>): (served: seq<(Type, Type)>)
    ensures |served| == |asks|
  {
    if asks == [] then []
    else
      var ask := asks[|asks| - 1];
      Serve(asks[..|asks| - 1]) + [TableAfter(asks)[ask.address]]
  }

  /** What they would get without the table. */
  function Fresh(asks: seq<Ask>): (made: seq<(Type, Type)>)
    ensures |made| == |asks|
  {
    seq(|asks|, i requires 0 <= i < |asks| => (asks[i].key, asks[i].val))
  }

  /** While these lookups are made an address denotes one Map type. */
  predicate OneTypePerAddress(asks: seq<Ask>) {
    forall i, j :: 0 <= i < j < |asks| && asks[i].address == asks[j].address ==>
      asks[i].key == asks[j].key && asks[i].val == asks[j].val
  }

  /** Whatever the table holds came from a lookup at that address. */
  lemma {:induction false} TableIsFounded(asks: seq<Ask>, a: nat)
    requires a in TableAfter(asks)
    ensures exists k :: 0 <= k < |asks| && asks[k].address == a && TableAfter(asks)[a] == (asks[k].key, asks[k].val)
  {
    var n := |asks| - 1;
    if a in TableAfter(asks[..n]) {
      TableIsFounded(asks[..n], a);
      var k :| 0 <= k < n && asks[..n][k].address == a
               && TableAfter(asks[..n])[a] == (asks[..n][k].key, asks[..n][k].val);
      assert asks[..n][k] == asks[k];
    } else {
      assert asks[n].address == a;
    }
  }

  lemma {:induction false} TableGrows(asks: seq<Ask>, ask: Ask)
    ensures var table := TableAfter(asks);
            TableAfter(asks + [ask]) == if ask.address in table then table else table[ask.address := (ask.key, ask.val)]
  {
    assert (asks + [ask])[..|asks|] == asks;
  }

  /** One more lookup: given that all was right so far, it gets the types it is of iff all lookups
      together see one type per address. */
  lemma {:induction false} LookupIsRightIff(asks: seq<Ask>, ask: Ask)
    requires OneTypePerAddress(asks)
    ensures TableAfter(asks + [ask])[ask.address] == (ask.key, ask.val) <==> OneTypePerAddress(asks + [ask])
  {
    var all := asks + [ask];
    assert all[..|all| - 1] == asks;
    if ask.address in TableAfter(asks) {
      TableIsFounded(asks, ask.address);
      var k :| 0 <= k < |asks| && asks[k].address == ask.address
               && TableAfter(asks)[ask.address] == (asks[k].key, asks[k].val);
      assert all[k] == asks[k] && all[|asks|] == ask;
    }
  }

  /** Fewer lookups see no more types. */
  lemma {:induction false} PrefixSeesOneType(asks: seq<Ask>, all: seq<Ask>)
    requires asks <= all && OneTypePerAddress(all)
    ensures OneTypePerAddress(asks)
  {
  }

  /** Sharing the table is invisible iff, as long as the insert lasts, no address is used for
      two Map types. */
  lemma {:induction false} MemoAgreesIff(asks: seq<Ask>)
    ensures Serve(asks) == Fresh(asks) <==> OneTypePerAddress(asks)
  {
    if asks != [] {
      var n := |asks| - 1;
      var front, ask := asks[..n], asks[n];
      assert asks == front + [ask];
      MemoAgreesIff(front);
      assert Fresh(asks) == Fresh(front) + [(ask.key, ask.val)];
      assert Serve(asks)[..n] == Serve(front) && Fresh(asks)[..n] == Fresh(front);
      if OneTypePerAddress(asks) {
        PrefixSeesOneType(front, asks);
      }
      if OneTypePerAddress(front) {
        LookupIsRightIff(front, ask);
      }
    }
  }

  /** The failing case: two nested Map types, one freed, the other made at the same address. The
      second is served the templates of the first. */
  lemma {:induction false} ReusedAddressIsServedWrong(a: nat, text: Type, number: Type)
    requires text != number
    ensures var asks := [Ask(a, text, number), Ask(a, number, text)];
            Serve(asks)[1] == (text, number) && Fresh(asks)[1] == (number, text) && !OneTypePerAddress(asks)
  {
    var asks := [Ask(a, text, number), Ask(a, number, text)];
    assert asks[..1] == [asks[0]] && asks[..1][..0] == [];
    assert TableAfter([asks[0]]) == map[a := (text, number)];
    assert asks[0].address == asks[1].address && asks[0].key != asks[1].key;
  }
}
