/** The television channel list: display order from saved preferences, editing, and zapping. */
module ChannelOrder {
  import opened Wrappers
  import opened StableSort

  /** A catalog channel: its stable key, the id derived from it, and the id the catalog once gave it. */
  datatype Channel = Channel(key: string, id: string, legacy: string)

  datatype Preferences = Preferences(order: seq<string>, hidden: seq<string>)

  datatype Row = Row(channel: Channel, position: nat, visible: bool, number: Option<nat>)

  datatype EditError = Duplicates | UnknownChannel | NothingVisible

  // ----- lists of keys -------------------------------------------------------------------------

  predicate Distinct(s: seq<string>) {
    forall i, j | 0 <= i < j < |s| :: s[i] != s[j]
  }

  function Members(s: seq<string>): set<string> {
    set x | x in s
  }

  /** First occurrences only, as `dict.fromkeys` keeps them. */
  function Dedupe(s: seq<string>): seq<string> {
    if s == [] then []
    else
      var front := Dedupe(s[..|s| - 1]);
      if s[|s| - 1] in front then front else front + [s[|s| - 1]]
  }

  /** Position of a key, |s| when absent. */
  function IndexOf(s: seq<string>, key: string): nat {
    if s == [] || s[0] == key then 0 else 1 + IndexOf(s[1..], key)
  }

  function Without(s: seq<string>, keys: set<string>): seq<string> {
    if s == [] then []
    else if s[0] in keys then Without(s[1..], keys)
    else [s[0]] + Without(s[1..], keys)
  }

  lemma {:induction false} WithoutMembers(s: seq<string>, keys: set<string>)
    ensures forall x :: x in Without(s, keys) <==> x in s && x !in keys
    ensures Distinct(s) ==> Distinct(Without(s, keys))
  {
    if s != [] {
      WithoutMembers(s[1..], keys);
      assert forall x :: x in s <==> x == s[0] || x in s[1..];
      if Distinct(s) {
        assert Distinct(s[1..]);
        forall j | 0 <= j < |Without(s[1..], keys)|
          ensures Without(s[1..], keys)[j] != s[0]
        {
          assert Without(s[1..], keys)[j] in Without(s[1..], keys);
          HeadNotInTail(s);
        }
      }
    }
  }

  lemma HeadNotInTail(s: seq<string>)
    requires s != [] && Distinct(s)
    ensures s[0] !in s[1..]
  {
  }

  lemma {:induction false} IndexOfFacts(s: seq<string>, key: string)
    ensures IndexOf(s, key) <= |s|
    ensures key in s <==> IndexOf(s, key) < |s|
    ensures key in s ==> s[IndexOf(s, key)] == key
  {
    if s != [] && s[0] != key {
      IndexOfFacts(s[1..], key);
      assert key in s <==> key in s[1..];
    }
  }

  lemma {:induction false} IndexOfPrefix(s: seq<string>, rest: seq<string>, key: string)
    requires key in s
    ensures IndexOf(s + rest, key) == IndexOf(s, key)
  {
    if s[0] != key {
      assert (s + rest)[1..] == s[1..] + rest;
      IndexOfPrefix(s[1..], rest, key);
    }
  }

  lemma {:induction false} DedupeMembers(s: seq<string>)
    ensures forall x :: x in Dedupe(s) <==> x in s
  {
    if s != [] {
      var n := |s| - 1;
      DedupeMembers(s[..n]);
      assert forall x :: x in s <==> x == s[n] || x in s[..n] by { assert s == s[..n] + [s[n]]; }
    }
  }

  lemma {:induction false} DedupeOfDistinct(s: seq<string>)
    requires Distinct(s)
    ensures Dedupe(s) == s
  {
    if s != [] {
      var n := |s| - 1;
      DedupeOfDistinct(s[..n]);
      assert s[n] !in s[..n];
      assert s == s[..n] + [s[n]];
    }
  }

  lemma DedupeSnoc(s: seq<string>, x: string)
    ensures Dedupe(s + [x]) == if x in Dedupe(s) then Dedupe(s) else Dedupe(s) + [x]
  {
    assert (s + [x])[..|s|] == s;
  }

  lemma {:induction false} DedupeDistinct(s: seq<string>)
    ensures Distinct(Dedupe(s))
  {
    if s != [] {
      DedupeDistinct(s[..|s| - 1]);
    }
  }

  /** Later entries never change how the earlier ones are ordered. */
  lemma {:induction false} DedupeExtends(s: seq<string>, rest: seq<string>)
    ensures Dedupe(s) <= Dedupe(s + rest)
    decreases |rest|
  {
    if rest == [] {
      assert s + rest == s;
    } else {
      var front, x := rest[..|rest| - 1], rest[|rest| - 1];
      assert s + rest == s + front + [x];
      DedupeExtends(s, front);
      DedupeSnoc(s + front, x);
    }
  }

  lemma {:induction false} DedupeJoin(a: seq<string>, b: seq<string>)
    requires Distinct(a) && forall x | x in b :: x !in a
    ensures Dedupe(a + b) == a + Dedupe(b)
    decreases |b|
  {
    if b == [] {
      DedupeOfDistinct(a);
      assert a + b == a;
    } else {
      var front, x := b[..|b| - 1], b[|b| - 1];
      assert b == front + [x] && a + b == a + front + [x];
      DedupeJoin(a, front);
      DedupeSnoc(a + front, x);
      DedupeSnoc(front, x);
    }
  }

  lemma {:induction false} WithoutSnoc(s: seq<string>, x: string, keys: set<string>)
    ensures Without(s + [x], keys) == Without(s, keys) + (if x in keys then [] else [x])
  {
    if s != [] {
      assert (s + [x])[1..] == s[1..] + [x];
      WithoutSnoc(s[1..], x, keys);
    }
  }

  lemma {:induction false} DedupeWithout(s: seq<string>, keys: set<string>)
    ensures Dedupe(Without(s, keys)) == Without(Dedupe(s), keys)
    decreases |s|
  {
    if s != [] {
      var front, x := s[..|s| - 1], s[|s| - 1];
      assert s == front + [x];
      DedupeWithout(front, keys);
      DedupeSnoc(front, x);
      WithoutSnoc(front, x, keys);
      WithoutSnoc(Dedupe(front), x, keys);
      WithoutMembers(Dedupe(front), keys);
      DedupeSnoc(Without(front, keys), x);
      assert Without(front, keys) + [] == Without(front, keys);
      assert Without(Dedupe(front), keys) + [] == Without(Dedupe(front), keys);
    }
  }

  /** The places of `keys` in `listed` never go back. */
  predicate Climbs(keys: seq<string>, listed: seq<string>) {
    forall i, j | 0 <= i < j < |keys| :: IndexOf(listed, keys[i]) <= IndexOf(listed, keys[j])
  }

  lemma {:induction false} DedupeClimbs(keys: seq<string>, listed: seq<string>)
    requires Climbs(keys, listed)
    ensures Climbs(Dedupe(keys), listed)
    decreases |keys|
  {
    if keys != [] {
      var front, x := keys[..|keys| - 1], keys[|keys| - 1];
      DedupeClimbs(front, listed);
      DedupeMembers(front);
      forall i | 0 <= i < |Dedupe(front)|
        ensures IndexOf(listed, Dedupe(front)[i]) <= IndexOf(listed, x)
      {
        assert Dedupe(front)[i] in Dedupe(front);
        var k :| 0 <= k < |front| && front[k] == Dedupe(front)[i];
        assert keys[k] == front[k];
      }
    }
  }

  /** Keys that climb through `listed` and are exactly its members are, repetitions apart, `listed`. */
  lemma ClimbersAreListed(keys: seq<string>, listed: seq<string>)
    requires Climbs(keys, listed) && Distinct(listed) && Members(keys) == Members(listed)
    ensures Dedupe(keys) == listed
  {
    var d := Dedupe(keys);
    DedupeClimbs(keys, listed);
    DedupeDistinct(keys);
    DedupeMembers(keys);
    assert Members(d) == Members(listed);
    DistinctSize(d);
    DistinctSize(listed);
    forall i | 0 <= i < |d|
      ensures d[i] in listed
    {
      assert d[i] in Members(d);
    }
    forall i, j | 0 <= i < j < |d|
      ensures IndexOf(listed, d[i]) < IndexOf(listed, d[j])
    {
      IndexOfFacts(listed, d[i]);
      IndexOfFacts(listed, d[j]);
    }
    IndexPinsDown(d, listed);
  }

  lemma {:induction false} DistinctSize(s: seq<string>)
    requires Distinct(s)
    ensures |Members(s)| == |s|
  {
    if s == [] {
      assert Members(s) == {};
    } else {
      assert Distinct(s[1..]);
      DistinctSize(s[1..]);
      HeadNotInTail(s);
      assert Members(s) == {s[0]} + Members(s[1..]);
    }
  }

  // ----- display order -------------------------------------------------------------------------

  /** A channel with its place in the catalog. */
  datatype Placed = Placed(channel: Channel, index: nat)

  /** Preferred channels first, in preference order, then the others as the catalog has them. */
  predicate Before(order: seq<string>, a: Placed, b: Placed) {
    var ia, ib := IndexOf(order, a.channel.key), IndexOf(order, b.channel.key);
    ia < ib || (ia == ib && a.index <= b.index)
  }

  function Place(catalog: seq<Channel>): (placed: seq<Placed>)
    ensures |placed| == |catalog| && forall i | 0 <= i < |catalog| :: placed[i] == Placed(catalog[i], i)
  {
    seq(|catalog|, i requires 0 <= i < |catalog| => Placed(catalog[i], i))
  }

  function DisplayOrder(catalog: seq<Channel>, prefs: Preferences): seq<Placed> {
    var order := Dedupe(prefs.order);
    Sorted(Place(catalog), (a: Placed, b: Placed) => Before(order, a, b))
  }

  function Keys(placed: seq<Placed>): (keys: seq<string>)
    ensures |keys| == |placed| && forall i | 0 <= i < |placed| :: keys[i] == placed[i].channel.key
  {
    seq(|placed|, i requires 0 <= i < |placed| => placed[i].channel.key)
  }

  function CatalogKeys(catalog: seq<Channel>): (keys: seq<string>)
    ensures |keys| == |catalog| && forall i | 0 <= i < |catalog| :: keys[i] == catalog[i].key
  {
    seq(|catalog|, i requires 0 <= i < |catalog| => catalog[i].key)
  }

  /** How many of the first `n` channels are shown. */
  function Shown(placed: seq<Placed>, hidden: seq<string>, n: nat): nat
    requires n <= |placed|
  {
    if n == 0 then 0 else Shown(placed, hidden, n - 1) + (if placed[n - 1].channel.key in hidden then 0 else 1)
  }

  function RowAt(placed: seq<Placed>, hidden: seq<string>, i: nat): Row
    requires i < |placed|
  {
    var visible := placed[i].channel.key !in hidden;
    Row(placed[i].channel, i + 1, visible, if visible then Some(Shown(placed, hidden, i + 1)) else None)
  }

  function Rows(placed: seq<Placed>, hidden: seq<string>): (rows: seq<Row>)
    ensures |rows| == |placed| && forall i | 0 <= i < |placed| :: rows[i] == RowAt(placed, hidden, i)
  {
    seq(|placed|, i requires 0 <= i < |placed| => RowAt(placed, hidden, i))
  }

  function VisibleRows(rows: seq<Row>): seq<Row> {
    if rows == [] then []
    else if rows[0].visible then [rows[0]] + VisibleRows(rows[1..])
    else VisibleRows(rows[1..])
  }

  method OrderedChannels(catalog: seq<Channel>, prefs: Preferences, includeHidden: bool) returns (result: seq<Row>)
    ensures var rows := Rows(DisplayOrder(catalog, prefs), prefs.hidden);
            result == if includeHidden then rows else VisibleRows(rows)
  {
    var decorated := DisplayOrder(catalog, prefs);
    var rows: seq<Row>, visibleNumber := [], 0;
    for i := 0 to |decorated|
      invariant |rows| == i && visibleNumber == Shown(decorated, prefs.hidden, i)
      invariant forall j | 0 <= j < i :: rows[j] == RowAt(decorated, prefs.hidden, j)
    {
      var visible := decorated[i].channel.key !in prefs.hidden;
      if visible {
        visibleNumber := visibleNumber + 1;
      }
      rows := rows + [Row(decorated[i].channel, i + 1, visible, if visible then Some(visibleNumber) else None)];
    }
    assert rows == Rows(decorated, prefs.hidden);
    result := if includeHidden then rows else VisibleRows(rows);
  }

  lemma {:induction false} VisibleNumbers(placed: seq<Placed>, hidden: seq<string>, from: nat)
    requires from <= |placed|
    ensures var shown := VisibleRows(Rows(placed, hidden)[from..]);
            && (forall r | r in shown :: r.visible)
            && (forall k | 0 <= k < |shown| :: shown[k].number == Some(Shown(placed, hidden, from) + k + 1))
    decreases |placed| - from
  {
    var rows := Rows(placed, hidden);
    if from < |placed| {
      VisibleNumbers(placed, hidden, from + 1);
      assert rows[from..][1..] == rows[from + 1..];
    }
  }

  /** Visible channels are numbered 1, 2, 3 and so on in display order. */
  lemma NumbersAreConsecutive(placed: seq<Placed>, hidden: seq<string>)
    ensures var shown := VisibleRows(Rows(placed, hidden));
            forall k | 0 <= k < |shown| :: shown[k].visible && shown[k].number == Some(k + 1)
  {
    VisibleNumbers(placed, hidden, 0);
    assert Rows(placed, hidden)[0..] == Rows(placed, hidden);
    var shown := VisibleRows(Rows(placed, hidden));
    assert forall k | 0 <= k < |shown| :: shown[k] in shown;
  }

  /** Every channel has a row at its position, hidden exactly when its key is, and then without a number. */
  lemma RowsAre(placed: seq<Placed>, hidden: seq<string>, i: nat)
    requires i < |placed|
    ensures var row := Rows(placed, hidden)[i];
            && row.channel == placed[i].channel && row.position == i + 1
            && (row.visible <==> placed[i].channel.key !in hidden) && (row.number.Some? <==> row.visible)
  {
  }

  /** The viewer's list is the visible rows, all of them and in their order. */
  lemma {:induction false} VisibleRowsAre(rows: seq<Row>)
    ensures forall r :: r in VisibleRows(rows) <==> r in rows && r.visible
    ensures forall k | 0 <= k < |rows| :: VisibleRows(rows) == VisibleRows(rows[..k]) + VisibleRows(rows[k..])
  {
    if rows != [] {
      VisibleRowsAre(rows[1..]);
      assert forall r :: r in rows <==> r == rows[0] || r in rows[1..];
      forall k | 0 <= k < |rows|
        ensures VisibleRows(rows) == VisibleRows(rows[..k]) + VisibleRows(rows[k..])
      {
        if k == 0 {
          assert rows[..0] == [] && rows[0..] == rows;
        } else {
          assert rows[..k][1..] == rows[1..][..k - 1] && rows[k..] == rows[1..][k - 1..];
        }
      }
    }
  }

  lemma BeforeIsTotal(order: seq<string>)
    ensures TotalPreorder((a: Placed, b: Placed) => Before(order, a, b))
  {
  }

  lemma DisplayFacts(catalog: seq<Channel>, prefs: Preferences)
    ensures var shown := DisplayOrder(catalog, prefs);
            && multiset(shown) == multiset(Place(catalog))
            && forall i, j | 0 <= i < j < |shown| :: Before(Dedupe(prefs.order), shown[i], shown[j])
  {
    var order := Dedupe(prefs.order);
    var le := (a: Placed, b: Placed) => Before(order, a, b);
    BeforeIsTotal(order);
    SortedSorts(Place(catalog), le);
    SortedMultiset(Place(catalog), le);
    var shown := DisplayOrder(catalog, prefs);
    forall i, j | 0 <= i < j < |shown|
      ensures Before(order, shown[i], shown[j])
    {
      assert le(shown[i], shown[j]);
    }
  }

  lemma {:induction false} IndexOfSnoc(s: seq<string>, x: string, key: string)
    ensures IndexOf(s + [x], key) == if key in s then IndexOf(s, key) else if key == x then |s| else |s| + 1
  {
    if s == [] {
      assert [] + [x] == [x] && [x][1..] == [];
    } else {
      assert (s + [x])[1..] == s[1..] + [x];
      IndexOfSnoc(s[1..], x, key);
    }
  }

  /** Dropping repetitions keeps first places in order, absent keys last. */
  lemma {:induction false} DedupeKeepsOrder(s: seq<string>, a: string, b: string)
    ensures IndexOf(Dedupe(s), a) <= IndexOf(Dedupe(s), b) <==> IndexOf(s, a) <= IndexOf(s, b)
    decreases |s|
  {
    if s != [] {
      var front, x := s[..|s| - 1], s[|s| - 1];
      assert s == front + [x];
      DedupeKeepsOrder(front, a, b);
      DedupeSnoc(front, x);
      DedupeMembers(front);
      IndexOfSnoc(front, x, a);
      IndexOfSnoc(front, x, b);
      IndexOfSnoc(Dedupe(front), x, a);
      IndexOfSnoc(Dedupe(front), x, b);
      IndexOfFacts(front, a);
      IndexOfFacts(front, b);
      IndexOfFacts(Dedupe(front), a);
      IndexOfFacts(Dedupe(front), b);
    }
  }

  /** For any preferences the display is the whole catalog: channels whose keys are listed come in the order
      in which the list first names them, the others after them, and equals as the catalog has them. */
  lemma DisplayIs(catalog: seq<Channel>, prefs: Preferences)
    ensures var shown := DisplayOrder(catalog, prefs);
            && multiset(shown) == multiset(Place(catalog))
            && forall i, j | 0 <= i < j < |shown| ::
                 var a, b := shown[i], shown[j];
                 var x, y := IndexOf(prefs.order, a.channel.key), IndexOf(prefs.order, b.channel.key);
                 x < y || (x == y && a.index < b.index)
  {
    var shown := DisplayOrder(catalog, prefs);
    DisplayFacts(catalog, prefs);
    forall i, j | 0 <= i < j < |shown|
      ensures var a, b := shown[i], shown[j];
              var x, y := IndexOf(prefs.order, a.channel.key), IndexOf(prefs.order, b.channel.key);
              x < y || (x == y && a.index < b.index)
    {
      var a, b := shown[i], shown[j];
      assert Before(Dedupe(prefs.order), a, b);
      DedupeKeepsOrder(prefs.order, a.channel.key, b.channel.key);
      DedupeKeepsOrder(prefs.order, b.channel.key, a.channel.key);
      PlacesDiffer(catalog, shown, i, j);
    }
  }

  lemma PlacesDiffer(catalog: seq<Channel>, shown: seq<Placed>, i: nat, j: nat)
    requires i < j < |shown| && multiset(shown) == multiset(Place(catalog))
    ensures shown[i].index != shown[j].index
  {
    SameMembers(shown, Place(catalog));
    assert shown[i] in Place(catalog) && shown[j] in Place(catalog);
    if shown[i].index == shown[j].index {
      assert shown[i] == shown[j];
      Twice(shown, i, j);
      Once(Place(catalog), shown[i]);
    }
  }

  lemma ListedInOrder(catalog: seq<Channel>, prefs: Preferences, listed: seq<string>)
    requires listed <= Dedupe(prefs.order) && Members(listed) == Members(CatalogKeys(catalog))
    ensures Climbs(Keys(DisplayOrder(catalog, prefs)), listed)
  {
    var shown, order := DisplayOrder(catalog, prefs), Dedupe(prefs.order);
    DisplayFacts(catalog, prefs);
    KnownKeys(catalog, prefs);
    assert order == listed + order[|listed|..];
    forall i | 0 <= i < |shown|
      ensures IndexOf(order, Keys(shown)[i]) == IndexOf(listed, Keys(shown)[i])
    {
      assert Keys(shown)[i] in Members(Keys(shown));
      IndexOfPrefix(listed, order[|listed|..], Keys(shown)[i]);
    }
    assert forall i, j | 0 <= i < j < |shown| :: Before(order, shown[i], shown[j]);
  }

  /** When the preferences list all catalog keys first, that list is the display order; channels that share a
      key stand together, so exactly when keys are distinct no repetition has to be removed. */
  lemma OrderIsAsListed(catalog: seq<Channel>, prefs: Preferences, listed: seq<string>)
    requires listed <= Dedupe(prefs.order) && Members(listed) == Members(CatalogKeys(catalog))
    ensures Dedupe(Keys(DisplayOrder(catalog, prefs))) == listed && Climbs(Keys(DisplayOrder(catalog, prefs)), listed)
    ensures Distinct(CatalogKeys(catalog)) <==> Keys(DisplayOrder(catalog, prefs)) == listed
  {
    var keys := Keys(DisplayOrder(catalog, prefs));
    KnownKeys(catalog, prefs);
    DedupeDistinct(prefs.order);
    assert Distinct(listed) by {
      assert forall i | 0 <= i < |listed| :: listed[i] == Dedupe(prefs.order)[i];
    }
    ListedInOrder(catalog, prefs, listed);
    ClimbersAreListed(keys, listed);
    if Distinct(CatalogKeys(catalog)) {
      DedupeOfDistinct(keys);
    } else if keys == listed {
      DistinctSize(listed);
      MembersRepeat(CatalogKeys(catalog));
      DisplayFacts(catalog, prefs);
      SameMembers(DisplayOrder(catalog, prefs), Place(catalog));
    }
  }

  /** A list with repetitions has fewer members than entries. */
  lemma {:induction false} MembersRepeat(s: seq<string>)
    ensures |Members(s)| <= |s|
    ensures !Distinct(s) ==> |Members(s)| < |s|
    decreases |s|
  {
    if s == [] {
      assert Members(s) == {};
    } else {
      var rest := s[1..];
      MembersRepeat(rest);
      assert Members(s) == {s[0]} + Members(rest);
      if s[0] in rest {
        assert Members(s) == Members(rest);
      } else {
        HeadIsNew(s);
      }
    }
  }

  lemma HeadIsNew(s: seq<string>)
    requires s != [] && s[0] !in s[1..]
    ensures Distinct(s[1..]) ==> Distinct(s)
  {
    assert forall k | 0 <= k < |s[1..]| :: s[1..][k] == s[k + 1] && s[1..][k] in s[1..];
  }

  lemma ShownKeysDistinct(catalog: seq<Channel>, shown: seq<Placed>)
    requires Distinct(CatalogKeys(catalog))
    requires multiset(shown) == multiset(Place(catalog))
    ensures |shown| == |catalog|
    ensures forall p :: p in shown <==> p in Place(catalog)
    ensures Distinct(Keys(shown))
  {
    SameMembers(shown, Place(catalog));
    forall i, j | 0 <= i < j < |shown|
      ensures Keys(shown)[i] != Keys(shown)[j]
    {
      PlacedOnce(catalog, shown, i, j);
    }
  }

  lemma PlacedOnce(catalog: seq<Channel>, shown: seq<Placed>, i: nat, j: nat)
    requires Distinct(CatalogKeys(catalog)) && i < j < |shown|
    requires multiset(shown) == multiset(Place(catalog))
    ensures shown[i].channel.key != shown[j].channel.key
  {
    SameMembers(shown, Place(catalog));
    assert shown[i] in Place(catalog) && shown[j] in Place(catalog);
    var a :| 0 <= a < |catalog| && Place(catalog)[a] == shown[i];
    var b :| 0 <= b < |catalog| && Place(catalog)[b] == shown[j];
    if shown[i].channel.key == shown[j].channel.key {
      assert CatalogKeys(catalog)[a] == CatalogKeys(catalog)[b];
      assert a == b;
      Twice(shown, i, j);
      Once(Place(catalog), shown[i]);
    }
  }

  /** Keys whose positions in `listed` strictly increase, as many as are listed, are `listed`. */
  lemma IndexPinsDown(keys: seq<string>, listed: seq<string>)
    requires |keys| == |listed| && Distinct(listed)
    requires forall i | 0 <= i < |keys| :: keys[i] in listed
    requires forall i, j | 0 <= i < j < |keys| :: IndexOf(listed, keys[i]) < IndexOf(listed, keys[j])
    ensures keys == listed
  {
    forall i | 0 <= i < |keys|
      ensures keys[i] == listed[i]
    {
      AtLeast(keys, listed, i);
      AtMost(keys, listed, i);
      IndexOfFacts(listed, keys[i]);
    }
  }

  lemma {:induction false} AtLeast(keys: seq<string>, listed: seq<string>, i: nat)
    requires i < |keys|
    requires forall i, j | 0 <= i < j < |keys| :: IndexOf(listed, keys[i]) < IndexOf(listed, keys[j])
    ensures IndexOf(listed, keys[i]) >= i
  {
    if i > 0 {
      AtLeast(keys, listed, i - 1);
    }
  }

  lemma {:induction false} AtMost(keys: seq<string>, listed: seq<string>, i: nat)
    requires i < |keys| == |listed|
    requires forall i | 0 <= i < |keys| :: keys[i] in listed
    requires forall i, j | 0 <= i < j < |keys| :: IndexOf(listed, keys[i]) < IndexOf(listed, keys[j])
    ensures IndexOf(listed, keys[i]) <= i
    decreases |keys| - i
  {
    if i == |keys| - 1 {
      IndexOfFacts(listed, keys[i]);
    } else {
      AtMost(keys, listed, i + 1);
    }
  }

  // ----- editing -------------------------------------------------------------------------------

  /** The order an accepted edit stores: as submitted, then the catalog's other channels as they stood,
      then the keys of channels no longer in the catalog. */
  function FinalOrder(catalog: seq<Channel>, prefs: Preferences, order: seq<string>): seq<string> {
    var current := Keys(DisplayOrder(catalog, prefs));
    order + Without(current, Members(order)) + Retired(catalog, prefs.order)
  }

  function Retired(catalog: seq<Channel>, order: seq<string>): seq<string> {
    Without(order, Members(CatalogKeys(catalog)))
  }

  function Edited(catalog: seq<Channel>, prefs: Preferences, order: seq<string>, visible: seq<string>): Result<Preferences, EditError> {
    var known := Members(CatalogKeys(catalog));
    if !Distinct(order) || !Distinct(visible) then Err(Duplicates)
    else if !(Members(order) <= known) || !(Members(visible) <= known) then Err(UnknownChannel)
    else if visible == [] then Err(NothingVisible)
    else Ok(Preferences(FinalOrder(catalog, prefs, order), Without(CatalogKeys(catalog), Members(visible))))
  }

  lemma KnownKeys(catalog: seq<Channel>, prefs: Preferences)
    ensures Members(Keys(DisplayOrder(catalog, prefs))) == Members(CatalogKeys(catalog))
    ensures Distinct(CatalogKeys(catalog)) ==> Distinct(Keys(DisplayOrder(catalog, prefs)))
  {
    var shown := DisplayOrder(catalog, prefs);
    DisplayFacts(catalog, prefs);
    SameMembers(shown, Place(catalog));
    forall x
      ensures x in Keys(shown) <==> x in CatalogKeys(catalog)
    {
      if x in Keys(shown) {
        var i :| 0 <= i < |shown| && Keys(shown)[i] == x;
        assert shown[i] in Place(catalog);
        var a :| 0 <= a < |catalog| && Place(catalog)[a] == shown[i];
        assert CatalogKeys(catalog)[a] == x;
      }
      if x in CatalogKeys(catalog) {
        var a :| 0 <= a < |catalog| && CatalogKeys(catalog)[a] == x;
        assert Place(catalog)[a] in shown;
        var i :| 0 <= i < |shown| && shown[i] == Place(catalog)[a];
        assert Keys(shown)[i] == x;
      }
    }
    if Distinct(CatalogKeys(catalog)) {
      ShownKeysDistinct(catalog, shown);
    }
  }

  /** After an accepted edit the editor shows, repetitions of a shared key apart, the submitted order, then
      the unmentioned channels in their previous order, and exactly so when stable keys are distinct; exactly
      the submitted channels are visible; and the keys of retired channels keep their relative order. */
  lemma EditIsHonoured(catalog: seq<Channel>, prefs: Preferences, order: seq<string>, visible: seq<string>)
    requires Edited(catalog, prefs, order, visible).Ok?
    ensures var next := Edited(catalog, prefs, order, visible).value;
            var listed := order + Without(Dedupe(Keys(DisplayOrder(catalog, prefs))), Members(order));
            && Dedupe(Keys(DisplayOrder(catalog, next))) == listed
            && (Distinct(CatalogKeys(catalog)) <==> Keys(DisplayOrder(catalog, next)) == listed)
            && Retired(catalog, next.order) == Retired(catalog, prefs.order)
            && (forall p | p in DisplayOrder(catalog, next) ::
                  p.channel.key !in next.hidden <==> p.channel.key in visible)
  {
    var current, known := Keys(DisplayOrder(catalog, prefs)), Members(CatalogKeys(catalog));
    var missing, next := Without(current, Members(order)), Edited(catalog, prefs, order, visible).value;
    var listed := order + Without(Dedupe(current), Members(order));
    KnownKeys(catalog, prefs);
    WithoutMembers(current, Members(order));
    DedupeMembers(current);
    WithoutMembers(Dedupe(current), Members(order));
    DedupeJoin(order, missing);
    DedupeWithout(current, Members(order));
    assert Members(listed) == known;
    DedupeExtends(order + missing, Retired(catalog, prefs.order));
    OrderIsAsListed(catalog, next, listed);
    assert forall x | x in order + missing :: x in known;
    RetiredKept(order + missing, prefs.order, known);
    VisibleAsSubmitted(catalog, next, visible);
  }

  /** Which edits are accepted, and the error of the others: repetitions first, then keys no channel has, then
      an empty screen. */
  lemma EditAcceptedIff(catalog: seq<Channel>, prefs: Preferences, order: seq<string>, visible: seq<string>)
    ensures var repeats := (exists i, j :: 0 <= i < j < |order| && order[i] == order[j])
                           || (exists i, j :: 0 <= i < j < |visible| && visible[i] == visible[j]);
            var unknown := exists k :: (k in order || k in visible) && k !in CatalogKeys(catalog);
            var r := Edited(catalog, prefs, order, visible);
            && (r == Err(Duplicates) <==> repeats)
            && (r == Err(UnknownChannel) <==> !repeats && unknown)
            && (r == Err(NothingVisible) <==> !repeats && !unknown && visible == [])
            && (r.Ok? <==> !repeats && !unknown && visible != [])
  {
    var known := Members(CatalogKeys(catalog));
    assert Members(order) <= known <==> forall k | k in order :: k in CatalogKeys(catalog) by {
      assert forall k :: k in Members(order) <==> k in order;
      assert forall k :: k in known <==> k in CatalogKeys(catalog);
    }
    assert Members(visible) <= known <==> forall k | k in visible :: k in CatalogKeys(catalog) by {
      assert forall k :: k in Members(visible) <==> k in visible;
      assert forall k :: k in known <==> k in CatalogKeys(catalog);
    }
  }

  lemma VisibleAsSubmitted(catalog: seq<Channel>, next: Preferences, visible: seq<string>)
    requires next.hidden == Without(CatalogKeys(catalog), Members(visible))
    ensures forall p | p in DisplayOrder(catalog, next) ::
              p.channel.key !in next.hidden <==> p.channel.key in visible
  {
    KnownKeys(catalog, next);
    WithoutMembers(CatalogKeys(catalog), Members(visible));
    forall p | p in DisplayOrder(catalog, next)
      ensures p.channel.key !in next.hidden <==> p.channel.key in visible
    {
      var shown := DisplayOrder(catalog, next);
      var i :| 0 <= i < |shown| && shown[i] == p;
      assert Keys(shown)[i] in Members(Keys(shown));
    }
  }

  lemma {:induction false} RetiredKept(listed: seq<string>, order: seq<string>, known: set<string>)
    requires forall x | x in listed :: x in known
    ensures Without(listed + Without(order, known), known) == Without(order, known)
    decreases |listed|
  {
    var rest := Without(order, known);
    if listed == [] {
      assert listed + rest == rest;
      WithoutTwice(order, known);
    } else {
      assert (listed + rest)[1..] == listed[1..] + rest && listed[0] in listed;
      RetiredKept(listed[1..], order, known);
    }
  }

  lemma {:induction false} WithoutTwice(order: seq<string>, known: set<string>)
    ensures Without(Without(order, known), known) == Without(order, known)
  {
    if order != [] {
      WithoutTwice(order[1..], known);
    }
  }

  // ----- zapping -------------------------------------------------------------------------------

  datatype Playing = Playing(key: string, id: string)

  predicate IsPlaying(c: Channel, p: Playing) {
    c.key == p.key || c.id == p.id
  }

  /** First row that satisfies the current state, |rows| if none does. */
  function CurrentIndex(rows: seq<Row>, p: Playing): nat {
    if rows == [] || IsPlaying(rows[0].channel, p) then 0 else 1 + CurrentIndex(rows[1..], p)
  }

  predicate Answers(c: Channel, ref: string) {
    c.id == ref || c.key == ref || c.legacy == ref
  }

  function FirstAnswer(rows: seq<Row>, ref: string): Option<Channel> {
    if rows == [] then None
    else if Answers(rows[0].channel, ref) then Some(rows[0].channel)
    else FirstAnswer(rows[1..], ref)
  }

  /** `x` brought back into a ring of `n` places it has left by less than a turn. */
  function Wrap(x: int, n: nat): nat
    requires 0 <= x + n && x < 2 * n
  {
    if x < 0 then x + n else if x < n then x else x - n
  }

  lemma AtLeastOne(k: int, n: int)
    requires n > 0
    ensures k >= 1 ==> k * n >= n
    ensures k <= -1 ==> k * n <= -n
  {
    if k >= 1 {
      assert (k - 1) * n >= 0;
    } else if k <= -1 {
      assert (-k - 1) * n >= 0;
    }
  }

  lemma RemainderIs(x: int, q: int, r: int, n: int)
    requires n > 0 && 0 <= r < n && x == q * n + r
    ensures x % n == r
  {
    var d := x / n;
    assert (q - d) * n == x % n - r;
    AtLeastOne(q - d, n);
  }

  /** The modulo of the source is this wrapping. */
  lemma WrapIsMod(x: int, n: nat)
    requires n > 0 && 0 <= x + n && x < 2 * n
    ensures x % n == Wrap(x, n) < n
  {
    var q := if x < 0 then -1 else if x < n then 0 else 1;
    RemainderIs(x, q, Wrap(x, n), n);
  }

  function NextIndex(count: nat, current: nat, forward: bool): (k: nat)
    requires count > 0
    ensures k < count
  {
    var index := if current < count then current as int else if forward then -1 else 0;
    Wrap(index + (if forward then 1 else -1), count)
  }

  class Television {
    var catalog: seq<Channel>
    var prefs: Preferences
    var playing: Playing

    constructor (catalog: seq<Channel>, prefs: Preferences, playing: Playing)
      ensures this.catalog == catalog && this.prefs == prefs && this.playing == playing
    {
      this.catalog, this.prefs, this.playing := catalog, prefs, playing;
    }

    method SavePreferences(order: seq<string>, visible: seq<string>) returns (r: Result<Preferences, EditError>)
      modifies `prefs
      ensures r == Edited(catalog, old(prefs), order, visible)
      ensures prefs == if r.Ok? then r.value else old(prefs)
    {
      var current := Keys(DisplayOrder(catalog, prefs));
      var known := Members(CatalogKeys(catalog));
      if !Distinct(order) || !Distinct(visible) {
        return Err(Duplicates);
      }
      if Members(order) - known != {} || Members(visible) - known != {} {
        SubsetDifference(Members(order), known);
        SubsetDifference(Members(visible), known);
        return Err(UnknownChannel);
      }
      SubsetDifference(Members(order), known);
      SubsetDifference(Members(visible), known);
      if visible == [] {
        return Err(NothingVisible);
      }
      var missing := Without(current, Members(order));
      var retired := Without(prefs.order, known);
      prefs := Preferences(order + missing + retired, Without(CatalogKeys(catalog), Members(visible)));
      return Ok(prefs);
    }

    /** One step forward or back; false when no channel is visible. */
    method Step(forward: bool) returns (ok: bool)
      modifies `playing
      ensures var all := Rows(DisplayOrder(catalog, prefs), prefs.hidden);
              var rows := VisibleRows(all);
              ok == (rows != [])
              && playing == if rows == [] then old(playing) else Zapped(all, rows, old(playing), forward)
    {
      var all := OrderedChannels(catalog, prefs, true);
      var channels := OrderedChannels(catalog, prefs, false);
      if channels == [] {
        return false;
      }
      var i := 0;
      while i < |channels| && !IsPlaying(channels[i].channel, playing)
        invariant 0 <= i <= |channels|
        invariant CurrentIndex(channels, playing) == i + CurrentIndex(channels[i..], playing)
      {
        assert channels[i..][0] == channels[i] && channels[i..][1..] == channels[i + 1..];
        i := i + 1;
      }
      assert i < |channels| ==> channels[i..][0] == channels[i];
      var index: int := if i < |channels| then i else if forward then -1 else 0;
      WrapIsMod(index + (if forward then 1 else -1), |channels|);
      var target := channels[(index + (if forward then 1 else -1)) % |channels|].channel;
      var found := FirstAnswer(all, target.id);
      var channel := if found.Some? then found.value else target;
      playing := Playing(channel.key, channel.id);
      return true;
    }
  }

  lemma SubsetDifference(a: set<string>, b: set<string>)
    ensures a - b == {} <==> a <= b
  {
    if a - b == {} {
      forall x | x in a
        ensures x in b
      {
        assert x !in a - b;
      }
    }
  }

  /** What is played after one step. */
  function Zapped(all: seq<Row>, rows: seq<Row>, p: Playing, forward: bool): Playing
    requires rows != []
  {
    var target := rows[NextIndex(|rows|, CurrentIndex(rows, p), forward)].channel;
    match FirstAnswer(all, target.id)
    case Some(c) => Playing(c.key, c.id)
    case None => Playing(target.key, target.id)
  }

  /** No channel answers to another one's id, and keys and ids tell visible channels apart. */
  predicate Unambiguous(all: seq<Row>, rows: seq<Row>) {
    && (forall r | r in rows :: r in all)
    && (forall a, b | a in all && b in all && Answers(a.channel, b.channel.id) :: a.channel == b.channel)
    && (forall i, j | 0 <= i < j < |rows| ::
          rows[i].channel.key != rows[j].channel.key && rows[i].channel.id != rows[j].channel.id)
  }

  lemma {:induction false} FirstAnswerIs(rows: seq<Row>, c: Channel)
    requires exists r | r in rows :: r.channel == c
    requires forall r | r in rows && Answers(r.channel, c.id) :: r.channel == c
    ensures FirstAnswer(rows, c.id) == Some(c)
  {
    var r :| r in rows && r.channel == c;
    if !Answers(rows[0].channel, c.id) {
      assert r in rows[1..];
      assert forall x | x in rows[1..] :: x in rows;
      FirstAnswerIs(rows[1..], c);
    } else {
      assert rows[0] in rows;
    }
  }

  lemma {:induction false} CurrentIndexIs(rows: seq<Row>, p: Playing, i: nat)
    requires i < |rows| && IsPlaying(rows[i].channel, p)
    requires forall j | 0 <= j < i :: !IsPlaying(rows[j].channel, p)
    ensures CurrentIndex(rows, p) == i
  {
    if i > 0 {
      CurrentIndexIs(rows[1..], p, i - 1);
    }
  }

  function At(rows: seq<Row>, i: nat): Playing
    requires i < |rows|
  {
    Playing(rows[i].channel.key, rows[i].channel.id)
  }

  /** One step leads from the first visible channel that has the stored key or the stored id to the next or the
      previous one, around the ends. */
  lemma StepFrom(all: seq<Row>, rows: seq<Row>, p: Playing, i: nat, forward: bool)
    requires Unambiguous(all, rows) && i < |rows|
    requires rows[i].channel.key == p.key || rows[i].channel.id == p.id
    requires forall j | 0 <= j < i :: rows[j].channel.key != p.key && rows[j].channel.id != p.id
    ensures Zapped(all, rows, p, forward) == At(rows, Wrap(i + (if forward then 1 else -1), |rows|))
  {
    var k := NextIndex(|rows|, i, forward);
    CurrentIndexIs(rows, p, i);
    assert rows[k] in rows;
    FirstAnswerIs(all, rows[k].channel);
  }

  /** From the i-th visible channel one step leads to the next or the previous one, around the ends. */
  lemma StepMoves(all: seq<Row>, rows: seq<Row>, i: nat, forward: bool)
    requires Unambiguous(all, rows) && i < |rows|
    ensures Zapped(all, rows, At(rows, i), forward) == At(rows, Wrap(i + (if forward then 1 else -1), |rows|))
  {
    StepFrom(all, rows, At(rows, i), i, forward);
  }

  lemma {:induction false} NoneIsCurrent(rows: seq<Row>, p: Playing)
    requires forall r | r in rows :: r.channel.key != p.key && r.channel.id != p.id
    ensures CurrentIndex(rows, p) == |rows|
  {
    if rows != [] {
      assert rows[0] in rows;
      NoneIsCurrent(rows[1..], p);
    }
  }

  /** When nothing shown is playing, a step forward leads to the first visible channel and a step back to the last. */
  lemma StepFromNowhere(all: seq<Row>, rows: seq<Row>, p: Playing)
    requires Unambiguous(all, rows) && rows != []
    requires forall r | r in rows :: r.channel.key != p.key && r.channel.id != p.id
    ensures Zapped(all, rows, p, true) == At(rows, 0) && Zapped(all, rows, p, false) == At(rows, |rows| - 1)
  {
    NoneIsCurrent(rows, p);
    assert rows[0] in rows && rows[|rows| - 1] in rows;
    FirstAnswerIs(all, rows[0].channel);
    FirstAnswerIs(all, rows[|rows| - 1].channel);
  }

  lemma {:induction false} FirstAnswerAt(rows: seq<Row>, ref: string) returns (j: nat)
    requires exists r | r in rows :: r.channel.id == ref
    ensures j < |rows| && FirstAnswer(rows, ref) == Some(rows[j].channel)
    ensures rows[j].channel.id == ref || rows[j].channel.key == ref || rows[j].channel.legacy == ref
    ensures forall m | 0 <= m < j ::
              rows[m].channel.id != ref && rows[m].channel.key != ref && rows[m].channel.legacy != ref
    decreases |rows|
  {
    if Answers(rows[0].channel, ref) {
      j := 0;
    } else {
      var r :| r in rows && r.channel.id == ref;
      assert r in rows[1..];
      j := FirstAnswerAt(rows[1..], ref);
      j := j + 1;
    }
  }

  /** Whatever the ids: a step lands on its target exactly when nothing earlier in the whole list, hidden or not, has
      the target's id for its id, its key or its former id. */
  lemma LandsIff(all: seq<Row>, rows: seq<Row>, p: Playing, forward: bool)
    requires rows != [] && forall r | r in rows :: r in all
    ensures var target := At(rows, NextIndex(|rows|, CurrentIndex(rows, p), forward));
            Zapped(all, rows, p, forward) == target
            <==> exists j: nat | j < |all| ::
                   && At(all, j) == target
                   && forall m | 0 <= m < j ::
                        all[m].channel.id != target.id && all[m].channel.key != target.id && all[m].channel.legacy != target.id
  {
    var k := NextIndex(|rows|, CurrentIndex(rows, p), forward);
    assert rows[k] in all;
    var j := FirstAnswerAt(all, rows[k].channel.id);
    assert Zapped(all, rows, p, forward) == At(all, j);
  }

  /** A step back undoes a step forward. */
  lemma BackUndoesForward(all: seq<Row>, rows: seq<Row>, i: nat)
    requires Unambiguous(all, rows) && i < |rows|
    ensures Zapped(all, rows, Zapped(all, rows, At(rows, i), true), false) == At(rows, i)
  {
    StepMoves(all, rows, i, true);
    StepMoves(all, rows, Wrap(i + 1, |rows|), false);
  }

  function Forward(all: seq<Row>, rows: seq<Row>, p: Playing, steps: nat): Playing
    requires rows != []
  {
    if steps == 0 then p else Zapped(all, rows, Forward(all, rows, p, steps - 1), true)
  }

  lemma WrapOn(x: nat, n: nat)
    requires n > 0 && x + 1 < 2 * n
    ensures Wrap(Wrap(x, n) + 1, n) == Wrap(x + 1, n) < n
  {
  }

  /** Each forward step leads to the next place of the ring. */
  ghost predicate Ring(all: seq<Row>, rows: seq<Row>) {
    rows != [] && forall j | 0 <= j < |rows| :: Zapped(all, rows, At(rows, j), true) == At(rows, Wrap(j + 1, |rows|))
  }

  lemma RowsFormRing(all: seq<Row>, rows: seq<Row>)
    requires Unambiguous(all, rows) && rows != []
    ensures Ring(all, rows)
  {
    forall j | 0 <= j < |rows|
      ensures Zapped(all, rows, At(rows, j), true) == At(rows, Wrap(j + 1, |rows|))
    {
      StepMoves(all, rows, j, true);
    }
  }

  lemma {:induction false} ForwardLands(all: seq<Row>, rows: seq<Row>, i: nat, steps: nat)
    requires Ring(all, rows) && i < |rows| && steps <= |rows|
    ensures Forward(all, rows, At(rows, i), steps) == At(rows, Wrap(i + steps, |rows|))
  {
    if steps > 0 {
      ForwardLands(all, rows, i, steps - 1);
      WrapOn(i + steps - 1, |rows|);
    }
  }

  /** How many forward steps lead from place `i` to place `k`. */
  function StepsTo(i: nat, k: nat, n: nat): (steps: nat)
    requires i < n && k < n
    ensures steps < n && Wrap(i + steps, n) == k
  {
    if k >= i then k - i else k - i + n
  }

  /** As many forward steps as there are visible channels visit every one of them and come back. */
  lemma ForwardVisitsAll(all: seq<Row>, rows: seq<Row>, i: nat)
    requires Unambiguous(all, rows) && i < |rows|
    ensures forall k | 0 <= k < |rows| :: Forward(all, rows, At(rows, i), StepsTo(i, k, |rows|)) == At(rows, k)
    ensures Forward(all, rows, At(rows, i), |rows|) == At(rows, i)
  {
    RowsFormRing(all, rows);
    forall k | 0 <= k < |rows|
      ensures Forward(all, rows, At(rows, i), StepsTo(i, k, |rows|)) == At(rows, k)
    {
      ForwardLands(all, rows, i, StepsTo(i, k, |rows|));
    }
    ForwardLands(all, rows, i, |rows|);
  }

  /** And none of them is visited twice on the way. */
  lemma ForwardVisitsOnce(all: seq<Row>, rows: seq<Row>, i: nat, a: nat, b: nat)
    requires Unambiguous(all, rows) && i < |rows| && a < b < |rows|
    ensures Forward(all, rows, At(rows, i), a) != Forward(all, rows, At(rows, i), b)
  {
    var ka, kb := Wrap(i + a, |rows|), Wrap(i + b, |rows|);
    RowsFormRing(all, rows);
    ForwardLands(all, rows, i, a);
    ForwardLands(all, rows, i, b);
    assert rows[ka].channel.key != rows[kb].channel.key;
  }
}
