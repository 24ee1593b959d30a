/**
 * What `PantallaContactos` computes before it builds the list:
 *
 *   favoritos      = contactos.filter { it.esFavorito }
 *   otrosContactos = contactos.filter { !it.esFavorito }
 *                      .groupBy { it.nombre.first().uppercase() }
 *                      .toSortedMap()
 *
 * `groupBy` is modelled as the insertion-ordered map it returns (a sequence
 * of groups with distinct keys, in order of first appearance) and
 * `toSortedMap` as the same groups re-ordered by key.
 */
module Grouping {
  import opened Wrappers
  import opened Seqs
  import opened KeyOrder
  import opened Contacts

  /** One entry of the map: a key and the contacts filed under it. */
  datatype Group = Group(key: string, members: seq<Contact>)

  /** `favoritos` and the sorted `otrosContactos`. */
  datatype Sections = Sections(favorites: seq<Contact>, groups: seq<Group>)

  /** `first()` threw on the empty name of the contact at `index` of the input. */
  datatype Error = EmptyName(index: nat)

  function IsFavorite(c: Contact): bool { c.isFavorite }

  function IsOther(c: Contact): bool { !c.isFavorite }

  /** `favoritos`. */
  function Favorites(cs: seq<Contact>): (r: seq<Contact>)
    ensures forall i :: 0 <= i < |r| ==> r[i].isFavorite
  {
    Filter(cs, IsFavorite)
  }

  /** The non-favourites, before `groupBy`. */
  function Others(cs: seq<Contact>): (r: seq<Contact>)
    ensures forall i :: 0 <= i < |r| ==> !r[i].isFavorite
  {
    Filter(cs, IsOther)
  }

  /** The two filters split the input: every contact lands on exactly one side. */
  lemma PartitionCovers(cs: seq<Contact>)
    ensures multiset(Favorites(cs)) + multiset(Others(cs)) == multiset(cs)
    ensures |Favorites(cs)| + |Others(cs)| == |cs|
  {
    FilterCounts(cs, IsFavorite);
    FilterCounts(cs, IsOther);
    assert forall x :: (multiset(Favorites(cs)) + multiset(Others(cs)))[x] == multiset(cs)[x];
  }

  // ---------------------------------------------------------------- groupBy

  /** A contact `groupBy` cannot key: a non-favourite whose name is empty. */
  predicate Unkeyable(c: Contact)
  {
    !c.isFavorite && c.name == []
  }

  /** The position of the contact on which `groupBy` throws, if there is one. */
  function FirstUnkeyable(cs: seq<Contact>): (r: Option<nat>)
    ensures r.None? <==> forall i :: 0 <= i < |cs| ==> !Unkeyable(cs[i])
    ensures r.Some? ==> r.value < |cs| && Unkeyable(cs[r.value])
    ensures r.Some? ==> forall j :: 0 <= j < r.value ==> !Unkeyable(cs[j])
  {
    if cs == [] then None
    else if Unkeyable(cs[0]) then Some(0)
    else match FirstUnkeyable(cs[1..])
      case None => None
      case Some(i) => Some(i + 1)
  }

  predicate Named(xs: seq<Contact>)
  {
    forall i :: 0 <= i < |xs| ==> xs[i].name != []
  }

  /** The test that files a contact under key `k`. */
  function KeyIs(k: string): Contact -> bool
  {
    (c: Contact) => c.name != [] && KeyOf(c) == k
  }

  /** The contacts of `xs` that `groupBy` files under `k`, in input order. */
  function WithKey(xs: seq<Contact>, k: string): seq<Contact>
  {
    Filter(xs, KeyIs(k))
  }

  predicate KeyIn(k: string, gs: seq<Group>)
  {
    exists i :: 0 <= i < |gs| && gs[i].key == k
  }

  predicate DistinctKeys(gs: seq<Group>)
  {
    forall i, j :: 0 <= i < j < |gs| ==> gs[i].key != gs[j].key
  }

  /** All members, entry after entry. */
  function Flatten(gs: seq<Group>): seq<Contact>
  {
    if gs == [] then [] else gs[0].members + Flatten(gs[1..])
  }

  lemma FlattenCons(g: Group, gs: seq<Group>)
    ensures Flatten([g] + gs) == g.members + Flatten(gs)
  {
    assert ([g] + gs)[1..] == gs;
  }

  /**
   * `gs` is the map `groupBy` builds from `xs`: one entry per key, no key
   * twice, each entry holding exactly the contacts of `xs` with that key in
   * input order (so none is empty), and an entry for every contact.
   */
  predicate GroupedFrom(gs: seq<Group>, xs: seq<Contact>)
  {
    && DistinctKeys(gs)
    && (forall i :: 0 <= i < |gs| ==> gs[i].members != [] && gs[i].members == WithKey(xs, gs[i].key))
    && (forall j :: 0 <= j < |xs| ==> xs[j].name != [] && KeyIn(KeyOf(xs[j]), gs))
  }

  /**
   * One step of `groupBy`, `getOrPut(key) { ArrayList() }.add(c)`: `c` is
   * appended to the entry of its key, or opens a new entry at the end.
   */
  function AddTo(gs: seq<Group>, c: Contact): (r: seq<Group>)
    requires c.name != [] && DistinctKeys(gs)
    ensures KeyIn(KeyOf(c), gs) ==> |r| == |gs|
    ensures !KeyIn(KeyOf(c), gs) ==> |r| == |gs| + 1 && r[|gs|] == Group(KeyOf(c), [c])
    ensures forall i {:trigger r[i]} :: 0 <= i < |gs| ==>
      r[i] == Group(gs[i].key, gs[i].members + if gs[i].key == KeyOf(c) then [c] else [])
  {
    if gs == [] then [Group(KeyOf(c), [c])]
    else if gs[0].key == KeyOf(c) then [Group(gs[0].key, gs[0].members + [c])] + gs[1..]
    else [gs[0]] + AddTo(gs[1..], c)
  }

  /** `AddTo` files `c` once and loses no contact already filed. */
  lemma {:induction false} AddToFlatten(gs: seq<Group>, c: Contact)
    requires c.name != [] && DistinctKeys(gs)
    ensures multiset(Flatten(AddTo(gs, c))) == multiset(Flatten(gs)) + multiset{c}
  {
    var r := AddTo(gs, c);
    if gs == [] {
      FlattenCons(r[0], []);
    } else {
      assert gs == [gs[0]] + gs[1..];
      FlattenCons(gs[0], gs[1..]);
      if gs[0].key == KeyOf(c) {
        assert r == [r[0]] + gs[1..];
        FlattenCons(r[0], gs[1..]);
      } else {
        AddToFlatten(gs[1..], c);
        assert r == [gs[0]] + AddTo(gs[1..], c);
        FlattenCons(gs[0], AddTo(gs[1..], c));
      }
    }
  }

  /** A key no entry has files no contact. */
  lemma {:induction false} UnusedKeyIsEmpty(gs: seq<Group>, xs: seq<Contact>, k: string)
    requires GroupedFrom(gs, xs) && !KeyIn(k, gs)
    ensures WithKey(xs, k) == []
  {
    forall x | x in xs
      ensures !KeyIs(k)(x)
    {
      var j :| 0 <= j < |xs| && xs[j] == x;
      assert KeyIn(KeyOf(xs[j]), gs);
    }
    FilterCounts(xs, KeyIs(k));
    assert multiset(WithKey(xs, k)) == multiset{};
  }

  /** After `AddTo`, every entry still holds exactly the contacts with its key. */
  lemma {:induction false} AddToKeepsMembers(gs: seq<Group>, xs: seq<Contact>, c: Contact, i: int)
    requires GroupedFrom(gs, xs) && c.name != []
    requires 0 <= i < |AddTo(gs, c)|
    ensures var g := AddTo(gs, c)[i]; g.members != [] && g.members == WithKey(xs + [c], g.key)
  {
    var r := AddTo(gs, c);
    FilterSnoc(xs, c, KeyIs(r[i].key));
    if i == |gs| {
      UnusedKeyIsEmpty(gs, xs, KeyOf(c));
    }
  }

  /** After `AddTo`, every contact so far still has an entry. */
  lemma {:induction false} AddToKeepsCoverage(gs: seq<Group>, xs: seq<Contact>, c: Contact)
    requires GroupedFrom(gs, xs) && c.name != []
    ensures forall j :: 0 <= j < |xs + [c]| ==> (xs + [c])[j].name != [] && KeyIn(KeyOf((xs + [c])[j]), AddTo(gs, c))
  {
    var r := AddTo(gs, c);
    var k := KeyOf(c);
    var ys := xs + [c];
    forall j | 0 <= j < |ys|
      ensures ys[j].name != [] && KeyIn(KeyOf(ys[j]), r)
    {
      if j < |xs| {
        assert ys[j] == xs[j];
        var i :| 0 <= i < |gs| && gs[i].key == KeyOf(xs[j]);
        assert r[i].key == gs[i].key;
      } else if KeyIn(k, gs) {
        var i :| 0 <= i < |gs| && gs[i].key == k;
        assert r[i].key == k;
      } else {
        assert r[|gs|].key == k;
      }
    }
  }

  /** `AddTo` keeps one entry per key. */
  lemma AddToDistinct(gs: seq<Group>, c: Contact)
    requires c.name != [] && DistinctKeys(gs)
    ensures DistinctKeys(AddTo(gs, c))
  {
    var r := AddTo(gs, c);
    forall i, j | 0 <= i < j < |r|
      ensures r[i].key != r[j].key
    {
      assert r[i].key == gs[i].key;
    }
  }

  /** Adding one more contact keeps the map what `groupBy` builds. */
  lemma AddToKeepsGrouped(gs: seq<Group>, xs: seq<Contact>, c: Contact)
    requires GroupedFrom(gs, xs) && c.name != []
    ensures GroupedFrom(AddTo(gs, c), xs + [c])
  {
    var r := AddTo(gs, c);
    AddToDistinct(gs, c);
    forall i | 0 <= i < |r|
      ensures r[i].members != [] && r[i].members == WithKey(xs + [c], r[i].key)
    {
      AddToKeepsMembers(gs, xs, c, i);
    }
    AddToKeepsCoverage(gs, xs, c);
  }

  /** `xs.groupBy { it.nombre.first().uppercase() }`, contact after contact. */
  function GroupBy(xs: seq<Contact>): (gs: seq<Group>)
    requires Named(xs)
    ensures DistinctKeys(gs)
  {
    if xs == [] then []
    else
      var gs := GroupBy(xs[..|xs| - 1]);
      AddToDistinct(gs, xs[|xs| - 1]);
      AddTo(gs, xs[|xs| - 1])
  }

  /**
   * `groupBy` builds the map it promises: one entry per key, each holding
   * exactly the contacts with that key in input order, and every contact
   * filed once.
   */
  lemma {:induction false} GroupByGroups(xs: seq<Contact>)
    requires Named(xs)
    ensures GroupedFrom(GroupBy(xs), xs)
    ensures multiset(Flatten(GroupBy(xs))) == multiset(xs)
    decreases |xs|
  {
    if xs != [] {
      var init, c := xs[..|xs| - 1], xs[|xs| - 1];
      assert xs == init + [c];
      GroupByGroups(init);
      AddToKeepsGrouped(GroupBy(init), init, c);
      AddToFlatten(GroupBy(init), c);
    }
  }

  /** One more contact at the end of the list is one more `AddTo` step on the map built so far. */
  lemma GroupBySnoc(xs: seq<Contact>, c: Contact)
    requires Named(xs) && c.name != []
    ensures Named(xs + [c])
    ensures GroupBy(xs + [c]) == AddTo(GroupBy(xs), c)
  {
    assert (xs + [c])[..|xs|] == xs;
  }

  // ------------------------------------------------------------ toSortedMap

  /** Entries in strictly ascending key order, as a `SortedMap` iterates them. */
  predicate Ascending(gs: seq<Group>)
  {
    forall i, j :: 0 <= i < j < |gs| ==> Below(gs[i].key, gs[j].key)
  }

  /** Put `g` into its place among the ascending entries `s`. */
  function Insert(g: Group, s: seq<Group>): (r: seq<Group>)
    requires Ascending(s) && !KeyIn(g.key, s)
    ensures Ascending(r)
    ensures multiset(r) == multiset(s) + multiset{g}
  {
    if s == [] then [g]
    else if Below(g.key, s[0].key) then
      assert forall j :: 0 < j < |s| ==> Below(g.key, s[j].key) by {
        forall j | 0 < j < |s|
          ensures Below(g.key, s[j].key)
        {
          BelowTransitive(g.key, s[0].key, s[j].key);
        }
      }
      [g] + s
    else
      BelowTotal(g.key, s[0].key);
      var t := Insert(g, s[1..]);
      assert forall j :: 0 <= j < |t| ==> Below(s[0].key, t[j].key) by {
        forall j | 0 <= j < |t|
          ensures Below(s[0].key, t[j].key)
        {
          assert t[j] in multiset(t);
          if t[j] != g {
            assert t[j] in multiset(s[1..]);
            var m :| 0 <= m < |s[1..]| && s[1..][m] == t[j];
            assert s[m + 1] == t[j];
          }
        }
      }
      assert s == [s[0]] + s[1..];
      [s[0]] + t
  }

  lemma {:induction false} InsertFlatten(g: Group, s: seq<Group>)
    requires Ascending(s) && !KeyIn(g.key, s)
    ensures multiset(Flatten(Insert(g, s))) == multiset(g.members) + multiset(Flatten(s))
  {
    if s == [] {
      FlattenCons(g, []);
    } else if Below(g.key, s[0].key) {
      FlattenCons(g, s);
    } else {
      assert s == [s[0]] + s[1..];
      InsertFlatten(g, s[1..]);
      FlattenCons(s[0], Insert(g, s[1..]));
      FlattenCons(s[0], s[1..]);
    }
  }

  /** Two orderings of the same entries have the same keys. */
  lemma KeyInPermutation(a: seq<Group>, b: seq<Group>, k: string)
    requires multiset(a) == multiset(b)
    ensures KeyIn(k, a) <==> KeyIn(k, b)
  {
    if KeyIn(k, a) {
      var i :| 0 <= i < |a| && a[i].key == k;
      assert a[i] in multiset(b);
    }
    if KeyIn(k, b) {
      var i :| 0 <= i < |b| && b[i].key == k;
      assert b[i] in multiset(a);
    }
  }

  /** The first entry's key is not among the others, which stay distinct. */
  lemma DistinctTail(gs: seq<Group>)
    requires gs != [] && DistinctKeys(gs)
    ensures DistinctKeys(gs[1..]) && !KeyIn(gs[0].key, gs[1..])
  {
    forall i | 0 <= i < |gs[1..]|
      ensures gs[1..][i].key != gs[0].key
    {
      assert gs[1..][i] == gs[i + 1];
    }
  }

  /** `toSortedMap()`: the same entries, re-ordered by key. */
  function SortByKey(gs: seq<Group>): (r: seq<Group>)
    requires DistinctKeys(gs)
    ensures Ascending(r)
    ensures multiset(r) == multiset(gs)
  {
    if gs == [] then []
    else
      assert DistinctKeys(gs[1..]) && !KeyIn(gs[0].key, gs[1..]) by {
        DistinctTail(gs);
      }
      var rest := SortByKey(gs[1..]);
      assert !KeyIn(gs[0].key, rest) by {
        KeyInPermutation(gs[1..], rest, gs[0].key);
      }
      assert multiset(gs) == multiset(gs[1..]) + multiset{gs[0]} by {
        assert gs == [gs[0]] + gs[1..];
      }
      Insert(gs[0], rest)
  }

  /** Sorting the entries moves contacts between positions, never in or out. */
  lemma {:induction false} SortByKeyFlatten(gs: seq<Group>)
    requires DistinctKeys(gs)
    ensures multiset(Flatten(SortByKey(gs))) == multiset(Flatten(gs))
  {
    if gs != [] {
      assert DistinctKeys(gs[1..]) && !KeyIn(gs[0].key, gs[1..]) by {
        DistinctTail(gs);
      }
      var rest := SortByKey(gs[1..]);
      assert !KeyIn(gs[0].key, rest) by {
        KeyInPermutation(gs[1..], rest, gs[0].key);
      }
      SortByKeyFlatten(gs[1..]);
      InsertKeepsFlatten(gs[0], rest, gs[1..]);
      assert SortByKey(gs) == Insert(gs[0], rest);
      assert gs == [gs[0]] + gs[1..];
    }
  }

  lemma InsertKeepsFlatten(g: Group, rest: seq<Group>, s: seq<Group>)
    requires Ascending(rest) && !KeyIn(g.key, rest)
    requires multiset(Flatten(rest)) == multiset(Flatten(s))
    ensures multiset(Flatten(Insert(g, rest))) == multiset(Flatten([g] + s))
  {
    InsertFlatten(g, rest);
    FlattenCons(g, s);
  }

  // ------------------------------------------------------------- the screen

  /** Every non-favourite of a list without unkeyable contacts has a name. */
  lemma OthersNamed(cs: seq<Contact>)
    requires forall i :: 0 <= i < |cs| ==> !Unkeyable(cs[i])
    ensures Named(Others(cs))
  {
    var o := Others(cs);
    FilterCounts(cs, IsOther);
    forall i | 0 <= i < |o|
      ensures o[i].name != []
    {
      assert o[i] in multiset(o);
      var j :| 0 <= j < |cs| && cs[j] == o[i];
    }
  }

  /**
   * `favoritos` and the sorted `otrosContactos`, or the failure of `first()`
   * on the first non-favourite with an empty name.
   */
  function Sectioning(cs: seq<Contact>): (r: Result<Sections, Error>)
    ensures r.Failure? <==> exists i :: 0 <= i < |cs| && Unkeyable(cs[i])
    ensures r.Failure? ==> r.error.index < |cs| && Unkeyable(cs[r.error.index])
    ensures r.Failure? ==> forall j :: 0 <= j < r.error.index ==> !Unkeyable(cs[j])
  {
    match FirstUnkeyable(cs)
    case Some(i) => Failure(EmptyName(i))
    case None =>
      OthersNamed(cs);
      Success(Sections(Favorites(cs), SortByKey(GroupBy(Others(cs)))))
  }

  // ------------------------------------------------ properties of the result

  /** The members of `WithKey(xs, k)` carry key `k` and come from `xs`. */
  lemma MemberOfWithKey(xs: seq<Contact>, k: string, c: Contact)
    requires c in WithKey(xs, k)
    ensures c in xs && c.name != [] && KeyOf(c) == k
  {
    FilterCounts(xs, KeyIs(k));
    var i :| 0 <= i < |WithKey(xs, k)| && WithKey(xs, k)[i] == c;
    assert KeyIs(k)(WithKey(xs, k)[i]);
  }

  /** Each sorted entry is one of the entries `groupBy` built, and the other way round. */
  lemma {:induction false} SortedEntries(cs: seq<Contact>)
    requires Sectioning(cs).Success?
    ensures var o := Others(cs); var gs := Sectioning(cs).value.groups;
      && Named(o)
      && multiset(gs) == multiset(GroupBy(o))
      && GroupedFrom(GroupBy(o), o)
      && multiset(Flatten(GroupBy(o))) == multiset(o)
  {
    OthersNamed(cs);
    GroupByGroups(Others(cs));
  }

  /**
   * `otrosContactos` is well formed: keys strictly ascending (so no key
   * twice), no entry empty, each entry exactly the non-favourites with its
   * key, and the entries together hold every non-favourite once.
   */
  lemma {:induction false} GroupsWellFormed(cs: seq<Contact>)
    requires Sectioning(cs).Success?
    ensures var gs := Sectioning(cs).value.groups;
      && Ascending(gs)
      && (forall i :: 0 <= i < |gs| ==> gs[i].members != [] && gs[i].members == WithKey(Others(cs), gs[i].key))
      && multiset(Flatten(gs)) == multiset(Others(cs))
  {
    var o := Others(cs);
    var gs := Sectioning(cs).value.groups;
    SortedEntries(cs);
    var u := GroupBy(o);
    forall i | 0 <= i < |gs|
      ensures gs[i].members != [] && gs[i].members == WithKey(o, gs[i].key)
    {
      assert gs[i] in multiset(u);
      var m :| 0 <= m < |u| && u[m] == gs[i];
    }
    SortByKeyFlatten(u);
  }

  /** Within an entry the contacts keep their order in the input; they are not sorted by name. */
  lemma {:induction false} EntryKeepsInputOrder(cs: seq<Contact>, i: int)
    requires Sectioning(cs).Success? && 0 <= i < |Sectioning(cs).value.groups|
    ensures IsSubsequence(Sectioning(cs).value.groups[i].members, cs)
  {
    var o := Others(cs);
    var g := Sectioning(cs).value.groups[i];
    GroupsWellFormed(cs);
    FilterIsSubsequence(o, KeyIs(g.key));
    FilterIsSubsequence(cs, IsOther);
    SubsequenceTransitive(g.members, o, cs);
  }

  /** Strictly ascending keys are distinct keys. */
  lemma AscendingDistinct(gs: seq<Group>)
    requires Ascending(gs)
    ensures forall i, j :: 0 <= i < |gs| && 0 <= j < |gs| && gs[i].key == gs[j].key ==> i == j
  {
    forall i, j | 0 <= i < |gs| && 0 <= j < |gs| && gs[i].key == gs[j].key
      ensures i == j
    {
      BelowIrreflexive(gs[i].key);
    }
  }

  /** A filed contact is a non-favourite of the input carrying the key of its entry. */
  lemma {:induction false} FiledContact(cs: seq<Contact>, i: int, c: Contact)
    requires Sectioning(cs).Success? && 0 <= i < |Sectioning(cs).value.groups|
    ensures c in Sectioning(cs).value.groups[i].members ==>
      c in cs && !c.isFavorite && KeyIs(Sectioning(cs).value.groups[i].key)(c)
  {
    if c in Sectioning(cs).value.groups[i].members {
      var o := Others(cs);
      GroupsWellFormed(cs);
      MemberOfWithKey(o, Sectioning(cs).value.groups[i].key, c);
      FilterCounts(cs, IsOther);
      assert c in multiset(o);
    }
  }

  /** A favourite is in no entry. */
  lemma {:induction false} FavoriteNotFiled(cs: seq<Contact>, c: Contact)
    requires Sectioning(cs).Success? && c.isFavorite
    ensures forall i :: 0 <= i < |Sectioning(cs).value.groups| ==> c !in Sectioning(cs).value.groups[i].members
  {
    forall i | 0 <= i < |Sectioning(cs).value.groups|
      ensures c !in Sectioning(cs).value.groups[i].members
    {
      FiledContact(cs, i, c);
    }
  }

  /** No contact is in two entries. */
  lemma {:induction false} FiledOnce(cs: seq<Contact>, c: Contact, i: int, j: int)
    requires Sectioning(cs).Success?
    requires 0 <= i < |Sectioning(cs).value.groups| && c in Sectioning(cs).value.groups[i].members
    requires 0 <= j < |Sectioning(cs).value.groups| && c in Sectioning(cs).value.groups[j].members
    ensures i == j
  {
    FiledContact(cs, i, c);
    FiledContact(cs, j, c);
    GroupsWellFormed(cs);
    AscendingDistinct(Sectioning(cs).value.groups);
  }

  /** A contact `groupBy` sees lands in the entry of its own key. */
  lemma {:induction false} GroupedContactIsFiled(xs: seq<Contact>, c: Contact) returns (m: nat)
    requires Named(xs) && c in xs
    ensures m < |GroupBy(xs)| && c in GroupBy(xs)[m].members && KeyIs(GroupBy(xs)[m].key)(c)
  {
    var u := GroupBy(xs);
    GroupByGroups(xs);
    var j :| 0 <= j < |xs| && xs[j] == c;
    assert KeyIn(KeyOf(c), u);
    m :| 0 <= m < |u| && u[m].key == KeyOf(c);
    FilterKeeps(xs, KeyIs(KeyOf(c)), c);
  }

  /** A non-favourite of the input is in the entry of its own key. */
  lemma {:induction false} OtherIsFiled(cs: seq<Contact>, c: Contact)
    requires Sectioning(cs).Success? && c in cs && !c.isFavorite
    ensures exists i :: (0 <= i < |Sectioning(cs).value.groups| &&
      c in Sectioning(cs).value.groups[i].members && KeyIs(Sectioning(cs).value.groups[i].key)(c))
  {
    var o := Others(cs);
    var gs := Sectioning(cs).value.groups;
    FilterCounts(cs, IsOther);
    assert c in multiset(o);
    SortedEntries(cs);
    var u := GroupBy(o);
    var m := GroupedContactIsFiled(o, c);
    assert u[m] in multiset(gs);
    var i :| 0 <= i < |gs| && gs[i] == u[m];
    assert c in gs[i].members && KeyIs(gs[i].key)(c);
  }

  /** The avatar letter of a filed contact is the header of its section. */
  lemma {:induction false} InitialIsEntryKey(cs: seq<Contact>, i: int, c: Contact)
    requires Sectioning(cs).Success?
    requires 0 <= i < |Sectioning(cs).value.groups| && c in Sectioning(cs).value.groups[i].members
    ensures Initial(c) == Some(Sectioning(cs).value.groups[i].key)
  {
    GroupsWellFormed(cs);
    MemberOfWithKey(Others(cs), Sectioning(cs).value.groups[i].key, c);
  }

  /** Every section key is one character long: the upper-cased initial. */
  lemma {:induction false} KeysAreInitials(cs: seq<Contact>)
    requires Sectioning(cs).Success?
    ensures forall i :: 0 <= i < |Sectioning(cs).value.groups| ==> |Sectioning(cs).value.groups[i].key| == 1
  {
    var gs := Sectioning(cs).value.groups;
    forall i | 0 <= i < |gs|
      ensures |gs[i].key| == 1
    {
      GroupsWellFormed(cs);
      FiledContact(cs, i, gs[i].members[0]);
    }
  }
}
