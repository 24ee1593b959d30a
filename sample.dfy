/** The seven contacts the screen is shipped with, and what it makes of them. */
module Sample {
  import opened Wrappers
  import opened Contacts
  import opened Seqs
  import opened KeyOrder
  import opened Grouping
  import opened ContactList
  import opened AvatarColor

  const Ana: Contact := Contact("Ana", "123456789", true)
  const Alberto: Contact := Contact("Alberto", "987654321", false)
  const Carlos: Contact := Contact("Carlos", "112233445", false)
  const Claudia: Contact := Contact("Claudia", "556677889", false)
  const David: Contact := Contact("David", "998877665", true)
  const Eva: Contact := Contact("Eva", "223344556", false)
  const Elena: Contact := Contact("Elena", "667788990", false)

  /** `contactos`. */
  const Shipped: seq<Contact> := [Ana, Alberto, Carlos, Claudia, David, Eva, Elena]

  lemma FavoritesFromDavid()
    ensures Favorites([David, Eva, Elena]) == [David]
  {
    var e: seq<Contact> := [];
    FilterCons(Elena, e, IsFavorite);
    FilterCons(Eva, [Elena], IsFavorite);
    FilterCons(David, [Eva, Elena], IsFavorite);
  }

  lemma FavoritesFromAlberto()
    ensures Favorites([Alberto, Carlos, Claudia, David, Eva, Elena]) == [David]
  {
    FavoritesFromDavid();
    FilterCons(Claudia, [David, Eva, Elena], IsFavorite);
    FilterCons(Carlos, [Claudia, David, Eva, Elena], IsFavorite);
    FilterCons(Alberto, [Carlos, Claudia, David, Eva, Elena], IsFavorite);
  }

  /** Ana and David are the favourites, in that order. */
  lemma ShippedFavorites()
    ensures Favorites(Shipped) == [Ana, David]
  {
    FavoritesFromAlberto();
    FilterCons(Ana, [Alberto, Carlos, Claudia, David, Eva, Elena], IsFavorite);
  }

  lemma OthersFromClaudia()
    ensures Others([Claudia, David, Eva, Elena]) == [Claudia, Eva, Elena]
  {
    var e: seq<Contact> := [];
    FilterCons(Elena, e, IsOther);
    FilterCons(Eva, [Elena], IsOther);
    FilterCons(David, [Eva, Elena], IsOther);
    FilterCons(Claudia, [David, Eva, Elena], IsOther);
  }

  /** The other five, in list order. */
  lemma ShippedOthers()
    ensures Others(Shipped) == [Alberto, Carlos, Claudia, Eva, Elena]
  {
    OthersFromClaudia();
    FilterCons(Carlos, [Claudia, David, Eva, Elena], IsOther);
    FilterCons(Alberto, [Carlos, Claudia, David, Eva, Elena], IsOther);
    FilterCons(Ana, [Alberto, Carlos, Claudia, David, Eva, Elena], IsOther);
  }

  const GroupA: Group := Group("A", [Alberto])
  const GroupC: Group := Group("C", [Carlos, Claudia])
  const GroupE: Group := Group("E", [Eva, Elena])

  /** A contact with a key not yet in the map opens a new entry at its end. */
  lemma AddNew(gs: seq<Group>, c: Contact)
    requires c.name != [] && DistinctKeys(gs) && !KeyIn(KeyOf(c), gs)
    ensures AddTo(gs, c) == gs + [Group(KeyOf(c), [c])]
  {
    var r := AddTo(gs, c);
    forall i | 0 <= i < |gs|
      ensures r[i] == gs[i]
    {
      assert gs[i].members + [] == gs[i].members;
    }
  }

  /** A contact with the key of the map's last entry is appended to that entry. */
  lemma AddLast(gs: seq<Group>, g: Group, c: Contact)
    requires c.name != [] && DistinctKeys(gs + [g]) && g.key == KeyOf(c)
    ensures AddTo(gs + [g], c) == gs + [Group(g.key, g.members + [c])]
  {
    var r := AddTo(gs + [g], c);
    assert (gs + [g])[|gs|] == g;
    forall i | 0 <= i < |gs|
      ensures r[i] == gs[i]
    {
      assert (gs + [g])[i] == gs[i];
      assert gs[i].members + [] == gs[i].members;
    }
  }

  lemma GroupedA(a: Contact)
    requires a.name != []
    ensures GroupBy([a]) == [Group(KeyOf(a), [a])]
  {
    var s0: seq<Contact> := [];
    GroupBySnoc(s0, a);
    assert s0 + [a] == [a];
  }

  lemma GroupedAC(a: Contact, c1: Contact)
    requires a.name != [] && c1.name != [] && KeyOf(a) == "A" && KeyOf(c1) == "C"
    ensures GroupBy([a, c1]) == [Group("A", [a]), Group("C", [c1])]
  {
    var ga := Group("A", [a]);
    GroupedA(a);
    AddNew([ga], c1);
    GroupStep([a], c1, [a, c1], [ga], [ga, Group("C", [c1])]);
  }

  lemma GroupedACC(a: Contact, c1: Contact, c2: Contact)
    requires a.name != [] && c1.name != [] && c2.name != []
    requires KeyOf(a) == "A" && KeyOf(c1) == "C" && KeyOf(c2) == "C"
    ensures GroupBy([a, c1, c2]) == [Group("A", [a]), Group("C", [c1, c2])]
  {
    var ga := Group("A", [a]);
    GroupedAC(a, c1);
    AddLast([ga], Group("C", [c1]), c2);
    assert [ga] + [Group("C", [c1])] == [ga, Group("C", [c1])];
    assert [c1] + [c2] == [c1, c2];
    GroupStep([a, c1], c2, [a, c1, c2], [ga, Group("C", [c1])], [ga, Group("C", [c1, c2])]);
  }

  lemma GroupedACCE(a: Contact, c1: Contact, c2: Contact, e1: Contact)
    requires a.name != [] && c1.name != [] && c2.name != [] && e1.name != []
    requires KeyOf(a) == "A" && KeyOf(c1) == "C" && KeyOf(c2) == "C" && KeyOf(e1) == "E"
    ensures GroupBy([a, c1, c2, e1]) == [Group("A", [a]), Group("C", [c1, c2]), Group("E", [e1])]
  {
    var before := [Group("A", [a]), Group("C", [c1, c2])];
    GroupedACC(a, c1, c2);
    AddNew(before, e1);
    GroupStep([a, c1, c2], e1, [a, c1, c2, e1], before, before + [Group("E", [e1])]);
  }

  /**
   * `groupBy` on five named contacts whose initials read A, C, C, E, E: one
   * entry per letter, in first-appearance order, members in input order.
   */
  lemma GroupedACE(a: Contact, c1: Contact, c2: Contact, e1: Contact, e2: Contact)
    requires a.name != [] && c1.name != [] && c2.name != [] && e1.name != [] && e2.name != []
    requires KeyOf(a) == "A" && KeyOf(c1) == "C" && KeyOf(c2) == "C" && KeyOf(e1) == "E" && KeyOf(e2) == "E"
    ensures GroupBy([a, c1, c2, e1, e2]) == [Group("A", [a]), Group("C", [c1, c2]), Group("E", [e1, e2])]
  {
    var front := [Group("A", [a]), Group("C", [c1, c2])];
    GroupedACCE(a, c1, c2, e1);
    AddLast(front, Group("E", [e1]), e2);
    assert [e1] + [e2] == [e1, e2];
    GroupStep([a, c1, c2, e1], e2, [a, c1, c2, e1, e2], front + [Group("E", [e1])], front + [Group("E", [e1, e2])]);
  }

  /** One `groupBy` step: the groups of `xs + [c]` are those of `xs` with `c` added. */
  lemma GroupStep(xs: seq<Contact>, c: Contact, ys: seq<Contact>, before: seq<Group>, after: seq<Group>)
    requires Named(xs) && c.name != [] && ys == xs + [c]
    requires GroupBy(xs) == before && AddTo(before, c) == after
    ensures GroupBy(ys) == after
  {
    GroupBySnoc(xs, c);
  }

  /** `groupBy` keeps first-appearance order; Eva comes before Elena within "E". */
  lemma ShippedGroupBy()
    ensures GroupBy([Alberto, Carlos, Claudia, Eva, Elena]) == [GroupA, GroupC, GroupE]
  {
    assert KeyOf(Alberto) == "A" && KeyOf(Carlos) == "C" && KeyOf(Claudia) == "C";
    assert KeyOf(Eva) == "E" && KeyOf(Elena) == "E";
    GroupedACE(Alberto, Carlos, Claudia, Eva, Elena);
  }

  /** The groups already come in key order, so `toSortedMap` leaves them as they are. */
  lemma SortedFromC()
    ensures SortByKey([GroupC, GroupE]) == [GroupC, GroupE]
  {
    assert Below("C", "E");
    assert [GroupC, GroupE][1..] == [GroupE];
    assert [GroupE][1..] == [];
    assert SortByKey([GroupE]) == [GroupE];
  }

  lemma ShippedSorted()
    ensures SortByKey([GroupA, GroupC, GroupE]) == [GroupA, GroupC, GroupE]
  {
    SortedFromC();
    assert Below("A", "C");
    assert [GroupA, GroupC, GroupE][1..] == [GroupC, GroupE];
  }

  /** Every contact has a name, so grouping does not fail. */
  lemma ShippedKeyable()
    ensures FirstUnkeyable(Shipped) == None
  {
    forall i | 0 <= i < |Shipped|
      ensures !Unkeyable(Shipped[i])
    {
    }
  }

  lemma ShippedSections()
    ensures Sectioning(Shipped) == Success(Sections([Ana, David], [GroupA, GroupC, GroupE]))
  {
    ShippedKeyable();
    ShippedFavorites();
    ShippedOthers();
    ShippedGroupBy();
    ShippedSorted();
  }

  lemma ShippedLetterSections()
    ensures RenderGroups([GroupA, GroupC, GroupE]) ==
      [Header("A"), Row(Alberto)] + [Header("C"), Row(Carlos), Row(Claudia)] + [Header("E"), Row(Eva), Row(Elena)]
  {
    assert Rows([Alberto]) == [Row(Alberto)];
    assert Rows([Carlos, Claudia]) == [Row(Carlos), Row(Claudia)];
    assert Rows([Eva, Elena]) == [Row(Eva), Row(Elena)];
    assert RenderGroups([GroupE]) == [Header("E"), Row(Eva), Row(Elena)] by {
      assert [GroupE][1..] == [];
    }
    assert RenderGroups([GroupC, GroupE]) == [Header("C"), Row(Carlos), Row(Claudia)] + RenderGroups([GroupE]) by {
      assert [GroupC, GroupE][1..] == [GroupE];
    }
    assert RenderGroups([GroupA, GroupC, GroupE]) == [Header("A"), Row(Alberto)] + RenderGroups([GroupC, GroupE]) by {
      assert [GroupA, GroupC, GroupE][1..] == [GroupC, GroupE];
    }
  }

  lemma ShippedRender()
    ensures Render(Sections([Ana, David], [GroupA, GroupC, GroupE])) ==
      [Header("★ Favoritos")] + [Row(Ana), Row(David)]
      + ([Header("A"), Row(Alberto)] + [Header("C"), Row(Carlos), Row(Claudia)] + [Header("E"), Row(Eva), Row(Elena)])
  {
    var s := Sections([Ana, David], [GroupA, GroupC, GroupE]);
    assert Rows(s.favorites) == [Row(Ana), Row(David)];
    assert Render(s) == [Header(FavoritesLabel)] + Rows(s.favorites) + RenderGroups(s.groups);
    ShippedLetterSections();
  }

  /** The list as shown: the favourites section first, then the sections A, C and E. */
  lemma ShippedScreen()
    ensures Screen(Shipped) == Success(
      [Header("★ Favoritos")] + [Row(Ana), Row(David)]
      + ([Header("A"), Row(Alberto)] + [Header("C"), Row(Carlos), Row(Claudia)] + [Header("E"), Row(Eva), Row(Elena)]))
  {
    ShippedSections();
    ShippedRender();
  }

  lemma AnaUnits()
    ensures Utf16("Ana") == [65, 110, 97]
  {
    assert "Ana"[1..] == "na" && "na"[1..] == "a" && "a"[1..] == "";
  }

  lemma AnaHash()
    ensures HashUnits([65, 110, 97]) == 65972
  {
    assert [65, 110, 97][..2] == [65, 110] && [65, 110][..1] == [65] && [65][..0] == [];
    assert HashUnits([65]) == 65;
    assert HashUnits([65, 110]) == 2125;
  }

  /** "Ana" hashes to 65 * 31 * 31 + 110 * 31 + 97 = 65972 = 0x0101B4. */
  lemma AnaColor()
    ensures ColorFor("Ana") == Rgb(0x01, 0x01, 0xB4)
  {
    AnaUnits();
    AnaHash();
    assert HashCode("Ana") == 65972;
  }

  /**
   * A non-favourite with no name fails while grouping (at index 0); a
   * favourite with no name passes grouping and is laid out, but its avatar
   * letter has no first character to show.
   */
  lemma EmptyNameFails()
    ensures Screen([Contact("", "1", false)]) == Failure(EmptyName(0))
    ensures Screen([Contact("", "1", true)]) == Success([Header(FavoritesLabel), Row(Contact("", "1", true))])
    ensures Initial(Contact("", "1", true)) == None
  {
    var x := Contact("", "1", true);
    assert Unkeyable(Contact("", "1", false));
    assert !Unkeyable(x);
    var e: seq<Contact> := [];
    FilterCons(x, e, IsFavorite);
    FilterCons(x, e, IsOther);
    assert [x] + e == [x];
    assert FirstUnkeyable([x]) == None;
    assert Sectioning([x]) == Success(Sections([x], [])) by {
      assert GroupBy([]) == [] && SortByKey([]) == [];
    }
    assert Rows([x]) == [Row(x)];
    assert Render(Sections([x], [])) == [Header(FavoritesLabel)] + [Row(x)] + [];
    assert [Header(FavoritesLabel)] + [Row(x)] + [] == [Header(FavoritesLabel), Row(x)];
    assert Screen([x]) == Success(Render(Sections([x], [])));
  }
}
