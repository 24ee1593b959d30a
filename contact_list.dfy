/**
 * The `LazyColumn` that `PantallaContactos` builds, as the flat sequence of
 * calls its builder receives: a sticky header, then one item per contact of
 * that section. Pinning and scrolling belong to the UI toolkit and are not
 * modelled.
 */
module ContactList {
  import opened Wrappers
  import opened Seqs
  import opened Contacts
  import opened Grouping

  /** Text of the favourites header. */
  const FavoritesLabel: string := "★ Favoritos"

  /** A `stickyHeader { Text(text) }`, or one item `ContactoItem(contact)` of `items(...)`. */
  datatype Event = Header(text: string) | Row(contact: Contact)

  /** `items(list) { ContactoItem(it) }`. */
  function Rows(cs: seq<Contact>): (r: seq<Event>)
    ensures |r| == |cs| && forall i :: 0 <= i < |r| ==> r[i].Row?
  {
    seq(|cs|, i requires 0 <= i < |cs| => Row(cs[i]))
  }

  /** `otrosContactos.forEach { (inicial, lista) -> stickyHeader { ... }; items(lista) { ... } }`. */
  function RenderGroups(gs: seq<Group>): (r: seq<Event>)
    ensures |r| == |gs| + |Flatten(gs)|
  {
    if gs == [] then [] else [Header(gs[0].key)] + Rows(gs[0].members) + RenderGroups(gs[1..])
  }

  /** The whole list: the favourites section when there are favourites, then the lettered sections. */
  function Render(s: Sections): (r: seq<Event>)
    ensures |r| == (if s.favorites != [] then 1 + |s.favorites| else 0) + |s.groups| + |Flatten(s.groups)|
  {
    (if s.favorites != [] then [Header(FavoritesLabel)] + Rows(s.favorites) else []) + RenderGroups(s.groups)
  }

  /** `PantallaContactos`: sections and list, or the failure of `first()` while grouping. */
  function Screen(cs: seq<Contact>): (r: Result<seq<Event>, Error>)
    ensures r.Failure? <==> exists i :: 0 <= i < |cs| && !cs[i].isFavorite && cs[i].name == []
  {
    match Sectioning(cs)
    case Failure(e) => Failure(e)
    case Success(s) => Success(Render(s))
  }

  /** The contacts shown by the rows of `ev`, top to bottom. */
  function RowContacts(ev: seq<Event>): seq<Contact>
  {
    if ev == [] then [] else (if ev[0].Row? then [ev[0].contact] else []) + RowContacts(ev[1..])
  }

  // ---------------------------------------------------------- reading back

  lemma RowsCons(c: Contact, cs: seq<Contact>)
    ensures Rows([c] + cs) == [Row(c)] + Rows(cs)
  {
    var a, b := Rows([c] + cs), [Row(c)] + Rows(cs);
    assert |a| == |b|;
    forall i | 0 <= i < |a|
      ensures a[i] == b[i]
    {
      if i > 0 {
        assert ([c] + cs)[i] == cs[i - 1];
      }
    }
  }

  /** Splits off the rows at the front of `ev`: the contacts they show and what follows them. */
  function TakeRows(ev: seq<Event>): (r: (seq<Contact>, seq<Event>))
    ensures Rows(r.0) + r.1 == ev
    ensures r.1 == [] || r.1[0].Header?
  {
    if ev != [] && ev[0].Row? then
      var (cs, rest) := TakeRows(ev[1..]);
      assert Rows([ev[0].contact] + cs) + rest == ev by {
        RowsCons(ev[0].contact, cs);
        assert ev == [ev[0]] + ev[1..];
      }
      ([ev[0].contact] + cs, rest)
    else
      assert Rows([]) == [];
      ([], ev)
  }

  /** Reads lettered sections back: each header and the rows after it, up to the next header. */
  function ParseGroups(ev: seq<Event>): Option<seq<Group>>
    decreases |ev|
  {
    if ev == [] then Some([])
    else if ev[0].Row? then None
    else
      var (ms, rest) := TakeRows(ev[1..]);
      assert |rest| < |ev| by {
        assert |Rows(ms) + rest| == |ev[1..]|;
      }
      match ParseGroups(rest)
      case None => None
      case Some(gs) => Some([Group(ev[0].text, ms)] + gs)
  }

  /** Reads a whole list back into favourites and lettered sections; None when it is not of that shape. */
  function Parse(ev: seq<Event>): Option<Sections>
  {
    if ev != [] && ev[0] == Header(FavoritesLabel) then
      var (fs, rest) := TakeRows(ev[1..]);
      match ParseGroups(rest)
      case None => None
      case Some(gs) => Some(Sections(fs, gs))
    else
      match ParseGroups(ev)
      case None => None
      case Some(gs) => Some(Sections([], gs))
  }

  lemma {:induction false} TakeRowsOf(cs: seq<Contact>, tail: seq<Event>)
    requires tail == [] || tail[0].Header?
    ensures TakeRows(Rows(cs) + tail) == (cs, tail)
    decreases |cs|
  {
    if cs != [] {
      var ev := Rows(cs) + tail;
      assert ev[0] == Row(cs[0]);
      assert ev[1..] == Rows(cs[1..]) + tail;
      TakeRowsOf(cs[1..], tail);
      assert cs == [cs[0]] + cs[1..];
    } else {
      assert Rows(cs) + tail == tail;
    }
  }

  /** One lettered section reads back, whatever follows it. */
  lemma ParseGroupStep(g: Group, tail: seq<Event>)
    requires tail == [] || tail[0].Header?
    ensures ParseGroups([Header(g.key)] + Rows(g.members) + tail) ==
      match ParseGroups(tail) case None => None case Some(gs) => Some([g] + gs)
  {
    var ev := [Header(g.key)] + Rows(g.members) + tail;
    assert ev[1..] == Rows(g.members) + tail;
    TakeRowsOf(g.members, tail);
  }

  lemma {:induction false} ParseRenderGroups(gs: seq<Group>)
    ensures ParseGroups(RenderGroups(gs)) == Some(gs)
  {
    if gs != [] {
      var tail := RenderGroups(gs[1..]);
      assert tail == [] || tail[0].Header?;
      ParseGroupStep(gs[0], tail);
      ParseRenderGroups(gs[1..]);
      assert gs == [gs[0]] + gs[1..];
    }
  }

  /**
   * The list determines its sections: reading it back gives the favourites
   * and the lettered sections it was built from, so every header is followed
   * by exactly the rows of its section and nothing else. The only
   * requirement is that no lettered section be titled like the favourites one.
   */
  lemma {:induction false} ParseRender(s: Sections)
    requires forall i :: 0 <= i < |s.groups| ==> s.groups[i].key != FavoritesLabel
    ensures Parse(Render(s)) == Some(s)
  {
    var tail := RenderGroups(s.groups);
    ParseRenderGroups(s.groups);
    assert tail == [] || tail[0] == Header(s.groups[0].key);
    if s.favorites != [] {
      ParseFavoritesSection(s.favorites, tail);
    } else {
      assert Render(s) == tail;
    }
  }

  /** The favourites header and its rows read back, whatever lettered list follows. */
  lemma ParseFavoritesSection(fs: seq<Contact>, tail: seq<Event>)
    requires tail == [] || (tail[0].Header? && tail[0] != Header(FavoritesLabel))
    ensures var ev := [Header(FavoritesLabel)] + Rows(fs) + tail;
      Parse(ev) == match ParseGroups(tail) case None => None case Some(gs) => Some(Sections(fs, gs))
  {
    var ev := [Header(FavoritesLabel)] + Rows(fs) + tail;
    assert ev[1..] == Rows(fs) + tail;
    TakeRowsOf(fs, tail);
  }

  // ------------------------------------------------------------ the layout

  lemma {:induction false} RowContactsAppend(a: seq<Event>, b: seq<Event>)
    ensures RowContacts(a + b) == RowContacts(a) + RowContacts(b)
    decreases |a|
  {
    if a != [] {
      assert (a + b)[0] == a[0] && (a + b)[1..] == a[1..] + b;
      RowContactsAppend(a[1..], b);
    } else {
      assert a + b == b;
    }
  }

  lemma {:induction false} RowContactsOfRows(cs: seq<Contact>)
    ensures RowContacts(Rows(cs)) == cs
    decreases |cs|
  {
    if cs != [] {
      assert Rows(cs)[1..] == Rows(cs[1..]);
      RowContactsOfRows(cs[1..]);
      assert cs == [cs[0]] + cs[1..];
    }
  }

  lemma {:induction false} RowContactsOfGroups(gs: seq<Group>)
    ensures RowContacts(RenderGroups(gs)) == Flatten(gs)
  {
    if gs != [] {
      var h: seq<Event> := [Header(gs[0].key)];
      RowContactsAppend(h + Rows(gs[0].members), RenderGroups(gs[1..]));
      RowContactsAppend(h, Rows(gs[0].members));
      assert RowContacts(h) == [];
      RowContactsOfRows(gs[0].members);
      RowContactsOfGroups(gs[1..]);
    }
  }

  /** The rows show the favourites, then each lettered section's members, in that order. */
  lemma {:induction false} RenderShows(s: Sections)
    ensures RowContacts(Render(s)) == s.favorites + Flatten(s.groups)
  {
    var front := if s.favorites != [] then [Header(FavoritesLabel)] + Rows(s.favorites) else [];
    RowContactsAppend(front, RenderGroups(s.groups));
    RowContactsOfGroups(s.groups);
    if s.favorites != [] {
      RowContactsAppend([Header(FavoritesLabel)], Rows(s.favorites));
      assert RowContacts([Header(FavoritesLabel)]) == [];
      RowContactsOfRows(s.favorites);
    }
  }

  /** The screen shows every contact of the input in exactly one row. */
  lemma {:induction false} ScreenShowsEachContactOnce(cs: seq<Contact>)
    requires Screen(cs).Success?
    ensures multiset(RowContacts(Screen(cs).value)) == multiset(cs)
    ensures |RowContacts(Screen(cs).value)| == |cs|
  {
    var s := Sectioning(cs).value;
    RenderShows(s);
    GroupsWellFormed(cs);
    PartitionCovers(cs);
    assert multiset(s.favorites + Flatten(s.groups)) == multiset(s.favorites) + multiset(Flatten(s.groups));
  }

  /**
   * Every row can draw its avatar letter exactly when no contact of the input
   * has an empty name; grouping already refused empty non-favourites, so an
   * empty favourite is the one case that reaches `ContactoItem` and fails there.
   */
  lemma {:induction false} AvatarsDrawable(cs: seq<Contact>)
    requires Screen(cs).Success?
    ensures (forall c :: c in RowContacts(Screen(cs).value) ==> Initial(c).Some?)
      <==> (forall i :: 0 <= i < |cs| ==> cs[i].name != [])
  {
    ScreenShowsEachContactOnce(cs);
    var shown := RowContacts(Screen(cs).value);
    if forall c :: c in shown ==> Initial(c).Some? {
      forall i | 0 <= i < |cs|
        ensures cs[i].name != []
      {
        assert cs[i] in multiset(shown);
        assert Initial(cs[i]).Some?;
      }
    }
    if forall i :: 0 <= i < |cs| ==> cs[i].name != [] {
      forall c | c in shown
        ensures Initial(c).Some?
      {
        assert c in multiset(cs);
        var i :| 0 <= i < |cs| && cs[i] == c;
      }
    }
  }

  /** With only favourites the list is the favourites section and nothing more. */
  lemma AllFavorites(cs: seq<Contact>)
    requires cs != [] && forall i :: 0 <= i < |cs| ==> cs[i].isFavorite
    ensures Screen(cs) == Success([Header(FavoritesLabel)] + Rows(cs))
  {
    FilterAllOrNone(cs, IsFavorite);
    FilterAllOrNone(cs, IsOther);
    forall i | 0 <= i < |cs|
      ensures !Unkeyable(cs[i])
    {
    }
    var o := Others(cs);
    assert o == [];
    assert GroupBy(o) == [] && SortByKey([]) == [];
    assert Sectioning(cs) == Success(Sections(cs, []));
    assert Render(Sections(cs, [])) == [Header(FavoritesLabel)] + Rows(cs) + [];
    assert [Header(FavoritesLabel)] + Rows(cs) + [] == [Header(FavoritesLabel)] + Rows(cs);
    assert Screen(cs) == Success(Render(Sections(cs, [])));
  }

  /**
   * The list read back gives exactly the sections, so a header is followed by
   * the rows of its section and by nothing else before the next header.
   */
  lemma {:induction false} ScreenParses(cs: seq<Contact>)
    requires Screen(cs).Success?
    ensures Parse(Screen(cs).value) == Some(Sectioning(cs).value)
  {
    KeysAreInitials(cs);
    ParseRender(Sectioning(cs).value);
  }

  /**
   * The favourites header is shown exactly when there are favourites; it then
   * opens the list and is followed by one row per favourite, in input order.
   */
  lemma {:induction false} FavoritesHeaderFirst(cs: seq<Contact>)
    requires Screen(cs).Success?
    ensures var ev := Screen(cs).value;
      (ev != [] && ev[0] == Header(FavoritesLabel)) <==> Favorites(cs) != []
    ensures var ev, f := Screen(cs).value, Favorites(cs);
      f != [] ==> |ev| > |f| && ev[1..|f| + 1] == Rows(f)
  {
    var s := Sectioning(cs).value;
    var ev := Render(s);
    KeysAreInitials(cs);
    if s.favorites == [] {
      assert ev == RenderGroups(s.groups);
      assert ev != [] ==> ev[0] == Header(s.groups[0].key);
    } else {
      var f := s.favorites;
      assert ev == [Header(FavoritesLabel)] + Rows(f) + RenderGroups(s.groups);
      assert ev[1..|f| + 1] == Rows(f);
    }
  }

  /** The lettered sections cut at section `i`. */
  lemma {:induction false} RenderGroupsSplit(gs: seq<Group>, i: int)
    requires 0 <= i <= |gs|
    ensures RenderGroups(gs) == RenderGroups(gs[..i]) + RenderGroups(gs[i..])
  {
    if i > 0 {
      assert gs[..i][0] == gs[0] && gs[..i][1..] == gs[1..][..i - 1];
      assert gs[i..] == gs[1..][i - 1..];
      RenderGroupsSplit(gs[1..], i - 1);
    } else {
      assert gs[..i] == [] && gs[i..] == gs;
    }
  }

  /**
   * Section `i` of the list is its header followed immediately by its rows;
   * the sections before it come first and the ones after it follow.
   */
  lemma {:induction false} SectionAt(gs: seq<Group>, i: int)
    requires 0 <= i < |gs|
    ensures RenderGroups(gs) ==
      RenderGroups(gs[..i]) + [Header(gs[i].key)] + Rows(gs[i].members) + RenderGroups(gs[i + 1..])
  {
    RenderGroupsSplit(gs, i);
    assert gs[i..][0] == gs[i] && gs[i..][1..] == gs[i + 1..];
  }

  /** The empty contact list gives the empty screen. */
  lemma EmptyScreen()
    ensures Screen([]) == Success([])
  {
    assert Favorites([]) == [] && Others([]) == [];
    assert GroupBy([]) == [] && SortByKey([]) == [];
    assert Sectioning([]) == Success(Sections([], []));
    assert Render(Sections([], [])) == [];
  }
}
