# Contact sections with sticky headers — a Dafny model

The Android app shows a contact list split into sections. `PantallaContactos` does three things:

- It takes the favourites (`filter { it.esFavorito }`).
- It groups the other contacts by the upper-cased first letter of their name (`groupBy`). It then orders the groups by that letter (`toSortedMap`).
- It lays out a `LazyColumn`:
  - a "★ Favoritos" sticky header and one row per favourite, when there are favourites;
  - then, for each letter, a sticky header with the letter and one row per contact filed under it.

Each row draws an avatar. The avatar shows the name's upper-cased first letter. Its background colour is taken from three bytes of `nombre.hashCode()`.

The model is pure: every operation of the screen's logic is an expression in the source, so every operation here is a function, with lemmas about it.

| file | module | what it holds |
|---|---|---|
| `wrappers.dfy` | `Wrappers` | `Option` and `Result` |
| `seqs.dfy` | `Seqs` | `Filter` (Kotlin's `List.filter`), the subsequence relation, and the facts that pin `Filter` down |
| `key_order.dfy` | `KeyOrder` | `Below`, the order `String.compareTo` gives the section keys, proved a strict total order |
| `contacts.dfy` | `Contacts` | `Contact` (`Contacto`), the section key of a contact, the avatar letter |
| `grouping.dfy` | `Grouping` | `favoritos` and `otrosContactos`: the filters, `groupBy` as an insertion-ordered map, `toSortedMap`, and the failure of `first()` |
| `contact_list.dfy` | `ContactList` | the `LazyColumn` as the sequence of headers and rows its builder receives, a reader that recovers the sections from it, and the layout properties |
| `avatar_color.dfy` | `AvatarColor` | `String.hashCode()` with 32-bit overflow, its polynomial formula, and the three colour bytes |
| `sample.dfy` | `Sample` | the seven contacts the app ships with, and the screen they produce |

How the model represents the source:

- **Errors.** `nombre.first()` throws on an empty name.
  - While grouping, only non-favourites reach `first()`. `Sectioning` fails with `EmptyName(i)`, where `i` is the index of the first non-favourite with an empty name. A favourite with an empty name passes grouping.
  - In a row, the avatar letter is `Initial`. It is `None` for an empty name, favourites included.
- **`groupBy`.** It returns a `LinkedHashMap`. The model is a sequence of `Group(key, members)` in order of first appearance, built by appending one contact at a time.
- **`toSortedMap`.** The same groups, insertion-sorted by key.
- **`hashCode`.** It is computed over UTF-16 code units, wrapping to a signed 32-bit `Int` after every step.

An empty name is not rejected up front: only grouping fails, and only for a non-favourite. A favourite with an empty name is laid out, and only its avatar letter fails. The model does the same (`Grouping.Sectioning`, `ContactList.AvatarsDrawable`, `Sample.EmptyNameFails`).

## Model

All source cells refer to `app/src/main/java/com/example/stickyheader_secciondecontactos/MainActivity.kt`.

| member | source | states |
|---|---|---|
| Contacts.Initial | app/src/main/java/com/example/stickyheader_secciondecontactos/MainActivity.kt:147 | the avatar letter is missing (`first()` throws) exactly when the name is empty, and otherwise is the same upper-cased first character as the section key |
| Contacts.Upper | app/src/main/java/com/example/stickyheader_secciondecontactos/MainActivity.kt:77 | `uppercase()` on one character: a lowercase ASCII letter becomes its own capital (32 code points lower), any other character is unchanged, and the result is never a lowercase letter |
| Contacts.KeyOf | app/src/main/java/com/example/stickyheader_secciondecontactos/MainActivity.kt:77 | the `groupBy` key is `nombre.first().uppercase()`: one character, the name's first character itself unless that is a lowercase letter, whose capital it is then |
| Contacts.KeyIgnoresCase | app/src/main/java/com/example/stickyheader_secciondecontactos/MainActivity.kt:77 | a name starting with a lowercase letter gets the same key as one starting with its capital |
| KeyOrder.BelowPrefix | app/src/main/java/com/example/stickyheader_secciondecontactos/MainActivity.kt:78 | `compareTo` puts a proper prefix before the longer key, and never a key before its own prefix |
| KeyOrder.BelowAtFirstDifference | app/src/main/java/com/example/stickyheader_secciondecontactos/MainActivity.kt:78 | `compareTo` orders two keys by their characters at the first position where they differ |
| KeyOrder.BelowIrreflexive | app/src/main/java/com/example/stickyheader_secciondecontactos/MainActivity.kt:78 | no key sorts before itself |
| KeyOrder.BelowTransitive | app/src/main/java/com/example/stickyheader_secciondecontactos/MainActivity.kt:78 | the key order is transitive |
| KeyOrder.BelowTotal | app/src/main/java/com/example/stickyheader_secciondecontactos/MainActivity.kt:78 | any two different keys are ordered one way or the other, so a sorted map has one order |
| Seqs.Filter | app/src/main/java/com/example/stickyheader_secciondecontactos/MainActivity.kt:75-76 | every element `filter` keeps passes the test |
| Seqs.FilterCounts | app/src/main/java/com/example/stickyheader_secciondecontactos/MainActivity.kt:75-76 | `filter` keeps each passing element exactly as often as the input holds it, and no failing one |
| Seqs.FilterIsSubsequence | app/src/main/java/com/example/stickyheader_secciondecontactos/MainActivity.kt:75-76 | `filter` keeps the input order |
| Seqs.FilterKeeps | app/src/main/java/com/example/stickyheader_secciondecontactos/MainActivity.kt:75-76 | an input element that passes the test is in the result |
| Seqs.FilterUnique | app/src/main/java/com/example/stickyheader_secciondecontactos/MainActivity.kt:75-76 | any in-order selection that keeps exactly the passing elements is `filter`'s result, so the three facts above define it |
| Seqs.FilterAllOrNone | app/src/main/java/com/example/stickyheader_secciondecontactos/MainActivity.kt:75-76 | a test everything passes keeps the whole list; a test nothing passes keeps nothing |
| Grouping.Favorites | app/src/main/java/com/example/stickyheader_secciondecontactos/MainActivity.kt:75 | every contact `favoritos` keeps is a favourite; that it keeps all of them, in order, is FilterCounts / FilterIsSubsequence / PartitionCovers |
| Grouping.Others | app/src/main/java/com/example/stickyheader_secciondecontactos/MainActivity.kt:76 | every contact passed to `groupBy` is a non-favourite; that all of them are, in order, is FilterCounts / FilterIsSubsequence / PartitionCovers |
| Grouping.PartitionCovers | app/src/main/java/com/example/stickyheader_secciondecontactos/MainActivity.kt:75-76 | `favoritos` and the non-favourites split the input: together they hold every contact once, and their lengths add up to the input's |
| Grouping.FirstUnkeyable | app/src/main/java/com/example/stickyheader_secciondecontactos/MainActivity.kt:76-77 | finds the first non-favourite with an empty name, or reports that there is none |
| Grouping.AddTo | app/src/main/java/com/example/stickyheader_secciondecontactos/MainActivity.kt:77 | one `groupBy` step: the contact is appended to the entry of its key, or opens a new entry at the end; other entries are unchanged |
| Grouping.AddToDistinct | app/src/main/java/com/example/stickyheader_secciondecontactos/MainActivity.kt:77 | a `groupBy` step keeps one entry per key |
| Grouping.AddToFlatten | app/src/main/java/com/example/stickyheader_secciondecontactos/MainActivity.kt:77 | a `groupBy` step files the new contact once and loses none |
| Grouping.AddToKeepsGrouped | app/src/main/java/com/example/stickyheader_secciondecontactos/MainActivity.kt:77 | a `groupBy` step keeps the map the grouping of the list so far |
| Grouping.GroupBy | app/src/main/java/com/example/stickyheader_secciondecontactos/MainActivity.kt:77 | the map `groupBy` returns has no key twice |
| Grouping.GroupBySnoc | app/src/main/java/com/example/stickyheader_secciondecontactos/MainActivity.kt:77 | one unfolding step of `groupBy`'s fold: one more contact at the end is one more `AddTo` on the map built so far; used to compute the shipped sample |
| Grouping.GroupByGroups | app/src/main/java/com/example/stickyheader_secciondecontactos/MainActivity.kt:77 | each entry of `groupBy` holds exactly the contacts with its key, in input order, and is not empty; every contact has an entry; the entries hold the input once |
| Grouping.Insert | app/src/main/java/com/example/stickyheader_secciondecontactos/MainActivity.kt:78 | inserting an entry keeps the keys ascending and adds exactly that entry |
| Grouping.InsertFlatten | app/src/main/java/com/example/stickyheader_secciondecontactos/MainActivity.kt:78 | inserting an entry adds exactly its contacts |
| Grouping.SortByKey | app/src/main/java/com/example/stickyheader_secciondecontactos/MainActivity.kt:78 | `toSortedMap` gives the same entries, with keys strictly ascending |
| Grouping.SortByKeyFlatten | app/src/main/java/com/example/stickyheader_secciondecontactos/MainActivity.kt:78 | sorting the entries neither adds nor drops a contact |
| Grouping.Sectioning | app/src/main/java/com/example/stickyheader_secciondecontactos/MainActivity.kt:75-78 | computing the sections fails exactly when some non-favourite has an empty name, and then names the first one |
| Grouping.GroupsWellFormed | app/src/main/java/com/example/stickyheader_secciondecontactos/MainActivity.kt:76-78 | `otrosContactos` has strictly ascending keys; each entry is non-empty and holds exactly the non-favourites with its key; together the entries hold every non-favourite once |
| Grouping.EntryKeepsInputOrder | app/src/main/java/com/example/stickyheader_secciondecontactos/MainActivity.kt:76-77 | within an entry, contacts keep their input order |
| Grouping.AscendingDistinct | app/src/main/java/com/example/stickyheader_secciondecontactos/MainActivity.kt:78 | in a sorted map, two entries with the same key are the same entry |
| Grouping.FiledContact | app/src/main/java/com/example/stickyheader_secciondecontactos/MainActivity.kt:76-77 | a contact in an entry comes from the input, is not a favourite, and has that entry's key |
| Grouping.FavoriteNotFiled | app/src/main/java/com/example/stickyheader_secciondecontactos/MainActivity.kt:75-77 | a favourite is in no lettered entry |
| Grouping.FiledOnce | app/src/main/java/com/example/stickyheader_secciondecontactos/MainActivity.kt:76-78 | a contact is in at most one entry |
| Grouping.GroupedContactIsFiled | app/src/main/java/com/example/stickyheader_secciondecontactos/MainActivity.kt:77 | every contact that `groupBy` sees is in the entry of its own key |
| Grouping.OtherIsFiled | app/src/main/java/com/example/stickyheader_secciondecontactos/MainActivity.kt:76-78 | every non-favourite of the input is in the entry of its own key |
| Grouping.InitialIsEntryKey | app/src/main/java/com/example/stickyheader_secciondecontactos/MainActivity.kt:147 | the avatar letter of a filed contact is the key (line 77) of its section |
| Grouping.KeysAreInitials | app/src/main/java/com/example/stickyheader_secciondecontactos/MainActivity.kt:77 | every section key is one character long |
| ContactList.Rows | app/src/main/java/com/example/stickyheader_secciondecontactos/MainActivity.kt:112-114 | `items(lista)` emits one row per contact and nothing else; that the rows show the list's contacts in order is RowContactsOfRows |
| ContactList.RenderGroups | app/src/main/java/com/example/stickyheader_secciondecontactos/MainActivity.kt:100-115 | one header per entry plus one row per contact filed in it; the partners are ParseRenderGroups (read back), RowContactsOfGroups and SectionAt |
| ContactList.Render | app/src/main/java/com/example/stickyheader_secciondecontactos/MainActivity.kt:80-115 | the list holds the favourites header when there are favourites, one row per favourite, one header per entry and one row per filed contact; the partners are ParseRender (read back) and RenderShows |
| ContactList.Screen | app/src/main/java/com/example/stickyheader_secciondecontactos/MainActivity.kt:73-115 | `PantallaContactos` fails exactly when some non-favourite has an empty name; the partners are ScreenParses and ScreenShowsEachContactOnce |
| ContactList.TakeRows | app/src/main/java/com/example/stickyheader_secciondecontactos/MainActivity.kt:112-114 | reads back the rows `items(...)` emits: the leading rows of a list and the rest, which starts at a header |
| ContactList.ParseRenderGroups | app/src/main/java/com/example/stickyheader_secciondecontactos/MainActivity.kt:100-115 | the lettered sections can be read back from the list they produce |
| ContactList.ParseRender | app/src/main/java/com/example/stickyheader_secciondecontactos/MainActivity.kt:80-115 | the sections can be read back from the whole list, when no key equals the favourites label |
| ContactList.RowContactsOfRows | app/src/main/java/com/example/stickyheader_secciondecontactos/MainActivity.kt:94-96 | `items(list)` shows the contacts of the list, in order |
| ContactList.RowContactsOfGroups | app/src/main/java/com/example/stickyheader_secciondecontactos/MainActivity.kt:100-115 | the lettered sections show the contacts of the entries, entry after entry |
| ContactList.RenderShows | app/src/main/java/com/example/stickyheader_secciondecontactos/MainActivity.kt:80-115 | the rows show the favourites, then the entries' contacts |
| ContactList.ScreenShowsEachContactOnce | app/src/main/java/com/example/stickyheader_secciondecontactos/MainActivity.kt:80-115 | the list shows every input contact in exactly one row, so the row count equals the input length |
| ContactList.AvatarsDrawable | app/src/main/java/com/example/stickyheader_secciondecontactos/MainActivity.kt:147 | every row can draw its avatar letter exactly when no input name is empty |
| ContactList.AllFavorites | app/src/main/java/com/example/stickyheader_secciondecontactos/MainActivity.kt:82-97 | with only favourites, the list is the favourites header and one row each, with no lettered section |
| ContactList.ScreenParses | app/src/main/java/com/example/stickyheader_secciondecontactos/MainActivity.kt:80-115 | reading the list back gives exactly the sections, so each header is followed by exactly its section's rows |
| ContactList.FavoritesHeaderFirst | app/src/main/java/com/example/stickyheader_secciondecontactos/MainActivity.kt:82-97 | the list starts with the "★ Favoritos" header exactly when there are favourites, and the favourites' rows follow it, in order |
| ContactList.SectionAt | app/src/main/java/com/example/stickyheader_secciondecontactos/MainActivity.kt:100-115 | section `i` is its header, immediately followed by its rows, between the sections before and after it |
| ContactList.EmptyScreen | app/src/main/java/com/example/stickyheader_secciondecontactos/MainActivity.kt:80-115 | no contacts give an empty list |
| AvatarColor.Utf16 | app/src/main/java/com/example/stickyheader_secciondecontactos/MainActivity.kt:121 | the UTF-16 encoding `hashCode` iterates over: 16-bit units, at least as many as the characters and at most twice as many, and the identity on names inside the Basic Multilingual Plane |
| AvatarColor.Utf16Append | app/src/main/java/com/example/stickyheader_secciondecontactos/MainActivity.kt:121 | the units of a string are the units of its characters, one after the other |
| AvatarColor.Utf16Char | app/src/main/java/com/example/stickyheader_secciondecontactos/MainActivity.kt:121 | a character is one unit inside the Basic Multilingual Plane and otherwise a high and a low surrogate that decode back to it |
| AvatarColor.HashUnits | app/src/main/java/com/example/stickyheader_secciondecontactos/MainActivity.kt:121 | the hash of a sequence of units is always an `Int`; its value is stated by HashIsPolynomial |
| AvatarColor.HashCode | app/src/main/java/com/example/stickyheader_secciondecontactos/MainActivity.kt:121 | `nombre.hashCode()` is always an `Int`; its value is stated by HashIsPolynomial |
| AvatarColor.HashStep | app/src/main/java/com/example/stickyheader_secciondecontactos/MainActivity.kt:121 | one step of the hash depends only on the previous hash modulo 2^32, so overflow can be deferred to the end |
| AvatarColor.Wrap | app/src/main/java/com/example/stickyheader_secciondecontactos/MainActivity.kt:121 | overflow leaves the one 32-bit `Int` congruent to the exact value modulo 2^32 |
| AvatarColor.HashIsPolynomial | app/src/main/java/com/example/stickyheader_secciondecontactos/MainActivity.kt:121 | the step-by-step `hashCode` equals the polynomial u[0]·31^(n-1) + … + u[n-1], wrapped to an `Int` |
| AvatarColor.Channels | app/src/main/java/com/example/stickyheader_secciondecontactos/MainActivity.kt:122-126 | the three channels are bytes, and together they are the low 24 bits of the hash |
| AvatarColor.LowBytes | app/src/main/java/com/example/stickyheader_secciondecontactos/MainActivity.kt:122-126 | the bytes at shifts 16, 8 and 0 of the hash are the bytes of its low 24 bits, and those three bytes make up the low 24 bits |
| AvatarColor.ChannelsSeeLow24Bits | app/src/main/java/com/example/stickyheader_secciondecontactos/MainActivity.kt:122-126 | two hashes give the same colour exactly when their low 24 bits agree |
| AvatarColor.ColorFor | app/src/main/java/com/example/stickyheader_secciondecontactos/MainActivity.kt:120-126 | the colour of a name: three bytes that are the low 24 bits of the name's polynomial hash |
| Sample.ShippedFavorites | app/src/main/java/com/example/stickyheader_secciondecontactos/MainActivity.kt:43-51 | the favourites of the shipped list are Ana and David, in that order |
| Sample.ShippedOthers | app/src/main/java/com/example/stickyheader_secciondecontactos/MainActivity.kt:43-51 | the other five, in list order |
| Sample.GroupedACE | app/src/main/java/com/example/stickyheader_secciondecontactos/MainActivity.kt:77 | `groupBy` on five contacts keyed A, C, C, E, E gives the entries A, C and E in that order, with members in input order |
| Sample.ShippedGroupBy | app/src/main/java/com/example/stickyheader_secciondecontactos/MainActivity.kt:43-51 | grouping gives A = [Alberto], C = [Carlos, Claudia], E = [Eva, Elena] |
| Sample.ShippedSorted | app/src/main/java/com/example/stickyheader_secciondecontactos/MainActivity.kt:78 | those entries are already in key order |
| Sample.ShippedSections | app/src/main/java/com/example/stickyheader_secciondecontactos/MainActivity.kt:43-51 | the sections of the shipped list |
| Sample.ShippedScreen | app/src/main/java/com/example/stickyheader_secciondecontactos/MainActivity.kt:80-115 | the shipped list shows ★ Favoritos (Ana, David), A (Alberto), C (Carlos, Claudia), E (Eva, Elena) |
| Sample.AnaColor | app/src/main/java/com/example/stickyheader_secciondecontactos/MainActivity.kt:120-126 | "Ana" hashes to 65972, giving red 1, green 1 and blue 180 |
| Sample.EmptyNameFails | app/src/main/java/com/example/stickyheader_secciondecontactos/MainActivity.kt:77 | an unnamed non-favourite fails grouping; an unnamed favourite is laid out, but has no avatar letter |

## Left out

- Compose rendering is not modelled: styles, colours of the header backgrounds, padding, the `Scaffold` and the `MainActivity` lifecycle. The list is modelled as the sequence of headers and rows its builder receives.
- Sticky pinning and scrolling are not modelled. They belong to the UI toolkit.
- Lazy composition is not modelled. A row's avatar is composed only when the row becomes visible, so the throw on an empty favourite's name happens then. The model reports it as `Initial` being `None`, not as a failure of the whole screen.
- The name and phone texts of a row are not modelled. They are shown verbatim; only the avatar letter and colour are computed.
- The division by `255f` and the `Color` constructor are not modelled, because they use floating point. `ColorFor` stops at the three integer bytes.
- Contacts.Upper: upper-cases ASCII letters only. The source's `Char.uppercase()` follows full Unicode and can return more than one character (for example 'ß' gives "SS"). The model's keys are always one character.
- Contacts.KeyOf: takes the first Unicode scalar value of the name. For a name that starts outside the Basic Multilingual Plane, Kotlin's `first()` returns a lone UTF-16 surrogate. `KeyOrder.Below` compares scalar values, not UTF-16 units, so it orders keys differently from `String.compareTo` only for such characters. It also groups them differently: two names whose first characters differ but share a high surrogate (for example 😀 and 😃, both starting with U+D83D) get one section in the app and two in the model.
- The global `contactos` list is a parameter of `Sectioning` and `Screen`. `Sample` fixes it to the shipped seven.
- `LinkedHashMap` and `TreeMap` are modelled by their iteration order only: a sequence of entries. Hashing and tree balancing are not modelled.
