/** The `Contacto` record and the one-letter key derived from its name. */
module Contacts {
  import opened Wrappers

  /** `Contacto(nombre, telefono, esFavorito)`; the flag defaults to false in the source. */
  datatype Contact = Contact(name: string, phone: string, isFavorite: bool)

  /** `Char.uppercase()`, restricted to the ASCII letters: 'a'..'z' map to 'A'..'Z'. */
  function Upper(c: char): (r: char)
    ensures !('a' <= r <= 'z')
    ensures 'a' <= c <= 'z' || r == c
    ensures 'a' <= c <= 'z' ==> 'A' <= r <= 'Z' && r as int == c as int - 32
  {
    if 'a' <= c <= 'z' then (c as int - 32) as char else c
  }

  /** `nombre.first().uppercase()`: only defined when the name has a first character. */
  function KeyOf(c: Contact): (k: string)
    requires c.name != []
    ensures |k| == 1 && !('a' <= k[0] <= 'z')
    ensures 'a' <= c.name[0] <= 'z' || k[0] == c.name[0]
    ensures 'a' <= c.name[0] <= 'z' ==> k[0] as int == c.name[0] as int - 32
  {
    [Upper(c.name[0])]
  }

  /** A name starting with a lower-case ASCII letter is filed with the names starting with its capital. */
  lemma KeyIgnoresCase(c: Contact, d: Contact)
    requires c.name != [] && d.name != []
    requires 'A' <= d.name[0] <= 'Z' && c.name[0] as int == d.name[0] as int + 32
    ensures KeyOf(c) == KeyOf(d)
  {
  }

  /**
   * The letter drawn in a row's avatar. The source calls `first()` on the
   * name, which throws on an empty name: that case is None here.
   */
  function Initial(c: Contact): (r: Option<string>)
    ensures r.None? <==> c.name == []
    ensures r.Some? ==> r.value == KeyOf(c)
  {
    if c.name == [] then None else Some(KeyOf(c))
  }
}
