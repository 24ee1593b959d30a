/**
 * The integer part of `generarColorParaContacto`: the name's
 * `String.hashCode()` and the three bytes taken from it. The division by
 * 255f and the `Color` constructor are not modelled.
 */
module AvatarColor {

  const Two31: int := 0x8000_0000
  const Two32: int := 0x1_0000_0000

  /** A value of Kotlin's 32-bit two's-complement `Int`. */
  predicate IsInt32(x: int)
  {
    -Two31 <= x < Two31
  }

  /** What overflow leaves of `x` in an `Int`: the one `Int` that agrees with `x` modulo 2^32. */
  function Wrap(x: int): (r: int)
    ensures IsInt32(r)
    ensures (r - x) % Two32 == 0
  {
    (x + Two31) % Two32 - Two31
  }

  /** Numbers that agree modulo 2^32 wrap to the same `Int`. */
  lemma WrapCongruent(x: int, y: int)
    requires (x - y) % Two32 == 0
    ensures Wrap(x) == Wrap(y)
  {
    var k := (x - y) / Two32;
    assert x == y + k * Two32;
  }

  /** The UTF-16 code units of a string, as a JVM `String` holds them. */
  function Utf16(s: string): (us: seq<int>)
    ensures forall i :: 0 <= i < |us| ==> 0 <= us[i] < 0x10000
    ensures |s| <= |us| <= 2 * |s|
    ensures (forall i :: 0 <= i < |s| ==> (s[i] as int) < 0x10000) ==>
      |us| == |s| && forall i :: 0 <= i < |s| ==> us[i] == s[i] as int
  {
    if s == [] then [] else CharUnits(s[0]) + Utf16(s[1..])
  }

  /** The code units of one character: itself, or a high and a low surrogate. */
  function CharUnits(ch: char): seq<int>
  {
    var v := ch as int;
    if v < 0x10000 then [v] else [0xD800 + (v - 0x10000) / 0x400, 0xDC00 + (v - 0x10000) % 0x400]
  }

  /** The units of a string that starts with `ch`. */
  lemma Utf16Cons(ch: char, s: string)
    ensures Utf16([ch] + s) == CharUnits(ch) + Utf16(s)
  {
    assert ([ch] + s)[0] == ch && ([ch] + s)[1..] == s;
  }

  /** The units of a string are the units of its characters, one character after the other. */
  lemma {:induction false} Utf16Append(s: string, t: string)
    ensures Utf16(s + t) == Utf16(s) + Utf16(t)
    decreases |s|
  {
    if s == [] {
      assert s + t == t;
    } else {
      var ch, r := s[0], s[1..];
      assert s == [ch] + r && s + t == [ch] + (r + t);
      Utf16Cons(ch, r + t);
      Utf16Cons(ch, r);
      Utf16Append(r, t);
      ConcatAssoc(CharUnits(ch), Utf16(r), Utf16(t));
    }
  }

  lemma ConcatAssoc(a: seq<int>, b: seq<int>, c: seq<int>)
    ensures a + (b + c) == (a + b) + c
  {
  }

  /**
   * One character is one unit inside the Basic Multilingual Plane and a
   * surrogate pair outside it, and the pair decodes back to the character.
   */
  lemma Utf16Char(ch: char)
    ensures var us := Utf16([ch]);
      && (ch as int < 0x10000 ==> us == [ch as int])
      && (ch as int >= 0x10000 ==>
            |us| == 2 && 0xD800 <= us[0] < 0xDC00 && 0xDC00 <= us[1] < 0xE000
            && 0x10000 + (us[0] - 0xD800) * 0x400 + (us[1] - 0xDC00) == ch as int)
  {
    assert [ch][1..] == [];
  }

  /** The loop of `String.hashCode()`: `h = 31 * h + unit` over the units, in `Int` arithmetic. */
  function HashUnits(us: seq<int>): (h: int)
    ensures IsInt32(h)
  {
    if us == [] then 0 else Wrap(31 * HashUnits(us[..|us| - 1]) + us[|us| - 1])
  }

  /** `nombre.hashCode()`. */
  function HashCode(name: string): (h: int)
    ensures IsInt32(h)
  {
    HashUnits(Utf16(name))
  }

  function Pow31(k: nat): nat
  {
    if k == 0 then 1 else 31 * Pow31(k - 1)
  }

  /** The documented formula u[0]*31^(n-1) + ... + u[n-1], computed without overflow. */
  function Polynomial(us: seq<int>): int
  {
    if us == [] then 0 else us[0] * Pow31(|us| - 1) + Polynomial(us[1..])
  }

  lemma {:induction false} PolynomialSnoc(us: seq<int>, u: int)
    ensures Polynomial(us + [u]) == 31 * Polynomial(us) + u
    decreases |us|
  {
    if us == [] {
      assert us + [u] == [u];
      assert Polynomial([u]) == u * Pow31(0) + Polynomial([]);
    } else {
      var n := |us|;
      assert (us + [u])[0] == us[0] && (us + [u])[1..] == us[1..] + [u];
      PolynomialSnoc(us[1..], u);
      assert Pow31(n) == 31 * Pow31(n - 1);
      calc {
        Polynomial(us + [u]);
        us[0] * Pow31(n) + Polynomial(us[1..] + [u]);
        us[0] * (31 * Pow31(n - 1)) + 31 * Polynomial(us[1..]) + u;
        { assert us[0] * (31 * Pow31(n - 1)) == 31 * (us[0] * Pow31(n - 1)); }
        31 * (us[0] * Pow31(n - 1) + Polynomial(us[1..])) + u;
        31 * Polynomial(us) + u;
      }
    }
  }

  /** Values that agree modulo 2^32 still agree after one more hash step. */
  lemma HashStep(h: int, p: int, u: int)
    requires (h - p) % 0x1_0000_0000 == 0
    ensures Wrap(31 * h + u) == Wrap(31 * p + u)
  {
    var k := (h - p) / 0x1_0000_0000;
    assert h == p + k * 0x1_0000_0000;
    assert (31 * h + u) - (31 * p + u) == (31 * k) * 0x1_0000_0000;
    WrapCongruent(31 * h + u, 31 * p + u);
  }

  /** The hash is the documented polynomial, reduced to an `Int`. */
  lemma {:induction false} HashIsPolynomial(us: seq<int>)
    ensures HashUnits(us) == Wrap(Polynomial(us))
    decreases |us|
  {
    if us != [] {
      var init, u := us[..|us| - 1], us[|us| - 1];
      assert us == init + [u];
      HashIsPolynomial(init);
      PolynomialSnoc(init, u);
      HashStep(HashUnits(init), Polynomial(init), u);
    }
  }

  /** Red, green and blue bytes of the avatar background, each in 0..255. */
  datatype Rgb = Rgb(red: int, green: int, blue: int)

  /**
   * `hash shr 16 and 0xFF`, `hash shr 8 and 0xFF`, `hash and 0xFF`. On an
   * `Int`, `shr` is an arithmetic shift, that is floor division by a power of
   * two, and `and 0xFF` keeps the low byte, that is the non-negative
   * remainder by 256: Dafny's `/` and `%` by a positive constant are exactly
   * these, negative hashes included.
   */
  function Channels(h: int): (c: Rgb)
    ensures 0 <= c.red < 256 && 0 <= c.green < 256 && 0 <= c.blue < 256
    ensures c.red * 0x1_0000 + c.green * 0x100 + c.blue == h % 0x100_0000
  {
    LowBytes(h);
    Rgb((h / 0x1_0000) % 0x100, (h / 0x100) % 0x100, h % 0x100)
  }

  /** Each byte the colour takes from `h` is the same byte of its low 24 bits. */
  lemma LowBytes(h: int)
    ensures var m := h % 0x100_0000;
      && (h / 0x1_0000) % 0x100 == m / 0x1_0000
      && (h / 0x100) % 0x100 == (m / 0x100) % 0x100
      && h % 0x100 == m % 0x100
      && m == (m / 0x1_0000) * 0x1_0000 + ((m / 0x100) % 0x100) * 0x100 + m % 0x100
  {
    var m, k := h % 0x100_0000, h / 0x100_0000;
    assert h == 0x100_0000 * k + m;
    assert h / 0x1_0000 == 0x100 * k + m / 0x1_0000;
    assert h / 0x100 == 0x1_0000 * k + m / 0x100;
    assert m / 0x100 == (m / 0x1_0000) * 0x100 + (m / 0x100) % 0x100;
  }

  /** The colour reads bits 0 to 23 of the hash and nothing else. */
  lemma ChannelsSeeLow24Bits(h1: int, h2: int)
    ensures Channels(h1) == Channels(h2) <==> h1 % 0x100_0000 == h2 % 0x100_0000
  {
    LowBytes(h1);
    LowBytes(h2);
  }

  /** The integer channels of `generarColorParaContacto(nombre)`. */
  function ColorFor(name: string): (c: Rgb)
    ensures 0 <= c.red < 256 && 0 <= c.green < 256 && 0 <= c.blue < 256
    ensures c.red * 0x1_0000 + c.green * 0x100 + c.blue == Wrap(Polynomial(Utf16(name))) % 0x100_0000
  {
    HashIsPolynomial(Utf16(name));
    Channels(HashCode(name))
  }
}
