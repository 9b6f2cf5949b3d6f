/**
 * The dedup key of a payload: its 64-bit XXH64 digest rendered with the C
 * format `%016llx` (dedupmq.c, `xxhash64_hex`), that is exactly sixteen
 * lower-case hexadecimal digits, most significant first, zero-padded.
 *
 * The digest itself is computed by a library that is not part of this
 * model; here the digest is just a 64-bit value. Besides the rendering this
 * module defines the matching parser and proves that the two are inverse
 * to each other, so that distinct digests never share a key.
 */
module HexKey {
  import opened Wrappers

  /** An unsigned 64-bit value (`XXH64_hash_t`, `unsigned long long`). */
  type U64 = n: nat | n < 0x1_0000_0000_0000_0000

  /** Number of characters `%016llx` produces for a 64-bit value. */
  const KeyWidth: nat := 16

  predicate IsLowerHexDigit(c: char)
  {
    '0' <= c <= '9' || 'a' <= c <= 'f'
  }

  predicate IsLowerHex(s: string)
  {
    forall i :: 0 <= i < |s| ==> IsLowerHexDigit(s[i])
  }

  function Pow16(k: nat): (p: nat)
    ensures p >= 1
  {
    if k == 0 then 1 else 16 * Pow16(k - 1)
  }

  /** The value of one lower-case hex digit. */
  function DigitValue(c: char): (d: nat)
    requires IsLowerHexDigit(c)
    ensures d < 16
  {
    if '0' <= c <= '9' then c as int - '0' as int else c as int - 'a' as int + 10
  }

  /** The lower-case hex digit of `d`, as `printf`'s `x` conversion writes it. */
  function DigitChar(d: nat): (c: char)
    requires d < 16
    ensures IsLowerHexDigit(c) && DigitValue(c) == d
  {
    if d < 10 then ('0' as int + d) as char else ('a' as int + d - 10) as char
  }

  lemma DigitCharOfValue(c: char)
    requires IsLowerHexDigit(c)
    ensures DigitChar(DigitValue(c)) == c
  {
  }

  /**
   * The last `width` hex digits of `n`, zero-padded on the left: the `%0*x`
   * conversion for a value that fits in `width` digits.
   */
  function Render(n: nat, width: nat): (s: string)
    ensures |s| == width && IsLowerHex(s)
  {
    if width == 0 then [] else Render(n / 16, width - 1) + [DigitChar(n % 16)]
  }

  /** The number a string of lower-case hex digits denotes, most significant digit first. */
  function Value(s: string): (v: nat)
    requires IsLowerHex(s)
    ensures v < Pow16(|s|)
  {
    if s == [] then 0
    else
      var init := s[..|s| - 1];
      assert IsLowerHex(init) by {
        forall i | 0 <= i < |init| ensures IsLowerHexDigit(init[i]) {
          assert init[i] == s[i];
        }
      }
      var v0 := Value(init);
      var d := DigitValue(s[|s| - 1]);
      assert 16 * v0 + d < 16 * Pow16(|init|) by {
        assert v0 + 1 <= Pow16(|init|);
        assert 16 * (v0 + 1) <= 16 * Pow16(|init|);
      }
      16 * v0 + d
  }

  lemma Pow16KeyWidth()
    ensures Pow16(KeyWidth) == 0x1_0000_0000_0000_0000
  {
    assert Pow16(4) == 0x1_0000;
    assert Pow16(8) == 0x1_0000_0000 by {
      assert Pow16(8) == Pow16(4) * Pow16(4) by { Pow16Add(4, 4); }
    }
    assert Pow16(16) == Pow16(8) * Pow16(8) by { Pow16Add(8, 8); }
  }

  lemma {:induction false} Pow16Add(j: nat, k: nat)
    ensures Pow16(j + k) == Pow16(j) * Pow16(k)
  {
    if k > 0 {
      Pow16Add(j, k - 1);
      assert Pow16(j + k) == 16 * Pow16(j + k - 1);
    }
  }

  /** The dedup key of a digest: `snprintf(hex, 17, "%016llx", hash)`. */
  function Key(h: U64): (s: string)
    ensures |s| == KeyWidth && IsLowerHex(s)
  {
    Render(h, KeyWidth)
  }

  /** Reads a key back: exactly sixteen lower-case hex digits, or nothing. */
  function ParseKey(s: string): (r: Option<U64>)
    ensures r.Some? <==> |s| == KeyWidth && IsLowerHex(s)
  {
    if |s| == KeyWidth && IsLowerHex(s) then
      Pow16KeyWidth();
      Some(Value(s))
    else
      None
  }

  /** Rendering a value that fits the width and reading it back gives the value. */
  lemma {:induction false} ValueOfRender(n: nat, width: nat)
    requires n < Pow16(width)
    ensures Value(Render(n, width)) == n
  {
    if width > 0 {
      var s := Render(n, width);
      assert n / 16 < Pow16(width - 1);
      ValueOfRender(n / 16, width - 1);
      assert s[..|s| - 1] == Render(n / 16, width - 1);
      assert s[|s| - 1] == DigitChar(n % 16);
    }
  }

  /** Reading a string of hex digits and rendering it at its own width gives the string. */
  lemma {:induction false} RenderOfValue(s: string)
    requires IsLowerHex(s)
    ensures Render(Value(s), |s|) == s
  {
    if s != [] {
      var init := s[..|s| - 1];
      var last := s[|s| - 1];
      assert IsLowerHex(init) by {
        forall i | 0 <= i < |init| ensures IsLowerHexDigit(init[i]) {
          assert init[i] == s[i];
        }
      }
      var v := Value(s);
      assert v == 16 * Value(init) + DigitValue(last);
      assert v / 16 == Value(init) && v % 16 == DigitValue(last);
      RenderOfValue(init);
      DigitCharOfValue(last);
      assert s == init + [last];
    }
  }

  /** `Key` and `ParseKey` are inverse: a string is the key of `h` exactly when it parses to `h`. */
  lemma KeyRoundTrip(h: U64, s: string)
    ensures ParseKey(s) == Some(h) <==> Key(h) == s
  {
    Pow16KeyWidth();
    ValueOfRender(h, KeyWidth);
    if ParseKey(s) == Some(h) {
      RenderOfValue(s);
    }
  }

  /** Two digests share a key only when they are equal. */
  lemma KeyInjective(h1: U64, h2: U64)
    ensures Key(h1) == Key(h2) ==> h1 == h2
  {
    KeyRoundTrip(h1, Key(h1));
    KeyRoundTrip(h2, Key(h2));
  }
}
