/**
  `generateUUID`: fills the template `xxxxxxxx-xxxx-4xxx-yxxx-xxxxxxxxxxxx`
  left to right, one random nibble per `x` or `y`. An `x` becomes the
  nibble's hex digit; a `y` becomes `(r & 0x3) | 0x8`, which sets the two
  variant bits `10` of RFC 4122 section 4.1.1. The `4` in the template is
  the version number of RFC 4122 section 4.1.3 (version 4, random).

  `Math.random() * 16 | 0` is a value in 0..15; the model takes the
  sequence of those values as input.
*/
module Uuid {

  /** A value `Math.random() * 16 | 0` can take. */
  type Nibble = n: nat | n < 16

  /** A run of `n` placeholders `x`. */
  function Xs(n: nat): (r: string)
    ensures |r| == n && forall k :: 0 <= k < n ==> r[k] == 'x'
  {
    seq(n, _ => 'x')
  }

  /** The template `xxxxxxxx-xxxx-4xxx-yxxx-xxxxxxxxxxxx`, built from its
      groups. */
  const Template: string := Xs(8) + "-" + Xs(4) + "-4" + Xs(3) + "-y" + Xs(3) + "-" + Xs(12)

  /** The groups spell the template literal of the source. */
  lemma TemplateText()
    ensures Template == "xxxxxxxx-xxxx-4xxx-yxxx-xxxxxxxxxxxx"
  {
    assert Xs(3) == "xxx";
    assert Xs(4) == "xxxx";
    assert Xs(8) == "xxxxxxxx";
    assert Xs(12) == "xxxxxxxxxxxx";
  }

  /** A lowercase hexadecimal digit `0-9a-f`. */
  predicate IsHexDigit(c: char)
  {
    '0' <= c <= '9' || 'a' <= c <= 'f'
  }

  /** A digit whose two high bits are `10`: one of `8`, `9`, `a`, `b`. */
  predicate IsVariantDigit(c: char)
  {
    c == '8' || c == '9' || c == 'a' || c == 'b'
  }

  /** `v.toString(16)` for a single hex digit. */
  function HexDigit(v: Nibble): (c: char)
    ensures IsHexDigit(c)
  {
    if v < 10 then ('0' as int + v) as char else ('a' as int + v - 10) as char
  }

  /** The value of a lowercase hex digit: the inverse of `HexDigit`. */
  function HexValue(c: char): (v: Nibble)
    requires IsHexDigit(c)
    ensures HexDigit(v) == c
  {
    if '0' <= c <= '9' then (c as int - '0' as int) else (c as int - 'a' as int) + 10
  }

  predicate IsPlaceholder(c: char)
  {
    c == 'x' || c == 'y'
  }

  /** `(r & 0x3) | 0x8`, on the 8-bit pattern of `r`. */
  function Variant(r: Nibble): (v: Nibble)
    ensures 8 <= v <= 11
    ensures v % 4 == r % 4
  {
    ((r as bv8 & 0x3) | 0x8) as int
  }

  /** The number of placeholders in a template. */
  function Holes(tpl: string): nat
  {
    if |tpl| == 0 then 0
    else (if IsPlaceholder(tpl[0]) then 1 else 0) + Holes(tpl[1..])
  }

  /** The template with its placeholders replaced, in order, by digits of
      the nibbles: the callback of `replace(/[xy]/g, …)`. */
  function Fill(tpl: string, nibbles: seq<Nibble>): (r: string)
    requires |nibbles| == Holes(tpl)
    ensures |r| == |tpl|
    ensures forall k :: 0 <= k < |tpl| && !IsPlaceholder(tpl[k]) ==> r[k] == tpl[k]
    ensures forall k :: 0 <= k < |tpl| && IsPlaceholder(tpl[k]) ==> IsHexDigit(r[k])
    ensures forall k :: 0 <= k < |tpl| && tpl[k] == 'y' ==> IsVariantDigit(r[k])
    decreases |tpl|
  {
    if |tpl| == 0 then ""
    else if tpl[0] == 'x' then [HexDigit(nibbles[0])] + Fill(tpl[1..], nibbles[1..])
    else if tpl[0] == 'y' then [HexDigit(Variant(nibbles[0]))] + Fill(tpl[1..], nibbles[1..])
    else [tpl[0]] + Fill(tpl[1..], nibbles)
  }

  /** The nibble each placeholder stands for: itself for `x`, with the
      variant bits forced for `y`. */
  function Encoded(tpl: string, nibbles: seq<Nibble>): seq<Nibble>
    requires |nibbles| == Holes(tpl)
    decreases |tpl|
  {
    if |tpl| == 0 then []
    else if tpl[0] == 'x' then [nibbles[0]] + Encoded(tpl[1..], nibbles[1..])
    else if tpl[0] == 'y' then [Variant(nibbles[0])] + Encoded(tpl[1..], nibbles[1..])
    else Encoded(tpl[1..], nibbles)
  }

  /** Reading the digits at the template's placeholders back as nibbles. */
  function Digits(tpl: string, s: string): seq<Nibble>
    requires |s| == |tpl|
    requires forall k :: 0 <= k < |tpl| && IsPlaceholder(tpl[k]) ==> IsHexDigit(s[k])
    decreases |tpl|
  {
    if |tpl| == 0 then []
    else if IsPlaceholder(tpl[0]) then [HexValue(s[0])] + Digits(tpl[1..], s[1..])
    else Digits(tpl[1..], s[1..])
  }

  /** The filled string carries exactly its nibbles: reading the
      placeholders back yields every `x` nibble unchanged and every `y`
      nibble with its variant bits set. */
  lemma {:induction false} FillEncodesNibbles(tpl: string, nibbles: seq<Nibble>)
    requires |nibbles| == Holes(tpl)
    ensures Digits(tpl, Fill(tpl, nibbles)) == Encoded(tpl, nibbles)
    decreases |tpl|
  {
    if |tpl| > 0 {
      var r := Fill(tpl, nibbles);
      if IsPlaceholder(tpl[0]) {
        FillEncodesNibbles(tpl[1..], nibbles[1..]);
        assert r[1..] == Fill(tpl[1..], nibbles[1..]);
      } else {
        FillEncodesNibbles(tpl[1..], nibbles);
        assert r[1..] == Fill(tpl[1..], nibbles);
      }
    }
  }

  /** Every `x` nibble survives into the UUID; only the `y` nibble loses its
      two high bits. */
  lemma {:induction false} EncodedKeepsRandomNibbles(tpl: string, nibbles: seq<Nibble>)
    requires |nibbles| == Holes(tpl)
    requires forall k :: 0 <= k < |tpl| ==> tpl[k] != 'y'
    ensures Encoded(tpl, nibbles) == nibbles
    decreases |tpl|
  {
    if |tpl| > 0 {
      var rest := if IsPlaceholder(tpl[0]) then nibbles[1..] else nibbles;
      EncodedKeepsRandomNibbles(tpl[1..], rest);
      if IsPlaceholder(tpl[0]) {
        assert nibbles == [nibbles[0]] + nibbles[1..];
      }
    }
  }

  /** Counting placeholders distributes over concatenation. */
  lemma {:induction false} HolesAppend(a: string, b: string)
    ensures Holes(a + b) == Holes(a) + Holes(b)
    decreases |a|
  {
    if |a| > 0 {
      HolesAppend(a[1..], b);
      assert (a + b)[0] == a[0];
      assert (a + b)[1..] == a[1..] + b;
    } else {
      assert a + b == b;
    }
  }

  /** A run of `n` placeholders counts `n`. */
  lemma {:induction false} HolesOfXs(n: nat)
    ensures Holes(Xs(n)) == n
  {
    if n > 0 {
      HolesOfXs(n - 1);
      assert Xs(n)[1..] == Xs(n - 1);
    }
  }

  /** The template has 31 placeholders: 30 `x` and one `y`. */
  lemma TemplateHoles()
    ensures Holes(Template) == 31
  {
    HolesOfXs(8); HolesOfXs(4); HolesOfXs(3); HolesOfXs(12);
    assert Holes("-") == 0 && Holes("-4") == 0 && Holes("-y") == 1;
    HolesAppend(Xs(8), "-");
    HolesAppend(Xs(8) + "-", Xs(4));
    HolesAppend(Xs(8) + "-" + Xs(4), "-4");
    HolesAppend(Xs(8) + "-" + Xs(4) + "-4", Xs(3));
    HolesAppend(Xs(8) + "-" + Xs(4) + "-4" + Xs(3), "-y");
    HolesAppend(Xs(8) + "-" + Xs(4) + "-4" + Xs(3) + "-y", Xs(3));
    HolesAppend(Xs(8) + "-" + Xs(4) + "-4" + Xs(3) + "-y" + Xs(3), "-");
    HolesAppend(Xs(8) + "-" + Xs(4) + "-4" + Xs(3) + "-y" + Xs(3) + "-", Xs(12));
  }

  /** Outside the four hyphens the template holds only placeholders and
      the version digit. */
  lemma TemplateLayout()
    ensures |Template| == 36
    ensures Template[8] == '-' && Template[13] == '-' && Template[18] == '-' && Template[23] == '-'
    ensures Template[14] == '4' && Template[19] == 'y'
    ensures forall k :: 0 <= k < 36 && k != 8 && k != 13 && k != 18 && k != 23 ==> IsPlaceholder(Template[k]) || Template[k] == '4'
  {
    forall k | 0 <= k < 36 && k != 8 && k != 13 && k != 18 && k != 23
      ensures IsPlaceholder(Template[k]) || Template[k] == '4'
    {
      if k < 8 {
      } else if k < 13 {
      } else if k < 18 {
      } else if k < 23 {
      } else {
      }
    }
  }

  /** Reading placeholders back distributes over concatenation. */
  lemma {:induction false} EncodedAppend(a: string, b: string, na: seq<Nibble>, nb: seq<Nibble>)
    requires |na| == Holes(a) && |nb| == Holes(b)
    ensures Holes(a + b) == |na + nb|
    ensures Encoded(a + b, na + nb) == Encoded(a, na) + Encoded(b, nb)
    decreases |a|
  {
    HolesAppend(a, b);
    if |a| == 0 {
      assert a + b == b && na + nb == nb;
    } else {
      assert (a + b)[0] == a[0];
      assert (a + b)[1..] == a[1..] + b;
      if IsPlaceholder(a[0]) {
        EncodedAppend(a[1..], b, na[1..], nb);
        assert (na + nb)[0] == na[0];
        assert (na + nb)[1..] == na[1..] + nb;
      } else {
        EncodedAppend(a[1..], b, na, nb);
      }
    }
  }

  /** The template before the variant group: `xxxxxxxx-xxxx-4xxx`. */
  function Head(): string
  {
    Xs(8) + "-" + Xs(4) + "-4" + Xs(3)
  }

  /** The template after the variant digit: `xxx-xxxxxxxxxxxx`. */
  function Tail(): string
  {
    Xs(3) + "-" + Xs(12)
  }

  lemma HeadHoles()
    ensures Holes(Head()) == 15
  {
    HolesOfXs(8); HolesOfXs(4); HolesOfXs(3);
    assert Holes("-") == 0 && Holes("-4") == 0;
    HolesAppend(Xs(8), "-");
    HolesAppend(Xs(8) + "-", Xs(4));
    HolesAppend(Xs(8) + "-" + Xs(4), "-4");
    HolesAppend(Xs(8) + "-" + Xs(4) + "-4", Xs(3));
  }

  lemma TailHoles()
    ensures Holes(Tail()) == 15
  {
    HolesOfXs(3); HolesOfXs(12);
    assert Holes("-") == 0;
    HolesAppend(Xs(3), "-");
    HolesAppend(Xs(3) + "-", Xs(12));
  }

  /** The variant group splits the template into two halves. */
  lemma HeadAndTail()
    ensures Template == Head() + "-y" + Tail()
  {
  }

  /** Neither half contains a `y`. */
  lemma HalvesWithoutVariant()
    ensures forall k :: 0 <= k < |Head()| ==> Head()[k] != 'y'
    ensures forall k :: 0 <= k < |Tail()| ==> Tail()[k] != 'y'
  {
  }

  /** The nibbles the two halves and the variant group stand for. */
  lemma EncodedHalves(n1: seq<Nibble>, v: Nibble, n3: seq<Nibble>)
    requires |n1| == 15 && |n3| == 15
    ensures Holes(Head() + "-y" + Tail()) == 31
    ensures Encoded(Head() + "-y" + Tail(), n1 + [v] + n3) == n1 + [Variant(v)] + n3
  {
    HeadHoles();
    TailHoles();
    HalvesWithoutVariant();
    assert Holes("-y") == 1;
    assert Encoded("-y", [v]) == [Variant(v)];
    EncodedKeepsRandomNibbles(Head(), n1);
    EncodedKeepsRandomNibbles(Tail(), n3);
    EncodedAppend(Head(), "-y", n1, [v]);
    EncodedAppend(Head() + "-y", Tail(), n1 + [v], n3);
  }

  /** The nibbles the template's placeholders stand for. */
  lemma EncodedTemplate(nibbles: seq<Nibble>)
    requires |nibbles| == 31
    ensures Holes(Template) == 31
    ensures Encoded(Template, nibbles) == nibbles[..15] + [Variant(nibbles[15])] + nibbles[16..]
  {
    HeadAndTail();
    assert nibbles == nibbles[..15] + [nibbles[15]] + nibbles[16..];
    EncodedHalves(nibbles[..15], nibbles[15], nibbles[16..]);
  }

  /** The UUID carries all 31 random nibbles in order: the 15 before the
      variant digit and the 15 after it unchanged, and the variant nibble
      with its two high bits set to `10`. */
  lemma UuidCarriesNibbles(nibbles: seq<Nibble>)
    requires |nibbles| == 31
    ensures var d := Digits(Template, GenerateUuid(nibbles));
      && |d| == 31
      && d[15] == Variant(nibbles[15])
      && forall i :: 0 <= i < 31 && i != 15 ==> d[i] == nibbles[i]
  {
    EncodedTemplate(nibbles);
    FillEncodesNibbles(Template, nibbles);
    var d := Digits(Template, GenerateUuid(nibbles));
    assert d == nibbles[..15] + [Variant(nibbles[15])] + nibbles[16..];
  }

  /** `generateUUID()`, with the 31 random nibbles as input. */
  function GenerateUuid(nibbles: seq<Nibble>): (r: string)
    requires |nibbles| == 31
    ensures |r| == 36
    ensures r[8] == '-' && r[13] == '-' && r[18] == '-' && r[23] == '-'
    ensures r[14] == '4'
    ensures IsVariantDigit(r[19])
    ensures forall k :: 0 <= k < 36 && k != 8 && k != 13 && k != 18 && k != 23 ==> IsHexDigit(r[k])
  {
    TemplateHoles();
    TemplateLayout();
    var r := Fill(Template, nibbles);
    assert !IsPlaceholder(Template[8]) && !IsPlaceholder(Template[13]);
    assert !IsPlaceholder(Template[18]) && !IsPlaceholder(Template[23]);
    r
  }
}
