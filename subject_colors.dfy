/**
 * Stable subject colours: a 32-bit polynomial string hash over UTF-16 code
 * units, reduced to a hue. The day view and the course block draw with
 * saturation 70; the course modal draws with saturation 100.
 */
module SubjectColors {
  import opened JsText

  /** `>>> 0` reduces modulo 2^32. */
  const HASH_MODULUS: nat := 0x1_0000_0000

  /** One step of the hash loop: `h = (h * 31 + code) >>> 0`. */
  function HashStep(h: nat, unit: int): (r: nat)
    requires 0 <= unit
    ensures r < HASH_MODULUS
  {
    (h * 31 + unit) % HASH_MODULUS
  }

  /** The hash after feeding every code unit to `HashStep`, starting from 0. */
  function HashOf(units: seq<int>): (r: nat)
    requires forall k :: 0 <= k < |units| ==> 0 <= units[k]
    ensures r < HASH_MODULUS
  {
    if units == [] then 0 else HashStep(HashOf(units[..|units| - 1]), units[|units| - 1])
  }

  function Pow31(e: nat): (r: nat)
    ensures r >= 1
  {
    if e == 0 then 1 else 31 * Pow31(e - 1)
  }

  /** The polynomial `sum of units[i] * 31^(n - 1 - i)`, without any reduction. */
  function Polynomial(units: seq<int>): int {
    if units == [] then 0 else units[0] * Pow31(|units| - 1) + Polynomial(units[1..])
  }

  /** Appending a unit multiplies the polynomial by 31 and adds the unit. */
  lemma {:induction false} PolynomialAppend(units: seq<int>, x: int)
    ensures Polynomial(units + [x]) == 31 * Polynomial(units) + x
  {
    if units == [] {
      assert [x][1..] == [];
    } else {
      var s := units + [x];
      assert s[1..] == units[1..] + [x];
      PolynomialAppend(units[1..], x);
      calc {
        Polynomial(s);
        s[0] * Pow31(|s| - 1) + Polynomial(s[1..]);
        units[0] * (31 * Pow31(|units| - 1)) + 31 * Polynomial(units[1..]) + x;
        { MulAssociates(units[0], 31, Pow31(|units| - 1)); }
        31 * (units[0] * Pow31(|units| - 1)) + 31 * Polynomial(units[1..]) + x;
        31 * Polynomial(units) + x;
      }
    }
  }

  lemma MulAssociates(a: int, b: int, c: int)
    ensures a * (b * c) == b * (a * c)
  {
  }

  /** Reducing before or after a `31 * _ + x` step gives the same residue. */
  lemma StepRespectsModulus(p: int, x: int)
    ensures (31 * (p % HASH_MODULUS) + x) % HASH_MODULUS == (31 * p + x) % HASH_MODULUS
  {
    var q := p / HASH_MODULUS;
    assert p == q * HASH_MODULUS + p % HASH_MODULUS;
    assert 31 * p + x == (31 * q) * HASH_MODULUS + (31 * (p % HASH_MODULUS) + x);
    ModAddMultiple(31 * (p % HASH_MODULUS) + x, 31 * q);
  }

  lemma ModAddMultiple(b: int, k: int)
    ensures (k * HASH_MODULUS + b) % HASH_MODULUS == b % HASH_MODULUS
  {
    var q, r := b / HASH_MODULUS, b % HASH_MODULUS;
    assert b == q * HASH_MODULUS + r && 0 <= r < HASH_MODULUS;
    assert k * HASH_MODULUS + b == (k + q) * HASH_MODULUS + r;
  }

  /** The hash is the polynomial of the code units, reduced modulo 2^32. */
  lemma {:induction false} HashIsPolynomialModulo(units: seq<int>)
    requires forall k :: 0 <= k < |units| ==> 0 <= units[k]
    ensures HashOf(units) == Polynomial(units) % HASH_MODULUS
  {
    if units != [] {
      var front, last := units[..|units| - 1], units[|units| - 1];
      HashIsPolynomialModulo(front);
      assert units == front + [last];
      PolynomialAppend(front, last);
      StepRespectsModulus(Polynomial(front), last);
    }
  }

  /** `hashString`: the loop over `str.charCodeAt(i)` for every UTF-16 code unit. */
  method HashString(str: string) returns (h: nat)
    ensures h == HashOf(CodeUnits(str))
    ensures h == Polynomial(CodeUnits(str)) % HASH_MODULUS
  {
    var units := CodeUnits(str);
    h := 0;
    var i := 0;
    while i < |units|
      invariant 0 <= i <= |units|
      invariant h == HashOf(units[..i])
    {
      assert units[..i + 1][..i] == units[..i];
      h := (h * 31 + units[i]) % HASH_MODULUS;
      i := i + 1;
    }
    assert units[..i] == units;
    HashIsPolynomialModulo(units);
  }

  /** The hash of a subject, as a function for the colour rules. */
  function SubjectHash(subject: string): (r: nat)
    ensures r < HASH_MODULUS
  {
    HashOf(CodeUnits(subject))
  }

  /** One `hsla(hue, saturation%, lightness%, alpha)` CSS colour. */
  datatype Hsla = Hsla(hue: nat, saturation: nat, lightness: nat, alpha: real)

  /** The background and border colours `getCourseColors` returns. */
  datatype CourseColors = CourseColors(bg: Hsla, border: Hsla)

  /** `getCourseColors` with a given saturation: lightness 50, alphas 0.18 and 0.35. */
  function ColorsFor(subject: string, saturation: nat): (r: CourseColors)
    ensures r.bg.hue < 360 && r.bg.hue == r.border.hue
    ensures r.bg.hue == SubjectHash(subject) % 360
    ensures r.bg.saturation == r.border.saturation == saturation
    ensures r.bg.lightness == r.border.lightness == 50
    ensures r.bg.alpha == 0.18 && r.border.alpha == 0.35
  {
    var hue := SubjectHash(subject) % 360;
    CourseColors(Hsla(hue, saturation, 50, 0.18), Hsla(hue, saturation, 50, 0.35))
  }

  /** The day view's and the course block's colours (saturation 70). */
  function BlockColors(subject: string): CourseColors {
    ColorsFor(subject, 70)
  }

  /** The course modal's colours (saturation 100). */
  function ModalColors(subject: string): CourseColors {
    ColorsFor(subject, 100)
  }

  /** The empty subject has hash 0, hence hue 0. */
  lemma EmptySubjectHueZero()
    ensures SubjectHash("") == 0 && BlockColors("").bg.hue == 0
  {
  }

  /**
   * The modal shares the block's hue but not its saturation, so for every
   * subject the two colours differ.
   */
  lemma ModalDiffersFromBlock(subject: string)
    ensures ModalColors(subject).bg.hue == BlockColors(subject).bg.hue
    ensures ModalColors(subject) != BlockColors(subject)
  {
  }

  /** Subjects whose code units agree modulo 2^32 as polynomials share a colour. */
  lemma EqualHashSameColors(a: string, b: string)
    requires Polynomial(CodeUnits(a)) % HASH_MODULUS == Polynomial(CodeUnits(b)) % HASH_MODULUS
    ensures BlockColors(a) == BlockColors(b) && ModalColors(a) == ModalColors(b)
  {
    HashIsPolynomialModulo(CodeUnits(a));
    HashIsPolynomialModulo(CodeUnits(b));
  }
}
