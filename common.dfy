/** Shared vocabulary of the model: optional values, the entropy source that
    stands for Python's `secrets` module, ASCII lower-casing, and the decimal
    and hexadecimal renderings that the generators use in their f-strings. */
module Common {

  datatype Option<+T> = None | Some(value: T)

  /** Python truthiness of an optional string: None and "" are both false. */
  predicate Truthy(s: Option<string>) {
    s.Some? && s.value != ""
  }

  // ---------------------------------------------------------------------------
  // Entropy. A random choice is an arbitrary natural number `d` reduced into
  // range; every property of a generator is proved for every such number.
  // ---------------------------------------------------------------------------

  /** `secrets.randbelow(n)` for the draw `d`. */
  function Below(d: nat, n: nat): (r: nat)
    requires n > 0
    ensures r < n
  {
    d % n
  }

  /** `secrets.choice(xs)` for the draw `d`. */
  function Pick<T>(xs: seq<T>, d: nat): (r: T)
    requires |xs| > 0
    ensures r in xs
  {
    xs[Below(d, |xs|)]
  }

  /** The i-th draw of a stream of draws; a stream that is too short reads 0. */
  function At(ds: seq<nat>, i: nat): nat {
    if i < |ds| then ds[i] else 0
  }

  /** The position of `x` in `xs`: the draw that makes `Pick` return `x`. */
  function IndexOf<T(==)>(xs: seq<T>, x: T): (k: nat)
    requires x in xs
    ensures k < |xs| && xs[k] == x
    ensures forall j :: 0 <= j < k ==> xs[j] != x
  {
    if xs[0] == x then 0 else 1 + IndexOf(xs[1..], x)
  }

  /** Appending an element does not move the first occurrence of one already present. */
  lemma IndexOfAppend<T>(xs: seq<T>, y: T, x: T)
    requires x in xs
    ensures IndexOf(xs + [y], x) == IndexOf(xs, x)
  {
    var k, k' := IndexOf(xs + [y], x), IndexOf(xs, x);
    assert (xs + [y])[k'] == x;
    assert k <= k';
    assert xs[k] == x;
  }

  /** An element appended to a sequence that lacks it is found at the end. */
  lemma IndexOfAppendNew<T>(xs: seq<T>, y: T)
    requires y !in xs
    ensures IndexOf(xs + [y], y) == |xs|
  {
    var k := IndexOf(xs + [y], y);
    assert forall j :: 0 <= j < |xs| ==> (xs + [y])[j] == xs[j];
  }

  lemma AppendNothing<T>(xs: seq<T>)
    ensures xs + [] == xs
  {
  }

  lemma TakeAll<T>(xs: seq<T>)
    ensures xs[..|xs|] == xs
  {
  }

  lemma TakeAppended<T>(xs: seq<T>, x: T)
    ensures (xs + [x])[..|xs|] == xs
  {
  }

  lemma PickIndexOf<T>(xs: seq<T>, x: T)
    requires x in xs
    ensures Pick(xs, IndexOf(xs, x)) == x
  {
    SmallBelow(IndexOf(xs, x), |xs|);
  }

  /** A draw already in range is taken as it is. */
  lemma SmallBelow(d: nat, n: nat)
    requires d < n
    ensures Below(d, n) == d
  {
  }

  // ---------------------------------------------------------------------------
  // ASCII case folding (`str.lower` restricted to ASCII).
  // ---------------------------------------------------------------------------

  function LowerChar(c: char): char {
    if 'A' <= c <= 'Z' then (c as int + 32) as char else c
  }

  function Lower(s: string): (r: string)
    ensures |r| == |s|
  {
    seq(|s|, i requires 0 <= i < |s| => LowerChar(s[i]))
  }

  // ---------------------------------------------------------------------------
  // Decimal rendering (`f"{n}"`, `f"{n:02d}"`) and its inverse.
  // ---------------------------------------------------------------------------

  predicate IsDigit(c: char) {
    '0' <= c <= '9'
  }

  function DigitChar(d: nat): (c: char)
    requires d < 10
    ensures IsDigit(c)
  {
    "0123456789"[d]
  }

  function DigitValue(c: char): (d: nat)
    requires IsDigit(c)
    ensures d < 10
  {
    (c as int - '0' as int)
  }

  predicate AllDigits(s: string) {
    forall i :: 0 <= i < |s| ==> IsDigit(s[i])
  }

  /** `str(n)` for a natural number: most significant digit first, no padding. */
  function NatToString(n: nat): (s: string)
    ensures |s| > 0 && AllDigits(s)
    ensures n < 10 <==> |s| == 1
    ensures n < 1000 ==> |s| <= 3
  {
    if n < 10 then [DigitChar(n)] else NatToString(n / 10) + [DigitChar(n % 10)]
  }

  /** The value of a string of decimal digits. */
  function ParseNat(s: string): nat
    requires AllDigits(s)
  {
    if s == [] then 0 else 10 * ParseNat(s[..|s| - 1]) + DigitValue(s[|s| - 1])
  }

  lemma ValueDigitChar(c: char)
    requires IsDigit(c)
    ensures DigitChar(DigitValue(c)) == c
  {
  }

  lemma DigitCharValue(d: nat)
    requires d < 10
    ensures DigitValue(DigitChar(d)) == d
  {
  }

  lemma {:induction false} ParseNatToString(n: nat)
    ensures ParseNat(NatToString(n)) == n
  {
    var s := NatToString(n);
    if n >= 10 {
      var q, r := n / 10, n % 10;
      ParseNatToString(q);
      DigitCharValue(r);
      assert s[..|s| - 1] == NatToString(q) && s[|s| - 1] == DigitChar(r);
      assert ParseNat(s) == 10 * q + r;
    } else {
      DigitCharValue(n);
      assert s[..0] == [];
    }
  }

  /** Decimal rendering is injective: distinct numbers give distinct strings. */
  lemma NatToStringInjective(m: nat, n: nat)
    requires NatToString(m) == NatToString(n)
    ensures m == n
  {
    ParseNatToString(m);
    ParseNatToString(n);
  }

  /** `str(i)` for a possibly negative integer. */
  function IntToString(i: int): (s: string)
    ensures |s| > 0
  {
    if i < 0 then "-" + NatToString(-i) else NatToString(i)
  }

  function ParseInt(s: string): Option<int> {
    if |s| == 0 then None
    else if s[0] == '-' then
      if |s| > 1 && AllDigits(s[1..]) then Some(-(ParseNat(s[1..]) as int)) else None
    else if AllDigits(s) then Some(ParseNat(s))
    else None
  }

  lemma ParseIntToString(i: int)
    ensures ParseInt(IntToString(i)) == Some(i)
  {
    if i < 0 {
      ParseNegativeToString(i);
    } else {
      ParseNatToString(i);
      ParseNonNegative(NatToString(i));
    }
  }

  lemma ParseNegativeToString(i: int)
    requires i < 0
    ensures ParseInt("-" + NatToString(-i)) == Some(i)
  {
    ParseNatToString(-i);
    ParseNegative(NatToString(-i), -i);
  }

  /** A minus sign before the digits of `n` reads back as `-n`. */
  lemma ParseNegative(t: string, n: nat)
    requires |t| > 0 && AllDigits(t) && ParseNat(t) == n
    ensures ParseInt("-" + t) == Some(-(n as int))
  {
    var s := "-" + t;
    assert s[0] == '-' && s[1..] == t;
  }

  lemma ParseNonNegative(t: string)
    requires |t| > 0 && AllDigits(t)
    ensures ParseInt(t) == Some(ParseNat(t))
  {
    assert IsDigit(t[0]);
  }

  /** `f"{n:02d}"` for 0 <= n < 100: two digits, zero-padded. */
  function Pad2(n: nat): (s: string)
    requires n < 100
    ensures |s| == 2 && AllDigits(s)
  {
    [DigitChar(n / 10), DigitChar(n % 10)]
  }

  lemma ParsePad2(n: nat)
    requires n < 100
    ensures ParseNat(Pad2(n)) == n
  {
    var s := Pad2(n);
    assert s[..1][..0] == [];
    assert ParseNat(s[..1]) == n / 10;
  }

  // ---------------------------------------------------------------------------
  // Random strings: `''.join(secrets.choice(alphabet) for _ in range(n))`, and
  // `secrets.token_hex`, whose characters are independent hex digits.
  // ---------------------------------------------------------------------------

  const HexDigits: string := "0123456789abcdef"

  /** The set of strings a random-string generator can produce. */
  predicate OverAlphabet(s: string, alphabet: string, n: nat) {
    |s| == n && forall i :: 0 <= i < |s| ==> s[i] in alphabet
  }

  /** n characters of `alphabet`, the i-th chosen by the i-th draw. */
  function RandomString(alphabet: string, ds: seq<nat>, n: nat): (r: string)
    requires |alphabet| > 0
    ensures OverAlphabet(r, alphabet, n)
  {
    seq(n, i requires 0 <= i < n => Pick(alphabet, At(ds, i)))
  }

  /** The draws that make `RandomString` produce `s`. */
  function DrawsFor(alphabet: string, s: string): (ds: seq<nat>)
    requires forall i :: 0 <= i < |s| ==> s[i] in alphabet
    ensures |ds| == |s|
  {
    seq(|s|, i requires 0 <= i < |s| => IndexOf(alphabet, s[i]))
  }

  /** Every string of length n over the alphabet is producible. */
  lemma RandomStringReaches(alphabet: string, s: string, n: nat)
    requires |alphabet| > 0 && OverAlphabet(s, alphabet, n)
    ensures RandomString(alphabet, DrawsFor(alphabet, s), n) == s
  {
    var ds := DrawsFor(alphabet, s);
    forall i | 0 <= i < n
      ensures RandomString(alphabet, ds, n)[i] == s[i]
    {
      PickIndexOf(alphabet, s[i]);
    }
  }
}
