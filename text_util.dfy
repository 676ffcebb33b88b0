/** The string helpers the multi-task loss uses to read its definition
    string: splitting on the delimiters `,` and `:` with empty pieces kept
    (Kaldi's SplitStringToVector with omit_empty_strings false), and
    conversion of a piece to a 32-bit integer or to a real number. */
module TextUtil {
  import opened Wrappers

  predicate IsDelim(c: char)
  {
    c == ',' || c == ':'
  }

  predicate NoDelim(s: string)
  {
    forall k :: 0 <= k < |s| ==> !IsDelim(s[k])
  }

  /** The pieces of `s` between delimiters, empty ones included: a string
      with `n` delimiters has `n + 1` pieces. */
  function Split(s: string): (v: seq<string>)
    ensures |v| >= 1
    decreases |s|
  {
    if |s| == 0 then [""]
    else
      var rest := Split(s[1..]);
      if IsDelim(s[0]) then [""] + rest
      else [[s[0]] + rest[0]] + rest[1..]
  }

  /** The pieces joined with `,` between them. */
  function Join(v: seq<string>): string
    requires |v| >= 1
  {
    if |v| == 1 then v[0] else v[0] + [','] + Join(v[1..])
  }

  /** `s` with every `:` written as `,`. */
  function Canonical(s: string): (c: string)
    ensures |c| == |s|
  {
    if |s| == 0 then "" else [if s[0] == ':' then ',' else s[0]] + Canonical(s[1..])
  }

  /** No piece contains a delimiter. */
  lemma {:induction false} SplitPiecesHaveNoDelim(s: string)
    ensures forall k :: 0 <= k < |Split(s)| ==> NoDelim(Split(s)[k])
    decreases |s|
  {
    if |s| > 0 {
      SplitPiecesHaveNoDelim(s[1..]);
    }
  }

  /** Joining the pieces gives the string back, up to which delimiter was
      used. */
  lemma {:induction false} JoinSplit(s: string)
    ensures Join(Split(s)) == Canonical(s)
    decreases |s|
  {
    if |s| > 0 {
      JoinSplit(s[1..]);
      var rest := Split(s[1..]);
      if !IsDelim(s[0]) && |rest| > 1 {
        assert rest == [rest[0]] + rest[1..];
      }
    }
  }

  /** A delimiter-free string is a single piece. */
  lemma {:induction false} SplitNoDelim(p: string)
    requires NoDelim(p)
    ensures Split(p) == [p]
    decreases |p|
  {
    if |p| > 0 {
      SplitNoDelim(p[1..]);
      assert [p[0]] + p[1..] == p;
    }
  }

  /** A delimiter-free piece followed by `,` splits off as the first piece. */
  lemma {:induction false} SplitLeadingPiece(p: string, rest: string)
    requires NoDelim(p)
    ensures Split(p + [','] + rest) == [p] + Split(rest)
    decreases |p|
  {
    var s := p + [','] + rest;
    if |p| == 0 {
      assert s[1..] == rest;
    } else {
      assert s[1..] == p[1..] + [','] + rest;
      SplitLeadingPiece(p[1..], rest);
      assert [p[0]] + p[1..] == p;
    }
  }

  /** Splitting the joined pieces gives them back, when none contains a
      delimiter. */
  lemma {:induction false} SplitJoin(v: seq<string>)
    requires |v| >= 1
    requires forall k :: 0 <= k < |v| ==> NoDelim(v[k])
    ensures Split(Join(v)) == v
    decreases |v|
  {
    if |v| == 1 {
      SplitNoDelim(v[0]);
    } else {
      SplitJoin(v[1..]);
      SplitLeadingPiece(v[0], Join(v[1..]));
      assert [v[0]] + v[1..] == v;
    }
  }

  // ---------------------------------------------------------------------
  // Numbers

  predicate IsDigit(c: char)
  {
    '0' <= c <= '9'
  }

  predicate AllDigits(s: string)
  {
    forall k :: 0 <= k < |s| ==> IsDigit(s[k])
  }

  /** The value of a decimal digit string, read from the left. */
  function DigitsValue(s: string): (n: nat)
    requires AllDigits(s)
  {
    if |s| == 0 then 0
    else DigitsValue(s[..|s| - 1]) * 10 + (s[|s| - 1] as int - '0' as int)
  }

  /** The decimal digits of `n`, without leading zeros. */
  function NatToString(n: nat): (s: string)
    ensures |s| >= 1 && AllDigits(s)
  {
    var d := ['0' + (n % 10) as char];
    if n < 10 then d else NatToString(n / 10) + d
  }

  lemma {:induction false} NatToStringValue(n: nat)
    ensures DigitsValue(NatToString(n)) == n
  {
    var s := NatToString(n);
    if n >= 10 {
      NatToStringValue(n / 10);
      assert s[..|s| - 1] == NatToString(n / 10);
    }
  }

  const Int32Min: int := -0x8000_0000
  const Int32Max: int := 0x7fff_ffff

  /** A 32-bit integer in decimal: an optional `+` or `-`, at least one
      digit, nothing else, and a value that fits in 32 bits. */
  function ParseInt32(s: string): (r: Option<int>)
    ensures r.Some? ==> Int32Min <= r.value <= Int32Max
  {
    if |s| == 0 then None
    else
      var signed := s[0] == '+' || s[0] == '-';
      var body := if signed then s[1..] else s;
      if |body| == 0 || !AllDigits(body) then None
      else
        var v: int := if s[0] == '-' then -(DigitsValue(body) as int) else DigitsValue(body);
        if Int32Min <= v <= Int32Max then Some(v) else None
  }

  function IntToString(n: int): string
  {
    if n < 0 then "-" + NatToString(-n) else NatToString(n)
  }

  /** Every 32-bit integer written in decimal reads back as itself. */
  lemma ParseIntToString(n: int)
    requires Int32Min <= n <= Int32Max
    ensures ParseInt32(IntToString(n)) == Some(n)
  {
    var s := IntToString(n);
    if n < 0 {
      var body := NatToString(-n);
      assert s[0] == '-' && s[1..] == body;
      assert DigitsValue(body) == -n by {
        NatToStringValue(-n);
      }
    } else {
      assert IsDigit(s[0]);
      assert DigitsValue(s) == n by {
        NatToStringValue(n);
      }
    }
  }

  function Pow10(k: nat): (p: nat)
    ensures p >= 1
  {
    if k == 0 then 1 else 10 * Pow10(k - 1)
  }

  /** Position of the first `c` in `s`, or `|s|` when there is none
      (`IndexOfFirst`). */
  function IndexOf(s: string, c: char): (k: nat)
    ensures k <= |s|
  {
    if |s| == 0 || s[0] == c then 0 else 1 + IndexOf(s[1..], c)
  }

  /** A position before which `c` does not occur, and which holds `c` or
      is the end, is the one `IndexOf` finds. */
  lemma {:induction false} IndexOfFirst(s: string, c: char, k: nat)
    requires k <= |s| && (forall j :: 0 <= j < k ==> s[j] != c)
    requires k < |s| ==> s[k] == c
    ensures IndexOf(s, c) == k
    decreases k
  {
    if k > 0 {
      assert s[0] != c;
      IndexOfFirst(s[1..], c, k - 1);
    }
  }

  /** An unsigned decimal: digits, optionally a point and more digits, with
      at least one digit in all. */
  function ParseUnsignedDecimal(s: string): (r: Option<real>)
    ensures r.Some? ==> r.value >= 0.0
  {
    var k := IndexOf(s, '.');
    var whole := s[..k];
    var frac := if k < |s| then s[k + 1..] else "";
    if AllDigits(whole) && AllDigits(frac) && |whole| + |frac| >= 1 then
      Some(DecimalValue(whole, frac))
    else None
  }

  /** The value of `whole.frac` for digit strings `whole` and `frac`. */
  function DecimalValue(whole: string, frac: string): real
    requires AllDigits(whole) && AllDigits(frac)
  {
    DigitsValue(whole) as real + DigitsValue(frac) as real / Pow10(|frac|) as real
  }

  /** A real number in plain decimal notation with an optional sign. */
  function ParseReal(s: string): (r: Option<real>)
  {
    if |s| > 0 && s[0] == '-' then
      match ParseUnsignedDecimal(s[1..])
      case Some(x) => Some(-x)
      case None => None
    else if |s| > 0 && s[0] == '+' then ParseUnsignedDecimal(s[1..])
    else ParseUnsignedDecimal(s)
  }

  /** A whole number written in decimal reads back as itself. */
  lemma ParseRealNat(n: nat)
    ensures ParseReal(NatToString(n)) == Some(n as real)
  {
    NatToStringValue(n);
    ParseDigitsOnly(NatToString(n));
  }

  /** Digits alone read as their value. */
  lemma ParseDigitsOnly(s: string)
    requires |s| >= 1 && AllDigits(s)
    ensures ParseReal(s) == Some(DigitsValue(s) as real)
  {
    IndexOfFirst(s, '.', |s|);
    assert s[..|s|] == s;
    assert IsDigit(s[0]);
    assert ParseReal(s) == ParseUnsignedDecimal(s);
    assert ParseUnsignedDecimal(s) == Some(DecimalValue(s, ""));
    DecimalValueWhole(s);
  }

  lemma DecimalValueWhole(w: string)
    requires AllDigits(w)
    ensures DecimalValue(w, "") == DigitsValue(w) as real
  {
    assert DigitsValue("") == 0 && Pow10(0) == 1;
  }

  /** `whole.frac`, for digit strings with at least one digit before the
      point, reads as the whole part plus the fraction over the matching
      power of ten. */
  lemma ParseDigitsPointDigits(w: string, frac: string)
    requires |w| >= 1 && AllDigits(w) && AllDigits(frac)
    ensures ParseReal(w + "." + frac) == Some(DecimalValue(w, frac))
  {
    var s := w + "." + frac;
    IndexOfFirst(s, '.', |w|);
    assert IsDigit(s[0]);
    assert s[..|w|] == w;
    assert s[|w| + 1..] == frac;
  }

  /** The last `k` decimal digits of `n`, with leading zeros. */
  function PaddedDigits(n: nat, k: nat): (s: string)
    ensures |s| == k && AllDigits(s)
  {
    if k == 0 then "" else PaddedDigits(n / 10, k - 1) + ['0' + (n % 10) as char]
  }

  /** `n` without its last `k` decimal digits. */
  function DropDigits(n: nat, k: nat): nat
  {
    if k == 0 then n else DropDigits(n / 10, k - 1)
  }

  /** The last `k` digits and the rest put back together give `n`. */
  lemma {:induction false} PaddedDigitsValue(n: nat, k: nat)
    ensures DigitsValue(PaddedDigits(n, k)) + Pow10(k) * DropDigits(n, k) == n
    ensures DigitsValue(PaddedDigits(n, k)) < Pow10(k)
    decreases k
  {
    if k > 0 {
      var s := PaddedDigits(n, k);
      var v := DigitsValue(s[..k - 1]);
      assert s[..k - 1] == PaddedDigits(n / 10, k - 1);
      PaddedDigitsValue(n / 10, k - 1);
      assert DigitsValue(s) == v * 10 + n % 10;
      DigitStep(v, Pow10(k - 1), DropDigits(n, k), n / 10, n % 10);
    }
  }

  /** Appending the digit `r` to a value below `p` that makes up `m`
      together with `p * d`. */
  lemma DigitStep(v: int, p: int, d: int, m: int, r: int)
    requires v + p * d == m && 0 <= v < p && 0 <= r < 10
    ensures (v * 10 + r) + (10 * p) * d == 10 * m + r
    ensures v * 10 + r < 10 * p
  {
    assert (10 * p) * d == 10 * (p * d);
  }

  /** `x` with the point moved `places` digits to the right. */
  function Shifted(x: real, places: nat): real
  {
    x * Pow10(places) as real
  }

  lemma ShiftedNonNeg(x: real, places: nat)
    requires x >= 0.0
    ensures Shifted(x, places) >= 0.0 && Shifted(x, places).Floor >= 0
  {
  }

  /** The digits of `x` up to `places` decimals, as one whole number. */
  function ShiftedDigits(x: real, places: nat): nat
    requires x >= 0.0
  {
    ShiftedNonNeg(x, places);
    Shifted(x, places).Floor
  }

  /** A non-negative number that is whole after shifting the point
      `places` digits to the right. */
  predicate HasDecimals(x: real, places: nat)
  {
    x >= 0.0 && Shifted(x, places) == Shifted(x, places).Floor as real
  }

  /** A non-negative number written with exactly `places` digits after the
      point, and with no point when `places` is 0. */
  function DecimalToString(x: real, places: nat): string
    requires x >= 0.0
  {
    var n := ShiftedDigits(x, places);
    if places == 0 then NatToString(n)
    else PointDigits(n, places)
  }

  /** `n` over `10^places` written with `places` digits after the point. */
  function PointDigits(n: nat, places: nat): string
  {
    NatToString(DropDigits(n, places)) + "." + PaddedDigits(n, places)
  }

  /** A written number holds neither `,` nor `:`. */
  lemma DecimalNoDelim(x: real, places: nat)
    requires x >= 0.0
    ensures NoDelim(DecimalToString(x, places))
  {
  }

  /** A whole part `q` and a remainder `r` over `p` make up `n` over `p`
      when `n = p * q + r`. */
  lemma QuotientParts(q: nat, r: nat, p: nat, n: nat)
    requires p >= 1 && p * q + r == n
    ensures q as real + r as real / p as real == n as real / p as real
  {
    assert (p * q) as real == p as real * q as real;
  }

  lemma Unscale(x: real, places: nat)
    requires HasDecimals(x, places)
    ensures x == ShiftedDigits(x, places) as real / Pow10(places) as real
  {
    DivBack(x, Pow10(places) as real, ShiftedDigits(x, places) as real);
  }

  lemma DivBack(x: real, p: real, y: real)
    requires p > 0.0 && x * p == y
    ensures x == y / p
  {
  }

  /** `q.r` with `places` digits after the point reads as `n` over
      `10^places`. */
  lemma ParsePointDigits(n: nat, places: nat)
    ensures ParseReal(PointDigits(n, places)) == Some(n as real / Pow10(places) as real)
  {
    var w, f := NatToString(DropDigits(n, places)), PaddedDigits(n, places);
    ParseDigitsPointDigits(w, f);
    assert Pow10(|f|) * DigitsValue(w) + DigitsValue(f) == n by {
      NatToStringValue(DropDigits(n, places));
      PaddedDigitsValue(n, places);
    }
    DecimalValueIs(w, f, n);
  }

  /** Digit strings `w` and `f` with `10^|f| * w + f = n` read as `n` over
      `10^|f|`. */
  lemma DecimalValueIs(w: string, f: string, n: nat)
    requires AllDigits(w) && AllDigits(f) && Pow10(|f|) * DigitsValue(w) + DigitsValue(f) == n
    ensures DecimalValue(w, f) == n as real / Pow10(|f|) as real
  {
    QuotientParts(DigitsValue(w), DigitsValue(f), Pow10(|f|), n);
  }

  /** A number written with enough decimals reads back as itself. */
  lemma ParseDecimalToString(x: real, places: nat)
    requires HasDecimals(x, places)
    ensures ParseReal(DecimalToString(x, places)) == Some(x)
  {
    var n := ShiftedDigits(x, places);
    Unscale(x, places);
    if places == 0 {
      ParseRealNat(n);
    } else {
      ParsePointDigits(n, places);
    }
  }
}
